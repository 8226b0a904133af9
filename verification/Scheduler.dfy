/** The scheduler object of crs/common/scheduler.py.  Tasks are shared between the dictionary
    and the queue and are updated in place; every method is one transition of SchedulerSpec. */
module Scheduler {
  import opened Wrappers
  import opened SchedulerSpec

  /** Part of the tasks is done, the rest is still to do. */
  ghost predicate Splits(done: set<Key>, todo: set<Key>, all: set<Key>) {
    todo <= all && done == all - todo
  }

  lemma SplitsNext(done: set<Key>, todo: set<Key>, all: set<Key>, k: Key)
    requires Splits(done, todo, all) && k in todo
    ensures Splits(done + {k}, todo - {k}, all) && |todo - {k}| < |todo|
  {
  }

  class ScheduleTask {
    const key: Key
    var lastTick: int
    var vruntime: int
    var running: int
    var waiting: int

    constructor (key: Key)
      ensures this.key == key && Value() == Account(0, 0, 0, 0)
    {
      this.key := key;
      lastTick, vruntime, running, waiting := 0, 0, 0, 0;
    }

    ghost function Value(): Account
      reads this
    {
      Account(lastTick, vruntime, running, waiting)
    }

    method Tick(now: int)
      modifies this
      ensures Value() == TickAccount(old(Value()), now)
    {
      vruntime := vruntime + (now - lastTick) * running;
      lastTick := now;
    }

    method Start(vmin: int, now: int)
      modifies this
      ensures Value() == StartAccount(old(Value()), vmin, now)
    {
      if running == 0 {
        lastTick := now;
        vruntime := Max(vmin - WAKEUP, vruntime);
      } else {
        Tick(now);
      }
      running := running + 1;
      vruntime := vruntime + QUANTUM;
    }
  }

  class Scheduler {
    var tasks: map<Key, ScheduleTask>
    var running: set<Key>
    var waiting: set<Key>
    var queue: seq<Key>  // the queued task objects, each named by its key
    var vmin: int
    var lastTick: int

    ghost predicate Valid()
      reads this
    {
      && (forall k :: k in tasks ==> tasks[k].key == k)
      && (forall k :: k in queue ==> k in tasks)
    }

    ghost function Accounts(): map<Key, Account>
      reads `tasks, tasks.Values
    {
      map k | k in tasks :: tasks[k].Value()
    }

    ghost function View(): State
      reads this, tasks.Values
    {
      State(Accounts(), running, waiting, queue, vmin, lastTick)
    }

    constructor ()
      ensures Valid() && View() == INIT
    {
      tasks, running, waiting, queue := map[], {}, {}, [];
      vmin, lastTick := 0, 0;
    }

    /** The task of a key, made now if there is none. */
    method Lookup(key: Key) returns (task: ScheduleTask)
      requires Valid()
      modifies `tasks
      ensures Valid() && key in tasks && task == tasks[key] && fresh(tasks.Values - old(tasks.Values))
      ensures Accounts() == if key in old(tasks) then old(Accounts()) else old(Accounts())[key := Account(0, 0, 0, 0)]
    {
      if key !in tasks {
        var fresh_ := new ScheduleTask(key);
        tasks := tasks[key := fresh_];
      }
      task := tasks[key];
    }

    method SetWaiting(key: Key, n: int)
      requires Valid() && key in tasks
      modifies tasks[key]
      ensures tasks[key].waiting == n
      ensures Accounts() == old(Accounts())[key := old(tasks[key].Value()).(waiting := n)]
    {
      tasks[key].waiting := n;
    }

    /** One more waiter for a task; `n` is how many there are now. */
    method AddWaiter(key: Key) returns (n: int)
      requires Valid()
      modifies `tasks, tasks.Values
      ensures Valid() && key in tasks && fresh(tasks.Values - old(tasks.Values))
      ensures var a := if key in old(tasks) then old(Accounts())[key] else Account(0, 0, 0, 0);
        n == a.waiting + 1 && Accounts() == old(Accounts())[key := a.(waiting := n)]
    {
      var task := Lookup(key);
      n := task.waiting + 1;
      assert Accounts()[key] == task.Value();
      SetWaiting(key, n);
    }

    method Add(key: Key)
      requires Valid()
      modifies this, tasks.Values
      ensures Valid() && fresh(tasks.Values - old(tasks.Values))
      ensures View() == SchedulerSpec.Add(old(View()), key)
    {
      var n := AddWaiter(key);
      if n == 1 {
        waiting := waiting + {key};
        queue := queue + [key];
      }
    }

    method Remove(key: Key) returns (r: Result<(), SchedError>)
      requires Valid()
      modifies this, tasks.Values
      ensures Valid() && tasks == old(tasks)
      ensures match SchedulerSpec.Remove(old(View()), key)
              case Ok(t) => r.Ok? && View() == t
              case Err(e) => r == Err(e) && View() == old(View())
    {
      if key !in tasks {
        return Err(NoSuchTask);
      }
      var task := tasks[key];
      if task.waiting <= 0 {
        return Err(NotWaiting);
      }
      SetWaiting(key, task.waiting - 1);
      if task.waiting == 0 {
        waiting := waiting - {key};
      }
      r := Ok(());
    }

    method Discard(key: Key)
      requires Valid()
      modifies this, tasks.Values
      ensures Valid() && tasks == old(tasks)
      ensures View() == SchedulerSpec.Discard(old(View()), key)
    {
      if key !in tasks {
        return;
      }
      SetWaiting(key, 0);
      waiting := waiting - {key};
    }

    /** One slot of a task less: the time is charged, the quantum given back. */
    method Refund(key: Key, now: int)
      requires Valid() && key in tasks
      modifies tasks[key]
      ensures var a := TickAccount(old(tasks[key].Value()), now);
        && tasks[key].running == a.running - 1
        && Accounts() == old(Accounts())[key := a.(running := a.running - 1, vruntime := Max(0, a.vruntime - QUANTUM))]
    {
      var task := tasks[key];
      task.Tick(now);
      task.running := task.running - 1;
      task.vruntime := Max(0, task.vruntime - QUANTUM);
    }

    method Finish(key: Key, now: int) returns (r: Result<(), SchedError>)
      requires Valid()
      modifies this, tasks.Values
      ensures Valid() && tasks == old(tasks)
      ensures match SchedulerSpec.Finish(old(View()), key, now)
              case Ok(t) => r.Ok? && View() == t
              case Err(e) => r == Err(e) && View() == old(View())
    {
      if key !in tasks {
        return Err(NoSuchTask);
      }
      var task := tasks[key];
      if task.running <= 0 {
        return Err(NotRunning);
      }
      Refund(key, now);
      if task.running == 0 {
        running := running - {key};
      }
      r := Ok(());
    }

    /** One round of the accounting loop: `ticked` are the tasks of earlier rounds. */
    method TickNext(key: Key, now: int, m: int, ghost was: map<Key, Account>, ghost ticked: set<Key>, ghost start: int)
      returns (least: int)
      requires Valid() && key in tasks && key in was && key !in ticked
      requires Accounts() == TickAll(was, ticked, now) && LeastAmong(was, ticked, now, start, m)
      modifies tasks[key]
      ensures Accounts() == TickAll(was, ticked + {key}, now)
      ensures LeastAmong(was, ticked + {key}, now, start, least)
    {
      assert Accounts()[key] == tasks[key].Value();
      TickOneMore(was, ticked, key, now);
      LeastOneMore(was, ticked, key, now, start, m);
      tasks[key].Tick(now);
      least := Min(m, tasks[key].vruntime);
    }

    /** The accounting loop of a tick: every running task is ticked once; `m` ends up as the
        least runtime seen. */
    method TickRunning(now: int) returns (m: int, ghost first: Key)
      requires Valid() && running != {} && running <= tasks.Keys
      modifies tasks.Values
      ensures Accounts() == TickAll(old(Accounts()), running, now)
      ensures LeastRuntime(old(Accounts()), running, now, first, m)
    {
      ghost var was, ticked := Accounts(), {};
      var firstKey :| firstKey in running;
      first := firstKey;
      m := tasks[firstKey].vruntime;
      var todo := running;
      assert Accounts() == TickAll(was, ticked, now);
      while todo != {}
        invariant Splits(ticked, todo, running)
        invariant Accounts() == TickAll(was, ticked, now)
        invariant LeastAmong(was, ticked, now, was[firstKey].vruntime, m)
        decreases |todo|
      {
        var key :| key in todo;
        m := TickNext(key, now, m, was, ticked, was[firstKey].vruntime);
        SplitsNext(ticked, todo, running, key);
        ticked, todo := ticked + {key}, todo - {key};
      }
    }

    ghost predicate Down(q: seq<Key>)
      reads `tasks, tasks.Values
    {
      && (forall k :: k in q ==> k in tasks)
      && (forall i, j :: 0 <= i < j < |q| ==> tasks[q[i]].vruntime >= tasks[q[j]].vruntime)
    }

    lemma DownCons(k: Key, q: seq<Key>)
      requires k in tasks && Down(q)
      requires q == [] || (q[0] in tasks && tasks[q[0]].vruntime <= tasks[k].vruntime)
      ensures Down([k] + q)
    {
      var r := [k] + q;
      forall i, j | 0 <= i < j < |r|
        ensures r[i] in tasks && r[j] in tasks && tasks[r[i]].vruntime >= tasks[r[j]].vruntime
      {
        assert r[j] == q[j - 1] && r[j] in q;
        assert i > 0 ==> r[i] == q[i - 1] && r[i] in q;
        assert tasks[q[0]].vruntime >= tasks[q[j - 1]].vruntime;
      }
    }

    lemma DownTail(q: seq<Key>)
      requires Down(q) && q != []
      ensures Down(q[1..]) && q == [q[0]] + q[1..]
      ensures |q| > 1 ==> q[0] in tasks && q[1] in tasks && tasks[q[0]].vruntime >= tasks[q[1]].vruntime
    {
    }

    lemma BagCons(k: Key, q: seq<Key>, rest: seq<Key>)
      requires q != [] && multiset(rest) == multiset{k} + multiset(q[1..])
      ensures multiset([q[0]] + rest) == multiset{k} + multiset(q)
    {
      assert q == [q[0]] + q[1..];
    }

    /** `k` placed before the first key of `q` with no more runtime. */
    function InsertDown(k: Key, q: seq<Key>): (r: seq<Key>)
      requires k in tasks && Down(q)
      reads `tasks, tasks.Values
      ensures Down(r) && |r| == |q| + 1
      ensures r[0] == k || (q != [] && r[0] == q[0])
      ensures multiset(r) == multiset{k} + multiset(q)
    {
      if q == [] || tasks[q[0]].vruntime <= tasks[k].vruntime then
        DownCons(k, q);
        [k] + q
      else
        DownTail(q);
        var rest := InsertDown(k, q[1..]);
        DownCons(q[0], rest);
        BagCons(k, q, rest);
        [q[0]] + rest
    }

    /** A stable sort by falling runtime. */
    function SortDown(q: seq<Key>): (r: seq<Key>)
      requires forall k :: k in q ==> k in tasks
      reads `tasks, tasks.Values
      ensures Down(r)
      ensures multiset(r) == multiset(q)
    {
      if q == [] then []
      else
        assert q == [q[0]] + q[1..];
        InsertDown(q[0], SortDown(q[1..]))
    }

    method TickAccounts(now: int)
      requires Valid() && running <= tasks.Keys
      modifies `lastTick, `vmin, tasks.Values
      ensures Accounted(old(View()), View(), now)
    {
      ghost var s := View();
      var delta := now - lastTick;
      if delta > TICKRATE {
        if delta > TICKRATE * 2 {
          lastTick := now;
        } else {
          lastTick := lastTick + TICKRATE;
        }
        assert Accounts() == s.tasks;
        TickVmin(now, s);
      }
    }

    method TickVmin(now: int, ghost s: State)
      requires Valid() && running <= tasks.Keys && now - s.lastTick > TICKRATE
      requires View() == s.(lastTick := if now - s.lastTick > TICKRATE * 2 then now else s.lastTick + TICKRATE)
      modifies `vmin, tasks.Values
      ensures Accounted(s, View(), now)
    {
      if running != {} {
        var m, first := TickRunning(now);
        vmin := Max(vmin, m);
      } else {
        assert Accounts() == TickAll(s.tasks, running, now);
      }
    }

    method Tick(now: int)
      requires Valid() && running <= tasks.Keys
      modifies this, tasks.Values
      ensures Valid() && tasks == old(tasks)
      ensures Ticks(old(View()), View(), now)
    {
      TickAccounts(now);
      ghost var mid := View();
      SortQueue();
      SortingTicks(old(View()), mid, View(), now);
    }

    method SortQueue()
      requires Valid()
      modifies `queue
      ensures Valid() && View() == old(View()).(queue := queue)
      ensures SortedDown(queue, Accounts()) && multiset(queue) == multiset(old(queue))
    {
      var sorted := SortDown(queue);
      DownIsSorted(sorted);
      queue := sorted;
    }

    lemma DownIsSorted(q: seq<Key>)
      requires Down(q)
      ensures SortedDown(q, Accounts())
    {
    }

    method Schedule(now: int) returns (r: Option<Key>)
      requires Valid() && running <= tasks.Keys
      modifies this, tasks.Values
      ensures Valid() && tasks == old(tasks)
      ensures Schedules(old(View()), View(), now, r)
    {
      Tick(now);
      r := ServeLast(now);
    }

    /** The loop of schedule: lazily removed tasks are dropped off the end of the queue. */
    method ServeLast(now: int) returns (r: Option<Key>)
      requires Valid()
      modifies this, tasks.Values
      ensures Valid() && tasks == old(tasks)
      ensures Serve(old(View()), now) == (View(), r)
    {
      while queue != []
        invariant Valid() && tasks == old(tasks)
        invariant Accounts() == old(Accounts())
        invariant Serve(View(), now) == Serve(old(View()), now)
        decreases |queue|
      {
        var task := tasks[queue[|queue| - 1]];
        if task.waiting == 0 {
          queue := queue[..|queue| - 1];
          continue;
        }
        StartSlot(task, now);
        return Some(task.key);
      }
      return None;
    }

    /** One slot for the last task of the queue. */
    method StartSlot(task: ScheduleTask, now: int)
      requires Valid() && queue != [] && task == tasks[queue[|queue| - 1]] && task.waiting != 0
      modifies this, tasks.Values
      ensures Valid() && tasks == old(tasks)
      ensures Serve(old(View()), now) == (View(), Some(task.key))
    {
      ServeWaiting(View(), now);
      assert Accounts()[task.key] == task.Value();
      ChargeTask(task, now);
      if task.waiting == 0 {
        queue := queue[..|queue| - 1];
        waiting := waiting - {task.key};
      }
      running := running + {task.key};
    }

    /** A waiter of a task less, a slot more. */
    method ChargeTask(task: ScheduleTask, now: int)
      requires Valid() && task in tasks.Values
      modifies task
      ensures task.Value() == Charge(old(task.Value()), vmin, now)
      ensures Accounts() == old(Accounts())[task.key := task.Value()]
    {
      task.waiting := task.waiting - 1;
      task.Start(vmin, now);
    }
  }
}
