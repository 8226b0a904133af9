/** The fair scheduler of crs/common/scheduler.py as transitions on values: what each call
    does to the accounts, which invariant every call keeps, and how fair the choice is. */
module SchedulerSpec {
  import opened Wrappers

  // Task keys; any hashable type would do.
  type Key = string

  // Nanoseconds.
  const QUANTUM: int := 10_000_000_000
  const WAKEUP: int := 1_000_000_000
  const TICKRATE: int := 100_000_000

  datatype SchedError = NoSuchTask | NotWaiting | NotRunning

  // The fields of one task.
  datatype Account = Account(lastTick: int, vruntime: int, running: int, waiting: int)

  datatype State = State(
    tasks: map<Key, Account>, running: set<Key>, waiting: set<Key>, queue: seq<Key>, vmin: int, lastTick: int)

  function Max(x: int, y: int): int { if x < y then y else x }
  function Min(x: int, y: int): int { if y < x then y else x }

  // ---------------------------------------------------------------- the calls

  function TickAccount(a: Account, now: int): Account {
    a.(vruntime := a.vruntime + (now - a.lastTick) * a.running, lastTick := now)
  }

  function Add(s: State, k: Key): State {
    var a := if k in s.tasks then s.tasks[k] else Account(0, 0, 0, 0);
    var first := a.waiting + 1 == 1;
    s.(tasks := s.tasks[k := a.(waiting := a.waiting + 1)],
       waiting := if first then s.waiting + {k} else s.waiting,
       queue := if first then s.queue + [k] else s.queue)
  }

  function Remove(s: State, k: Key): Result<State, SchedError> {
    if k !in s.tasks then Err(NoSuchTask)
    else if s.tasks[k].waiting <= 0 then Err(NotWaiting)
    else
      var a := s.tasks[k].(waiting := s.tasks[k].waiting - 1);
      Ok(s.(tasks := s.tasks[k := a], waiting := if a.waiting == 0 then s.waiting - {k} else s.waiting))
  }

  function Discard(s: State, k: Key): State {
    if k !in s.tasks then s
    else s.(tasks := s.tasks[k := s.tasks[k].(waiting := 0)], waiting := s.waiting - {k})
  }

  function FinishAccount(a: Account, now: int): Account {
    var b := TickAccount(a, now);
    b.(running := b.running - 1, vruntime := Max(0, b.vruntime - QUANTUM))
  }

  function Finish(s: State, k: Key, now: int): Result<State, SchedError> {
    if k !in s.tasks then Err(NoSuchTask)
    else if s.tasks[k].running <= 0 then Err(NotRunning)
    else
      var a := FinishAccount(s.tasks[k], now);
      Ok(s.(tasks := s.tasks[k := a], running := if a.running == 0 then s.running - {k} else s.running))
  }

  /** All running tasks ticked. */
  function TickAll(tasks: map<Key, Account>, running: set<Key>, now: int): map<Key, Account> {
    map k | k in tasks :: if k in running then TickAccount(tasks[k], now) else tasks[k]
  }

  /** `m` is the least of the first key's runtime before the tick and of everybody's after
      it; which running key comes first depends on the iteration order of a set. */
  ghost predicate LeastRuntime(tasks: map<Key, Account>, running: set<Key>, now: int, first: Key, m: int) {
    first in running && first in tasks && LeastAmong(tasks, running, now, tasks[first].vruntime, m)
  }

  ghost predicate LeastAmong(tasks: map<Key, Account>, ticked: set<Key>, now: int, start: int, m: int) {
    && m <= start
    && (forall k :: k in ticked && k in tasks ==> m <= TickAccount(tasks[k], now).vruntime)
    && (m == start || exists k :: k in ticked && k in tasks && m == TickAccount(tasks[k], now).vruntime)
  }

  lemma TickOneMore(tasks: map<Key, Account>, ticked: set<Key>, k: Key, now: int)
    requires k in tasks && k !in ticked
    ensures TickAll(tasks, ticked + {k}, now) == TickAll(tasks, ticked, now)[k := TickAccount(tasks[k], now)]
  {
  }

  lemma LeastOneMore(tasks: map<Key, Account>, ticked: set<Key>, k: Key, now: int, start: int, m: int)
    requires k in tasks && LeastAmong(tasks, ticked, now, start, m)
    ensures LeastAmong(tasks, ticked + {k}, now, start, Min(m, TickAccount(tasks[k], now).vruntime))
  {
    var v := TickAccount(tasks[k], now).vruntime;
    if m != start {
      var j :| j in ticked && j in tasks && m == TickAccount(tasks[j], now).vruntime;
      assert j in ticked + {k};
    }
    assert k in ticked + {k} && Min(m, v) in {m, v};
  }

  ghost predicate SortedDown(queue: seq<Key>, tasks: map<Key, Account>) {
    && (forall i :: 0 <= i < |queue| ==> queue[i] in tasks)
    && (forall i, j :: 0 <= i < j < |queue| ==> tasks[queue[i]].vruntime >= tasks[queue[j]].vruntime)
  }

  ghost predicate VminMoves(s: State, vmin: int, now: int) {
    if s.running == {} then vmin == s.vmin
    else exists first, m :: LeastRuntime(s.tasks, s.running, now, first, m) && vmin == Max(s.vmin, m)
  }

  /** The accounting part of a tick from `s` to `t`. */
  ghost predicate Accounted(s: State, t: State, now: int) {
    && t.running == s.running && t.waiting == s.waiting
    && if now - s.lastTick > TICKRATE then
         && t.lastTick == (if now - s.lastTick > TICKRATE * 2 then now else s.lastTick + TICKRATE)
         && t.tasks == TickAll(s.tasks, s.running, now)
         && VminMoves(s, t.vmin, now)
       else t.lastTick == s.lastTick && t.tasks == s.tasks && t.vmin == s.vmin
  }

  /** A tick: accounting, then sorting the queue. */
  ghost predicate Ticks(s: State, t: State, now: int) {
    Accounted(s, t, now) && SortedDown(t.queue, t.tasks) && multiset(t.queue) == multiset(s.queue)
  }

  lemma SortingTicks(s: State, mid: State, t: State, now: int)
    requires Accounted(s, mid, now) && t == mid.(queue := t.queue)
    requires SortedDown(t.queue, t.tasks) && multiset(t.queue) == multiset(s.queue)
    ensures Ticks(s, t, now)
  {
  }

  /** Start one slot: bring the account up to date and loan it a quantum. */
  function StartAccount(a: Account, vmin: int, now: int): Account {
    var b := if a.running == 0 then a.(lastTick := now, vruntime := Max(vmin - WAKEUP, a.vruntime))
             else TickAccount(a, now);
    b.(running := b.running + 1, vruntime := b.vruntime + QUANTUM)
  }

  /** A waiting slot becomes a running one. */
  function Charge(a: Account, vmin: int, now: int): Account {
    StartAccount(a.(waiting := a.waiting - 1), vmin, now)
  }

  /** Pop lazily removed tasks off the end of the queue, then serve the last one left. */
  function Serve(s: State, now: int): (State, Option<Key>)
    decreases |s.queue|
  {
    if s.queue == [] then (s, None)
    else
      var (k, rest) := (s.queue[|s.queue| - 1], s.queue[..|s.queue| - 1]);
      if k !in s.tasks || s.tasks[k].waiting == 0 then Serve(s.(queue := rest), now)
      else
        (Served(s, k, now), Some(k))
  }

  /** One slot for the last task of the queue. */
  function Served(s: State, k: Key, now: int): State
    requires k in s.tasks && s.queue != []
  {
    var a := Charge(s.tasks[k], s.vmin, now);
    s.(tasks := s.tasks[k := a],
       queue := if a.waiting == 0 then s.queue[..|s.queue| - 1] else s.queue,
       waiting := if a.waiting == 0 then s.waiting - {k} else s.waiting,
       running := s.running + {k})
  }

  lemma ServeWaiting(s: State, now: int)
    requires s.queue != [] && s.queue[|s.queue| - 1] in s.tasks && s.tasks[s.queue[|s.queue| - 1]].waiting != 0
    ensures var k := s.queue[|s.queue| - 1]; Serve(s, now) == (Served(s, k, now), Some(k))
  {
  }

  /** One call of schedule: a tick, then a service. */
  ghost predicate Schedules(s: State, t: State, now: int, r: Option<Key>) {
    exists mid :: Ticks(s, mid, now) && Serve(mid, now) == (t, r)
  }

  // ---------------------------------------------------------------- the invariant

  ghost predicate AccountOk(a: Account, clock: int) {
    && a.running >= 0 && a.waiting >= 0
    && a.lastTick <= clock
    && a.vruntime >= QUANTUM * a.running
  }

  ghost predicate Inv(s: State, clock: int) {
    && (forall k :: k in s.tasks ==> AccountOk(s.tasks[k], clock))
    && (forall k :: k in s.running <==> k in s.tasks && s.tasks[k].running > 0)
    && (forall k :: k in s.waiting <==> k in s.tasks && s.tasks[k].waiting > 0)
    && (forall k :: k in s.queue ==> k in s.tasks)
    && (forall k :: k in s.waiting ==> k in s.queue)
    && s.lastTick <= clock
  }

  lemma TickGrows(a: Account, clock: int, now: int)
    requires AccountOk(a, clock) && clock <= now
    ensures AccountOk(TickAccount(a, now), now) && TickAccount(a, now).vruntime >= a.vruntime
  {
    assert (now - a.lastTick) * a.running >= 0;
  }

  /** Finishing succeeds exactly for running tasks, and the refund is never clamped. */
  lemma FinishKeepsInv(s: State, clock: int, k: Key, now: int)
    requires Inv(s, clock) && clock <= now
    ensures Finish(s, k, now).Ok? <==> k in s.running
    ensures Finish(s, k, now).Ok? ==>
              && Inv(Finish(s, k, now).value, now)
              && Finish(s, k, now).value.tasks[k].vruntime == TickAccount(s.tasks[k], now).vruntime - QUANTUM
  {
    if k in s.running {
      TickGrows(s.tasks[k], clock, now);
    }
  }

  /** A tick keeps the invariant, lowers no runtime and never lowers vmin. */
  lemma TickKeepsInv(s: State, t: State, clock: int, now: int)
    requires Inv(s, clock) && clock <= now && Ticks(s, t, now)
    ensures Inv(t, now)
    ensures t.vmin >= s.vmin
    ensures t.tasks.Keys == s.tasks.Keys
    ensures forall k :: k in s.tasks ==>
              && t.tasks[k].vruntime >= s.tasks[k].vruntime
              && t.tasks[k].running == s.tasks[k].running && t.tasks[k].waiting == s.tasks[k].waiting
              && (s.tasks[k].running == 0 ==> t.tasks[k] == s.tasks[k])
  {
    forall k | k in s.tasks
      ensures AccountOk(TickAccount(s.tasks[k], now), now)
      ensures TickAccount(s.tasks[k], now).vruntime >= s.tasks[k].vruntime
    {
      TickGrows(s.tasks[k], clock, now);
    }
    SameElements(s.queue, t.queue);
  }

  lemma SameElements<T>(a: seq<T>, b: seq<T>)
    requires multiset(a) == multiset(b)
    ensures forall x :: x in a <==> x in b
  {
    forall x ensures x in a <==> x in b {
      assert x in a <==> x in multiset(a);
      assert x in b <==> x in multiset(b);
    }
  }

  // ---------------------------------------------------------------- serving

  lemma ChargeKeepsAccount(a: Account, clock: int, vmin: int)
    requires AccountOk(a, clock) && a.waiting > 0
    ensures var c := Charge(a, vmin, clock);
            && AccountOk(c, clock)
            && c.running == a.running + 1 && c.waiting == a.waiting - 1
            && c.vruntime >= a.vruntime + QUANTUM
  {
    if a.running > 0 {
      TickGrows(a.(waiting := a.waiting - 1), clock, clock);
    }
  }

  /** What serving does: nothing is served exactly when nothing waits, and then the queue is
      drained; otherwise a waiting task of least runtime gets one slot, and only its account
      changes. */
  lemma {:induction false} ServeOutcome(s: State, now: int)
    requires Inv(s, now) && SortedDown(s.queue, s.tasks)
    ensures var (t, r) := Serve(s, now);
            && Inv(t, now)
            && (r == None <==> s.waiting == {})
            && (r == None ==> t == s.(queue := []))
            && (r.Some? ==>
                  && r.value in s.waiting
                  && (forall u :: u in s.waiting ==> s.tasks[r.value].vruntime <= s.tasks[u].vruntime)
                  && t.tasks == s.tasks[r.value := Charge(s.tasks[r.value], s.vmin, now)]
                  && t.waiting == (if s.tasks[r.value].waiting == 1 then s.waiting - {r.value} else s.waiting)
                  && t.vmin == s.vmin && t.lastTick == s.lastTick)
    decreases |s.queue|
  {
    if s.queue == [] {
      assert s.(queue := []) == s;
    } else {
      var n := |s.queue| - 1;
      var (k, rest) := (s.queue[n], s.queue[..n]);
      assert s.queue == rest + [k];
      if s.tasks[k].waiting == 0 {
        var popped := s.(queue := rest);
        assert Inv(popped, now);
        ServeOutcome(popped, now);
      } else {
        ChargeKeepsAccount(s.tasks[k], now, s.vmin);
        GrantKeepsInv(s, Serve(s, now).0, now, k, Charge(s.tasks[k], s.vmin, now));
        LastIsLeast(s, k);
      }
    }
  }

  lemma LastIsLeast(s: State, k: Key)
    requires SortedDown(s.queue, s.tasks) && s.queue != [] && k == s.queue[|s.queue| - 1]
    requires forall u :: u in s.waiting ==> u in s.tasks && u in s.queue
    ensures forall u :: u in s.waiting ==> s.tasks[k].vruntime <= s.tasks[u].vruntime
  {
    forall u | u in s.waiting
      ensures s.tasks[k].vruntime <= s.tasks[u].vruntime
    {
      var i :| 0 <= i < |s.queue| && s.queue[i] == u;
    }
  }

  lemma GrantKeepsInv(s: State, t: State, clock: int, k: Key, a: Account)
    requires Inv(s, clock) && k in s.waiting && AccountOk(a, clock)
    requires a.running == s.tasks[k].running + 1 && a.waiting == s.tasks[k].waiting - 1
    requires s.queue != [] && k == s.queue[|s.queue| - 1]
    requires t == s.(tasks := s.tasks[k := a],
                     queue := if a.waiting == 0 then s.queue[..|s.queue| - 1] else s.queue,
                     waiting := if a.waiting == 0 then s.waiting - {k} else s.waiting,
                     running := s.running + {k})
    ensures Inv(t, clock)
  {
    assert s.queue == s.queue[..|s.queue| - 1] + [k];
  }

  /** What a call of schedule does to the accounts. */
  lemma ScheduleAccounts(s: State, mid: State, t: State, clock: int, now: int, r: Key)
    requires Inv(s, clock) && clock <= now && Ticks(s, mid, now) && Serve(mid, now) == (t, Some(r))
    ensures t.tasks.Keys == s.tasks.Keys && mid.tasks.Keys == s.tasks.Keys
    ensures r in s.waiting && r in s.tasks && mid.waiting == s.waiting && t.waiting <= s.waiting
    ensures t.waiting >= s.waiting - {r}
    ensures forall u :: u in s.waiting ==> u in s.tasks && mid.tasks[r].vruntime <= mid.tasks[u].vruntime
    ensures t.tasks[r].running == s.tasks[r].running + 1 && t.tasks[r].waiting == s.tasks[r].waiting - 1
    ensures t.tasks[r].vruntime >= s.tasks[r].vruntime + QUANTUM
    ensures mid.tasks[r].vruntime >= s.tasks[r].vruntime
    ensures forall u :: u in s.tasks && u != r ==>
              && t.tasks[u] == mid.tasks[u]
              && t.tasks[u].vruntime >= s.tasks[u].vruntime
              && t.tasks[u].running == s.tasks[u].running && t.tasks[u].waiting == s.tasks[u].waiting
              && (s.tasks[u].running == 0 ==> t.tasks[u] == s.tasks[u])
  {
    TickKeepsInv(s, mid, clock, now);
    ServeOutcome(mid, now);
    ChargeKeepsAccount(mid.tasks[r], now, mid.vmin);
  }

  /** schedule keeps the invariant and never lowers vmin; it returns nothing exactly when
      nothing waits, and then leaves an empty queue. */
  lemma ScheduleKeepsInv(s: State, t: State, clock: int, now: int, r: Option<Key>)
    requires Inv(s, clock) && clock <= now && Schedules(s, t, now, r)
    ensures Inv(t, now) && t.vmin >= s.vmin
    ensures r == None <==> s.waiting == {}
    ensures r == None ==> t.queue == [] && t.waiting == {}
  {
    var mid :| Ticks(s, mid, now) && Serve(mid, now) == (t, r);
    TickKeepsInv(s, mid, clock, now);
    ServeOutcome(mid, now);
  }

  /** schedule hands one slot to one waiting task, whose runtime, as recorded after the tick,
      is least among the waiting ones. */
  lemma ScheduleServesLeast(s: State, t: State, clock: int, now: int, r: Key)
    requires Inv(s, clock) && clock <= now && Schedules(s, t, now, Some(r))
    ensures r in s.waiting && t.tasks.Keys == s.tasks.Keys
    ensures t.tasks[r].running == s.tasks[r].running + 1 && t.tasks[r].waiting == s.tasks[r].waiting - 1
    ensures forall u :: u in s.tasks && u != r ==>
              t.tasks[u].running == s.tasks[u].running && t.tasks[u].waiting == s.tasks[u].waiting
    ensures exists mid :: Ticks(s, mid, now) && mid.tasks.Keys == s.tasks.Keys
              && forall u :: u in s.waiting && u in s.tasks ==> mid.tasks[r].vruntime <= mid.tasks[u].vruntime
  {
    var mid :| Ticks(s, mid, now) && Serve(mid, now) == (t, Some(r));
    ScheduleAccounts(s, mid, t, clock, now, r);
  }

  // ---------------------------------------------------------------- whole runs

  datatype Call =
    | CallAdd(key: Key)
    | CallRemove(key: Key)
    | CallDiscard(key: Key)
    | CallFinish(key: Key, now: int)
    | CallTick(now: int)
    | CallSchedule(now: int)

  const INIT: State := State(map[], {}, {}, [], 0, 0)

  /** One call; a call that raises changes nothing. */
  ghost predicate Step(s: State, t: State, c: Call) {
    match c
    case CallAdd(k) => t == Add(s, k)
    case CallRemove(k) => t == if Remove(s, k).Ok? then Remove(s, k).value else s
    case CallDiscard(k) => t == Discard(s, k)
    case CallFinish(k, now) => t == if Finish(s, k, now).Ok? then Finish(s, k, now).value else s
    case CallTick(now) => Ticks(s, t, now)
    case CallSchedule(now) => exists r :: Schedules(s, t, now, r)
  }

  function ClockAfter(clock: int, c: Call): int {
    match c
    case CallFinish(_, now) => now
    case CallTick(now) => now
    case CallSchedule(now) => now
    case _ => clock
  }

  /** `states` is a run of `calls` from the empty scheduler, the clock starting at zero and
      never going back; `clock` is its last reading. */
  ghost predicate Run(states: seq<State>, calls: seq<Call>, clock: int)
    decreases |calls|
  {
    if calls == [] then states == [INIT] && clock == 0
    else
      var n := |calls| - 1;
      && |states| == n + 2
      && (exists before :: Run(states[..n + 1], calls[..n], before)
                        && before <= ClockAfter(before, calls[n]) == clock)
      && Step(states[n], states[n + 1], calls[n])
  }

  lemma StepKeepsInv(s: State, t: State, clock: int, c: Call)
    requires Inv(s, clock) && 0 <= clock <= ClockAfter(clock, c) && Step(s, t, c)
    ensures Inv(t, ClockAfter(clock, c)) && t.vmin >= s.vmin
  {
    match c
    case CallAdd(k) =>
    case CallRemove(k) =>
    case CallDiscard(k) =>
    case CallFinish(k, now) => FinishKeepsInv(s, clock, k, now);
    case CallTick(now) => TickKeepsInv(s, t, clock, now);
    case CallSchedule(now) =>
      var r :| Schedules(s, t, now, r);
      ScheduleKeepsInv(s, t, clock, now, r);
  }

  /** Every reachable state satisfies the invariant. */
  lemma {:induction false} RunKeepsInv(states: seq<State>, calls: seq<Call>, clock: int)
    requires Run(states, calls, clock)
    ensures |states| == |calls| + 1 && clock >= 0
    ensures Inv(states[|calls|], clock)
    decreases |calls|
  {
    if calls != [] {
      var n := |calls| - 1;
      var before :| Run(states[..n + 1], calls[..n], before) && before <= ClockAfter(before, calls[n]) == clock;
      RunKeepsInv(states[..n + 1], calls[..n], before);
      StepKeepsInv(states[n], states[n + 1], before, calls[n]);
    }
  }

  /** Along a run vmin never falls. */
  lemma {:induction false} VminNeverFalls(states: seq<State>, calls: seq<Call>, clock: int, i: nat)
    requires Run(states, calls, clock) && i <= |calls|
    ensures |states| == |calls| + 1 && states[i].vmin <= states[|calls|].vmin
    decreases |calls|
  {
    if i < |calls| {
      var n := |calls| - 1;
      var before :| Run(states[..n + 1], calls[..n], before) && before <= ClockAfter(before, calls[n]) == clock;
      RunKeepsInv(states[..n + 1], calls[..n], before);
      VminNeverFalls(states[..n + 1], calls[..n], before, i);
      StepKeepsInv(states[n], states[n + 1], before, calls[n]);
    }
  }

  // ---------------------------------------------------------------- bounded bypass

  /** How many times `u` can still be served before `k`. */
  ghost function Lead(tasks: map<Key, Account>, waiting: set<Key>, k: Key, u: Key): nat
    requires k in tasks
  {
    if u in waiting && u in tasks && u != k && tasks[u].vruntime <= tasks[k].vruntime
    then (tasks[k].vruntime - tasks[u].vruntime) / QUANTUM + 1
    else 0
  }

  ghost function LeadSum(s: State, k: Key, us: set<Key>): nat
    requires k in s.tasks
    decreases |us|
  {
    if us == {} then 0
    else
      var u :| u in us;
      Lead(s.tasks, s.waiting, k, u) + LeadSum(s, k, us - {u})
  }

  /** The bypass bound of a waiting key: the sum over the keys with no more runtime. */
  ghost function Bypass(s: State, k: Key): nat
    requires k in s.tasks
  {
    LeadSum(s, k, s.tasks.Keys)
  }

  lemma {:induction false} LeadSumFalls(s: State, t: State, k: Key, us: set<Key>, served: Key)
    requires k in s.tasks && k in t.tasks
    requires forall u :: u in us ==> Lead(t.tasks, t.waiting, k, u) <= Lead(s.tasks, s.waiting, k, u)
    requires served in us ==> Lead(t.tasks, t.waiting, k, served) < Lead(s.tasks, s.waiting, k, served)
    ensures LeadSum(t, k, us) + (if served in us then 1 else 0) <= LeadSum(s, k, us)
    decreases |us|
  {
    if us != {} {
      var u :| u in us && LeadSum(s, k, us) == Lead(s.tasks, s.waiting, k, u) + LeadSum(s, k, us - {u})
                       && LeadSum(t, k, us) == Lead(t.tasks, t.waiting, k, u) + LeadSum(t, k, us - {u});
      LeadSumFalls(s, t, k, us - {u}, served);
    }
  }

  /** One call of schedule that serves someone else uses up one unit of the bound. */
  lemma BypassFalls(s: State, t: State, clock: int, now: int, k: Key, served: Key)
    requires Inv(s, clock) && clock <= now && Schedules(s, t, now, Some(served))
    requires k in s.waiting && s.tasks[k].running == 0 && served != k
    ensures k in t.waiting && k in t.tasks && t.tasks[k].running == 0
    ensures Bypass(t, k) + 1 <= Bypass(s, k)
  {
    var mid :| Ticks(s, mid, now) && Serve(mid, now) == (t, Some(served));
    ScheduleAccounts(s, mid, t, clock, now, served);
    LeadsFall(s, t, k, served);
  }

  lemma LeadsFall(s: State, t: State, k: Key, served: Key)
    requires k in s.tasks && served in s.waiting && served in s.tasks && served != k
    requires t.tasks.Keys == s.tasks.Keys && t.waiting <= s.waiting && t.tasks[k] == s.tasks[k]
    requires s.tasks[served].vruntime <= s.tasks[k].vruntime
    requires t.tasks[served].vruntime >= s.tasks[served].vruntime + QUANTUM
    requires forall u :: u in s.tasks ==> t.tasks[u].vruntime >= s.tasks[u].vruntime
    ensures Bypass(t, k) + 1 <= Bypass(s, k)
  {
    forall u | u in s.tasks
      ensures Lead(t.tasks, t.waiting, k, u) <= Lead(s.tasks, s.waiting, k, u)
    {
    }
    LeadSumFalls(s, t, k, s.tasks.Keys, served);
  }

  /** `states` is a run of schedule calls only, at the times `nows`, serving `served`. */
  ghost predicate ScheduleRun(states: seq<State>, nows: seq<int>, served: seq<Key>, clock: int) {
    && |states| == |nows| + 1 && |served| == |nows|
    && (forall i :: 0 <= i < |nows| ==> clock <= nows[i])
    && (forall i, j :: 0 <= i < j < |nows| ==> nows[i] <= nows[j])
    && (forall i :: 0 <= i < |nows| ==> Schedules(states[i], states[i + 1], nows[i], Some(served[i])))
  }

  /** Bounded bypass: while only schedule is called, a waiting key that is not running is
      passed over at most Bypass times. */
  lemma {:induction false} BoundedBypass(states: seq<State>, nows: seq<int>, served: seq<Key>, clock: int, k: Key)
    requires ScheduleRun(states, nows, served, clock)
    requires Inv(states[0], clock) && k in states[0].waiting && states[0].tasks[k].running == 0
    requires k !in served
    ensures |served| <= Bypass(states[0], k)
    decreases |served|
  {
    if |served| > 0 {
      assert clock <= nows[0] && Schedules(states[0], states[1], nows[0], Some(served[0]));
      assert served[0] in served;
      BypassFalls(states[0], states[1], clock, nows[0], k, served[0]);
      ScheduleKeepsInv(states[0], states[1], clock, nows[0], Some(served[0]));
      BoundedBypass(states[1..], nows[1..], served[1..], nows[0], k);
    }
  }
}
