/** The semaphore object of crs/common/utils.py.  acquire suspends once, so it is split there:
    AcquireStart runs up to the await, AcquireResumed and AcquireCancelled are its two ends. */
module PrioritySemaphore {
  import opened SemaphoreSpec

  class PriorityWaiter {
    const priority: real
    var done: bool  // whether the waiter's future is set

    constructor (priority: real)
      ensures this.priority == priority && !done
    {
      this.priority := priority;
      done := false;
    }
  }

  class PrioritySemaphore {
    var value: int
    var waiters: seq<PriorityWaiter>
    ghost var awaiting: set<PriorityWaiter>  // callers suspended in acquire
    ghost var holders: int                   // slots handed out and not released

    /** At any suspension point a waiter is either in the heap and not done, or out of it and
        done. */
    ghost predicate Valid()
      reads this, awaiting
    {
      && (forall i, j :: 0 <= i < j < |waiters| ==> waiters[i] != waiters[j])
      && (forall w :: w in waiters ==> w in awaiting)
      && (forall w :: w in awaiting ==> (w in waiters <==> !w.done))
    }

    ghost function View(): State<PriorityWaiter>
      reads this, awaiting
    {
      State(value, map w | w in waiters :: w.priority, set w | w in awaiting && w.done,
            map w | w in awaiting :: w.priority, holders)
    }

    constructor (value: int)
      requires value >= 0
      ensures Valid() && View() == Init(value)
    {
      this.value, waiters, awaiting, holders := value, [], {}, 0;
    }

    /** heapq.heappop: takes out some waiter of least priority value. */
    method HeapPop() returns (w: PriorityWaiter)
      requires Valid() && waiters != []
      modifies `waiters
      ensures Least(old(View().queue), w)
      ensures forall x :: x in waiters <==> x in old(waiters) && x != w
      ensures forall i, j :: 0 <= i < j < |waiters| ==> waiters[i] != waiters[j]
    {
      var at := 0;
      for i := 1 to |waiters|
        invariant 0 <= at < |waiters|
        invariant forall k :: 0 <= k < i ==> waiters[at].priority <= waiters[k].priority
      {
        if waiters[i].priority < waiters[at].priority {
          at := i;
        }
      }
      w := waiters[at];
      RemoveAt(waiters, at);
      waiters := waiters[..at] + waiters[at + 1..];
    }

    static lemma RemoveAt(s: seq<PriorityWaiter>, at: nat)
      requires at < |s| && forall i, j :: 0 <= i < j < |s| ==> s[i] != s[j]
      ensures var r := s[..at] + s[at + 1..];
              && (forall x :: x in r <==> x in s && x != s[at])
              && (forall i, j :: 0 <= i < j < |r| ==> r[i] != r[j])
    {
      var r := s[..at] + s[at + 1..];
      forall x | x in s && x != s[at]
        ensures x in r
      {
        var i :| 0 <= i < |s| && s[i] == x;
        assert r[if i < at then i else i - 1] == x;
      }
    }

    method Release()
      requires Valid() && value >= 0
      modifies this, waiters
      ensures Valid() && awaiting == old(awaiting) && holders == old(holders)
      ensures Released(old(View()), View())
    {
      if |waiters| == 0 {
        value := value + 1;
      } else {
        var waiter := HeapPop();
        waiter.done := true;
        assert HandedTo(old(View()), View(), waiter);
      }
    }

    /** A null result is the fast path: the slot is taken without waiting. */
    method AcquireStart(priority: real) returns (waiter: PriorityWaiter?)
      requires Valid()
      modifies this
      ensures Valid()
      ensures waiter == null <==> old(value) != 0
      ensures waiter == null ==> Step(old(View()), View(), AcquireFree)
      ensures waiter != null ==> fresh(waiter) && Step(old(View()), View(), AcquireQueued(waiter, priority))
    {
      if value != 0 {
        value := value - 1;
        holders := holders + 1;
        return null;
      }
      waiter := Enqueue(priority);
    }

    method Enqueue(priority: real) returns (fut: PriorityWaiter)
      requires Valid() && value == 0
      modifies `waiters, `awaiting
      ensures Valid() && fresh(fut) && Step(old(View()), View(), AcquireQueued(fut, priority))
    {
      fut := new PriorityWaiter(priority);
      waiters := waiters + [fut];
      awaiting := awaiting + {fut};
      assert View().queue == old(View()).queue[fut := priority];
      assert View().awaiting == old(View()).awaiting[fut := priority];
      assert View().done == old(View()).done;
    }

    /** The future was set: the slot is ours. */
    method AcquireResumed(waiter: PriorityWaiter)
      requires Valid() && waiter in awaiting && waiter.done
      modifies this
      ensures Valid() && Step(old(View()), View(), Resume(waiter))
    {
      awaiting := awaiting - {waiter};
      holders := holders + 1;
    }

    /** Cancelled while suspended: give the slot on if we already have it, else leave the heap. */
    method AcquireCancelled(waiter: PriorityWaiter)
      requires Valid() && waiter in awaiting && value >= 0
      modifies this, waiters
      ensures Valid()
      ensures Step(old(View()), View(), if old(waiter.done) then CancelGranted(waiter) else CancelQueued(waiter))
    {
      ghost var s := View();
      awaiting := awaiting - {waiter};
      if waiter.done {
        assert View() == s.(awaiting := s.awaiting - {waiter}, done := s.done - {waiter});
        Release();
      } else {
        HeapRemove(waiter);
      }
    }

    /** list.remove followed by heapq.heapify. */
    method HeapRemove(waiter: PriorityWaiter)
      requires waiter in waiters
      requires forall i, j :: 0 <= i < j < |waiters| ==> waiters[i] != waiters[j]
      modifies `waiters
      ensures forall x :: x in waiters <==> x in old(waiters) && x != waiter
      ensures forall i, j :: 0 <= i < j < |waiters| ==> waiters[i] != waiters[j]
    {
      var at :| 0 <= at < |waiters| && waiters[at] == waiter;
      RemoveAt(waiters, at);
      waiters := waiters[..at] + waiters[at + 1..];
    }

    /** Leaving a scope gives the slot back. */
    method ScopeExit()
      requires Valid() && value >= 0 && holders > 0
      modifies this, waiters
      ensures Valid() && Step(old(View()), View(), SemaphoreSpec.Event.Release)
    {
      holders := holders - 1;
      Release();
    }
  }
}
