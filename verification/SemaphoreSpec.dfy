/** The priority semaphore of crs/common/utils.py as a state machine.  One step is one stretch
    of code between two suspension points; steps of different callers interleave freely. */
module SemaphoreSpec {

  /** `awaiting`: callers suspended inside acquire, with their priorities; `queue`: those still
      in the heap; `done`: those whose future is set; `holders`: slots handed out. */
  datatype State<C> = State(
    value: int, queue: map<C, real>, done: set<C>, awaiting: map<C, real>, holders: int)

  datatype Event<C> =
    | AcquireFree
    | AcquireQueued(who: C, priority: real)
    | Resume(who: C)
    | CancelGranted(who: C)
    | CancelQueued(who: C)
    | Release

  ghost predicate Least<C>(queue: map<C, real>, w: C) {
    w in queue && forall c :: c in queue ==> queue[w] <= queue[c]
  }

  /** release: free the slot, or hand it to a waiter of least priority value. */
  ghost predicate Released<C>(s: State<C>, t: State<C>) {
    if s.queue == map[] then t == s.(value := s.value + 1)
    else exists w :: w in s.queue && HandedTo(s, t, w)
  }

  ghost predicate HandedTo<C>(s: State<C>, t: State<C>, w: C) {
    Least(s.queue, w) && t == s.(queue := s.queue - {w}, done := s.done + {w})
  }

  ghost predicate Step<C>(s: State<C>, t: State<C>, e: Event<C>) {
    match e
    case AcquireFree =>
      s.value != 0 && t == s.(value := s.value - 1, holders := s.holders + 1)
    case AcquireQueued(c, p) =>
      s.value == 0 && c !in s.awaiting && t == s.(queue := s.queue[c := p], awaiting := s.awaiting[c := p])
    case Resume(c) =>
      c in s.awaiting && c in s.done
      && t == s.(awaiting := s.awaiting - {c}, done := s.done - {c}, holders := s.holders + 1)
    case CancelGranted(c) =>
      c in s.awaiting && c in s.done
      && Released(s.(awaiting := s.awaiting - {c}, done := s.done - {c}), t)
    case CancelQueued(c) =>
      c in s.awaiting && c !in s.done
      && t == s.(awaiting := s.awaiting - {c}, queue := s.queue - {c})
    case Release =>
      s.holders > 0 && Released(s.(holders := s.holders - 1), t)
  }

  function Init<C>(n: nat): State<C> { State(n, map[], {}, map[], 0) }

  /** `n` slots in all.  A suspended caller is queued exactly when its future is not set; a
      free slot means that nobody is queued. */
  ghost predicate Inv<C>(s: State<C>, n: nat) {
    && s.value >= 0 && s.holders >= 0
    && s.value + s.holders + |s.done| == n
    && s.done <= s.awaiting.Keys
    && s.queue.Keys == s.awaiting.Keys - s.done
    && (forall c :: c in s.queue ==> s.queue[c] == s.awaiting[c])
    && (s.value > 0 ==> s.queue == map[])
  }

  /** As Inv, with one slot in the hands of the code that is about to release it. */
  ghost predicate InvButOne<C>(s: State<C>, n: nat) {
    && s.value >= 0 && s.holders >= 0
    && s.value + s.holders + |s.done| + 1 == n
    && s.done <= s.awaiting.Keys
    && s.queue.Keys == s.awaiting.Keys - s.done
    && (forall c :: c in s.queue ==> s.queue[c] == s.awaiting[c])
    && (s.value > 0 ==> s.queue == map[])
  }

  lemma ReleaseRestoresInv<C>(s: State<C>, t: State<C>, n: nat)
    requires InvButOne(s, n) && Released(s, t)
    ensures Inv(t, n)
  {
    if s.queue != map[] {
      var w :| w in s.queue && HandedTo(s, t, w);
      assert w !in s.done;
    }
  }

  lemma StepKeepsInv<C>(s: State<C>, t: State<C>, e: Event<C>, n: nat)
    requires Inv(s, n) && Step(s, t, e)
    ensures Inv(t, n)
  {
    match e
    case AcquireFree =>
    case AcquireQueued(c, p) =>
      assert c !in s.done;
    case Resume(c) =>
    case CancelGranted(c) =>
      var u := s.(awaiting := s.awaiting - {c}, done := s.done - {c});
      assert InvButOne(u, n);
      ReleaseRestoresInv(u, t, n);
    case CancelQueued(c) =>
    case Release =>
      ReleaseRestoresInv(s.(holders := s.holders - 1), t, n);
  }

  // ---------------------------------------------------------------- whole runs

  ghost predicate Run<C>(states: seq<State<C>>, events: seq<Event<C>>) {
    && |states| == |events| + 1
    && forall i :: 0 <= i < |events| ==> Step(states[i], states[i + 1], events[i])
  }

  /** Over every interleaving no slot is lost or made up. */
  lemma {:induction false} RunKeepsInv<C>(states: seq<State<C>>, events: seq<Event<C>>, n: nat, k: nat)
    requires Run(states, events) && Inv(states[0], n) && k <= |events|
    ensures Inv(states[k], n)
    decreases k
  {
    if k > 0 {
      RunKeepsInv(states, events, n, k - 1);
      StepKeepsInv(states[k - 1], states[k], events[k - 1], n);
    }
  }

  /** Once nobody holds or waits, every slot is free again; while somebody is queued, every
      slot is held or on its way to a caller, so with any slot at all the queue moves on. */
  lemma SlotsAreConserved<C>(states: seq<State<C>>, events: seq<Event<C>>, n: nat)
    requires Run(states, events) && states[0] == Init(n)
    ensures var s := states[|events|];
            && (s.holders == 0 && s.awaiting == map[] ==> s.value == n)
            && (s.queue != map[] ==> s.value == 0 && s.holders + |s.done| == n)
            && s.holders <= n
  {
    RunKeepsInv(states, events, n, |events|);
    var s := states[|events|];
    if s.awaiting == map[] {
      assert s.done == {};
    }
  }

  /** A newcomer gets a slot at once only when nobody is queued. */
  lemma NoOvertaking<C>(s: State<C>, t: State<C>, n: nat)
    requires Inv(s, n) && Step(s, t, AcquireFree)
    ensures s.queue == map[]
  {
  }

  // ---------------------------------------------------------------- the order of hand-offs

  /** The caller a step takes out of the queue by handing it a slot. */
  ghost predicate Grants<C>(s: State<C>, t: State<C>, c: C) {
    c in s.queue && c !in t.queue && c in t.done
  }

  /** Only a hand-off grants, and only to a waiter of least priority value among those that
      were queued and were not cancelled in the same step. */
  lemma GrantGoesToLeast<C>(s: State<C>, t: State<C>, e: Event<C>, n: nat, c: C)
    requires Inv(s, n) && Step(s, t, e) && Grants(s, t, c)
    ensures Least(s.queue, c)
    ensures forall d :: d in s.queue && d != c ==> d in t.queue && t.queue[d] == s.queue[d]
  {
    if e.CancelGranted? {
      ReleaseGrants(s.(awaiting := s.awaiting - {e.who}, done := s.done - {e.who}), t, c);
    } else if e.Release? {
      ReleaseGrants(s.(holders := s.holders - 1), t, c);
    }
  }

  lemma ReleaseGrants<C>(s: State<C>, t: State<C>, c: C)
    requires Released(s, t) && Grants(s, t, c)
    ensures HandedTo(s, t, c)
  {
    if s.queue != map[] {
      var w :| w in s.queue && HandedTo(s, t, w);
    }
  }

  lemma ReleaseShrinks<C>(s: State<C>, t: State<C>)
    requires Released(s, t)
    ensures forall c :: c in t.queue ==> c in s.queue && t.queue[c] == s.queue[c]
  {
    if s.queue != map[] {
      var w :| w in s.queue && HandedTo(s, t, w);
    }
  }

  lemma QueueOnlyShrinks<C>(s: State<C>, t: State<C>, e: Event<C>)
    requires Step(s, t, e) && !e.AcquireQueued?
    ensures forall c :: c in t.queue ==> c in s.queue && t.queue[c] == s.queue[c]
  {
    if e.CancelGranted? {
      ReleaseShrinks(s.(awaiting := s.awaiting - {e.who}, done := s.done - {e.who}), t);
    } else if e.Release? {
      ReleaseShrinks(s.(holders := s.holders - 1), t);
    }
  }

  lemma {:induction false} QueueShrinksAlong<C>(states: seq<State<C>>, events: seq<Event<C>>, i: nat, j: nat)
    requires Run(states, events) && i <= j <= |events|
    requires forall k :: i <= k < j ==> !events[k].AcquireQueued?
    ensures forall c :: c in states[j].queue ==> c in states[i].queue && states[j].queue[c] == states[i].queue[c]
    decreases j
  {
    if i < j {
      QueueShrinksAlong(states, events, i, j - 1);
      QueueOnlyShrinks(states[j - 1], states[j], events[j - 1]);
    }
  }

  /** While nobody new queues up, slots are handed out in priority order. */
  lemma GrantsInPriorityOrder<C>(states: seq<State<C>>, events: seq<Event<C>>, n: nat, i: nat, j: nat, c: C, d: C)
    requires Run(states, events) && Inv(states[0], n)
    requires i < j < |events|
    requires forall k :: i <= k < j ==> !events[k].AcquireQueued?
    requires Grants(states[i], states[i + 1], c) && Grants(states[j], states[j + 1], d)
    ensures states[i].queue[c] <= states[j].queue[d]
  {
    RunKeepsInv(states, events, n, i);
    GrantGoesToLeast(states[i], states[i + 1], events[i], n, c);
    QueueShrinksAlong(states, events, i, j);
  }
}
