/** The priorities of the semaphore of crs/common/utils.py, read off the calls alone. */
module SemaphoreOrder {
  import opened SemaphoreSpec

  /** The priority with which a caller last queued up. */
  function PriorityOf<C(==)>(events: seq<Event<C>>, c: C): real {
    if events == [] then 0.0
    else
      var e := events[|events| - 1];
      if e.AcquireQueued? && e.who == c then e.priority else PriorityOf(events[..|events| - 1], c)
  }

  ghost predicate Prioritised<C>(s: State<C>, events: seq<Event<C>>) {
    forall c :: c in s.awaiting ==> s.awaiting[c] == PriorityOf(events, c)
  }

  lemma OneMoreCall<C>(events: seq<Event<C>>, e: Event<C>, c: C)
    ensures PriorityOf(events + [e], c)
         == if e.AcquireQueued? && e.who == c then e.priority else PriorityOf(events, c)
  {
    assert (events + [e])[..|events|] == events;
  }

  lemma AwaitingStays<C>(s: State<C>, t: State<C>, e: Event<C>, c: C)
    requires Step(s, t, e) && c in t.awaiting
    ensures if e.AcquireQueued? && e.who == c then t.awaiting[c] == e.priority
            else c in s.awaiting && t.awaiting[c] == s.awaiting[c]
  {
  }

  lemma {:induction false} PrioritiesAreKept<C>(states: seq<State<C>>, events: seq<Event<C>>, n: nat, i: nat)
    requires Run(states, events) && states[0] == Init(n) && i <= |events|
    ensures Prioritised(states[i], events[..i])
    decreases i
  {
    if i > 0 {
      var m := i - 1;
      PrioritiesAreKept(states, events, n, m);
      assert Step(states[m], states[m + 1], events[m]) && events[..i] == events[..m] + [events[m]];
      forall c | c in states[i].awaiting ensures states[i].awaiting[c] == PriorityOf(events[..i], c) {
        OneMoreCall(events[..m], events[m], c);
        AwaitingStays(states[m], states[i], events[m], c);
      }
    }
  }

  /** Over every interleaving a slot is handed to a caller that asked with the least priority
      value of all those queued. */
  lemma HandedToLeast<C>(states: seq<State<C>>, events: seq<Event<C>>, n: nat, i: nat, c: C, d: C)
    requires Run(states, events) && states[0] == Init(n) && i < |events|
    requires Grants(states[i], states[i + 1], c) && d in states[i].queue
    ensures PriorityOf(events[..i], c) <= PriorityOf(events[..i], d)
  {
    RunKeepsInv(states, events, n, i);
    PrioritiesAreKept(states, events, n, i);
    assert Step(states[i], states[i + 1], events[i]);
    GrantGoesToLeast(states[i], states[i + 1], events[i], n, c);
  }

  /** A slot given back while somebody is queued is handed on at once; else it is free. */
  lemma ReleaseHandsOn<C>(s: State<C>, t: State<C>, n: nat)
    requires Inv(s, n) && Step(s, t, Release)
    ensures t.holders == s.holders - 1
    ensures if s.queue == map[] then t.value == s.value + 1 && t.done == s.done
            else t.value == s.value && exists c :: Grants(s, t, c) && t.done == s.done + {c}
  {
    var u := s.(holders := s.holders - 1);
    if s.queue != map[] {
      var w :| w in u.queue && HandedTo(u, t, w);
      assert Grants(s, t, w);
    }
  }
}
