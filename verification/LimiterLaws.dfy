/** The spend limiter of crs/app/helpers.py in terms of the calls: what was spent, and who is
    refused. */
module LimiterLaws {
  import opened Wrappers
  import opened LimiterSpec

  /** The sum of the amounts the jobs spent. */
  function SpentIn(events: seq<Event>): real {
    if events == [] then 0.0
    else
      var e := events[|events| - 1];
      SpentIn(events[..|events| - 1]) + if e.Spend? then e.amount else 0.0
  }

  /** Over every interleaving nothing else is ever counted as spent. */
  lemma {:induction false} TotalIsSpent(l: Limits, states: seq<State>, events: seq<Event>, k: nat)
    requires Run(l, states, events) && k <= |events|
    ensures states[k].total == states[0].counter + SpentIn(events[..k])
    decreases k
  {
    if k > 0 {
      TotalIsSpent(l, states, events, k - 1);
      assert events[..k][..k - 1] == events[..k - 1];
      assert Step(l, states[k - 1], states[k], events[k - 1]);
    }
  }

  /** So the idle counter is what it was at the start plus every amount spent. */
  lemma IdleCounterIsSpent(l: Limits, states: seq<State>, events: seq<Event>)
    requires l.deposit > 0.0 && Run(l, states, events) && states[|events|].jobs == map[]
    ensures states[|events|].counter == states[0].counter + SpentIn(events)
  {
    IdleCounterIsTotal(l, states, events);
    TotalIsSpent(l, states, events, |events|);
    assert events[..|events|] == events;
  }

  /** A job is refused if and only if what is settled and the deposits in flight reach the
      maximum; else it is let in. */
  lemma RefusedIff(l: Limits, states: seq<State>, events: seq<Event>, k: nat)
    requires l.deposit > 0.0 && Run(l, states, events) && k < |events| && events[k].Check?
    ensures var (s, t, j) := (states[k], states[k + 1], events[k].job);
      && j in t.jobs
      && t.jobs[j].phase == if s.admittedSpend + s.otherSpend + l.deposit * |InFlight(s)| as real >= l.max then Refused
                            else Admitted
  {
    DepositsStayBounded(l, states, events, k);
    assert Step(l, states[k], states[k + 1], events[k]);
  }

  /** What a job settles is its own spend less its deposit, and the deposit of a job let in is
      given back exactly once, when it settles. */
  lemma SettlesOnce(l: Limits, states: seq<State>, events: seq<Event>, k: nat)
    requires l.deposit > 0.0 && Run(l, states, events) && k < |events| && events[k].Settle?
    ensures var (s, t, j) := (states[k], states[k + 1], events[k].job);
      && j in s.jobs && j !in t.jobs
      && t.counter == s.counter + s.jobs[j].spent - if s.jobs[j].phase == Running then l.deposit else 0.0
  {
    RunKeepsInv(l, states, events, k);
    assert Step(l, states[k], states[k + 1], events[k]);
  }
}
