/** The log of crs/app/counter_db.py read off the calls alone: which writes there are, in which
    order, and what each fetch_add returned. */
module CounterLog {
  import opened Wrappers
  import opened CounterSpec

  /** What a call that found its name cold had set out to do. */
  function Started(events: seq<Event>, w: Who): Option<(Name, Goal)> {
    if events == [] then None
    else
      var e := events[|events| - 1];
      if e.ColdStart? && e.who == w then Some((e.name, e.goal)) else Started(events[..|events| - 1], w)
  }

  /** The write a step makes, after the steps of `front`. */
  function WriteOf(front: seq<Event>, e: Event): Option<Write> {
    match e
    case WarmFetchAdd(n, a) => Some(Added(n, a))
    case SetValue(n, v) => Some(Stored(n, v))
    case ColdFetchAddEnd(w) =>
      var g := Started(front, w);
      if g.Some? && g.value.1.FetchAdd? then Some(Added(g.value.0, g.value.1.amount)) else None
    case _ => None
  }

  function LogOf(events: seq<Event>): seq<Write> {
    if events == [] then []
    else
      var (front, e) := (events[..|events| - 1], events[|events| - 1]);
      LogOf(front) + if WriteOf(front, e).Some? then [WriteOf(front, e).value] else []
  }

  /** One outcome for each fetch_add: the running total before its amount. */
  function OutcomesOf(events: seq<Event>, db0: map<Name, real>): seq<Outcome> {
    if events == [] then []
    else
      var (front, e) := (events[..|events| - 1], events[|events| - 1]);
      var w := WriteOf(front, e);
      OutcomesOf(front, db0) + if w.Some? && w.value.Added?
                               then [Outcome(w.value.name, |LogOf(front)|, Balance(db0, LogOf(front), w.value.name))]
                               else []
  }

  // ---------------------------------------------------------------- the log is the calls

  ghost predicate GoalsKnown(s: State, events: seq<Event>) {
    forall w :: w in s.pending ==> Started(events, w) == Some((s.pending[w].name, s.pending[w].goal))
  }

  lemma OneMoreStart(events: seq<Event>, e: Event, w: Who)
    ensures Started(events + [e], w)
         == if e.ColdStart? && e.who == w then Some((e.name, e.goal)) else Started(events, w)
  {
    assert (events + [e])[..|events|] == events;
  }

  lemma OneMoreWrite(events: seq<Event>, e: Event, db0: map<Name, real>)
    ensures var w := WriteOf(events, e);
      && LogOf(events + [e]) == LogOf(events) + (if w.Some? then [w.value] else [])
      && OutcomesOf(events + [e], db0) == OutcomesOf(events, db0)
         + (if w.Some? && w.value.Added?
            then [Outcome(w.value.name, |LogOf(events)|, Balance(db0, LogOf(events), w.value.name))] else [])
  {
    assert (events + [e])[..|events|] == events;
  }

  /** A step keeps the name and the goal of every call in progress. */
  lemma PendingStays(s: State, t: State, e: Event, w: Who)
    requires ReadsOk(s) && Step(s, t, e) && w in t.pending
    ensures if e.ColdStart? && e.who == w then t.pending[w].name == e.name && t.pending[w].goal == e.goal
            else w in s.pending && t.pending[w].name == s.pending[w].name && t.pending[w].goal == s.pending[w].goal
  {
  }

  lemma GoalsStayKnown(s: State, t: State, e: Event, events: seq<Event>)
    requires ReadsOk(s) && GoalsKnown(s, events) && Step(s, t, e)
    ensures GoalsKnown(t, events + [e])
  {
    forall w | w in t.pending ensures Started(events + [e], w) == Some((t.pending[w].name, t.pending[w].goal)) {
      OneMoreStart(events, e, w);
      PendingStays(s, t, e, w);
    }
  }

  /** The value a cold fetch_add goes on from is the running total. */
  lemma ColdTotal(s: State, db0: map<Name, real>, w: Who)
    requires UpToDate(s, db0) && ColdOk(s, db0) && w in s.pending && s.pending[w].HasRead?
    ensures var p := s.pending[w];
      (if p.name in s.cache then s.cache[p.name] else p.value) == Balance(db0, s.log, p.name)
  {
  }

  /** What a step adds to the log and to the outcomes. */
  lemma StepWrites(s: State, t: State, e: Event, events: seq<Event>, db0: map<Name, real>)
    requires UpToDate(s, db0) && ColdOk(s, db0) && GoalsKnown(s, events) && Step(s, t, e)
    ensures var w := WriteOf(events, e);
      && t.log == s.log + (if w.Some? then [w.value] else [])
      && t.outcomes == s.outcomes
         + (if w.Some? && w.value.Added?
            then [Outcome(w.value.name, |s.log|, Balance(db0, s.log, w.value.name))] else [])
  {
    match e
    case ColdFetchAddEnd(w) => ColdTotal(s, db0, w);
    case WarmFetchAdd(n, _) => assert s.cache[n] == Balance(db0, s.log, n);
    case _ =>
  }

  /** The log and the outcomes are those of the steps so far. */
  ghost predicate Logged(s: State, events: seq<Event>, db0: map<Name, real>) {
    GoalsKnown(s, events) && s.log == LogOf(events) && s.outcomes == OutcomesOf(events, db0)
  }

  lemma StaysLogged(s: State, t: State, e: Event, events: seq<Event>, db0: map<Name, real>)
    requires Inv(s, db0) && Logged(s, events, db0) && Step(s, t, e)
    ensures Logged(t, events + [e], db0)
  {
    GoalsStayKnown(s, t, e, events);
    StepWrites(s, t, e, events, db0);
    OneMoreWrite(events, e, db0);
  }

  /** Over every interleaving with safe cold gets, the log is the writes of the calls in the order
      of their last steps, and each fetch_add returned the running total before its own. */
  lemma {:induction false} LogIsCalls(states: seq<State>, events: seq<Event>, db0: map<Name, real>, i: nat)
    requires Run(states, events, db0) && i <= |events|
    ensures Logged(states[i], events[..i], db0)
    decreases i
  {
    if i > 0 {
      var n := i - 1;
      LogIsCalls(states, events, db0, n);
      RunKeepsInv(states, events, db0, n);
      StaysLogged(states[n], states[n + 1], events[n], events[..n], db0);
      assert events[..i] == events[..n] + [events[n]];
    }
  }

  /** A get returns the total as it is when it returns: a warm one always, a cold one if it is
      safe to publish and the name is cold still, or the cached value is what it read. */
  lemma GetsReturnTotals(s: State, db0: map<Name, real>, n: Name, w: Who)
    requires Inv(s, db0)
    ensures n in s.cache ==> s.cache[n] == Balance(db0, s.log, n)
    ensures GetIsSafe(s, w) ==> s.pending[w].value == Balance(db0, s.log, s.pending[w].name)
  {
  }
}
