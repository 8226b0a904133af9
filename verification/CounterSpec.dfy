/** The write-through counter cache of crs/app/counter_db.py as a state machine.  Calls
    suspend only while their statement waits on the pinned connection, which runs statements
    first in, first out; the stretches in between are the steps. */
module CounterSpec {

  type Name = (string, string)  // task and counter
  type Who = nat                // a call in progress

  datatype Statement =
    | Select(who: Who, name: Name)
    | Upsert(name: Name, amount: real)   // value = value + amount
    | Store(name: Name, value: real)

  // A write in the order the cache saw it.
  datatype Write = Added(name: Name, amount: real) | Stored(name: Name, value: real)

  datatype Goal = FetchAdd(amount: real) | Get

  // A call on a cold name: its row is still to be read, or has been read.
  datatype Pending = Reading(name: Name, goal: Goal) | HasRead(name: Name, goal: Goal, value: real)

  // What a finished fetch_add returned, and where its write stands in the log.
  datatype Outcome = Outcome(name: Name, at: nat, value: real)

  datatype State = State(
    cache: map<Name, real>, db: map<Name, real>, fifo: seq<Statement>,
    pending: map<Who, Pending>, log: seq<Write>, outcomes: seq<Outcome>)

  datatype Event =
    | WarmFetchAdd(name: Name, amount: real)
    | ColdStart(who: Who, name: Name, goal: Goal)
    | ColdFetchAddEnd(who: Who)
    | ColdGetEnd(who: Who)
    | SetValue(name: Name, value: real)
    | RunStatement

  function Row(db: map<Name, real>, n: Name): real { if n in db then db[n] else 0.0 }

  // ---------------------------------------------------------------- steps

  function Commit(s: State, n: Name, before: real, amount: real): State {
    s.(cache := s.cache[n := before + amount], fifo := s.fifo + [Upsert(n, amount)],
       log := s.log + [Added(n, amount)], outcomes := s.outcomes + [Outcome(n, |s.log|, before)])
  }

  function DoSet(s: State, n: Name, v: real): State {
    s.(cache := s.cache[n := v], fifo := s.fifo + [Store(n, v)], log := s.log + [Stored(n, v)])
  }

  function Execute(s: State): State
    requires s.fifo != []
  {
    var rest := s.(fifo := s.fifo[1..]);
    match s.fifo[0]
    case Select(w, n) =>
      if w in s.pending then rest.(pending := s.pending[w := HasRead(n, s.pending[w].goal, Row(s.db, n))]) else rest
    case Upsert(n, a) => rest.(db := s.db[n := Row(s.db, n) + a])
    case Store(n, v) => rest.(db := s.db[n := v])
  }

  ghost predicate Step(s: State, t: State, e: Event) {
    match e
    case WarmFetchAdd(n, a) => n in s.cache && t == Commit(s, n, s.cache[n], a)
    case ColdStart(w, n, goal) =>
      && n !in s.cache && w !in s.pending
      && t == s.(fifo := s.fifo + [Select(w, n)], pending := s.pending[w := Reading(n, goal)])
    case ColdFetchAddEnd(w) =>
      && w in s.pending && s.pending[w].HasRead? && s.pending[w].goal.FetchAdd?
      && var p := s.pending[w];
         var before := if p.name in s.cache then s.cache[p.name] else p.value;
         t == Commit(s.(pending := s.pending - {w}), p.name, before, p.goal.amount)
    case ColdGetEnd(w) =>
      && w in s.pending && s.pending[w].HasRead? && s.pending[w].goal.Get?
      && t == s.(pending := s.pending - {w}, cache := s.cache[s.pending[w].name := s.pending[w].value])
    case SetValue(n, v) =>
      t == DoSet(s, n, v)
    case RunStatement => s.fifo != [] && t == Execute(s)
  }

  // ---------------------------------------------------------------- what the log says

  /** The value of `n` after the writes of `log`, from the rows `db0`. */
  function Balance(db0: map<Name, real>, log: seq<Write>, n: Name): real {
    if log == [] then Row(db0, n)
    else
      var before := Balance(db0, log[..|log| - 1], n);
      var w := log[|log| - 1];
      if w.name != n then before
      else match w
        case Added(_, a) => before + a
        case Stored(_, v) => v
  }

  /** The row of `n` once every queued statement has run. */
  function Drained(row: real, fifo: seq<Statement>, n: Name): real
    decreases |fifo|
  {
    if fifo == [] then row
    else match fifo[0]
      case Select(_, _) => Drained(row, fifo[1..], n)
      case Upsert(m, a) => Drained(if m == n then row + a else row, fifo[1..], n)
      case Store(m, v) => Drained(if m == n then v else row, fifo[1..], n)
  }

  predicate WritesTo(st: Statement, n: Name) {
    !st.Select? && st.name == n
  }

  /** The queued statements bring the table up to date, and the cache is up to date. */
  ghost predicate UpToDate(s: State, db0: map<Name, real>) {
    && (forall n: Name :: Drained(Row(s.db, n), s.fifo, n) == Balance(db0, s.log, n))
    && (forall n :: n in s.cache ==> s.cache[n] == Balance(db0, s.log, n))
  }

  /** A cold name has not been written to, and what a call has read of it is still the row. */
  ghost predicate ColdOk(s: State, db0: map<Name, real>) {
    && (forall n: Name, i :: n !in s.cache && 0 <= i < |s.fifo| ==> !WritesTo(s.fifo[i], n))
    && (forall w :: w in s.pending && s.pending[w].HasRead? && s.pending[w].name !in s.cache ==>
          s.pending[w].value == Balance(db0, s.log, s.pending[w].name))
  }

  /** Every queued read belongs to one call that still waits for it. */
  ghost predicate ReadsOk(s: State) {
    && (forall i :: 0 <= i < |s.fifo| && s.fifo[i].Select? ==>
          var w := s.fifo[i].who;
          w in s.pending && s.pending[w].Reading? && s.pending[w].name == s.fifo[i].name)
    && (forall i, j :: 0 <= i < j < |s.fifo| && s.fifo[i].Select? && s.fifo[j].Select? ==>
          s.fifo[i].who != s.fifo[j].who)
  }

  /** The running total before the write that `o` made. */
  ghost predicate OutcomeOk(log: seq<Write>, db0: map<Name, real>, o: Outcome) {
    && o.at < |log| && log[o.at].Added? && log[o.at].name == o.name
    && o.value == Balance(db0, log[..o.at], o.name)
  }

  ghost predicate OutcomesOk(log: seq<Write>, db0: map<Name, real>, os: seq<Outcome>) {
    forall k :: 0 <= k < |os| ==> OutcomeOk(log, db0, os[k])
  }

  ghost predicate Inv(s: State, db0: map<Name, real>) {
    UpToDate(s, db0) && ColdOk(s, db0) && ReadsOk(s) && OutcomesOk(s.log, db0, s.outcomes)
  }

  function Init(db0: map<Name, real>): State { State(map[], db0, [], map[], [], []) }

  // ---------------------------------------------------------------- preservation

  lemma {:induction false} DrainedAppends(row: real, fifo: seq<Statement>, st: Statement, n: Name)
    ensures Drained(row, fifo + [st], n) == Drained(Drained(row, fifo, n), [st], n)
    decreases |fifo|
  {
    if fifo == [] {
      assert [] + [st] == [st];
    } else {
      assert (fifo + [st])[1..] == fifo[1..] + [st];
      var row' := match fifo[0]
        case Select(_, _) => row
        case Upsert(m, a) => if m == n then row + a else row
        case Store(m, v) => if m == n then v else row;
      DrainedAppends(row', fifo[1..], st, n);
    }
  }

  lemma {:induction false} DrainedIdle(row: real, fifo: seq<Statement>, n: Name)
    requires forall i :: 0 <= i < |fifo| ==> !WritesTo(fifo[i], n)
    ensures Drained(row, fifo, n) == row
    decreases |fifo|
  {
    if fifo != [] {
      assert !WritesTo(fifo[0], n);
      DrainedIdle(row, fifo[1..], n);
    }
  }

  lemma OutcomesStay(log: seq<Write>, db0: map<Name, real>, os: seq<Outcome>, w: Write)
    requires OutcomesOk(log, db0, os)
    ensures OutcomesOk(log + [w], db0, os)
  {
    forall k | 0 <= k < |os|
      ensures OutcomeOk(log + [w], db0, os[k])
    {
      assert (log + [w])[..os[k].at] == log[..os[k].at];
    }
  }

  lemma OneMoreOutcome(log: seq<Write>, db0: map<Name, real>, os: seq<Outcome>, n: Name, before: real, amount: real)
    requires OutcomesOk(log, db0, os) && before == Balance(db0, log, n)
    ensures OutcomesOk(log + [Added(n, amount)], db0, os + [Outcome(n, |log|, before)])
  {
    OutcomesStay(log, db0, os, Added(n, amount));
    assert (log + [Added(n, amount)])[..|log|] == log;
  }

  /** A write that reaches the cache, the log and the queue together keeps all three in step. */
  lemma WriteKeepsUpToDate(s: State, t: State, db0: map<Name, real>, w: Write, st: Statement, value: real)
    requires UpToDate(s, db0) && t.db == s.db && t.log == s.log + [w] && t.fifo == s.fifo + [st]
    requires t.cache == s.cache[w.name := value] && WritesTo(st, w.name)
    requires if w.Added? then st == Upsert(w.name, w.amount) && value == Balance(db0, s.log, w.name) + w.amount
             else st == Store(w.name, w.value) && value == w.value
    ensures UpToDate(t, db0)
  {
    assert t.log[..|s.log|] == s.log;
    forall m: Name
      ensures Drained(Row(t.db, m), t.fifo, m) == Balance(db0, t.log, m)
    {
      DrainedAppends(Row(s.db, m), s.fifo, st, m);
    }
  }

  lemma CommitKeepsInv(s: State, db0: map<Name, real>, n: Name, before: real, amount: real)
    requires Inv(s, db0) && before == Balance(db0, s.log, n)
    ensures Inv(Commit(s, n, before, amount), db0)
  {
    var t := Commit(s, n, before, amount);
    WriteKeepsUpToDate(s, t, db0, Added(n, amount), Upsert(n, amount), before + amount);
    OneMoreOutcome(s.log, db0, s.outcomes, n, before, amount);
    ColdStaysOk(s, t, db0, Added(n, amount));
    MoreToWrite(s, t, Upsert(n, amount));
  }

  /** A queued write changes nothing about the queued reads. */
  lemma MoreToWrite(s: State, t: State, st: Statement)
    requires ReadsOk(s) && !st.Select? && t.fifo == s.fifo + [st] && t.pending == s.pending
    ensures ReadsOk(t)
  {
  }

  lemma ColdStaysOk(s: State, t: State, db0: map<Name, real>, w: Write)
    requires ColdOk(s, db0) && t.pending == s.pending && t.log == s.log + [w]
    requires t.cache.Keys == s.cache.Keys + {w.name}
    requires |t.fifo| == |s.fifo| + 1 && t.fifo[..|s.fifo|] == s.fifo && t.fifo[|s.fifo|].name == w.name
    ensures ColdOk(t, db0)
  {
    assert t.log[..|s.log|] == s.log;
    forall n: Name, i | n !in t.cache && 0 <= i < |t.fifo|
      ensures !WritesTo(t.fifo[i], n)
    {
      if i < |s.fifo| {
        assert t.fifo[i] == s.fifo[i];
      }
    }
  }

  lemma SetKeepsInv(s: State, db0: map<Name, real>, n: Name, v: real)
    requires Inv(s, db0)
    ensures Inv(DoSet(s, n, v), db0)
  {
    var t := DoSet(s, n, v);
    WriteKeepsUpToDate(s, t, db0, Stored(n, v), Store(n, v), v);
    OutcomesStay(s.log, db0, s.outcomes, Stored(n, v));
    ColdStaysOk(s, t, db0, Stored(n, v));
    MoreToWrite(s, t, Store(n, v));
  }

  lemma ColdStartKeepsInv(s: State, db0: map<Name, real>, w: Who, n: Name, goal: Goal)
    requires Inv(s, db0) && n !in s.cache && w !in s.pending
    ensures Inv(s.(fifo := s.fifo + [Select(w, n)], pending := s.pending[w := Reading(n, goal)]), db0)
  {
    var t := s.(fifo := s.fifo + [Select(w, n)], pending := s.pending[w := Reading(n, goal)]);
    forall m: Name
      ensures Drained(Row(t.db, m), t.fifo, m) == Balance(db0, t.log, m)
    {
      DrainedAppends(Row(s.db, m), s.fifo, Select(w, n), m);
    }
    MoreToRead(s, t, w, n, goal);
  }

  /** A newly queued read is its caller's only one. */
  lemma MoreToRead(s: State, t: State, w: Who, n: Name, goal: Goal)
    requires ReadsOk(s) && w !in s.pending
    requires t.fifo == s.fifo + [Select(w, n)] && t.pending == s.pending[w := Reading(n, goal)]
    ensures ReadsOk(t)
  {
  }

  lemma ExecuteKeepsUpToDate(s: State, db0: map<Name, real>)
    requires UpToDate(s, db0) && s.fifo != []
    ensures UpToDate(Execute(s), db0)
  {
    var t := Execute(s);
    forall n: Name
      ensures Drained(Row(t.db, n), t.fifo, n) == Balance(db0, t.log, n)
    {
      match s.fifo[0]
      case Select(_, _) => assert Row(t.db, n) == Row(s.db, n);
      case Upsert(m, a) => assert Row(t.db, n) == if m == n then Row(s.db, n) + a else Row(s.db, n);
      case Store(m, v) => assert Row(t.db, n) == if m == n then v else Row(s.db, n);
    }
  }

  lemma ExecuteKeepsCold(s: State, db0: map<Name, real>)
    requires UpToDate(s, db0) && ColdOk(s, db0) && s.fifo != []
    ensures ColdOk(Execute(s), db0)
  {
    var t := Execute(s);
    assert forall i :: 0 <= i < |t.fifo| ==> t.fifo[i] == s.fifo[i + 1];
    if s.fifo[0].Select? && s.fifo[0].name !in s.cache {
      DrainedIdle(Row(s.db, s.fifo[0].name), s.fifo, s.fifo[0].name);
    }
  }

  lemma ExecuteKeepsReads(s: State)
    requires ReadsOk(s) && s.fifo != []
    ensures ReadsOk(Execute(s))
  {
    var t := Execute(s);
    assert forall i :: 0 <= i < |t.fifo| ==> t.fifo[i] == s.fifo[i + 1];
  }

  lemma ExecuteKeepsInv(s: State, db0: map<Name, real>)
    requires Inv(s, db0) && s.fifo != []
    ensures Inv(Execute(s), db0)
  {
    ExecuteKeepsUpToDate(s, db0);
    ExecuteKeepsCold(s, db0);
    ExecuteKeepsReads(s);
  }

  lemma ColdFetchAddKeepsInv(s: State, db0: map<Name, real>, w: Who)
    requires Inv(s, db0) && w in s.pending && s.pending[w].HasRead? && s.pending[w].goal.FetchAdd?
    ensures var p := s.pending[w];
            var before := if p.name in s.cache then s.cache[p.name] else p.value;
            Inv(Commit(s.(pending := s.pending - {w}), p.name, before, p.goal.amount), db0)
  {
    var p := s.pending[w];
    var u := s.(pending := s.pending - {w});
    assert Inv(u, db0);
    CommitKeepsInv(u, db0, p.name, if p.name in s.cache then s.cache[p.name] else p.value, p.goal.amount);
  }

  // ---------------------------------------------------------------- the cold get

  /** A cold get may publish what it read exactly when nobody else has warmed the name to a
      different value meanwhile: the re-check that fetch_add makes and get does not. */
  ghost predicate GetIsSafe(s: State, w: Who) {
    && w in s.pending && s.pending[w].HasRead?
    && (s.pending[w].name in s.cache ==> s.cache[s.pending[w].name] == s.pending[w].value)
  }

  lemma ColdGetKeepsInvIff(s: State, t: State, db0: map<Name, real>, w: Who)
    requires Inv(s, db0) && Step(s, t, ColdGetEnd(w))
    ensures Inv(t, db0) <==> GetIsSafe(s, w)
  {
    var p := s.pending[w];
    if GetIsSafe(s, w) {
      assert ReadsOk(t);
      assert ColdOk(t, db0);
      assert UpToDate(t, db0);
    } else {
      assert t.cache[p.name] != Balance(db0, s.log, p.name);
    }
  }

  // ---------------------------------------------------------------- whole runs

  lemma StepKeepsInv(s: State, t: State, e: Event, db0: map<Name, real>)
    requires Inv(s, db0) && Step(s, t, e)
    requires e.ColdGetEnd? ==> GetIsSafe(s, e.who)
    ensures Inv(t, db0)
  {
    match e
    case WarmFetchAdd(n, a) => CommitKeepsInv(s, db0, n, s.cache[n], a);
    case ColdStart(w, n, goal) => ColdStartKeepsInv(s, db0, w, n, goal);
    case ColdFetchAddEnd(w) => ColdFetchAddKeepsInv(s, db0, w);
    case ColdGetEnd(w) => ColdGetKeepsInvIff(s, t, db0, w);
    case SetValue(n, v) => SetKeepsInv(s, db0, n, v);
    case RunStatement => ExecuteKeepsInv(s, db0);
  }

  ghost predicate Run(states: seq<State>, events: seq<Event>, db0: map<Name, real>) {
    && |states| == |events| + 1 && states[0] == Init(db0)
    && (forall i :: 0 <= i < |events| ==> Step(states[i], states[i + 1], events[i]))
    && (forall i :: 0 <= i < |events| && events[i].ColdGetEnd? ==> GetIsSafe(states[i], events[i].who))
  }

  lemma {:induction false} RunKeepsInv(states: seq<State>, events: seq<Event>, db0: map<Name, real>, k: nat)
    requires Run(states, events, db0) && k <= |events|
    ensures Inv(states[k], db0)
    decreases k
  {
    if k > 0 {
      RunKeepsInv(states, events, db0, k - 1);
      StepKeepsInv(states[k - 1], states[k], events[k - 1], db0);
    }
  }

  /** Over every interleaving of warm and cold calls: the cached value is the stored one with
      all queued writes applied, a drained table holds every write, and each fetch_add returned
      the running total at its place in one common order. */
  lemma CountersLinearise(states: seq<State>, events: seq<Event>, db0: map<Name, real>)
    requires Run(states, events, db0)
    ensures var s := states[|events|];
            && (forall n :: n in s.cache ==> s.cache[n] == Drained(Row(s.db, n), s.fifo, n))
            && (s.fifo == [] ==> forall n: Name :: Row(s.db, n) == Balance(db0, s.log, n))
            && OutcomesOk(s.log, db0, s.outcomes)
  {
    RunKeepsInv(states, events, db0, |events|);
  }

  function SumOf(log: seq<Write>, n: Name): real {
    if log == [] then 0.0
    else
      var w := log[|log| - 1];
      SumOf(log[..|log| - 1], n) + if w.Added? && w.name == n then w.amount else 0.0
  }

  /** No increment is lost: without a set, a total is its first row plus every amount. */
  lemma {:induction false} BalanceIsSum(db0: map<Name, real>, log: seq<Write>, n: Name)
    requires forall i :: 0 <= i < |log| && log[i].name == n ==> log[i].Added?
    ensures Balance(db0, log, n) == Row(db0, n) + SumOf(log, n)
  {
    if log != [] {
      BalanceIsSum(db0, log[..|log| - 1], n);
    }
  }

  /** The interleaving that loses an increment: a fetch_add and a get both find the name cold
      and read its row, the fetch_add finishes, and the get then publishes what it read. */
  lemma ColdGetLosesIncrement(n: Name) returns (states: seq<State>, events: seq<Event>)
    ensures |states| == |events| + 1 && states[0] == Init(map[])
    ensures forall i :: 0 <= i < |events| ==> Step(states[i], states[i + 1], events[i])
    ensures var s := states[|events|];
            s.fifo == [] && s.pending == map[] && n in s.cache && s.cache[n] == 0.0 && Balance(map[], s.log, n) == 5.0
  {
    var early := BothReadTheRow(n);
    var late := [BothRead(n), Incremented(n), Published(n), Settled(n)];
    AddEnds(n);
    GetEnds(n);
    AddIsStored(n);
    FiveIsTheBalance(n);
    states := early + late[1..];
    events := Early(n) + LATE;
    forall i | 0 <= i < |events| ensures Step(states[i], states[i + 1], events[i]) {
      if i < 4 {
        assert events[i] == Early(n)[i];
      } else {
        assert events[i] == LATE[i - 4] && states[i] == late[i - 4];
      }
    }
  }

  function Early(n: Name): seq<Event> {
    [ColdStart(1, n, FetchAdd(5.0)), ColdStart(0, n, Get), RunStatement, RunStatement]
  }

  const LATE: seq<Event> := [ColdFetchAddEnd(1), ColdGetEnd(0), RunStatement]

  function BothRead(n: Name): State {
    State(map[], map[], [], map[1 := HasRead(n, FetchAdd(5.0), 0.0), 0 := HasRead(n, Get, 0.0)], [], [])
  }

  lemma BothReadTheRow(n: Name) returns (states: seq<State>)
    ensures |states| == 5 && states[0] == Init(map[]) && states[4] == BothRead(n)
    ensures forall i :: 0 <= i < 4 ==> Step(states[i], states[i + 1], Early(n)[i])
  {
    var s0 := Init(map[]);
    var s1 := State(map[], map[], [Select(1, n)], map[1 := Reading(n, FetchAdd(5.0))], [], []);
    var s2 := State(map[], map[], [Select(1, n), Select(0, n)],
                    map[1 := Reading(n, FetchAdd(5.0)), 0 := Reading(n, Get)], [], []);
    var s3 := State(map[], map[], [Select(0, n)],
                    map[1 := HasRead(n, FetchAdd(5.0), 0.0), 0 := Reading(n, Get)], [], []);
    assert Step(s0, s1, ColdStart(1, n, FetchAdd(5.0)));
    assert Step(s1, s2, ColdStart(0, n, Get));
    assert Step(s2, s3, RunStatement);
    assert Step(s3, BothRead(n), RunStatement);
    states := [s0, s1, s2, s3, BothRead(n)];
  }

  function Incremented(n: Name): State {
    State(map[n := 5.0], map[], [Upsert(n, 5.0)], map[0 := HasRead(n, Get, 0.0)], [Added(n, 5.0)], [Outcome(n, 0, 0.0)])
  }

  function Published(n: Name): State {
    State(map[n := 0.0], map[], [Upsert(n, 5.0)], map[], [Added(n, 5.0)], [Outcome(n, 0, 0.0)])
  }

  function Settled(n: Name): State {
    State(map[n := 0.0], map[n := 5.0], [], map[], [Added(n, 5.0)], [Outcome(n, 0, 0.0)])
  }

  lemma AddEnds(n: Name)
    ensures Step(BothRead(n), Incremented(n), ColdFetchAddEnd(1))
  {
    assert BothRead(n).pending - {1} == Incremented(n).pending;
  }

  lemma GetEnds(n: Name)
    ensures Step(Incremented(n), Published(n), ColdGetEnd(0))
  {
    assert Incremented(n).pending - {0} == map[];
  }

  lemma AddIsStored(n: Name)
    ensures Step(Published(n), Settled(n), RunStatement)
  {
  }

  lemma FiveIsTheBalance(n: Name)
    ensures Balance(map[], [Added(n, 5.0)], n) == 5.0
  {
    assert [Added(n, 5.0)][..0] == [];
  }
}
