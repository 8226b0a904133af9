/** The spend limiter of crs/app/helpers.py as a state machine, for one counter with a fixed
    maximum and deposit.  Jobs interleave at every suspension point: waiting for the lock,
    reading the counter, writing the deposit, running, settling. */
module LimiterSpec {
  import opened Wrappers

  type Job = nat

  datatype Phase =
    | Queued      // waiting for the lock
    | Checking    // holds the lock, reads the counter
    | Refused     // told that the limit is reached; still holds the lock
    | Admitted    // below the limit; the deposit is being written, the lock is held
    | Deposited   // the deposit is written, the lock is held
    | Running     // the job runs, the lock is free
    | Leaving     // gave up the lock without a deposit

  datatype JobState = JobState(phase: Phase, refund: real, spent: real)

  datatype Limits = Limits(max: real, deposit: real)

  /** `admittedSpend`: what jobs with a deposit have settled; `otherSpend`: what jobs without
      one have, and what the counter held at the start; `total`: every amount ever spent. */
  datatype State = State(counter: real, holder: Option<Job>, jobs: map<Job, JobState>,
                         admittedSpend: real, otherSpend: real, total: real)

  datatype Event =
    | Arrive(job: Job)
    | TakeLock(job: Job)
    | Check(job: Job)
    | Deposit(job: Job)
    | Unlock(job: Job)
    | Spend(job: Job, amount: real)
    | Settle(job: Job)

  function Move(s: State, j: Job, p: Phase): State
    requires j in s.jobs
  {
    s.(jobs := s.jobs[j := s.jobs[j].(phase := p)])
  }

  /** The lock is released on the way out of each of these phases: after the deposit, after a
      refusal, or because the caller was cancelled while checking. */
  function AfterUnlock(p: Phase): Phase {
    if p == Deposited then Running else Leaving
  }

  ghost predicate Step(l: Limits, s: State, t: State, e: Event) {
    match e
    case Arrive(j) =>
      j !in s.jobs && t == s.(jobs := s.jobs[j := JobState(Queued, 0.0, 0.0)])
    case TakeLock(j) =>
      j in s.jobs && s.jobs[j].phase == Queued && s.holder == None
      && t == Move(s, j, Checking).(holder := Some(j))
    case Check(j) =>
      j in s.jobs && s.jobs[j].phase == Checking
      && t == Move(s, j, if s.counter >= l.max then Refused else Admitted)
    case Deposit(j) =>
      j in s.jobs && s.jobs[j].phase == Admitted
      && t == s.(counter := s.counter + l.deposit,
                 jobs := s.jobs[j := s.jobs[j].(phase := Deposited, refund := l.deposit)])
    case Unlock(j) =>
      j in s.jobs && s.jobs[j].phase in {Deposited, Refused, Checking}
      && t == Move(s, j, AfterUnlock(s.jobs[j].phase)).(holder := None)
    case Spend(j, x) =>
      j in s.jobs && s.jobs[j].phase in {Running, Refused} && x >= 0.0
      && t == s.(jobs := s.jobs[j := s.jobs[j].(spent := s.jobs[j].spent + x)], total := s.total + x)
    case Settle(j) =>
      j in s.jobs && s.jobs[j].phase in {Running, Leaving, Queued}
      && var b := s.jobs[j];
         t == s.(counter := s.counter + (b.spent - b.refund), jobs := s.jobs - {j},
                 admittedSpend := if b.phase == Running then s.admittedSpend + b.spent else s.admittedSpend,
                 otherSpend := if b.phase == Running then s.otherSpend else s.otherSpend + b.spent)
  }

  /** No job is there yet; the counter still holds what was settled before. */
  function Start(settled: real): State { State(settled, None, map[], 0.0, settled, settled) }

  // ---------------------------------------------------------------- measures

  /** The jobs whose deposit is in the counter. */
  function InFlight(s: State): set<Job> {
    set j | j in s.jobs && s.jobs[j].phase in {Deposited, Running}
  }

  function Admission(s: State): set<Job> {
    set j | j in s.jobs && s.jobs[j].phase == Admitted
  }

  /** The jobs whose deposit is written or about to be. */
  function Load(s: State): nat { |InFlight(s)| + |Admission(s)| }

  ghost function Outstanding(jobs: map<Job, JobState>): real
    decreases |jobs|
  {
    if jobs == map[] then 0.0
    else
      var j :| j in jobs;
      jobs[j].spent + Outstanding(jobs - {j})
  }

  lemma {:induction false} OutstandingWithout(jobs: map<Job, JobState>, j: Job)
    requires j in jobs
    ensures Outstanding(jobs) == jobs[j].spent + Outstanding(jobs - {j})
    decreases |jobs|
  {
    var k :| k in jobs && Outstanding(jobs) == jobs[k].spent + Outstanding(jobs - {k});
    if k != j {
      OutstandingWithout(jobs - {k}, j);
      OutstandingWithout(jobs - {j}, k);
      assert jobs - {k} - {j} == jobs - {j} - {k};
    }
  }

  lemma OutstandingUpdate(jobs: map<Job, JobState>, j: Job, b: JobState)
    ensures Outstanding(jobs[j := b]) == b.spent + Outstanding(jobs - {j})
    ensures j in jobs ==> Outstanding(jobs[j := b]) == Outstanding(jobs) - jobs[j].spent + b.spent
    ensures j !in jobs ==> Outstanding(jobs[j := b]) == Outstanding(jobs) + b.spent
  {
    OutstandingWithout(jobs[j := b], j);
    assert jobs[j := b] - {j} == jobs - {j};
    if j in jobs {
      OutstandingWithout(jobs, j);
    } else {
      assert jobs - {j} == jobs;
    }
  }

  // ---------------------------------------------------------------- the invariant

  ghost predicate HoldsLock(p: Phase) {
    p in {Checking, Refused, Admitted, Deposited}
  }

  ghost predicate Shape(l: Limits, s: State) {
    && (forall j :: j in s.jobs ==>
          && (HoldsLock(s.jobs[j].phase) <==> s.holder == Some(j))
          && s.jobs[j].spent >= 0.0
          && s.jobs[j].refund == if s.jobs[j].phase in {Deposited, Running} then l.deposit else 0.0)
    && (s.holder.Some? ==> s.holder.value in s.jobs)
    && s.admittedSpend >= 0.0 && s.otherSpend >= 0.0
  }

  /** `n` times `x`. */
  function Times(x: real, n: nat): real {
    if n == 0 then 0.0 else Times(x, n - 1) + x
  }

  lemma {:induction false} TimesMultiplies(x: real, n: nat)
    ensures Times(x, n) == x * n as real
  {
    if n > 0 {
      TimesMultiplies(x, n - 1);
      assert x * n as real == x * (n - 1) as real + x;
    }
  }

  lemma {:induction false} TimesMonotone(x: real, m: nat, n: nat)
    requires x >= 0.0 && m <= n
    ensures 0.0 <= Times(x, m) <= Times(x, n)
    decreases n
  {
    if m < n {
      TimesMonotone(x, m, n - 1);
    } else if m > 0 {
      TimesMonotone(x, m - 1, m - 1);
    }
  }

  function Positive(x: real): real { if x < 0.0 then 0.0 else x }

  /** The counter is what was settled plus one deposit per job in flight. */
  ghost predicate Balanced(l: Limits, s: State) {
    s.counter == s.admittedSpend + s.otherSpend + Times(l.deposit, |InFlight(s)|)
  }

  /** Deposits written or about to be written stay below the maximum plus one deposit. */
  ghost predicate Bounded(l: Limits, s: State) {
    Times(l.deposit, Load(s)) < Positive(l.max) + l.deposit
  }

  ghost predicate Inv(l: Limits, s: State) {
    Shape(l, s) && Balanced(l, s) && Bounded(l, s)
  }

  /** No amount spent goes missing: it is settled or still with its job. */
  ghost predicate Accounted(s: State) {
    s.total == s.admittedSpend + s.otherSpend + Outstanding(s.jobs)
  }

  function Ind(b: bool): int { if b then 1 else 0 }

  lemma Cards<T>(a: set<T>, b: set<T>, x: T)
    requires a - {x} == b - {x}
    ensures |a| - Ind(x in a) == |b| - Ind(x in b)
  {
    assert x in a ==> |a - {x}| == |a| - 1;
    assert x !in a ==> a - {x} == a;
    assert x in b ==> |b - {x}| == |b| - 1;
    assert x !in b ==> b - {x} == b;
  }

  /** How the two counts move in a step of job `j`. */
  lemma Counts(l: Limits, s: State, t: State, e: Event)
    requires Step(l, s, t, e)
    ensures var j := e.job;
            && |InFlight(t)| - Ind(j in InFlight(t)) == |InFlight(s)| - Ind(j in InFlight(s))
            && |Admission(t)| - Ind(j in Admission(t)) == |Admission(s)| - Ind(j in Admission(s))
  {
    var j := e.job;
    assert forall k :: k != j ==> (k in s.jobs <==> k in t.jobs);
    assert forall k :: k != j && k in s.jobs ==> t.jobs[k] == s.jobs[k];
    assert InFlight(t) - {j} == InFlight(s) - {j};
    assert Admission(t) - {j} == Admission(s) - {j};
    Cards(InFlight(t), InFlight(s), j);
    Cards(Admission(t), Admission(s), j);
  }

  /** Only the lock holder can be between check and deposit. */
  lemma AtMostOneAdmission(l: Limits, s: State)
    requires Shape(l, s)
    ensures |Admission(s)| <= 1
    ensures forall j :: j in s.jobs && s.jobs[j].phase == Checking ==> Admission(s) == {}
  {
    if Admission(s) != {} {
      var j :| j in Admission(s);
      assert Admission(s) == {j};
    }
  }

  lemma ShapeKept(l: Limits, s: State, t: State, e: Event)
    requires Shape(l, s) && Step(l, s, t, e)
    ensures Shape(l, t)
  {
  }

  lemma BalancedKept(l: Limits, s: State, t: State, e: Event)
    requires Shape(l, s) && Balanced(l, s) && Step(l, s, t, e)
    ensures Balanced(l, t)
  {
    Counts(l, s, t, e);
    var n := |InFlight(s)|;
    assert Times(l.deposit, n + 1) == Times(l.deposit, n) + l.deposit;
  }

  /** A step lets one job in, below the maximum; settles one; or leaves the load as it is. */
  ghost predicate Moved(l: Limits, s: State, t: State, j: Job) {
    || (Load(t) == Load(s) + 1 && s.counter < l.max && Admission(s) == {}
        && t.admittedSpend == s.admittedSpend && t.otherSpend == s.otherSpend)
    || (Load(t) == Load(s) && t.admittedSpend == s.admittedSpend)
    || (Load(t) == Load(s) - 1 && j in s.jobs && t.admittedSpend == s.admittedSpend + s.jobs[j].spent)
  }

  lemma Moves(l: Limits, s: State, t: State, e: Event)
    requires Shape(l, s) && Step(l, s, t, e)
    ensures Moved(l, s, t, e.job)
  {
    Counts(l, s, t, e);
    AtMostOneAdmission(l, s);
  }

  lemma BoundedKept(l: Limits, s: State, t: State, j: Job)
    requires l.deposit > 0.0 && Inv(l, s) && Moved(l, s, t, j)
    ensures Bounded(l, t)
  {
    if Load(t) > Load(s) {
      assert Times(l.deposit, Load(t)) == Times(l.deposit, Load(s)) + l.deposit;
    } else {
      TimesMonotone(l.deposit, Load(t), Load(s));
    }
  }

  lemma StepKeepsInv(l: Limits, s: State, t: State, e: Event)
    requires l.deposit > 0.0 && Inv(l, s) && Step(l, s, t, e)
    ensures Inv(l, t)
  {
    ShapeKept(l, s, t, e);
    BalancedKept(l, s, t, e);
    Moves(l, s, t, e);
    BoundedKept(l, s, t, e.job);
  }

  lemma AccountedKept(l: Limits, s: State, t: State, e: Event)
    requires Accounted(s) && Step(l, s, t, e)
    ensures Accounted(t)
  {
    var j := e.job;
    if e.Settle? {
      OutstandingWithout(s.jobs, j);
    } else {
      OutstandingUpdate(s.jobs, j, t.jobs[j]);
      assert t.jobs == s.jobs[j := t.jobs[j]];
    }
  }

  // ---------------------------------------------------------------- whole runs

  ghost predicate Run(l: Limits, states: seq<State>, events: seq<Event>) {
    && |states| == |events| + 1 && states[0].counter >= 0.0 && states[0] == Start(states[0].counter)
    && forall i :: 0 <= i < |events| ==> Step(l, states[i], states[i + 1], events[i])
  }

  lemma {:induction false} RunKeepsInv(l: Limits, states: seq<State>, events: seq<Event>, k: nat)
    requires l.deposit > 0.0 && Run(l, states, events) && k <= |events|
    ensures Inv(l, states[k]) && Accounted(states[k])
    decreases k
  {
    if k > 0 {
      RunKeepsInv(l, states, events, k - 1);
      StepKeepsInv(l, states[k - 1], states[k], events[k - 1]);
      AccountedKept(l, states[k - 1], states[k], events[k - 1]);
    } else {
      assert InFlight(states[0]) == {} && Admission(states[0]) == {};
    }
  }

  /** After every step of every interleaving the counter is the settled spend plus the
      deposits in flight, which stay below the maximum plus one deposit. */
  lemma DepositsStayBounded(l: Limits, states: seq<State>, events: seq<Event>, k: nat)
    requires l.deposit > 0.0 && Run(l, states, events) && k <= |events|
    ensures var s := states[k];
            && s.counter == s.admittedSpend + s.otherSpend + l.deposit * |InFlight(s)| as real
            && l.deposit * |InFlight(s)| as real < Positive(l.max) + l.deposit
  {
    RunKeepsInv(l, states, events, k);
    var s := states[k];
    TimesMonotone(l.deposit, |InFlight(s)|, Load(s));
    TimesMultiplies(l.deposit, |InFlight(s)|);
  }

  /** Once idle, the counter is exactly everything ever spent. */
  lemma IdleCounterIsTotal(l: Limits, states: seq<State>, events: seq<Event>)
    requires l.deposit > 0.0 && Run(l, states, events) && states[|events|].jobs == map[]
    ensures states[|events|].counter == states[|events|].total
  {
    RunKeepsInv(l, states, events, |events|);
    assert InFlight(states[|events|]) == {};
  }

  // ---------------------------------------------------------------- the overshoot

  /** The most jobs that can be let in before the deposits reach the maximum. */
  function Slots(l: Limits): int
    requires l.deposit > 0.0
  {
    var q := Positive(l.max) / l.deposit;
    if q.Floor as real == q then q.Floor else q.Floor + 1
  }

  lemma BelowMaxIsBelowSlots(l: Limits, n: nat)
    requires l.deposit > 0.0 && Times(l.deposit, n) < l.max
    ensures n + 1 <= Slots(l)
  {
    TimesMultiplies(l.deposit, n);
    TimesMonotone(l.deposit, 0, n);
    QuotientAbove(l.max, l.deposit, n as real);
  }

  lemma QuotientAbove(x: real, d: real, n: real)
    requires d > 0.0 && d * n < x
    ensures n < x / d
  {
    var q := x / d;
    assert q * d == x;
    assert (q - n) * d > 0.0;
  }

  /** Settled spend plus what the admitted jobs may still spend. */
  ghost function Exposure(s: State, cap: real): real {
    s.admittedSpend + Times(cap, Load(s))
  }

  /** Every job's spend stays within `cap`. */
  ghost predicate Capped(s: State, cap: real) {
    forall j :: j in s.jobs ==> s.jobs[j].spent <= cap
  }

  ghost predicate Contained(l: Limits, s: State, cap: real)
    requires l.deposit > 0.0
  {
    Exposure(s, cap) == 0.0 || (Slots(l) >= 0 && Exposure(s, cap) < l.max + Times(cap, Slots(l)))
  }

  lemma ContainedKept(l: Limits, s: State, t: State, j: Job, cap: real)
    requires l.deposit > 0.0 && cap >= 0.0 && Inv(l, s) && Capped(s, cap) && Moved(l, s, t, j)
    requires Contained(l, s, cap)
    ensures Contained(l, t, cap)
  {
    if Load(t) > Load(s) {
      LetInBelow(l, s, cap);
    } else if Load(t) < Load(s) {
      assert t.admittedSpend <= s.admittedSpend + cap;
      TimesMonotone(cap, 0, Load(t));
    }
  }

  /** A job let in below the maximum finds a slot. */
  lemma LetInBelow(l: Limits, s: State, cap: real)
    requires l.deposit > 0.0 && cap >= 0.0 && Inv(l, s) && s.counter < l.max && Admission(s) == {}
    ensures Load(s) + 1 <= Slots(l) && s.admittedSpend + s.otherSpend < l.max
    ensures Times(cap, Load(s) + 1) <= Times(cap, Slots(l))
  {
    TimesMonotone(l.deposit, 0, Load(s));
    BelowMaxIsBelowSlots(l, Load(s));
    TimesMonotone(cap, Load(s) + 1, Slots(l));
  }

  lemma {:induction false} RunContained(l: Limits, states: seq<State>, events: seq<Event>, cap: real, k: nat)
    requires l.deposit > 0.0 && cap >= 0.0 && Run(l, states, events) && k <= |events|
    requires forall i :: 0 <= i <= |events| ==> Capped(states[i], cap)
    ensures Contained(l, states[k], cap)
    decreases k
  {
    if k > 0 {
      RunContained(l, states, events, cap, k - 1);
      RunKeepsInv(l, states, events, k - 1);
      Moves(l, states[k - 1], states[k], events[k - 1]);
      ContainedKept(l, states[k - 1], states[k], events[k - 1].job, cap);
    } else {
      assert InFlight(states[0]) == {} && Admission(states[0]) == {};
    }
  }

  /** If no job spends more than `cap`, all admitted jobs together stay below the maximum plus
      one cap per slot, however the jobs interleave. */
  lemma OvershootIsBounded(l: Limits, states: seq<State>, events: seq<Event>, cap: real, k: nat)
    requires l.deposit > 0.0 && l.max > 0.0 && cap >= 0.0 && Run(l, states, events) && k <= |events|
    requires forall i :: 0 <= i <= |events| ==> Capped(states[i], cap)
    ensures Slots(l) >= 0 && states[k].admittedSpend < l.max + cap * Slots(l) as real
  {
    RunContained(l, states, events, cap, k);
    RunKeepsInv(l, states, events, k);
    ContainedBoundsSpend(l, states[k], cap);
    TimesMultiplies(cap, Slots(l));
  }

  lemma SlotsAreNonNegative(l: Limits)
    requires l.deposit > 0.0
    ensures Slots(l) >= 0
  {
    assert Positive(l.max) / l.deposit >= 0.0;
  }

  lemma ContainedBoundsSpend(l: Limits, s: State, cap: real)
    requires l.deposit > 0.0 && l.max > 0.0 && cap >= 0.0 && Contained(l, s, cap)
    ensures Slots(l) >= 0 && s.admittedSpend < l.max + Times(cap, Slots(l))
  {
    SlotsAreNonNegative(l);
    TimesMonotone(cap, 0, Load(s));
    TimesMonotone(cap, 0, Slots(l));
  }

  // ---------------------------------------------------------------- the counter itself

  /** No job spends that was not let in. */
  ghost predicate OnlyAdmittedSpend(states: seq<State>, events: seq<Event>)
    requires |states| == |events| + 1
  {
    forall i :: 0 <= i < |events| && events[i].Spend? ==>
      events[i].job in states[i].jobs && states[i].jobs[events[i].job].phase == Running
  }

  ghost predicate Quiet(s: State) {
    forall j :: j in s.jobs && s.jobs[j].phase != Running ==> s.jobs[j].spent == 0.0
  }

  lemma {:induction false} RunIsQuiet(l: Limits, states: seq<State>, events: seq<Event>, k: nat)
    requires Run(l, states, events) && OnlyAdmittedSpend(states, events) && k <= |events|
    ensures Quiet(states[k]) && states[k].otherSpend == states[0].counter
    decreases k
  {
    if k > 0 {
      RunIsQuiet(l, states, events, k - 1);
      assert Step(l, states[k - 1], states[k], events[k - 1]);
    }
  }

  /** Nothing has been let in, or everything settled and still to come stays below the bound. */
  ghost predicate AllContained(l: Limits, s: State, cap: real)
    requires l.deposit > 0.0
  {
    || (s.admittedSpend == 0.0 && Load(s) == 0)
    || (Slots(l) >= 0 && s.otherSpend + Exposure(s, cap) < l.max + Times(cap, Slots(l)))
  }

  lemma AllContainedKept(l: Limits, s: State, t: State, j: Job, cap: real)
    requires l.deposit > 0.0 && cap >= 0.0 && Inv(l, s) && Capped(s, cap) && Moved(l, s, t, j)
    requires AllContained(l, s, cap) && t.otherSpend == s.otherSpend
    ensures AllContained(l, t, cap)
  {
    if Load(t) > Load(s) {
      LetInBelow(l, s, cap);
    } else if Load(t) < Load(s) {
      assert t.admittedSpend <= s.admittedSpend + cap;
    }
  }

  lemma {:induction false} RunAllContained(l: Limits, states: seq<State>, events: seq<Event>, cap: real, k: nat)
    requires l.deposit > 0.0 && cap >= 0.0 && Run(l, states, events) && k <= |events|
    requires OnlyAdmittedSpend(states, events) && forall i :: 0 <= i <= |events| ==> Capped(states[i], cap)
    ensures AllContained(l, states[k], cap)
    decreases k
  {
    if k > 0 {
      RunAllContained(l, states, events, cap, k - 1);
      RunKeepsInv(l, states, events, k - 1);
      RunIsQuiet(l, states, events, k - 1);
      RunIsQuiet(l, states, events, k);
      Moves(l, states[k - 1], states[k], events[k - 1]);
      AllContainedKept(l, states[k - 1], states[k], events[k - 1].job, cap);
    } else {
      assert InFlight(states[0]) == {} && Admission(states[0]) == {};
    }
  }

  /** When only jobs that were let in spend, none more than `cap`, the idle counter itself is
      what it was at the start or below the maximum plus one cap per slot. */
  lemma IdleCounterIsBounded(l: Limits, states: seq<State>, events: seq<Event>, cap: real)
    requires l.deposit > 0.0 && cap >= 0.0 && Run(l, states, events) && states[|events|].jobs == map[]
    requires OnlyAdmittedSpend(states, events) && forall i :: 0 <= i <= |events| ==> Capped(states[i], cap)
    ensures var c := states[|events|].counter;
      c == states[0].counter || (Slots(l) >= 0 && c < l.max + cap * Slots(l) as real)
  {
    var s := states[|events|];
    RunAllContained(l, states, events, cap, |events|);
    RunKeepsInv(l, states, events, |events|);
    RunIsQuiet(l, states, events, |events|);
    assert InFlight(s) == {} && Admission(s) == {};
    SlotsAreNonNegative(l);
    TimesMultiplies(cap, Slots(l));
  }
}
