/** What the scheduler of crs/common/scheduler.py charges for a slot, and where its jobs go. */
module SchedulerCharges {
  import opened Wrappers
  import opened SchedulerSpec

  // ---------------------------------------------------------------- starting a slot

  /** Where the charge of a slot starts from: an idle task's runtime, raised to one second short
      of vmin; the runtime so far of a task that has slots already. */
  function Base(a: Account, vmin: int, now: int): int {
    if a.running > 0 then a.vruntime + (now - a.lastTick) * a.running
    else if a.vruntime < vmin - 1_000_000_000 then vmin - 1_000_000_000
    else a.vruntime
  }

  /** Ticked or not before it is served, an account is charged the same. */
  lemma ChargeFromBase(a: Account, b: Account, vmin: int, now: int)
    requires b == a || (a.running > 0 && b == TickAccount(a, now))
    requires a.running >= 0
    ensures Charge(b, vmin, now).vruntime == Base(a, vmin, now) + 10_000_000_000
    ensures Charge(b, vmin, now).lastTick == now
  {
    assert (now - now) * a.running == 0;
  }

  /** The key served is charged its base and ten seconds, as of now, and nothing else of its
      account changes but the slot. */
  lemma StartCharge(s: State, t: State, clock: int, now: int, r: Key)
    requires Inv(s, clock) && clock <= now && Schedules(s, t, now, Some(r))
    ensures r in s.tasks && r in t.tasks
    ensures t.tasks[r].vruntime == Base(s.tasks[r], t.vmin, now) + 10_000_000_000
    ensures t.tasks[r].lastTick == now
    ensures t.tasks[r].running == s.tasks[r].running + 1 && t.tasks[r].waiting == s.tasks[r].waiting - 1
  {
    var mid :| Ticks(s, mid, now) && Serve(mid, now) == (t, Some(r));
    ServedAccount(s, mid, t, clock, now, r);
    ChargeFromBase(s.tasks[r], mid.tasks[r], t.vmin, now);
  }

  lemma ServedAccount(s: State, mid: State, t: State, clock: int, now: int, r: Key)
    requires Inv(s, clock) && clock <= now && Ticks(s, mid, now) && Serve(mid, now) == (t, Some(r))
    ensures r in s.tasks && r in mid.tasks && r in t.tasks && t.vmin == mid.vmin && s.tasks[r].running >= 0
    ensures t.tasks[r] == Charge(mid.tasks[r], t.vmin, now)
    ensures mid.tasks[r] == s.tasks[r] || (s.tasks[r].running > 0 && mid.tasks[r] == TickAccount(s.tasks[r], now))
    ensures t.tasks[r].running == s.tasks[r].running + 1 && t.tasks[r].waiting == s.tasks[r].waiting - 1
  {
    TickKeepsInv(s, mid, clock, now);
    ServeOutcome(mid, now);
    assert r in mid.waiting && r in s.tasks;
  }

  /** A finished slot gives its ten seconds back, after the time so far is charged. */
  lemma FinishCharge(s: State, clock: int, k: Key, now: int)
    requires Inv(s, clock) && clock <= now && k in s.running
    ensures Finish(s, k, now).Ok?
    ensures var a := s.tasks[k];
      Finish(s, k, now).value.tasks
      == s.tasks[k := Account(now, a.vruntime + (now - a.lastTick) * a.running - 10_000_000_000, a.running - 1,
                              a.waiting)]
  {
    FinishKeepsInv(s, clock, k, now);
  }

  // ---------------------------------------------------------------- between start and finish

  /** The runtime an account shows once it is brought up to date at `at`. */
  function Reading(a: Account, at: int): int { a.vruntime + (at - a.lastTick) * a.running }

  lemma TickKeepsReading(a: Account, now: int, at: int)
    ensures Reading(TickAccount(a, now), at) == Reading(a, at)
  {
    assert (now - a.lastTick) * a.running + (at - now) * a.running == (at - a.lastTick) * a.running;
  }

  lemma TicksKeepReading(s: State, t: State, now: int, k: Key, at: int)
    requires Ticks(s, t, now) && k in s.tasks
    ensures k in t.tasks && Reading(t.tasks[k], at) == Reading(s.tasks[k], at)
  {
    TickKeepsReading(s.tasks[k], now, at);
  }

  /** Serving touches one account at most. */
  lemma OthersStay(s: State, mid: State, t: State, clock: int, now: int, r: Option<Key>, k: Key)
    requires Inv(s, clock) && clock <= now && Ticks(s, mid, now) && Serve(mid, now) == (t, r) && r != Some(k)
    ensures k in t.tasks <==> k in mid.tasks
    ensures k in t.tasks ==> t.tasks[k] == mid.tasks[k]
  {
    TickKeepsInv(s, mid, clock, now);
    ServeOutcome(mid, now);
  }

  lemma ScheduleKeepsReading(s: State, t: State, clock: int, now: int, r: Option<Key>, k: Key, at: int)
    requires Inv(s, clock) && clock <= now && Schedules(s, t, now, r) && r != Some(k) && k in s.tasks
    ensures k in t.tasks && Reading(t.tasks[k], at) == Reading(s.tasks[k], at)
  {
    var mid :| Ticks(s, mid, now) && Serve(mid, now) == (t, r);
    TicksKeepReading(s, mid, now, k, at);
    OthersStay(s, mid, t, clock, now, r, k);
  }

  /** A call that starts or ends no slot of a key changes no reading of its account. */
  lemma StepKeepsReading(s: State, t: State, clock: int, c: Call, k: Key, at: int)
    requires Inv(s, clock) && 0 <= clock <= ClockAfter(clock, c) && Step(s, t, c)
    requires k in s.tasks && k in t.tasks && t.tasks[k].running == s.tasks[k].running
    ensures Reading(t.tasks[k], at) == Reading(s.tasks[k], at)
  {
    match c
    case CallTick(now) => TicksKeepReading(s, t, now, k, at);
    case CallSchedule(now) =>
      var r :| Schedules(s, t, now, r);
      if r == Some(k) {
        StartCharge(s, t, clock, now, k);
      }
      ScheduleKeepsReading(s, t, clock, now, r, k, at);
    case CallFinish(j, now) => FinishKeepsInv(s, clock, j, now);
    case CallAdd(_) =>
    case CallRemove(_) =>
    case CallDiscard(_) =>
  }

  /** From call `i` on, `k` has exactly `n` slots. */
  ghost predicate Holds(states: seq<State>, i: nat, k: Key, n: int) {
    forall m :: i <= m < |states| ==> k in states[m].tasks && states[m].tasks[k].running == n
  }

  /** While a key has the same number of slots, each of them is charged the time elapsed. */
  lemma {:induction false} ReadingStays(states: seq<State>, calls: seq<Call>, clock: int, i: nat, k: Key, n: int,
                                        at: int)
    requires Run(states, calls, clock) && i < |states| && Holds(states, i, k, n)
    ensures Reading(states[|states| - 1].tasks[k], at) == Reading(states[i].tasks[k], at)
    decreases |calls|
  {
    RunKeepsInv(states, calls, clock);
    if i < |calls| {
      var m := |calls| - 1;
      var before :| Run(states[..m + 1], calls[..m], before) && before <= ClockAfter(before, calls[m]) == clock;
      var (front, earlier) := (states[..m + 1], calls[..m]);
      HoldsBefore(states, i, k, n, m);
      ReadingStays(front, earlier, before, i, k, n, at);
      RunKeepsInv(front, earlier, before);
      StepKeepsReading(states[m], states[m + 1], before, calls[m], k, at);
    }
  }

  lemma HoldsBefore(states: seq<State>, i: nat, k: Key, n: int, m: nat)
    requires Holds(states, i, k, n) && i <= m < |states|
    ensures Holds(states[..m + 1], i, k, n) && k in states[m].tasks && states[m].tasks[k].running == n
  {
  }

  /** A whole slot: a key that was idle is served at `start` and finishes at `end`, and has no
      other slot in between. Beyond its base it is charged exactly the time elapsed. */
  lemma WholeSlot(states: seq<State>, calls: seq<Call>, clock: int, i: nat, k: Key, start: int, end: int)
    requires Run(states, calls, clock) && i < |calls| && clock <= end
    requires calls[i] == CallSchedule(start) && Schedules(states[i], states[i + 1], start, Some(k))
    requires k in states[i].tasks && states[i].tasks[k].running == 0 && Holds(states, i + 1, k, 1)
    ensures var t := Finish(states[|calls|], k, end);
      && t.Ok? && t.value.tasks[k].running == 0
      && t.value.tasks[k].vruntime == Base(states[i].tasks[k], states[i + 1].vmin, start) + (end - start)
  {
    RunKeepsInv(states, calls, clock);
    var before := InvAt(states, calls, clock, i);
    StartCharge(states[i], states[i + 1], before, start, k);
    ReadingStays(states, calls, clock, i + 1, k, 1, end);
    FinishCharge(states[|calls|], clock, k, end);
  }

  /** The clock before a call of a run. */
  lemma {:induction false} InvAt(states: seq<State>, calls: seq<Call>, clock: int, i: nat) returns (before: int)
    requires Run(states, calls, clock) && i < |calls|
    ensures |states| == |calls| + 1 && Inv(states[i], before) && 0 <= before <= ClockAfter(before, calls[i])
    decreases |calls|
  {
    var m := |calls| - 1;
    var c :| Run(states[..m + 1], calls[..m], c) && c <= ClockAfter(c, calls[m]) == clock;
    RunKeepsInv(states[..m + 1], calls[..m], c);
    if i == m {
      before := c;
    } else {
      before := InvAt(states[..m + 1], calls[..m], c, i);
    }
  }

  // ---------------------------------------------------------------- the tick

  /** More than a tenth of a second after the last accounting every running task is brought up to
      date, and vmin rises to no more than the least of their runtimes and at least what one of
      them showed before; otherwise nothing but the order of the queue changes. */
  lemma TickAccounts(s: State, t: State, clock: int, now: int)
    requires Inv(s, clock) && clock <= now && Ticks(s, t, now)
    ensures now - s.lastTick <= 100_000_000 ==> t == s.(queue := t.queue)
    ensures now - s.lastTick > 100_000_000 ==>
      && t.lastTick == (if now - s.lastTick > 200_000_000 then now else s.lastTick + 100_000_000)
      && (forall k :: k in s.running ==> k in t.tasks && t.tasks[k].lastTick == now)
      && (s.running == {} ==> t.vmin == s.vmin)
      && (t.vmin == s.vmin || forall k :: k in s.running ==> k in t.tasks && t.vmin <= t.tasks[k].vruntime)
      && (s.running != {} ==> exists k :: k in s.running && k in s.tasks && s.tasks[k].vruntime <= t.vmin)
  {
    TickKeepsInv(s, t, clock, now);
    if now - s.lastTick > 100_000_000 && s.running != {} {
      var first, m :| LeastRuntime(s.tasks, s.running, now, first, m) && t.vmin == Max(s.vmin, m);
      LeastIsReached(s, t, clock, now, first, m);
    }
  }

  lemma LeastIsReached(s: State, t: State, clock: int, now: int, first: Key, m: int)
    requires Inv(s, clock) && clock <= now && LeastRuntime(s.tasks, s.running, now, first, m)
    ensures exists k :: k in s.running && k in s.tasks && s.tasks[k].vruntime <= m
  {
    if m != s.tasks[first].vruntime {
      var k :| k in s.running && k in s.tasks && m == TickAccount(s.tasks[k], now).vruntime;
      TickGrows(s.tasks[k], clock, now);
    }
  }

  // ---------------------------------------------------------------- where jobs go

  function Waiting(s: State, k: Key): int { if k in s.tasks then s.tasks[k].waiting else 0 }
  function Running(s: State, k: Key): int { if k in s.tasks then s.tasks[k].running else 0 }

  /** Jobs come by add, leave by remove, discard and finish, and are moved from waiting to running
      by schedule. */
  lemma JobsMove(s: State, t: State, clock: int, c: Call, k: Key)
    requires Inv(s, clock) && 0 <= clock <= ClockAfter(clock, c) && Step(s, t, c)
    ensures match c
      case CallAdd(j) => Running(t, k) == Running(s, k) && Waiting(t, k) == Waiting(s, k) + if j == k then 1 else 0
      case CallRemove(j) =>
        Running(t, k) == Running(s, k)
        && Waiting(t, k) == Waiting(s, k) - if j == k && Waiting(s, k) > 0 then 1 else 0
      case CallDiscard(j) => Running(t, k) == Running(s, k) && Waiting(t, k) == if j == k then 0 else Waiting(s, k)
      case CallFinish(j, _) =>
        Waiting(t, k) == Waiting(s, k)
        && Running(t, k) == Running(s, k) - if j == k && Running(s, k) > 0 then 1 else 0
      case CallTick(_) => Waiting(t, k) == Waiting(s, k) && Running(t, k) == Running(s, k)
      case CallSchedule(_) =>
        Waiting(t, k) + Running(t, k) == Waiting(s, k) + Running(s, k)
        && Running(s, k) <= Running(t, k) <= Running(s, k) + 1
  {
    match c
    case CallTick(now) => TickMovesNothing(s, t, clock, now, k);
    case CallSchedule(now) =>
      var r :| Schedules(s, t, now, r);
      ScheduleMoves(s, t, clock, now, r, k);
    case CallFinish(j, now) => FinishMoves(s, t, clock, j, now, k);
    case _ =>
  }

  lemma TickMovesNothing(s: State, t: State, clock: int, now: int, k: Key)
    requires Inv(s, clock) && clock <= now && Ticks(s, t, now)
    ensures Waiting(t, k) == Waiting(s, k) && Running(t, k) == Running(s, k)
  {
    TickKeepsInv(s, t, clock, now);
    assert k in t.tasks <==> k in s.tasks;
  }

  lemma FinishMoves(s: State, t: State, clock: int, j: Key, now: int, k: Key)
    requires Inv(s, clock) && clock <= now && Step(s, t, CallFinish(j, now))
    ensures Waiting(t, k) == Waiting(s, k)
    ensures Running(t, k) == Running(s, k) - if j == k && Running(s, k) > 0 then 1 else 0
  {
    FinishKeepsInv(s, clock, j, now);
    if j in s.running {
      FinishCharge(s, clock, j, now);
    }
  }

  lemma ScheduleMoves(s: State, t: State, clock: int, now: int, r: Option<Key>, k: Key)
    requires Inv(s, clock) && clock <= now && Schedules(s, t, now, r)
    ensures Waiting(t, k) == Waiting(s, k) - if r == Some(k) then 1 else 0
    ensures Running(t, k) == Running(s, k) + if r == Some(k) then 1 else 0
  {
    var mid :| Ticks(s, mid, now) && Serve(mid, now) == (t, r);
    TickMovesNothing(s, mid, clock, now, k);
    if r == Some(k) {
      ServedAccount(s, mid, t, clock, now, k);
    } else {
      OthersStay(s, mid, t, clock, now, r, k);
    }
  }
}
