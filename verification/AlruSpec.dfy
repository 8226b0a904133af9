/** The single-flight LRU cache of crs/common/alru.py as a state machine.  A call suspends
    while it waits for its key's lock and while the cached function runs; callers of the same
    and of other keys interleave at those points. */
module AlruSpec {
  import opened Wrappers

  type Key = string
  type Value = int
  type Who = nat

  datatype Entry = Entry(value: Value, ts: int)
  datatype Caller = Waiting(key: Key) | Computing(key: Key)

  /** `locks`: the lock group, one count per key in use; `held`: the keys whose lock is taken;
      `produced`: what the function ever returned; `computed`: the calls of the function. */
  datatype State = State(
    cache: map<Key, Entry>, locks: map<Key, nat>, held: set<Key>, callers: map<Who, Caller>,
    produced: set<(Key, Value)>, computed: multiset<Key>)

  datatype Event =
    | Hit(key: Key, value: Value, now: int)
    | JoinFree(who: Who, key: Key)
    | JoinWait(who: Who, key: Key)
    | AcquireHit(who: Who, value: Value, now: int)
    | AcquireMiss(who: Who)
    | Finish(who: Who, value: Value, keep: bool, now: int)
    | Fail(who: Who)
    | CancelWait(who: Who)

  // ---------------------------------------------------------------- lock group

  function Count(locks: map<Key, nat>, k: Key): nat { if k in locks then locks[k] else 0 }

  /** A caller enters the lock group of its key. */
  function Enter(s: State, w: Who, c: Caller): State {
    s.(locks := s.locks[c.key := Count(s.locks, c.key) + 1], callers := s.callers[w := c])
  }

  /** A caller leaves it; the last one removes the entry. */
  function Leave(s: State, w: Who): State
    requires w in s.callers
  {
    var k := s.callers[w].key;
    s.(locks := if Count(s.locks, k) <= 1 then s.locks - {k} else s.locks[k := Count(s.locks, k) - 1],
       callers := s.callers - {w})
  }

  // ---------------------------------------------------------------- eviction

  /** One eviction pass, with some keys in use. */
  ghost predicate Evicted(before: map<Key, Entry>, after: map<Key, Entry>, used: set<Key>, maxsize: Option<nat>) {
    && after.Keys <= before.Keys && (forall k :: k in after ==> after[k] == before[k])
    && (maxsize == None || |before| <= maxsize.value ==> after == before)
    && (maxsize.Some? && |before| > maxsize.value ==>
          && |after| >= maxsize.value
          && (|after| == maxsize.value || after.Keys <= used))
    && (forall k :: k in before && k !in after ==>
          && k !in used
          && (forall j :: j in after && j !in used ==> before[k].ts <= after[j].ts))
  }

  // ---------------------------------------------------------------- steps

  function Touch(s: State, k: Key, now: int): State
    requires k in s.cache
  {
    s.(cache := s.cache[k := s.cache[k].(ts := now)])
  }

  function Inserted(s: State, k: Key, v: Value, keep: bool, now: int): map<Key, Entry> {
    if keep then s.cache[k := Entry(v, now)] else s.cache
  }

  ghost predicate Finishes(s: State, t: State, w: Who, v: Value, keep: bool, now: int, maxsize: Option<nat>)
    requires w in s.callers
  {
    var k := s.callers[w].key;
    exists after :: Evicted(Inserted(s, k, v, keep, now), after, s.locks.Keys, maxsize)
      && t == Leave(s.(cache := after, held := s.held - {k}, produced := s.produced + {(k, v)}), w)
  }

  ghost predicate Step(s: State, t: State, e: Event, maxsize: Option<nat>) {
    match e
    case Hit(k, v, now) =>
      k in s.cache && v == s.cache[k].value && t == Touch(s, k, now)
    case JoinFree(w, k) =>
      && w !in s.callers && k !in s.cache && k !in s.held
      && t == Enter(s, w, Computing(k)).(held := s.held + {k}, computed := s.computed + multiset{k})
    case JoinWait(w, k) =>
      w !in s.callers && k !in s.cache && t == Enter(s, w, Waiting(k))
    case AcquireHit(w, v, now) =>
      && w in s.callers && s.callers[w].Waiting? && s.callers[w].key !in s.held
      && s.callers[w].key in s.cache && v == s.cache[s.callers[w].key].value
      && t == Leave(Touch(s, s.callers[w].key, now), w)
    case AcquireMiss(w) =>
      && w in s.callers && s.callers[w].Waiting? && s.callers[w].key !in s.held && s.callers[w].key !in s.cache
      && var k := s.callers[w].key;
         t == s.(held := s.held + {k}, callers := s.callers[w := Computing(k)], computed := s.computed + multiset{k})
    case Finish(w, v, keep, now) =>
      w in s.callers && s.callers[w].Computing? && Finishes(s, t, w, v, keep, now, maxsize)
    case Fail(w) =>
      && w in s.callers && s.callers[w].Computing?
      && t == Leave(s.(held := s.held - {s.callers[w].key}), w)
    case CancelWait(w) =>
      w in s.callers && s.callers[w].Waiting? && t == Leave(s, w)
  }

  const INIT: State := State(map[], map[], {}, map[], {}, multiset{})

  // ---------------------------------------------------------------- the invariant

  function Users(callers: map<Who, Caller>, k: Key): set<Who> {
    set w | w in callers && callers[w].key == k
  }

  /** The lock group has an entry exactly for the keys some caller holds or awaits, with the
      number of those callers. */
  ghost predicate LocksOk(s: State) {
    && (forall k :: k in s.locks ==> s.locks[k] == |Users(s.callers, k)| > 0)
    && (forall w :: w in s.callers ==> s.callers[w].key in s.locks)
  }

  /** One computation per held lock, one held lock per computation. */
  ghost predicate FlightsOk(s: State) {
    && (forall w :: w in s.callers && s.callers[w].Computing? ==> s.callers[w].key in s.held)
    && (forall k :: k in s.held ==> exists w :: w in s.callers && s.callers[w] == Computing(k))
    && (forall v, w :: v in s.callers && w in s.callers && SameFlight(s.callers[v], s.callers[w]) ==> v == w)
  }

  ghost predicate SameFlight(c: Caller, d: Caller) {
    c.Computing? && d.Computing? && c.key == d.key
  }

  ghost predicate CacheOk(s: State) {
    forall k :: k in s.cache ==> (k, s.cache[k].value) in s.produced
  }

  ghost predicate Inv(s: State) {
    LocksOk(s) && FlightsOk(s) && CacheOk(s)
  }

  lemma EnterKeepsLocks(s: State, w: Who, c: Caller)
    requires LocksOk(s) && w !in s.callers
    ensures LocksOk(Enter(s, w, c))
  {
    var t := Enter(s, w, c);
    assert Users(t.callers, c.key) == Users(s.callers, c.key) + {w};
    forall k | k != c.key
      ensures Users(t.callers, k) == Users(s.callers, k)
    {
    }
    if c.key !in s.locks {
      assert Users(s.callers, c.key) == {};
    }
  }

  lemma LeaveKeepsLocks(s: State, w: Who)
    requires LocksOk(s) && w in s.callers
    ensures LocksOk(Leave(s, w))
    ensures Leave(s, w).locks.Keys <= s.locks.Keys
  {
    var t := Leave(s, w);
    var k := s.callers[w].key;
    assert Users(t.callers, k) == Users(s.callers, k) - {w};
    assert w in Users(s.callers, k);
    assert |Users(t.callers, k)| == |Users(s.callers, k)| - 1;
    forall j | j != k
      ensures Users(t.callers, j) == Users(s.callers, j)
    {
    }
    if Count(s.locks, k) <= 1 {
      assert Users(t.callers, k) == {};
      assert forall v :: v in t.callers && t.callers[v].key == k ==> v in Users(t.callers, k);
    }
  }

  /** A waiting caller that starts to compute uses the same lock. */
  lemma ComputeKeepsLocks(s: State, t: State, w: Who)
    requires LocksOk(s) && w in s.callers && t.locks == s.locks
    requires t.callers == s.callers[w := Computing(s.callers[w].key)]
    ensures LocksOk(t)
  {
    forall k ensures Users(t.callers, k) == Users(s.callers, k) {
    }
  }

  lemma FinishKeepsLocks(s: State, t: State, w: Who, v: Value, keep: bool, now: int, maxsize: Option<nat>)
    requires LocksOk(s) && w in s.callers && Finishes(s, t, w, v, keep, now, maxsize)
    ensures LocksOk(t)
  {
    LeaveKeepsLocks(s, w);
  }

  lemma LocksKept(s: State, t: State, e: Event, maxsize: Option<nat>)
    requires LocksOk(s) && Step(s, t, e, maxsize)
    ensures LocksOk(t)
  {
    match e
    case Hit(_, _, _) =>
    case JoinFree(w, k) => EnterKeepsLocks(s, w, Computing(k));
    case JoinWait(w, k) => EnterKeepsLocks(s, w, Waiting(k));
    case AcquireHit(w, _, now) => LeaveKeepsLocks(Touch(s, s.callers[w].key, now), w);
    case AcquireMiss(w) => ComputeKeepsLocks(s, t, w);
    case Finish(w, v, keep, now) => FinishKeepsLocks(s, t, w, v, keep, now, maxsize);
    case Fail(w) => LeaveKeepsLocks(s, w);
    case CancelWait(w) => LeaveKeepsLocks(s, w);
  }

  lemma FlightStarts(s: State, t: State, w: Who, k: Key)
    requires FlightsOk(s) && k !in s.held && (w in s.callers ==> s.callers[w].Waiting?)
    requires t.held == s.held + {k} && t.callers == s.callers[w := Computing(k)]
    ensures FlightsOk(t)
  {
    forall j | j in t.held
      ensures exists v :: v in t.callers && t.callers[v] == Computing(j)
    {
      if j == k {
        assert t.callers[w] == Computing(j);
      } else {
        var v :| v in s.callers && s.callers[v] == Computing(j);
        assert t.callers[v] == Computing(j);
      }
    }
  }

  lemma FlightEnds(s: State, t: State, w: Who)
    requires FlightsOk(s) && w in s.callers && s.callers[w].Computing?
    requires t.held == s.held - {s.callers[w].key} && t.callers == s.callers - {w}
    ensures FlightsOk(t)
  {
    forall j | j in t.held
      ensures exists v :: v in t.callers && t.callers[v] == Computing(j)
    {
      var v :| v in s.callers && s.callers[v] == Computing(j);
      assert t.callers[v] == Computing(j);
    }
    forall v | v in t.callers && t.callers[v].Computing?
      ensures t.callers[v].key in t.held
    {
      assert SameFlight(s.callers[v], s.callers[w]) ==> v == w;
    }
  }

  lemma FlightsUntouched(s: State, t: State)
    requires FlightsOk(s) && t.held == s.held
    requires forall v :: v in t.callers && t.callers[v].Computing? ==> v in s.callers && s.callers[v] == t.callers[v]
    requires forall v :: v in s.callers && s.callers[v].Computing? ==> v in t.callers && s.callers[v] == t.callers[v]
    ensures FlightsOk(t)
  {
    forall j | j in t.held
      ensures exists v :: v in t.callers && t.callers[v] == Computing(j)
    {
      var v :| v in s.callers && s.callers[v] == Computing(j);
      assert t.callers[v] == Computing(j);
    }
  }

  lemma FlightsKept(s: State, t: State, e: Event, maxsize: Option<nat>)
    requires FlightsOk(s) && Step(s, t, e, maxsize)
    ensures FlightsOk(t)
  {
    match e
    case JoinFree(w, k) => FlightStarts(s, t, w, k);
    case AcquireMiss(w) => FlightStarts(s, t, w, s.callers[w].key);
    case Finish(w, v, keep, now) => FlightEnds(s, t, w);
    case Fail(w) => FlightEnds(s, t, w);
    case Hit(_, _, _) => FlightsUntouched(s, t);
    case JoinWait(_, _) => FlightsUntouched(s, t);
    case AcquireHit(_, _, _) => FlightsUntouched(s, t);
    case CancelWait(_) => FlightsUntouched(s, t);
  }

  lemma FinishKeepsCache(s: State, t: State, w: Who, v: Value, keep: bool, now: int, maxsize: Option<nat>)
    requires CacheOk(s) && w in s.callers && Finishes(s, t, w, v, keep, now, maxsize)
    ensures CacheOk(t)
  {
    var k := s.callers[w].key;
    forall j | j in t.cache ensures (j, t.cache[j].value) in t.produced {
      assert t.cache[j] == Inserted(s, k, v, keep, now)[j];
    }
  }

  lemma CacheKept(s: State, t: State, e: Event, maxsize: Option<nat>)
    requires CacheOk(s) && Step(s, t, e, maxsize)
    ensures CacheOk(t)
  {
    match e
    case Finish(w, v, keep, now) => FinishKeepsCache(s, t, w, v, keep, now, maxsize);
    case _ => assert t.produced == s.produced && t.cache.Keys == s.cache.Keys;
  }

  lemma StepKeepsInv(s: State, t: State, e: Event, maxsize: Option<nat>)
    requires Inv(s) && Step(s, t, e, maxsize)
    ensures Inv(t)
  {
    LocksKept(s, t, e, maxsize);
    FlightsKept(s, t, e, maxsize);
    CacheKept(s, t, e, maxsize);
  }

  // ---------------------------------------------------------------- whole runs

  ghost predicate Run(states: seq<State>, events: seq<Event>, maxsize: Option<nat>) {
    && |states| == |events| + 1 && states[0] == INIT
    && forall i :: 0 <= i < |events| ==> Step(states[i], states[i + 1], events[i], maxsize)
  }

  lemma {:induction false} RunKeepsInv(states: seq<State>, events: seq<Event>, maxsize: Option<nat>, k: nat)
    requires Run(states, events, maxsize) && k <= |events|
    ensures Inv(states[k])
    decreases k
  {
    if k > 0 {
      RunKeepsInv(states, events, maxsize, k - 1);
      StepKeepsInv(states[k - 1], states[k], events[k - 1], maxsize);
    }
  }

  /** Over every interleaving: a key has a lock exactly while somebody holds or awaits it, at
      most one call per key computes, and a hit returns what the function returned for the key. */
  lemma SingleFlight(states: seq<State>, events: seq<Event>, maxsize: Option<nat>, i: nat)
    requires Run(states, events, maxsize) && i <= |events|
    ensures var s := states[i];
            && (forall k: Key :: k in s.locks <==> InUse(s, k))
            && (forall v, w :: v in s.callers && w in s.callers && SameFlight(s.callers[v], s.callers[w]) ==> v == w)
    ensures i < |events| && events[i].Hit? ==> (events[i].key, events[i].value) in states[i].produced
    ensures i < |events| && events[i].AcquireHit? ==>
      var s := states[i];
      events[i].who in s.callers && (s.callers[events[i].who].key, events[i].value) in s.produced
  {
    RunKeepsInv(states, events, maxsize, i);
    LockIffInUse(states[i]);
    if i < |events| {
      assert Step(states[i], states[i + 1], events[i], maxsize);
    }
  }

  /** Some caller holds or awaits the lock of `k`. */
  ghost predicate InUse(s: State, k: Key) {
    exists w :: w in s.callers && s.callers[w].key == k
  }

  lemma LockIffInUse(s: State)
    requires LocksOk(s)
    ensures forall k: Key :: k in s.locks <==> InUse(s, k)
  {
    forall k: Key | k in s.locks
      ensures InUse(s, k)
    {
      var w :| w in Users(s.callers, k);
      assert w in s.callers && s.callers[w].key == k;
    }
  }

  // ---------------------------------------------------------------- waiters are served

  /** A caller is queued for a key that is cached by now. */
  ghost predicate Served(s: State, w: Who, k: Key) {
    w in s.callers && s.callers[w] == Waiting(k) && k in s.cache
  }

  /** An entry somebody waits for is never evicted, and whoever waits for it will hit. */
  lemma ServedStays(s: State, t: State, e: Event, maxsize: Option<nat>, w: Who, k: Key)
    requires LocksOk(s) && Step(s, t, e, maxsize) && Served(s, w, k) && w in t.callers
    ensures Served(t, w, k)
  {
    assert k in s.locks;
  }

  lemma ServedNext(states: seq<State>, events: seq<Event>, maxsize: Option<nat>, j: nat, w: Who, k: Key)
    requires Run(states, events, maxsize) && j < |events|
    requires Served(states[j], w, k) && w in states[j + 1].callers
    ensures Served(states[j + 1], w, k)
  {
    RunKeepsInv(states, events, maxsize, j);
    ServedStays(states[j], states[j + 1], events[j], maxsize, w, k);
  }

  /** Once a computation has filled the cache, none of the callers queued behind it computes
      again: as long as such a caller is there, the entry is. */
  lemma {:induction false} WaitersShareTheResult(states: seq<State>, events: seq<Event>, maxsize: Option<nat>,
                                                 i: nat, j: nat, w: Who, k: Key)
    requires Run(states, events, maxsize) && i <= j <= |events|
    requires Served(states[i], w, k)
    requires forall m :: i <= m <= j ==> w in states[m].callers
    ensures Served(states[j], w, k)
    decreases j
  {
    if i < j {
      var n := j - 1;
      WaitersShareTheResult(states, events, maxsize, i, n, w, k);
      assert w in states[n + 1].callers;
      ServedNext(states, events, maxsize, n, w, k);
    }
  }

  // ---------------------------------------------------------------- how often the function runs

  predicate Evicts(s: State, t: State, k: Key) { k in s.cache && k !in t.cache }

  predicate OfKey(s: State, w: Who, k: Key) { w in s.callers && s.callers[w].key == k }

  predicate Fails(s: State, e: Event, k: Key) { e.Fail? && OfKey(s, e.who, k) }

  predicate Rejects(s: State, e: Event, k: Key) { e.Finish? && !e.keep && OfKey(s, e.who, k) }

  function Bit(b: bool): nat { if b then 1 else 0 }

  /** The results of `k` that a step costs: evicted, never made, or not kept. */
  function Loss(s: State, t: State, e: Event, k: Key): nat {
    Bit(Evicts(s, t, k)) + Bit(Fails(s, e, k)) + Bit(Rejects(s, e, k))
  }

  function Losses(states: seq<State>, events: seq<Event>, k: Key, i: nat): nat
    requires i <= |events| < |states|
  {
    if i == 0 then 0
    else Losses(states, events, k, i - 1) + Loss(states[i - 1], states[i], events[i - 1], k)
  }

  /** One while the result of `k` is cached or on its way. */
  function Present(s: State, k: Key): nat { Bit(k in s.cache || k in s.held) }

  /** No key is computed while it is cached. */
  ghost predicate Apart(s: State) { forall k :: k in s.cache ==> k !in s.held }

  /** What a finished computation does to the cache: its own key is there if and only if the
      result is kept, as keys in use are not evicted; other keys can only go. */
  ghost predicate Delivered(s: State, t: State, j: Key, keep: bool) {
    && j in s.held && t.held == s.held - {j} && t.computed == s.computed
    && j !in s.cache && (j in t.cache <==> keep) && t.cache.Keys <= s.cache.Keys + {j}
  }

  lemma FinishDelivers(s: State, t: State, w: Who, v: Value, keep: bool, now: int, maxsize: Option<nat>)
    requires LocksOk(s) && FlightsOk(s) && Apart(s)
    requires w in s.callers && s.callers[w].Computing? && Finishes(s, t, w, v, keep, now, maxsize)
    ensures Delivered(s, t, s.callers[w].key, keep)
  {
    var j := s.callers[w].key;
    var after :| Evicted(Inserted(s, j, v, keep, now), after, s.locks.Keys, maxsize)
      && t == Leave(s.(cache := after, held := s.held - {j}, produced := s.produced + {(j, v)}), w);
    assert j in s.locks;
  }

  lemma DeliveredCounts(s: State, t: State, e: Event, k: Key)
    requires e.Finish? && e.who in s.callers && Apart(s) && Delivered(s, t, s.callers[e.who].key, e.keep)
    ensures Apart(t) && Present(t, k) + Loss(s, t, e, k) == Present(s, k)
  {
    if k == s.callers[e.who].key {
      assert !Evicts(s, t, k) && (Rejects(s, e, k) <==> !e.keep);
    } else {
      assert !Rejects(s, e, k) && (k in t.held <==> k in s.held);
    }
  }

  lemma FailCounts(s: State, t: State, e: Event, k: Key)
    requires e.Fail? && e.who in s.callers && Apart(s) && s.callers[e.who].key in s.held
    requires t.cache == s.cache && t.held == s.held - {s.callers[e.who].key}
    ensures Apart(t) && Present(t, k) + Loss(s, t, e, k) == Present(s, k)
  {
  }

  lemma StartCounts(s: State, t: State, e: Event, j: Key, k: Key)
    requires !e.Finish? && !e.Fail? && Apart(s) && j !in s.cache && j !in s.held
    requires t.cache == s.cache && t.held == s.held + {j} && t.computed == s.computed + multiset{j}
    ensures Apart(t) && Loss(s, t, e, k) == 0
    ensures t.computed[k] + Present(s, k) == s.computed[k] + Present(t, k)
  {
  }

  lemma QuietCounts(s: State, t: State, e: Event, k: Key)
    requires !e.Finish? && !e.Fail? && Apart(s)
    requires t.cache.Keys == s.cache.Keys && t.held == s.held && t.computed == s.computed
    ensures Apart(t) && Present(t, k) == Present(s, k) && Loss(s, t, e, k) == 0
  {
    assert k in t.cache <==> k in t.cache.Keys;
  }

  /** The steps that end no computation. */
  lemma OtherCounts(s: State, t: State, e: Event, maxsize: Option<nat>, k: Key)
    requires Apart(s) && Step(s, t, e, maxsize) && !e.Finish? && !e.Fail?
    ensures Apart(t) && Loss(s, t, e, k) == 0
    ensures t.computed[k] + Present(s, k) == s.computed[k] + Present(t, k)
  {
    match e
    case JoinFree(_, j) => StartCounts(s, t, e, j, k);
    case AcquireMiss(w) => StartCounts(s, t, e, s.callers[w].key, k);
    case _ => QuietCounts(s, t, e, k);
  }

  lemma StepCounts(s: State, t: State, e: Event, maxsize: Option<nat>, k: Key)
    requires LocksOk(s) && FlightsOk(s) && Apart(s) && Step(s, t, e, maxsize)
    ensures Apart(t)
    ensures t.computed[k] + Present(s, k) == s.computed[k] + Present(t, k) + Loss(s, t, e, k)
  {
    if e.Finish? {
      FinishDelivers(s, t, e.who, e.value, e.keep, e.now, maxsize);
      DeliveredCounts(s, t, e, k);
    } else if e.Fail? {
      FailCounts(s, t, e, k);
    } else {
      OtherCounts(s, t, e, maxsize, k);
    }
  }

  /** The function has run for a key once if its result is cached or on its way, and once more
      for each time the result was evicted, was not kept or the computation failed. */
  lemma {:induction false} ComputedExactly(states: seq<State>, events: seq<Event>, maxsize: Option<nat>, i: nat, k: Key)
    requires Run(states, events, maxsize) && i <= |events|
    ensures Apart(states[i])
    ensures states[i].computed[k] == Losses(states, events, k, i) + Present(states[i], k)
    decreases i
  {
    if i > 0 {
      ComputedExactly(states, events, maxsize, i - 1, k);
      RunKeepsInv(states, events, maxsize, i - 1);
      StepCounts(states[i - 1], states[i], events[i - 1], maxsize, k);
    }
  }

  /** Every computation keeps its result. */
  ghost predicate Steady(events: seq<Event>) {
    forall i :: 0 <= i < |events| ==> !events[i].Fail? && (events[i].Finish? ==> events[i].keep)
  }

  lemma NothingEvicted(s: State, t: State, e: Event, k: Key)
    requires Step(s, t, e, None)
    ensures !Evicts(s, t, k)
  {
  }

  lemma {:induction false} NothingLost(states: seq<State>, events: seq<Event>, k: Key, i: nat)
    requires Run(states, events, None) && Steady(events) && i <= |events|
    ensures Losses(states, events, k, i) == 0
    decreases i
  {
    if i > 0 {
      NothingLost(states, events, k, i - 1);
      NothingEvicted(states[i - 1], states[i], events[i - 1], k);
    }
  }

  /** Without a size limit, failures or rejected results, the function runs at most once per
      key, however many callers there are. */
  lemma ComputedAtMostOnce(states: seq<State>, events: seq<Event>, i: nat, k: Key)
    requires Run(states, events, None) && Steady(events) && i <= |events|
    ensures states[i].computed[k] <= 1
  {
    ComputedExactly(states, events, None, i, k);
    NothingLost(states, events, k, i);
  }
}
