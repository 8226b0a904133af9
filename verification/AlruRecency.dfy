/** What the entries of the cache of crs/common/alru.py record, read off the calls alone: when a
    key was last used and what was last kept for it; and so which entries are evicted. */
module AlruRecency {
  import opened Wrappers
  import opened AlruSpec

  /** The key a caller last asked for without a hit. */
  function KeyOf(events: seq<Event>, w: Who): Key {
    if events == [] then ""
    else
      var e := events[|events| - 1];
      if (e.JoinFree? || e.JoinWait?) && e.who == w then e.key else KeyOf(events[..|events| - 1], w)
  }

  /** The key a call hits, or whose result it keeps, after the calls of `front`. */
  function UsedBy(front: seq<Event>, e: Event): Option<Key> {
    match e
    case Hit(k, _, _) => Some(k)
    case AcquireHit(w, _, _) => Some(KeyOf(front, w))
    case Finish(w, _, keep, _) => if keep then Some(KeyOf(front, w)) else None
    case _ => None
  }

  /** When a key was last hit, or last had a result kept. */
  function LastUse(events: seq<Event>, k: Key): Option<int> {
    if events == [] then None
    else
      var (front, e) := (events[..|events| - 1], events[|events| - 1]);
      if UsedBy(front, e) == Some(k) then Some(e.now) else LastUse(front, k)
  }

  /** The result last kept for a key. */
  function LastKept(events: seq<Event>, k: Key): Option<Value> {
    if events == [] then None
    else
      var (front, e) := (events[..|events| - 1], events[|events| - 1]);
      if e.Finish? && UsedBy(front, e) == Some(k) then Some(e.value) else LastKept(front, k)
  }

  // ---------------------------------------------------------------- the entries

  ghost predicate KeysKnown(s: State, events: seq<Event>) {
    forall w :: w in s.callers ==> s.callers[w].key == KeyOf(events, w)
  }

  /** Every entry is stamped with its last use and holds the result last kept. */
  ghost predicate Recorded(s: State, events: seq<Event>) {
    forall k :: k in s.cache ==>
      LastUse(events, k) == Some(s.cache[k].ts) && LastKept(events, k) == Some(s.cache[k].value)
  }

  lemma OneMoreCall(events: seq<Event>, e: Event, w: Who)
    ensures KeyOf(events + [e], w) == if (e.JoinFree? || e.JoinWait?) && e.who == w then e.key else KeyOf(events, w)
  {
    assert (events + [e])[..|events|] == events;
  }

  lemma CallerStays(s: State, t: State, e: Event, maxsize: Option<nat>, w: Who)
    requires Step(s, t, e, maxsize) && w in t.callers
    ensures (e.JoinFree? || e.JoinWait?) && e.who == w ==> t.callers[w].key == e.key
    ensures !((e.JoinFree? || e.JoinWait?) && e.who == w) ==> w in s.callers && s.callers[w].key == t.callers[w].key
  {
  }

  lemma KeysStayKnown(s: State, t: State, e: Event, maxsize: Option<nat>, events: seq<Event>)
    requires KeysKnown(s, events) && Step(s, t, e, maxsize)
    ensures KeysKnown(t, events + [e])
  {
    forall w | w in t.callers ensures t.callers[w].key == KeyOf(events + [e], w) {
      OneMoreCall(events, e, w);
      CallerStays(s, t, e, maxsize, w);
    }
  }

  /** A call that finishes leaves the entries as they were or takes them out, but for the one
      whose result it keeps. */
  lemma FinishRecords(s: State, t: State, w: Who, v: Value, keep: bool, now: int, maxsize: Option<nat>, k: Key)
    requires w in s.callers && Finishes(s, t, w, v, keep, now, maxsize) && k in t.cache
    ensures if keep && k == s.callers[w].key then t.cache[k] == Entry(v, now)
            else k in s.cache && t.cache[k] == s.cache[k]
  {
    assert t.cache[k] == Inserted(s, s.callers[w].key, v, keep, now)[k];
  }

  lemma OneMoreEvent(events: seq<Event>, e: Event, k: Key)
    ensures LastUse(events + [e], k) == if UsedBy(events, e) == Some(k) then Some(e.now) else LastUse(events, k)
    ensures LastKept(events + [e], k)
         == if e.Finish? && UsedBy(events, e) == Some(k) then Some(e.value) else LastKept(events, k)
  {
    assert (events + [e])[..|events|] == events;
  }

  lemma StaysRecorded(s: State, t: State, e: Event, maxsize: Option<nat>, events: seq<Event>)
    requires KeysKnown(s, events) && Recorded(s, events) && Step(s, t, e, maxsize)
    ensures Recorded(t, events + [e])
  {
    forall k | k in t.cache
      ensures LastUse(events + [e], k) == Some(t.cache[k].ts) && LastKept(events + [e], k) == Some(t.cache[k].value)
    {
      OneMoreEvent(events, e, k);
      match e
      case Finish(w, v, keep, now) => FinishRecords(s, t, w, v, keep, now, maxsize, k);
      case AcquireHit(w, _, _) => assert s.callers[w].key == KeyOf(events, w);
      case _ =>
    }
  }

  /** Over every interleaving, from the calls alone: a cached entry is stamped with the time its
      key was last hit or kept, and holds the result last kept. */
  lemma {:induction false} EntriesAreRecent(states: seq<State>, events: seq<Event>, maxsize: Option<nat>, i: nat)
    requires Run(states, events, maxsize) && i <= |events|
    ensures KeysKnown(states[i], events[..i]) && Recorded(states[i], events[..i])
    decreases i
  {
    if i > 0 {
      var n := i - 1;
      EntriesAreRecent(states, events, maxsize, n);
      assert Step(states[n], states[n + 1], events[n], maxsize) && events[..i] == events[..n] + [events[n]];
      KeysStayKnown(states[n], states[i], events[n], maxsize, events[..n]);
      StaysRecorded(states[n], states[i], events[n], maxsize, events[..n]);
    }
  }

  /** A hit returns the result last kept for the key asked for. */
  lemma HitsAreLatest(states: seq<State>, events: seq<Event>, maxsize: Option<nat>, i: nat)
    requires Run(states, events, maxsize) && i < |events| && (events[i].Hit? || events[i].AcquireHit?)
    ensures var k := UsedBy(events[..i], events[i]).value; LastKept(events[..i], k) == Some(events[i].value)
  {
    EntriesAreRecent(states, events, maxsize, i);
    assert Step(states[i], states[i + 1], events[i], maxsize);
  }

  // ---------------------------------------------------------------- eviction

  ghost predicate LeftOut(s: State, t: State, k: Key) { k in s.cache && k !in t.cache }

  /** An evicted key was in nobody's use, and was last used no later than any key that stays and
      is in nobody's use either. */
  lemma LeastRecentLeaves(states: seq<State>, events: seq<Event>, maxsize: Option<nat>, i: nat, k: Key, j: Key)
    requires Run(states, events, maxsize) && i < |events| && LeftOut(states[i], states[i + 1], k)
    requires j in states[i + 1].cache && !InUse(states[i], j)
    ensures !InUse(states[i], k)
    ensures LastUse(events[..i], k).Some? && LastUse(events[..i], j).Some?
    ensures LastUse(events[..i], k).value <= LastUse(events[..i], j).value
  {
    var (s, t, e) := (states[i], states[i + 1], events[i]);
    EntriesAreRecent(states, events, maxsize, i);
    RunKeepsInv(states, events, maxsize, i);
    LockIffInUse(s);
    assert Step(s, t, e, maxsize) && e.Finish?;
    OldestOut(s, t, e.who, e.value, e.keep, e.now, maxsize, k, j);
  }

  lemma OldestOut(s: State, t: State, w: Who, v: Value, keep: bool, now: int, maxsize: Option<nat>, k: Key, j: Key)
    requires LocksOk(s) && w in s.callers && Finishes(s, t, w, v, keep, now, maxsize)
    requires LeftOut(s, t, k) && j in t.cache && j !in s.locks
    ensures k !in s.locks && j in s.cache && s.cache[k].ts <= s.cache[j].ts
  {
    var c := s.callers[w].key;
    assert c in s.locks;
    FinishRecords(s, t, w, v, keep, now, maxsize, j);
    assert k in Inserted(s, c, v, keep, now);
    if k == c {
      assert false;
    }
  }

  /** Entries are evicted only by a call that finishes, and only as many as needed: those left
      fill the cache exactly, or fit in it with nothing evicted, or are all in use. */
  lemma EvictsAsNeeded(states: seq<State>, events: seq<Event>, maxsize: Option<nat>, i: nat)
    requires Run(states, events, maxsize) && i < |events|
    ensures var (s, t) := (states[i], states[i + 1]);
      && ((exists k :: LeftOut(s, t, k)) ==> events[i].Finish? && maxsize.Some? && |t.cache| >= maxsize.value)
      && (events[i].Finish? && maxsize.Some? && |t.cache| > maxsize.value ==> forall k :: k in t.cache ==> InUse(s, k))
  {
    var (s, t, e) := (states[i], states[i + 1], events[i]);
    RunKeepsInv(states, events, maxsize, i);
    LockIffInUse(s);
    assert Step(s, t, e, maxsize);
    if e.Finish? {
      SizeAfter(s, t, e.who, e.value, e.keep, e.now, maxsize);
    }
  }

  lemma SizeAfter(s: State, t: State, w: Who, v: Value, keep: bool, now: int, maxsize: Option<nat>)
    requires w in s.callers && Finishes(s, t, w, v, keep, now, maxsize)
    ensures (exists k :: LeftOut(s, t, k)) ==> maxsize.Some? && |t.cache| >= maxsize.value
    ensures maxsize.Some? && |t.cache| > maxsize.value ==> t.cache.Keys <= s.locks.Keys
  {
    var before := Inserted(s, s.callers[w].key, v, keep, now);
    assert s.cache.Keys <= before.Keys;
  }
}
