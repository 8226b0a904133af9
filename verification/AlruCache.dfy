/** The cache object of crs/common/alru.py.  The wrapper suspends on the key's lock and on the
    cached function, and is split there; every method is one step of AlruSpec. */
module AlruCache {
  import opened Wrappers
  import opened AlruSpec

  ghost predicate OldestFirst(cache: map<Key, Entry>, order: seq<Key>) {
    && (forall k :: k in order <==> k in cache)
    && (forall i, j :: 0 <= i < j < |order| ==> order[i] != order[j] && cache[order[i]].ts <= cache[order[j]].ts)
  }

  /** `order` has the oldest entries, `todo` the others. */
  ghost predicate SortedUpTo(cache: map<Key, Entry>, order: seq<Key>, todo: map<Key, Entry>) {
    && todo.Keys <= cache.Keys && (forall k :: k in todo ==> todo[k] == cache[k])
    && (forall k :: k in order <==> k in cache && k !in todo)
    && (forall i, j :: 0 <= i < j < |order| ==> order[i] != order[j] && cache[order[i]].ts <= cache[order[j]].ts)
    && (forall i, k :: 0 <= i < |order| && k in todo ==> cache[order[i]].ts <= todo[k].ts)
  }

  lemma SortedOneMore(cache: map<Key, Entry>, order: seq<Key>, todo: map<Key, Entry>, k: Key)
    requires SortedUpTo(cache, order, todo) && k in todo && forall j :: j in todo ==> todo[k].ts <= todo[j].ts
    ensures SortedUpTo(cache, order + [k], todo - {k})
  {
    var more := order + [k];
    forall i, j | 0 <= i < j < |more|
      ensures more[i] != more[j] && cache[more[i]].ts <= cache[more[j]].ts
    {
      assert more[i] == order[i] && more[i] in order;
    }
  }

  /** sorted(cache.values()), each entry named by its key. */
  method SortEntries(cache: map<Key, Entry>) returns (order: seq<Key>)
    ensures OldestFirst(cache, order)
  {
    order := [];
    var todo := cache;
    while todo != map[]
      invariant SortedUpTo(cache, order, todo)
      decreases |todo|
    {
      ghost var oldest := Oldest(todo);
      var k :| k in todo && forall j :: j in todo ==> todo[k].ts <= todo[j].ts;
      SortedOneMore(cache, order, todo, k);
      order := order + [k];
      todo := todo - {k};
    }
  }

  lemma {:induction false} Oldest(m: map<Key, Entry>) returns (o: Key)
    requires m != map[]
    ensures o in m && forall j :: j in m ==> m[o].ts <= m[j].ts
    decreases |m|
  {
    var k :| k in m;
    o := k;
    if m - {k} != map[] {
      var r := Oldest(m - {k});
      o := if m[r].ts <= m[k].ts then r else k;
    }
    forall j | j in m ensures m[o].ts <= m[j].ts {
      if j != k {
        assert j in m - {k};
      }
    }
  }

  /** Taking unused keys off the front of the order takes the oldest first. */
  lemma OldestLeaveFirst(all: map<Key, Entry>, left: map<Key, Entry>, order: seq<Key>, i: nat, used: set<Key>)
    requires OldestFirst(all, order) && i <= |order|
    requires left.Keys <= all.Keys && forall k :: k in left ==> left[k] == all[k]
    requires forall a :: i <= a < |order| ==> order[a] in left
    requires forall a :: 0 <= a < i && order[a] !in used ==> order[a] !in left
    ensures forall k, j :: k in all && k !in left && j in left && j !in used ==> all[k].ts <= left[j].ts
    ensures i == |order| ==> left.Keys <= used
  {
    forall k, j | k in all && k !in left && j in left && j !in used
      ensures all[k].ts <= left[j].ts
    {
      assert k in order && j in order;
      var a :| 0 <= a < |order| && order[a] == k;
      var b :| 0 <= b < |order| && order[b] == j;
    }
    if i == |order| {
      forall k | k in left
        ensures k in used
      {
        assert k in order;
        var b :| 0 <= b < |order| && order[b] == k;
      }
    }
  }

  /** The pass has looked at the first `n` keys of `order`, and taken out those not in use. */
  ghost predicate EvictedUpTo(was: map<Key, Entry>, cache: map<Key, Entry>, order: seq<Key>, n: nat, used: set<Key>) {
    && n <= |order| && cache.Keys <= was.Keys && (forall k :: k in cache ==> cache[k] == was[k])
    && (forall k :: k in was && k !in cache ==> k !in used)
    && (forall j :: 0 <= j < n && order[j] !in used ==> order[j] !in cache)
    && (forall j :: n <= j < |order| ==> order[j] in cache)
  }

  lemma EvictOneMore(was: map<Key, Entry>, cache: map<Key, Entry>, order: seq<Key>, n: nat, used: set<Key>)
    requires OldestFirst(was, order) && EvictedUpTo(was, cache, order, n, used) && n < |order| && order[n] !in used
    ensures EvictedUpTo(was, cache - {order[n]}, order, n + 1, used)
    ensures |cache - {order[n]}| == |cache| - 1
  {
    assert (cache - {order[n]}).Keys == cache.Keys - {order[n]};
  }

  class AlruCache {
    const maxsize: Option<nat>
    var cache: map<Key, Entry>
    var locks: map<Key, nat>        // callers per key in the lock group
    var held: set<Key>              // keys whose lock is taken
    var callers: map<Who, Caller>   // suspended calls
    ghost var produced: set<(Key, Value)>
    ghost var computed: multiset<Key>

    ghost function View(): State
      reads this
    {
      State(cache, locks, held, callers, produced, computed)
    }

    constructor (maxsize: Option<nat>)
      ensures this.maxsize == maxsize && View() == INIT
    {
      this.maxsize := maxsize;
      cache, locks, held, callers, produced, computed := map[], map[], {}, map[], {}, multiset{};
    }

    method EnterGroup(who: Who, caller: Caller)
      modifies `locks, `callers
      ensures View() == Enter(old(View()), who, caller)
    {
      locks := locks[caller.key := Count(locks, caller.key) + 1];
      callers := callers[who := caller];
    }

    method LeaveGroup(who: Who)
      requires who in callers
      modifies `locks, `callers
      ensures View() == Leave(old(View()), who)
    {
      var key := callers[who].key;
      var count := Count(locks, key);
      if count <= 1 {
        locks := locks - {key};
      } else {
        locks := locks[key := count - 1];
      }
      callers := callers - {who};
    }

    /** The lock of `key` is free and nobody is ahead: asyncio.Lock queues a newcomer behind
        waiters that are not `cancelled`, even when the lock has been released. */
    predicate LockIsOpen(key: Key, cancelled: set<Who>)
      reads this
    {
      key !in held && forall w :: w in callers && callers[w] == Waiting(key) ==> w in cancelled
    }

    /** A call up to its first suspension.  An open lock is taken without suspending, so the
        second lookup cannot differ from the first and the function starts at once.
        `cancelled` are the waiters cancelled but not yet resumed. */
    method Call(who: Who, key: Key, now: int, cancelled: set<Who>) returns (hit: Option<Value>)
      requires who !in callers
      modifies this
      ensures key in old(cache) ==> hit.Some? && Step(old(View()), View(), Hit(key, hit.value, now), maxsize)
      ensures key !in old(cache) ==>
        && hit == None
        && Step(old(View()), View(),
                if old(LockIsOpen(key, cancelled)) then JoinFree(who, key) else JoinWait(who, key), maxsize)
    {
      if key in cache {
        cache := cache[key := cache[key].(ts := now)];
        return Some(cache[key].value);
      }
      if LockIsOpen(key, cancelled) {
        EnterGroup(who, Computing(key));
        held := held + {key};
        computed := computed + multiset{key};
      } else {
        EnterGroup(who, Waiting(key));
      }
      hit := None;
    }

    /** A waiting call gets the lock: look again, and compute only on a second miss. */
    method Acquire(who: Who, now: int) returns (hit: Option<Value>)
      requires who in callers && callers[who].Waiting? && callers[who].key !in held
      modifies this
      ensures hit.Some? ==> Step(old(View()), View(), AcquireHit(who, hit.value, now), maxsize)
      ensures hit.None? ==> Step(old(View()), View(), AcquireMiss(who), maxsize)
    {
      var key := callers[who].key;
      if key in cache {
        cache := cache[key := cache[key].(ts := now)];
        LeaveGroup(who);
        return Some(cache[key].value);
      }
      held := held + {key};
      callers := callers[who := Computing(key)];
      computed := computed + multiset{key};
      hit := None;
    }

    /** The eviction pass: oldest entries first, keys in use are passed over. */
    method EvictPass()
      modifies `cache
      ensures Evicted(old(cache), cache, locks.Keys, maxsize)
    {
      var extras: int := if maxsize == None then 0 else |cache| - maxsize.value;
      if extras <= 0 {
        return;
      }
      var order := SortEntries(cache);
      ghost var i := EvictAlong(order, extras);
      OldestLeaveFirst(old(cache), cache, order, i, locks.Keys);
    }

    /** The loop of the pass; `i` is how far it got. */
    method EvictAlong(order: seq<Key>, surplus: int) returns (ghost i: nat)
      requires OldestFirst(cache, order) && maxsize.Some? && surplus == |cache| - maxsize.value > 0
      modifies `cache
      ensures i <= |order| && |cache| >= maxsize.value && (i == |order| || |cache| == maxsize.value)
      ensures EvictedUpTo(old(cache), cache, order, i, locks.Keys)
    {
      i := 0;
      var extras := surplus;
      for n := 0 to |order|
        invariant i == n
        invariant extras == |cache| - maxsize.value && extras >= 0
        invariant EvictedUpTo(old(cache), cache, order, n, locks.Keys)
      {
        var key := order[n];
        if key in locks {
          i := n + 1;
          continue;
        }
        if extras <= 0 {
          break;
        }
        EvictOneMore(old(cache), cache, order, n, locks.Keys);
        cache := cache - {key};
        extras := extras - 1;
        i := n + 1;
      }
    }

    /** The function returned: maybe keep the result, evict, leave. */
    method Complete(who: Who, value: Value, keep: bool, now: int)
      requires who in callers && callers[who].Computing?
      modifies this
      ensures Step(old(View()), View(), Finish(who, value, keep, now), maxsize)
    {
      var key := callers[who].key;
      if keep {
        cache := cache[key := Entry(value, now)];
      }
      EvictPass();
      held := held - {key};
      produced := produced + {(key, value)};
      LeaveGroup(who);
    }

    /** The function was cancelled or raised. */
    method Abort(who: Who)
      requires who in callers && callers[who].Computing?
      modifies this
      ensures Step(old(View()), View(), Fail(who), maxsize)
    {
      held := held - {callers[who].key};
      LeaveGroup(who);
    }

    method StopWaiting(who: Who)
      requires who in callers && callers[who].Waiting?
      modifies this
      ensures Step(old(View()), View(), CancelWait(who), maxsize)
    {
      LeaveGroup(who);
    }
  }
}
