/** The counter cache object of crs/app/counter_db.py.  A call that finds its name cold
    suspends on a SELECT and is split there; every method is one step of CounterSpec. */
module CounterDb {
  import opened Wrappers
  import opened CounterSpec

  class CounterDB {
    var cache: map<Name, real>
    var db: map<Name, real>         // the table
    var fifo: seq<Statement>        // statements waiting on the pinned connection
    var pending: map<Who, Pending>  // the locals of suspended calls
    ghost var log: seq<Write>
    ghost var outcomes: seq<Outcome>

    ghost function View(): State
      reads this
    {
      State(cache, db, fifo, pending, log, outcomes)
    }

    constructor (rows: map<Name, real>)
      ensures View() == Init(rows)
    {
      cache, db, fifo, pending, log, outcomes := map[], rows, [], map[], [], [];
    }

    /** fetch_add up to its first suspension; a warm name is served without one. */
    method FetchAddStart(who: Who, name: Name, amount: real) returns (value: Option<real>)
      requires who !in pending
      modifies this
      ensures name in old(cache) ==>
                value == Some(old(cache)[name]) && Step(old(View()), View(), WarmFetchAdd(name, amount))
      ensures name !in old(cache) ==>
                value == None && Step(old(View()), View(), ColdStart(who, name, FetchAdd(amount)))
    {
      if name !in cache {
        fifo := fifo + [Select(who, name)];
        pending := pending[who := Reading(name, FetchAdd(amount))];
        return None;
      }
      var before := cache[name];
      Publish(name, before, amount);
      value := Some(before);
    }

    /** The rest of a cold fetch_add: the cache is looked at again after the read. */
    method FetchAddEnd(who: Who) returns (value: real)
      requires who in pending && pending[who].HasRead? && pending[who].goal.FetchAdd?
      modifies this
      ensures Step(old(View()), View(), ColdFetchAddEnd(who))
      ensures |outcomes| == |old(outcomes)| + 1 && outcomes[|old(outcomes)|].value == value
    {
      var p := pending[who];
      pending := pending - {who};
      value := if p.name in cache then cache[p.name] else p.value;
      Publish(p.name, value, p.goal.amount);
    }

    /** The stretch without a suspension point: cache first, then the queued statement. */
    method Publish(name: Name, before: real, amount: real)
      modifies `cache, `fifo, `log, `outcomes
      ensures View() == Commit(old(View()), name, before, amount)
    {
      cache := cache[name := before + amount];
      fifo := fifo + [Upsert(name, amount)];
      outcomes := outcomes + [Outcome(name, |log|, before)];
      log := log + [Added(name, amount)];
    }

    method GetStart(who: Who, name: Name) returns (value: Option<real>)
      requires who !in pending
      modifies this
      ensures name in old(cache) ==> value == Some(old(cache)[name]) && View() == old(View())
      ensures name !in old(cache) ==> value == None && Step(old(View()), View(), ColdStart(who, name, Get))
    {
      if name in cache {
        return Some(cache[name]);
      }
      fifo := fifo + [Select(who, name)];
      pending := pending[who := Reading(name, Get)];
      value := None;
    }

    /** The rest of a cold get: what was read is published as it is. */
    method GetEnd(who: Who) returns (value: real)
      requires who in pending && pending[who].HasRead? && pending[who].goal.Get?
      modifies this
      ensures Step(old(View()), View(), ColdGetEnd(who)) && value == old(pending)[who].value
    {
      var p := pending[who];
      pending := pending - {who};
      cache := cache[p.name := p.value];
      value := p.value;
    }

    method Set(name: Name, value: real)
      modifies this
      ensures Step(old(View()), View(), SetValue(name, value))
    {
      cache := cache[name := value];
      fifo := fifo + [Store(name, value)];
      log := log + [Stored(name, value)];
    }

    /** The connection runs its oldest statement. */
    method RunNext()
      requires fifo != []
      modifies this
      ensures Step(old(View()), View(), RunStatement)
    {
      var statement := fifo[0];
      fifo := fifo[1..];
      match statement
      case Select(who, name) =>
        if who in pending {
          pending := pending[who := HasRead(name, pending[who].goal, Row(db, name))];
        }
      case Upsert(name, amount) =>
        db := db[name := Row(db, name) + amount];
      case Store(name, value) =>
        db := db[name := value];
    }
  }
}
