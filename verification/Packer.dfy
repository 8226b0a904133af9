/** The packing loop of crs/analysis/full.py. */
module Packer {
  import opened PackerSpec

  class LanguageGroup {
    var chunks: seq<seq<File>>
    var chunk: seq<File>
    var chunksize: nat
    var totalsize: nat

    function Value(): Group
      reads this
    {
      Group(chunks, chunk, chunksize, totalsize)
    }

    constructor ()
      ensures Value() == NEW_GROUP
    {
      chunks, chunk, chunksize, totalsize := [], [], 0, 0;
    }

    /** Adds a file to the open chunk; tells whether one was closed for it. */
    method Add(f: File, maxsize: nat) returns (closed: bool)
      modifies this
      ensures Value() == old(Put(Value(), f, maxsize)) && closed == old(Overflows(Value(), f, maxsize))
    {
      closed := false;
      if f.size > maxsize {
        return;
      }
      if chunksize + f.size > 2 * maxsize {
        chunks, chunk, chunksize := chunks + [chunk], [], 0;
        closed := true;
      }
      chunk := chunk + [f];
      chunksize, totalsize := chunksize + f.size, totalsize + f.size;
    }

    method Finish()
      modifies this
      ensures Value() == old(Flush(Value()))
    {
      if chunk != [] {
        chunks, chunk, chunksize := chunks + [chunk], [], 0;
      }
    }
  }

  // ---------------------------------------------------------------- taking a file

  lemma {:induction false} SomeFirst(files: seq<File>, ts: set<string>) returns (t: string)
    requires ts != {}
    ensures t in ts && forall u :: u in ts ==> !Before(files, u, t)
    decreases ts
  {
    var s :| s in ts;
    var rest := ts - {s};
    if rest == {} {
      t := s;
      assert ts == {s};
    } else {
      var r := SomeFirst(files, rest);
      t := if Before(files, s, r) then s else r;
      forall u | u in ts ensures !Before(files, u, t) {
        assert u == s || u in rest;
      }
    }
  }

  lemma {:induction false} PathOrder(a: string, b: string, c: string)
    ensures !PathBefore(a, a)
    ensures PathBefore(a, b) && PathBefore(b, c) ==> PathBefore(a, c)
    decreases |a|
  {
    if a != [] {
      PathOrder(a[1..], if b == [] then [] else b[1..], if c == [] then [] else c[1..]);
    }
  }

  lemma {:induction false} SomeFirstPath(remaining: set<File>) returns (f: File)
    requires remaining != {}
    ensures f in remaining && forall g :: g in remaining ==> !PathBefore(g.path, f.path)
    decreases remaining
  {
    var s :| s in remaining;
    var rest := remaining - {s};
    PathOrder(s.path, s.path, s.path);
    if rest == {} {
      f := s;
      assert remaining == {s};
    } else {
      var r := SomeFirstPath(rest);
      f := if PathBefore(s.path, r.path) then s else r;
      forall g | g in remaining ensures !PathBefore(g.path, f.path) {
        PathOrder(g.path, s.path, r.path);
        assert g == s || g in rest;
      }
    }
  }

  /** sorted(remaining)[0]. */
  method FirstByPath(remaining: set<File>) returns (f: File)
    requires remaining != {}
    ensures f in remaining && forall g :: g in remaining ==> !PathBefore(g.path, f.path)
  {
    ghost var first := SomeFirstPath(remaining);
    f :| f in remaining && forall g :: g in remaining ==> !PathBefore(g.path, f.path);
  }

  /** The next file: the active tokens are tried in order, each on the files in order. */
  method Select(files: seq<File>, remaining: set<File>, active: set<string>) returns (f: File)
    requires remaining != {} && forall g :: g in remaining ==> g in files
    ensures NextBest(files, remaining, active, f)
  {
    var rest := active;
    while rest != {}
      invariant rest <= active
      invariant forall t, u :: t in active - rest && u in rest ==> !Before(files, u, t)
      invariant forall t :: t in active - rest ==> !Occurs(t, remaining)
      decreases rest
    {
      ghost var first := SomeFirst(files, rest);
      var t :| t in rest && forall u :: u in rest ==> !Before(files, u, t);
      var j := 0;
      while j < |files|
        invariant j <= |files|
        invariant forall k :: 0 <= k < j ==> files[k] !in remaining || t !in files[k].tokens
      {
        if files[j] in remaining && t in files[j].tokens {
          f := files[j];
          assert Occurs(t, remaining) && FirstWith(files, remaining, t, j, f);
          assert LeastOccurring(files, remaining, active, t);
          return;
        }
        j := j + 1;
      }
      assert !Occurs(t, remaining);
      rest := rest - {t};
    }
    f := FirstByPath(remaining);
  }

  // ---------------------------------------------------------------- packing

  function Exts(order: seq<File>): set<string> { set f | f in order :: Ext(f.path) }

  /** The groups are the ones the files taken so far make, one object each. */
  ghost predicate Grouped(groups: map<string, LanguageGroup>, order: seq<File>, maxsize: nat)
    reads groups.Values
  {
    && groups.Keys == Exts(order)
    && (forall d, e :: d in groups && e in groups && d != e ==> groups[d] != groups[e])
    && forall e :: e in groups ==> groups[e].Value() == GroupOf(order, e, maxsize)
  }

  lemma {:induction false} NoFileNoGroup(order: seq<File>, ext: string, maxsize: nat)
    requires ext !in Exts(order)
    ensures GroupOf(order, ext, maxsize) == NEW_GROUP
  {
    if order != [] {
      var f := order[|order| - 1];
      assert f in order;
      assert Ext(f.path) in Exts(order);
      forall g | g in order[..|order| - 1] ensures Ext(g.path) in Exts(order) {
      }
      NoFileNoGroup(order[..|order| - 1], ext, maxsize);
    }
  }

  /** Files a file under its extension, in a new group if need be. */
  method Enter(groups: map<string, LanguageGroup>, f: File, ghost order: seq<File>, maxsize: nat)
    returns (more: map<string, LanguageGroup>, closed: bool)
    requires Grouped(groups, order, maxsize)
    modifies groups.Values
    ensures Grouped(more, order + [f], maxsize) && fresh(more.Values - groups.Values)
    ensures closed == Overflows(GroupOf(order, Ext(f.path), maxsize), f, maxsize)
  {
    var ext := Ext(f.path);
    more := groups;
    if ext !in groups {
      var group := new LanguageGroup();
      more := groups[ext := group];
      NoFileNoGroup(order, ext, maxsize);
    }
    closed := more[ext].Add(f, maxsize);
    forall e | e in more ensures more[e].Value() == GroupOf(order + [f], e, maxsize) {
    }
  }

  lemma ActiveOneMore(files: seq<File>, order: seq<File>, f: File, maxsize: nat)
    ensures Active(files, order + [f], maxsize)
         == if Overflows(GroupOf(order, Ext(f.path), maxsize), f, maxsize) then {}
            else Active(files, order, maxsize) + Shared(files, f)
  {
    assert (order + [f])[..|order|] == order;
  }

  ghost predicate Distinct(files: seq<File>) {
    forall i, j :: 0 <= i < j < |files| ==> files[i] != files[j]
  }

  lemma {:induction false} OnceOnly(files: seq<File>, f: File)
    requires Distinct(files)
    ensures multiset(files)[f] == if f in files then 1 else 0
  {
    if files != [] {
      var n := |files| - 1;
      OnceOnly(files[..n], f);
      assert files == files[..n] + [files[n]];
    }
  }

  lemma AllOfThem(files: seq<File>, all: set<File>)
    requires Distinct(files) && forall f :: f in all <==> f in files
    ensures multiset(all) == multiset(files) && all == Rest(files, [])
  {
    forall f: File ensures multiset(all)[f] == multiset(files)[f] {
      OnceOnly(files, f);
    }
  }

  /** The loop's view of the files taken so far. */
  ghost predicate Underway(files: seq<File>, order: seq<File>, remaining: set<File>, active: set<string>,
                           maxsize: nat)
  {
    && remaining == Rest(files, order) && active == Active(files, order, maxsize)
    && multiset(order) + multiset(remaining) == multiset(files)
    && TakenInTurn(files, order, maxsize)
  }

  lemma UnderwayNext(files: seq<File>, order: seq<File>, remaining: set<File>, active: set<string>,
                     maxsize: nat, f: File)
    requires Underway(files, order, remaining, active, maxsize) && NextBest(files, remaining, active, f)
    ensures Underway(files, order + [f], remaining - {f},
      if Overflows(GroupOf(order, Ext(f.path), maxsize), f, maxsize) then {} else active + Shared(files, f), maxsize)
  {
    ActiveOneMore(files, order, f, maxsize);
  }

  /** Every file is taken once, the next best each time; the groups are those of that order. */
  method Pack(files: seq<File>, maxsize: nat) returns (groups: map<string, LanguageGroup>, ghost order: seq<File>)
    requires Distinct(files)
    ensures multiset(order) == multiset(files) && TakenInTurn(files, order, maxsize)
    ensures groups.Keys == Exts(order)
    ensures forall e :: e in groups ==> fresh(groups[e]) && groups[e].Value() == Flush(GroupOf(order, e, maxsize))
  {
    var remaining, active := set f | f in files, {};
    groups, order := map[], [];
    AllOfThem(files, remaining);
    while remaining != {}
      invariant Underway(files, order, remaining, active, maxsize)
      invariant Grouped(groups, order, maxsize) && fresh(groups.Values)
      decreases |remaining|
    {
      var f := Select(files, remaining, active);
      UnderwayNext(files, order, remaining, active, maxsize, f);
      remaining := remaining - {f};
      active := active + Shared(files, f);
      var closed;
      groups, closed := Enter(groups, f, order, maxsize);
      if closed {
        active := {};
      }
      order := order + [f];
    }
    FinishAll(groups, order, maxsize);
  }

  method FinishAll(groups: map<string, LanguageGroup>, ghost order: seq<File>, maxsize: nat)
    requires Grouped(groups, order, maxsize)
    modifies groups.Values
    ensures forall e :: e in groups ==> groups[e].Value() == Flush(GroupOf(order, e, maxsize))
  {
    var rest := groups.Keys;
    while rest != {}
      invariant rest <= groups.Keys
      invariant forall e :: e in groups ==>
        groups[e].Value() == if e in rest then GroupOf(order, e, maxsize) else Flush(GroupOf(order, e, maxsize))
      decreases rest
    {
      var e :| e in rest;
      groups[e].Finish();
      rest := rest - {e};
    }
  }
}
