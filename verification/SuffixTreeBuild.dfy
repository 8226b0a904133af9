/** The builder of utils/path_suffix_tree.py. Its nested dictionaries are numbered in the order
    they are made: `nodes[i]` maps a component to the number of the dictionary under it. */
module SuffixTreeBuild {
  import opened SuffixTree
  import opened Wrappers

  type Dicts = seq<map<string, int>>

  /** Every dictionary but the first hangs in exactly one place, under an older one. */
  ghost predicate Nested(nodes: Dicts) {
    && nodes != []
    && (forall i, k :: 0 <= i < |nodes| && k in nodes[i] ==> i < nodes[i][k] < |nodes|)
    && (forall i, k, j, l :: 0 <= i < |nodes| && 0 <= j < |nodes| && k in nodes[i] && l in nodes[j] ==>
        nodes[i][k] == nodes[j][l] ==> i == j && k == l)
  }

  /** The dictionary reached by the components of `p`, last one first. */
  ghost function Locate(nodes: Dicts, p: Path): (r: Option<nat>)
    requires Nested(nodes)
    ensures r.Some? ==> r.value < |nodes|
  {
    if p == [] then Some(0)
    else
      var at := Locate(nodes, p[1..]);
      if at.Some? && p[0] in nodes[at.value] then Some(nodes[at.value][p[0]]) else None
  }

  lemma {:induction false} OnePathEach(nodes: Dicts, p: Path, q: Path)
    requires Nested(nodes) && Locate(nodes, p).Some? && Locate(nodes, p) == Locate(nodes, q)
    ensures p == q
  {
    if p != [] && q != [] {
      OnePathEach(nodes, p[1..], q[1..]);
      assert p == [p[0]] + p[1..] && q == [q[0]] + q[1..];
    }
  }

  /** A fresh dictionary hung under `part` of `cur`. */
  ghost function Grown(nodes: Dicts, cur: nat, part: string): Dicts
    requires cur < |nodes|
  {
    nodes[cur := nodes[cur][part := |nodes|]] + [map[]]
  }

  lemma GrownIsNested(nodes: Dicts, cur: nat, part: string)
    requires Nested(nodes) && cur < |nodes| && part !in nodes[cur]
    ensures Nested(Grown(nodes, cur, part))
  {
  }

  /** Writing through the cursor adds one path, the one it stands at, and moves no other. */
  lemma {:induction false} GrownLocates(nodes: Dicts, s: Path, cur: nat, part: string, p: Path)
    requires Nested(nodes) && Locate(nodes, s) == Some(cur) && part !in nodes[cur]
    requires Nested(Grown(nodes, cur, part))
    ensures Locate(Grown(nodes, cur, part), p)
         == if p == [part] + s then Some(|nodes|) else Locate(nodes, p)
  {
    if p != [] {
      GrownLocates(nodes, s, cur, part, p[1..]);
      assert p == [p[0]] + p[1..];
      if p[1..] == [part] + s {
        NothingBelowNew(nodes, s, part, p);
      } else if Locate(nodes, p[1..]) == Some(cur) {
        OnePathEach(nodes, s, p[1..]);
      }
    }
  }

  lemma NothingBelowNew(nodes: Dicts, s: Path, part: string, p: Path)
    requires Nested(nodes) && Locate(nodes, s).Some? && part !in nodes[Locate(nodes, s).value]
    requires p != [] && p[1..] == [part] + s
    ensures Locate(nodes, p).None? && p != [part] + s
  {
    assert p[1..][1..] == s;
  }

  /** The paths present: the endings of the files added. */
  ghost predicate Holds(nodes: Dicts, files: set<Path>)
    requires Nested(nodes)
  {
    forall p :: Locate(nodes, p).Some? <==> Present(files, p)
  }

  ghost predicate Present(files: set<Path>, p: Path) {
    p == [] || exists f :: f in files && EndsIn(f, p)
  }

  class PathSuffixDict {
    var nodes: Dicts
    ghost var files: set<Path>

    ghost predicate Valid()
      reads this
    {
      Nested(nodes) && Holds(nodes, files)
    }

    constructor ()
      ensures Valid() && files == {}
    {
      nodes, files := [map[]], {};
      new;
      assert Locate(nodes, []) == Some(0);
      forall p | p != [] ensures Locate(nodes, p).None? {
        EmptyHasNoPath(p);
      }
    }

    method AddFile(path: Path)
      requires Valid()
      modifies this
      ensures Valid() && files == old(files) + {path}
    {
      ghost var before := nodes;
      var cur, i := 0, |path|;
      while i > 0
        invariant 0 <= i <= |path| && Nested(nodes) && Locate(nodes, path[i..]) == Some(cur)
        invariant Extends(before, nodes, path, i)
        invariant files == old(files)
      {
        var part := path[i - 1];
        assert path[i - 1..] == [part] + path[i..];
        if part !in nodes[cur] {
          GrownIsNested(nodes, cur, part);
          ExtendsByOne(before, nodes, path, i, cur);
          GrownLocates(nodes, path[i..], cur, part, path[i - 1..]);
          nodes := nodes[cur := nodes[cur][part := |nodes|]] + [map[]];
        } else {
          AlreadyThere(before, nodes, path, i, cur);
        }
        cur := nodes[cur][part];
        i := i - 1;
      }
      files := files + {path};
      ExtendedHolds(before, nodes, path, old(files));
    }
  }

  lemma {:induction false} EmptyHasNoPath(p: Path)
    requires p != []
    ensures Locate([map[]], p).None?
  {
    if p[1..] != [] {
      EmptyHasNoPath(p[1..]);
    }
  }

  /** The paths present are those before and the endings of `path` from `i` on. */
  ghost predicate Extends(before: Dicts, nodes: Dicts, path: Path, i: nat)
    requires Nested(before) && Nested(nodes) && i <= |path|
  {
    forall p :: Locate(nodes, p).Some? <==> Locate(before, p).Some? || EndsIn(path[i..], p)
  }

  lemma ExtendsByOne(before: Dicts, nodes: Dicts, path: Path, i: nat, cur: nat)
    requires Nested(before) && Nested(nodes) && 0 < i <= |path| && Extends(before, nodes, path, i)
    requires Locate(nodes, path[i..]) == Some(cur) && path[i - 1] !in nodes[cur]
    requires Nested(Grown(nodes, cur, path[i - 1]))
    ensures Extends(before, Grown(nodes, cur, path[i - 1]), path, i - 1)
  {
    forall p ensures Locate(Grown(nodes, cur, path[i - 1]), p).Some?
                <==> Locate(before, p).Some? || EndsIn(path[i - 1..], p)
    {
      GrownLocates(nodes, path[i..], cur, path[i - 1], p);
      LongerEnding(path, i, p);
    }
  }

  lemma LongerEnding(path: Path, i: nat, p: Path)
    requires 0 < i <= |path|
    ensures EndsIn(path[i - 1..], p) <==> EndsIn(path[i..], p) || p == path[i - 1..]
    ensures path[i - 1..] == [path[i - 1]] + path[i..]
  {
    if |p| <= |path| - i {
      assert path[i - 1..][|path| - i + 1 - |p|..] == path[i..][|path| - i - |p|..];
    }
  }

  lemma AlreadyThere(before: Dicts, nodes: Dicts, path: Path, i: nat, cur: nat)
    requires Nested(before) && Nested(nodes) && 0 < i <= |path| && Extends(before, nodes, path, i)
    requires Locate(nodes, path[i..]) == Some(cur) && path[i - 1] in nodes[cur]
    ensures Extends(before, nodes, path, i - 1)
    ensures Locate(nodes, path[i - 1..]) == Some(nodes[cur][path[i - 1]])
  {
    assert path[i - 1..][1..] == path[i..];
    forall p ensures Locate(nodes, p).Some? <==> Locate(before, p).Some? || EndsIn(path[i - 1..], p) {
      LongerEnding(path, i, p);
    }
  }

  lemma ExtendedHolds(before: Dicts, nodes: Dicts, path: Path, files: set<Path>)
    requires Nested(before) && Nested(nodes) && Holds(before, files) && Extends(before, nodes, path, 0)
    ensures Holds(nodes, files + {path})
  {
    assert path[0..] == path;
    forall p ensures Locate(nodes, p).Some? <==> Present(files + {path}, p) {
      assert Present(files + {path}, p) <==> Present(files, p) || EndsIn(path, p);
    }
  }

  // ---------------------------------------------------------------- the tree read back

  /** The nested dictionaries as a tree, as dumped by the one program and read by the other. */
  function Dumped(nodes: Dicts, i: nat): Node
    requires Nested(nodes) && i < |nodes|
    decreases |nodes| - i
  {
    Node(map k | k in nodes[i] :: Dumped(nodes, nodes[i][k]))
  }

  lemma {:induction false} DumpedAt(nodes: Dicts, p: Path)
    requires Nested(nodes)
    ensures At(Dumped(nodes, 0), p)
         == if Locate(nodes, p).Some? then Some(Dumped(nodes, Locate(nodes, p).value)) else None
  {
    if p != [] {
      DumpedAt(nodes, p[1..]);
    }
  }

  /** The leaves are the files that are no proper ending of another file; the empty path counts
      as one until there is a file. */
  ghost predicate Maximal(files: set<Path>, p: Path) {
    (p == [] || p in files) && forall f :: f in files && EndsIn(f, p) ==> f == p
  }

  lemma LeavesAreMaximal(nodes: Dicts, files: set<Path>, p: Path)
    requires Nested(nodes) && Holds(nodes, files)
    ensures IsLeaf(Dumped(nodes, 0), p) <==> Maximal(files, p)
  {
    DumpedLeaf(nodes, p);
    if Childless(nodes, p) {
      ChildlessIsMaximal(nodes, files, p);
    } else if Locate(nodes, p).Some? {
      ChildSpoils(nodes, files, p);
    } else {
      assert !Present(files, p);
      assert p in files ==> EndsIn(p, p);
    }
  }

  ghost predicate Childless(nodes: Dicts, p: Path)
    requires Nested(nodes)
  {
    Locate(nodes, p).Some? && nodes[Locate(nodes, p).value] == map[]
  }

  lemma DumpedLeaf(nodes: Dicts, p: Path)
    requires Nested(nodes)
    ensures IsLeaf(Dumped(nodes, 0), p) <==> Childless(nodes, p)
  {
    DumpedAt(nodes, p);
    if Locate(nodes, p).Some? {
      DumpedKeys(nodes, Locate(nodes, p).value);
    }
  }

  lemma DumpedKeys(nodes: Dicts, i: nat)
    requires Nested(nodes) && i < |nodes|
    ensures Dumped(nodes, i).children.Keys == nodes[i].Keys
    ensures Dumped(nodes, i).children == map[] <==> nodes[i] == map[]
  {
    assert nodes[i].Keys == {} <==> nodes[i] == map[];
  }

  lemma ChildSpoils(nodes: Dicts, files: set<Path>, p: Path)
    requires Nested(nodes) && Holds(nodes, files) && Locate(nodes, p).Some? && !Childless(nodes, p)
    ensures !Maximal(files, p)
  {
    var k :| k in nodes[Locate(nodes, p).value];
    assert ([k] + p)[1..] == p;
    assert Present(files, [k] + p);
    var f :| f in files && EndsIn(f, [k] + p);
    EndsInRest(f, k, p);
  }

  lemma EndsInRest(f: Path, k: string, p: Path)
    requires EndsIn(f, [k] + p)
    ensures EndsIn(f, p) && f != p
  {
    assert f[|f| - |p| - 1..][1..] == f[|f| - |p|..];
  }

  lemma ChildlessIsMaximal(nodes: Dicts, files: set<Path>, p: Path)
    requires Nested(nodes) && Holds(nodes, files) && Childless(nodes, p)
    ensures Maximal(files, p)
  {
    assert Present(files, p);
    forall f | f in files && EndsIn(f, p) ensures f == p {
      LongerFileMakesChild(nodes, files, p, f);
    }
  }

  lemma LongerFileMakesChild(nodes: Dicts, files: set<Path>, p: Path, f: Path)
    requires Nested(nodes) && Holds(nodes, files) && f in files && EndsIn(f, p)
    ensures f != p ==> !Childless(nodes, p)
  {
    if f != p {
      var q := f[|f| - |p| - 1..];
      assert q[1..] == p && EndsIn(f, q);
      assert Present(files, q);
      assert Locate(nodes, q).Some?;
    }
  }
}
