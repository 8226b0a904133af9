/** The index over reversed path components of src/path_suffix.rs: a tree whose branches spell
    paths from their last component on. A path is the list of its component names. */
module SuffixTree {
  import opened Wrappers

  type Path = seq<string>

  datatype Node = Node(children: map<string, Node>)

  /** The node reached from `n` by the components of `p`, last one first. */
  function At(n: Node, p: Path): Option<Node> {
    if p == [] then Some(n)
    else
      var m := At(n, p[1..]);
      if m.Some? && p[0] in m.value.children then Some(m.value.children[p[0]]) else None
  }

  /** `l` leads from `n` to a node without children. */
  predicate IsLeaf(n: Node, l: Path) {
    At(n, l).Some? && At(n, l).value.children == map[]
  }

  predicate EndsIn(p: Path, s: Path) {
    |s| <= |p| && p[|p| - |s|..] == s
  }

  predicate IsUnique(n: Node) {
    n.children == map[] || (|n.children| == 1 && forall k :: k in n.children ==> IsUnique(n.children[k]))
  }

  // ---------------------------------------------------------------- walking

  lemma {:induction false} WalkOn(n: Node, l: Path, s: Path)
    requires At(n, s).Some?
    ensures At(n, l + s) == At(At(n, s).value, l)
  {
    if l == [] {
      assert l + s == s;
    } else {
      WalkOn(n, l[1..], s);
      assert (l + s)[1..] == l[1..] + s;
    }
  }

  lemma {:induction false} SuffixesAreThere(n: Node, l: Path, s: Path)
    requires At(n, l + s).Some?
    ensures At(n, s).Some?
  {
    if l == [] {
      assert l + s == s;
    } else {
      assert (l + s)[1..] == l[1..] + s;
      SuffixesAreThere(n, l[1..], s);
    }
  }

  lemma ChildLeaves(n: Node, k: string, l: Path)
    ensures IsLeaf(n, l + [k]) <==> k in n.children && IsLeaf(n.children[k], l)
  {
    assert At(n, [k]) == if k in n.children then Some(n.children[k]) else None;
    if k in n.children {
      WalkOn(n, l, [k]);
    } else if At(n, l + [k]).Some? {
      SuffixesAreThere(n, l, [k]);
    }
  }

  lemma {:induction false} SomeLeaf(n: Node) returns (l: Path)
    ensures IsLeaf(n, l)
    decreases n
  {
    if n.children == map[] {
      l := [];
    } else {
      var k :| k in n.children;
      var l' := SomeLeaf(n.children[k]);
      ChildLeaves(n, k, l');
      l := l' + [k];
    }
  }

  // ---------------------------------------------------------------- uniqueness

  lemma OnlyKey(m: map<string, Node>, j: string, k: string)
    requires |m| == 1 && j in m && k in m
    ensures j == k
  {
    if j != k {
      assert {j, k} <= m.Keys;
      assert |{j, k}| == 2;
      SubsetSize({j, k}, m.Keys);
    }
  }

  lemma {:induction false} SubsetSize<T>(a: set<T>, b: set<T>)
    requires a <= b
    ensures |a| <= |b|
  {
    if a != {} {
      var x :| x in a;
      SubsetSize(a - {x}, b - {x});
    }
  }

  lemma {:induction false} UniqueHasOneLeaf(n: Node, l: Path, m: Path)
    requires IsUnique(n) && IsLeaf(n, l) && IsLeaf(n, m)
    ensures l == m
    decreases n
  {
    if n.children == map[] {
      LeafHasNothingBelow(n, l);
      LeafHasNothingBelow(n, m);
    } else {
      assert l != [] && m != [];
      var (i, j) := (|l| - 1, |m| - 1);
      assert l == l[..i] + [l[i]] && m == m[..j] + [m[j]];
      ChildLeaves(n, l[i], l[..i]);
      ChildLeaves(n, m[j], m[..j]);
      OnlyKey(n.children, l[i], m[j]);
      UniqueHasOneLeaf(n.children[l[i]], l[..i], m[..j]);
    }
  }

  lemma {:induction false} LeafHasNothingBelow(n: Node, l: Path)
    requires n.children == map[] && At(n, l).Some?
    ensures l == []
  {
    if l != [] {
      LeafHasNothingBelow(n, l[1..]);
    }
  }

  /** Where the branch is not unique there are two leaves to tell apart. */
  lemma {:induction false} TwoLeaves(n: Node) returns (l: Path, m: Path)
    requires !IsUnique(n)
    ensures IsLeaf(n, l) && IsLeaf(n, m) && l != m
    decreases n
  {
    var j :| j in n.children;
    if k :| k in n.children && k != j {
      var l' := SomeLeaf(n.children[j]);
      var m' := SomeLeaf(n.children[k]);
      ChildLeaves(n, j, l');
      ChildLeaves(n, k, m');
      l, m := l' + [j], m' + [k];
      assert l[|l| - 1] == j && m[|m| - 1] == k;
    } else {
      assert n.children.Keys == {j};
      assert |n.children| == |n.children.Keys|;
      var l', m' := TwoLeaves(n.children[j]);
      ChildLeaves(n, j, l');
      ChildLeaves(n, j, m');
      l, m := l' + [j], m' + [j];
      assert l[..|l'|] == l' && m[..|m'|] == m';
    }
  }

  ghost predicate OneLeaf(n: Node) {
    forall l, m :: IsLeaf(n, l) && IsLeaf(n, m) ==> l == m
  }

  /** The test of a chain of only children finds exactly the nodes with one leaf below. */
  lemma UniqueIffOneLeaf(n: Node)
    ensures IsUnique(n) <==> OneLeaf(n)
  {
    if IsUnique(n) {
      forall l, m | IsLeaf(n, l) && IsLeaf(n, m) ensures l == m {
        UniqueHasOneLeaf(n, l, m);
      }
    } else {
      var l, m := TwoLeaves(n);
    }
  }

  // ---------------------------------------------------------------- short forms

  /** Why a path is refused: a component is missing past the known suffix, or the path is not
      a complete one. */
  datatype PathError = Missing(path: Path, known: Path) | Incomplete(path: Path) | Panic

  function Tail(p: Path, i: nat): (s: Path)
    requires i <= |p|
    ensures |s| == i && EndsIn(p, s)
  {
    p[|p| - i..]
  }

  /** The short form of a path: its components from the last one on, as far as the first
      branch with one leaf. */
  function Normal(root: Node, path: Path): Result<Path, PathError> {
    if path == [] then Ok([]) else NormalFrom(root, path, 0)
  }

  function NormalFrom(root: Node, path: Path, i: nat): Result<Path, PathError>
    requires i < |path|
    decreases |path| - i
  {
    var n := At(root, Tail(path, i + 1));
    if n.None? then Err(Missing(path, Tail(path, i)))
    else if IsUnique(n.value) || i + 1 == |path| then Ok(Tail(path, i + 1))
    else NormalFrom(root, path, i + 1)
  }

  ghost predicate Settles(root: Node, s: Path) {
    At(root, s).Some? && OneLeaf(At(root, s).value)
  }

  /** The short form is the shortest ending of the path with one leaf, or the whole path. */
  lemma {:induction false} NormalIsShortest(root: Node, path: Path, i: nat, s: Path)
    requires i < |path| && NormalFrom(root, path, i) == Ok(s)
    ensures i < |s| <= |path| && s == Tail(path, |s|) && At(root, s).Some?
    ensures Settles(root, s) || s == path
    ensures forall j :: i < j < |s| ==> !Settles(root, Tail(path, j))
    decreases |path| - i
  {
    var n := At(root, Tail(path, i + 1));
    UniqueIffOneLeaf(n.value);
    if !IsUnique(n.value) && i + 1 < |path| {
      NormalIsShortest(root, path, i + 1, s);
    }
  }

  /** The ending of `j` components is not in the tree, and no shorter one past `i` settles. */
  ghost predicate Blocked(root: Node, path: Path, i: nat, j: nat) {
    && i < j <= |path| && At(root, Tail(path, j)).None?
    && forall k :: i < k < j ==> !Settles(root, Tail(path, k))
  }

  lemma BlockedLater(root: Node, path: Path, i: nat, j: nat)
    requires i + 1 < |path| && At(root, Tail(path, i + 1)).Some? && !Settles(root, Tail(path, i + 1))
    ensures Blocked(root, path, i, j) <==> Blocked(root, path, i + 1, j)
  {
  }

  /** A path is refused exactly when a component is missing before any ending settles. */
  lemma {:induction false} NormalRefuses(root: Node, path: Path, i: nat)
    requires i < |path|
    ensures NormalFrom(root, path, i).Err? <==> exists j :: Blocked(root, path, i, j)
    decreases |path| - i
  {
    var n := At(root, Tail(path, i + 1));
    if n.None? {
      assert Blocked(root, path, i, i + 1);
    } else {
      UniqueIffOneLeaf(n.value);
      if !IsUnique(n.value) && i + 1 < |path| {
        var next := i + 1;
        NormalRefuses(root, path, next);
        if j: nat :| Blocked(root, path, i, j) {
          BlockedLater(root, path, i, j);
        } else if j: nat :| Blocked(root, path, next, j) {
          BlockedLater(root, path, i, j);
        }
      } else {
        forall j: nat ensures !Blocked(root, path, i, j) {
          assert j > i + 1 ==> Settles(root, Tail(path, i + 1)) || i + 1 == |path|;
        }
      }
    }
  }

  lemma {:induction false} NormalFromIsIdempotent(root: Node, path: Path, i: nat, s: Path)
    requires i < |path| && NormalFrom(root, path, i) == Ok(s)
    ensures i < |s| && NormalFrom(root, s, i) == Ok(s)
    decreases |path| - i
  {
    NormalIsShortest(root, path, i, s);
    assert Tail(s, i + 1) == Tail(path, i + 1);
    var n := At(root, Tail(path, i + 1));
    if !IsUnique(n.value) && i + 1 < |path| {
      NormalFromIsIdempotent(root, path, i + 1, s);
    }
  }

  lemma NormalIsIdempotent(root: Node, path: Path, s: Path)
    requires Normal(root, path) == Ok(s)
    ensures Normal(root, s) == Ok(s)
  {
    if path != [] {
      NormalFromIsIdempotent(root, path, 0, s);
    }
  }

  // ---------------------------------------------------------------- full paths

  ghost predicate Distinct(r: seq<Path>) {
    forall i, j :: 0 <= i < j < |r| ==> r[i] != r[j]
  }

  /** `r` lists the complete paths ending in `s`, each once. */
  ghost predicate ListsLeaves(root: Node, s: Path, r: seq<Path>) {
    Distinct(r) && forall p :: p in r <==> LeafIn(root, s, p)
  }

  ghost predicate LeafIn(root: Node, s: Path, p: Path) {
    EndsIn(p, s) && IsLeaf(root, p)
  }

  lemma {:induction false} LeafSettles(root: Node, p: Path, i: nat)
    requires i < |p| && IsLeaf(root, p)
    ensures NormalFrom(root, p, i).Ok? && Settles(root, NormalFrom(root, p, i).value)
    decreases |p| - i
  {
    var t := Tail(p, i + 1);
    assert p == p[..|p| - i - 1] + t;
    SuffixesAreThere(root, p[..|p| - i - 1], t);
    UniqueIffOneLeaf(At(root, t).value);
    if i + 1 == |p| {
      assert t == p;
    } else if !IsUnique(At(root, t).value) {
      LeafSettles(root, p, i + 1);
    }
  }

  lemma SettledHasOnePath(root: Node, s: Path, p: Path, q: Path)
    requires Settles(root, s) && IsLeaf(root, p) && IsLeaf(root, q) && EndsIn(p, s) && EndsIn(q, s)
    ensures p == q
  {
    var (l, m) := (p[..|p| - |s|], q[..|q| - |s|]);
    assert p == l + s && q == m + s;
    WalkOn(root, l, s);
    WalkOn(root, m, s);
    assert IsLeaf(At(root, s).value, l) && IsLeaf(At(root, s).value, m);
  }

  /** A complete path has a short form, and that leads back to it alone. */
  lemma LeafRoundTrip(root: Node, p: Path, r: seq<Path>)
    requires IsLeaf(root, p)
    requires Normal(root, p).Ok? ==> ListsLeaves(root, Normal(root, p).value, r)
    ensures Normal(root, p).Ok? && r == [p]
  {
    if p == [] {
      LeafPathIsWhole(root, r);
    } else {
      LeafSettles(root, p, 0);
      var s := Normal(root, p).value;
      NormalIsShortest(root, p, 0, s);
      forall q | q in r ensures q == p {
        SettledHasOnePath(root, s, p, q);
      }
      OnlyMember(r, p);
    }
  }

  lemma LeafPathIsWhole(root: Node, r: seq<Path>)
    requires IsLeaf(root, []) && ListsLeaves(root, [], r)
    ensures r == [[]]
  {
    assert LeafIn(root, [], []) && [] in r;
    forall q | q in r ensures q == [] {
      LeafHasNothingBelow(root, q);
    }
    OnlyMember(r, []);
  }

  lemma OnlyMember(r: seq<Path>, p: Path)
    requires Distinct(r) && p in r && forall q :: q in r ==> q == p
    ensures r == [p]
  {
    assert |r| > 1 ==> r[0] != r[1];
    forall i | 0 <= i < |r| ensures r[i] == p {
      assert r[i] in r;
    }
  }

  lemma NormalIsInjective(root: Node, p: Path, q: Path)
    requires IsLeaf(root, p) && IsLeaf(root, q) && Normal(root, p) == Normal(root, q)
    ensures p == q
  {
    if p != [] && q != [] {
      LeafSettles(root, p, 0);
      var s := Normal(root, p).value;
      NormalIsShortest(root, p, 0, s);
      NormalIsShortest(root, q, 0, s);
      SettledHasOnePath(root, s, p, q);
    } else {
      EmptyLeaf(root, p, q);
    }
  }

  lemma EmptyLeaf(root: Node, p: Path, q: Path)
    requires IsLeaf(root, p) && IsLeaf(root, q) && (p == [] || q == [])
    ensures p == q
  {
    LeafHasNothingBelow(root, p);
    LeafHasNothingBelow(root, q);
  }

  /** What a listing of full paths can be, whatever the order of the branches. */
  lemma FullPathsFound(root: Node, s: Path, r: seq<Path>)
    requires ListsLeaves(root, s, r)
    ensures At(root, s).Some? <==> r != []
  {
    if At(root, s).Some? {
      var l := SomeLeaf(At(root, s).value);
      WalkOn(root, l, s);
      assert LeafIn(root, s, l + s);
    } else if r != [] {
      var p := r[0];
      assert p in r && p == p[..|p| - |s|] + s;
      SuffixesAreThere(root, p[..|p| - |s|], s);
    }
  }
}
