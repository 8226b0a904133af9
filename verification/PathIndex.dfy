/** The path index of src/path_suffix.rs over a suffix tree, with its two caches. */
module PathIndex {
  import opened PathText
  import opened SuffixTree
  import opened Wrappers

  // ---------------------------------------------------------------- collecting

  /** `found` are the paths ending in `prefix` whose rest leads from `n` to a leaf through one
      of the branches `ks`, each once. */
  ghost predicate Collected(n: Node, prefix: Path, ks: set<string>, found: seq<Path>) {
    Distinct(found) && forall q :: q in found <==> Through(n, prefix, ks, q)
  }

  ghost predicate Through(n: Node, prefix: Path, ks: set<string>, q: Path) {
    && EndsIn(q, prefix) && |q| > |prefix| && q[|q| - |prefix| - 1] in ks
    && IsLeaf(n, q[..|q| - |prefix|])
  }

  /** `found` are the paths ending in `prefix` whose rest leads from `n` to a leaf, each once. */
  ghost predicate ListsBelow(n: Node, prefix: Path, found: seq<Path>) {
    Distinct(found) && forall q :: q in found <==> Below(n, prefix, q)
  }

  ghost predicate Below(n: Node, prefix: Path, q: Path) {
    EndsIn(q, prefix) && IsLeaf(n, q[..|q| - |prefix|])
  }

  lemma EndsInLonger(q: Path, k: string, prefix: Path)
    ensures EndsIn(q, [k] + prefix) <==> EndsIn(q, prefix) && |q| > |prefix| && q[|q| - |prefix| - 1] == k
  {
    if |q| > |prefix| {
      var t := q[|q| - |prefix| - 1..];
      assert t == [t[0]] + q[|q| - |prefix|..];
    }
  }

  lemma BranchLeads(n: Node, prefix: Path, k: string, q: Path)
    requires k in n.children
    ensures Below(n.children[k], [k] + prefix, q) <==> Through(n, prefix, {k}, q)
  {
    EndsInLonger(q, k, prefix);
    if EndsIn(q, [k] + prefix) {
      var l := q[..|q| - |prefix| - 1];
      assert q[..|q| - |prefix|] == l + [k];
      ChildLeaves(n, k, l);
    }
  }

  lemma AddBranch(n: Node, prefix: Path, ks: set<string>, k: string, found: seq<Path>, more: seq<Path>)
    requires k in n.children && k !in ks
    requires Collected(n, prefix, ks, found) && ListsBelow(n.children[k], [k] + prefix, more)
    ensures Collected(n, prefix, ks + {k}, found + more)
  {
    forall q ensures q in more <==> Through(n, prefix, {k}, q) {
      BranchLeads(n, prefix, k, q);
    }
    forall q ensures q in found + more <==> Through(n, prefix, ks + {k}, q) {
    }
    forall i, j | 0 <= i < j < |found + more| ensures (found + more)[i] != (found + more)[j] {
      if i < |found| <= j {
        assert found[i] in found && more[j - |found|] in more;
      }
    }
  }

  lemma AllBranches(n: Node, prefix: Path, found: seq<Path>)
    requires n.children != map[] && Collected(n, prefix, n.children.Keys, found)
    ensures ListsBelow(n, prefix, found)
  {
    forall q ensures Through(n, prefix, n.children.Keys, q) <==> Below(n, prefix, q) {
      if Below(n, prefix, q) {
        var l := q[..|q| - |prefix|];
        assert l != [];
        assert l == l[..|l| - 1] + [l[|l| - 1]];
        ChildLeaves(n, l[|l| - 1], l[..|l| - 1]);
      }
    }
  }

  /** Appends the leaves below `n` to `out`; the branches come in any order. */
  method CollectSuffixes(n: Node, prefix: Path, out: seq<Path>) returns (grown: seq<Path>)
    ensures out <= grown && ListsBelow(n, prefix, grown[|out|..])
    decreases n
  {
    grown := out;
    if n.children == map[] {
      grown := out + [prefix];
      assert grown[|out|..] == [prefix];
      OwnLeaf(n, prefix);
      return;
    }
    ghost var found := [];
    var ks, rest := {}, n.children.Keys;
    while rest != {}
      invariant ks + rest == n.children.Keys && ks !! rest
      invariant grown == out + found && Collected(n, prefix, ks, found)
      decreases rest
    {
      var k :| k in rest;
      ghost var before := |grown|;
      grown := CollectSuffixes(n.children[k], [k] + prefix, grown);
      ghost var more := grown[before..];
      AddBranch(n, prefix, ks, k, found, more);
      found := found + more;
      ks, rest := ks + {k}, rest - {k};
    }
    assert grown[|out|..] == found;
    AllBranches(n, prefix, found);
  }

  lemma OwnLeaf(n: Node, prefix: Path)
    requires n.children == map[]
    ensures ListsBelow(n, prefix, [prefix])
  {
    forall q ensures Below(n, prefix, q) <==> q == prefix {
      if Below(n, prefix, q) {
        LeafHasNothingBelow(n, q[..|q| - |prefix|]);
      }
    }
  }

  // ---------------------------------------------------------------- the index

  ghost function Under(found: seq<Path>, s: Path): (r: seq<Path>)
    ensures |r| == |found| && forall i :: 0 <= i < |r| ==> r[i] == found[i] + s
  {
    seq(|found|, i requires 0 <= i < |found| => found[i] + s)
  }

  lemma UnderNothing(found: seq<Path>)
    ensures Under(found, []) == found
  {
    forall i | 0 <= i < |found| ensures Under(found, [])[i] == found[i] {
      assert found[i] + [] == found[i];
    }
  }

  lemma MissingEnding(root: Node, p: Path, i: nat)
    requires i <= |p| && At(root, Tail(p, i)).None?
    ensures At(root, p).None?
  {
    if At(root, p).Some? {
      assert p == p[..|p| - i] + Tail(p, i);
      SuffixesAreThere(root, p[..|p| - i], Tail(p, i));
    }
  }

  /** One component read from the end: its node, or no node for the whole path. */
  lemma ReadNext(root: Node, p: Path, i: nat, cur: Node)
    requires 0 < i <= |p| && At(root, p[i..]) == Some(cur)
    ensures p[i - 1..] == [p[i - 1]] + p[i..]
    ensures if p[i - 1] in cur.children then At(root, p[i - 1..]) == Some(cur.children[p[i - 1]])
            else At(root, p).None? && StuckAt(root, p, Missing(p, p[i..]))
  {
    assert p[i - 1..][1..] == p[i..];
    if p[i - 1] !in cur.children {
      assert Tail(p, |p| - i + 1) == p[i - 1..];
      MissingEnding(root, p, |p| - i + 1);
    }
  }

  lemma UnderIsDistinct(s: Path, found: seq<Path>)
    requires Distinct(found)
    ensures Distinct(Under(found, s))
  {
    var r := Under(found, s);
    forall i, j | 0 <= i < j < |r| ensures r[i] != r[j] {
      assert r[i][..|found[i]|] == found[i] && r[j][..|found[j]|] == found[j];
    }
  }

  lemma MemberUnder(found: seq<Path>, s: Path, p: Path)
    ensures p in Under(found, s) <==> EndsIn(p, s) && p[..|p| - |s|] in found
  {
    var r := Under(found, s);
    if EndsIn(p, s) && p[..|p| - |s|] in found {
      var i :| 0 <= i < |found| && found[i] == p[..|p| - |s|];
      assert r[i] == p;
    }
    if p in r {
      var i :| 0 <= i < |r| && r[i] == p;
      assert p[..|p| - |s|] == found[i];
    }
  }

  lemma LeavesUnder(root: Node, s: Path, found: seq<Path>)
    requires At(root, s).Some? && ListsBelow(At(root, s).value, [], found)
    ensures ListsLeaves(root, s, Under(found, s))
  {
    UnderIsDistinct(s, found);
    forall p ensures p in Under(found, s) <==> LeafIn(root, s, p) {
      MemberUnder(found, s, p);
      if EndsIn(p, s) {
        LeafBelow(At(root, s).value, found, p[..|p| - |s|]);
        LeafThrough(root, s, p);
      }
    }
  }

  lemma LeafBelow(n: Node, found: seq<Path>, l: Path)
    requires ListsBelow(n, [], found)
    ensures l in found <==> IsLeaf(n, l)
  {
    assert EndsIn(l, []) && l[..|l| - 0] == l;
    assert Below(n, [], l) <==> IsLeaf(n, l);
  }

  lemma LeafThrough(root: Node, s: Path, p: Path)
    requires At(root, s).Some? && EndsIn(p, s)
    ensures IsLeaf(root, p) <==> IsLeaf(At(root, s).value, p[..|p| - |s|])
  {
    assert p == p[..|p| - |s|] + s;
    WalkOn(root, p[..|p| - |s|], s);
  }

  // ---------------------------------------------------------------- paths as text

  /** A missing path is reported with its file name where no component matched; a text whose
      last name is followed by ".." has none, and the program panics instead. */
  function Reported(text: string, e: PathError): PathError {
    if e.Missing? && e.known == [] && FileName(Parts(text)).None? then Panic else e
  }

  function Report<T>(text: string, r: Result<T, PathError>): Result<T, PathError> {
    match r
    case Ok(_) => r
    case Err(e) => Err(Reported(text, e))
  }

  function Short(root: Node, text: string): Result<Path, PathError> {
    Report(text, Normal(root, Comps(text)))
  }

  /** No component matched: the last one is not in the tree. */
  lemma {:induction false} NothingKnownIff(root: Node, path: Path, i: nat)
    requires i < |path|
    ensures NormalFrom(root, path, i).Err? ==> NormalFrom(root, path, i).error.Missing?
    ensures NormalFrom(root, path, i).Err? && NormalFrom(root, path, i).error.known == [] <==>
            i == 0 && At(root, Tail(path, 1)).None?
    decreases |path| - i
  {
    if At(root, Tail(path, i + 1)).Some? && i + 1 < |path| {
      NothingKnownIff(root, path, i + 1);
    }
  }

  /** Nothing but empty parts and "." comes after some ".." of the text. */
  ghost predicate EndsAbove(ps: seq<string>) { exists i :: AboveAt(ps, i) }

  ghost predicate AboveAt(ps: seq<string>, i: int) {
    0 <= i < |ps| && ps[i] == ".." && forall j :: i < j < |ps| ==> ps[j] == "" || ps[j] == "."
  }

  lemma EndsAboveNext(front: seq<string>, part: string)
    ensures EndsAbove(front + [part]) <==> part == ".." || ((part == "" || part == ".") && EndsAbove(front))
  {
    var ps := front + [part];
    assert ps[|front|] == part && forall i :: 0 <= i < |front| ==> ps[i] == front[i];
    if EndsAbove(ps) {
      var i :| AboveAt(ps, i);
      assert i < |front| ==> AboveAt(front, i);
    }
    if part == ".." {
      assert AboveAt(ps, |front|);
    } else if (part == "" || part == ".") && EndsAbove(front) {
      var i :| AboveAt(front, i);
      assert AboveAt(ps, i);
    }
  }

  lemma {:induction false} NoFileNameIff(ps: seq<string>)
    ensures Names(ps) != [] ==> (FileName(ps).None? <==> EndsAbove(ps))
  {
    if ps != [] {
      var (front, part) := (ps[..|ps| - 1], ps[|ps| - 1]);
      NoFileNameIff(front);
      EndsAboveNext(front, part);
      assert ps == front + [part];
    }
  }

  /** The panic comes exactly when the last name of the text is no file's, and ".." follows it. */
  lemma PanicsIff(root: Node, text: string)
    ensures var p := Comps(text);
      Short(root, text) == Err(Panic) <==> p != [] && p[|p| - 1] !in root.children && EndsAbove(Parts(text))
  {
    NoFileNameIff(Parts(text));
    var p := Comps(text);
    if p != [] {
      NothingKnownIff(root, p, 0);
      LastIsThereIff(root, p);
    }
  }

  lemma LastIsThereIff(root: Node, p: Path)
    requires p != []
    ensures At(root, Tail(p, 1)).Some? <==> p[|p| - 1] in root.children
  {
    assert Tail(p, 1) == [p[|p| - 1]] && Tail(p, 1)[1..] == [];
  }

  lemma ParentText()
    ensures Parts("a/..") == ["a", ".."] && Comps("a/..") == ["a"] && FileName(["a", ".."]).None?
  {
    PartsOfOne("a");
    PartsOneMore("a", "..");
    assert "a" + "/" + ".." == "a/..";
    assert ["a"] + [".."] == ["a", ".."];
    assert ["a", ".."][..1] == ["a"];
    NamesOfNames(["a"]);
  }

  /** A text that names no file: a panic where the text without "/.." gets an error. */
  lemma ParentPathPanics(root: Node)
    requires "a" !in root.children
    ensures Short(root, "a/..") == Err(Panic)
    ensures Short(root, "a") == Err(Missing(["a"], []))
  {
    ParentText();
    PanicsIff(root, "a/..");
    PartsOfOne("a");
    NamesOfNames(["a"]);
    LastIsThereIff(root, ["a"]);
    assert Tail(["a"], 0) == [];
  }

  /** `q` is the only complete path that ends in `s`. */
  ghost predicate OnlyLeaf(root: Node, s: Path, q: Path) {
    LeafIn(root, s, q) && forall p :: LeafIn(root, s, p) ==> p == q
  }

  /** The short form of the text leads to one complete path, spelled as the text is. */
  ghost predicate Accepts(root: Node, text: string)
    requires Normal(root, Comps(text)).Ok?
  {
    exists q :: OnlyLeaf(root, Normal(root, Comps(text)).value, q) && Spell(q) == text
  }

  ghost function Checked(root: Node, text: string): Result<(), PathError> {
    var norm := Short(root, text);
    if norm.Err? then Err(norm.error)
    else if Accepts(root, text) then Ok(())
    else Err(Incomplete(Comps(text)))
  }

  /** The error names the longest ending of `p` that is in the tree. */
  predicate StuckAt(root: Node, p: Path, e: PathError) {
    && e.Missing? && e.path == p && |e.known| < |p| && EndsIn(p, e.known)
    && At(root, e.known).Some? && At(root, Tail(p, |e.known| + 1)).None?
  }

  class PathSuffixTree {
    const root: Node
    var normCache: map<string, Result<Path, PathError>>
    var checkCache: map<string, Result<(), PathError>>

    /** The caches hold nothing but what the calls would compute. */
    ghost predicate Valid()
      reads this
    {
      && (forall t :: t in normCache ==> normCache[t] == Short(root, t))
      && (forall t :: t in checkCache ==> checkCache[t] == Checked(root, t))
    }

    constructor (root: Node)
      ensures Valid() && this.root == root
    {
      this.root, normCache, checkCache := root, map[], map[];
    }

    method NormalizePath(text: string) returns (r: Result<Path, PathError>)
      requires Valid()
      modifies `normCache
      ensures Valid() && r == Short(root, text)
    {
      if text in normCache {
        return normCache[text];
      }
      var parts := Comps(text);
      if parts == [] {
        normCache := normCache[text := Ok([])];
        return Ok([]);
      }
      r := Shorten(parts);
      r := Report(text, r);
      if r != Err(Panic) {
        normCache := normCache[text := r];
      }
    }

    /** Takes components from the end until one leaf is left. */
    method Shorten(path: Path) returns (r: Result<Path, PathError>)
      requires path != []
      ensures r == Normal(root, path)
    {
      var suffix, cur, i := [], root, |path|;
      while i > 0
        invariant 0 <= i <= |path| && suffix == Tail(path, |path| - i) && At(root, suffix) == Some(cur)
        invariant Normal(root, path) == if i > 0 then NormalFrom(root, path, |path| - i) else Ok(suffix)
      {
        var part := path[i - 1];
        assert Tail(path, |path| - i + 1) == [part] + suffix;
        if part !in cur.children {
          return Err(Missing(path, suffix));
        }
        suffix, cur, i := [part] + suffix, cur.children[part], i - 1;
        if IsUnique(cur) {
          return Ok(suffix);
        }
      }
      r := Ok(suffix);
    }

    method GetFullPaths(text: string) returns (r: Result<seq<Path>, PathError>)
      ensures r.Ok? <==> At(root, Comps(text)).Some?
      ensures r.Ok? ==> ListsLeaves(root, Comps(text), r.value)
      ensures r.Err? ==> exists e :: StuckAt(root, Comps(text), e) && r.error == Reported(text, e)
    {
      var partial := Comps(text);
      var end := Descend(partial);
      if end.Err? {
        return Err(Reported(text, end.error));
      }
      var deeper := CollectSuffixes(end.value, [], []);
      assert deeper[0..] == deeper;
      LeavesUnder(root, partial, deeper);
      var out := Attach(deeper, partial);
      r := Ok(out);
    }

    method Attach(deeper: seq<Path>, suffix: Path) returns (out: seq<Path>)
      ensures out == Under(deeper, suffix)
    {
      out := [];
      for i := 0 to |deeper|
        invariant out == Under(deeper, suffix)[..i]
      {
        out := out + [deeper[i] + suffix];
      }
      assert Under(deeper, suffix)[..|deeper|] == Under(deeper, suffix);
    }

    method Descend(partial: Path) returns (r: Result<Node, PathError>)
      ensures r.Ok? <==> At(root, partial).Some?
      ensures r.Ok? ==> r.value == At(root, partial).value
      ensures r.Err? ==> StuckAt(root, partial, r.error)
    {
      var suffix, cur, i := [], root, |partial|;
      while i > 0
        invariant 0 <= i <= |partial| && suffix == partial[i..] && At(root, suffix) == Some(cur)
      {
        var part := partial[i - 1];
        ReadNext(root, partial, i, cur);
        if part !in cur.children {
          return Err(Missing(partial, suffix));
        }
        suffix, cur, i := [part] + suffix, cur.children[part], i - 1;
      }
      assert partial[0..] == partial;
      r := Ok(cur);
    }

    /** Accepts a text whose short form leads to one complete path, spelled the same. */
    method CheckPath(text: string) returns (r: Result<(), PathError>)
      requires Valid()
      modifies `normCache, `checkCache
      ensures Valid() && r == Checked(root, text)
      ensures CleanLeaves(root) ==> (r.Ok? <==> IsLeaf(root, Comps(text)) && text == Spell(Comps(text)))
    {
      if CleanLeaves(root) {
        CheckedIffLeaf(root, text);
      }
      if text in checkCache {
        return checkCache[text];
      }
      var norm := NormalizePath(text);
      if norm.Err? {
        return Err(norm.error);
      }
      ShortIsRead(root, text);
      var full := GetFullPaths(Shown(norm.value));
      CheckDecides(root, text, full.value);
      if |full.value| == 1 && Spell(full.value[0]) == text {
        r := Ok(());
      } else {
        r := Err(Incomplete(Comps(text)));
      }
      checkCache := checkCache[text := r];
    }

    method AllPaths() returns (r: seq<Path>)
      ensures ListsLeaves(root, [], r)
    {
      r := CollectSuffixes(root, [], []);
      assert r[0..] == r;
      LeavesUnder(root, [], r);
      UnderNothing(r);
    }
  }

  /** The outcome of a check. */
  /** Every complete path consists of names as a directory has them. */
  ghost predicate CleanLeaves(root: Node) {
    forall q :: IsLeaf(root, q) ==> Clean(q)
  }

  /** In such a tree the texts accepted are the complete paths, each in one spelling. */
  lemma CheckedIffLeaf(root: Node, text: string)
    requires CleanLeaves(root)
    ensures Checked(root, text).Ok? <==> IsLeaf(root, Comps(text)) && text == Spell(Comps(text))
  {
    var p := Comps(text);
    if IsLeaf(root, p) {
      LeafIsOnly(root, p);
    }
    if Normal(root, p).Ok? {
      forall q | OnlyLeaf(root, Normal(root, p).value, q) && Spell(q) == text ensures q == p {
        CompsOfSpelled(q);
      }
    }
  }

  lemma LeafIsOnly(root: Node, p: Path)
    requires IsLeaf(root, p)
    ensures Normal(root, p).Ok? && OnlyLeaf(root, Normal(root, p).value, p)
  {
    if p == [] {
      UniqueIffOneLeaf(root);
    } else {
      LeafSettles(root, p, 0);
      NormalIsShortest(root, p, 0, Normal(root, p).value);
    }
    var s := Normal(root, p).value;
    forall q | LeafIn(root, s, q) ensures q == p {
      SettledHasOnePath(root, s, p, q);
    }
  }

  /** A short form is there, and its text is read back as it is. */
  lemma ShortIsRead(root: Node, text: string)
    requires Normal(root, Comps(text)).Ok?
    ensures var s := Normal(root, Comps(text)).value; Comps(Shown(s)) == s && At(root, s).Some?
  {
    var p := Comps(text);
    CompsAreClean(text);
    if p != [] {
      NormalIsShortest(root, p, 0, Normal(root, p).value);
    }
    CompsOfSpelled(Normal(root, p).value);
  }

  lemma CheckDecides(root: Node, text: string, listed: seq<Path>)
    requires Normal(root, Comps(text)).Ok? && ListsLeaves(root, Normal(root, Comps(text)).value, listed)
    ensures |listed| == 1 && Spell(listed[0]) == text <==> Accepts(root, text)
  {
    var s := Normal(root, Comps(text)).value;
    if |listed| == 1 {
      assert listed[0] in listed;
      assert OnlyLeaf(root, s, listed[0]);
    }
    if Accepts(root, text) {
      var q :| OnlyLeaf(root, s, q) && Spell(q) == text;
      assert q in listed;
      AtMostOne(listed, q);
    }
  }

  lemma AtMostOne(listed: seq<Path>, q: Path)
    requires Distinct(listed) && forall p :: p in listed ==> p == q
    ensures |listed| <= 1
  {
    var last := |listed| - 1;
    if last >= 0 {
      assert listed[0] in listed && listed[last] in listed;
      assert listed[0] == listed[last];
    }
  }
}
