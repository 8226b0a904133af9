/** Paths as text, and as src/path_suffix.rs reads them: the names between the slashes, without
    the empty ones, "." and "..". */
module PathText {
  import opened SuffixTree
  import opened Wrappers

  /** What stands between the slashes. */
  function Parts(text: string): (ps: seq<string>)
    ensures |ps| >= 1
  {
    if text == [] then [""]
    else
      var ps := Parts(text[..|text| - 1]);
      var c := text[|text| - 1];
      if c == '/' then ps + [""] else ps[..|ps| - 1] + [ps[|ps| - 1] + [c]]
  }

  predicate IsName(part: string) { part != "" && part != "." && part != ".." }

  function Names(ps: seq<string>): Path {
    if ps == [] then []
    else
      var part := ps[|ps| - 1];
      Names(ps[..|ps| - 1]) + if IsName(part) then [part] else []
  }

  function Comps(text: string): Path { Names(Parts(text)) }

  /** The last name of the text, unless ".." comes after it. */
  function FileName(ps: seq<string>): Option<string> {
    if ps == [] then None
    else
      var part := ps[|ps| - 1];
      if part == "" || part == "." then FileName(ps[..|ps| - 1])
      else if part == ".." then None
      else Some(part)
  }

  function Spell(p: Path): string {
    if p == [] then ""
    else if |p| == 1 then p[0]
    else Spell(p[..|p| - 1]) + "/" + p[|p| - 1]
  }

  /** A short form as it is handed out. */
  function Shown(p: Path): string { if p == [] then "./" else Spell(p) }

  ghost predicate Clean(p: Path) { forall i :: 0 <= i < |p| ==> IsName(p[i]) && '/' !in p[i] }

  ghost predicate NoSlash(ps: seq<string>) { forall i :: 0 <= i < |ps| ==> '/' !in ps[i] }

  // ---------------------------------------------------------------- reading

  lemma {:induction false} PartsHaveNoSlash(text: string)
    ensures NoSlash(Parts(text))
  {
    if text != [] {
      PartsHaveNoSlash(text[..|text| - 1]);
    }
  }

  lemma {:induction false} NamesAreClean(ps: seq<string>)
    requires NoSlash(ps)
    ensures Clean(Names(ps))
  {
    if ps != [] {
      NamesAreClean(ps[..|ps| - 1]);
    }
  }

  lemma CompsAreClean(text: string)
    ensures Clean(Comps(text))
  {
    PartsHaveNoSlash(text);
    NamesAreClean(Parts(text));
  }

  // ---------------------------------------------------------------- reading what was spelled

  lemma OneMoreChar(text: string, front: seq<string>, part: string, c: char)
    requires Parts(text) == front + [part]
    ensures Parts(text + [c]) == if c == '/' then front + [part] + [""] else front + [part + [c]]
  {
    assert (text + [c])[..|text|] == text;
    assert (front + [part])[..|front|] == front;
  }

  lemma {:induction false} PartsOfOne(w: string)
    requires '/' !in w
    ensures Parts(w) == [w]
  {
    if w != [] {
      var n := |w| - 1;
      PartsOfOne(w[..n]);
      OneMoreChar(w[..n], [], w[..n], w[n]);
      assert w[..n] + [w[n]] == w;
    }
  }

  lemma Regroup(a: string, b: string, c: string)
    ensures a + b + c == a + (b + c)
  {
  }

  lemma LastPartGrowsByOne(text: string, front: seq<string>, u: string, c: char)
    requires Parts(text + u) == front + [u] && c != '/'
    ensures Parts(text + (u + [c])) == front + [u + [c]]
  {
    OneMoreChar(text + u, front, u, c);
    Regroup(text, u, [c]);
  }

  lemma {:induction false} LastPartGrows(text: string, front: seq<string>, w: string)
    requires Parts(text) == front + [""] && '/' !in w
    ensures Parts(text + w) == front + [w]
  {
    if w == [] {
      assert text + w == text;
    } else {
      var (u, c) := (w[..|w| - 1], w[|w| - 1]);
      assert w == u + [c] && c in w;
      LastPartGrows(text, front, u);
      LastPartGrowsByOne(text, front, u, c);
    }
  }

  lemma PartsOneMore(text: string, w: string)
    requires '/' !in w
    ensures Parts(text + "/" + w) == Parts(text) + [w]
  {
    var ps := Parts(text);
    assert ps == ps[..|ps| - 1] + [ps[|ps| - 1]];
    OneMoreChar(text, ps[..|ps| - 1], ps[|ps| - 1], '/');
    LastPartGrows(text + "/", ps, w);
  }

  lemma SpellOneMore(front: Path, part: string)
    requires front != []
    ensures Spell(front + [part]) == Spell(front) + "/" + part
  {
    assert (front + [part])[..|front|] == front;
  }

  lemma {:induction false} PartsOfSpelled(p: Path)
    requires p != [] && NoSlash(p)
    ensures Parts(Spell(p)) == p
  {
    var n := |p| - 1;
    if n == 0 {
      PartsOfOne(p[0]);
    } else {
      var front := p[..n];
      assert p == front + [p[n]];
      PartsOfSpelled(front);
      SpellOneMore(front, p[n]);
      PartsOneMore(Spell(front), p[n]);
    }
  }

  lemma {:induction false} NamesOfNames(p: Path)
    requires forall i :: 0 <= i < |p| ==> IsName(p[i])
    ensures Names(p) == p
  {
    if p != [] {
      NamesOfNames(p[..|p| - 1]);
    }
  }

  /** Spelling a path of clean names and reading it again gives the path. */
  lemma CompsOfSpelled(p: Path)
    requires Clean(p)
    ensures Comps(Spell(p)) == p && Comps(Shown(p)) == p
  {
    if p == [] {
      PartsOfOne([]);
      assert Parts("./") == [".", ""] by {
        PartsOneMore(".", "");
        PartsOfOne(".");
        assert "." + "/" + "" == "./";
      }
      assert Names([".", ""]) == Names([".", ""][..1]) && [".", ""][..1][..0] == [];
    } else {
      PartsOfSpelled(p);
      NamesOfNames(p);
    }
  }

  /** One more part adds its name; an empty one, "." and ".." add nothing. */
  lemma CompsOneMore(text: string, w: string)
    requires '/' !in w
    ensures Comps(w) == if w in {"", ".", ".."} then [] else [w]
    ensures Comps(text + "/" + w) == Comps(text) + if w in {"", ".", ".."} then [] else [w]
  {
    PartsOfOne(w);
    PartsOneMore(text, w);
    NamesOneMore([], w);
    NamesOneMore(Parts(text), w);
    assert [] + [w] == [w];
  }

  lemma NamesOneMore(ps: seq<string>, w: string)
    ensures Names(ps + [w]) == Names(ps) + if w in {"", ".", ".."} then [] else [w]
  {
    assert (ps + [w])[..|ps|] == ps;
  }
}
