/** The check of an aligned pair of lines (crs/common/fuzzy_patch.py, check_fuzzy_match): the
    hunk must not add or lose a bracket by mistake. */
module FuzzyCheck {
  import opened Wrappers
  import opened Alignment

  const BRACKETS: seq<char> := ['}', '{', ')', '(']

  function Partner(c: char): char {
    if c == '{' then '}' else if c == '}' then '{' else if c == '(' then ')' else '('
  }

  function CountOf(l: Line, c: char): nat {
    if l == [] then 0 else CountOf(l[..|l| - 1], c) + if l[|l| - 1] == c then 1 else 0
  }

  function TextOr(l: Option<Line>): Line { if l.Some? then l.value else [] }

  lemma {:induction false} CountIs(l: Line, c: char)
    ensures CountOf(l, c) == multiset(l)[c]
  {
    if l != [] {
      var n := |l| - 1;
      CountIs(l[..n], c);
      assert l == l[..n] + [l[n]];
    }
  }

  predicate SameBrackets(a: Line, b: Line) {
    && multiset(a)['('] == multiset(b)['('] && multiset(a)[')'] == multiset(b)[')']
    && multiset(a)['{'] == multiset(b)['{'] && multiset(a)['}'] == multiset(b)['}']
  }

  predicate Balanced(l: Line) {
    multiset(l)['{'] == multiset(l)['}'] && multiset(l)['('] == multiset(l)[')']
  }

  /** What one bracket of the pair comes to. */
  predicate BracketOk(orig: Option<Line>, new_: Option<Line>, c: char) {
    var (o, n) := (TextOr(orig), TextOr(new_));
    CountOf(o, c) == CountOf(n, c)
    || (orig.None? && CountOf(n, Partner(c)) == CountOf(n, c))
    || (orig.Some? && new_.None? && CountOf(o, Partner(c)) == CountOf(o, c))
  }

  /** The pair passes: a line to be added always; two lines with the same brackets; a line
      aligned to nothing when its brackets are balanced. */
  predicate FuzzyOk(orig: Option<Line>, new_: Option<Line>) {
    || new_ == Some(NEW_SENTINEL)
    || (if orig.Some? && new_.Some? then SameBrackets(orig.value, new_.value)
        else Balanced(TextOr(orig)) && Balanced(TextOr(new_)))
  }

  lemma BracketsDecide(orig: Option<Line>, new_: Option<Line>)
    ensures (forall c :: c in BRACKETS ==> BracketOk(orig, new_, c)) <==>
            if orig.Some? && new_.Some? then SameBrackets(orig.value, new_.value)
            else Balanced(TextOr(orig)) && Balanced(TextOr(new_))
  {
    assert '{' in BRACKETS && '}' in BRACKETS && '(' in BRACKETS && ')' in BRACKETS;
    var (o, n) := (TextOr(orig), TextOr(new_));
    forall c ensures CountOf(o, c) == multiset(o)[c] && CountOf(n, c) == multiset(n)[c] {
      CountIs(o, c);
      CountIs(n, c);
    }
  }

  /** Stripping the lines first, as the program does, removes no bracket. */
  method CheckFuzzyMatch(orig: Option<Line>, new_: Option<Line>) returns (ok: bool)
    ensures ok <==> FuzzyOk(orig, new_)
  {
    BracketsDecide(orig, new_);
    if new_ == Some(NEW_SENTINEL) {
      return true;
    }
    var o, n := TextOr(orig), TextOr(new_);
    for k := 0 to |BRACKETS|
      invariant forall j :: 0 <= j < k ==> BracketOk(orig, new_, BRACKETS[j])
    {
      var c := BRACKETS[k];
      if CountOf(o, c) != CountOf(n, c) {
        if orig.Some? && new_.Some? {
          assert !BracketOk(orig, new_, c);
          return false;
        } else if orig.None? {
          if CountOf(n, Partner(c)) != CountOf(n, c) {
            assert !BracketOk(orig, new_, c);
            return false;
          }
        } else if CountOf(o, Partner(c)) != CountOf(o, c) {
          assert !BracketOk(orig, new_, c);
          return false;
        }
      }
    }
    ok := true;
  }
}
