/** Splitting a file into lines with normalised white space, as in src/patch.rs. */
module Normalise {
  import opened Alignment

  predicate White(c: char) { c == ' ' || c == '\t' || c == '\n' || c == '\r' || c == 12 as char }

  // ---------------------------------------------------------------- the scanner

  datatype Scan = Scan(lines: seq<Line>, cur: Line, inWord: bool)

  function Trim(cur: Line): Line {
    if cur != [] && cur[|cur| - 1] == ' ' then cur[..|cur| - 1] else cur
  }

  function Feed(s: Scan, b: char): Scan {
    if b == '\n' then Scan(s.lines + [Trim(s.cur)], [], false)
    else if White(b) then if s.inWord then Scan(s.lines, s.cur + " ", false) else s
    else Scan(s.lines, s.cur + [b], true)
  }

  function Scanned(buf: string): Scan {
    if buf == [] then Scan([], [], false) else Feed(Scanned(buf[..|buf| - 1]), buf[|buf| - 1])
  }

  /** The lines of a file as the matcher sees them. */
  function Normalised(buf: string): seq<Line> {
    var s := Scanned(buf);
    if s.cur == [] then s.lines else s.lines + [Trim(s.cur)]
  }

  method SplitAndNorm(buf: string) returns (lines: seq<Line>)
    ensures lines == Normalised(buf)
  {
    lines := [];
    var cur: Line, inWord := [], false;
    for i := 0 to |buf|
      invariant Scan(lines, cur, inWord) == Scanned(buf[..i])
    {
      assert buf[..i + 1][..i] == buf[..i];
      var b := buf[i];
      if b == '\n' {
        if cur != [] && cur[|cur| - 1] == ' ' {
          cur := cur[..|cur| - 1];
        }
        lines := lines + [cur];
        cur, inWord := [], false;
      } else if White(b) {
        if inWord {
          cur, inWord := cur + " ", false;
        }
      } else {
        cur, inWord := cur + [b], true;
      }
    }
    assert buf[..|buf|] == buf;
    if cur != [] {
      if cur[|cur| - 1] == ' ' {
        cur := cur[..|cur| - 1];
      }
      lines := lines + [cur];
    }
  }

  // ---------------------------------------------------------------- words

  /** The words of a line, its longest stretches without white space; `open` tells whether the
      line ends inside one. */
  datatype Words = Words(words: seq<Line>, open: bool)

  function WordsOf(line: Line): (w: Words)
    ensures w.open ==> w.words != []
  {
    if line == [] then Words([], false)
    else
      var w := WordsOf(line[..|line| - 1]);
      var c := line[|line| - 1];
      var n := |w.words|;
      if White(c) then Words(w.words, false)
      else if w.open then Words(w.words[..n - 1] + [w.words[n - 1] + [c]], true)
      else Words(w.words + [[c]], true)
  }

  function Joined(words: seq<Line>): Line {
    if words == [] then []
    else if |words| == 1 then words[0]
    else Joined(words[..|words| - 1]) + " " + words[|words| - 1]
  }

  function Norm(line: Line): Line { Joined(WordsOf(line).words) }

  ghost predicate IsWord(w: Line) { w != [] && forall i :: 0 <= i < |w| ==> !White(w[i]) }

  ghost predicate AllWords(words: seq<Line>) { forall k :: 0 <= k < |words| ==> IsWord(words[k]) }

  lemma {:induction false} WordsAreWords(line: Line)
    ensures AllWords(WordsOf(line).words)
  {
    if line != [] {
      WordsAreWords(line[..|line| - 1]);
    }
  }

  /** What the scanner has kept of a line. */
  function Spelled(w: Words): Line {
    if w.open || w.words == [] then Joined(w.words) else Joined(w.words) + " "
  }

  /** What stands before the next word. */
  function Lead(words: seq<Line>): Line { if words == [] then [] else Joined(words) + " " }

  lemma JoinedLast(words: seq<Line>, w: Line)
    ensures Joined(words + [w]) == Lead(words) + w
  {
    assert (words + [w])[..|words|] == words;
  }

  lemma Regroup(a: Line, b: Line, c: Line)
    ensures a + (b + c) == a + b + c
  {
  }

  lemma JoinedGrows(front: seq<Line>, w: Line, c: char)
    ensures Joined(front + [w + [c]]) == Joined(front + [w]) + [c]
  {
    JoinedLast(front, w);
    JoinedLast(front, w + [c]);
    Regroup(Lead(front), w, [c]);
  }

  lemma JoinedAppends(words: seq<Line>, w: Line)
    ensures Joined(words + [w]) == if words == [] then w else Joined(words) + " " + w
  {
    assert (words + [w])[..|words|] == words;
  }

  lemma EndsInWord(words: seq<Line>)
    requires AllWords(words) && words != []
    ensures Joined(words) != [] && Trim(Joined(words)) == Joined(words) && Trim(Joined(words) + " ") == Joined(words)
  {
    var n := |words|;
    assert IsWord(words[n - 1]);
    assert Joined(words)[|Joined(words)| - 1] == words[n - 1][|words[n - 1]| - 1];
  }

  lemma TrimSpelled(line: Line)
    ensures Trim(Spelled(WordsOf(line))) == Norm(line)
    ensures Spelled(WordsOf(line)) == [] <==> WordsOf(line).words == []
  {
    WordsAreWords(line);
    if WordsOf(line).words != [] {
      EndsInWord(WordsOf(line).words);
    }
  }

  // ---------------------------------------------------------------- line by line

  /** The complete lines of a file and the rest after the last newline. */
  function Cut(buf: string): (seq<Line>, Line) {
    if buf == [] then ([], [])
    else
      var (full, rest) := Cut(buf[..|buf| - 1]);
      if buf[|buf| - 1] == '\n' then (full + [rest], []) else (full, rest + [buf[|buf| - 1]])
  }

  function NormAll(lines: seq<Line>): (r: seq<Line>)
    ensures |r| == |lines| && forall k :: 0 <= k < |r| ==> r[k] == Norm(lines[k])
  {
    seq(|lines|, k requires 0 <= k < |lines| => Norm(lines[k]))
  }

  lemma FeedSpells(lines: seq<Line>, line: Line, b: char)
    requires b != '\n'
    ensures var w := WordsOf(line);
            var v := WordsOf(line + [b]);
            Feed(Scan(lines, Spelled(w), w.open), b) == Scan(lines, Spelled(v), v.open)
  {
    var w := WordsOf(line);
    assert (line + [b])[..|line|] == line;
    if !White(b) {
      if w.open {
        var n := |w.words| - 1;
        assert w.words == w.words[..n] + [w.words[n]];
        JoinedGrows(w.words[..n], w.words[n], b);
      } else {
        JoinedAppends(w.words, [b]);
      }
    }
  }

  lemma {:induction false} ScanIsLinewise(buf: string)
    ensures var (full, rest) := Cut(buf);
            Scanned(buf) == Scan(NormAll(full), Spelled(WordsOf(rest)), WordsOf(rest).open)
  {
    if buf != [] {
      var (full, rest) := Cut(buf[..|buf| - 1]);
      var b := buf[|buf| - 1];
      ScanIsLinewise(buf[..|buf| - 1]);
      if b == '\n' {
        TrimSpelled(rest);
        assert NormAll(full + [rest]) == NormAll(full) + [Norm(rest)];
      } else {
        FeedSpells(NormAll(full), rest, b);
      }
    }
  }

  /** The scanner normalises line by line: each line becomes its words with single spaces
      between them; a blank rest after the last newline is no line. */
  lemma NormalisedLinewise(buf: string)
    ensures var (full, rest) := Cut(buf);
            Normalised(buf) == NormAll(full) + if WordsOf(rest).words == [] then [] else [Norm(rest)]
  {
    ScanIsLinewise(buf);
    TrimSpelled(Cut(buf).1);
  }

  /** So a file has at least as many lines as the matcher sees, one more exactly when it ends
      in a blank unfinished line. */
  lemma FileIsAsLong(buf: string)
    ensures var (full, rest) := Cut(buf);
            |Normalised(buf)| + (if rest != [] && WordsOf(rest).words == [] then 1 else 0)
            == |full| + if rest != [] then 1 else 0
  {
    NormalisedLinewise(buf);
  }

  // ---------------------------------------------------------------- the words decide

  lemma {:induction false} WordAppended(line: Line, w: Line)
    requires IsWord(w) && !WordsOf(line).open
    ensures WordsOf(line + w) == Words(WordsOf(line).words + [w], true)
  {
    var n := |w|;
    assert (line + w)[..|line + w| - 1] == line + w[..n - 1];
    assert w == w[..n - 1] + [w[n - 1]] && !White(w[n - 1]);
    if n == 1 {
      assert line + w[..0] == line && w == [w[0]];
    } else {
      WordAppended(line, w[..n - 1]);
      var ws := WordsOf(line).words + [w[..n - 1]];
      assert ws[..|ws| - 1] == WordsOf(line).words;
    }
  }

  lemma {:induction false} WordsOfJoined(words: seq<Line>)
    requires AllWords(words)
    ensures WordsOf(Joined(words)) == Words(words, words != [])
  {
    if words != [] {
      var n := |words|;
      var front := words[..n - 1];
      WordsOfJoined(front);
      var line := if front == [] then [] else Joined(front) + " ";
      assert front != [] ==> line[..|line| - 1] == Joined(front);
      assert Joined(words) == line + words[n - 1];
      assert IsWord(words[n - 1]);
      WordAppended(line, words[n - 1]);
    }
  }

  /** Normalising keeps the words and nothing else: two lines look alike to the matcher exactly
      when they have the same words, and a second pass changes nothing. */
  lemma NormKeepsWords(a: Line, b: Line)
    ensures WordsOf(Norm(a)).words == WordsOf(a).words
    ensures Norm(Norm(a)) == Norm(a)
    ensures Norm(a) == Norm(b) <==> WordsOf(a).words == WordsOf(b).words
  {
    WordsAreWords(a);
    WordsAreWords(b);
    WordsOfJoined(WordsOf(a).words);
    WordsOfJoined(WordsOf(b).words);
  }

  // ---------------------------------------------------------------- what a word is

  predicate Blank(gap: Line) { forall c :: c in gap ==> c in {' ', '\t', '\n', '\r', 12 as char} }

  predicate Solid(w: Line) { w != [] && forall c :: c in w ==> c !in {' ', '\t', '\n', '\r', 12 as char} }

  /** The words with a gap before, between and after them. */
  function Spaced(gaps: seq<Line>, words: seq<Line>): Line
    requires |gaps| == |words| + 1
  {
    var n := |words|;
    if n == 0 then gaps[0] else Spaced(gaps[..n], words[..n - 1]) + words[n - 1] + gaps[n]
  }

  lemma {:induction false} BlankAppended(line: Line, gap: Line)
    requires Blank(gap)
    ensures WordsOf(line + gap) == Words(WordsOf(line).words, WordsOf(line).open && gap == [])
  {
    if gap == [] {
      assert line + gap == line;
    } else {
      var n := |gap| - 1;
      assert forall c :: c in gap[..n] ==> c in gap;
      BlankAppended(line, gap[..n]);
      assert (line + gap)[..|line| + n] == line + gap[..n] && gap[n] in gap;
    }
  }

  lemma SolidIsWord(w: Line)
    requires Solid(w)
    ensures IsWord(w)
  {
    forall i | 0 <= i < |w| ensures !White(w[i]) {
      assert w[i] in w;
    }
  }

  /** However a line is spaced out, its words are the stretches between the gaps. */
  lemma {:induction false} WordsAreStretches(gaps: seq<Line>, words: seq<Line>)
    requires |gaps| == |words| + 1
    requires forall i :: 0 <= i < |gaps| ==> Blank(gaps[i]) && (0 < i < |words| ==> gaps[i] != [])
    requires forall i :: 0 <= i < |words| ==> Solid(words[i])
    ensures WordsOf(Spaced(gaps, words)) == Words(words, words != [] && gaps[|words|] == [])
    decreases |words|
  {
    var n := |words|;
    if n == 0 {
      BlankAppended([], gaps[0]);
      assert [] + gaps[0] == gaps[0];
    } else {
      WordsAreStretches(gaps[..n], words[..n - 1]);
      assert n > 1 ==> gaps[..n][n - 1] == gaps[n - 1] != [];
      OneMoreStretch(Spaced(gaps[..n], words[..n - 1]), words[..n - 1], words[n - 1], gaps[n]);
      assert words[..n - 1] + [words[n - 1]] == words;
    }
  }

  lemma OneMoreStretch(line: Line, words: seq<Line>, w: Line, gap: Line)
    requires WordsOf(line) == Words(words, false) && Solid(w) && Blank(gap)
    ensures WordsOf(line + w + gap) == Words(words + [w], gap == [])
  {
    SolidIsWord(w);
    WordAppended(line, w);
    BlankAppended(line + w, gap);
  }

  /** So the matcher sees the words joined by single spaces. */
  lemma SpacingIsIgnored(gaps: seq<Line>, words: seq<Line>)
    requires |gaps| == |words| + 1
    requires forall i :: 0 <= i < |gaps| ==> Blank(gaps[i]) && (0 < i < |words| ==> gaps[i] != [])
    requires forall i :: 0 <= i < |words| ==> Solid(words[i])
    ensures Norm(Spaced(gaps, words)) == Joined(words)
  {
    WordsAreStretches(gaps, words);
  }
}
