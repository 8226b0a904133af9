/** How crs/analysis/full.py gathers source files into chunks: the chunks of each extension as
    a function of the order in which the files are taken. */
module PackerSpec {

  datatype File = File(path: string, size: nat, tokens: set<string>)

  /** The files of one extension: closed chunks, the open one, its size, the size of all. */
  datatype Group = Group(chunks: seq<seq<File>>, chunk: seq<File>, chunksize: nat, totalsize: nat)

  const NEW_GROUP := Group([], [], 0, 0)

  /** What follows the last dot of a path, or all of it. */
  function Ext(path: string): string
    decreases |path|
  {
    if path == [] || path[|path| - 1] == '.' then [] else Ext(path[..|path| - 1]) + [path[|path| - 1]]
  }

  /** The extension is what comes after the last dot; a path without one is its own. */
  lemma {:induction false} ExtIs(front: string, ext: string)
    requires '.' !in ext
    ensures Ext(ext) == ext && Ext(front + "." + ext) == ext
    decreases |ext|
  {
    var path := front + "." + ext;
    if ext != [] {
      var n := |ext| - 1;
      assert ext[n] in ext && ext == ext[..n] + [ext[n]];
      ExtIs(front, ext[..n]);
      assert path[..|path| - 1] == front + "." + ext[..n];
    }
  }

  predicate Overflows(g: Group, f: File, maxsize: nat) {
    f.size <= maxsize && g.chunksize + f.size > 2 * maxsize
  }

  /** A file too large is left out; one that would overflow the open chunk closes it first. */
  function Put(g: Group, f: File, maxsize: nat): Group {
    if f.size > maxsize then g
    else if Overflows(g, f, maxsize) then Group(g.chunks + [g.chunk], [f], f.size, g.totalsize + f.size)
    else Group(g.chunks, g.chunk + [f], g.chunksize + f.size, g.totalsize + f.size)
  }

  function Flush(g: Group): Group {
    if g.chunk == [] then g else Group(g.chunks + [g.chunk], [], 0, g.totalsize)
  }

  /** The group of an extension after the files in `order`. */
  function GroupOf(order: seq<File>, ext: string, maxsize: nat): Group {
    if order == [] then NEW_GROUP
    else
      var (front, f) := (order[..|order| - 1], order[|order| - 1]);
      if Ext(f.path) == ext then Put(GroupOf(front, ext, maxsize), f, maxsize) else GroupOf(front, ext, maxsize)
  }

  // ---------------------------------------------------------------- what a group holds

  function Sum(fs: seq<File>): nat {
    if fs == [] then 0 else Sum(fs[..|fs| - 1]) + fs[|fs| - 1].size
  }

  function Flatten(chunks: seq<seq<File>>): seq<File> {
    if chunks == [] then [] else Flatten(chunks[..|chunks| - 1]) + chunks[|chunks| - 1]
  }

  predicate Fits(f: File, ext: string, maxsize: nat) { Ext(f.path) == ext && f.size <= maxsize }

  /** The files of an extension that are not too large, in order. */
  function Accepted(order: seq<File>, ext: string, maxsize: nat): seq<File> {
    if order == [] then []
    else
      var (front, f) := (order[..|order| - 1], order[|order| - 1]);
      if Fits(f, ext, maxsize) then Accepted(front, ext, maxsize) + [f] else Accepted(front, ext, maxsize)
  }

  /** Closed chunks are more than half full and not over-full. */
  ghost predicate WellFilled(chunks: seq<seq<File>>, maxsize: nat) {
    forall k :: 0 <= k < |chunks| ==> maxsize < Sum(chunks[k]) <= 2 * maxsize
  }

  ghost predicate Good(g: Group, fs: seq<File>, maxsize: nat) {
    && Flatten(g.chunks) + g.chunk == fs
    && g.chunksize == Sum(g.chunk) <= 2 * maxsize && g.totalsize == Sum(fs)
    && WellFilled(g.chunks, maxsize)
  }

  lemma OneMoreChunk(chunks: seq<seq<File>>, c: seq<File>)
    ensures Flatten(chunks + [c]) == Flatten(chunks) + c
  {
    assert (chunks + [c])[..|chunks|] == chunks;
  }

  lemma OneMoreFile(fs: seq<File>, f: File)
    ensures Sum(fs + [f]) == Sum(fs) + f.size
  {
    assert (fs + [f])[..|fs|] == fs;
  }

  lemma OneMoreFilled(chunks: seq<seq<File>>, c: seq<File>, maxsize: nat)
    requires WellFilled(chunks, maxsize) && maxsize < Sum(c) <= 2 * maxsize
    ensures WellFilled(chunks + [c], maxsize)
  {
    forall k | 0 <= k < |chunks + [c]| ensures maxsize < Sum((chunks + [c])[k]) <= 2 * maxsize {
      assert (chunks + [c])[k] == if k < |chunks| then chunks[k] else c;
    }
  }

  lemma PutKeepsGood(g: Group, fs: seq<File>, f: File, maxsize: nat)
    requires Good(g, fs, maxsize) && f.size <= maxsize
    ensures Good(Put(g, f, maxsize), fs + [f], maxsize)
  {
    OneMoreFile(fs, f);
    if Overflows(g, f, maxsize) {
      OneMoreFile([], f);
      assert [] + [f] == [f];
      OneMoreChunk(g.chunks, g.chunk);
      OneMoreFilled(g.chunks, g.chunk, maxsize);
    } else {
      OneMoreFile(g.chunk, f);
      assert (Flatten(g.chunks) + g.chunk) + [f] == Flatten(g.chunks) + (g.chunk + [f]);
    }
  }

  lemma {:induction false} GroupIsGood(order: seq<File>, ext: string, maxsize: nat)
    ensures Good(GroupOf(order, ext, maxsize), Accepted(order, ext, maxsize), maxsize)
  {
    if order != [] {
      var front := order[..|order| - 1];
      var f := order[|order| - 1];
      GroupIsGood(front, ext, maxsize);
      if Fits(f, ext, maxsize) {
        PutKeepsGood(GroupOf(front, ext, maxsize), Accepted(front, ext, maxsize), f, maxsize);
      }
    }
  }

  // ---------------------------------------------------------------- the result

  lemma FlushKeeps(g: Group, fs: seq<File>, maxsize: nat)
    requires Good(g, fs, maxsize)
    ensures var r := Flush(g);
      && Flatten(r.chunks) == fs && r.totalsize == Sum(fs)
      && (forall k :: 0 <= k < |r.chunks| ==> Sum(r.chunks[k]) <= 2 * maxsize)
      && (forall k :: 0 <= k < |r.chunks| - 1 ==> maxsize < Sum(r.chunks[k]))
  {
    if g.chunk == [] {
      assert Flatten(g.chunks) + g.chunk == Flatten(g.chunks);
    } else {
      OneMoreChunk(g.chunks, g.chunk);
      forall k | 0 <= k < |g.chunks + [g.chunk]|
        ensures Sum((g.chunks + [g.chunk])[k]) <= 2 * maxsize
        ensures k < |g.chunks| ==> maxsize < Sum((g.chunks + [g.chunk])[k])
      {
        assert (g.chunks + [g.chunk])[k] == if k < |g.chunks| then g.chunks[k] else g.chunk;
      }
    }
  }

  /** The chunks of an extension hold its files of fitting size, each once and in the order
      taken; none is over-full, and all but the last are more than half full. */
  lemma ChunksHoldTheFiles(order: seq<File>, ext: string, maxsize: nat)
    ensures var r := Flush(GroupOf(order, ext, maxsize));
      && Flatten(r.chunks) == Accepted(order, ext, maxsize)
      && r.totalsize == Sum(Accepted(order, ext, maxsize))
      && (forall k :: 0 <= k < |r.chunks| ==> Sum(r.chunks[k]) <= 2 * maxsize)
      && (forall k :: 0 <= k < |r.chunks| - 1 ==> maxsize < Sum(r.chunks[k]))
  {
    var g := GroupOf(order, ext, maxsize);
    GroupIsGood(order, ext, maxsize);
    FlushKeeps(g, Accepted(order, ext, maxsize), maxsize);
  }

  lemma OneMoreTime(n: nat, m: nat)
    ensures (n + 1) * m == n * m + m
  {
  }

  lemma {:induction false} FullChunksAddUp(chunks: seq<seq<File>>, n: nat, maxsize: nat)
    requires WellFilled(chunks, maxsize) && n == |chunks|
    ensures Sum(Flatten(chunks)) >= n * (maxsize + 1)
  {
    if n > 0 {
      FullChunksAddUp(chunks[..n - 1], n - 1, maxsize);
      SumOfBoth(Flatten(chunks[..n - 1]), chunks[n - 1]);
      OneMoreTime(n - 1, maxsize + 1);
    }
  }

  lemma {:induction false} SumOfBoth(a: seq<File>, b: seq<File>)
    ensures Sum(a + b) == Sum(a) + Sum(b)
  {
    if b == [] {
      assert a + b == a;
    } else {
      SumOfBoth(a, b[..|b| - 1]);
      assert (a + b)[..|a + b| - 1] == a + b[..|b| - 1];
    }
  }

  lemma QuotientBound(n: nat, maxsize: nat, total: nat)
    requires maxsize > 0 && n * (maxsize + 1) <= total
    ensures n <= total / maxsize
  {
    assert n * maxsize <= total;
    assert (total / maxsize + 1) * maxsize > total;
  }

  /** So there are at most totalsize / maxsize + 1 of them. */
  lemma FewChunks(order: seq<File>, ext: string, maxsize: nat)
    requires maxsize > 0
    ensures var r := Flush(GroupOf(order, ext, maxsize)); |r.chunks| <= r.totalsize / maxsize + 1
  {
    var g := GroupOf(order, ext, maxsize);
    GroupIsGood(order, ext, maxsize);
    FullChunksAddUp(g.chunks, |g.chunks|, maxsize);
    SumOfBoth(Flatten(g.chunks), g.chunk);
    QuotientBound(|g.chunks|, maxsize, g.totalsize);
  }

  /** A file of fitting size is among the accepted of its own extension as often as it was
      taken, and no other file is. */
  lemma {:induction false} AcceptedAsTaken(order: seq<File>, ext: string, maxsize: nat, f: File)
    ensures multiset(Accepted(order, ext, maxsize))[f]
         == if Ext(f.path) == ext && f.size <= maxsize then multiset(order)[f] else 0
  {
    if order != [] {
      var n := |order| - 1;
      AcceptedAsTaken(order[..n], ext, maxsize, f);
      assert order == order[..n] + [order[n]];
    }
  }

  // ---------------------------------------------------------------- the order

  /** In how many files a token occurs. */
  function Count(files: seq<File>, t: string): nat {
    if files == [] then 0 else Count(files[..|files| - 1], t) + if t in files[|files| - 1].tokens then 1 else 0
  }

  /** Rarer tokens come first, and longer ones among equally rare. */
  predicate Before(files: seq<File>, t: string, u: string) {
    Count(files, t) < Count(files, u) || (Count(files, t) == Count(files, u) && |t| > |u|)
  }

  function Shared(files: seq<File>, f: File): set<string> {
    set t | t in f.tokens && Count(files, t) > 1
  }

  /** The tokens of the files taken since a chunk was last closed that other files share. */
  function Active(files: seq<File>, order: seq<File>, maxsize: nat): set<string> {
    if order == [] then {}
    else
      var (front, f) := (order[..|order| - 1], order[|order| - 1]);
      if Overflows(GroupOf(front, Ext(f.path), maxsize), f, maxsize) then {}
      else Active(files, front, maxsize) + Shared(files, f)
  }

  ghost predicate Occurs(t: string, remaining: set<File>) {
    exists f :: f in remaining && t in f.tokens
  }

  /** Paths in the order of their characters. */
  predicate PathBefore(a: string, b: string)
    decreases |a|
  {
    b != [] && (a == [] || a[0] < b[0] || (a[0] == b[0] && PathBefore(a[1..], b[1..])))
  }

  /** `f` is the first remaining file that shares the first of the active tokens to occur in a
      remaining file; if none occurs, it is the first remaining file by path. */
  ghost predicate NextBest(files: seq<File>, remaining: set<File>, active: set<string>, f: File) {
    && f in remaining
    && if exists t :: t in active && Occurs(t, remaining) then
         exists t, i :: t in active && FirstWith(files, remaining, t, i, f)
                        && LeastOccurring(files, remaining, active, t)
       else
         forall g :: g in remaining ==> !PathBefore(g.path, f.path)
  }

  ghost predicate FirstWith(files: seq<File>, remaining: set<File>, t: string, i: nat, f: File) {
    && i < |files| && files[i] == f && t in f.tokens
    && forall k :: 0 <= k < i ==> files[k] !in remaining || t !in files[k].tokens
  }

  ghost predicate LeastOccurring(files: seq<File>, remaining: set<File>, active: set<string>, t: string) {
    forall u :: u in active && Before(files, u, t) ==> !Occurs(u, remaining)
  }

  /** Every file was the next best when it was taken. */
  ghost predicate TakenInTurn(files: seq<File>, order: seq<File>, maxsize: nat)
    decreases |order|
  {
    order == [] || (
      var (front, f) := (order[..|order| - 1], order[|order| - 1]);
      && NextBest(files, Rest(files, front), Active(files, front, maxsize), f)
      && TakenInTurn(files, front, maxsize))
  }

  function Rest(files: seq<File>, taken: seq<File>): set<File> {
    set f | f in files && f !in taken
  }
}
