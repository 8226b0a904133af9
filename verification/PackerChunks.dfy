/** When the packer of crs/analysis/full.py closes a chunk, which tokens it follows then, and
    which file it takes next. */
module PackerChunks {
  import opened PackerSpec

  // ---------------------------------------------------------------- closing a chunk

  /** Each chunk was closed because the first file of the next one did not fit. */
  ghost predicate Tight(chunks: seq<seq<File>>, maxsize: nat) {
    && (forall k :: 0 <= k < |chunks| ==> chunks[k] != [])
    && forall k :: 0 <= k < |chunks| - 1 ==> Sum(chunks[k]) + chunks[k + 1][0].size > 2 * maxsize
  }

  /** The closed chunks, and the open one if there is any. */
  function AllChunks(g: Group): seq<seq<File>> { if g.chunk == [] then g.chunks else g.chunks + [g.chunk] }

  lemma {:induction false} GroupIsTight(order: seq<File>, ext: string, maxsize: nat)
    ensures var g := GroupOf(order, ext, maxsize); Tight(AllChunks(g), maxsize) && (g.chunk == [] ==> g.chunks == [])
  {
    if order != [] {
      var (front, f) := (order[..|order| - 1], order[|order| - 1]);
      GroupIsTight(front, ext, maxsize);
      GroupIsGood(front, ext, maxsize);
      if Fits(f, ext, maxsize) {
        PutKeepsTight(GroupOf(front, ext, maxsize), f, maxsize);
      }
    }
  }

  lemma PutKeepsTight(g: Group, f: File, maxsize: nat)
    requires Tight(AllChunks(g), maxsize) && (g.chunk == [] ==> g.chunks == []) && g.chunksize == Sum(g.chunk)
    requires f.size <= maxsize
    ensures Tight(AllChunks(Put(g, f, maxsize)), maxsize) && Put(g, f, maxsize).chunk != []
  {
    if g.chunk == [] {
      assert [] + [f] == [f];
    } else if Overflows(g, f, maxsize) {
      NextIsTight(AllChunks(g), [f], maxsize);
    } else {
      LongerIsTight(g.chunks, g.chunk, f, maxsize);
    }
  }

  lemma NextIsTight(chunks: seq<seq<File>>, c: seq<File>, maxsize: nat)
    requires Tight(chunks, maxsize) && chunks != [] && c != []
    requires Sum(chunks[|chunks| - 1]) + c[0].size > 2 * maxsize
    ensures Tight(chunks + [c], maxsize)
  {
  }

  lemma LongerIsTight(chunks: seq<seq<File>>, c: seq<File>, f: File, maxsize: nat)
    requires Tight(chunks + [c], maxsize)
    ensures Tight(chunks + [c + [f]], maxsize)
  {
    var (was, now) := (chunks + [c], chunks + [c + [f]]);
    assert forall k :: 0 <= k < |chunks| ==> was[k] == chunks[k] && now[k] == chunks[k];
    assert was[|chunks|] == c && c != [] && (c + [f])[0] == c[0];
  }

  /** A chunk of an extension is closed only when the next file does not fit into it. */
  lemma ClosedWhenFull(order: seq<File>, ext: string, maxsize: nat)
    ensures Tight(Flush(GroupOf(order, ext, maxsize)).chunks, maxsize)
  {
    GroupIsTight(order, ext, maxsize);
  }

  // ---------------------------------------------------------------- the chunks are determined

  /** The chunks hold the files of `flat` in order, none over-full, each closed when full. */
  ghost predicate ChunkedAs(flat: seq<File>, chunks: seq<seq<File>>, maxsize: nat) {
    && Flatten(chunks) == flat && Tight(chunks, maxsize)
    && forall k :: 0 <= k < |chunks| ==> Sum(chunks[k]) <= 2 * maxsize
  }

  lemma {:induction false} FlattenFirst(chunks: seq<seq<File>>)
    requires chunks != []
    ensures Flatten(chunks) == chunks[0] + Flatten(chunks[1..])
  {
    var n := |chunks| - 1;
    if n == 0 {
      assert chunks[..0] == [] && chunks[1..] == [];
    } else {
      FlattenFirst(chunks[..n]);
      assert chunks[..n][1..] == chunks[1..][..n - 1];
      Regroup(chunks[0], Flatten(chunks[1..][..n - 1]), chunks[n]);
    }
  }

  lemma Regroup(a: seq<File>, b: seq<File>, c: seq<File>)
    ensures a + b + c == a + (b + c)
  {
  }

  lemma {:induction false} SumOfPrefix(fs: seq<File>, n: nat)
    requires n < |fs|
    ensures Sum(fs[..n]) + fs[n].size <= Sum(fs)
    decreases |fs|
  {
    if n < |fs| - 1 {
      SumOfPrefix(fs[..|fs| - 1], n);
      assert fs[..|fs| - 1][..n] == fs[..n];
    }
  }

  lemma RestIsChunked(flat: seq<File>, chunks: seq<seq<File>>, maxsize: nat)
    requires ChunkedAs(flat, chunks, maxsize) && chunks != []
    ensures |chunks[0]| <= |flat| && chunks[0] == flat[..|chunks[0]|]
    ensures ChunkedAs(flat[|chunks[0]|..], chunks[1..], maxsize)
  {
    FlattenFirst(chunks);
  }

  /** The first chunk cannot be shorter: the file after it would have fitted. */
  lemma FirstIsLongest(flat: seq<File>, a: seq<seq<File>>, b: seq<seq<File>>, maxsize: nat)
    requires ChunkedAs(flat, a, maxsize) && ChunkedAs(flat, b, maxsize) && a != [] && b != []
    ensures |a[0]| >= |b[0]|
  {
    RestIsChunked(flat, a, maxsize);
    RestIsChunked(flat, b, maxsize);
    var n := |a[0]|;
    if n < |b[0]| {
      NoFilesNoChunks(flat[n..], a[1..], maxsize);
      RestIsChunked(flat[n..], a[1..], maxsize);
      assert a[1][0] == flat[n..][0] == b[0][n] && b[0][..n] == a[0];
      SumOfPrefix(b[0], n);
      assert false;
    }
  }

  /** Files, order and size determine the chunks. */
  lemma {:induction false} ChunksAreDetermined(flat: seq<File>, a: seq<seq<File>>, b: seq<seq<File>>, maxsize: nat)
    requires ChunkedAs(flat, a, maxsize) && ChunkedAs(flat, b, maxsize)
    ensures a == b
    decreases |a|
  {
    if a == [] || b == [] {
      NoFilesNoChunks(flat, a, maxsize);
      NoFilesNoChunks(flat, b, maxsize);
    } else {
      FirstIsLongest(flat, a, b, maxsize);
      FirstIsLongest(flat, b, a, maxsize);
      RestIsChunked(flat, a, maxsize);
      RestIsChunked(flat, b, maxsize);
      ChunksAreDetermined(flat[|a[0]|..], a[1..], b[1..], maxsize);
      assert a == [a[0]] + a[1..] && b == [b[0]] + b[1..];
    }
  }

  lemma NoFilesNoChunks(flat: seq<File>, chunks: seq<seq<File>>, maxsize: nat)
    requires ChunkedAs(flat, chunks, maxsize)
    ensures flat == [] <==> chunks == []
  {
    if chunks != [] {
      FlattenFirst(chunks);
    }
  }

  /** So the chunks of an extension are the one way to cut its fitting files like that. */
  lemma ChunksOf(order: seq<File>, ext: string, maxsize: nat, chunks: seq<seq<File>>)
    ensures ChunkedAs(Accepted(order, ext, maxsize), chunks, maxsize) <==>
            chunks == Flush(GroupOf(order, ext, maxsize)).chunks
  {
    var flat := Accepted(order, ext, maxsize);
    ChunksHoldTheFiles(order, ext, maxsize);
    ClosedWhenFull(order, ext, maxsize);
    if ChunkedAs(flat, chunks, maxsize) {
      ChunksAreDetermined(flat, chunks, Flush(GroupOf(order, ext, maxsize)).chunks, maxsize);
    }
  }

  // ---------------------------------------------------------------- tokens

  /** The files in which a token occurs, by index. */
  function Having(files: seq<File>, t: string): set<nat> {
    set i: nat | i < |files| && t in files[i].tokens
  }

  lemma {:induction false} CountIs(files: seq<File>, t: string)
    ensures Count(files, t) == |Having(files, t)|
  {
    if files != [] {
      var n := |files| - 1;
      CountIs(files[..n], t);
      assert Having(files, t) == Having(files[..n], t) + if t in files[n].tokens then {n} else {};
    }
  }

  /** A shared token is one that occurs in another file too. */
  lemma SharedIff(files: seq<File>, i: nat, t: string)
    requires i < |files|
    ensures t in Shared(files, files[i]) <==>
            t in files[i].tokens && exists j :: 0 <= j < |files| && j != i && t in files[j].tokens
  {
    CountIs(files, t);
    var h := Having(files, t);
    if t in files[i].tokens {
      assert i in h && |h - {i}| == |h| - 1;
      if j :| 0 <= j < |files| && j != i && t in files[j].tokens {
        assert j in h - {i};
      } else {
        assert h - {i} == {};
      }
    }
  }

  /** Taking file `j` closes a chunk: the open one of its extension has no room for it. */
  ghost predicate Closes(order: seq<File>, j: nat, maxsize: nat)
    requires j < |order|
  {
    var f := order[j];
    f.size <= maxsize && Sum(GroupOf(order[..j], Ext(f.path), maxsize).chunk) + f.size > 2 * maxsize
  }

  /** No chunk was closed from the file `i` on. */
  ghost predicate OpenSince(order: seq<File>, i: nat, maxsize: nat) {
    forall j :: i <= j < |order| ==> !Closes(order, j, maxsize)
  }

  lemma OpenSinceNext(front: seq<File>, f: File, i: nat, maxsize: nat)
    requires i <= |front|
    ensures OpenSince(front + [f], i, maxsize) <==>
            OpenSince(front, i, maxsize) && !Overflows(GroupOf(front, Ext(f.path), maxsize), f, maxsize)
  {
    var order := front + [f];
    forall j | 0 <= j < |front| ensures Closes(order, j, maxsize) <==> Closes(front, j, maxsize) {
      assert order[..j] == front[..j];
    }
    GroupIsGood(front, Ext(f.path), maxsize);
    assert order[..|front|] == front;
    assert Closes(order, |front|, maxsize) <==> Overflows(GroupOf(front, Ext(f.path), maxsize), f, maxsize);
  }

  /** File `i` has the token, shares it, and no chunk was closed since. */
  ghost predicate ActiveFrom(files: seq<File>, order: seq<File>, maxsize: nat, t: string, i: nat) {
    i < |order| && t in Shared(files, order[i]) && OpenSince(order, i, maxsize)
  }

  /** The active tokens are the shared ones of the files taken since a chunk was last closed. */
  lemma {:induction false} ActiveIff(files: seq<File>, order: seq<File>, maxsize: nat, t: string)
    ensures t in Active(files, order, maxsize) <==> exists i :: ActiveFrom(files, order, maxsize, t, i)
  {
    if order != [] {
      var n := |order| - 1;
      var (front, f) := (order[..n], order[n]);
      assert order == front + [f];
      ActiveIff(files, front, maxsize, t);
      forall i: nat | i < n ensures ActiveFrom(files, order, maxsize, t, i) <==>
          ActiveFrom(files, front, maxsize, t, i) && !Overflows(GroupOf(front, Ext(f.path), maxsize), f, maxsize) {
        OpenSinceNext(front, f, i, maxsize);
      }
      OpenSinceNext(front, f, n, maxsize);
      assert ActiveFrom(files, order, maxsize, t, n) <==>
        t in Shared(files, f) && !Overflows(GroupOf(front, Ext(f.path), maxsize), f, maxsize);
    }
  }

  // ---------------------------------------------------------------- the next file

  /** A token that occurs in fewer files comes first, and a longer one among equals. */
  ghost predicate Rarer(files: seq<File>, t: string, u: string) {
    || |Having(files, t)| < |Having(files, u)|
    || (|Having(files, t)| == |Having(files, u)| && |t| > |u|)
  }

  /** The file is the first one left that has the rarest of the active tokens to occur in a file
      left, or the first one left by path where no active token does. */
  ghost predicate Followed(files: seq<File>, left: set<File>, active: set<string>, f: File) {
    && f in left
    && if exists t, g :: t in active && g in left && t in g.tokens then
         exists t, i: nat :: RarestLeft(files, left, active, t) && FirstLeft(files, left, t, i, f)
       else forall g :: g in left ==> !PathBefore(g.path, f.path)
  }

  ghost predicate RarestLeft(files: seq<File>, left: set<File>, active: set<string>, t: string) {
    t in active && forall u, g :: u in active && g in left && u in g.tokens ==> !Rarer(files, u, t)
  }

  ghost predicate FirstLeft(files: seq<File>, left: set<File>, t: string, i: nat, f: File) {
    && i < |files| && files[i] == f && t in f.tokens
    && forall k :: 0 <= k < i ==> files[k] !in left || t !in files[k].tokens
  }

  lemma RarerIff(files: seq<File>, t: string, u: string)
    ensures Before(files, t, u) <==> Rarer(files, t, u)
  {
    CountIs(files, t);
    CountIs(files, u);
  }

  lemma NextIsFollowed(files: seq<File>, left: set<File>, active: set<string>, f: File)
    requires NextBest(files, left, active, f)
    ensures Followed(files, left, active, f)
  {
    if t, g :| t in active && g in left && t in g.tokens {
      assert Occurs(t, left);
      var u, i: nat :| u in active && FirstWith(files, left, u, i, f) && LeastOccurring(files, left, active, u);
      forall v, h | v in active && h in left && v in h.tokens ensures !Rarer(files, v, u) {
        RarerIff(files, v, u);
        assert Occurs(v, left);
      }
      assert RarestLeft(files, left, active, u) && FirstLeft(files, left, u, i, f);
    }
  }

  /** Every file was the one to be followed to when it was taken. */
  lemma {:induction false} TakenAsFollowed(files: seq<File>, order: seq<File>, maxsize: nat, i: nat)
    requires TakenInTurn(files, order, maxsize) && i < |order|
    ensures Followed(files, Rest(files, order[..i]), Active(files, order[..i], maxsize), order[i])
    decreases |order|
  {
    var n := |order| - 1;
    if i < n {
      TakenAsFollowed(files, order[..n], maxsize, i);
      assert order[..n][..i] == order[..i];
    } else {
      NextIsFollowed(files, Rest(files, order[..i]), Active(files, order[..i], maxsize), order[i]);
    }
  }
}
