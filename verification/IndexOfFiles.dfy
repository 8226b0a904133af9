/** The two programs together: the tree that utils/path_suffix_tree.py builds, read back and
    asked by src/path_suffix.rs. */
module IndexOfFiles {
  import opened PathIndex
  import opened PathText
  import opened SuffixTree
  import opened SuffixTreeBuild
  import opened Wrappers

  function Files(paths: seq<Path>): set<Path> { set p | p in paths }

  /** The files that end in `s` and are no proper ending of another file, each once. */
  ghost predicate ListsFiles(files: set<Path>, s: Path, r: seq<Path>) {
    Distinct(r) && forall p :: p in r <==> EndsIn(p, s) && Maximal(files, p)
  }

  lemma LeavesAreFiles(nodes: Dicts, files: set<Path>, s: Path, r: seq<Path>)
    requires Nested(nodes) && Holds(nodes, files) && ListsLeaves(Dumped(nodes, 0), s, r)
    ensures ListsFiles(files, s, r)
  {
    forall p ensures p in r <==> EndsIn(p, s) && Maximal(files, p) {
      LeavesAreMaximal(nodes, files, p);
      assert LeafIn(Dumped(nodes, 0), s, p) <==> EndsIn(p, s) && IsLeaf(Dumped(nodes, 0), p);
    }
  }

  method Build(paths: seq<Path>) returns (dict: PathSuffixDict)
    ensures fresh(dict) && dict.Valid() && dict.files == Files(paths)
  {
    dict := new PathSuffixDict();
    for i := 0 to |paths|
      invariant fresh(dict) && dict.Valid() && dict.files == Files(paths[..i])
    {
      dict.AddFile(paths[i]);
      assert paths[..i + 1] == paths[..i] + [paths[i]];
    }
    assert paths[..|paths|] == paths;
  }

  /** Every complete path is listed once, and every partial path finds the complete ones that
      end in it, or fails if there is none. */
  method AskIndex(paths: seq<Path>, text: string) returns (all: seq<Path>, full: Result<seq<Path>, PathError>)
    ensures ListsFiles(Files(paths), [], all)
    ensures full.Ok? ==> ListsFiles(Files(paths), Comps(text), full.value) && full.value != []
    ensures full.Err? ==> forall p :: EndsIn(p, Comps(text)) ==> !Maximal(Files(paths), p)
  {
    var dict := Build(paths);
    var index := new PathSuffixTree(Dumped(dict.nodes, 0));
    all := index.AllPaths();
    LeavesAreFiles(dict.nodes, dict.files, [], all);
    full := index.GetFullPaths(text);
    if full.Ok? {
      LeavesAreFiles(dict.nodes, dict.files, Comps(text), full.value);
      FullPathsFound(index.root, Comps(text), full.value);
    } else {
      forall p | EndsIn(p, Comps(text)) ensures !Maximal(dict.files, p) {
        LeavesAreMaximal(dict.nodes, dict.files, p);
        MissingIsNoLeaf(index.root, Comps(text), p);
      }
    }
  }

  lemma MissingIsNoLeaf(root: Node, s: Path, p: Path)
    requires At(root, s).None? && EndsIn(p, s)
    ensures !IsLeaf(root, p)
  {
    if IsLeaf(root, p) {
      assert p == p[..|p| - |s|] + s;
      SuffixesAreThere(root, p[..|p| - |s|], s);
    }
  }

  /** Of files with proper names, check_path accepts those that are no proper ending of another,
      and each in one spelling only. */
  lemma CheckedIffFile(nodes: Dicts, files: set<Path>, text: string)
    requires Nested(nodes) && Holds(nodes, files) && forall p :: p in files ==> Clean(p)
    ensures Checked(Dumped(nodes, 0), text).Ok? <==> Maximal(files, Comps(text)) && text == Spell(Comps(text))
  {
    forall q | IsLeaf(Dumped(nodes, 0), q) ensures Clean(q) {
      LeavesAreMaximal(nodes, files, q);
    }
    LeavesAreMaximal(nodes, files, Comps(text));
    CheckedIffLeaf(Dumped(nodes, 0), text);
  }
}
