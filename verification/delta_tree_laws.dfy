/** `DeltaTree::from_paths` and `DeltaTree::files` end to end: the round trip
    the source's tests check, the flat table, independence from the order of
    the paths, and the shallow path that makes the root a leaf. */
module DeltaTreeLaws {
  import opened Results
  import opened FileName
  import opened Compression
  import opened Paths
  import opened PathProofs
  import opened EntryOrder
  import opened Sorting
  import opened Tree
  import opened TreeProofs
  import opened TreeLaws

  /** Every path parses and ends in a file name that `name` writes back. */
  predicate Readable(paths: seq<string>) {
    forall i | 0 <= i < |paths| :: ParsePath(paths[i]).Ok? && CanonicalName(LastPiece(paths[i]))
  }

  /** Writing back the parsed entries gives the paths. */
  lemma PathsOfEntries(paths: seq<string>)
    requires Readable(paths)
    ensures Map(EntryPath, ParseAll(paths).value) == paths
  {
    var es := ParseAll(paths).value;
    forall i | 0 <= i < |paths|
      ensures EntryPath(es[i]) == paths[i]
    {
      PathRoundTrip(paths[i]);
    }
  }

  /** Sorting keeps the entries: the same ones, as many. */
  lemma SortedMembers(es: seq<Entry>)
    ensures TotalOrder(EntryLe)
    ensures |Sort(es, EntryLe)| == |es|
    ensures forall e | e in Sort(es, EntryLe) :: e in es
    ensures forall e | e in es :: e in Sort(es, EntryLe)
  {
    EntryLeTotalOrder();
    var sorted := Sort(es, EntryLe);
    assert |sorted| == |multiset(sorted)| == |multiset(es)| == |es|;
    forall e | e in sorted
      ensures e in es
    {
      assert e in multiset(sorted);
    }
    forall e | e in es
      ensures e in sorted
    {
      assert e in multiset(es);
    }
  }

  /** The sorted entries hold what the entries hold, in order. */
  lemma SortedShape(es: seq<Entry>, d: nat)
    requires SameDepth(es, d) && ConsistentKeys(es)
    ensures TotalOrder(EntryLe)
    ensures Chain(Sort(es, EntryLe), EntryLe)
    ensures SameDepth(Sort(es, EntryLe), d) && SharePrefix(Sort(es, EntryLe), [])
    ensures ConsistentKeys(Sort(es, EntryLe))
  {
    SortedMembers(es);
    ChainSorted(Sort(es, EntryLe), EntryLe);
  }

  /** Entries of one depth whose keys agree wherever their segments do build
      a tree whose files are the entries' paths. */
  lemma BuildTreeFlattens(es: seq<Entry>)
    requires SameDepth(es, Depth(es)) && ConsistentKeys(es)
    ensures BuildTree(es).Ok?
    ensures FilesIn("", BuildTree(es).value.root) == multiset(Map(EntryPath, es))
  {
    var d := Depth(es);
    SortedShape(es, d);
    var sorted := Sort(es, EntryLe);
    BuildSucceeds(sorted, [], d);
    BuildFlattens(sorted, [], d, BuildPartition(sorted, 0).value);
    MapMultiset(EntryPath, sorted, es);
  }

  /** Paths of one depth whose keys agree wherever their segments do build a
      tree, and the tree's files are the paths again (as a multiset: `files`
      visits children in `HashMap` order). */
  lemma TreeRoundTrip(paths: seq<string>)
    requires Readable(paths)
    requires SameDepth(ParseAll(paths).value, Depth(ParseAll(paths).value)) && ConsistentKeys(ParseAll(paths).value)
    ensures FromPaths(paths).Ok?
    ensures FilesIn("", FromPaths(paths).value.root) == multiset(paths)
  {
    if |paths| > 0 {
      var es := ParseAll(paths).value;
      assert FromPaths(paths) == BuildTree(es);
      BuildTreeFlattens(es);
      PathsOfEntries(paths);
    }
  }

  /** `tree_round_trip`: the files of the tree built from the paths, sorted,
      are the paths, sorted. */
  method RoundTrip(paths: seq<string>) returns (out: seq<string>)
    requires Readable(paths)
    requires SameDepth(ParseAll(paths).value, Depth(ParseAll(paths).value)) && ConsistentKeys(ParseAll(paths).value)
    ensures multiset(out) == multiset(paths)
  {
    TreeRoundTrip(paths);
    out := Files(FromPaths(paths).value);
  }

  // ----- A flat table -----

  /** The order the files of a leaf are sorted in. */
  predicate FileLe(a: ParquetDeltaFile, b: ParquetDeltaFile) {
    a == b || FileLt(a, b)
  }

  /** Entries without segments sort by their files. */
  lemma FlatSorted(sorted: seq<Entry>)
    requires Sorted(sorted, EntryLe)
    requires forall e | e in sorted :: e.segs == []
    ensures Sorted(Map(FileOf, sorted), FileLe)
  {
    var files := Map(FileOf, sorted);
    forall i, j | 0 <= i < j < |files|
      ensures FileLe(files[i], files[j])
    {
      assert sorted[i] in sorted && sorted[j] in sorted;
      assert EntryLe(sorted[i], sorted[j]);
    }
  }

  /** Entries without partition segments build one leaf holding every file,
      sorted by the file order. */
  lemma FlatTree(es: seq<Entry>)
    requires |es| > 0
    requires forall e | e in es :: e.segs == []
    ensures BuildTree(es).Ok? && BuildTree(es).value.root.FileEntries?
    ensures multiset(BuildTree(es).value.root.files) == multiset(Map(FileOf, es))
    ensures Sorted(BuildTree(es).value.root.files, FileLe)
  {
    SortedMembers(es);
    var sorted := Sort(es, EntryLe);
    assert sorted[0] in sorted;
    assert BuildPartition(sorted, 0) == Ok(FileEntries(Map(FileOf, sorted)));
    MapMultiset(FileOf, sorted, es);
    FlatSorted(sorted);
  }

  /** `list_of_files_as_flat_tree`: paths without partition segments build
      one leaf holding every file, sorted by the file order. */
  lemma FlatTable(paths: seq<string>)
    requires ParseAll(paths).Ok?
    requires forall e | e in ParseAll(paths).value :: e.segs == []
    ensures FromPaths(paths).Ok? && FromPaths(paths).value.root.FileEntries?
    ensures multiset(FromPaths(paths).value.root.files) == multiset(Map(FileOf, ParseAll(paths).value))
    ensures Sorted(FromPaths(paths).value.root.files, FileLe)
  {
    if |paths| > 0 {
      assert FromPaths(paths) == BuildTree(ParseAll(paths).value);
      FlatTree(ParseAll(paths).value);
    }
  }

  // ----- The order of the paths does not matter -----

  /** The entry of a path that parses. */
  function EntryOf(p: string): (e: Entry)
    ensures ParsePath(p).Ok? ==> ParsePath(p) == Ok(e)
  {
    match ParsePath(p)
    case Ok(e) => e
    case Err(_) => Entry([], ParquetDeltaFile(0, 0, 0, Snappy))
  }

  /** Rearranged paths parse to the rearranged entries. */
  lemma ParsePermuted(p1: seq<string>, p2: seq<string>)
    requires multiset(p1) == multiset(p2)
    requires ParseAll(p1).Ok?
    ensures ParseAll(p2).Ok?
    ensures multiset(ParseAll(p1).value) == multiset(ParseAll(p2).value)
  {
    forall i | 0 <= i < |p2|
      ensures ParsePath(p2[i]).Ok?
    {
      assert p2[i] in multiset(p1);
    }
    assert ParseAll(p1).value == Map(EntryOf, p1);
    assert ParseAll(p2).value == Map(EntryOf, p2);
    MapMultiset(EntryOf, p1, p2);
  }

  /** The same entries in any order build the same tree. */
  lemma BuildTreePermuted(es1: seq<Entry>, es2: seq<Entry>)
    requires multiset(es1) == multiset(es2)
    ensures BuildTree(es1) == BuildTree(es2)
  {
    EntryLeTotalOrder();
    SortIsUnique(es2, Sort(es1, EntryLe), EntryLe);
  }

  /** The same paths in any order build the same tree, because sorting
      leaves one order. */
  lemma OrderIndependent(p1: seq<string>, p2: seq<string>)
    requires multiset(p1) == multiset(p2)
    requires ParseAll(p1).Ok?
    ensures FromPaths(p1) == FromPaths(p2)
  {
    assert |p1| == |multiset(p1)| == |multiset(p2)| == |p2|;
    ParsePermuted(p1, p2);
    if |p1| > 0 {
      assert FromPaths(p1) == BuildTree(ParseAll(p1).value);
      assert FromPaths(p2) == BuildTree(ParseAll(p2).value);
      BuildTreePermuted(ParseAll(p1).value, ParseAll(p2).value);
    }
  }

  // ----- The depth check -----

  /** On paths of one depth the checked build is the build as written. */
  lemma StrictAgrees(paths: seq<string>)
    requires ParseAll(paths).Ok? && SameDepth(ParseAll(paths).value, Depth(ParseAll(paths).value))
    ensures FromPathsStrict(paths) == FromPaths(paths)
  {
    if |paths| > 0 {
      assert FromPathsStrict(paths) == BuildTreeStrict(ParseAll(paths).value);
    }
  }

  /** On paths of several depths the checked build reports a segment count
      mismatch. */
  lemma StrictRejects(paths: seq<string>)
    requires ParseAll(paths).Ok? && !SameDepth(ParseAll(paths).value, Depth(ParseAll(paths).value))
    ensures FromPathsStrict(paths).Err? && FromPathsStrict(paths).error.SegmentCountMismatch?
  {
    assert FromPathsStrict(paths) == BuildTreeStrict(ParseAll(paths).value);
  }

  /** The checked build keeps the round trip for every input it accepts. */
  lemma StrictRoundTrip(paths: seq<string>)
    requires Readable(paths) && ConsistentKeys(ParseAll(paths).value)
    requires FromPathsStrict(paths).Ok?
    ensures FilesIn("", FromPathsStrict(paths).value.root) == multiset(paths)
  {
    if |paths| > 0 && !SameDepth(ParseAll(paths).value, Depth(ParseAll(paths).value)) {
      StrictRejects(paths);
    }
    StrictAgrees(paths);
    TreeRoundTrip(paths);
  }

  // ----- A path shallower than the rest -----

  /** A path with partition segments has a `/` in it, which no file name has. */
  lemma SlashInPartitioned(e: Entry)
    requires e.segs != []
    ensures exists k | 0 <= k < |EntryPath(e)| :: EntryPath(e)[k] == '/'
  {
    var r := RenderSegs(e.segs);
    assert r[|r| - 1] == '/';
    assert EntryPath(e)[|r| - 1] == '/';
  }

  /** An entry without segments sorts before every entry with some. */
  lemma ShallowFirst(es: seq<Entry>, z: Entry)
    requires z in es && z.segs == []
    ensures TotalOrder(EntryLe)
    ensures Sort(es, EntryLe)[0].segs == []
  {
    SortedMembers(es);
    var sorted := Sort(es, EntryLe);
    assert z in multiset(sorted);
    SortedHead(sorted, z, EntryLe);
    assert !SegsLt(sorted[0].segs, []);
  }

  /** A partitioned path is not among the paths of a leaf at the table
      root, which are bare file names. */
  lemma NotAtRoot(p: string, files: seq<ParquetDeltaFile>)
    requires ParsePath(p).Ok? && CanonicalName(LastPiece(p)) && ParsePath(p).value.segs != []
    ensures p !in multiset(LeafPaths("", files))
  {
    PathRoundTrip(p);
    SlashInPartitioned(ParsePath(p).value);
    var written := LeafPaths("", files);
    forall k | 0 <= k < |written|
      ensures written[k] != p
    {
      NameHasNoSlash(files[k]);
      assert written[k] == Name(files[k]);
    }
  }

  /** With an entry without segments among them, the entries build a leaf
      holding every file. */
  lemma ShallowBuildsLeaf(es: seq<Entry>, z: Entry)
    requires z in es && z.segs == []
    ensures TotalOrder(EntryLe)
    ensures BuildTree(es) == Ok(DeltaTree(FileEntries(Map(FileOf, Sort(es, EntryLe)))))
  {
    ShallowFirst(es, z);
  }

  lemma ShallowPathsBuildLeaf(paths: seq<string>, i: nat)
    requires ParseAll(paths).Ok? && i < |paths| && ParseAll(paths).value[i].segs == []
    ensures TotalOrder(EntryLe)
    ensures FromPaths(paths) == Ok(DeltaTree(FileEntries(Map(FileOf, Sort(ParseAll(paths).value, EntryLe)))))
  {
    var es := ParseAll(paths).value;
    assert es[i] in es;
    ShallowBuildsLeaf(es, es[i]);
    assert FromPaths(paths) == BuildTree(es);
  }

  /** A file at the table root sorts before every partitioned path, so the
      root becomes a leaf holding every file and the partitions are lost:
      `files` then omits the partitioned paths. The checked build rejects
      the same input. */
  lemma RootLeafSwallows(paths: seq<string>, i: nat, j: nat)
    requires ParseAll(paths).Ok? && i < |paths| && j < |paths| && CanonicalName(LastPiece(paths[j]))
    requires ParseAll(paths).value[i].segs == [] && ParseAll(paths).value[j].segs != []
    ensures FromPaths(paths).Ok? && FromPaths(paths).value.root.FileEntries?
    ensures FilesIn("", FromPaths(paths).value.root) != multiset(paths)
    ensures FromPathsStrict(paths).Err? && FromPathsStrict(paths).error.SegmentCountMismatch?
  {
    var es := ParseAll(paths).value;
    ShallowPathsBuildLeaf(paths, i);
    LeafMissesPath(paths, j, Map(FileOf, Sort(es, EntryLe)));
    MixedDepth(es, i, j);
    StrictRejects(paths);
  }

  lemma MixedDepth(es: seq<Entry>, i: nat, j: nat)
    requires i < |es| && j < |es| && es[i].segs == [] && es[j].segs != []
    ensures !SameDepth(es, Depth(es))
  {
    assert es[i] in es && es[j] in es;
  }

  /** A root leaf cannot give back a path that has directories. */
  lemma LeafMissesPath(paths: seq<string>, j: nat, files: seq<ParquetDeltaFile>)
    requires j < |paths| && ParsePath(paths[j]).Ok? && CanonicalName(LastPiece(paths[j]))
    requires ParsePath(paths[j]).value.segs != []
    ensures multiset(LeafPaths("", files)) != multiset(paths)
  {
    NotAtRoot(paths[j], files);
    assert paths[j] in multiset(paths);
  }
}
