/** The partition tree of a Delta table (`DeltaTree`, `TreeNode`): building
    it from the table's file paths and flattening it back into paths. */
module Tree {
  import opened Results
  import opened FileName
  import opened Paths
  import opened EntryOrder
  import opened Sorting

  /** A directory level: either one partition column with a subtree per
      value, or a leaf directory holding data files. */
  datatype TreeNode =
    | Partition(name: string, values: map<string, TreeNode>)
    | FileEntries(files: seq<ParquetDeltaFile>)

  datatype DeltaTree = DeltaTree(root: TreeNode)

  /** Every entry has `d` segments. */
  predicate SameDepth(es: seq<Entry>, d: nat) {
    forall e | e in es :: |e.segs| == d
  }

  function FileOf(e: Entry): ParquetDeltaFile {
    e.file
  }

  /** The segment count of the first entry, which `build_partition` treats as
      the count of all of them. */
  function Depth(es: seq<Entry>): nat {
    if |es| == 0 then 0 else |es[0].segs|
  }

  /** Levels left below `level`; it shrinks with every descent. */
  function Remaining(es: seq<Entry>, level: nat): nat {
    if Depth(es) > level then Depth(es) - level else 0
  }

  /** `build_partition(paths, level)`. An empty slice is an empty leaf. When
      the first entry has no segment at `level` the slice is a leaf holding
      every entry's file; the other entries' segment counts are not looked at.
      Otherwise the slice becomes a partition on the first entry's key, built
      by the scan below. */
  function BuildPartition(es: seq<Entry>, level: nat): (r: Result<TreeNode>)
    ensures |es| == 0 ==> r == Ok(FileEntries([]))
    ensures |es| > 0 && level >= |es[0].segs| ==> r == Ok(FileEntries(Map(FileOf, es)))
    ensures |es| > 0 && level < |es[0].segs| && r.Ok? ==>
              r.value.Partition? && r.value.name == es[0].segs[level].key
    decreases Remaining(es, level), 1, 0
  {
    if |es| == 0 then Ok(FileEntries([]))
    else if level < |es[0].segs| then
      var first := es[0].segs[level];
      match ScanRuns(es, level, first.key, 0, first.value, 0, map[])
      case Err(e) => Err(e)
      case Ok(children) => Ok(Partition(first.key, children))
    else
      Ok(FileEntries(Map(FileOf, es)))
  }

  /** The `for (idx, path)` loop of `build_partition` from index `idx` on:
      `current` is the value of the run that started at `start`, `children`
      the subtrees of the runs before it. Every entry must have the first
      entry's segment count and the key `name` at `level`; when the value
      changes the finished run is built one level down, and after the last
      entry the final run is. */
  function ScanRuns(es: seq<Entry>, level: nat, name: string, idx: nat, current: string, start: nat,
                    children: map<string, TreeNode>): (r: Result<map<string, TreeNode>>)
    requires 0 < |es| && level < |es[0].segs|
    requires start <= idx <= |es| && (start < idx || idx == 0)
    requires idx == 0 ==> current == es[0].segs[level].value
    requires forall j | 0 <= j < idx :: |es[j].segs| == |es[0].segs|
    ensures r.Ok? ==> forall j | idx <= j < |es| ::
                        |es[j].segs| == |es[0].segs| && es[j].segs[level].key == name
    decreases Remaining(es, level), 0, |es| - idx
  {
    if idx == |es| then
      match BuildPartition(es[start..], level + 1)
      case Err(e) => Err(e)
      case Ok(last) => Ok(children[current := last])
    else
      var segs := es[idx].segs;
      if |segs| != |es[0].segs| then Err(SegmentCountMismatch(|es[0].segs|, |segs|))
      else if segs[level].key != name then Err(KeyMismatch(name, segs[level].key))
      else if segs[level].value != current then
        match BuildPartition(es[start..idx], level + 1)
        case Err(e) => Err(e)
        case Ok(child) =>
          ScanRuns(es, level, name, idx + 1, segs[level].value, idx, children[current := child])
      else
        ScanRuns(es, level, name, idx + 1, current, start, children)
  }

  /** Every path parsed, in input order; the first path that fails to parse
      panics before any sorting. */
  function ParseAll(paths: seq<string>): (r: Result<seq<Entry>>)
    ensures r.Ok? <==> forall i | 0 <= i < |paths| :: ParsePath(paths[i]).Ok?
    ensures r.Ok? ==> |r.value| == |paths| &&
                      forall i | 0 <= i < |paths| :: ParsePath(paths[i]) == Ok(r.value[i])
    ensures r.Err? ==> exists i | 0 <= i < |paths| ::
                         && ParsePath(paths[i]) == Err(r.error)
                         && forall j | 0 <= j < i :: ParsePath(paths[j]).Ok?
  {
    CollectAll(ParsePath, paths)
  }

  /** `DeltaTree::from_paths`: no paths give an empty leaf; otherwise every
      path is parsed and the tree is built from the entries. */
  function FromPaths(paths: seq<string>): (r: Result<DeltaTree>)
    ensures |paths| == 0 ==> r == Ok(DeltaTree(FileEntries([])))
    ensures |paths| > 0 ==> (r.Err? && ParseAll(paths).Err? ==> r.error == ParseAll(paths).error)
    ensures |paths| > 0 && r.Ok? ==> ParseAll(paths).Ok?
  {
    if |paths| == 0 then Ok(DeltaTree(FileEntries([])))
    else
      match ParseAll(paths)
      case Err(e) => Err(e)
      case Ok(es) => BuildTree(es)
  }

  /** The rest of `from_paths`: the entries are sorted by the tuple order and
      the tree is built from level 0. */
  function BuildTree(es: seq<Entry>): (r: Result<DeltaTree>)
    ensures TotalOrder(EntryLe)
    ensures forall s | Sorted(s, EntryLe) && multiset(s) == multiset(es) ::
              && (r.Ok? <==> BuildPartition(s, 0).Ok?)
              && (r.Ok? ==> r.value.root == BuildPartition(s, 0).value)
  {
    EntryLeTotalOrder();
    SortedPermutations(es, EntryLe);
    match BuildPartition(Sort(es, EntryLe), 0)
    case Err(e) => Err(e)
    case Ok(root) => Ok(DeltaTree(root))
  }

  /** Every entry has `d` segments, or the first one that does not is
      reported as `build_partition`'s length assertion would. */
  function CheckDepth(es: seq<Entry>, d: nat): (r: Result<seq<Entry>>)
    ensures r.Ok? <==> SameDepth(es, d)
    ensures r.Ok? ==> r.value == es
    ensures r.Err? ==> exists e | e in es :: |e.segs| != d && r.error == SegmentCountMismatch(d, |e.segs|)
  {
    if |es| == 0 then Ok(es)
    else if |es[0].segs| != d then Err(SegmentCountMismatch(d, |es[0].segs|))
    else
      match CheckDepth(es[1..], d)
      case Err(e) => Err(e)
      case Ok(_) =>
        assert es == [es[0]] + es[1..];
        Ok(es)
  }

  /** `from_paths` with the segment count of every path checked against the
      first one's before building, as the loop's length assertion intends;
      `build_partition`'s leaf branch skips that check. */
  function FromPathsStrict(paths: seq<string>): (r: Result<DeltaTree>)
    ensures |paths| == 0 ==> r == Ok(DeltaTree(FileEntries([])))
    ensures |paths| > 0 ==> (r.Err? && ParseAll(paths).Err? ==> r.error == ParseAll(paths).error)
    ensures |paths| > 0 && r.Ok? ==> ParseAll(paths).Ok?
  {
    if |paths| == 0 then Ok(DeltaTree(FileEntries([])))
    else
      match ParseAll(paths)
      case Err(e) => Err(e)
      case Ok(es) => BuildTreeStrict(es)
  }

  /** `BuildTree` behind the depth check of the sorted entries. */
  function BuildTreeStrict(es: seq<Entry>): (r: Result<DeltaTree>)
    requires |es| > 0
    ensures SameDepth(es, Depth(es)) ==> r == BuildTree(es)
    ensures !SameDepth(es, Depth(es)) ==>
              && r.Err? && r.error.SegmentCountMismatch?
              && exists e | e in es :: r.error.foundCount == |e.segs| != r.error.expectedCount
  {
    EntryLeTotalOrder();
    var sorted := Sort(es, EntryLe);
    SortedDepth(es, sorted);
    match CheckDepth(sorted, |sorted[0].segs|)
    case Err(e) => Err(e)
    case Ok(_) => BuildTree(es)
  }

  /** A rearrangement of nonempty entries has one depth exactly when they do. */
  lemma SortedDepth(es: seq<Entry>, sorted: seq<Entry>)
    requires |es| > 0 && multiset(sorted) == multiset(es)
    ensures |sorted| > 0
    ensures SameDepth(sorted, |sorted[0].segs|) <==> SameDepth(es, Depth(es))
    ensures forall e | e in sorted :: e in es
  {
    assert es[0] in multiset(sorted);
    assert |sorted| > 0;
    assert sorted[0] in multiset(es);
    forall e | e in sorted
      ensures e in es
    {
      assert e in multiset(sorted);
    }
    forall e | e in es
      ensures e in sorted
    {
      assert e in multiset(es);
    }
  }

  /** The paths `files_in_subtree` writes for a leaf: each file's name
      behind the prefix. */
  function LeafPaths(prefix: string, files: seq<ParquetDeltaFile>): (r: seq<string>)
    ensures |r| == |files|
    ensures forall i | 0 <= i < |files| :: r[i] == prefix + Name(files[i])
  {
    seq(|files|, i requires 0 <= i < |files| => prefix + Name(files[i]))
  }

  /** The prefix of the subtree for value `value` of partition `name`. */
  function ChildPrefix(prefix: string, name: string, value: string): (r: string)
    ensures r == prefix + SegmentText(KV(name, value)) + "/"
  {
    prefix + name + "=" + value + "/"
  }

  ghost function Pick<T>(ks: set<T>): (k: T)
    requires ks != {}
    ensures k in ks
  {
    var k :| k in ks; k
  }

  /** The paths under a node, as a multiset: `files` visits the children of
      a partition in `HashMap` order, which is unspecified, so only the
      multiset of paths is determined. */
  ghost function FilesIn(prefix: string, n: TreeNode): multiset<string>
    decreases n, 1
  {
    match n
    case FileEntries(files) => multiset(LeafPaths(prefix, files))
    case Partition(name, values) => ChildrenFiles(prefix, n, values.Keys)
  }

  /** The paths under the children of partition `n` whose values are in `ks`. */
  ghost function ChildrenFiles(prefix: string, n: TreeNode, ks: set<string>): multiset<string>
    requires n.Partition? && ks <= n.values.Keys
    decreases n, 0, ks
  {
    if ks == {} then multiset{}
    else
      var k := Pick(ks);
      FilesIn(ChildPrefix(prefix, n.name, k), n.values[k]) + ChildrenFiles(prefix, n, ks - {k})
  }

  /** The children can be summed in any order: any value can be taken first. */
  lemma {:induction false} ChildrenRemove(prefix: string, n: TreeNode, ks: set<string>, k: string)
    requires n.Partition? && ks <= n.values.Keys && k in ks
    ensures ChildrenFiles(prefix, n, ks) ==
            FilesIn(ChildPrefix(prefix, n.name, k), n.values[k]) + ChildrenFiles(prefix, n, ks - {k})
    decreases ks
  {
    var j := Pick(ks);
    if j != k {
      ChildrenRemove(prefix, n, ks - {j}, k);
      ChildrenRemove(prefix, n, ks - {k}, j);
      assert ks - {j} - {k} == ks - {k} - {j};
    }
  }

  /** `files_in_subtree`: the paths of a leaf in order, the paths of a
      partition's children one child after another. */
  method FilesInSubtree(prefix: string, n: TreeNode) returns (out: seq<string>)
    ensures multiset(out) == FilesIn(prefix, n)
    decreases n
  {
    match n
    case FileEntries(files) =>
      out := LeafPaths(prefix, files);
    case Partition(name, values) =>
      out := [];
      var rest := values.Keys;
      while rest != {}
        invariant rest <= values.Keys
        invariant multiset(out) + ChildrenFiles(prefix, n, rest) == FilesIn(prefix, n)
        decreases rest
      {
        var k :| k in rest;
        var sub := FilesInSubtree(ChildPrefix(prefix, name, k), values[k]);
        ChildrenRemove(prefix, n, rest, k);
        out := out + sub;
        rest := rest - {k};
      }
  }

  /** `DeltaTree::files`. */
  method Files(t: DeltaTree) returns (out: seq<string>)
    ensures multiset(out) == FilesIn("", t.root)
  {
    out := FilesInSubtree("", t.root);
  }
}
