/** The tree the nested-partitions test of the tree module expects, built
    from the entries its four paths parse to. */
module TreeExamples {
  import opened Results
  import opened FileName
  import opened Paths
  import opened EntryOrder
  import opened Sorting
  import opened Tree

  function Leaf(f: ParquetDeltaFile): TreeNode {
    FileEntries([f])
  }

  /** A single entry with no segment left is a leaf of its file. */
  lemma SingleLeaf(e: Entry, level: nat)
    requires level >= |e.segs|
    ensures BuildPartition([e], level) == Ok(Leaf(e.file))
  {
    assert Map(FileOf, [e]) == [e.file];
  }

  /** `a=1/b=1/F1`, `a=4/b=2/F2`, `a=1/b=7/F3`, `a=4/b=1/F4`, sorted. */
  function NestedSorted(f1: ParquetDeltaFile, f2: ParquetDeltaFile, f3: ParquetDeltaFile,
                        f4: ParquetDeltaFile): seq<Entry> {
    [ Entry([KV("a", "1"), KV("b", "1")], f1), Entry([KV("a", "1"), KV("b", "7")], f3),
      Entry([KV("a", "4"), KV("b", "1")], f4), Entry([KV("a", "4"), KV("b", "2")], f2) ]
  }

  lemma NestedInOrder(f1: ParquetDeltaFile, f2: ParquetDeltaFile, f3: ParquetDeltaFile, f4: ParquetDeltaFile)
    ensures Sorted(NestedSorted(f1, f2, f3, f4), EntryLe)
  {
    var s := NestedSorted(f1, f2, f3, f4);
    assert EntryLe(s[0], s[1]);
    assert EntryLe(s[1], s[2]);
    assert EntryLe(s[2], s[3]);
    assert Chain(s[2..], EntryLe);
    assert Chain(s, EntryLe);
    EntryLeTotalOrder();
    ChainSorted(s, EntryLe);
  }

  /** The test's paths, in the test's order, sort to `NestedSorted`. */
  lemma NestedSortOrder(f1: ParquetDeltaFile, f2: ParquetDeltaFile, f3: ParquetDeltaFile, f4: ParquetDeltaFile)
    ensures TotalOrder(EntryLe)
    ensures Sort([ Entry([KV("a", "1"), KV("b", "1")], f1), Entry([KV("a", "4"), KV("b", "2")], f2),
                   Entry([KV("a", "1"), KV("b", "7")], f3), Entry([KV("a", "4"), KV("b", "1")], f4) ], EntryLe)
            == NestedSorted(f1, f2, f3, f4)
  {
    EntryLeTotalOrder();
    var s := NestedSorted(f1, f2, f3, f4);
    NestedInOrder(f1, f2, f3, f4);
    var input := [s[0], s[3], s[1], s[2]];
    assert multiset(input) == multiset(s);
    SortIsUnique(input, s, EntryLe);
  }

  /** A subtree under `a=av`: a partition on `b` with one file per value. */
  lemma TwoLeaves(av: string, v1: string, v2: string, f: ParquetDeltaFile, g: ParquetDeltaFile)
    requires v1 != v2
    ensures BuildPartition([Entry([KV("a", av), KV("b", v1)], f), Entry([KV("a", av), KV("b", v2)], g)], 1)
            == Ok(Partition("b", map[v1 := Leaf(f), v2 := Leaf(g)]))
  {
    var s := [Entry([KV("a", av), KV("b", v1)], f), Entry([KV("a", av), KV("b", v2)], g)];
    assert s[0..1] == [s[0]] && s[1..] == [s[1]];
    SingleLeaf(s[0], 2);
    SingleLeaf(s[1], 2);
    assert ScanRuns(s, 1, "b", 2, v2, 1, map[v1 := Leaf(f)]) == Ok(map[v1 := Leaf(f), v2 := Leaf(g)]);
    assert ScanRuns(s, 1, "b", 1, v1, 0, map[]) == Ok(map[v1 := Leaf(f), v2 := Leaf(g)]);
    assert ScanRuns(s, 1, "b", 0, v1, 0, map[]) == Ok(map[v1 := Leaf(f), v2 := Leaf(g)]);
  }

  /** The root: a partition on `a` whose children are the two subtrees. */
  lemma NestedTop(f1: ParquetDeltaFile, f2: ParquetDeltaFile, f3: ParquetDeltaFile, f4: ParquetDeltaFile)
    ensures BuildPartition(NestedSorted(f1, f2, f3, f4), 0) == Ok(Partition("a", map[
              "1" := Partition("b", map["1" := Leaf(f1), "7" := Leaf(f3)]),
              "4" := Partition("b", map["1" := Leaf(f4), "2" := Leaf(f2)])]))
  {
    var s := NestedSorted(f1, f2, f3, f4);
    var left := Partition("b", map["1" := Leaf(f1), "7" := Leaf(f3)]);
    var right := Partition("b", map["1" := Leaf(f4), "2" := Leaf(f2)]);
    TwoLeaves("1", "1", "7", f1, f3);
    TwoLeaves("4", "1", "2", f4, f2);
    assert s[0..2] == [s[0], s[1]] && s[2..] == [s[2], s[3]];
    var children := map["1" := left, "4" := right];
    assert ScanRuns(s, 0, "a", 4, "4", 2, map["1" := left]) == Ok(children);
    assert ScanRuns(s, 0, "a", 3, "4", 2, map["1" := left]) == Ok(children);
    assert ScanRuns(s, 0, "a", 2, "1", 0, map[]) == Ok(children);
    assert ScanRuns(s, 0, "a", 1, "1", 0, map[]) == Ok(children);
    assert ScanRuns(s, 0, "a", 0, "1", 0, map[]) == Ok(children);
  }

  /** `tree_parse_nested_partitions`: two levels, `a` then `b`, with a file
      under each of the four value pairs, whatever the files are. */
  lemma NestedPartitions(f1: ParquetDeltaFile, f2: ParquetDeltaFile, f3: ParquetDeltaFile, f4: ParquetDeltaFile)
    ensures BuildTree([ Entry([KV("a", "1"), KV("b", "1")], f1), Entry([KV("a", "4"), KV("b", "2")], f2),
                        Entry([KV("a", "1"), KV("b", "7")], f3), Entry([KV("a", "4"), KV("b", "1")], f4) ])
            == Ok(DeltaTree(Partition("a", map[
                 "1" := Partition("b", map["1" := Leaf(f1), "7" := Leaf(f3)]),
                 "4" := Partition("b", map["1" := Leaf(f4), "2" := Leaf(f2)])])))
  {
    NestedSortOrder(f1, f2, f3, f4);
    NestedTop(f1, f2, f3, f4);
  }
}
