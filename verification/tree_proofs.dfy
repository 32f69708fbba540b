/** What building and flattening the partition tree guarantee: flattening a
    built tree gives back the paths it was built from, a partition has one
    child per value, building fails exactly when segment counts or keys
    disagree, and the tree does not depend on the order of the paths. */
module TreeProofs {
  import opened Results
  import opened FileName
  import opened FileNameProofs
  import opened Paths
  import opened Lex
  import opened EntryOrder
  import opened Sorting
  import opened Tree

  /** Every entry starts with the segments `S`. */
  predicate SharePrefix(es: seq<Entry>, S: seq<KV>) {
    forall e | e in es :: |S| <= |e.segs| && e.segs[..|S|] == S
  }

  /** Two entries agree on the partition key at every level below which
      their segments are the same. */
  predicate KeysAgree(x: Entry, y: Entry) {
    forall l | 0 <= l < |x.segs| && l < |y.segs| && x.segs[..l] == y.segs[..l] ::
      x.segs[l].key == y.segs[l].key
  }

  predicate ConsistentKeys(es: seq<Entry>) {
    forall x, y | x in es && y in es :: KeysAgree(x, y)
  }

  // ----- Summing the children of a partition -----

  lemma {:induction false} ChildrenAgree(prefix: string, a: TreeNode, b: TreeNode, ks: set<string>)
    requires a.Partition? && b.Partition? && a.name == b.name
    requires ks <= a.values.Keys && ks <= b.values.Keys
    requires forall k | k in ks :: a.values[k] == b.values[k]
    ensures ChildrenFiles(prefix, a, ks) == ChildrenFiles(prefix, b, ks)
    decreases ks
  {
    if ks != {} {
      ChildrenAgree(prefix, a, b, ks - {Pick(ks)});
    }
  }

  /** Adding a child for a new value adds that child's paths. */
  lemma PartitionInsert(prefix: string, name: string, children: map<string, TreeNode>, k: string, child: TreeNode)
    requires k !in children
    ensures FilesIn(prefix, Partition(name, children[k := child])) ==
            FilesIn(prefix, Partition(name, children)) + FilesIn(ChildPrefix(prefix, name, k), child)
  {
    var n := Partition(name, children);
    var n' := Partition(name, children[k := child]);
    assert n'.values.Keys == children.Keys + {k};
    ChildrenRemove(prefix, n', n'.values.Keys, k);
    assert n'.values.Keys - {k} == children.Keys;
    ChildrenAgree(prefix, n', n, children.Keys);
  }

  lemma ChildPrefixOfSegs(S: seq<KV>, kv: KV)
    ensures RenderSegs(S + [kv]) == ChildPrefix(RenderSegs(S), kv.key, kv.value)
  {
    RenderSegsAppend(S, [kv]);
    assert [kv][..0] == [];
  }

  // ----- Runs of equal values -----

  /** A run of entries with segment `kv` at level `|S|` shares `S + [kv]`. */
  lemma RunShape(es: seq<Entry>, S: seq<KV>, d: nat, kv: KV, start: nat, end: nat)
    requires SameDepth(es, d) && SharePrefix(es, S) && |S| < d
    requires start < end <= |es|
    requires forall j | start <= j < end :: es[j].segs[|S|] == kv
    ensures SameDepth(es[start..end], d)
    ensures SharePrefix(es[start..end], S + [kv])
    ensures |es[start..end][0].segs| == d
  {
    forall e | e in es[start..end]
      ensures |e.segs| == d && e.segs[..|S| + 1] == S + [kv]
    {
      var j :| start <= j < end && es[j] == e;
      assert e in es;
      assert e.segs[..|S| + 1] == e.segs[..|S|] + [e.segs[|S|]];
    }
    assert es[start..end][0] in es;
  }

  lemma RunSorted(es: seq<Entry>, start: nat, end: nat)
    requires Chain(es, EntryLe) && start <= end <= |es|
    ensures Chain(es[start..end], EntryLe)
  {
    EntryLeTotalOrder();
    ChainSorted(es, EntryLe);
    ChainSorted(es[start..end], EntryLe);
    forall i, j | 0 <= i < j < end - start
      ensures EntryLe(es[start..end][i], es[start..end][j])
    {
      assert es[start..end][i] == es[start + i] && es[start..end][j] == es[start + j];
    }
  }

  lemma RunConsistent(es: seq<Entry>, start: nat, end: nat)
    requires ConsistentKeys(es) && start <= end <= |es|
    ensures ConsistentKeys(es[start..end])
  {
    forall x, y | x in es[start..end] && y in es[start..end]
      ensures KeysAgree(x, y)
    {
      var i :| start <= i < end && es[i] == x;
      var j :| start <= j < end && es[j] == y;
      assert x in es && y in es;
    }
  }

  /** In sorted input, where the value at level `|S|` changes between
      neighbours sharing `S` and the key, it grows. */
  lemma NextValueGreater(es: seq<Entry>, S: seq<KV>, d: nat, idx: nat, name: string, cur: string, v: string)
    requires Chain(es, EntryLe) && SameDepth(es, d) && SharePrefix(es, S) && |S| < d
    requires 0 < idx < |es|
    requires es[idx - 1].segs[|S|] == KV(name, cur) && es[idx].segs[|S|] == KV(name, v) && cur != v
    ensures StrLt(cur, v)
  {
    var a, b := es[idx - 1], es[idx];
    assert a in es && b in es;
    assert EntryLe(a, b) by {
      EntryLeTotalOrder();
      ChainSorted(es, EntryLe);
    }
    assert a.segs != b.segs by {
      assert a.segs[|S|] != b.segs[|S|];
    }
    LexAfterPrefix(a.segs, b.segs, |S|, KVLt);
    StrLtStrictTotal();
  }

  // ----- Flattening a built tree -----

  /** `files` applied to a subtree built from sorted entries sharing the
      prefix `S` gives back those entries' paths. */
  lemma {:induction false} BuildFlattens(es: seq<Entry>, S: seq<KV>, d: nat, node: TreeNode)
    requires Chain(es, EntryLe) && SameDepth(es, d) && SharePrefix(es, S)
    requires BuildPartition(es, |S|) == Ok(node)
    ensures FilesIn(RenderSegs(S), node) == multiset(Map(EntryPath, es))
    decreases Remaining(es, |S|), 1, 0, 0
  {
    if |es| == 0 {
    } else if |S| < |es[0].segs| {
      assert es[0] in es;
      var first := es[0].segs[|S|];
      assert ScanRuns(es, |S|, first.key, 0, first.value, 0, map[]) == Ok(node.values);
      assert ScanState(es, S, d, first.key, 0, first.value, 0, map[]);
      ScanFlattens(es, S, d, first.key, 0, first.value, 0, map[], node.values);
    } else {
      LeafFlattens(es, S, d);
    }
  }

  lemma LeafFlattens(es: seq<Entry>, S: seq<KV>, d: nat)
    requires SameDepth(es, d) && SharePrefix(es, S)
    requires 0 < |es| && |S| >= |es[0].segs|
    ensures LeafPaths(RenderSegs(S), Map(FileOf, es)) == Map(EntryPath, es)
  {
    LeafSegs(es, S, d);
    LeafPathsOfEntries(es, S);
  }

  /** In a leaf every entry's segments are exactly the shared prefix. */
  lemma LeafSegs(es: seq<Entry>, S: seq<KV>, d: nat)
    requires SameDepth(es, d) && SharePrefix(es, S)
    requires 0 < |es| && |S| >= |es[0].segs|
    ensures forall i | 0 <= i < |es| :: es[i].segs == S
  {
    assert es[0] in es;
    forall i | 0 <= i < |es|
      ensures es[i].segs == S
    {
      assert es[i] in es;
      assert es[i].segs[..|S|] == es[i].segs;
    }
  }

  /** Each path of a leaf is the prefix followed by its file's name, and
      that name parses back to the file exactly when the partition fits five
      digits. */
  lemma LeafPathsReadBack(prefix: string, files: seq<ParquetDeltaFile>)
    ensures |LeafPaths(prefix, files)| == |files|
    ensures forall i | 0 <= i < |files| ::
              && prefix <= LeafPaths(prefix, files)[i]
              && (FromString(LeafPaths(prefix, files)[i][|prefix|..]) == Ok(files[i])
                  <==> files[i].partition < 100000)
  {
    var paths := LeafPaths(prefix, files);
    forall i | 0 <= i < |files|
      ensures prefix <= paths[i]
      ensures FromString(paths[i][|prefix|..]) == Ok(files[i]) <==> files[i].partition < 100000
    {
      assert paths[i][|prefix|..] == Name(files[i]);
      ParseOfName(files[i]);
    }
  }

  lemma LeafPathsOfEntries(es: seq<Entry>, S: seq<KV>)
    requires forall i | 0 <= i < |es| :: es[i].segs == S
    ensures LeafPaths(RenderSegs(S), Map(FileOf, es)) == Map(EntryPath, es)
  {
  }

  /** Storing the run of `cur` keeps every stored value below the next one. */
  lemma KeysBelow(children: map<string, TreeNode>, cur: string, child: TreeNode, v: string)
    requires forall k | k in children :: StrLt(k, cur)
    requires StrLt(cur, v)
    ensures forall k | k in children[cur := child] :: StrLt(k, v)
  {
    forall k | k in children[cur := child]
      ensures StrLt(k, v)
    {
      if k != cur {
        StrLtStrictTotal();
      }
    }
  }

  lemma SumRegroup<T>(a: multiset<T>, b: multiset<T>, c: multiset<T>, x: multiset<T>, y: multiset<T>, z: multiset<T>)
    requires a == b + y && b == c + x && z == x + y
    ensures a == c + z
  {
  }

  lemma PathsSplit(es: seq<Entry>, a: nat, b: nat)
    requires a <= b <= |es|
    ensures multiset(Map(EntryPath, es[a..])) == multiset(Map(EntryPath, es[a..b])) + multiset(Map(EntryPath, es[b..]))
  {
    assert es[a..] == es[a..b] + es[b..];
    MapAppend(EntryPath, es[a..b], es[b..]);
  }

  /** The facts the scan of `build_partition` keeps at `idx`, for sorted
      entries sharing the prefix `S`: every entry so far has the first
      entry's segment count, the current run holds segment `name=cur`, and
      every value already stored sorts before `cur`. */
  ghost predicate ScanState(es: seq<Entry>, S: seq<KV>, d: nat, name: string, idx: nat, cur: string,
                            start: nat, children: map<string, TreeNode>) {
    Grouped(es, S, d) && ScanCursor(es, S, name, idx, cur, start) && ValuesBelow(children, cur)
  }

  /** Sorted entries of `d` segments sharing the prefix `S`, with a level
      left below it. */
  ghost predicate Grouped(es: seq<Entry>, S: seq<KV>, d: nat) {
    Chain(es, EntryLe) && SameDepth(es, d) && SharePrefix(es, S) && 0 < |es| && |S| < |es[0].segs|
  }

  predicate ScanCursor(es: seq<Entry>, S: seq<KV>, name: string, idx: nat, cur: string, start: nat)
    requires 0 < |es| && |S| < |es[0].segs|
  {
    && start <= idx <= |es| && (start < idx || idx == 0)
    && (idx == 0 ==> cur == es[0].segs[|S|].value)
    && (forall j | 0 <= j < idx :: |es[j].segs| == |es[0].segs|)
    && (forall j | start <= j < idx :: |S| < |es[j].segs| && es[j].segs[|S|] == KV(name, cur))
  }

  predicate ValuesBelow(children: map<string, TreeNode>, cur: string) {
    forall k | k in children :: StrLt(k, cur)
  }

  /** Past an entry with the current segment the run grows. */
  lemma ScanExtend(es: seq<Entry>, S: seq<KV>, d: nat, name: string, idx: nat, cur: string, start: nat,
                   children: map<string, TreeNode>)
    requires ScanState(es, S, d, name, idx, cur, start, children)
    requires idx < |es| && es[idx].segs[|S|] == KV(name, cur)
    ensures ScanState(es, S, d, name, idx + 1, cur, start, children)
  {
    assert es[0] in es && es[idx] in es;
  }

  /** Past an entry with a new value the finished run is stored and a run of
      the new value, which sorts after every stored one, starts. */
  lemma ScanAdvance(es: seq<Entry>, S: seq<KV>, d: nat, name: string, idx: nat, cur: string, start: nat,
                    children: map<string, TreeNode>, child: TreeNode)
    requires ScanState(es, S, d, name, idx, cur, start, children)
    requires idx < |es| && es[idx].segs[|S|].key == name && es[idx].segs[|S|].value != cur
    ensures ScanState(es, S, d, name, idx + 1, es[idx].segs[|S|].value, idx, children[cur := child])
  {
    var v := es[idx].segs[|S|].value;
    assert es[idx].segs[|S|] == KV(name, v);
    assert es[0] in es && es[idx] in es;
    assert forall k | k in children[cur := child] :: StrLt(k, v) by {
      NextValueGreater(es, S, d, idx, name, cur, v);
      KeysBelow(children, cur, child, v);
    }
  }

  /** One step of the scan where the value stays: the run grows. */
  lemma ScanStepSame(es: seq<Entry>, S: seq<KV>, d: nat, name: string, idx: nat, cur: string, start: nat,
                     children: map<string, TreeNode>, res: map<string, TreeNode>)
    requires ScanState(es, S, d, name, idx, cur, start, children)
    requires idx < |es| && es[idx].segs[|S|].value == cur
    requires ScanRuns(es, |S|, name, idx, cur, start, children) == Ok(res)
    ensures ScanState(es, S, d, name, idx + 1, cur, start, children)
    ensures ScanRuns(es, |S|, name, idx + 1, cur, start, children) == Ok(res)
  {
    ScanExtend(es, S, d, name, idx, cur, start, children);
  }

  /** One step of the scan where the value changes: the finished run is
      built and stored, and a run of the new, larger value starts. */
  lemma ScanStepChange(es: seq<Entry>, S: seq<KV>, d: nat, name: string, idx: nat, cur: string, start: nat,
                       children: map<string, TreeNode>, res: map<string, TreeNode>)
    returns (child: TreeNode)
    requires ScanState(es, S, d, name, idx, cur, start, children)
    requires idx < |es| && es[idx].segs[|S|].value != cur
    requires ScanRuns(es, |S|, name, idx, cur, start, children) == Ok(res)
    ensures BuildPartition(es[start..idx], |S| + 1) == Ok(child)
    ensures ScanState(es, S, d, name, idx + 1, es[idx].segs[|S|].value, idx, children[cur := child])
    ensures ScanRuns(es, |S|, name, idx + 1, es[idx].segs[|S|].value, idx, children[cur := child]) == Ok(res)
  {
    child := BuildPartition(es[start..idx], |S| + 1).value;
    ScanAdvance(es, S, d, name, idx, cur, start, children, child);
  }

  /** The loop of `build_partition` from `idx` on adds the paths of the
      current run and of every entry after it. */
  lemma {:induction false} ScanFlattens(es: seq<Entry>, S: seq<KV>, d: nat, name: string, idx: nat, cur: string,
                                         start: nat, children: map<string, TreeNode>, res: map<string, TreeNode>)
    requires ScanState(es, S, d, name, idx, cur, start, children)
    requires ScanRuns(es, |S|, name, idx, cur, start, children) == Ok(res)
    ensures FilesIn(RenderSegs(S), Partition(name, res)) ==
            FilesIn(RenderSegs(S), Partition(name, children)) + multiset(Map(EntryPath, es[start..]))
    decreases Remaining(es, |S|), 0, |es| - idx, 2
  {
    if idx == |es| {
      ScanEnd(es, S, d, name, cur, start, children, res);
    } else if es[idx].segs[|S|].value != cur {
      NewRunFlattens(es, S, d, name, idx, cur, start, children, res);
    } else {
      ScanStepSame(es, S, d, name, idx, cur, start, children, res);
      ScanFlattens(es, S, d, name, idx + 1, cur, start, children, res);
    }
  }

  /** An entry with a new value: the finished run is stored, and the rest of
      the scan adds the new run and what follows it. */
  lemma {:induction false} NewRunFlattens(es: seq<Entry>, S: seq<KV>, d: nat, name: string, idx: nat, cur: string,
                                           start: nat, children: map<string, TreeNode>, res: map<string, TreeNode>)
    requires ScanState(es, S, d, name, idx, cur, start, children)
    requires idx < |es| && es[idx].segs[|S|].value != cur
    requires ScanRuns(es, |S|, name, idx, cur, start, children) == Ok(res)
    ensures FilesIn(RenderSegs(S), Partition(name, res)) ==
            FilesIn(RenderSegs(S), Partition(name, children)) + multiset(Map(EntryPath, es[start..]))
    decreases Remaining(es, |S|), 0, |es| - idx, 1
  {
    var child := ScanStepChange(es, S, d, name, idx, cur, start, children, res);
    ScanFlattens(es, S, d, name, idx + 1, es[idx].segs[|S|].value, idx, children[cur := child], res);
    StoreRun(es, S, d, name, idx, cur, start, children, child, res);
  }

  /** After the last entry the final run becomes the child for its value. */
  lemma {:induction false} ScanEnd(es: seq<Entry>, S: seq<KV>, d: nat, name: string, cur: string,
                                    start: nat, children: map<string, TreeNode>, res: map<string, TreeNode>)
    requires ScanState(es, S, d, name, |es|, cur, start, children)
    requires ScanRuns(es, |S|, name, |es|, cur, start, children) == Ok(res)
    ensures FilesIn(RenderSegs(S), Partition(name, res)) ==
            FilesIn(RenderSegs(S), Partition(name, children)) + multiset(Map(EntryPath, es[start..]))
    decreases Remaining(es, |S|), 0, 0, 1
  {
    var last := BuildPartition(es[start..], |S| + 1).value;
    assert res == children[cur := last];
    assert es[start..] == es[start..|es|];
    RunFlattens(es, S, d, name, |es|, cur, start, last);
    if cur in children {
      StrLtStrictTotal();
    }
    PartitionInsert(RenderSegs(S), name, children, cur, last);
  }

  /** A finished run, built one level down, flattens to its entries' paths
      under the prefix of its value. */
  lemma {:induction false} RunFlattens(es: seq<Entry>, S: seq<KV>, d: nat, name: string, idx: nat, cur: string,
                                        start: nat, child: TreeNode)
    requires Grouped(es, S, d) && start < idx <= |es|
    requires forall j | start <= j < idx :: es[j].segs[|S|] == KV(name, cur)
    requires BuildPartition(es[start..idx], |S| + 1) == Ok(child)
    ensures FilesIn(ChildPrefix(RenderSegs(S), name, cur), child) == multiset(Map(EntryPath, es[start..idx]))
    decreases Remaining(es, |S|), 0, 0, 0
  {
    var kv := KV(name, cur);
    assert es[0] in es;
    RunShape(es, S, d, kv, start, idx);
    RunSorted(es, start, idx);
    BuildFlattens(es[start..idx], S + [kv], d, child);
    ChildPrefixOfSegs(S, kv);
  }

  /** Where the value changes, the run of `cur` that ends at `idx` becomes
      the child for `cur`: the paths under the partition after the rest of
      the scan are those before it plus the paths of `es[start..]`. */
  lemma {:induction false} StoreRun(es: seq<Entry>, S: seq<KV>, d: nat, name: string, idx: nat, cur: string,
                                     start: nat, children: map<string, TreeNode>, child: TreeNode,
                                     res: map<string, TreeNode>)
    requires Grouped(es, S, d) && start < idx <= |es|
    requires forall j | start <= j < idx :: es[j].segs[|S|] == KV(name, cur)
    requires ValuesBelow(children, cur)
    requires BuildPartition(es[start..idx], |S| + 1) == Ok(child)
    requires FilesIn(RenderSegs(S), Partition(name, res)) ==
             FilesIn(RenderSegs(S), Partition(name, children[cur := child])) + multiset(Map(EntryPath, es[idx..]))
    ensures FilesIn(RenderSegs(S), Partition(name, res)) ==
            FilesIn(RenderSegs(S), Partition(name, children)) + multiset(Map(EntryPath, es[start..]))
    decreases Remaining(es, |S|), 0, 0, 1
  {
    var P := RenderSegs(S);
    RunFlattens(es, S, d, name, idx, cur, start, child);
    if cur in children {
      StrLtStrictTotal();
    }
    PartitionInsert(P, name, children, cur, child);
    PathsSplit(es, start, idx);
    SumRegroup(FilesIn(P, Partition(name, res)), FilesIn(P, Partition(name, children[cur := child])),
               FilesIn(P, Partition(name, children)), multiset(Map(EntryPath, es[start..idx])),
               multiset(Map(EntryPath, es[idx..])), multiset(Map(EntryPath, es[start..])));
  }
}
