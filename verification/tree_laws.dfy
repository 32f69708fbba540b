/** What `from_paths` and `build_partition` promise about the tree's shape:
    one child per distinct value, failure exactly when segment counts or
    keys disagree, the round trip through `files`, the flat case, and
    independence from the order of the input paths. */
module TreeLaws {
  import opened Results
  import opened FileName
  import opened Paths
  import opened Lex
  import opened EntryOrder
  import opened Sorting
  import opened Tree
  import opened TreeProofs

  // ----- One child per value -----

  /** The values at `level` of the entries from `from` on that reach it. */
  function ValuesAt(es: seq<Entry>, level: nat, from: nat): set<string> {
    set j | from <= j < |es| && level < |es[j].segs| :: es[j].segs[level].value
  }

  lemma ValuesAtEnd(es: seq<Entry>, level: nat)
    ensures ValuesAt(es, level, |es|) == {}
  {
  }

  lemma ValuesAtNext(es: seq<Entry>, level: nat, idx: nat)
    requires idx < |es| && level < |es[idx].segs|
    ensures ValuesAt(es, level, idx) == {es[idx].segs[level].value} + ValuesAt(es, level, idx + 1)
  {
  }

  /** The scan from `idx` on stores one child for the current value, one for
      every value after it, and keeps the children it already has. */
  lemma {:induction false} ScanKeys(es: seq<Entry>, level: nat, name: string, idx: nat, current: string,
                                    start: nat, children: map<string, TreeNode>)
    requires 0 < |es| && level < |es[0].segs|
    requires start <= idx <= |es| && (start < idx || idx == 0)
    requires idx == 0 ==> current == es[0].segs[level].value
    requires forall j | 0 <= j < idx :: |es[j].segs| == |es[0].segs|
    requires ScanRuns(es, level, name, idx, current, start, children).Ok?
    ensures ScanRuns(es, level, name, idx, current, start, children).value.Keys ==
            children.Keys + {current} + ValuesAt(es, level, idx)
    decreases |es| - idx, 1
  {
    if idx == |es| {
      var last := BuildPartition(es[start..], level + 1).value;
      assert ScanRuns(es, level, name, idx, current, start, children) == Ok(children[current := last]);
      ValuesAtEnd(es, level);
    } else if es[idx].segs[level].value != current {
      ScanKeysNewRun(es, level, name, idx, current, start, children);
    } else {
      ScanKeysSameRun(es, level, name, idx, current, start, children);
    }
  }

  /** An entry with a new value closes the current run, whose child is
      stored under the current value. */
  lemma {:induction false} ScanKeysNewRun(es: seq<Entry>, level: nat, name: string, idx: nat, current: string,
                                          start: nat, children: map<string, TreeNode>)
    requires 0 < |es| && level < |es[0].segs|
    requires start <= idx < |es| && (start < idx || idx == 0)
    requires idx == 0 ==> current == es[0].segs[level].value
    requires forall j | 0 <= j < idx :: |es[j].segs| == |es[0].segs|
    requires ScanRuns(es, level, name, idx, current, start, children).Ok?
    requires level < |es[idx].segs| && es[idx].segs[level].value != current
    ensures ScanRuns(es, level, name, idx, current, start, children).value.Keys ==
            children.Keys + {current} + ValuesAt(es, level, idx)
    decreases |es| - idx, 0
  {
    var v := es[idx].segs[level].value;
    var child := BuildPartition(es[start..idx], level + 1).value;
    var next := children[current := child];
    assert ScanRuns(es, level, name, idx, current, start, children)
        == ScanRuns(es, level, name, idx + 1, v, idx, next);
    ScanKeys(es, level, name, idx + 1, v, idx, next);
    ValuesAtNext(es, level, idx);
    assert next.Keys == children.Keys + {current};
  }

  /** An entry with the current value extends the run. */
  lemma {:induction false} ScanKeysSameRun(es: seq<Entry>, level: nat, name: string, idx: nat, current: string,
                                           start: nat, children: map<string, TreeNode>)
    requires 0 < |es| && level < |es[0].segs|
    requires start <= idx < |es| && (start < idx || idx == 0)
    requires idx == 0 ==> current == es[0].segs[level].value
    requires forall j | 0 <= j < idx :: |es[j].segs| == |es[0].segs|
    requires ScanRuns(es, level, name, idx, current, start, children).Ok?
    requires level < |es[idx].segs| && es[idx].segs[level].value == current
    ensures ScanRuns(es, level, name, idx, current, start, children).value.Keys ==
            children.Keys + {current} + ValuesAt(es, level, idx)
    decreases |es| - idx, 0
  {
    assert ScanRuns(es, level, name, idx, current, start, children)
        == ScanRuns(es, level, name, idx + 1, current, start, children);
    ScanKeys(es, level, name, idx + 1, current, start, children);
    ValuesAtNext(es, level, idx);
  }

  /** A partition built at `level` has exactly one child per value found at
      that level. */
  lemma BuildKeys(es: seq<Entry>, level: nat)
    requires 0 < |es| && level < |es[0].segs|
    requires BuildPartition(es, level).Ok?
    ensures BuildPartition(es, level).value.Partition?
    ensures BuildPartition(es, level).value.values.Keys == ValuesAt(es, level, 0)
  {
    var first := es[0].segs[level];
    ScanKeys(es, level, first.key, 0, first.value, 0, map[]);
  }

  // ----- One child per run -----

  /** Every entry reaches `level` and has the key `name` there. */
  predicate OneKey(es: seq<Entry>, level: nat, name: string) {
    forall j | 0 <= j < |es| :: level < |es[j].segs| && es[j].segs[level].key == name
  }

  /** In sorted entries sharing the prefix `S` and the key after it, the
      values after the prefix never decrease. */
  lemma ValueOrder(es: seq<Entry>, S: seq<KV>, i: nat, j: nat)
    requires Chain(es, EntryLe) && SharePrefix(es, S) && i <= j < |es|
    requires |S| < |es[i].segs| && |S| < |es[j].segs| && es[i].segs[|S|].key == es[j].segs[|S|].key
    ensures es[i].segs[|S|].value == es[j].segs[|S|].value || StrLt(es[i].segs[|S|].value, es[j].segs[|S|].value)
  {
    var a, b := es[i], es[j];
    if i < j && a.segs != b.segs {
      EntryLeTotalOrder();
      ChainSorted(es, EntryLe);
      assert EntryLe(a, b);
      assert a in es && b in es;
      assert a.segs[..|S|] == b.segs[..|S|];
      LexAfterPrefix(a.segs, b.segs, |S|, KVLt);
      StrLtStrictTotal();
    }
  }

  /** The start of the run of `v` that holds entry `j`. */
  lemma {:induction false} FirstOfRun(es: seq<Entry>, level: nat, name: string, v: string, j: nat)
    returns (lo: nat)
    requires OneKey(es, level, name) && j < |es| && es[j].segs[level].value == v
    ensures lo <= j && es[lo].segs[level].value == v
    ensures lo == 0 || es[lo - 1].segs[level].value != v
    decreases j
  {
    if j > 0 && es[j - 1].segs[level].value == v {
      lo := FirstOfRun(es, level, name, v, j - 1);
    } else {
      lo := j;
    }
  }

  /** The end of the run of `v` that holds entry `j`. */
  lemma {:induction false} EndOfRun(es: seq<Entry>, level: nat, name: string, v: string, j: nat)
    returns (hi: nat)
    requires OneKey(es, level, name) && j < |es| && es[j].segs[level].value == v
    ensures j < hi <= |es| && es[hi - 1].segs[level].value == v
    ensures hi == |es| || es[hi].segs[level].value != v
    decreases |es| - j
  {
    if j + 1 < |es| && es[j + 1].segs[level].value == v {
      hi := EndOfRun(es, level, name, v, j + 1);
    } else {
      hi := j + 1;
    }
  }

  /** Following `<=` and then `<` on strings gives `<`, so the ends differ. */
  lemma StrBelow(a: string, b: string, c: string)
    requires a == b || StrLt(a, b)
    requires StrLt(b, c)
    ensures StrLt(a, c) && a != c
  {
    StrLtStrictTotal();
  }

  /** Following `<` and then `<=` on strings gives `<`, so the ends differ. */
  lemma StrAbove(a: string, b: string, c: string)
    requires StrLt(a, b)
    requires b == c || StrLt(b, c)
    ensures StrLt(a, c) && a != c
  {
    StrLtStrictTotal();
  }

  /** `<=` on strings is antisymmetric. */
  lemma StrBetween(a: string, b: string)
    requires a == b || StrLt(a, b)
    requires b == a || StrLt(b, a)
    ensures a == b
  {
    StrLtStrictTotal();
  }

  /** The values the entries have at `level`, in entry order. */
  function ValuesOf(es: seq<Entry>, level: nat, name: string): (vs: seq<string>)
    requires OneKey(es, level, name)
    ensures |vs| == |es| && forall j | 0 <= j < |es| :: vs[j] == es[j].segs[level].value
  {
    seq(|es|, j requires 0 <= j < |es| => es[j].segs[level].value)
  }

  /** Strings in non-decreasing order. */
  predicate Ascending(vs: seq<string>) {
    forall i, k | 0 <= i <= k < |vs| :: vs[i] == vs[k] || StrLt(vs[i], vs[k])
  }

  /** Sorted entries below a shared prefix and key have ascending values. */
  lemma ValuesAscending(es: seq<Entry>, S: seq<KV>, name: string)
    requires Chain(es, EntryLe) && SharePrefix(es, S) && OneKey(es, |S|, name)
    ensures Ascending(ValuesOf(es, |S|, name))
  {
    var vs := ValuesOf(es, |S|, name);
    forall i, k | 0 <= i <= k < |vs|
      ensures vs[i] == vs[k] || StrLt(vs[i], vs[k])
    {
      ValueOrder(es, S, i, k);
    }
  }

  /** Values before a maximal run of `v` differ from `v`. */
  lemma BeforeRun(vs: seq<string>, v: string, lo: nat, j: nat)
    requires Ascending(vs) && j < lo < |vs| && vs[lo] == v && vs[lo - 1] != v
    ensures vs[j] != v
  {
    StrBelow(vs[j], vs[lo - 1], v);
  }

  /** Values after a maximal run of `v` differ from `v`. */
  lemma AfterRun(vs: seq<string>, v: string, hi: nat, j: nat)
    requires Ascending(vs) && 0 < hi <= j < |vs| && vs[hi - 1] == v && vs[hi] != v
    ensures vs[j] != v
  {
    StrAbove(v, vs[hi], vs[j]);
  }

  /** Values between two values `v` are `v`. */
  lemma InsideRun(vs: seq<string>, v: string, lo: nat, hi: nat, j: nat)
    requires Ascending(vs) && lo <= j < hi <= |vs| && vs[lo] == v && vs[hi - 1] == v
    ensures vs[j] == v
  {
    StrBetween(v, vs[j]);
  }

  /** A maximal run of `v` in ascending values holds every `v`. */
  lemma RunContiguous(vs: seq<string>, v: string, lo: nat, hi: nat)
    requires Ascending(vs) && lo < hi <= |vs| && vs[lo] == v && vs[hi - 1] == v
    requires lo == 0 || vs[lo - 1] != v
    requires hi == |vs| || vs[hi] != v
    ensures forall j | 0 <= j < |vs| :: vs[j] == v <==> lo <= j < hi
  {
    forall j | 0 <= j < |vs|
      ensures vs[j] == v <==> lo <= j < hi
    {
      if j < lo {
        BeforeRun(vs, v, lo, j);
      } else if j < hi {
        InsideRun(vs, v, lo, hi, j);
      } else {
        AfterRun(vs, v, hi, j);
      }
    }
  }

  /** The scan never replaces a child it has stored: later runs have larger
      values. */
  lemma {:induction false} ScanKeeps(es: seq<Entry>, S: seq<KV>, d: nat, name: string, idx: nat, cur: string,
                                     start: nat, children: map<string, TreeNode>, res: map<string, TreeNode>)
    requires ScanState(es, S, d, name, idx, cur, start, children)
    requires ScanRuns(es, |S|, name, idx, cur, start, children) == Ok(res)
    ensures forall k | k in children :: k in res && res[k] == children[k]
    decreases |es| - idx
  {
    if idx == |es| {
      KeepsAtEnd(es, S, d, name, cur, start, children, res);
    } else {
      var cur1, start1, children1 := ScanStep(es, S, d, name, idx, cur, start, children, res);
      ScanKeeps(es, S, d, name, idx + 1, cur1, start1, children1, res);
    }
  }

  /** Storing the last run leaves the earlier children in place. */
  lemma KeepsAtEnd(es: seq<Entry>, S: seq<KV>, d: nat, name: string, cur: string,
                   start: nat, children: map<string, TreeNode>, res: map<string, TreeNode>)
    requires ScanState(es, S, d, name, |es|, cur, start, children)
    requires ScanRuns(es, |S|, name, |es|, cur, start, children) == Ok(res)
    ensures forall k | k in children :: k in res && res[k] == children[k]
  {
    var last := BuildPartition(es[start..], |S| + 1).value;
    assert res == children[cur := last];
    CurNotStored(children, cur);
  }

  /** The current value is not among the stored children. */
  lemma CurNotStored(children: map<string, TreeNode>, cur: string)
    requires ValuesBelow(children, cur)
    ensures cur !in children
  {
    StrLtStrictTotal();
  }

  /** The run of `cur` that started at `start` and ends at `hi` is built one
      level down and stored as the child for `cur`. */
  lemma {:induction false} ScanRunChild(es: seq<Entry>, S: seq<KV>, d: nat, name: string, idx: nat, cur: string,
                                        start: nat, children: map<string, TreeNode>, res: map<string, TreeNode>,
                                        hi: nat)
    requires ScanState(es, S, d, name, idx, cur, start, children)
    requires ScanRuns(es, |S|, name, idx, cur, start, children) == Ok(res)
    requires idx <= hi <= |es|
    requires forall j | idx <= j < hi :: |S| < |es[j].segs| && es[j].segs[|S|].value == cur
    requires hi < |es| ==> |S| < |es[hi].segs| && es[hi].segs[|S|].value != cur
    ensures cur in res && BuildPartition(es[start..hi], |S| + 1) == Ok(res[cur])
    decreases hi - idx
  {
    if idx < hi {
      ScanStepSame(es, S, d, name, idx, cur, start, children, res);
      ScanRunChild(es, S, d, name, idx + 1, cur, start, children, res, hi);
    } else if idx == |es| {
      LastRunChild(es, S, d, name, cur, start, children, res);
    } else {
      ChangedRunChild(es, S, d, name, idx, cur, start, children, res);
    }
  }

  /** A run closed by an entry of another value is stored as the child for
      its value and kept to the end. */
  lemma ChangedRunChild(es: seq<Entry>, S: seq<KV>, d: nat, name: string, idx: nat, cur: string,
                        start: nat, children: map<string, TreeNode>, res: map<string, TreeNode>)
    requires ScanState(es, S, d, name, idx, cur, start, children)
    requires ScanRuns(es, |S|, name, idx, cur, start, children) == Ok(res)
    requires idx < |es| && |S| < |es[idx].segs| && es[idx].segs[|S|].value != cur
    ensures cur in res && BuildPartition(es[start..idx], |S| + 1) == Ok(res[cur])
  {
    var child := ScanStepChange(es, S, d, name, idx, cur, start, children, res);
    ScanKeeps(es, S, d, name, idx + 1, es[idx].segs[|S|].value, idx, children[cur := child], res);
  }

  /** The last run is stored as the child for its value. */
  lemma LastRunChild(es: seq<Entry>, S: seq<KV>, d: nat, name: string, cur: string,
                     start: nat, children: map<string, TreeNode>, res: map<string, TreeNode>)
    requires ScanState(es, S, d, name, |es|, cur, start, children)
    requires ScanRuns(es, |S|, name, |es|, cur, start, children) == Ok(res)
    ensures cur in res && BuildPartition(es[start..|es|], |S| + 1) == Ok(res[cur])
  {
    var last := BuildPartition(es[start..], |S| + 1).value;
    assert res == children[cur := last];
    assert es[start..] == es[start..|es|];
  }

  /** The scan, followed up to entry `t`: its state there. */
  lemma {:induction false} ScanTo(es: seq<Entry>, S: seq<KV>, d: nat, name: string, idx: nat, cur: string,
                                  start: nat, children: map<string, TreeNode>, res: map<string, TreeNode>, t: nat)
    returns (cur2: string, start2: nat, children2: map<string, TreeNode>)
    requires ScanState(es, S, d, name, idx, cur, start, children)
    requires ScanRuns(es, |S|, name, idx, cur, start, children) == Ok(res)
    requires idx <= t <= |es|
    ensures ScanState(es, S, d, name, t, cur2, start2, children2)
    ensures ScanRuns(es, |S|, name, t, cur2, start2, children2) == Ok(res)
    decreases t - idx
  {
    if idx == t {
      cur2, start2, children2 := cur, start, children;
    } else {
      var cur1, start1, children1 := ScanStep(es, S, d, name, idx, cur, start, children, res);
      cur2, start2, children2 := ScanTo(es, S, d, name, idx + 1, cur1, start1, children1, res, t);
    }
  }

  /** One step of the scan keeps its state and its result. */
  lemma ScanStep(es: seq<Entry>, S: seq<KV>, d: nat, name: string, idx: nat, cur: string,
                 start: nat, children: map<string, TreeNode>, res: map<string, TreeNode>)
    returns (cur2: string, start2: nat, children2: map<string, TreeNode>)
    requires ScanState(es, S, d, name, idx, cur, start, children)
    requires ScanRuns(es, |S|, name, idx, cur, start, children) == Ok(res)
    requires idx < |es|
    ensures ScanState(es, S, d, name, idx + 1, cur2, start2, children2)
    ensures ScanRuns(es, |S|, name, idx + 1, cur2, start2, children2) == Ok(res)
    ensures forall k | k in children :: k in children2 && children2[k] == children[k]
  {
    assert es[0] in es && es[idx] in es;
    if es[idx].segs[|S|].value != cur {
      var child := ScanStepChange(es, S, d, name, idx, cur, start, children, res);
      CurNotStored(children, cur);
      cur2, start2, children2 := es[idx].segs[|S|].value, idx, children[cur := child];
    } else {
      ScanStepSame(es, S, d, name, idx, cur, start, children, res);
      cur2, start2, children2 := cur, start, children;
    }
  }

  /** When building succeeds, every entry has the depth and the key of the
      first one. */
  lemma BuildLevel(es: seq<Entry>, level: nat)
    requires 0 < |es| && level < |es[0].segs| && BuildPartition(es, level).Ok?
    ensures OneKey(es, level, es[0].segs[level].key) && SameDepth(es, |es[0].segs|)
  {
    BuildUniform(es, level);
    forall e | e in es
      ensures |e.segs| == |es[0].segs|
    {
      var j :| 0 <= j < |es| && es[j] == e;
    }
  }

  /** The entries with a value `v` of the partition form one contiguous run
      of sorted entries. */
  lemma ChildRunBounds(es: seq<Entry>, S: seq<KV>, v: string) returns (lo: nat, hi: nat)
    requires Chain(es, EntryLe) && SharePrefix(es, S) && 0 < |es| && |S| < |es[0].segs|
    requires BuildPartition(es, |S|).Ok? && v in BuildPartition(es, |S|).value.values
    ensures OneKey(es, |S|, es[0].segs[|S|].key) && SameDepth(es, |es[0].segs|)
    ensures lo < hi <= |es|
    ensures forall j | 0 <= j < |es| :: es[j].segs[|S|].value == v <==> lo <= j < hi
  {
    var name := es[0].segs[|S|].key;
    BuildLevel(es, |S|);
    BuildKeys(es, |S|);
    assert v in ValuesAt(es, |S|, 0);
    var j :| 0 <= j < |es| && |S| < |es[j].segs| && es[j].segs[|S|].value == v;
    lo, hi := RunOfValue(es, S, name, v, j);
  }

  /** In sorted entries sharing a prefix and a key, the run of `v` around
      entry `j` holds exactly the entries with `v`. */
  lemma RunOfValue(es: seq<Entry>, S: seq<KV>, name: string, v: string, j: nat) returns (lo: nat, hi: nat)
    requires Chain(es, EntryLe) && SharePrefix(es, S) && OneKey(es, |S|, name)
    requires j < |es| && es[j].segs[|S|].value == v
    ensures lo <= j < hi <= |es|
    ensures forall k | 0 <= k < |es| :: es[k].segs[|S|].value == v <==> lo <= k < hi
  {
    lo := FirstOfRun(es, |S|, name, v, j);
    hi := EndOfRun(es, |S|, name, v, j);
    var vs := ValuesOf(es, |S|, name);
    ValuesAscending(es, S, name);
    RunContiguous(vs, v, lo, hi);
  }

  /** Once the scan has passed the first entry of a maximal run, the current
      run is that run. */
  lemma RunStart(es: seq<Entry>, S: seq<KV>, name: string, v: string, lo: nat, hi: nat, cur: string, start: nat)
    requires 0 < |es| && |S| < |es[0].segs| && OneKey(es, |S|, name)
    requires lo < hi <= |es| && forall j | 0 <= j < |es| :: es[j].segs[|S|].value == v <==> lo <= j < hi
    requires ScanCursor(es, S, name, lo + 1, cur, start)
    ensures start == lo && cur == v
  {
    assert es[lo].segs[|S|] == KV(name, cur);
    assert es[start].segs[|S|] == KV(name, cur);
  }

  /** The child the scan stores for a run's value is the run built one
      level down. */
  lemma ChildOfRun(es: seq<Entry>, S: seq<KV>, v: string, lo: nat, hi: nat)
    requires Chain(es, EntryLe) && SharePrefix(es, S) && 0 < |es| && |S| < |es[0].segs|
    requires OneKey(es, |S|, es[0].segs[|S|].key) && SameDepth(es, |es[0].segs|)
    requires BuildPartition(es, |S|).Ok?
    requires lo < hi <= |es| && forall j | 0 <= j < |es| :: es[j].segs[|S|].value == v <==> lo <= j < hi
    ensures BuildPartition(es, |S|).value.Partition?
    ensures v in BuildPartition(es, |S|).value.values
    ensures BuildPartition(es[lo..hi], |S| + 1) == Ok(BuildPartition(es, |S|).value.values[v])
  {
    var first := es[0].segs[|S|];
    var d := |es[0].segs|;
    var res := BuildPartition(es, |S|).value.values;
    assert ScanRuns(es, |S|, first.key, 0, first.value, 0, map[]) == Ok(res);
    assert ScanState(es, S, d, first.key, 0, first.value, 0, map[]);
    var cur, start, children := ScanTo(es, S, d, first.key, 0, first.value, 0, map[], res, lo + 1);
    RunStart(es, S, first.key, v, lo, hi, cur, start);
    ScanRunChild(es, S, d, first.key, lo + 1, v, lo, children, res, hi);
  }

  /** In sorted entries below a shared prefix, the entries with a value `v`
      of the partition form one contiguous run, and the child for `v` is
      that run built one level down. */
  lemma BuildChildRun(es: seq<Entry>, S: seq<KV>, v: string) returns (lo: nat, hi: nat)
    requires Chain(es, EntryLe) && SharePrefix(es, S) && 0 < |es| && |S| < |es[0].segs|
    requires BuildPartition(es, |S|).Ok? && v in BuildPartition(es, |S|).value.values
    ensures lo < hi <= |es|
    ensures forall j | 0 <= j < |es| :: |S| < |es[j].segs| && (es[j].segs[|S|].value == v <==> lo <= j < hi)
    ensures BuildPartition(es[lo..hi], |S| + 1) == Ok(BuildPartition(es, |S|).value.values[v])
  {
    lo, hi := ChildRunBounds(es, S, v);
    ChildOfRun(es, S, v, lo, hi);
  }

  /** At the root of a built tree, each child is the run of the (sorted)
      entries with its value at the first level, built from the second
      level on. */
  lemma RootChildRun(es: seq<Entry>, sorted: seq<Entry>, v: string) returns (lo: nat, hi: nat)
    requires Sorted(sorted, EntryLe) && multiset(sorted) == multiset(es)
    requires BuildTree(es).Ok? && BuildTree(es).value.root.Partition?
    requires v in BuildTree(es).value.root.values
    ensures lo < hi <= |sorted|
    ensures forall j | 0 <= j < |sorted| :: 0 < |sorted[j].segs| && (sorted[j].segs[0].value == v <==> lo <= j < hi)
    ensures BuildPartition(sorted[lo..hi], 1) == Ok(BuildTree(es).value.root.values[v])
  {
    EntryLeTotalOrder();
    ChainSorted(sorted, EntryLe);
    assert BuildTree(es).value.root == BuildPartition(sorted, 0).value;
    assert SharePrefix(sorted, []);
    lo, hi := BuildChildRun(sorted, [], v);
  }

  // ----- When building succeeds -----

  /** A partition is only built when every entry has the first entry's
      segment count and its key at `level`: otherwise the build fails. */
  lemma BuildUniform(es: seq<Entry>, level: nat)
    requires 0 < |es| && level < |es[0].segs|
    requires BuildPartition(es, level).Ok?
    ensures forall j | 0 <= j < |es| ::
              |es[j].segs| == |es[0].segs| && es[j].segs[level].key == es[0].segs[level].key
  {
    var first := es[0].segs[level];
    assert ScanRuns(es, level, first.key, 0, first.value, 0, map[]).Ok?;
  }

  /** The failure side of `BuildUniform`: one entry with another segment
      count, or another key at `level`, makes the build fail. */
  lemma BuildMismatchFails(es: seq<Entry>, level: nat, j: nat)
    requires 0 < |es| && level < |es[0].segs| && j < |es|
    requires |es[j].segs| != |es[0].segs| || (level < |es[j].segs| && es[j].segs[level].key != es[0].segs[level].key)
    ensures BuildPartition(es, level).Err?
  {
    if BuildPartition(es, level).Ok? {
      BuildUniform(es, level);
    }
  }

  /** Sorted entries of one depth sharing a prefix, whose keys agree wherever
      their segments do, always build. */
  lemma {:induction false} BuildSucceeds(es: seq<Entry>, S: seq<KV>, d: nat)
    requires Chain(es, EntryLe) && SameDepth(es, d) && SharePrefix(es, S) && ConsistentKeys(es)
    ensures BuildPartition(es, |S|).Ok?
    decreases Remaining(es, |S|), 1, 0, 0
  {
    if |es| > 0 && |S| < |es[0].segs| {
      assert es[0] in es;
      var first := es[0].segs[|S|];
      assert ScanState(es, S, d, first.key, 0, first.value, 0, map[]);
      ScanSucceeds(es, S, d, first.key, 0, first.value, 0, map[]);
    }
  }

  /** Every entry after the first has the first entry's key at level `|S|`:
      both start with `S`, and their keys agree there. */
  lemma SameKey(es: seq<Entry>, S: seq<KV>, d: nat, idx: nat)
    requires SameDepth(es, d) && SharePrefix(es, S) && ConsistentKeys(es)
    requires idx < |es| && |S| < d
    ensures es[idx].segs[|S|].key == es[0].segs[|S|].key
  {
    var x, y := es[0], es[idx];
    assert x in es && y in es;
    assert KeysAgree(x, y);
    assert x.segs[..|S|] == y.segs[..|S|];
  }

  lemma {:induction false} ScanSucceeds(es: seq<Entry>, S: seq<KV>, d: nat, name: string, idx: nat, cur: string,
                                        start: nat, children: map<string, TreeNode>)
    requires ScanState(es, S, d, name, idx, cur, start, children)
    requires ConsistentKeys(es) && name == es[0].segs[|S|].key
    ensures ScanRuns(es, |S|, name, idx, cur, start, children).Ok?
    decreases Remaining(es, |S|), 0, |es| - idx, 1
  {
    if idx == |es| {
      assert es[start..] == es[start..|es|];
      RunSucceeds(es, S, d, name, |es|, cur, start);
    } else if es[idx].segs[|S|].value != cur {
      ScanSucceedsNewRun(es, S, d, name, idx, cur, start, children);
    } else {
      ScanSucceedsSameRun(es, S, d, name, idx, cur, start, children);
    }
  }

  /** An entry with a new value: the finished run builds, and so does the rest. */
  lemma {:induction false} ScanSucceedsNewRun(es: seq<Entry>, S: seq<KV>, d: nat, name: string, idx: nat,
                                              cur: string, start: nat, children: map<string, TreeNode>)
    requires ScanState(es, S, d, name, idx, cur, start, children)
    requires ConsistentKeys(es) && name == es[0].segs[|S|].key
    requires idx < |es| && es[idx].segs[|S|].value != cur
    ensures ScanRuns(es, |S|, name, idx, cur, start, children).Ok?
    decreases Remaining(es, |S|), 0, |es| - idx, 0
  {
    assert es[0] in es && es[idx] in es;
    SameKey(es, S, d, idx);
    var v := es[idx].segs[|S|].value;
    RunSucceeds(es, S, d, name, idx, cur, start);
    var child := BuildPartition(es[start..idx], |S| + 1).value;
    ScanAdvance(es, S, d, name, idx, cur, start, children, child);
    ScanSucceeds(es, S, d, name, idx + 1, v, idx, children[cur := child]);
  }

  /** An entry with the current value: the run grows, and the rest builds. */
  lemma {:induction false} ScanSucceedsSameRun(es: seq<Entry>, S: seq<KV>, d: nat, name: string, idx: nat,
                                               cur: string, start: nat, children: map<string, TreeNode>)
    requires ScanState(es, S, d, name, idx, cur, start, children)
    requires ConsistentKeys(es) && name == es[0].segs[|S|].key
    requires idx < |es| && es[idx].segs[|S|].value == cur
    ensures ScanRuns(es, |S|, name, idx, cur, start, children).Ok?
    decreases Remaining(es, |S|), 0, |es| - idx, 0
  {
    assert es[0] in es && es[idx] in es;
    SameKey(es, S, d, idx);
    ScanExtend(es, S, d, name, idx, cur, start, children);
    ScanSucceeds(es, S, d, name, idx + 1, cur, start, children);
  }

  /** A finished run of consistent entries builds one level down. */
  lemma {:induction false} RunSucceeds(es: seq<Entry>, S: seq<KV>, d: nat, name: string, idx: nat, cur: string,
                                       start: nat)
    requires Grouped(es, S, d) && ConsistentKeys(es) && start < idx <= |es|
    requires forall j | start <= j < idx :: es[j].segs[|S|] == KV(name, cur)
    ensures BuildPartition(es[start..idx], |S| + 1).Ok?
    decreases Remaining(es, |S|), 0, 0, 0
  {
    var kv := KV(name, cur);
    assert es[0] in es;
    RunShape(es, S, d, kv, start, idx);
    RunSorted(es, start, idx);
    RunConsistent(es, start, idx);
    BuildSucceeds(es[start..idx], S + [kv], d);
  }
}
