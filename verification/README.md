# delta-tree, modelled in Dafny

delta-tree reads the file list of a Delta Lake table and arranges it as a
partition tree. Each path looks like `a=1/b=7/part-00007-<uuid>.c002.snappy.parquet`.
Its directory segments `key=value` become nested `Partition` nodes, and its
data files become `FileEntries` leaves. The tree can be flattened back into
paths.

This project models the core of that crate (`src/tree/mod.rs`) and proves
what its code and tests promise:

- **File-name codec.** The regular expression and `ParquetDeltaFile::from_string`
  live in `FileName`. `name` is `FileName.Name`. Their round trips are in
  `FileNameProofs`, and the concrete test names are in `FileNameExamples`.
  Digit text and Unicode `\d` live in `Numerals`. The codec enum is in
  `Compression`.
- **Path parsing.** `split('/')`, `key_value` and `parse_path` live in `Paths`.
  Both round trips between a path and its parsed entry are proved in
  `PathProofs`.
- **Ordering and sorting.** `Lex` and `EntryOrder` give the derived ordering of
  the parsed `(segments, file)` tuple. `Sorting` holds the sort step.
- **The tree.** `from_paths`, `build_partition` and `files` live in `Tree`.
  Their laws are in `TreeProofs`, `TreeLaws` and `DeltaTreeLaws`: the build and
  flatten round trip, one child per value, the failure conditions,
  independence from input order, and the flat case. The nested-partitions test
  is in `TreeExamples`.

A Rust panic (`unwrap`, `panic!`, `assert_eq!`) is modelled as an `Err` of
the `Results.Error` datatype. Each error says which check failed.

The model follows the code as written:

- The file-name expression is anchored only at its start.
- The `.` before `parquet` is not escaped, so it matches any character except
  a line feed.
- `\d` matches every Unicode decimal digit. The `u32::MAX` fallback for the
  partition field is reachable, but only through non-ASCII digits: five ASCII
  digits never overflow.
- `build_partition` checks segment counts only when the first entry of a
  slice has a segment at the current level (see Findings).

## Model

| member | source | states |
|---|---|---|
| Compression.FromStr | src/tree/mod.rs:48-56 | Exactly the tokens `snappy`, `gzip` and `none` are accepted. Every other token is the unknown-compression error. |
| Compression.TokenBijection | src/tree/mod.rs:48-64 | `from_str` and `to_string` are inverses: a token parses to a codec exactly when that codec prints as the token. |
| FileName.MatchName | src/tree/mod.rs:67-75 | A match means the name starts with `part-`, five `\d`, a hyphenated 36-character hex uuid, `.c`, three `\d`, `.` and a codec token, followed by any non-newline character and `parquet`. The captures are exactly those fields. |
| FileName.MatchOfShape | src/tree/mod.rs:67-75 | Every string of that shape is matched, whatever text follows it, and its captures are its fields. |
| FileName.PartitionOf | src/tree/mod.rs:80-82 | ASCII digits give the partition's decimal value. Any other matched digits give `u32::MAX`. |
| FileName.ClusterOf | src/tree/mod.rs:84 | The cluster field parses as a `u8` exactly when its three characters are ASCII digits of a value below 256, and the result is that value. |
| FileName.FromCaptures | src/tree/mod.rs:80-92 | Succeeds exactly when the cluster field parses as a `u8`. On success the record holds the partition as `PartitionOf` reads it, the uuid read as 128-bit hex, the parsed cluster, and the codec that prints as the token. |
| FileName.FromString | src/tree/mod.rs:78-96 | Succeeds exactly when the expression matches and the cluster field parses as a `u8`. A rejected name is a name-mismatch error, which is a panic in the source. A bad cluster is the cluster error. On success the record's partition, uuid, cluster and codec are the matched fields read as numbers and as a codec. |
| FileNameProofs.ParseOfName | src/tree/mod.rs:78-106 | Parsing a rendered name gives back the record exactly when the partition fits in five digits. |
| FileNameProofs.LongNameFails | src/tree/mod.rs:97-106 | A partition of 100000 or more renders a name that does not parse. |
| FileNameProofs.NameIsCanonical | src/tree/mod.rs:97-106 | A name rendered from a record whose partition is below 100000 is canonical: ASCII digits, lower-case hex, a `u8` cluster, a literal `.` before `parquet`, and nothing after it. |
| FileNameProofs.NameRoundTrip | src/tree/mod.rs:290-296 | Every canonical name parses, and rendering the result gives the same name. A canonical name has ASCII digits, lower-case hex, a `u8` cluster, a literal `.` before `parquet`, and no trailing text. |
| FileNameProofs.PartitionFallback | src/tree/mod.rs:80-82 | The partition is `u32::MAX` exactly when its field is not all ASCII digits. Otherwise it is below 100000. |
| FileNameProofs.ClusterOverflow | src/tree/mod.rs:84 | For an ASCII cluster field, parsing fails exactly when the cluster's value exceeds 255. |
| FileNameExamples.RegexCaptures | src/tree/mod.rs:378-386 | The test name with cluster `003` yields the captures `00009`, `477077ae-1429-4633-b07a-0c0cb75caf55`, `003` and `snappy`. |
| FileNameExamples.UuidLiteral | src/tree/mod.rs:383 | The test uuid's hex digits, hyphenated 8-4-4-4-12, are the uuid text the captures test expects. |
| FileNameExamples.FileNameParse | src/tree/mod.rs:363-376 | The test name `part-00009-477077ae-1429-4633-b07a-0c0cb75caf55.c177.snappy.parquet` parses to partition 9, uuid 94959152347567637375526247419927637845, cluster 177 and snappy. |
| Paths.KeyValue | src/tree/mod.rs:160-169 | None exactly when the segment has no `=`. Otherwise the key contains no `=`, and key, `=` and value concatenate back to the segment. |
| Paths.KeyValueOfText | src/tree/mod.rs:160-169 | `key_value` inverts writing `key=value`, provided the key contains no `=`. |
| Paths.KeyValueExample | src/tree/mod.rs:390-396 | `a=13` splits into key `a` and value `13`. |
| Paths.KeyValueNoEquals | src/tree/mod.rs:397 | `askaban` is not a key-value segment. |
| Paths.KeyValueFirstEquals | src/tree/mod.rs:398-404 | A value may contain `=`: the split is at the first one. |
| Paths.Split | src/tree/mod.rs:122 | Splitting on `/` gives at least one piece, and no piece contains `/`. |
| Paths.JoinSplit | src/tree/mod.rs:122 | Joining the pieces of a split with `/` restores the path. |
| Paths.SplitJoin | src/tree/mod.rs:122 | Splitting a `/`-join of pieces that contain no `/` gives back those pieces. |
| Paths.ParsePath | src/tree/mod.rs:151-158 | Succeeds exactly when the last piece is a valid file name and every directory piece holds an `=`. The file-name error takes precedence, because the source parses the file name first. |
| PathProofs.PathRoundTrip | src/tree/mod.rs:151-158 | A parsed path with a canonical file name renders back to itself. |
| PathProofs.ParseOfPath | src/tree/mod.rs:151-158 | An entry with slash-free segments, `=`-free keys and a five-digit partition parses back from its rendered path. |
| EntryOrder.EntryLeTotalOrder | src/tree/mod.rs:27-39 | The derived ordering of `(segments, file)` is a total order: segments lexicographically by key and then value, then file by partition, uuid, cluster and codec in declaration order. |
| Sorting.Sort | src/tree/mod.rs:124 | The result is sorted and is a permutation of the input. |
| Sorting.SortIsUnique | src/tree/mod.rs:124 | Under a total order, any sorted permutation of the input is the sort's result. |
| Tree.BuildPartition | src/tree/mod.rs:171-205 | An empty slice is an empty leaf. If the first entry has no segment at the current level, the slice is a leaf of all files in order. Otherwise, on success, it is a partition on the first entry's key. |
| Tree.ScanRuns | src/tree/mod.rs:180-193 | When the scan succeeds, every entry it has not yet visited has the first entry's segment count and the partition's key. |
| Tree.ParseAll | src/tree/mod.rs:120-123 | Succeeds exactly when every path parses, and then yields each path's entry in order. Otherwise it fails with the first failing path's error. |
| Tree.FromPaths | src/tree/mod.rs:114-129 | No paths give the empty leaf. A failing path's parse error is the result's error. |
| Tree.BuildTree | src/tree/mod.rs:124-127 | For every sorted rearrangement of the entries, the tree exists exactly when `build_partition` at level 0 succeeds on it, and its root is that build. So the result does not depend on which sort is used. |
| Tree.CheckDepth | src/tree/mod.rs:181 | Succeeds, returning the entries unchanged, exactly when every entry has the given segment count. Otherwise it reports an entry whose count differs, with the expected count. |
| Tree.FromPathsStrict | src/tree/mod.rs:114-129 | The corrected `from_paths`. It agrees with `from_paths` on the empty input and on parse errors. |
| Tree.BuildTreeStrict | src/tree/mod.rs:171-205 | When all entries have the same depth it equals `Tree.BuildTree`. Otherwise it is a segment-count mismatch naming the count of an entry that differs from the expected one. |
| TreeProofs.LeafPathsReadBack | src/tree/mod.rs:134-137 | A leaf yields one path per file, in order. Each starts with the prefix, and what follows the prefix parses back to that file exactly when its partition is below 100000. |
| Tree.ChildrenRemove | src/tree/mod.rs:138-144 | A partition's paths are one child's paths under `name=value/` plus the paths of the remaining children. |
| Tree.FilesInSubtree | src/tree/mod.rs:132-146 | The output is, as a multiset, every leaf file's name under the `name=value/` prefixes on its way down. |
| Tree.Files | src/tree/mod.rs:131-149 | `files` yields, as a multiset, every file under the root with its full path. |
| TreeProofs.BuildFlattens | src/tree/mod.rs:171-205 | Flattening what `build_partition` built from sorted, uniform-depth entries below a shared prefix gives exactly those entries' paths. |
| TreeProofs.LeafFlattens | src/tree/mod.rs:198-200 | A leaf built from entries with no segment left renders each file with the shared prefix, giving each entry's own path. |
| TreeLaws.BuildKeys | src/tree/mod.rs:180-193 | A partition has exactly one child per distinct value found at its level. |
| TreeLaws.BuildChildRun | src/tree/mod.rs:180-193 | In sorted entries below a shared prefix, the entries with a child's value at the level form one contiguous run, and that child is the run built one level down. |
| TreeLaws.RootChildRun | src/tree/mod.rs:124-127 | At the root of a built tree, the entries with a child's value form one contiguous run of any sorted arrangement, and the child is that run built from the next level. |
| TreeLaws.BuildUniform | src/tree/mod.rs:181-183 | A successful partition build means every entry has the first entry's segment count and key at that level. |
| TreeLaws.BuildMismatchFails | src/tree/mod.rs:181-183 | One entry with another segment count, or another key at the level, makes the build fail. |
| TreeLaws.BuildSucceeds | src/tree/mod.rs:171-205 | Sorted entries of one depth, sharing a prefix, whose keys agree wherever their segments do, always build. |
| DeltaTreeLaws.PathsOfEntries | src/tree/mod.rs:151-158 | Readable paths render back from their parsed entries, in order. |
| DeltaTreeLaws.BuildTreeFlattens | src/tree/mod.rs:114-149 | Entries of one depth with consistent keys build a tree whose files are exactly their paths. |
| DeltaTreeLaws.TreeRoundTrip | src/tree/mod.rs:262-269 | Readable paths of one depth with consistent keys build a tree, and flattening it gives the same paths as a multiset. |
| DeltaTreeLaws.RoundTrip | src/tree/mod.rs:298-318 | Building then calling `files` returns the input paths up to order. |
| DeltaTreeLaws.FlatTree | src/tree/mod.rs:198-200 | Entries without directories build a single leaf holding their files, ordered by the files' derived order. |
| DeltaTreeLaws.FlatTable | src/tree/mod.rs:245-260 | Paths without directories give a root leaf holding every parsed file once, in ascending order. |
| DeltaTreeLaws.ParsePermuted | src/tree/mod.rs:120-123 | Rearranging the paths keeps parsing successful, and rearranges the entries the same way. |
| DeltaTreeLaws.BuildTreePermuted | src/tree/mod.rs:124-127 | The tree does not depend on the order of the entries. |
| DeltaTreeLaws.OrderIndependent | src/tree/mod.rs:120-127 | Two arrangements of the same parseable paths give the same tree. |
| DeltaTreeLaws.StrictAgrees | src/tree/mod.rs:114-129 | On paths of one depth the corrected build equals `from_paths`. |
| DeltaTreeLaws.StrictRejects | src/tree/mod.rs:181 | Paths of different depths are rejected with a segment-count mismatch. |
| DeltaTreeLaws.StrictRoundTrip | src/tree/mod.rs:262-269 | Whenever the corrected build succeeds on readable paths with consistent keys, flattening gives back the paths. |
| DeltaTreeLaws.ShallowFirst | src/tree/mod.rs:124 | An entry without segments sorts first. |
| DeltaTreeLaws.ShallowPathsBuildLeaf | src/tree/mod.rs:173-201 | When one path has no directories, `from_paths` builds one root leaf holding every file. |
| DeltaTreeLaws.RootLeafSwallows | src/tree/mod.rs:173-201 | Mixing a path without directories with a partitioned one gives a root leaf that loses the partition path: flattening does not give the input back. The corrected build rejects the mix. |
| TreeExamples.NestedPartitions | src/tree/mod.rs:271-288 | The four nested test paths give partition `a` with children `1` and `4`. Each child is a partition `b` with a single-file leaf per value: `1`, `7` and `1`, `2`. |

## Left out

- `DeltaTree::new` (src/tree/mod.rs:110-112) only asks the `deltalake` library for the table's file list. `Tree.FromPaths` takes that list as a parameter.
- The binaries under `src/bin` are not part of this model. They cover table loading, timing, printing, parquet row reading, and the memory estimate built on `size_of` and `String::capacity`.
- `HashMap` iteration order is left out. Children are a `map`, and `Tree.Files` visits them in an arbitrary order. Every flattening property is therefore stated as a multiset.
- The `regex` and `uuid` crates are left out. Each is replaced by an explicit definition: the expression by `FileName.MatchName`, `Uuid` by hex conversion.
- The lazy compilation of the expression is left out.
- The `test_uuid_parse` test (src/tree/mod.rs:347-361) exercises only the `uuid` crate.
- `Numerals.IsRegexDigit` lists the decimal-digit ranges of Unicode 15.0. Other Unicode versions may differ.
- Rust's sort algorithm (`itertools::sorted`) is left out. It is modelled by an insertion sort. Under a total order the sorted permutation is unique (`Sorting.SortIsUnique`), so the algorithm does not affect the result.
- Panics are modelled as `Err` values. Abort, unwinding and the panic messages are left out.
- TreeExamples.NestedPartitions: starts from the four parsed entries with arbitrary files, rather than from the literal path strings. The path parsing is covered generally by `Paths.ParseOfPath`.
- DeltaTreeLaws.TreeRoundTrip: requires canonical file names. A name with upper-case hex, a non-dot before `parquet`, or trailing text parses, but `name` renders it differently. `FileNameProofs.ParseOfName` characterises the other direction.

## Findings

| source | as written | input that shows it | evidently intended | confidence | as-written member | corrected member |
|---|---|---|---|---|---|---|
| src/tree/mod.rs:173-201 | `build_partition` compares segment counts only inside the partition branch. Once the first (smallest) entry of a slice has no segment at the level, the whole slice becomes one leaf. A path without directories sorts before every partitioned path, so at the root it swallows them all: their `key=value` directories are dropped, and `files` no longer returns them. | `["part-00000-00000000-0000-0000-0000-000000000000.c000.snappy.parquet", "a=1/part-00000-00000000-0000-0000-0000-000000000000.c000.snappy.parquet"]` builds one root leaf with both files. Flattening gives the first path twice. | Every path has the first path's segment count, as `assert_eq!` at line 181 demands for the partition branch. A mix of depths is rejected rather than flattened into a leaf. | not executed | DeltaTreeLaws.RootLeafSwallows | DeltaTreeLaws.StrictRoundTrip |
