/** Paths of data files relative to the table root: `key=value/` directory
    segments followed by a file name (`parse_path`, `key_value`, and the
    `format!` calls of `files`). */
module Paths {
  import opened Results
  import opened Numerals
  import opened Compression
  import opened FileName
  import opened Sorting

  /** One `key=value` directory segment (`PartitionPath`). */
  datatype KV = KV(key: string, value: string)

  /** A parsed path: its segments, outermost first, and its file. */
  datatype Entry = Entry(segs: seq<KV>, file: ParquetDeltaFile)

  /** `str::find` of one character: the index of its first occurrence. */
  function FindFirst(s: string, c: char): (r: Option<nat>)
    ensures r.None? <==> c !in s
    ensures r.Some? ==> r.value < |s| && s[r.value] == c && c !in s[..r.value]
  {
    if |s| == 0 then None
    else if s[0] == c then Some(0)
    else
      match FindFirst(s[1..], c)
      case None => None
      case Some(i) =>
        assert s[..i + 1] == [s[0]] + s[1..][..i];
        Some(i + 1)
  }

  /** `key_value`: split a segment at its first `=`. */
  function KeyValue(s: string): (r: Option<KV>)
    ensures r.None? <==> '=' !in s
    ensures r.Some? ==> r.value.key + "=" + r.value.value == s && '=' !in r.value.key
  {
    match FindFirst(s, '=')
    case None => None
    case Some(i) =>
      assert s == s[..i] + "=" + s[i + 1..];
      Some(KV(s[..i], s[i + 1..]))
  }

  /** The text of a segment, as `files` writes it before its `/`. */
  function SegmentText(kv: KV): string {
    kv.key + "=" + kv.value
  }

  /** `key_value` inverts `SegmentText` for keys without `=`: the value may
      hold further `=` signs. */
  lemma KeyValueOfText(kv: KV)
    requires '=' !in kv.key
    ensures KeyValue(SegmentText(kv)) == Some(kv)
  {
    var s := SegmentText(kv);
    var r := KeyValue(s).value;
    assert s[|kv.key|] == '=';
    assert r.key == s[..|r.key|] == kv.key;
    assert r.value == s[|r.key| + 1..] == kv.value;
  }

  /** The first case of the source's `test_key_value`. */
  lemma KeyValueExample()
    ensures KeyValue("a=13") == Some(KV("a", "13"))
  {
    KeyValueOfText(KV("a", "13"));
    assert SegmentText(KV("a", "13")) == "a=13";
  }

  /** The second case of `test_key_value`: no `=`, no segment. */
  lemma KeyValueNoEquals()
    ensures KeyValue("askaban") == None
  {
    var s := "askaban";
    assert forall i | 0 <= i < |s| :: s[i] != '=';
    assert '=' !in s;
  }

  /** The third case of `test_key_value`: only the first `=` splits; the
      input is written as the concatenation of its three parts. */
  lemma KeyValueFirstEquals()
    ensures KeyValue("some-key" + "=" + "some-value-with-=-sign-in-the-middle")
            == Some(KV("some-key", "some-value-with-=-sign-in-the-middle"))
  {
    KeyValueOfText(KV("some-key", "some-value-with-=-sign-in-the-middle"));
  }

  /** Pieces joined with a separator between consecutive ones. */
  function Join(parts: seq<string>, sep: char): string {
    if |parts| == 0 then ""
    else if |parts| == 1 then parts[0]
    else parts[0] + [sep] + Join(parts[1..], sep)
  }

  /** `str::split` on one character: every piece, empty ones included. */
  function Split(s: string, sep: char): (r: seq<string>)
    ensures |r| >= 1
    ensures forall i | 0 <= i < |r| :: sep !in r[i]
    decreases |s|
  {
    match FindFirst(s, sep)
    case None => [s]
    case Some(i) => [s[..i]] + Split(s[i + 1..], sep)
  }

  /** Joining the pieces of a split gives back the text. */
  lemma {:induction false} JoinSplit(s: string, sep: char)
    ensures Join(Split(s, sep), sep) == s
    decreases |s|
  {
    match FindFirst(s, sep)
    case None =>
    case Some(i) =>
      var rest := Split(s[i + 1..], sep);
      JoinSplit(s[i + 1..], sep);
      assert Split(s, sep) == [s[..i]] + rest;
      assert ([s[..i]] + rest)[1..] == rest;
      assert s == s[..i] + [sep] + s[i + 1..];
  }

  /** The first occurrence is at `k` when `s[k]` is one and nothing before it is. */
  lemma FindFirstAt(s: string, c: char, k: nat)
    requires k < |s| && s[k] == c && c !in s[..k]
    ensures FindFirst(s, c) == Some(k)
  {
  }

  /** Splitting undoes joining pieces free of the separator. */
  lemma {:induction false} SplitJoin(parts: seq<string>, sep: char)
    requires |parts| >= 1
    requires forall i | 0 <= i < |parts| :: sep !in parts[i]
    ensures Split(Join(parts, sep), sep) == parts
  {
    if |parts| == 1 {
      assert FindFirst(Join(parts, sep), sep).None?;
    } else {
      SplitJoinStep(parts, sep);
      SplitJoin(parts[1..], sep);
      assert parts == [parts[0]] + parts[1..];
    }
  }

  /** Splitting a join of several pieces cuts off the first piece at the
      first separator. */
  lemma SplitJoinStep(parts: seq<string>, sep: char)
    requires |parts| >= 2 && sep !in parts[0]
    ensures Split(Join(parts, sep), sep) == [parts[0]] + Split(Join(parts[1..], sep), sep)
  {
    var s, k, rest := Join(parts, sep), |parts[0]|, Join(parts[1..], sep);
    assert s == parts[0] + [sep] + rest;
    assert s[..k] == parts[0] && s[k] == sep && s[k + 1..] == rest;
    FindFirstAt(s, sep, k);
  }

  /** `key_value(part).unwrap()`: the segment, or a panic naming the part. */
  function Segment(part: string): (r: Result<KV>)
    ensures r.Ok? <==> '=' in part
    ensures r.Ok? ==> KeyValue(part) == Some(r.value)
    ensures r.Err? ==> r.error == MissingEquals(part)
  {
    match KeyValue(part)
    case None => Err(MissingEquals(part))
    case Some(kv) => Ok(kv)
  }

  /** The segments of every directory part, or the first part without `=`. */
  function KeyValues(parts: seq<string>): (r: Result<seq<KV>>)
    ensures r.Ok? <==> forall i | 0 <= i < |parts| :: '=' in parts[i]
    ensures r.Ok? ==> |r.value| == |parts| &&
                      forall i | 0 <= i < |parts| :: KeyValue(parts[i]) == Some(r.value[i])
    ensures r.Err? ==> exists i | 0 <= i < |parts| ::
                         && r.error == MissingEquals(parts[i]) && '=' !in parts[i]
                         && forall j | 0 <= j < i :: '=' in parts[j]
  {
    var r := CollectAll(Segment, parts);
    assert r.Ok? ==> forall i | 0 <= i < |parts| :: Segment(parts[i]) == Ok(r.value[i]);
    r
  }

  /** The file-name piece of a path: what follows its last `/`. */
  function LastPiece(p: string): string {
    var parts := Split(p, '/');
    parts[|parts| - 1]
  }

  /** The directory pieces of a path: everything before its last `/`. */
  function DirPieces(p: string): seq<string> {
    var parts := Split(p, '/');
    parts[..|parts| - 1]
  }

  /** `parse_path`: the last piece is the file name and is parsed first; every
      other piece must be a segment. */
  function ParsePath(p: string): (r: Result<Entry>)
    ensures r.Ok? <==> FromString(LastPiece(p)).Ok? && KeyValues(DirPieces(p)).Ok?
    ensures r.Ok? ==> FromString(LastPiece(p)) == Ok(r.value.file) && KeyValues(DirPieces(p)) == Ok(r.value.segs)
    ensures FromString(LastPiece(p)).Err? ==> r.error == FromString(LastPiece(p)).error
  {
    match FromString(LastPiece(p))
    case Err(e) => Err(e)
    case Ok(file) =>
      match KeyValues(DirPieces(p))
      case Err(e) => Err(e)
      case Ok(segs) => Ok(Entry(segs, file))
  }

  /** The directory prefix of a path: `key=value/` for each segment. */
  function RenderSegs(segs: seq<KV>): string {
    if |segs| == 0 then ""
    else RenderSegs(segs[..|segs| - 1]) + SegmentText(segs[|segs| - 1]) + "/"
  }

  /** The path `files` writes for an entry. */
  function EntryPath(e: Entry): string {
    RenderSegs(e.segs) + Name(e.file)
  }

  lemma {:induction false} RenderSegsAppend(a: seq<KV>, b: seq<KV>)
    ensures RenderSegs(a + b) == RenderSegs(a) + RenderSegs(b)
    decreases |b|
  {
    if |b| > 0 {
      assert (a + b)[..|a + b| - 1] == a + b[..|b| - 1];
      RenderSegsAppend(a, b[..|b| - 1]);
    } else {
      assert a + b == a;
    }
  }

  /** The rendered prefix, as the pieces `split('/')` sees. */
  lemma {:induction false} RenderSegsJoin(segs: seq<KV>, last: string)
    ensures RenderSegs(segs) + last == Join(Map(SegmentText, segs) + [last], '/')
  {
    if |segs| > 0 {
      var tail := segs[1..];
      assert segs == [segs[0]] + tail;
      RenderSegsAppend([segs[0]], tail);
      assert RenderSegs([segs[0]]) == SegmentText(segs[0]) + "/" by {
        assert [segs[0]][..0] == [];
      }
      RenderSegsJoin(tail, last);
      assert (Map(SegmentText, segs) + [last])[1..] == Map(SegmentText, tail) + [last];
    } else {
      assert Map(SegmentText, segs) + [last] == [last];
    }
  }

  /** Every directory piece of a path carried a `=`: rendering the parsed
      segments rebuilds the directory part of the path. */
  lemma {:induction false} RenderOfParsed(dirs: seq<string>, segs: seq<KV>)
    requires |segs| == |dirs|
    requires forall i | 0 <= i < |dirs| :: KeyValue(dirs[i]) == Some(segs[i])
    ensures Map(SegmentText, segs) == dirs
  {
  }
}

/** The two round trips between a path and its parsed entry: a parsed path
    renders back to itself, and a rendered entry parses back to the entry. */
module PathProofs {
  import opened Results
  import opened Numerals
  import opened Compression
  import opened FileName
  import opened FileNameProofs
  import opened Sorting
  import opened Paths

  lemma PaddedHasNoSlash(v: nat, width: nat)
    ensures '/' !in ZeroPad(ToDecimal(v), width)
  {
    var p := ZeroPad(ToDecimal(v), width);
    assert forall i | 0 <= i < |p| :: p[i] != '/';
  }

  lemma UuidHasNoSlash(u: uint128)
    ensures '/' !in UuidText(u)
  {
    var t := UuidText(u);
    assert forall i | 0 <= i < |t| :: t[i] != '/';
  }

  lemma TokenHasNoSlash(c: CompressionType)
    ensures '/' !in ToStr(c)
  {
    var t := ToStr(c);
    assert forall i | 0 <= i < |t| :: t[i] != '/';
  }

  lemma StemHasNoSlash(part: string, uuid: string, cluster: string, token: string)
    requires '/' !in part && '/' !in uuid && '/' !in cluster && '/' !in token
    ensures '/' !in Stem(part, uuid, cluster, token) + ".parquet"
  {
  }

  lemma NameHasNoSlash(f: ParquetDeltaFile)
    ensures '/' !in Name(f)
  {
    PaddedHasNoSlash(f.partition, 5);
    PaddedHasNoSlash(f.cluster, 3);
    UuidHasNoSlash(f.uuid);
    TokenHasNoSlash(f.compression);
    StemHasNoSlash(ZeroPad(ToDecimal(f.partition), 5), UuidText(f.uuid), ZeroPad(ToDecimal(f.cluster), 3),
                   ToStr(f.compression));
  }

  /** The pieces of a parsed path: the segments render to its directory
      pieces and the file came from its last piece. */
  lemma ParsedPieces(p: string)
    requires ParsePath(p).Ok?
    ensures Map(SegmentText, ParsePath(p).value.segs) == DirPieces(p)
  {
    RenderOfParsed(DirPieces(p), ParsePath(p).value.segs);
  }

  /** Rendered segments followed by a name join to the pieces they came from. */
  lemma RebuildPath(parts: seq<string>, segs: seq<KV>)
    requires |parts| >= 1 && Map(SegmentText, segs) == parts[..|parts| - 1]
    ensures RenderSegs(segs) + parts[|parts| - 1] == Join(parts, '/')
  {
    RenderSegsJoin(segs, parts[|parts| - 1]);
    assert Map(SegmentText, segs) + [parts[|parts| - 1]] == parts;
  }

  /** A path whose file name is canonical is rebuilt exactly from its parse. */
  lemma PathRoundTrip(p: string)
    requires ParsePath(p).Ok?
    requires CanonicalName(LastPiece(p))
    ensures EntryPath(ParsePath(p).value) == p
  {
    ParsedPieces(p);
    NameRoundTrip(LastPiece(p));
    RebuildPath(Split(p, '/'), ParsePath(p).value.segs);
    JoinSplit(p, '/');
  }

  /** Segments `files` can write and `parse_path` can read back: no `=` in a
      key and no `/` anywhere. */
  predicate PathSafe(segs: seq<KV>) {
    forall i | 0 <= i < |segs| :: '=' !in segs[i].key && '/' !in segs[i].key && '/' !in segs[i].value
  }

  /** The pieces `split('/')` finds in the path of an entry. */
  function PathPieces(e: Entry): (r: seq<string>)
    ensures |r| == |e.segs| + 1
  {
    Map(SegmentText, e.segs) + [Name(e.file)]
  }

  lemma PiecesHaveNoSlash(e: Entry)
    requires PathSafe(e.segs)
    ensures forall i | 0 <= i < |PathPieces(e)| :: '/' !in PathPieces(e)[i]
  {
    var pieces := PathPieces(e);
    NameHasNoSlash(e.file);
    forall i | 0 <= i < |pieces|
      ensures '/' !in pieces[i]
    {
      if i < |e.segs| {
        assert pieces[i] == e.segs[i].key + "=" + e.segs[i].value;
      }
    }
  }

  lemma SplitOfEntryPath(e: Entry)
    requires PathSafe(e.segs)
    ensures Split(EntryPath(e), '/') == PathPieces(e)
    ensures LastPiece(EntryPath(e)) == Name(e.file)
    ensures DirPieces(EntryPath(e)) == Map(SegmentText, e.segs)
  {
    RenderSegsJoin(e.segs, Name(e.file));
    PiecesHaveNoSlash(e);
    SplitJoin(PathPieces(e), '/');
    assert PathPieces(e)[..|e.segs|] == Map(SegmentText, e.segs);
  }

  /** Segment texts with `=`-free keys parse back to their segments. */
  lemma {:induction false} KeyValuesOfTexts(segs: seq<KV>)
    requires forall i | 0 <= i < |segs| :: '=' !in segs[i].key
    ensures KeyValues(Map(SegmentText, segs)) == Ok(segs)
  {
    var texts := Map(SegmentText, segs);
    forall i | 0 <= i < |segs|
      ensures KeyValue(texts[i]) == Some(segs[i])
    {
      KeyValueOfText(segs[i]);
    }
    assert forall i | 0 <= i < |texts| :: '=' in texts[i] by {
      forall i | 0 <= i < |texts|
        ensures '=' in texts[i]
      {
        assert texts[i][|segs[i].key|] == '=';
      }
    }
    var r := KeyValues(texts).value;
    assert forall i | 0 <= i < |segs| :: Some(r[i]) == Some(segs[i]);
    assert r == segs;
  }

  /** Parsing the path of an entry gives the entry back, when its segments are
      path-safe and its partition fits five digits. */
  lemma ParseOfPath(e: Entry)
    requires PathSafe(e.segs) && e.file.partition < 100000
    ensures ParsePath(EntryPath(e)) == Ok(e)
  {
    SplitOfEntryPath(e);
    ParseOfName(e.file);
    KeyValuesOfTexts(e.segs);
  }
}
