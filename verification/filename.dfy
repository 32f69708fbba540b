/** The data-file name codec (`ParquetDeltaFile::from_string` and `name`).

    A name is recognised by the regular expression

        ^part-(\d{5})-(UUID)\.c(\d{3})\.(snappy|gzip|none).parquet

    where UUID is `[0-9a-fA-F]` in groups of 8-4-4-4-12 joined by `-`. The
    expression is anchored only at the start and the `.` before `parquet` is
    not escaped, so any character but a line feed may stand there and any
    text may follow. `\d` is Unicode-aware. `MatchName` recognises exactly
    this language, hand-written over `seq<char>`. */
module FileName {
  import opened Results
  import opened Numerals
  import opened Compression

  type uint8 = x: nat | x < 0x100
  type uint32 = x: nat | x < 0x1_0000_0000
  type uint128 = x: nat | x < 0x1_0000_0000_0000_0000_0000_0000_0000_0000

  /** `u32::max_value()`, the partition `from_string` falls back to. */
  const U32Max: uint32 := 0xFFFF_FFFF

  /** The compact record a file name is parsed into. */
  datatype ParquetDeltaFile = ParquetDeltaFile(
    partition: uint32,
    uuid: uint128,
    cluster: uint8,
    compression: CompressionType)

  /** The named capture groups `part`, `uuid`, `c` and `compression`. */
  datatype Captures = Captures(part: string, uuid: string, cluster: string, compression: string)

  predicate IsHyphenPosition(i: int) {
    i == 8 || i == 13 || i == 18 || i == 23
  }

  /** `[0-9a-fA-F]{8}-[0-9a-fA-F]{4}-[0-9a-fA-F]{4}-[0-9a-fA-F]{4}-[0-9a-fA-F]{12}` */
  predicate IsUuidText(t: string) {
    && |t| == 36
    && forall i | 0 <= i < 36 :: if IsHyphenPosition(i) then t[i] == '-' else IsHexDigit(t[i])
  }

  /** The 32 hex digits of a hyphenated UUID. */
  function StripHyphens(t: string): (h: string)
    requires |t| == 36
    ensures |h| == 32
  {
    t[..8] + t[9..13] + t[14..18] + t[19..23] + t[24..]
  }

  /** 32 hex digits grouped 8-4-4-4-12. */
  function Hyphenate(h: string): (t: string)
    requires |h| == 32
    ensures |t| == 36
  {
    h[..8] + "-" + h[8..12] + "-" + h[12..16] + "-" + h[16..20] + "-" + h[20..]
  }

  lemma StripHyphenate(h: string)
    requires |h| == 32
    ensures StripHyphens(Hyphenate(h)) == h
  {
    var t := Hyphenate(h);
    assert t[..8] == h[..8] && t[9..13] == h[8..12] && t[14..18] == h[12..16];
    assert t[19..23] == h[16..20] && t[24..] == h[20..];
    assert h == h[..8] + h[8..12] + h[12..16] + h[16..20] + h[20..];
  }

  lemma HyphenateStrip(t: string)
    requires IsUuidText(t)
    ensures Hyphenate(StripHyphens(t)) == t
  {
    var h := StripHyphens(t);
    var u := Hyphenate(h);
    forall i | 0 <= i < 36
      ensures u[i] == t[i]
    {
      if i < 8 {
        assert u[i] == h[i];
      } else if i < 13 {
        assert i == 8 || u[i] == h[i - 1];
      } else if i < 18 {
        assert i == 13 || u[i] == h[i - 2];
      } else if i < 23 {
        assert i == 18 || u[i] == h[i - 3];
      } else {
        assert i == 23 || u[i] == h[i - 4];
      }
      assert IsHyphenPosition(i) ==> t[i] == '-';
    }
    assert u == t;
  }

  lemma HyphenateIsUuidText(h: string)
    requires |h| == 32 && AllDigits(h, 16)
    ensures IsUuidText(Hyphenate(h))
  {
    var t := Hyphenate(h);
    forall i | 0 <= i < 36
      ensures if IsHyphenPosition(i) then t[i] == '-' else IsHexDigit(t[i])
    {
    }
  }

  /** `Uuid::parse_str(..).as_u128()`: the hex digits read most significant first. */
  function UuidValue(t: string): (u: uint128)
    requires IsUuidText(t)
  {
    var h := StripHyphens(t);
    assert AllDigits(h, 16) by {
      forall i | 0 <= i < 32
        ensures IsDigitIn(h[i], 16)
      {
        assert i < 8 ==> h[i] == t[i];
        assert 8 <= i < 12 ==> h[i] == t[i + 1];
        assert 12 <= i < 16 ==> h[i] == t[i + 2];
        assert 16 <= i < 20 ==> h[i] == t[i + 3];
        assert 20 <= i ==> h[i] == t[i + 4];
      }
    }
    PowSixteen();
    Value(h, 16)
  }

  /** The `Display` of `Uuid`: lower-case hex, hyphenated. */
  function UuidText(u: uint128): (t: string)
    ensures IsUuidText(t)
  {
    HyphenateIsUuidText(Fixed(u, 32, 16));
    Hyphenate(Fixed(u, 32, 16))
  }

  const CompressionTokens: set<string> := {"snappy", "gzip", "none"}

  /** The alternative of `(snappy|gzip|none)` that `s` starts with. The three
      tokens begin with different letters, so at most one can apply. */
  function LeadingToken(s: string): (r: Option<string>)
    ensures r.Some? ==> r.value in CompressionTokens && r.value <= s
    ensures r.None? ==> forall t | t in CompressionTokens :: !(t <= s)
  {
    if "snappy" <= s then Some("snappy")
    else if "gzip" <= s then Some("gzip")
    else if "none" <= s then Some("none")
    else None
  }

  lemma LeadingTokenOf(t: string, rest: string)
    requires t in CompressionTokens
    ensures LeadingToken(t + rest) == Some(t)
  {
    var s := t + rest;
    assert t <= s;
    assert s[0] == t[0];
    if t != "snappy" {
      assert !("snappy" <= s) by { assert "snappy"[0] != s[0]; }
      if t != "gzip" {
        assert !("gzip" <= s) by { assert "gzip"[0] != s[0]; }
      }
    }
  }

  /** Index of the first character after `.c\d{3}.` */
  const TokenStart: nat := 53

  /** Everything up to and including the compression token. */
  function Stem(part: string, uuid: string, cluster: string, token: string): string {
    "part-" + part + "-" + uuid + ".c" + cluster + "." + token
  }

  /** What the expression guarantees of its capture groups. */
  predicate WellFormed(c: Captures) {
    && |c.part| == 5 && AllRegexDigits(c.part)
    && IsUuidText(c.uuid)
    && |c.cluster| == 3 && AllRegexDigits(c.cluster)
    && c.compression in CompressionTokens
  }

  /** The regular expression: the capture groups when `n` matches, `None` otherwise. */
  function MatchName(n: string): (r: Option<Captures>)
    ensures r.Some? ==>
      var c := r.value;
      var k := TokenStart + |c.compression|;
      && WellFormed(c)
      && k + 8 <= |n|
      && n[..k] == Stem(c.part, c.uuid, c.cluster, c.compression)
      && n[k] != '\n' && n[k + 1..k + 8] == "parquet"
  {
    if |n| < TokenStart then None
    else if !(&& n[..5] == "part-" && AllRegexDigits(n[5..10]) && n[10] == '-'
              && IsUuidText(n[11..47]) && n[47..49] == ".c"
              && AllRegexDigits(n[49..52]) && n[52] == '.') then None
    else
      match LeadingToken(n[TokenStart..])
      case None => None
      case Some(token) =>
        var k := TokenStart + |token|;
        if k + 8 <= |n| && n[k] != '\n' && n[k + 1..k + 8] == "parquet" then
          assert n[TokenStart..k] == token;
          StemOfText(n, token);
          Some(Captures(n[5..10], n[11..47], n[49..52], token))
        else None
  }

  /** A text with the stem's fixed characters in place starts with the stem
      of the fields between them. */
  lemma StemOfText(n: string, token: string)
    requires TokenStart + |token| <= |n| && n[TokenStart..TokenStart + |token|] == token
    requires n[..5] == "part-" && n[10] == '-' && n[47..49] == ".c" && n[52] == '.'
    ensures n[..TokenStart + |token|] == Stem(n[5..10], n[11..47], n[49..52], token)
  {
    var k := TokenStart + |token|;
    assert n[..k] == n[..5] + n[5..10] + [n[10]] + n[11..47] + n[47..49] + n[49..52] + [n[52]]
                     + n[TokenStart..k];
  }

  lemma MatchedHyphen(n: string)
    ensures MatchName(n).Some? ==> n[10] == '-'
  {
  }

  /** Every string of the grammar's shape matches, with the expected captures. */
  lemma MatchOfShape(part: string, uuid: string, cluster: string, token: string, any: char, rest: string)
    requires |part| == 5 && AllRegexDigits(part)
    requires IsUuidText(uuid)
    requires |cluster| == 3 && AllRegexDigits(cluster)
    requires token in CompressionTokens && any != '\n'
    ensures MatchName(Stem(part, uuid, cluster, token) + [any] + "parquet" + rest)
            == Some(Captures(part, uuid, cluster, token))
  {
    var n := Stem(part, uuid, cluster, token) + [any] + "parquet" + rest;
    var tail := [any] + "parquet" + rest;
    assert n == Stem(part, uuid, cluster, token) + tail;
    StemFields(part, uuid, cluster, token, tail);
    LeadingTokenOf(token, tail);
    var k := TokenStart + |token|;
    assert n[k] == tail[0] == any;
    assert n[k + 1..k + 8] == tail[1..8] == "parquet";
  }

  /** Where the fields of a stem sit in a text that starts with it. */
  lemma StemFields(part: string, uuid: string, cluster: string, token: string, tail: string)
    requires |part| == 5 && |uuid| == 36 && |cluster| == 3
    ensures var n := Stem(part, uuid, cluster, token) + tail;
            && |n| == TokenStart + |token| + |tail|
            && n[..5] == "part-" && n[5..10] == part && n[10] == '-' && n[11..47] == uuid
            && n[47..49] == ".c" && n[49..52] == cluster && n[52] == '.'
            && n[TokenStart..] == token + tail
  {
  }

  /** The partition field: `parse::<u32>()`, or `u32::max_value()` when that fails. */
  function PartitionOf(part: string): (p: uint32)
    requires |part| == 5 && AllRegexDigits(part)
    ensures AllDigits(part, 10) ==> p == Value(part, 10)
    ensures !AllDigits(part, 10) ==> p == U32Max
  {
    ParseUnsigned(part, 0x1_0000_0000).GetOr(U32Max)
  }

  /** The cluster field: `parse::<u8>()`, which fails unless the three
      characters are ASCII digits of a value below 256. */
  function ClusterOf(cluster: string): (r: Option<uint8>)
    requires |cluster| == 3 && AllRegexDigits(cluster)
    ensures r.Some? <==> AllDigits(cluster, 10) && Value(cluster, 10) < 0x100
    ensures r.Some? ==> r.value == Value(cluster, 10)
  {
    RegexDigitsUnsigned(cluster);
    match ParseUnsigned(cluster, 0x100)
    case None => None
    case Some(v) =>
      ParsedUnsigned(cluster, 0x100);
      Some(v)
  }

  /** The body of `from_string` once the expression has matched. */
  function FromCaptures(c: Captures): (r: Result<ParquetDeltaFile>)
    requires WellFormed(c)
    ensures r.Ok? <==> ClusterOf(c.cluster).Some?
    ensures r.Err? ==> r.error == ClusterNotU8(c.cluster)
    ensures r.Ok? ==>
      && r.value.uuid == UuidValue(c.uuid)
      && r.value.cluster == ClusterOf(c.cluster).value
      && ToStr(r.value.compression) == c.compression
      && r.value.partition == PartitionOf(c.part)
  {
    match ClusterOf(c.cluster)
    case None => Err(ClusterNotU8(c.cluster))
    case Some(cluster) =>
      var compression := Compression.FromStr(c.compression).value;
      TokenBijection(c.compression, compression);
      Ok(ParquetDeltaFile(PartitionOf(c.part), UuidValue(c.uuid), cluster, compression))
  }

  /** `ParquetDeltaFile::from_string`. The partition field falls back to
      `U32Max` when it does not parse as a `u32` (it can hold non-ASCII
      digits); a cluster field that is not a `u8` panics, and so does a name
      the expression rejects. */
  function FromString(n: string): (r: Result<ParquetDeltaFile>)
    ensures r.Ok? <==> MatchName(n).Some? && ClusterOf(MatchName(n).value.cluster).Some?
    ensures MatchName(n).None? ==> r == Err(NameMismatch(n))
    ensures MatchName(n).Some? && r.Err? ==> r.error == ClusterNotU8(MatchName(n).value.cluster)
    ensures r.Ok? ==>
      var c := MatchName(n).value;
      && r.value.partition == PartitionOf(c.part)
      && r.value.uuid == UuidValue(c.uuid)
      && r.value.cluster == ClusterOf(c.cluster).value
      && ToStr(r.value.compression) == c.compression
  {
    match MatchName(n)
    case None => Err(NameMismatch(n))
    case Some(caps) => FromCaptures(caps)
  }

  /** `ParquetDeltaFile::name`: `part-{:05}-{uuid}.c{:03}.{compression}.parquet`. */
  function Name(f: ParquetDeltaFile): string {
    Stem(ZeroPad(ToDecimal(f.partition), 5), UuidText(f.uuid), ZeroPad(ToDecimal(f.cluster), 3),
         ToStr(f.compression)) + ".parquet"
  }

  /** A name that rendering can reproduce: it matches, its digits are ASCII,
      its hex is lower case, its cluster fits a `u8`, the character before
      `parquet` is a dot and nothing follows. */
  predicate CanonicalName(n: string) {
    && MatchName(n).Some?
    && var c := MatchName(n).value;
    && AllDigits(c.part, 10)
    && Canonical(StripHyphens(c.uuid), 16)
    && AllDigits(c.cluster, 10) && Value(c.cluster, 10) < 0x100
    && |n| == TokenStart + |c.compression| + 8
    && n[TokenStart + |c.compression|] == '.'
  }
}

/** Properties of the file-name codec: the two round trips, the fallback and
    panic conditions, and the example the source's tests pin down. */
module FileNameProofs {
  import opened Results
  import opened Numerals
  import opened Compression
  import opened FileName

  lemma DecimalIsCanonical(s: string)
    requires AllDigits(s, 10)
    ensures Canonical(s, 10)
  {
  }

  lemma DecimalIsRegexDigits(s: string)
    requires AllDigits(s, 10)
    ensures AllRegexDigits(s)
  {
  }

  lemma SuffixShape(stem: string)
    ensures stem + ".parquet" == stem + ['.'] + "parquet" + ""
    ensures |stem + ".parquet"| == |stem| + 8 && (stem + ".parquet")[|stem|] == '.'
  {
  }

  /** The captures of a name `Name` renders, when its partition fits five digits. */
  lemma CapturesOfName(f: ParquetDeltaFile)
    requires f.partition < 100000
    ensures MatchName(Name(f)) == Some(Captures(Fixed(f.partition, 5, 10), UuidText(f.uuid),
                                                 Fixed(f.cluster, 3, 10), ToStr(f.compression)))
  {
    var c := Captures(Fixed(f.partition, 5, 10), UuidText(f.uuid), Fixed(f.cluster, 3, 10),
                      ToStr(f.compression));
    assert ZeroPad(ToDecimal(f.partition), 5) == c.part by {
      PowTen();
      PadDecimal(f.partition, 5);
    }
    assert ZeroPad(ToDecimal(f.cluster), 3) == c.cluster by {
      PowTen();
      PadDecimal(f.cluster, 3);
    }
    NameOfFields(f, c);
    DecimalIsRegexDigits(c.part);
    DecimalIsRegexDigits(c.cluster);
    var stem := Stem(c.part, c.uuid, c.cluster, c.compression);
    SuffixShape(stem);
    MatchOfShape(c.part, c.uuid, c.cluster, c.compression, '.', "");
  }

  /** Rendering a record whose partition fits five digits and parsing the name
      gives the record back; a larger partition renders more than five digits
      and the name no longer parses. */
  lemma ParseOfName(f: ParquetDeltaFile)
    ensures FromString(Name(f)) == Ok(f) <==> f.partition < 100000
  {
    if f.partition < 100000 {
      ParseOfShortName(f);
    } else {
      LongNameFails(f);
    }
  }

  lemma ParseOfShortName(f: ParquetDeltaFile)
    requires f.partition < 100000
    ensures FromString(Name(f)) == Ok(f)
  {
    CapturesOfName(f);
    FieldsParse(f);
  }

  /** A number that fits the field width renders as its fixed-width digits,
      which read back as the number. */
  lemma DecimalField(v: nat, width: nat)
    requires (width == 5 && v < 100000) || (width == 3 && v < 1000)
    ensures ZeroPad(ToDecimal(v), width) == Fixed(v, width, 10)
    ensures Value(Fixed(v, width, 10), 10) == v
  {
    PowTen();
    PadDecimal(v, width);
    ValueOfFixed(v, width, 10);
  }

  /** The text of a UUID reads back as the UUID. */
  lemma UuidField(u: uint128)
    ensures IsUuidText(UuidText(u)) && UuidValue(UuidText(u)) == u
  {
    PowSixteen();
    ValueOfFixed(u, 32, 16);
    StripHyphenate(Fixed(u, 32, 16));
  }

  /** Captures whose fields read as the record's fields parse to that record. */
  lemma CapturesParse(c: Captures, f: ParquetDeltaFile)
    requires WellFormed(c)
    requires AllDigits(c.part, 10) && Value(c.part, 10) == f.partition
    requires UuidValue(c.uuid) == f.uuid
    requires AllDigits(c.cluster, 10) && Value(c.cluster, 10) == f.cluster
    requires c.compression == ToStr(f.compression)
    ensures FromCaptures(c) == Ok(f)
  {
    var g := FromCaptures(c).value;
    assert g.compression == f.compression by {
      TokenBijection(ToStr(f.compression), g.compression);
    }
  }

  /** The captures of a rendered name, field by field. */
  function RenderedCaptures(f: ParquetDeltaFile): Captures {
    Captures(Fixed(f.partition, 5, 10), UuidText(f.uuid), Fixed(f.cluster, 3, 10), ToStr(f.compression))
  }

  lemma RenderedFields(f: ParquetDeltaFile)
    requires f.partition < 100000
    ensures WellFormed(RenderedCaptures(f))
    ensures AllDigits(RenderedCaptures(f).part, 10) && Value(RenderedCaptures(f).part, 10) == f.partition
    ensures UuidValue(RenderedCaptures(f).uuid) == f.uuid
    ensures AllDigits(RenderedCaptures(f).cluster, 10) && Value(RenderedCaptures(f).cluster, 10) == f.cluster
  {
    RenderedDecimal(f.partition, 5);
    RenderedDecimal(f.cluster, 3);
    UuidField(f.uuid);
  }

  /** A fixed-width decimal field reads back as its number. */
  lemma RenderedDecimal(v: nat, width: nat)
    requires (width == 5 && v < 100000) || (width == 3 && v < 1000)
    ensures |Fixed(v, width, 10)| == width && AllRegexDigits(Fixed(v, width, 10))
    ensures AllDigits(Fixed(v, width, 10), 10) && Value(Fixed(v, width, 10), 10) == v
  {
    DecimalField(v, width);
    DecimalIsRegexDigits(Fixed(v, width, 10));
  }

  /** The captures of a rendered name parse back to the record's fields. */
  lemma FieldsParse(f: ParquetDeltaFile)
    requires f.partition < 100000
    ensures WellFormed(RenderedCaptures(f)) && FromCaptures(RenderedCaptures(f)) == Ok(f)
  {
    RenderedFields(f);
    CapturesParse(RenderedCaptures(f), f);
  }

  lemma LongNameFails(f: ParquetDeltaFile)
    requires f.partition >= 100000
    ensures FromString(Name(f)).Err?
  {
    var part := ZeroPad(ToDecimal(f.partition), 5);
    assert |part| > 5 && part == ToDecimal(f.partition) by {
      PowTen();
      LongDecimal(f.partition, 5);
    }
    NamePrefix(f);
    NoMatchWhenLong(Name(f), part);
  }

  /** A name whose partition field runs past five digits has a digit where
      the expression wants the hyphen. */
  lemma NoMatchWhenLong(n: string, part: string)
    requires |part| > 5 && IsDigitIn(part[5], 10)
    requires |n| >= 5 + |part| && n[..5 + |part|] == "part-" + part
    ensures MatchName(n).None?
  {
    assert n[10] == n[..5 + |part|][10] == part[5];
    MatchedHyphen(n);
  }

  lemma NamePrefix(f: ParquetDeltaFile)
    ensures var part := ZeroPad(ToDecimal(f.partition), 5);
            |Name(f)| >= 5 + |part| && Name(f)[..5 + |part|] == "part-" + part
  {
    StemPrefix(ZeroPad(ToDecimal(f.partition), 5), UuidText(f.uuid), ZeroPad(ToDecimal(f.cluster), 3),
               ToStr(f.compression), ".parquet");
  }

  lemma StemPrefix(part: string, uuid: string, cluster: string, token: string, tail: string)
    ensures |Stem(part, uuid, cluster, token) + tail| >= 5 + |part|
    ensures (Stem(part, uuid, cluster, token) + tail)[..5 + |part|] == "part-" + part
  {
  }

  /** The names `Name` renders for five-digit partitions are canonical. */
  lemma NameIsCanonical(f: ParquetDeltaFile)
    requires f.partition < 100000
    ensures CanonicalName(Name(f))
  {
    CapturesOfName(f);
    var c := MatchName(Name(f)).value;
    assert Value(c.cluster, 10) == f.cluster by {
      PowTen();
      ValueOfFixed(f.cluster, 3, 10);
    }
    assert StripHyphens(c.uuid) == Fixed(f.uuid, 32, 16) by {
      StripHyphenate(Fixed(f.uuid, 32, 16));
    }
    assert Name(f) == Stem(c.part, c.uuid, c.cluster, c.compression) + ".parquet" by {
      PowTen();
      PadDecimal(f.partition, 5);
      PadDecimal(f.cluster, 3);
      NameOfFields(f, c);
    }
    SuffixShape(Stem(c.part, c.uuid, c.cluster, c.compression));
  }

  lemma Reassemble(n: string, stem: string)
    requires |n| == |stem| + 8 && n[..|stem|] == stem
    requires n[|stem|] == '.' && n[|stem| + 1..|stem| + 8] == "parquet"
    ensures n == stem + ".parquet"
  {
    forall i | 0 <= i < |n|
      ensures n[i] == (stem + ".parquet")[i]
    {
      if i < |stem| {
        assert n[i] == n[..|stem|][i];
      } else if i > |stem| {
        assert n[i] == n[|stem| + 1..|stem| + 8][i - |stem| - 1];
      }
    }
  }

  lemma NameOfFields(f: ParquetDeltaFile, c: Captures)
    requires ZeroPad(ToDecimal(f.partition), 5) == c.part
    requires UuidText(f.uuid) == c.uuid
    requires ZeroPad(ToDecimal(f.cluster), 3) == c.cluster
    requires ToStr(f.compression) == c.compression
    ensures Name(f) == Stem(c.part, c.uuid, c.cluster, c.compression) + ".parquet"
  {
  }

  /** Captures whose digits are ASCII, whose hex is lower case and whose
      cluster fits a `u8` parse to a record that renders them back. */
  lemma CapturesRoundTrip(c: Captures)
    requires WellFormed(c)
    requires AllDigits(c.part, 10) && Canonical(StripHyphens(c.uuid), 16)
    requires AllDigits(c.cluster, 10) && Value(c.cluster, 10) < 0x100
    ensures FromCaptures(c).Ok?
    ensures Name(FromCaptures(c).value) == Stem(c.part, c.uuid, c.cluster, c.compression) + ".parquet"
  {
    var f := FromCaptures(c).value;
    assert ZeroPad(ToDecimal(f.partition), 5) == c.part by {
      PowTen();
      DecimalIsCanonical(c.part);
      FixedOfValue(c.part, 10);
      PadDecimal(f.partition, 5);
    }
    assert ZeroPad(ToDecimal(f.cluster), 3) == c.cluster by {
      PowTen();
      DecimalIsCanonical(c.cluster);
      FixedOfValue(c.cluster, 10);
      PadDecimal(f.cluster, 3);
    }
    assert UuidText(f.uuid) == c.uuid by {
      FixedOfValue(StripHyphens(c.uuid), 16);
      HyphenateStrip(c.uuid);
    }
    NameOfFields(f, c);
  }

  /** A canonical name survives parsing and rendering unchanged. */
  lemma NameRoundTrip(n: string)
    requires CanonicalName(n)
    ensures FromString(n).Ok? && Name(FromString(n).value) == n
  {
    var c := MatchName(n).value;
    var k := TokenStart + |c.compression|;
    var stem := Stem(c.part, c.uuid, c.cluster, c.compression);
    assert n[..k] == stem && |stem| == k;
    CapturesRoundTrip(c);
    Reassemble(n, stem);
  }

  /** The `u32::max_value()` fallback fires exactly when the partition field
      holds a non-ASCII digit; with ASCII digits the partition is below 100000. */
  lemma PartitionFallback(n: string)
    requires FromString(n).Ok?
    ensures var part := MatchName(n).value.part;
            && (FromString(n).value.partition == U32Max <==> !AllDigits(part, 10))
            && (AllDigits(part, 10) ==> FromString(n).value.partition < 100000)
  {
    PowTen();
  }

  /** A three-digit ASCII cluster field above 255 makes `from_string` panic. */
  lemma ClusterOverflow(n: string)
    requires MatchName(n).Some? && AllDigits(MatchName(n).value.cluster, 10)
    ensures FromString(n).Err? <==> Value(MatchName(n).value.cluster, 10) > 255
  {
  }
}
