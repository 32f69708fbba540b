/** The two file names the source's tests parse, worked through the codec. */
module FileNameExamples {
  import opened Results
  import opened Numerals
  import opened Compression
  import opened FileName
  import opened FileNameProofs

  /** The hex digits of the tests' uuid `477077ae-1429-4633-b07a-0c0cb75caf55`. */
  const TestHex: string := "477077ae14294633b07a0c0cb75caf55"

  /** The tests' uuid, hyphenated 8-4-4-4-12. */
  const TestUuid: string := Hyphenate(TestHex)

  /** The hyphenated hex digits are the uuid text the tests write out. */
  lemma UuidLiteral()
    ensures TestUuid == "477077ae-1429-4633-b07a-0c0cb75caf55"
  {
    HyphenatedGroups();
    GroupsJoined();
  }

  lemma HyphenatedGroups()
    ensures TestUuid == "477077ae" + "-" + "1429" + "-" + "4633" + "-" + "b07a" + "-" + "0c0cb75caf55"
  {
    HexGroups();
    var h := TestHex;
    assert TestUuid == h[..8] + "-" + h[8..12] + "-" + h[12..16] + "-" + h[16..20] + "-" + h[20..];
  }

  lemma HexGroups()
    ensures TestHex[..8] == "477077ae" && TestHex[8..12] == "1429" && TestHex[12..16] == "4633"
    ensures TestHex[16..20] == "b07a" && TestHex[20..] == "0c0cb75caf55"
  {
    var h := "477077ae" + "1429" + "4633" + "b07a" + "0c0cb75caf55";
    assert h == TestHex;
    assert h[..8] == "477077ae" && h[8..12] == "1429" && h[12..16] == "4633" && h[16..20] == "b07a"
           && h[20..] == "0c0cb75caf55";
  }

  lemma GroupsJoined()
    ensures "477077ae" + "-" + "1429" + "-" + "4633" + "-" + "b07a" + "-" + "0c0cb75caf55"
            == "477077ae-1429-4633-b07a-0c0cb75caf55"
  {
    assert "477077ae" + "-" + "1429" == "477077ae-1429";
    assert "477077ae-1429" + "-" + "4633" == "477077ae-1429-4633";
    assert "477077ae-1429-4633" + "-" + "b07a" == "477077ae-1429-4633-b07a";
    assert "477077ae-1429-4633-b07a" + "-" + "0c0cb75caf55" == "477077ae-1429-4633-b07a-0c0cb75caf55";
  }

  lemma TestUuidShape()
    ensures IsUuidText(TestUuid)
    ensures StripHyphens(TestUuid) == TestHex
  {
    HexPrefix32();
    HyphenateIsUuidText(TestHex);
    StripHyphenate(TestHex);
  }

  /** The value of the test uuid's hex digits, read four at a time. */
  lemma HexPrefix4()
    ensures AllDigits("4770", 16) && Value("4770", 16) == 0x4770
  {
    assert AllDigits("4", 16) && Value("4", 16) == 4;
    ValueStep("4", '7', 16, "47");
    ValueStep("47", '7', 16, "477");
    ValueStep("477", '0', 16, "4770");
  }

  lemma HexPrefix8()
    ensures AllDigits("477077ae", 16) && Value("477077ae", 16) == 0x477077ae
  {
    HexPrefix4();
    ValueStep("4770", '7', 16, "47707");
    ValueStep("47707", '7', 16, "477077");
    ValueStep("477077", 'a', 16, "477077a");
    ValueStep("477077a", 'e', 16, "477077ae");
  }

  lemma HexPrefix12()
    ensures AllDigits("477077ae1429", 16) && Value("477077ae1429", 16) == 0x477077ae1429
  {
    HexPrefix8();
    ValueStep("477077ae", '1', 16, "477077ae1");
    ValueStep("477077ae1", '4', 16, "477077ae14");
    ValueStep("477077ae14", '2', 16, "477077ae142");
    ValueStep("477077ae142", '9', 16, "477077ae1429");
  }

  lemma HexPrefix16()
    ensures AllDigits("477077ae14294633", 16) && Value("477077ae14294633", 16) == 0x477077ae14294633
  {
    HexPrefix12();
    ValueStep("477077ae1429", '4', 16, "477077ae14294");
    ValueStep("477077ae14294", '6', 16, "477077ae142946");
    ValueStep("477077ae142946", '3', 16, "477077ae1429463");
    ValueStep("477077ae1429463", '3', 16, "477077ae14294633");
  }

  lemma HexPrefix20()
    ensures AllDigits("477077ae14294633b07a", 16) && Value("477077ae14294633b07a", 16) == 0x477077ae14294633b07a
  {
    HexPrefix16();
    ValueStep("477077ae14294633", 'b', 16, "477077ae14294633b");
    ValueStep("477077ae14294633b", '0', 16, "477077ae14294633b0");
    ValueStep("477077ae14294633b0", '7', 16, "477077ae14294633b07");
    ValueStep("477077ae14294633b07", 'a', 16, "477077ae14294633b07a");
  }

  lemma HexPrefix24()
    ensures AllDigits("477077ae14294633b07a0c0c", 16) && Value("477077ae14294633b07a0c0c", 16) == 0x477077ae14294633b07a0c0c
  {
    HexPrefix20();
    ValueStep("477077ae14294633b07a", '0', 16, "477077ae14294633b07a0");
    ValueStep("477077ae14294633b07a0", 'c', 16, "477077ae14294633b07a0c");
    ValueStep("477077ae14294633b07a0c", '0', 16, "477077ae14294633b07a0c0");
    ValueStep("477077ae14294633b07a0c0", 'c', 16, "477077ae14294633b07a0c0c");
  }

  lemma HexPrefix28()
    ensures AllDigits("477077ae14294633b07a0c0cb75c", 16) && Value("477077ae14294633b07a0c0cb75c", 16) == 0x477077ae14294633b07a0c0cb75c
  {
    HexPrefix24();
    ValueStep("477077ae14294633b07a0c0c", 'b', 16, "477077ae14294633b07a0c0cb");
    ValueStep("477077ae14294633b07a0c0cb", '7', 16, "477077ae14294633b07a0c0cb7");
    ValueStep("477077ae14294633b07a0c0cb7", '5', 16, "477077ae14294633b07a0c0cb75");
    ValueStep("477077ae14294633b07a0c0cb75", 'c', 16, "477077ae14294633b07a0c0cb75c");
  }

  lemma HexPrefix32()
    ensures AllDigits("477077ae14294633b07a0c0cb75caf55", 16) && Value("477077ae14294633b07a0c0cb75caf55", 16) == 0x477077ae14294633b07a0c0cb75caf55
  {
    HexPrefix28();
    ValueStep("477077ae14294633b07a0c0cb75c", 'a', 16, "477077ae14294633b07a0c0cb75ca");
    ValueStep("477077ae14294633b07a0c0cb75ca", 'f', 16, "477077ae14294633b07a0c0cb75caf");
    ValueStep("477077ae14294633b07a0c0cb75caf", '5', 16, "477077ae14294633b07a0c0cb75caf5");
    ValueStep("477077ae14294633b07a0c0cb75caf5", '5', 16, "477077ae14294633b07a0c0cb75caf55");
  }

  /** The uuid's hex digits read as one 128-bit number. */
  lemma TestUuidValue()
    ensures IsUuidText(TestUuid)
    ensures UuidValue(TestUuid) == 94959152347567637375526247419927637845
  {
    TestUuidShape();
    HexPrefix32();
  }

  /** The partition and cluster fields of the parse test. */
  lemma DecimalFields()
    ensures AllDigits("00009", 10) && Value("00009", 10) == 9
    ensures AllDigits("177", 10) && Value("177", 10) == 177
  {
    assert AllDigits("0", 10) && Value("0", 10) == 0;
    ValueStep("0", '0', 10, "00");
    ValueStep("00", '0', 10, "000");
    ValueStep("000", '0', 10, "0000");
    ValueStep("0000", '9', 10, "00009");
    assert AllDigits("1", 10) && Value("1", 10) == 1;
    ValueStep("1", '7', 10, "17");
    ValueStep("17", '7', 10, "177");
  }

  /** The test names: partition `00009`, the test uuid, the given cluster
      field and snappy compression. */
  function TestName(cluster: string): string {
    "part-" + "00009" + "-" + "477077ae-1429-4633-b07a-0c0cb75caf55" + ".c" + cluster + ".snappy.parquet"
  }

  lemma TestNameShape(cluster: string)
    ensures TestName(cluster) == Stem("00009", TestUuid, cluster, "snappy") + ['.'] + "parquet" + ""
  {
    UuidLiteral();
    assert ".snappy.parquet" == "." + "snappy" + ['.'] + "parquet" + "";
  }

  /** `test_regex_filename`: the expression captures the four fields of the
      name with cluster `003`. */
  lemma RegexCaptures()
    ensures MatchName(TestName("003"))
            == Some(Captures("00009", "477077ae-1429-4633-b07a-0c0cb75caf55", "003", "snappy"))
  {
    UuidLiteral();
    TestUuidShape();
    DecimalIsRegexDigits("00009");
    DecimalIsRegexDigits("003");
    TestNameShape("003");
    MatchOfShape("00009", TestUuid, "003", "snappy", '.', "");
  }

  /** `test_file_name_parse`: the name with cluster `177` parses to
      partition 9, cluster 177, snappy, and the uuid's 128-bit value. */
  lemma FileNameParse()
    ensures FromString(TestName("177"))
            == Ok(ParquetDeltaFile(9, 94959152347567637375526247419927637845, 177, Snappy))
  {
    TestUuidValue();
    DecimalFields();
    DecimalIsRegexDigits("00009");
    DecimalIsRegexDigits("177");
    TestNameShape("177");
    MatchOfShape("00009", TestUuid, "177", "snappy", '.', "");
  }
}
