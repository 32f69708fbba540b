/** The codec of a data file, as named in its file name (`CompressionType`). */
module Compression {
  import opened Results

  /** `SNAPPY | GZIP | NONE` in the source, declared in this order, which fixes
      the derived ordering. `NONE` is called `Uncompressed` here so that it
      does not clash with `Option.None`. */
  datatype CompressionType = Snappy | Gzip | Uncompressed

  /** The file-name token of a codec (`to_string`). */
  function ToStr(c: CompressionType): string {
    match c
    case Gzip => "gzip"
    case Snappy => "snappy"
    case Uncompressed => "none"
  }

  /** The codec named by a token (`from_str`); any other token panics. */
  function FromStr(s: string): (r: Result<CompressionType>)
    ensures r.Ok? <==> s in {"snappy", "gzip", "none"}
    ensures r.Err? ==> r.error == UnknownCompression(s)
  {
    match s
    case "snappy" => Ok(Snappy)
    case "gzip" => Ok(Gzip)
    case "none" => Ok(Uncompressed)
    case _ => Err(UnknownCompression(s))
  }

  /** Parsing and printing are mutual inverses: a token parses to a codec
      exactly when that codec prints as the token. */
  lemma TokenBijection(s: string, c: CompressionType)
    ensures FromStr(s) == Ok(c) <==> ToStr(c) == s
  {
  }

  /** Position in the declaration order, which `#[derive(Ord)]` compares. */
  function Rank(c: CompressionType): (r: nat)
    ensures r < 3
  {
    match c
    case Snappy => 0
    case Gzip => 1
    case Uncompressed => 2
  }

  lemma RankInjective(c: CompressionType, d: CompressionType)
    ensures Rank(c) == Rank(d) ==> c == d
  {
  }
}
