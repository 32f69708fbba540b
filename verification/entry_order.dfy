/** The order `from_paths` sorts parsed paths by: the derived `Ord` of the
    tuple `(Vec<PartitionPath>, ParquetDeltaFile)`. Segments compare key
    first, then value; files compare partition, uuid, cluster, compression. */
module EntryOrder {
  import opened FileName
  import opened Compression
  import opened Paths
  import opened Lex
  import opened Sorting

  /** `PartitionPath`'s derived order: by key, then by value. */
  predicate KVLt(a: KV, b: KV) {
    StrLt(a.key, b.key) || (a.key == b.key && StrLt(a.value, b.value))
  }

  /** `ParquetDeltaFile`'s derived order, field by field in declaration order. */
  predicate FileLt(a: ParquetDeltaFile, b: ParquetDeltaFile) {
    || a.partition < b.partition
    || (a.partition == b.partition && a.uuid < b.uuid)
    || (a.partition == b.partition && a.uuid == b.uuid && a.cluster < b.cluster)
    || (a.partition == b.partition && a.uuid == b.uuid && a.cluster == b.cluster
        && Rank(a.compression) < Rank(b.compression))
  }

  predicate SegsLt(a: seq<KV>, b: seq<KV>) {
    LexLt(a, b, KVLt)
  }

  /** The tuple order: segments first, the file breaks ties. */
  predicate EntryLe(a: Entry, b: Entry) {
    SegsLt(a.segs, b.segs) || (a.segs == b.segs && (a.file == b.file || FileLt(a.file, b.file)))
  }

  lemma StrLtStrictTotal()
    ensures StrictTotal(StrLt)
  {
    CharLtStrictTotal();
    forall x: string
      ensures !StrLt(x, x)
    {
      LexIrreflexive(x, CharLt);
    }
    forall x: string, y: string, z: string | StrLt(x, y) && StrLt(y, z)
      ensures StrLt(x, z)
    {
      LexTransitive(x, y, z, CharLt);
    }
    forall x: string, y: string
      ensures x == y || StrLt(x, y) || StrLt(y, x)
    {
      LexTrichotomy(x, y, CharLt);
    }
  }

  lemma KVLtStrictTotal()
    ensures StrictTotal(KVLt)
  {
    StrLtStrictTotal();
  }

  lemma FileLtStrictTotal()
    ensures StrictTotal(FileLt)
  {
    forall x: ParquetDeltaFile, y: ParquetDeltaFile
      ensures x == y || FileLt(x, y) || FileLt(y, x)
    {
      RankInjective(x.compression, y.compression);
    }
  }

  lemma SegsLtStrictTotal()
    ensures StrictTotal(SegsLt)
  {
    KVLtStrictTotal();
    forall x: seq<KV>
      ensures !SegsLt(x, x)
    {
      LexIrreflexive(x, KVLt);
    }
    forall x: seq<KV>, y: seq<KV>, z: seq<KV> | SegsLt(x, y) && SegsLt(y, z)
      ensures SegsLt(x, z)
    {
      LexTransitive(x, y, z, KVLt);
    }
    forall x: seq<KV>, y: seq<KV>
      ensures x == y || SegsLt(x, y) || SegsLt(y, x)
    {
      LexTrichotomy(x, y, KVLt);
    }
  }

  /** The tuple order is a total order on parsed paths. */
  lemma EntryLeTotalOrder()
    ensures TotalOrder(EntryLe)
  {
    SegsLtStrictTotal();
    FileLtStrictTotal();
  }
}
