/** The rotation table, unique on (did, seq), and the custodial seed beside it. */
module RotationStoreService {
  import opened Wrappers
  import opened Encoding
  import opened Rotation

  /** The wrapped seed columns of an identity row. */
  type WrappedSeed = string

  type Rows = map<(string, u32), RotationStatement>

  ghost predicate KeyedByOwnFields(rows: Rows) {
    forall k :: k in rows ==> rows[k].did == k.0 && rows[k].seqNo == k.1
  }

  /** `WHERE did = $did ORDER BY seq ASC`, from sequence number `from` on. */
  function ChainFrom(rows: Rows, did: string, from: nat): seq<RotationStatement>
    decreases U32 - from
  {
    if from >= U32 then []
    else (if (did, from) in rows then [rows[(did, from)]] else []) + ChainFrom(rows, did, from + 1)
  }

  function FindChainByDid(rows: Rows, did: string): seq<RotationStatement> {
    ChainFrom(rows, did, 0)
  }

  /** One CREATE under the unique index: nothing happens when the key is taken. */
  function Append(rows: Rows, s: RotationStatement): Rows {
    if (s.did, s.seqNo) in rows then rows else rows[(s.did, s.seqNo) := s]
  }

  function Ingested(rows: Rows, did: string, chain: seq<RotationStatement>): Rows {
    if chain == [] then rows
    else
      var before := Ingested(rows, did, chain[..|chain| - 1]);
      var s := chain[|chain| - 1];
      if s.did == did then Append(before, s) else before
  }

  class RotationStore {
    var rows: Rows
    var seeds: map<string, WrappedSeed>

    ghost predicate Valid()
      reads this
    {
      KeyedByOwnFields(rows)
    }

    /**
     * One transaction: the statement and, for a custodial rotation, the re-wrapped
     * seed are both stored, or neither is.
     */
    method AppendRotation(s: RotationStatement, rewrap: Option<WrappedSeed>) returns (ok: bool)
      requires Valid()
      modifies this
      ensures Valid()
      ensures ok <==> (s.did, s.seqNo) !in old(rows)
      ensures rows == Append(old(rows), s)
      ensures seeds == if ok && rewrap.Some? && s.did in old(seeds) then old(seeds)[s.did := rewrap.value] else old(seeds)
    {
      if (s.did, s.seqNo) in rows {
        return false;
      }
      rows := rows[(s.did, s.seqNo) := s];
      if rewrap.Some? && s.did in seeds {
        seeds := seeds[s.did := rewrap.value];
      }
      return true;
    }

    /** Insert a bundle's chain, skipping the statements of other DIDs and rows that exist. */
    method IngestRotationChain(did: string, chain: seq<RotationStatement>)
      requires Valid()
      modifies this
      ensures Valid()
      ensures rows == Ingested(old(rows), did, chain) && seeds == old(seeds)
    {
      for i := 0 to |chain|
        invariant Valid()
        invariant rows == Ingested(old(rows), did, chain[..i]) && seeds == old(seeds)
      {
        assert chain[..i + 1][..i] == chain[..i];
        if chain[i].did != did {
          continue;
        }
        var _ := AppendRotation(chain[i], None);
      }
      assert chain[..|chain|] == chain;
    }
  }

  // ---- What ingestion means ----

  /** Statements 1..n of one DID, as a verified chain has them. */
  ghost predicate Numbered(did: string, chain: seq<RotationStatement>) {
    |chain| < U32 && forall i :: 0 <= i < |chain| ==> chain[i].did == did && chain[i].seqNo == i + 1
  }

  lemma ValidChainIsNumbered(c: Crypto, did: string, chain: seq<RotationStatement>)
    requires ValidChain(c, did, chain) && |chain| < U32
    ensures Numbered(did, chain)
  {
    hide GenesisRoot, VerifySignature, DecodePublicKey;
    forall i | 0 <= i < |chain| ensures chain[i].did == did && chain[i].seqNo == i + 1 {
      assert GoodHop(c, did, GenesisRoot(did).value, chain, i);
      SeqIsPosition(i);
    }
  }

  /** Rows that exist win; the chain fills the gaps; other DIDs are untouched. */
  lemma {:induction false} IngestedRows(rows: Rows, did: string, chain: seq<RotationStatement>, k: (string, u32))
    requires Numbered(did, chain)
    ensures k in Ingested(rows, did, chain) <==> k in rows || (k.0 == did && 1 <= k.1 <= |chain|)
    ensures k in rows ==> Ingested(rows, did, chain)[k] == rows[k]
    ensures k !in rows && k.0 == did && 1 <= k.1 <= |chain| ==> Ingested(rows, did, chain)[k] == chain[k.1 - 1]
  {
    if chain != [] {
      IngestedRows(rows, did, chain[..|chain| - 1], k);
    }
  }

  /** Every row of the DID is a row of the chain at its place. */
  ghost predicate Agrees(rows: Rows, did: string, chain: seq<RotationStatement>) {
    forall n: u32 :: (did, n) in rows ==> 1 <= n <= |chain| && rows[(did, n)] == chain[n - 1]
  }

  lemma {:induction false} FullChainIsFound(rows: Rows, did: string, chain: seq<RotationStatement>, from: nat)
    requires |chain| < U32 && 1 <= from <= U32
    requires forall n: u32 :: 1 <= n ==> ((did, n) in rows <==> n <= |chain|)
    requires forall n: u32 :: 1 <= n <= |chain| ==> rows[(did, n)] == chain[n - 1]
    ensures ChainFrom(rows, did, from) == if from <= |chain| then chain[from - 1..] else []
    decreases U32 - from
  {
    if from < U32 {
      FullChainIsFound(rows, did, chain, from + 1);
      if from <= |chain| {
        assert chain[from - 1..] == [chain[from - 1]] + chain[from..];
      }
    }
  }

  lemma {:induction false} RowIsFound(rows: Rows, did: string, from: nat, n: u32)
    requires from <= n && (did, n) in rows
    ensures rows[(did, n)] in ChainFrom(rows, did, from)
    decreases U32 - from
  {
    if from < n {
      RowIsFound(rows, did, from + 1, n);
    }
  }

  /**
   * After ingestion the stored chain is exactly the bundle's chain if and only if no
   * stored row disagreed with it.
   */
  lemma IngestionRestoresTheChain(rows: Rows, did: string, chain: seq<RotationStatement>)
    requires KeyedByOwnFields(rows) && Numbered(did, chain)
    ensures FindChainByDid(Ingested(rows, did, chain), did) == chain <==> Agrees(rows, did, chain)
  {
    hide ChainFrom, Ingested;
    var after := Ingested(rows, did, chain);
    if Agrees(rows, did, chain) {
      forall n: u32
        ensures (did, n) in after <==> 1 <= n <= |chain|
        ensures 1 <= n <= |chain| ==> after[(did, n)] == chain[n - 1]
      {
        IngestedRows(rows, did, chain, (did, n));
      }
      WholeChainIsFound(after, did, chain);
    }
    if FindChainByDid(after, did) == chain {
      forall n: u32 | (did, n) in rows
        ensures 1 <= n <= |chain| && rows[(did, n)] == chain[n - 1]
      {
        IngestedRows(rows, did, chain, (did, n));
        FoundRowIsInPlace(after, did, chain, n);
      }
    }
  }

  lemma WholeChainIsFound(rows: Rows, did: string, chain: seq<RotationStatement>)
    requires |chain| < U32
    requires forall n: u32 :: (did, n) in rows <==> 1 <= n <= |chain|
    requires forall n: u32 :: 1 <= n <= |chain| ==> rows[(did, n)] == chain[n - 1]
    ensures FindChainByDid(rows, did) == chain
  {
    hide ChainFrom;
    var first := 0;
    FirstRow(rows, did, first);
    FullChainIsFound(rows, did, chain, 1);
    if chain != [] {
      assert chain[0..] == chain;
    }
  }

  lemma FirstRow(rows: Rows, did: string, from: nat)
    requires from < U32
    ensures ChainFrom(rows, did, from) == (if (did, from) in rows then [rows[(did, from)]] else []) + ChainFrom(rows, did, from + 1)
  {
  }

  /** A row that the ordered read returns among a numbered chain stands at its own number. */
  lemma FoundRowIsInPlace(rows: Rows, did: string, chain: seq<RotationStatement>, n: u32)
    requires Numbered(did, chain) && FindChainByDid(rows, did) <= chain
    requires (did, n) in rows && rows[(did, n)].seqNo == n
    ensures 1 <= n <= |chain| && rows[(did, n)] == chain[n - 1]
  {
    hide ChainFrom;
    RowIsFound(rows, did, 0, n);
    var found := FindChainByDid(rows, did);
    var i :| 0 <= i < |found| && found[i] == rows[(did, n)];
    assert chain[i] == found[i];
  }

  /** A table that already holds a prefix of the chain agrees with it. */
  lemma PrefixAgrees(rows: Rows, did: string, chain: seq<RotationStatement>)
    requires KeyedByOwnFields(rows) && Numbered(did, chain)
    requires FindChainByDid(rows, did) <= chain
    ensures Agrees(rows, did, chain)
  {
    hide ChainFrom;
    forall n: u32 | (did, n) in rows
      ensures 1 <= n <= |chain| && rows[(did, n)] == chain[n - 1]
    {
      FoundRowIsInPlace(rows, did, chain, n);
    }
  }

  /** Whatever the chain, each of its own-DID statements finds its key taken afterwards. */
  lemma {:induction false} StatementsTakeTheirKeys(rows: Rows, did: string, chain: seq<RotationStatement>)
    ensures forall k :: k in rows ==> k in Ingested(rows, did, chain)
    ensures forall s :: s in chain && s.did == did ==> (s.did, s.seqNo) in Ingested(rows, did, chain)
  {
    if chain != [] {
      StatementsTakeTheirKeys(rows, did, chain[..|chain| - 1]);
      assert chain == chain[..|chain| - 1] + [chain[|chain| - 1]];
    }
  }

  lemma {:induction false} TakenKeysStay(rows: Rows, did: string, chain: seq<RotationStatement>)
    requires forall s :: s in chain && s.did == did ==> (s.did, s.seqNo) in rows
    ensures Ingested(rows, did, chain) == rows
  {
    if chain != [] {
      TakenKeysStay(rows, did, chain[..|chain| - 1]);
    }
  }

  /**
   * Of any chain, ingestion takes in the own-DID statements alone: every row that is
   * new is one of them under its own number, and no row that was there changes.
   */
  lemma {:induction false} IngestionTakesOwnStatements(rows: Rows, did: string, chain: seq<RotationStatement>, k: (string, u32))
    ensures k in rows ==> k in Ingested(rows, did, chain) && Ingested(rows, did, chain)[k] == rows[k]
    ensures k !in rows && k in Ingested(rows, did, chain) ==>
              && k.0 == did
              && Ingested(rows, did, chain)[k] in chain
              && Ingested(rows, did, chain)[k].did == did && Ingested(rows, did, chain)[k].seqNo == k.1
  {
    if chain != [] {
      IngestionTakesOwnStatements(rows, did, chain[..|chain| - 1], k);
      assert chain == chain[..|chain| - 1] + [chain[|chain| - 1]];
    }
  }

  /** Ingesting any chain again changes nothing, whatever the table holds. */
  lemma IngestionIsIdempotent(rows: Rows, did: string, chain: seq<RotationStatement>)
    ensures Ingested(Ingested(rows, did, chain), did, chain) == Ingested(rows, did, chain)
  {
    hide Ingested;
    StatementsTakeTheirKeys(rows, did, chain);
    TakenKeysStay(Ingested(rows, did, chain), did, chain);
  }

  /**
   * Restoring an accepted chain over a prefix of it makes the stored chain verify with
   * the bundle's root, and leaves every other DID's chain as it was.
   */
  lemma RestoredChainVerifies(c: Crypto, rows: Rows, did: string, chain: seq<RotationStatement>, root: Key)
    requires KeyedByOwnFields(rows) && |chain| < U32
    requires Accepts(c, did, chain, root)
    requires FindChainByDid(rows, did) <= chain
    ensures Accepts(c, did, FindChainByDid(Ingested(rows, did, chain), did), root)
    ensures forall other :: other != did ==> FindChainByDid(Ingested(rows, did, chain), other) == FindChainByDid(rows, other)
  {
    hide ValidChain, HeadKey, ChainFrom;
    ValidChainIsNumbered(c, did, chain);
    PrefixAgrees(rows, did, chain);
    IngestionRestoresTheChain(rows, did, chain);
    forall other | other != did
      ensures FindChainByDid(Ingested(rows, did, chain), other) == FindChainByDid(rows, other)
    {
      OtherChainsStay(rows, did, chain, other, 0);
    }
  }

  lemma {:induction false} OtherChainsStay(rows: Rows, did: string, chain: seq<RotationStatement>, other: string, from: nat)
    requires Numbered(did, chain) && other != did
    ensures ChainFrom(Ingested(rows, did, chain), other, from) == ChainFrom(rows, other, from)
    decreases U32 - from
  {
    if from < U32 {
      IngestedRows(rows, did, chain, (other, from));
      OtherChainsStay(rows, did, chain, other, from + 1);
    }
  }
}
