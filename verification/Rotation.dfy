/** Root-key rotation statements and the validation of their chains. */
module Rotation {
  import opened Wrappers
  import opened Encoding

  /** The five signed fields. */
  datatype RotationPayload = RotationPayload(did: string, seqNo: u32, prevRoot: string, newRoot: string, rotatedAt: string)

  datatype RotationStatement = RotationStatement(did: string, seqNo: u32, prevRoot: string, newRoot: string,
                                                 rotatedAt: string, signature: string)
  {
    function Payload(): RotationPayload {
      RotationPayload(did, seqNo, prevRoot, newRoot, rotatedAt)
    }
  }

  /**
   * The library calls: Ed25519 (RFC 8032), JSON canonicalisation of a payload
   * (RFC 8785) and RFC 3339 timestamps as UTC instants.
   */
  datatype Crypto = Crypto(publicKey: Key -> Key,
                           sign: (string, Key) -> Bytes,
                           verify: (string, Bytes, Key) -> bool,
                           canonicalize: RotationPayload -> string,
                           parseTime: string -> Option<int>,
                           formatTime: int -> string)

  /** What an honest use of those libraries may count on. */
  ghost predicate Correct(c: Crypto) {
    && (forall message, seed :: |c.sign(message, seed)| == 64)
    && (forall message, seed :: c.verify(message, c.sign(message, seed), c.publicKey(seed)))
    && (forall t :: c.parseTime(c.formatTime(t)) == Some(t))
  }

  /** A signature verifies under no key but its own seed's. */
  ghost predicate TellsKeysApart(c: Crypto) {
    forall message, seed, key :: c.verify(message, c.sign(message, seed), key) ==> key == c.publicKey(seed)
  }

  // ---- Creating ----

  /** `seed` is the retiring key's; `now` is the clock. */
  function CreateStatement(c: Crypto, did: string, seqNo: u32, prevRoot: string, newPublicKey: Key, seed: Key, now: int): RotationStatement {
    var payload := RotationPayload(did, seqNo, prevRoot, EncodeRoot(newPublicKey), c.formatTime(now));
    var signature := EncodeMultibase(c.sign(c.canonicalize(payload), seed));
    RotationStatement(did, seqNo, prevRoot, payload.newRoot, payload.rotatedAt, signature)
  }

  // ---- Verifying ----

  datatype HopFault = SeqDiscontinuity | OtherDid | BrokenLink | Malformed(reason: DecodeError)
                    | BadSignatureLength | SignatureMismatch | BadTime | TimeGoesBack

  datatype ChainError = BadDid(reason: DecodeError) | BadHop(index: nat, fault: HopFault) | BadHead(reason: DecodeError)

  function VerifySignature(c: Crypto, s: RotationStatement): Result<bool, HopFault> {
    match DecodePublicKey(s.prevRoot)
    case Err(e) => Err(Malformed(e))
    case Ok(key) =>
      match DecodeMultibase(s.signature)
      case Err(e) => Err(Malformed(e))
      case Ok(signature) =>
        if |signature| != 64 then Err(BadSignatureLength)
        else Ok(c.verify(c.canonicalize(s.Payload()), signature, key))
  }

  /** `(i as u32) + 1`, wrapping. */
  function ExpectedSeq(i: nat): u32 {
    (i % U32 + 1) % U32
  }

  lemma SeqIsPosition(i: nat)
    ensures i + 1 < U32 ==> ExpectedSeq(i) == i + 1
  {
  }

  function ExpectedPrev(genesis: string, chain: seq<RotationStatement>, i: nat): string
    requires i < |chain|
  {
    if i == 0 then genesis else chain[i - 1].newRoot
  }

  /** Statement `i` is in sequence, bound to the DID, linked, and signed by the key it retires. */
  predicate Authorised(c: Crypto, did: string, genesis: string, chain: seq<RotationStatement>, i: nat)
    requires i < |chain|
  {
    && chain[i].seqNo == ExpectedSeq(i)
    && chain[i].did == did
    && chain[i].prevRoot == ExpectedPrev(genesis, chain, i)
    && VerifySignature(c, chain[i]) == Ok(true)
  }

  predicate Timely(c: Crypto, chain: seq<RotationStatement>, i: nat)
    requires i < |chain|
  {
    && c.parseTime(chain[i].rotatedAt).Some?
    && (i > 0 && c.parseTime(chain[i - 1].rotatedAt).Some? ==>
          c.parseTime(chain[i - 1].rotatedAt).value <= c.parseTime(chain[i].rotatedAt).value)
  }

  predicate GoodHop(c: Crypto, did: string, genesis: string, chain: seq<RotationStatement>, i: nat)
    requires i < |chain|
  {
    Authorised(c, did, genesis, chain, i) && Timely(c, chain, i)
  }

  predicate ValidChain(c: Crypto, did: string, chain: seq<RotationStatement>) {
    && GenesisRoot(did).Ok?
    && forall i :: 0 <= i < |chain| ==> GoodHop(c, did, GenesisRoot(did).value, chain, i)
  }

  /** The head of a chain: the last new root, or the DID's own key. */
  function HeadKey(did: string, chain: seq<RotationStatement>): Result<Key, DecodeError> {
    if chain == [] then GenesisKey(did) else DecodePublicKey(chain[|chain| - 1].newRoot)
  }

  /** The chain verifies, with the given current root. */
  predicate Accepts(c: Crypto, did: string, chain: seq<RotationStatement>, root: Key) {
    ValidChain(c, did, chain) && HeadKey(did, chain) == Ok(root)
  }

  /** The fault is the first check that statement `i` fails. */
  predicate Blames(c: Crypto, did: string, genesis: string, chain: seq<RotationStatement>, i: nat, fault: HopFault)
    requires i < |chain|
  {
    var s := chain[i];
    match fault
    case SeqDiscontinuity => s.seqNo != ExpectedSeq(i)
    case OtherDid => s.seqNo == ExpectedSeq(i) && s.did != did
    case BrokenLink => s.seqNo == ExpectedSeq(i) && s.did == did && s.prevRoot != ExpectedPrev(genesis, chain, i)
    case BadTime => Authorised(c, did, genesis, chain, i) && c.parseTime(s.rotatedAt).None?
    case TimeGoesBack => Authorised(c, did, genesis, chain, i) && c.parseTime(s.rotatedAt).Some? && !Timely(c, chain, i)
    case _ =>
      && s.seqNo == ExpectedSeq(i) && s.did == did && s.prevRoot == ExpectedPrev(genesis, chain, i)
      && VerifySignature(c, s) == if fault.SignatureMismatch? then Ok(false) else Err(fault)
  }

  /** One round of the validation loop; `prevTime` is the previous statement's instant. */
  method CheckHop(c: Crypto, did: string, genesis: string, chain: seq<RotationStatement>, i: nat, prevTime: Option<int>)
    returns (fault: Option<HopFault>)
    requires i < |chain|
    requires prevTime == if i == 0 then None else c.parseTime(chain[i - 1].rotatedAt)
    ensures fault.None? <==> GoodHop(c, did, genesis, chain, i)
    ensures fault.Some? ==> Blames(c, did, genesis, chain, i, fault.value)
    ensures i + 1 < U32 ==> (fault == Some(SeqDiscontinuity) <==> chain[i].seqNo != i + 1)
    ensures fault == Some(OtherDid) ==> chain[i].did != did
    ensures fault == Some(BrokenLink) ==> chain[i].prevRoot != if i == 0 then genesis else chain[i - 1].newRoot
    ensures fault == Some(BadTime) ==> c.parseTime(chain[i].rotatedAt).None?
    ensures fault == Some(TimeGoesBack) ==>
              && i > 0 && c.parseTime(chain[i].rotatedAt).Some? && c.parseTime(chain[i - 1].rotatedAt).Some?
              && c.parseTime(chain[i].rotatedAt).value < c.parseTime(chain[i - 1].rotatedAt).value
  {
    var statement := chain[i];
    if statement.seqNo != ExpectedSeq(i) {
      return Some(SeqDiscontinuity);
    }
    if statement.did != did {
      return Some(OtherDid);
    }
    var expectedPrev := if i == 0 then genesis else chain[i - 1].newRoot;
    if statement.prevRoot != expectedPrev {
      return Some(BrokenLink);
    }
    var signed := VerifySignature(c, statement);
    if signed.Err? {
      return Some(signed.error);
    }
    if !signed.value {
      return Some(SignatureMismatch);
    }
    var thisTime := c.parseTime(statement.rotatedAt);
    if thisTime.None? {
      return Some(BadTime);
    }
    if prevTime.Some? && thisTime.value < prevTime.value {
      return Some(TimeGoesBack);
    }
    return None;
  }

  /**
   * Accept exactly the valid chains with a decodable head, and return that head; a
   * rejection names the first hop that is not good and the first check it fails.
   */
  method VerifyRotationChain(c: Crypto, did: string, chain: seq<RotationStatement>) returns (r: Result<Key, ChainError>)
    ensures r.Ok? <==> ValidChain(c, did, chain) && HeadKey(did, chain).Ok?
    ensures r.Ok? ==> Accepts(c, did, chain, r.value)
    ensures r.Err? && r.error.BadDid? <==> GenesisRoot(did).Err?
    ensures r.Err? && r.error.BadHop? ==>
              && GenesisRoot(did).Ok? && r.error.index < |chain|
              && Blames(c, did, GenesisRoot(did).value, chain, r.error.index, r.error.fault)
              && !GoodHop(c, did, GenesisRoot(did).value, chain, r.error.index)
              && ValidChain(c, did, chain[..r.error.index])
    ensures r.Err? && r.error.BadHead? ==> ValidChain(c, did, chain) && HeadKey(did, chain) == Err(r.error.reason)
  {
    hide DecodePublicKey, GenesisRoot, VerifySignature, GoodHop, Blames;
    var genesis := GenesisRoot(did);
    if genesis.Err? {
      return Err(BadDid(genesis.error));
    }
    if chain == [] {
      GenesisRootHasKey(did);
      return Ok(GenesisKey(did).value);
    }
    var prevTime: Option<int> := None;
    for i := 0 to |chain|
      invariant forall k :: 0 <= k < i ==> GoodHop(c, did, genesis.value, chain, k)
      invariant prevTime == if i == 0 then None else c.parseTime(chain[i - 1].rotatedAt)
    {
      var fault := CheckHop(c, did, genesis.value, chain, i, prevTime);
      if fault.Some? {
        PrefixHops(c, did, genesis.value, chain, i);
        return Err(BadHop(i, fault.value));
      }
      prevTime := c.parseTime(chain[i].rotatedAt);
    }
    var head := DecodePublicKey(chain[|chain| - 1].newRoot);
    r := match head case Ok(key) => Ok(key) case Err(e) => Err(BadHead(e));
  }

  lemma PrefixHops(c: Crypto, did: string, genesis: string, chain: seq<RotationStatement>, n: nat)
    requires n <= |chain|
    ensures (forall k :: 0 <= k < n ==> GoodHop(c, did, genesis, chain, k))
            <==> forall k :: 0 <= k < n ==> GoodHop(c, did, genesis, chain[..n], k)
  {
    hide DecodePublicKey, VerifySignature;
    forall k | 0 <= k < n
      ensures GoodHop(c, did, genesis, chain, k) == GoodHop(c, did, genesis, chain[..n], k)
    {
    }
  }

  // ---- What acceptance means ----

  lemma SignerKeyDecodes(c: Crypto, s: RotationStatement)
    requires VerifySignature(c, s).Ok?
    ensures DecodePublicKey(s.prevRoot).Ok?
  {
    hide DecodePublicKey;
  }

  /**
   * Statement `i` by its own fields: numbered from 1, of this DID, linked to the
   * predecessor's new root or to the DID's canonical key, carrying a 64-byte signature
   * that verifies over the five fields under the key it retires, and dated no earlier
   * than the predecessor.
   */
  predicate FieldsHold(c: Crypto, did: string, genesis: string, chain: seq<RotationStatement>, i: nat)
    requires i < |chain|
  {
    var s := chain[i];
    && s.seqNo == i + 1 && s.did == did
    && s.prevRoot == (if i == 0 then genesis else chain[i - 1].newRoot)
    && DecodePublicKey(s.prevRoot).Ok?
    && DecodeMultibase(s.signature).Ok? && |DecodeMultibase(s.signature).value| == 64
    && c.verify(c.canonicalize(RotationPayload(s.did, s.seqNo, s.prevRoot, s.newRoot, s.rotatedAt)),
                DecodeMultibase(s.signature).value, DecodePublicKey(s.prevRoot).value)
    && c.parseTime(s.rotatedAt).Some?
    && (i > 0 && c.parseTime(chain[i - 1].rotatedAt).Some? ==>
          c.parseTime(chain[i - 1].rotatedAt).value <= c.parseTime(s.rotatedAt).value)
  }

  lemma HopByItsFields(c: Crypto, did: string, genesis: string, chain: seq<RotationStatement>, i: nat)
    requires i < |chain| < U32
    ensures GoodHop(c, did, genesis, chain, i) <==> FieldsHold(c, did, genesis, chain, i)
  {
    hide DecodePublicKey, DecodeMultibase;
    SeqIsPosition(i);
  }

  /** A chain is accepted exactly for the fields of its statements. */
  lemma ChainsByTheirFields(c: Crypto, did: string, chain: seq<RotationStatement>)
    requires |chain| < U32
    ensures ValidChain(c, did, chain) <==>
              GenesisRoot(did).Ok? && forall i :: 0 <= i < |chain| ==> FieldsHold(c, did, GenesisRoot(did).value, chain, i)
  {
    hide GenesisRoot, FieldsHold, GoodHop;
    if GenesisRoot(did).Ok? {
      forall i | 0 <= i < |chain|
        ensures GoodHop(c, did, GenesisRoot(did).value, chain, i) <==> FieldsHold(c, did, GenesisRoot(did).value, chain, i)
      {
        HopByItsFields(c, did, GenesisRoot(did).value, chain, i);
      }
    }
  }

  /** Times never go back in an accepted chain, over any distance. */
  lemma {:induction false} TimesNeverGoBack(c: Crypto, did: string, chain: seq<RotationStatement>, root: Key, i: nat, j: nat)
    requires Accepts(c, did, chain, root) && i < j < |chain|
    ensures c.parseTime(chain[i].rotatedAt).Some? && c.parseTime(chain[j].rotatedAt).Some?
    ensures c.parseTime(chain[i].rotatedAt).value <= c.parseTime(chain[j].rotatedAt).value
  {
    hide GenesisRoot, HeadKey, Authorised;
    assert GoodHop(c, did, GenesisRoot(did).value, chain, j - 1) && GoodHop(c, did, GenesisRoot(did).value, chain, j);
    if i < j - 1 {
      TimesNeverGoBack(c, did, chain, root, i, j - 1);
    }
  }

  /** So no statement dated before the head, however well signed, extends a chain. */
  lemma BackdatedStatementIsRejected(c: Crypto, did: string, chain: seq<RotationStatement>, s: RotationStatement, root: Key)
    requires ValidChain(c, did, chain) && chain != []
    requires c.parseTime(s.rotatedAt).Some? && c.parseTime(chain[|chain| - 1].rotatedAt).Some?
    requires c.parseTime(s.rotatedAt).value < c.parseTime(chain[|chain| - 1].rotatedAt).value
    ensures !Accepts(c, did, chain + [s], root)
  {
    hide GenesisRoot, HeadKey, ValidChain;
    var longer, n := chain + [s], |chain|;
    assert longer[n - 1] == chain[n - 1] && longer[n] == s;
    if Accepts(c, did, longer, root) {
      TimesNeverGoBack(c, did, longer, root, n - 1, n);
    }
  }

  /** Every prefix of an accepted chain is accepted: its head decoded, for it signed the next hop. */
  lemma PrefixIsAccepted(c: Crypto, did: string, chain: seq<RotationStatement>, root: Key, n: nat)
    requires Accepts(c, did, chain, root) && n <= |chain|
    ensures HeadKey(did, chain[..n]).Ok?
    ensures Accepts(c, did, chain[..n], HeadKey(did, chain[..n]).value)
  {
    hide DecodePublicKey, GenesisRoot, GenesisKey, VerifySignature;
    PrefixHops(c, did, GenesisRoot(did).value, chain, n);
    GenesisRootHasKey(did);
    if n == |chain| {
      assert chain[..n] == chain;
    } else if n > 0 {
      assert GoodHop(c, did, GenesisRoot(did).value, chain, n);
      SignerKeyDecodes(c, chain[n]);
      assert chain[n].prevRoot == chain[n - 1].newRoot == chain[..n][n - 1].newRoot;
    }
  }

  /** The first place where two chains differ, or the shorter length. */
  function CommonPrefix(a: seq<RotationStatement>, b: seq<RotationStatement>): (n: nat)
    ensures n <= |a| && n <= |b|
    ensures a[..n] == b[..n]
    ensures n < |a| && n < |b| ==> a[n] != b[n]
  {
    if a == [] || b == [] || a[0] != b[0] then 0
    else
      var n := 1 + CommonPrefix(a[1..], b[1..]);
      assert a[..n] == [a[0]] + a[1..][..n - 1] && b[..n] == [b[0]] + b[1..][..n - 1];
      n
  }

  /** Two different statements for one position, both signed by the one key that retires there. */
  predicate Equivocation(c: Crypto, s: RotationStatement, t: RotationStatement, key: Key) {
    && s != t && s.did == t.did && s.seqNo == t.seqNo && s.prevRoot == t.prevRoot
    && DecodePublicKey(s.prevRoot) == Ok(key)
    && DecodeMultibase(s.signature).Ok? && DecodeMultibase(t.signature).Ok?
    && c.verify(c.canonicalize(s.Payload()), DecodeMultibase(s.signature).value, key)
    && c.verify(c.canonicalize(t.Payload()), DecodeMultibase(t.signature).value, key)
  }

  /**
   * Two chains accepted for one DID extend one another, or else the first place where
   * they differ is evidence that one retiring key signed two statements.
   */
  lemma ForkIsEquivocation(c: Crypto, did: string, a: seq<RotationStatement>, b: seq<RotationStatement>)
    requires ValidChain(c, did, a) && ValidChain(c, did, b)
    ensures
      var n := CommonPrefix(a, b);
      || a <= b
      || b <= a
      || (n < |a| && n < |b| && DecodePublicKey(a[n].prevRoot).Ok?
          && Equivocation(c, a[n], b[n], DecodePublicKey(a[n].prevRoot).value))
  {
    hide GenesisRoot;
    var n := CommonPrefix(a, b);
    if n == |a| {
      assert a == a[..n] && b[..n] <= b;
    } else if n == |b| {
      assert b == b[..n];
    } else {
      var genesis := GenesisRoot(did).value;
      assert GoodHop(c, did, genesis, a, n) && GoodHop(c, did, genesis, b, n);
      assert n > 0 ==> a[n - 1] == a[..n][n - 1] && b[n - 1] == b[..n][n - 1];
    }
  }

  /**
   * `signed` records what the holder of each key has signed. Signatures cannot be made
   * up: a statement that anyone ever presents verifies only if its payload is on record.
   */
  ghost predicate PresentedWereSigned(c: Crypto, presented: iset<RotationStatement>, signed: iset<(Key, RotationPayload)>) {
    forall s :: s in presented && VerifySignature(c, s) == Ok(true) ==>
      DecodePublicKey(s.prevRoot).Ok? && (DecodePublicKey(s.prevRoot).value, s.Payload()) in signed
  }

  ghost predicate NoKeySignsTwice(signed: iset<(Key, RotationPayload)>) {
    forall x, y :: x in signed && y in signed && x.0 == y.0 ==> x.1 == y.1
  }

  /** Every statement of a valid chain was signed by the holder of the key it retires. */
  lemma StatementsAreRecorded(c: Crypto, did: string, chain: seq<RotationStatement>,
                              presented: iset<RotationStatement>, signed: iset<(Key, RotationPayload)>, i: nat)
    requires ValidChain(c, did, chain) && i < |chain| && chain[i] in presented
    requires PresentedWereSigned(c, presented, signed)
    ensures DecodePublicKey(chain[i].prevRoot).Ok?
    ensures (DecodePublicKey(chain[i].prevRoot).value, chain[i].Payload()) in signed
  {
    hide DecodePublicKey, VerifySignature, GenesisRoot;
    assert GoodHop(c, did, GenesisRoot(did).value, chain, i);
  }

  /** If no key signs two statements, all valid chains of a DID agree wherever both reach. */
  lemma {:induction false} HistoryIsLinear(c: Crypto, did: string, a: seq<RotationStatement>, b: seq<RotationStatement>,
                                           presented: iset<RotationStatement>, signed: iset<(Key, RotationPayload)>, i: nat)
    requires ValidChain(c, did, a) && ValidChain(c, did, b)
    requires (forall s :: s in a ==> s in presented) && (forall s :: s in b ==> s in presented)
    requires PresentedWereSigned(c, presented, signed) && NoKeySignsTwice(signed)
    requires i < |a| && i < |b|
    ensures a[i].Payload() == b[i].Payload()
  {
    hide DecodePublicKey, GenesisRoot, GoodHop, ValidChain, PresentedWereSigned;
    HopLinks(c, did, a, i);
    HopLinks(c, did, b, i);
    if i > 0 {
      HistoryIsLinear(c, did, a, b, presented, signed, i - 1);
      assert a[i - 1].Payload().newRoot == b[i - 1].Payload().newRoot;
    }
    StatementsAreRecorded(c, did, a, presented, signed, i);
    StatementsAreRecorded(c, did, b, presented, signed, i);
    SameSignerSamePayload(a[i], b[i], signed);
  }

  lemma HopLinks(c: Crypto, did: string, chain: seq<RotationStatement>, i: nat)
    requires ValidChain(c, did, chain) && i < |chain|
    ensures chain[i].prevRoot == ExpectedPrev(GenesisRoot(did).value, chain, i)
  {
    hide DecodePublicKey, GenesisRoot, VerifySignature;
    assert GoodHop(c, did, GenesisRoot(did).value, chain, i);
  }

  lemma SameSignerSamePayload(s: RotationStatement, t: RotationStatement, signed: iset<(Key, RotationPayload)>)
    requires NoKeySignsTwice(signed) && s.prevRoot == t.prevRoot && DecodePublicKey(s.prevRoot).Ok?
    requires (DecodePublicKey(s.prevRoot).value, s.Payload()) in signed
    requires (DecodePublicKey(t.prevRoot).value, t.Payload()) in signed
    ensures s.Payload() == t.Payload()
  {
    var key := DecodePublicKey(s.prevRoot).value;
    var x, y := (key, s.Payload()), (key, t.Payload());
    assert x in signed && y in signed && x.0 == y.0;
  }

  // ---- Honest chains ----

  /** Rotate through `seeds[1..]`, each statement signed by the key it retires. */
  function BuildChain(c: Crypto, did: string, seeds: seq<Key>, times: seq<int>): (chain: seq<RotationStatement>)
    requires 0 < |seeds| <= U32 && |times| == |seeds| - 1
    ensures |chain| == |times|
  {
    if |times| == 0 then []
    else
      var n := |times| - 1;
      var before := BuildChain(c, did, seeds[..n + 1], times[..n]);
      before + [CreateStatement(c, did, n + 1, EncodeRoot(c.publicKey(seeds[n])), c.publicKey(seeds[n + 1]), seeds[n], times[n])]
  }

  lemma StatementIsAuthorised(c: Crypto, did: string, seqNo: u32, newPublicKey: Key, seed: Key, now: int)
    requires Correct(c)
    ensures
      var s := CreateStatement(c, did, seqNo, EncodeRoot(c.publicKey(seed)), newPublicKey, seed, now);
      && VerifySignature(c, s) == Ok(true)
      && s.did == did && s.seqNo == seqNo && s.prevRoot == EncodeRoot(c.publicKey(seed))
      && s.newRoot == EncodeRoot(newPublicKey)
      && c.parseTime(s.rotatedAt) == Some(now)
      && DecodePublicKey(s.newRoot) == Ok(newPublicKey)
  {
    DecodeEncodeRoot(c.publicKey(seed));
    DecodeEncodeRoot(newPublicKey);
    var s := CreateStatement(c, did, seqNo, EncodeRoot(c.publicKey(seed)), newPublicKey, seed, now);
    DecodeEncodeMultibase(c.sign(c.canonicalize(s.Payload()), seed));
  }

  /** What the next statement must give as its previous root. */
  function RootText(did: string, chain: seq<RotationStatement>): string
    requires GenesisRoot(did).Ok?
  {
    if chain == [] then GenesisRoot(did).value else chain[|chain| - 1].newRoot
  }

  lemma AppendHop(c: Crypto, did: string, chain: seq<RotationStatement>, s: RotationStatement)
    requires ValidChain(c, did, chain) && |chain| + 1 < U32
    requires s.did == did && s.seqNo == |chain| + 1 && s.prevRoot == RootText(did, chain)
    requires VerifySignature(c, s) == Ok(true) && c.parseTime(s.rotatedAt).Some?
    requires chain != [] && c.parseTime(chain[|chain| - 1].rotatedAt).Some? ==>
               c.parseTime(chain[|chain| - 1].rotatedAt).value <= c.parseTime(s.rotatedAt).value
    ensures ValidChain(c, did, chain + [s])
  {
    hide DecodePublicKey, GenesisRoot, VerifySignature;
    var n := |chain|;
    var longer := chain + [s];
    var genesis := GenesisRoot(did).value;
    SeqIsPosition(n);
    assert GoodHop(c, did, genesis, longer, n);
    forall i | 0 <= i < |longer| ensures GoodHop(c, did, genesis, longer, i) {
      if i < n {
        assert GoodHop(c, did, genesis, chain, i);
      }
    }
  }

  /** An un-rotated identity's root is the key its DID names. */
  lemma EmptyChainIsGenesis(c: Crypto, key: Key)
    ensures Accepts(c, DeriveDid(key), [], key)
  {
    DerivedDidNamesItsKey(key);
  }

  /** One more honest rotation keeps a chain acceptable and moves its head to the new key. */
  lemma HonestRotation(c: Crypto, did: string, chain: seq<RotationStatement>, seed: Key, newPublicKey: Key, now: int)
    requires Correct(c) && ValidChain(c, did, chain) && |chain| + 1 < U32
    requires RootText(did, chain) == EncodeRoot(c.publicKey(seed))
    requires chain != [] && c.parseTime(chain[|chain| - 1].rotatedAt).Some? ==>
               c.parseTime(chain[|chain| - 1].rotatedAt).value <= now
    ensures
      var s := CreateStatement(c, did, |chain| + 1, EncodeRoot(c.publicKey(seed)), newPublicKey, seed, now);
      Accepts(c, did, chain + [s], newPublicKey)
  {
    hide DecodePublicKey, GenesisRoot, EncodeRoot, VerifySignature, CreateStatement, ValidChain;
    StatementIsAuthorised(c, did, |chain| + 1, newPublicKey, seed, now);
    AppendHop(c, did, chain, CreateStatement(c, did, |chain| + 1, EncodeRoot(c.publicKey(seed)), newPublicKey, seed, now));
  }

  /**
   * Any number of honest rotations from the DID's own key, at non-decreasing times,
   * makes a chain that verifies and yields the newest key.
   */
  lemma {:induction false} BuiltChainVerifies(c: Crypto, seeds: seq<Key>, times: seq<int>)
    requires Correct(c)
    requires 0 < |seeds| <= U32 && |times| == |seeds| - 1
    requires forall i, j :: 0 <= i < j < |times| ==> times[i] <= times[j]
    ensures
      var did := DeriveDid(c.publicKey(seeds[0]));
      Accepts(c, did, BuildChain(c, did, seeds, times), c.publicKey(seeds[|seeds| - 1]))
    ensures
      var chain := BuildChain(c, DeriveDid(c.publicKey(seeds[0])), seeds, times);
      forall i :: 0 <= i < |chain| ==> chain[i].newRoot == EncodeRoot(c.publicKey(seeds[i + 1])) && c.parseTime(chain[i].rotatedAt) == Some(times[i])
    decreases |times|
  {
    hide DecodePublicKey, GenesisRoot, GenesisKey, EncodeRoot, VerifySignature, ValidChain, CreateStatement, DeriveDid;
    var did := DeriveDid(c.publicKey(seeds[0]));
    DerivedDidNamesItsKey(c.publicKey(seeds[0]));
    EmptyChainIsGenesis(c, c.publicKey(seeds[0]));
    if |times| > 0 {
      var n := |times| - 1;
      var before := BuildChain(c, did, seeds[..n + 1], times[..n]);
      BuiltChainVerifies(c, seeds[..n + 1], times[..n]);
      StatementIsAuthorised(c, did, n + 1, c.publicKey(seeds[n + 1]), seeds[n], times[n]);
      HonestRotation(c, did, before, seeds[n], c.publicKey(seeds[n + 1]), times[n]);
    }
  }

  lemma {:induction false} BuiltStatement(c: Crypto, did: string, seeds: seq<Key>, times: seq<int>, i: nat)
    requires 0 < |seeds| <= U32 && |times| == |seeds| - 1 && i < |times|
    ensures BuildChain(c, did, seeds, times)[i]
            == CreateStatement(c, did, i + 1, EncodeRoot(c.publicKey(seeds[i])), c.publicKey(seeds[i + 1]), seeds[i], times[i])
    decreases |times|
  {
    hide CreateStatement, EncodeRoot;
    var n := |times| - 1;
    if i < n {
      BuiltStatement(c, did, seeds[..n + 1], times[..n], i);
    }
  }

  /** The record of an honest history: each key of the chain signed the statement that retired it. */
  ghost function HonestRecord(c: Crypto, did: string, seeds: seq<Key>, times: seq<int>): iset<(Key, RotationPayload)>
    requires 0 < |seeds| <= U32 && |times| == |seeds| - 1
  {
    iset i: nat | i < |times| :: (c.publicKey(seeds[i]), BuildChain(c, did, seeds, times)[i].Payload())
  }

  /**
   * The two laws behind a linear history hold of every honest one, over keys that are
   * never used again and with any library.
   */
  lemma HonestHistoryIsRecorded(c: Crypto, did: string, seeds: seq<Key>, times: seq<int>)
    requires 0 < |seeds| <= U32 && |times| == |seeds| - 1
    requires forall i, j :: 0 <= i < j < |seeds| ==> c.publicKey(seeds[i]) != c.publicKey(seeds[j])
    ensures PresentedWereSigned(c, (iset s | s in BuildChain(c, did, seeds, times)), HonestRecord(c, did, seeds, times))
    ensures NoKeySignsTwice(HonestRecord(c, did, seeds, times))
  {
    hide DecodePublicKey, EncodeRoot, BuildChain, VerifySignature;
    var chain, signed := BuildChain(c, did, seeds, times), HonestRecord(c, did, seeds, times);
    forall s | s in chain
      ensures DecodePublicKey(s.prevRoot).Ok? && (DecodePublicKey(s.prevRoot).value, s.Payload()) in signed
    {
      var i: nat :| i < |chain| && chain[i] == s;
      BuiltStatement(c, did, seeds, times, i);
      DecodeEncodeRoot(c.publicKey(seeds[i]));
    }
    forall x, y | x in signed && y in signed && x.0 == y.0 ensures x.1 == y.1 {
      var i: nat :| i < |times| && x == (c.publicKey(seeds[i]), chain[i].Payload());
      var j: nat :| j < |times| && y == (c.publicKey(seeds[j]), chain[j].Payload());
      assert i == j;
    }
  }
}
