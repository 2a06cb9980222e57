/** Identity bundles: what an export archive holds and when an import accepts it. */
module Bundle {
  import opened Wrappers
  import opened Encoding
  import opened Rotation
  import opened LegacyDigest

  const MAX_UNCOMPRESSED_BYTES: nat := 500 * 1024 * 1024
  const MAX_ENTRIES: nat := 10_000
  const MANIFEST := "manifest.json"
  const IDENTITY := "identity.json"

  /** The encrypted seed columns. */
  datatype SealedSeed = SealedSeed(salt: string, nonce: string, ct: string, tag: string)

  /** The `rotation_chain` field: no array at all, an array that holds something else, or statements. */
  datatype ChainField = NotAnArray | NotStatements | Statements(chain: seq<RotationStatement>)

  datatype IdentityDoc = IdentityDoc(did: string, publicKey: string, rotationChain: ChainField, aegis: Option<SealedSeed>)

  /** The manifest without its signature block: exactly what is signed. */
  datatype ManifestCore = ManifestCore(did: string, createdAt: string, rotationSeq: nat, counts: seq<nat>, files: map<string, string>)

  datatype SignatureBlock = SignatureBlock(signedPayload: string, signature: string, signingKey: string)

  datatype Manifest = Manifest(core: ManifestCore, signature: Option<SignatureBlock>, unsigned: bool)

  datatype LegacyManifest = LegacyManifest(did: string, contentDigest: string)

  /** A parsed `manifest.json`, by what it claims to be; `None` where the schema rejects it. */
  datatype RawManifest = ClaimsV1(v1: Option<LegacyManifest>) | ClaimsV2(v2: Option<Manifest>)

  /** JSON, hashing, canonicalisation and zip sizes: library calls. */
  datatype Formats = Formats(readManifest: Bytes -> Option<RawManifest>, writeManifest: Manifest -> Bytes,
                             readIdentity: Bytes -> Option<IdentityDoc>, writeIdentity: IdentityDoc -> Bytes,
                             canonicalize: ManifestCore -> string, sha256: Bytes -> string,
                             utf8: string -> Bytes, declaredSize: FileMap -> nat)

  /** JSON text reads back as what was written. */
  ghost predicate RoundTrips(k: Formats) {
    && (forall m :: k.readManifest(k.writeManifest(m)) == Some(ClaimsV2(Some(m))))
    && (forall d :: k.readIdentity(k.writeIdentity(d)) == Some(d))
  }

  /** An upload: not a zip, or its entries with the sum of the sizes they declare. */
  datatype Archive = NotAZip | Zip(files: FileMap, declared: nat)

  datatype Verification = Signed | Unsigned | LegacyUnverified

  datatype ParsedBundle = ParsedBundle(did: string, files: FileMap, rootKey: Key, chain: seq<RotationStatement>, verification: Verification)

  datatype ImportError =
    | InvalidArchive | MissingManifest | MalformedManifest | InvalidDid
    | MissingFile | DigestMismatch | UndeclaredFiles
    | SignedAndUnsigned | NeitherSignedNorUnsigned | InvalidChain | SigningKeyMismatch
    | PayloadMismatch | BadSignature

  /** The hash of every file but the manifest. */
  function FileHashes(k: Formats, files: FileMap): map<string, string> {
    map n | n in files && n != MANIFEST :: k.sha256(files[n])
  }

  /** `parseDid`: only the spelling with the multicodec prefix. */
  function ParseDid(did: string): Option<Key> {
    if DID_SCHEME <= did && DecodeMultibase(MethodId(did)).Ok? && HasKeyPrefix(DecodeMultibase(MethodId(did)).value)
    then Some(DecodeMultibase(MethodId(did)).value[2..])
    else None
  }

  function ReadManifest(k: Formats, files: FileMap): Option<RawManifest> {
    if MANIFEST in files then k.readManifest(files[MANIFEST]) else None
  }

  /** The embedded chain; empty unless `identity.json` holds an array, `None` if that is not a chain. */
  function EmbeddedChain(k: Formats, files: FileMap): Option<seq<RotationStatement>> {
    if IDENTITY in files && k.readIdentity(files[IDENTITY]).Some? then
      match k.readIdentity(files[IDENTITY]).value.rotationChain
      case NotAnArray => Some([])
      case NotStatements => None
      case Statements(chain) => Some(chain)
    else Some([])
  }

  predicate WithinLimits(a: Archive) {
    a.Zip? && |a.files| <= MAX_ENTRIES && a.declared <= MAX_UNCOMPRESSED_BYTES
  }

  /** The root key a chain embedded beside this DID resolves to. */
  predicate ResolvesTo(c: Crypto, did: string, chain: seq<RotationStatement>, root: Key) {
    if chain == [] then ParseDid(did) == Some(root) else Accepts(c, did, chain, root)
  }

  /** The block signs this very core, under the key it names, which is `root`. */
  predicate SignedBy(k: Formats, c: Crypto, core: ManifestCore, sig: SignatureBlock, root: Key) {
    && sig.signingKey == EncodeRoot(root)
    && sig.signedPayload == k.canonicalize(core)
    && DecodeMultibase(sig.signature).Ok?
    && |DecodeMultibase(sig.signature).value| == 64
    && c.verify(sig.signedPayload, DecodeMultibase(sig.signature).value, root)
  }

  /** A version-2 archive is authentic, and parses to `b`. */
  predicate AuthenticV2(k: Formats, c: Crypto, a: Archive, m: Manifest, b: ParsedBundle) {
    && WithinLimits(a)
    && ReadManifest(k, a.files) == Some(ClaimsV2(Some(m)))
    && ParseDid(m.core.did).Some?
    && m.core.files == FileHashes(k, a.files)
    && (m.signature.Some? <==> !m.unsigned)
    && b.did == m.core.did && b.files == a.files && Some(b.chain) == EmbeddedChain(k, a.files)
    && ResolvesTo(c, b.did, b.chain, b.rootKey)
    && (m.signature.Some? ==> SignedBy(k, c, m.core, m.signature.value, b.rootKey))
    && b.verification == if m.signature.Some? then Signed else Unsigned
  }

  ghost predicate AuthenticV1(k: Formats, a: Archive, m: LegacyManifest, b: ParsedBundle) {
    && WithinLimits(a)
    && ReadManifest(k, a.files) == Some(ClaimsV1(Some(m)))
    && ParseDid(m.did).Some?
    && (exists stream :: IsDigestStream(a.files, k.utf8, stream) && k.sha256(stream) == m.contentDigest)
    && b == ParsedBundle(m.did, a.files, ParseDid(m.did).value, [], LegacyUnverified)
  }

  ghost predicate Authentic(k: Formats, c: Crypto, a: Archive, b: ParsedBundle) {
    || (exists m :: AuthenticV2(k, c, a, m, b))
    || (exists m :: AuthenticV1(k, a, m, b))
  }

  /** One archive parses to at most one bundle. */
  lemma AuthenticIsUnique(k: Formats, c: Crypto, a: Archive, b1: ParsedBundle, b2: ParsedBundle)
    requires Authentic(k, c, a, b1) && Authentic(k, c, a, b2)
    ensures b1 == b2
  {
    hide ParseDid, EmbeddedChain, FileHashes, SignedBy, IsDigestStream, ValidChain, HeadKey;
  }

  // ---- What the verdicts mean ----

  /** The manifest as it reads, if it is there. */
  predicate ManifestReads(k: Formats, files: FileMap, raw: RawManifest) {
    "manifest.json" in files && k.readManifest(files["manifest.json"]) == Some(raw)
  }

  /**
   * `signed` means exactly that the manifest is a version-2 one with a signature block;
   * the block then names the bundle's root and its 64-byte signature verifies under that
   * root over the canonical form of this very manifest.
   */
  lemma SignedMeans(k: Formats, c: Crypto, a: Archive, b: ParsedBundle)
    requires Authentic(k, c, a, b)
    ensures b.verification == Signed <==>
              exists m: Manifest :: ManifestReads(k, a.files, ClaimsV2(Some(m))) && m.signature.Some?
    ensures forall m: Manifest :: ManifestReads(k, a.files, ClaimsV2(Some(m))) && m.signature.Some? ==>
              var sig := m.signature.value;
              && !m.unsigned
              && sig.signingKey == EncodeRoot(b.rootKey) && sig.signedPayload == k.canonicalize(m.core)
              && DecodeMultibase(sig.signature).Ok? && |DecodeMultibase(sig.signature).value| == 64
              && c.verify(k.canonicalize(m.core), DecodeMultibase(sig.signature).value, b.rootKey)
  {
    hide ParseDid, EmbeddedChain, FileHashes, ResolvesTo, DecodeMultibase, EncodeRoot, IsDigestStream;
    if m :| AuthenticV2(k, c, a, m, b) {
      assert ManifestReads(k, a.files, ClaimsV2(Some(m)));
    }
  }

  /** `unsigned` means exactly a version-2 manifest that is marked so and carries no block. */
  lemma UnsignedMeans(k: Formats, c: Crypto, a: Archive, b: ParsedBundle)
    requires Authentic(k, c, a, b)
    ensures b.verification == Unsigned <==>
              exists m: Manifest :: ManifestReads(k, a.files, ClaimsV2(Some(m))) && m.signature.None? && m.unsigned
  {
    hide ParseDid, EmbeddedChain, FileHashes, ResolvesTo, SignedBy, IsDigestStream;
    if m :| AuthenticV2(k, c, a, m, b) {
      assert ManifestReads(k, a.files, ClaimsV2(Some(m)));
    }
  }

  /**
   * `legacy-unverified` means exactly a manifest that claims version 1; nothing but the
   * aggregate digest was checked, and the DID's own key is all there is to go by.
   */
  lemma LegacyMeans(k: Formats, c: Crypto, a: Archive, b: ParsedBundle)
    requires Authentic(k, c, a, b)
    ensures b.verification == LegacyUnverified <==>
              exists m: LegacyManifest :: ManifestReads(k, a.files, ClaimsV1(Some(m)))
    ensures forall m: LegacyManifest :: ManifestReads(k, a.files, ClaimsV1(Some(m))) ==>
              && b.did == m.did && b.chain == [] && GenesisKey(m.did) == Ok(b.rootKey)
              && exists stream :: IsDigestStream(a.files, k.utf8, stream) && k.sha256(stream) == m.contentDigest
  {
    hide DecodeMultibase, EmbeddedChain, FileHashes, ResolvesTo, SignedBy, IsDigestStream;
    if m :| AuthenticV1(k, a, m, b) {
      assert ManifestReads(k, a.files, ClaimsV1(Some(m)));
    }
  }

  /**
   * Whatever the verdict, an accepted bundle is the archive's own files, within the
   * limits, under a well-formed DID; of a version-2 archive the manifest's map is
   * exactly the hash of each other file, and the root is the head of the embedded chain
   * or, without one, the DID's own key.
   */
  lemma AcceptedMeans(k: Formats, c: Crypto, a: Archive, b: ParsedBundle)
    requires Authentic(k, c, a, b)
    ensures a.Zip? && |a.files| <= 10_000 && a.declared <= 500 * 1024 * 1024 && b.files == a.files
    ensures "did:syr:" <= b.did && GenesisKey(b.did).Ok? && DecodePublicKey(b.did[8..]).Ok?
    ensures forall m: Manifest :: ManifestReads(k, a.files, ClaimsV2(Some(m))) ==>
              && b.did == m.core.did
              && (forall n :: n in m.core.files <==> n in a.files && n != "manifest.json")
              && (forall n :: n in m.core.files ==> m.core.files[n] == k.sha256(a.files[n]))
              && ("identity.json" in a.files && k.readIdentity(a.files["identity.json"]).Some?
                  && k.readIdentity(a.files["identity.json"]).value.rotationChain.Statements? ==>
                    b.chain == k.readIdentity(a.files["identity.json"]).value.rotationChain.chain)
              && (b.chain == [] ==> GenesisKey(b.did) == Ok(b.rootKey))
              && (b.chain != [] ==> ValidChain(c, b.did, b.chain) && DecodePublicKey(b.chain[|b.chain| - 1].newRoot) == Ok(b.rootKey))
  {
    hide DecodeMultibase, SignedBy, IsDigestStream, ValidChain;
    if m :| AuthenticV2(k, c, a, m, b) {
      forall n ensures n in m.core.files <==> n in a.files && n != "manifest.json" {
        assert n in FileHashes(k, a.files) <==> n in a.files && n != MANIFEST;
      }
    }
  }

  // ---- Verification ----

  /** How declared and actual hashes differ, by the three rejections. */
  predicate FilesBlame(declared: map<string, string>, actual: map<string, string>, error: ImportError) {
    match error
    case MissingFile => exists n :: n in declared && n !in actual
    case DigestMismatch => exists n :: n in declared && n in actual && actual[n] != declared[n]
    case UndeclaredFiles =>
      && (forall n :: n in declared ==> n in actual && actual[n] == declared[n])
      && (exists n :: n in actual && n !in declared)
    case _ => false
  }

  /** The root cannot be resolved, or is not the one the signature block names. */
  ghost predicate RootBlame(k: Formats, c: Crypto, m: Manifest, files: FileMap, error: ImportError) {
    var embedded := EmbeddedChain(k, files);
    match error
    case SignedAndUnsigned => m.signature.Some? && m.unsigned
    case NeitherSignedNorUnsigned => m.signature.None? && !m.unsigned
    case InvalidChain =>
      && (m.signature.Some? <==> !m.unsigned)
      && (embedded.None? || (embedded.value != [] && forall root :: !Accepts(c, m.core.did, embedded.value, root)))
    case SigningKeyMismatch =>
      m.signature.Some? && !m.unsigned && embedded.Some?
      && exists root :: ResolvesTo(c, m.core.did, embedded.value, root) && m.signature.value.signingKey != EncodeRoot(root)
    case _ => false
  }

  /** The signature block names the resolved root, but does not sign this manifest under it. */
  ghost predicate SignatureBlame(k: Formats, c: Crypto, m: Manifest, files: FileMap, error: ImportError) {
    && m.signature.Some? && !m.unsigned && EmbeddedChain(k, files).Some?
    && exists root :: ResolvesTo(c, m.core.did, EmbeddedChain(k, files).value, root)
         && m.signature.value.signingKey == EncodeRoot(root)
         && !SignedBy(k, c, m.core, m.signature.value, root)
         && error == if m.signature.value.signedPayload == k.canonicalize(m.core) then BadSignature else PayloadMismatch
  }

  /** A rejection of a version-2 archive names the first check that it fails. */
  ghost predicate Blames(k: Formats, c: Crypto, files: FileMap, m: Manifest, error: ImportError) {
    if ParseDid(m.core.did).None? then error == InvalidDid
    else if m.core.files != FileHashes(k, files) then FilesBlame(m.core.files, FileHashes(k, files), error)
    else RootBlame(k, c, m, files, error) || SignatureBlame(k, c, m, files, error)
  }

  /** Recompute the hashes and cross the declared ones off: none missing, none different, none left over. */
  method AssertFilesMatch(k: Formats, files: FileMap, declared: map<string, string>) returns (error: Option<ImportError>)
    ensures error.None? <==> declared == FileHashes(k, files)
    ensures error.Some? ==> FilesBlame(declared, FileHashes(k, files), error.value)
    ensures error == Some(MissingFile) ==> exists n :: n in declared && (n !in files || n == "manifest.json")
    ensures error == Some(DigestMismatch) ==> exists n :: n in declared && n in files && declared[n] != k.sha256(files[n])
    ensures error == Some(UndeclaredFiles) ==> exists n :: n in files && n != "manifest.json" && n !in declared
  {
    var actual := HashFilesExceptManifest(k, files);
    var pending := declared.Keys;
    ghost var all := actual;
    while pending != {}
      invariant pending <= declared.Keys
      invariant forall n :: n in declared && n !in pending ==> n in all && all[n] == declared[n]
      invariant actual == map n | n in all && (n in declared ==> n in pending) :: all[n]
      decreases pending
    {
      var name :| name in pending;
      if name !in actual {
        return Some(MissingFile);
      }
      if actual[name] != declared[name] {
        return Some(DigestMismatch);
      }
      actual := actual - {name};
      pending := pending - {name};
    }
    if actual != map[] {
      assert exists n :: n in actual;
      return Some(UndeclaredFiles);
    }
    forall n | n in all ensures n in declared {
      assert n !in actual;
    }
    assert declared == all;
    return None;
  }

  method HashFilesExceptManifest(k: Formats, files: FileMap) returns (hashes: map<string, string>)
    ensures hashes == FileHashes(k, files)
  {
    hashes := map[];
    var pending := files.Keys;
    while pending != {}
      invariant pending <= files.Keys
      invariant hashes == map n | n in files && n != MANIFEST && n !in pending :: k.sha256(files[n])
      decreases pending
    {
      var name :| name in pending;
      if name != MANIFEST {
        hashes := hashes[name := k.sha256(files[name])];
      }
      pending := pending - {name};
    }
  }

  method ResolveBundleRootKey(k: Formats, c: Crypto, m: Manifest, files: FileMap)
    returns (r: Result<(Key, seq<RotationStatement>), ImportError>)
    requires ParseDid(m.core.did).Some?
    ensures r.Ok? ==> Some(r.value.1) == EmbeddedChain(k, files) && ResolvesTo(c, m.core.did, r.value.1, r.value.0)
    ensures r.Ok? <==>
              && (m.signature.Some? <==> !m.unsigned)
              && EmbeddedChain(k, files).Some?
              && exists root :: ResolvesTo(c, m.core.did, EmbeddedChain(k, files).value, root)
                                && (m.signature.Some? ==> m.signature.value.signingKey == EncodeRoot(root))
    ensures r.Ok? && m.signature.Some? ==> m.signature.value.signingKey == EncodeRoot(r.value.0)
    ensures r.Err? ==> RootBlame(k, c, m, files, r.error)
    ensures r == Err(SignedAndUnsigned) <==> m.signature.Some? && m.unsigned
    ensures r == Err(NeitherSignedNorUnsigned) <==> m.signature.None? && !m.unsigned
  {
    hide ParseDid, EncodeRoot, ValidChain;
    if m.signature.Some? && m.unsigned {
      return Err(SignedAndUnsigned);
    }
    if m.signature.None? && !m.unsigned {
      return Err(NeitherSignedNorUnsigned);
    }
    var embedded := EmbeddedChain(k, files);
    if embedded.None? {
      return Err(InvalidChain);
    }
    var chain := embedded.value;
    var root: Key;
    if chain == [] {
      root := ParseDid(m.core.did).value;
    } else {
      var head := VerifyRotationChain(c, m.core.did, chain);
      if head.Err? {
        return Err(InvalidChain);
      }
      root := head.value;
    }
    assert ResolvesTo(c, m.core.did, chain, root);
    if m.signature.Some? && EncodeRoot(root) != m.signature.value.signingKey {
      return Err(SigningKeyMismatch);
    }
    return Ok((root, chain));
  }

  /** An upload is accepted exactly when it is authentic. */
  method ParseAndVerify(k: Formats, c: Crypto, a: Archive) returns (r: Result<ParsedBundle, ImportError>)
    ensures r.Ok? ==> Authentic(k, c, a, r.value)
    ensures r.Err? ==> forall b :: !Authentic(k, c, a, b)
    ensures r == Err(InvalidArchive) <==> !WithinLimits(a)
    ensures r == Err(MissingManifest) <==> WithinLimits(a) && ReadManifest(k, a.files).None?
  {
    hide ParseDid, EncodeRoot, ResolvesTo, EmbeddedChain, FileHashes, IsDigestStream, AuthenticV1;
    if !WithinLimits(a) {
      NotAuthenticV1(k, a);
      return Err(InvalidArchive);
    }
    var raw := ReadManifest(k, a.files);
    if raw.None? {
      NotAuthenticV1(k, a);
      return Err(MissingManifest);
    }
    if raw.value.ClaimsV1? {
      r := ParseAndVerifyV1(k, a, raw.value.v1);
      return;
    }
    NotAuthenticV1(k, a);
    if raw.value.v2.None? {
      return Err(MalformedManifest);
    }
    r := ParseAndVerifyV2(k, c, a, raw.value.v2.value);
  }

  lemma NotAuthenticV1(k: Formats, a: Archive)
    requires !WithinLimits(a) || ReadManifest(k, a.files).None? || ReadManifest(k, a.files).value.ClaimsV2?
    ensures forall m, b :: !AuthenticV1(k, a, m, b)
  {
  }

  method ParseAndVerifyV2(k: Formats, c: Crypto, a: Archive, m: Manifest) returns (r: Result<ParsedBundle, ImportError>)
    requires WithinLimits(a) && ReadManifest(k, a.files) == Some(ClaimsV2(Some(m)))
    ensures r.Ok? ==> AuthenticV2(k, c, a, m, r.value)
    ensures r.Err? ==> (forall b, other :: !AuthenticV2(k, c, a, other, b)) && Blames(k, c, a.files, m, r.error)
  {
    hide ParseDid, EncodeRoot, EmbeddedChain, FileHashes, ResolvesTo, DecodeMultibase;
    if ParseDid(m.core.did).None? {
      return Err(InvalidDid);
    }
    var mismatch := AssertFilesMatch(k, a.files, m.core.files);
    if mismatch.Some? {
      return Err(mismatch.value);
    }
    var resolved := ResolveBundleRootKey(k, c, m, a.files);
    if resolved.Err? {
      return Err(resolved.error);
    }
    var (root, chain) := resolved.value;
    OneRoot(c, m.core.did, chain, root);
    if m.signature.Some? {
      var sig := m.signature.value;
      if k.canonicalize(m.core) != sig.signedPayload {
        return Err(PayloadMismatch);
      }
      var signature := DecodeMultibase(sig.signature);
      if signature.Err? || |signature.value| != 64 || !c.verify(sig.signedPayload, signature.value, root) {
        return Err(BadSignature);
      }
    }
    return Ok(ParsedBundle(m.core.did, a.files, root, chain, if m.signature.Some? then Signed else Unsigned));
  }

  lemma OneRoot(c: Crypto, did: string, chain: seq<RotationStatement>, root: Key)
    requires ResolvesTo(c, did, chain, root)
    ensures forall other :: ResolvesTo(c, did, chain, other) ==> other == root
  {
    hide ParseDid, ValidChain, HeadKey;
  }

  /** Integrity only: the aggregate digest must match; the genesis key is the only anchor. */
  method ParseAndVerifyV1(k: Formats, a: Archive, parsed: Option<LegacyManifest>) returns (r: Result<ParsedBundle, ImportError>)
    requires WithinLimits(a) && ReadManifest(k, a.files) == Some(ClaimsV1(parsed))
    ensures r.Ok? ==> parsed.Some? && AuthenticV1(k, a, parsed.value, r.value)
    ensures r.Err? ==> forall b, m :: !AuthenticV1(k, a, m, b)
    ensures r.Err? ==> r.error == if parsed.None? then MalformedManifest
                                  else if ParseDid(parsed.value.did).None? then InvalidDid else DigestMismatch
  {
    hide ParseDid, IsDigestStream, Encodable;
    if parsed.None? {
      return Err(MalformedManifest);
    }
    var m := parsed.value;
    if ParseDid(m.did).None? {
      return Err(InvalidDid);
    }
    var stream := DigestStreamV1(a.files, k.utf8);
    if stream.None? {
      NoStream(a.files, k.utf8);
      return Err(DigestMismatch);
    }
    if k.sha256(stream.value) != m.contentDigest {
      OneStream(a.files, k.utf8, stream.value);
      return Err(DigestMismatch);
    }
    return Ok(ParsedBundle(m.did, a.files, ParseDid(m.did).value, [], LegacyUnverified));
  }

  lemma NoStream(files: FileMap, utf8: string -> Bytes)
    requires !Encodable(Hashed(files), utf8)
    ensures forall s :: !IsDigestStream(files, utf8, s)
  {
    hide Encodable, Stream, Chunks;
  }

  lemma OneStream(files: FileMap, utf8: string -> Bytes, stream: Bytes)
    requires IsDigestStream(files, utf8, stream)
    ensures forall s :: IsDigestStream(files, utf8, s) ==> s == stream
  {
    hide IsDigestStream;
    forall s | IsDigestStream(files, utf8, s) ensures s == stream {
      DigestStreamIsDetermined(files, utf8, s, stream);
    }
  }
}
