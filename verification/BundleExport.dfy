/** Building an export, and what export and import promise each other. */
module BundleExport {
  import opened Wrappers
  import opened Encoding
  import opened Rotation
  import opened LegacyDigest
  import opened Bundle
  import opened RotationStoreService

  const RECORD_FILES: seq<string> := [
    "records/posts.json", "records/emojis.json", "records/gifs.json", "records/stories.json",
    "records/uploads.json", "records/comments.json", "records/reactions.json", "records/follows.json"]

  /** The identity row; an absent seed column is an empty string. */
  datatype IdentityRow = IdentityRow(publicKey: string, aegis: SealedSeed)

  predicate HasAegis(row: IdentityRow) {
    row.aegis.salt != "" && row.aegis.nonce != "" && row.aegis.ct != "" && row.aegis.tag != ""
  }

  /** Everything an export reads. `unseal` decrypts the stored seed under a password. */
  datatype Source = Source(account: bool, identity: Option<IdentityRow>, rows: Rows,
                           records: seq<Bytes>, profile: Option<Bytes>,
                           assets: seq<(string, Option<Bytes>)>, assetIndex: Bytes,
                           counts: seq<nat>, createdAt: string,
                           unseal: (SealedSeed, string) -> Option<Key>)

  datatype ExportError = AccountNotFound | IdentityNotFound | PasswordRequired | IncorrectPassword | StoredChainInvalid

  /** The seed that signs: none for self-custody. */
  function SigningSeed(s: Source, password: Option<string>): Option<Key>
    requires s.identity.Some?
  {
    if HasAegis(s.identity.value) && password.GetOr("") != "" then s.unseal(s.identity.value.aegis, password.value) else None
  }

  function ExportedDoc(s: Source, did: string): IdentityDoc
    requires s.identity.Some?
  {
    var row := s.identity.value;
    IdentityDoc(did, row.publicKey, Statements(FindChainByDid(s.rows, did)), if HasAegis(row) then Some(row.aegis) else None)
  }

  /** The first `n` record files. */
  function RecordFiles(s: Source, n: nat): FileMap
    requires n <= |RECORD_FILES| == |s.records|
  {
    if n == 0 then map[] else RecordFiles(s, n - 1)[RECORD_FILES[n - 1] := s.records[n - 1]]
  }

  /** Assets that could not be read are left out. */
  function AddAssets(files: FileMap, assets: seq<(string, Option<Bytes>)>): FileMap {
    if assets == [] then files
    else
      var before := AddAssets(files, assets[..|assets| - 1]);
      var (key, bytes) := assets[|assets| - 1];
      if bytes.Some? then before["assets/" + key := bytes.value] else before
  }

  /** Every file of the archive but the manifest. */
  function ContentFiles(k: Formats, s: Source, did: string): FileMap
    requires |s.records| == |RECORD_FILES| && s.identity.Some?
  {
    var records := RecordFiles(s, |RECORD_FILES|);
    var profiled := if s.profile.Some? then records["profile.json" := s.profile.value] else records;
    AddAssets(profiled[IDENTITY := k.writeIdentity(ExportedDoc(s, did))], s.assets)["assets.json" := s.assetIndex]
  }

  /** What the archive of an export is like: the content, and a manifest that covers all of it. */
  predicate Exported(k: Formats, c: Crypto, s: Source, did: string, seed: Option<Key>, a: Archive, m: Manifest)
    requires |s.records| == |RECORD_FILES| && s.identity.Some?
  {
    && a.Zip? && a.declared == k.declaredSize(a.files)
    && a.files == ContentFiles(k, s, did)[MANIFEST := k.writeManifest(m)]
    && m.core == ManifestCore(did, s.createdAt, |FindChainByDid(s.rows, did)|, s.counts, FileHashes(k, a.files))
    && (m.signature.Some? <==> seed.Some?) && m.unsigned == seed.None?
    && (seed.Some? ==> Countersigned(k, c, s, did, seed.value, m))
  }

  predicate Countersigned(k: Formats, c: Crypto, s: Source, did: string, seed: Key, m: Manifest) {
    && m.signature.Some?
    && ValidChain(c, did, FindChainByDid(s.rows, did)) && HeadKey(did, FindChainByDid(s.rows, did)).Ok?
    && m.signature.value == SignatureBlock(
         k.canonicalize(m.core),
         EncodeMultibase(c.sign(k.canonicalize(m.core), seed)),
         EncodeRoot(HeadKey(did, FindChainByDid(s.rows, did)).value))
  }

  method CollectRecords(s: Source) returns (files: FileMap)
    requires |s.records| == |RECORD_FILES|
    ensures files == RecordFiles(s, |RECORD_FILES|)
  {
    files := map[];
    for i := 0 to |RECORD_FILES|
      invariant files == RecordFiles(s, i)
    {
      files := files[RECORD_FILES[i] := s.records[i]];
    }
  }

  method CollectAssets(s: Source, before: FileMap) returns (files: FileMap)
    ensures files == AddAssets(before, s.assets)
  {
    files := before;
    for i := 0 to |s.assets|
      invariant files == AddAssets(before, s.assets[..i])
    {
      assert s.assets[..i + 1][..i] == s.assets[..i];
      var (key, bytes) := s.assets[i];
      if bytes.None? {
        continue;
      }
      files := files["assets/" + key := bytes.value];
    }
    assert s.assets[..|s.assets|] == s.assets;
  }

  method ExportIdentity(k: Formats, c: Crypto, s: Source, did: string, password: Option<string>)
    returns (r: Result<Archive, ExportError>, ghost m: Manifest)
    requires |s.records| == |RECORD_FILES|
    ensures r.Ok? <==>
              && s.account && s.identity.Some?
              && (HasAegis(s.identity.value) ==>
                    && SigningSeed(s, password).Some?
                    && ValidChain(c, did, FindChainByDid(s.rows, did))
                    && HeadKey(did, FindChainByDid(s.rows, did)).Ok?)
    ensures r == Err(AccountNotFound) <==> !s.account
    ensures r == Err(IdentityNotFound) <==> s.account && s.identity.None?
    ensures r == Err(PasswordRequired) <==> s.account && s.identity.Some? && HasAegis(s.identity.value) && password.GetOr("") == ""
    ensures r == Err(IncorrectPassword) <==>
              && s.account && s.identity.Some? && HasAegis(s.identity.value) && password.GetOr("") != ""
              && s.unseal(s.identity.value.aegis, password.value).None?
    ensures r.Ok? ==> Exported(k, c, s, did, SigningSeed(s, password), r.value, m)
  {
    hide ValidChain, HeadKey, FindChainByDid, EncodeRoot, EncodeMultibase, FileHashes;
    m := Manifest(ManifestCore("", "", 0, [], map[]), None, true);
    if !s.account {
      r := Err(AccountNotFound);
      return;
    }
    if s.identity.None? {
      r := Err(IdentityNotFound);
      return;
    }
    var row := s.identity.value;
    var seed: Option<Key> := None;
    if HasAegis(row) {
      if password.GetOr("") == "" {
        r := Err(PasswordRequired);
        return;
      }
      seed := s.unseal(row.aegis, password.value);
      if seed.None? {
        r := Err(IncorrectPassword);
        return;
      }
    }
    var chain := FindChainByDid(s.rows, did);
    var files := CollectRecords(s);
    if s.profile.Some? {
      files := files["profile.json" := s.profile.value];
    }
    files := files[IDENTITY := k.writeIdentity(ExportedDoc(s, did))];
    files := CollectAssets(s, files);
    files := files["assets.json" := s.assetIndex];
    assert files == ContentFiles(k, s, did);
    var hashes := HashFilesExceptManifest(k, files);
    var core := ManifestCore(did, s.createdAt, |chain|, s.counts, hashes);
    var manifest := Manifest(core, None, true);
    if seed.Some? {
      var head := VerifyRotationChain(c, did, chain);
      if head.Err? {
        r := Err(StoredChainInvalid);
        return;
      }
      var payload := k.canonicalize(core);
      var signature := EncodeMultibase(c.sign(payload, seed.value));
      manifest := Manifest(core, Some(SignatureBlock(payload, signature, EncodeRoot(head.value))), false);
    }
    HashesIgnoreManifest(k, files, k.writeManifest(manifest));
    files := files[MANIFEST := k.writeManifest(manifest)];
    m := manifest;
    r := Ok(Zip(files, k.declaredSize(files)));
  }

  lemma HashesIgnoreManifest(k: Formats, files: FileMap, bytes: Bytes)
    ensures FileHashes(k, files[MANIFEST := bytes]) == FileHashes(k, files)
  {
  }

  lemma {:induction false} RecordFileStands(s: Source, n: nat, i: nat)
    requires i < n <= |RECORD_FILES| == |s.records|
    ensures RECORD_FILES[i] in RecordFiles(s, n) && RecordFiles(s, n)[RECORD_FILES[i]] == s.records[i]
  {
    if i < n - 1 {
      RecordFileStands(s, n - 1, i);
      assert RECORD_FILES[i][8] != RECORD_FILES[n - 1][8];
    }
  }

  lemma {:induction false} AssetsTouchOnlyAssets(files: FileMap, assets: seq<(string, Option<Bytes>)>, name: string)
    requires name == "" || name[0] != 'a'
    ensures name in AddAssets(files, assets) <==> name in files
    ensures name in files ==> AddAssets(files, assets)[name] == files[name]
  {
    if assets != [] {
      AssetsTouchOnlyAssets(files, assets[..|assets| - 1], name);
      assert ("assets/" + assets[|assets| - 1].0)[0] == 'a';
    }
  }

  /** An export loses nothing: each record file, the profile and the identity document stand in the archive. */
  lemma ContentIsComplete(k: Formats, s: Source, did: string, i: nat)
    requires |s.records| == |RECORD_FILES| && s.identity.Some? && i < |RECORD_FILES|
    ensures
      var files := ContentFiles(k, s, did);
      && RECORD_FILES[i] in files && files[RECORD_FILES[i]] == s.records[i]
      && (s.profile.Some? ==> "profile.json" in files && files["profile.json"] == s.profile.value)
      && IDENTITY in files && files[IDENTITY] == k.writeIdentity(ExportedDoc(s, did))
  {
    hide FindChainByDid, RecordFiles, AddAssets;
    RecordFileStands(s, |RECORD_FILES|, i);
    var records := RecordFiles(s, |RECORD_FILES|);
    var profiled := if s.profile.Some? then records["profile.json" := s.profile.value] else records;
    var before := profiled[IDENTITY := k.writeIdentity(ExportedDoc(s, did))];
    assert RECORD_FILES[i][0] == 'r' && "profile.json"[0] == 'p' && IDENTITY[0] == 'i' && "assets.json"[0] == 'a';
    AssetsTouchOnlyAssets(before, s.assets, RECORD_FILES[i]);
    AssetsTouchOnlyAssets(before, s.assets, "profile.json");
    AssetsTouchOnlyAssets(before, s.assets, IDENTITY);
  }

  /** Every asset that could be read stands under its key, unless a later one of that key does. */
  lemma {:induction false} AssetStands(files: FileMap, assets: seq<(string, Option<Bytes>)>, i: nat)
    requires i < |assets| && assets[i].1.Some?
    requires forall j :: i < j < |assets| && assets[j].1.Some? ==> assets[j].0 != assets[i].0
    ensures "assets/" + assets[i].0 in AddAssets(files, assets)
    ensures AddAssets(files, assets)["assets/" + assets[i].0] == assets[i].1.value
  {
    var n := |assets| - 1;
    if i < n {
      AssetStands(files, assets[..n], i);
      assert ("assets/" + assets[n].0)[7..] == assets[n].0 && ("assets/" + assets[i].0)[7..] == assets[i].0;
    }
  }

  lemma {:induction false} OnlyAssetsAreAdded(files: FileMap, assets: seq<(string, Option<Bytes>)>, name: string)
    requires name in AddAssets(files, assets) && name !in files
    ensures exists i :: 0 <= i < |assets| && assets[i].1.Some? && name == "assets/" + assets[i].0
  {
    var n := |assets| - 1;
    if name in AddAssets(files, assets[..n]) {
      OnlyAssetsAreAdded(files, assets[..n], name);
      var i :| 0 <= i < n && assets[..n][i].1.Some? && name == "assets/" + assets[..n][i].0;
      assert assets[i] == assets[..n][i];
    } else {
      assert assets[n].1.Some? && name == "assets/" + assets[n].0;
    }
  }

  lemma {:induction false} OnlyRecordFiles(s: Source, n: nat, name: string)
    requires n <= |RECORD_FILES| == |s.records| && name in RecordFiles(s, n)
    ensures name in RECORD_FILES
  {
    if name != RECORD_FILES[n - 1] {
      OnlyRecordFiles(s, n - 1, name);
    }
  }

  /** The readable assets and their index are in the archive. */
  lemma AssetsAreComplete(k: Formats, s: Source, did: string, i: nat)
    requires |s.records| == |RECORD_FILES| && s.identity.Some?
    ensures
      var files := ContentFiles(k, s, did);
      && (i < |s.assets| && s.assets[i].1.Some? && (forall j :: i < j < |s.assets| && s.assets[j].1.Some? ==> s.assets[j].0 != s.assets[i].0) ==>
            "assets/" + s.assets[i].0 in files && files["assets/" + s.assets[i].0] == s.assets[i].1.value)
      && "assets.json" in files && files["assets.json"] == s.assetIndex
  {
    hide FindChainByDid, RecordFiles, AddAssets;
    var records := RecordFiles(s, |RECORD_FILES|);
    var profiled := if s.profile.Some? then records["profile.json" := s.profile.value] else records;
    if i < |s.assets| && s.assets[i].1.Some? && forall j :: i < j < |s.assets| && s.assets[j].1.Some? ==> s.assets[j].0 != s.assets[i].0 {
      AssetStands(profiled[IDENTITY := k.writeIdentity(ExportedDoc(s, did))], s.assets, i);
      assert ("assets/" + s.assets[i].0)[6] == '/' && "assets.json"[6] == '.';
    }
  }

  /** And nothing that is none of the export's parts. */
  lemma NothingElseIsExported(k: Formats, s: Source, did: string, name: string)
    requires |s.records| == |RECORD_FILES| && s.identity.Some? && name in ContentFiles(k, s, did)
    ensures
      || name in RECORD_FILES
      || name in {"profile.json", "identity.json", "assets.json"}
      || exists i :: 0 <= i < |s.assets| && s.assets[i].1.Some? && name == "assets/" + s.assets[i].0
  {
    hide FindChainByDid, RecordFiles, AddAssets;
    var records := RecordFiles(s, |RECORD_FILES|);
    var profiled := if s.profile.Some? then records["profile.json" := s.profile.value] else records;
    var before := profiled[IDENTITY := k.writeIdentity(ExportedDoc(s, did))];
    if name != "assets.json" {
      if name in before {
        if name in records {
          OnlyRecordFiles(s, |RECORD_FILES|, name);
        }
      } else {
        OnlyAssetsAreAdded(before, s.assets, name);
      }
    }
  }

  /**
   * The identity document reads back with the DID, the genesis key and the stored
   * chain, and with the encrypted seed exactly when all four of its columns are there.
   */
  lemma ExportedIdentityReads(k: Formats, c: Crypto, s: Source, did: string, password: Option<string>, a: Archive, m: Manifest)
    requires |s.records| == |RECORD_FILES| && s.identity.Some?
    requires RoundTrips(k) && Exported(k, c, s, did, SigningSeed(s, password), a, m)
    ensures "identity.json" in a.files && k.readIdentity(a.files["identity.json"]).Some?
    ensures
      var doc, row := k.readIdentity(a.files["identity.json"]).value, s.identity.value;
      && doc.did == did && doc.publicKey == row.publicKey
      && doc.rotationChain == Statements(FindChainByDid(s.rows, did))
      && doc.aegis == if row.aegis.salt != "" && row.aegis.nonce != "" && row.aegis.ct != "" && row.aegis.tag != "" then Some(row.aegis) else None
  {
    hide FindChainByDid, FileHashes, Countersigned, ContentFiles;
    ContentIsComplete(k, s, did, 0);
    assert IDENTITY[0] != MANIFEST[0];
  }

  /**
   * The manifest reads back as what it is to say: whose export, when, how many
   * rotations, the counts, the hash of every other file; it is signed exactly when the
   * document carries a seed that unseals under the given password, and then by that
   * very seed, or else marked unsigned.
   */
  lemma ExportedManifestIsTrue(k: Formats, c: Crypto, s: Source, did: string, password: Option<string>, a: Archive, m: Manifest)
    requires |s.records| == |RECORD_FILES| && s.identity.Some?
    requires RoundTrips(k) && Exported(k, c, s, did, SigningSeed(s, password), a, m)
    ensures ManifestReads(k, a.files, ClaimsV2(Some(m)))
    ensures m.core.did == did && m.core.createdAt == s.createdAt && m.core.counts == s.counts
    ensures m.core.rotationSeq == |FindChainByDid(s.rows, did)|
    ensures forall n :: n in m.core.files <==> n in a.files && n != "manifest.json"
    ensures forall n :: n in m.core.files ==> m.core.files[n] == k.sha256(a.files[n])
    ensures m.unsigned <==> m.signature.None?
    ensures "identity.json" in a.files && k.readIdentity(a.files["identity.json"]).Some?
    ensures
      var doc := k.readIdentity(a.files["identity.json"]).value;
      && (m.signature.Some? <==> doc.aegis.Some? && password.Some? && password.value != "" && s.unseal(doc.aegis.value, password.value).Some?)
      && (m.signature.Some? ==>
            && m.signature.value.signedPayload == k.canonicalize(m.core)
            && DecodeMultibase(m.signature.value.signature) == Ok(c.sign(k.canonicalize(m.core), s.unseal(doc.aegis.value, password.value).value)))
  {
    hide FindChainByDid, ContentFiles, DecodeMultibase, EncodeMultibase, EncodeRoot, ValidChain, HeadKey;
    ExportedIdentityReads(k, c, s, did, password, a, m);
    forall n ensures n in m.core.files <==> n in a.files && n != "manifest.json" {
      assert n in FileHashes(k, a.files) <==> n in a.files && n != MANIFEST;
    }
    if m.signature.Some? {
      DecodeEncodeMultibase(c.sign(k.canonicalize(m.core), SigningSeed(s, password).value));
    }
  }

  // ---- Export, then import ----

  /** The bundle an importer is to see in an export. */
  function ExpectedBundle(s: Source, did: string, seed: Option<Key>, a: Archive, root: Key): ParsedBundle
    requires a.Zip?
  {
    ParsedBundle(did, a.files, root, FindChainByDid(s.rows, did), if seed.Some? then Signed else Unsigned)
  }

  lemma ExportedManifestReads(k: Formats, c: Crypto, s: Source, did: string, seed: Option<Key>, a: Archive, m: Manifest)
    requires |s.records| == |RECORD_FILES| && s.identity.Some?
    requires RoundTrips(k) && Exported(k, c, s, did, seed, a, m)
    ensures ReadManifest(k, a.files) == Some(ClaimsV2(Some(m)))
    ensures EmbeddedChain(k, a.files) == Some(FindChainByDid(s.rows, did))
  {
    hide FindChainByDid, FileHashes, Countersigned, ContentFiles;
    ContentIsComplete(k, s, did, 0);
    assert IDENTITY[0] != MANIFEST[0];
  }

  /**
   * Every export within the import limits, of an identity whose stored chain resolves
   * to `root` and whose stored seed, if any, is that root's, is accepted with the same
   * DID, root and chain, and with the verification that its custody implies.
   */
  lemma ExportIsAccepted(k: Formats, c: Crypto, s: Source, did: string, seed: Option<Key>, a: Archive, m: Manifest, root: Key)
    requires RoundTrips(k) && Correct(c)
    requires |s.records| == |RECORD_FILES| && s.identity.Some?
    requires Exported(k, c, s, did, seed, a, m) && WithinLimits(a)
    requires ParseDid(did).Some? && Accepts(c, did, FindChainByDid(s.rows, did), root)
    requires seed.Some? ==> c.publicKey(seed.value) == root
    ensures Authentic(k, c, a, ExpectedBundle(s, did, seed, a, root))
  {
    hide FindChainByDid, FileHashes, ParseDid, EmbeddedChain, ReadManifest, ValidChain, HeadKey, EncodeRoot, Countersigned;
    ExportedManifestReads(k, c, s, did, seed, a, m);
    StoredChainResolves(c, did, FindChainByDid(s.rows, did), root);
    if seed.Some? {
      CountersignatureHolds(k, c, s, did, seed.value, m, root);
    }
    assert AuthenticV2(k, c, a, m, ExpectedBundle(s, did, seed, a, root));
  }

  lemma StoredChainResolves(c: Crypto, did: string, chain: seq<RotationStatement>, root: Key)
    requires ParseDid(did).Some? && Accepts(c, did, chain, root)
    ensures ResolvesTo(c, did, chain, root)
  {
    hide ValidChain, DecodeMultibase;
    if chain == [] {
      ParsedDidIsGenesis(did);
    }
  }

  /** Where the strict parse of a DID succeeds, it finds the genesis key. */
  lemma ParsedDidIsGenesis(did: string)
    requires ParseDid(did).Some?
    ensures GenesisKey(did) == Ok(ParseDid(did).value)
  {
    hide DecodeMultibase;
  }

  lemma CountersignatureHolds(k: Formats, c: Crypto, s: Source, did: string, seed: Key, m: Manifest, root: Key)
    requires Correct(c) && Countersigned(k, c, s, did, seed, m)
    requires HeadKey(did, FindChainByDid(s.rows, did)) == Ok(root) && c.publicKey(seed) == root
    ensures SignedBy(k, c, m.core, m.signature.value, root)
  {
    hide FindChainByDid, HeadKey, ValidChain, EncodeMultibase, DecodeMultibase, EncodeRoot;
    DecodeEncodeMultibase(c.sign(k.canonicalize(m.core), seed));
  }

  lemma ExportSignatureIsCanonical(k: Formats, c: Crypto, s: Source, did: string, seed: Key, m: Manifest)
    requires Correct(c) && Countersigned(k, c, s, did, seed, m)
    ensures m.signature.value.signedPayload == k.canonicalize(m.core)
    ensures DecodeMultibase(m.signature.value.signature) == Ok(c.sign(k.canonicalize(m.core), seed))
  {
    hide FindChainByDid, HeadKey, ValidChain, EncodeMultibase, DecodeMultibase, EncodeRoot;
    DecodeEncodeMultibase(c.sign(k.canonicalize(m.core), seed));
  }

  /** A custodial export under a seed that is not the chain's head is accepted as nothing at all. */
  lemma StaleSeedIsRejected(k: Formats, c: Crypto, s: Source, did: string, seed: Key, a: Archive, m: Manifest, root: Key, b: ParsedBundle)
    requires RoundTrips(k) && Correct(c) && TellsKeysApart(c)
    requires |s.records| == |RECORD_FILES| && s.identity.Some?
    requires Exported(k, c, s, did, Some(seed), a, m)
    requires HeadKey(did, FindChainByDid(s.rows, did)) == Ok(root) && ParseDid(did).Some?
    requires c.publicKey(seed) != root
    ensures !Authentic(k, c, a, b)
  {
    hide FindChainByDid, FileHashes, EmbeddedChain, ReadManifest, HeadKey, ValidChain, DecodeMultibase, EncodeMultibase, EncodeRoot, ParseDid, Countersigned, Correct;
    ExportedManifestReads(k, c, s, did, Some(seed), a, m);
    ExportSignatureIsCanonical(k, c, s, did, seed, m);
    if AuthenticV2(k, c, a, m, b) {
      ResolvedRootIsHead(c, did, b.chain, b.rootKey, root);
    }
  }

  /** So within the import limits a custodial export is accepted if and only if its seed is the chain's head. */
  lemma AcceptedExactlyUnderTheHead(k: Formats, c: Crypto, s: Source, did: string, seed: Key, a: Archive, m: Manifest, root: Key)
    requires RoundTrips(k) && Correct(c) && TellsKeysApart(c)
    requires |s.records| == |RECORD_FILES| && s.identity.Some?
    requires Exported(k, c, s, did, Some(seed), a, m) && WithinLimits(a)
    requires ParseDid(did).Some? && Accepts(c, did, FindChainByDid(s.rows, did), root)
    ensures (exists b :: Authentic(k, c, a, b)) <==> c.publicKey(seed) == root
  {
    hide FindChainByDid, ParseDid, ValidChain, HeadKey, Exported, Authentic, Correct, RoundTrips, TellsKeysApart, WithinLimits;
    if c.publicKey(seed) == root {
      ExportIsAccepted(k, c, s, did, Some(seed), a, m, root);
    } else {
      forall b ensures !Authentic(k, c, a, b) {
        StaleSeedIsRejected(k, c, s, did, seed, a, m, root, b);
      }
    }
  }

  lemma ResolvedRootIsHead(c: Crypto, did: string, chain: seq<RotationStatement>, root: Key, head: Key)
    requires ResolvesTo(c, did, chain, root) && HeadKey(did, chain) == Ok(head) && ParseDid(did).Some?
    ensures root == head
  {
    hide ParseDid, ValidChain;
    ParsedDidIsGenesis(did);
  }

  // ---- What a signed bundle cannot hide ----

  /** The hash tells the contents of these two file maps apart. */
  ghost predicate NoCollision(k: Formats, f: FileMap, g: FileMap) {
    forall n :: n in f && n in g && k.sha256(f[n]) == k.sha256(g[n]) ==> f[n] == g[n]
  }

  lemma EqualHashesEqualFiles(k: Formats, f: FileMap, g: FileMap)
    requires FileHashes(k, f) == FileHashes(k, g) && NoCollision(k, f, g)
    ensures f - {MANIFEST} == g - {MANIFEST}
  {
    assert FileHashes(k, f).Keys == f.Keys - {MANIFEST};
    assert FileHashes(k, g).Keys == g.Keys - {MANIFEST};
    forall n | n in f - {MANIFEST} ensures f[n] == g[n] {
      assert FileHashes(k, f)[n] == FileHashes(k, g)[n];
    }
  }

  /**
   * Two archives accepted as signed over the same payload carry the same DID and the
   * same hash for every file; where the hash does not collide on them, the same files.
   */
  lemma SignatureFixesTheFiles(k: Formats, c: Crypto, a1: Archive, m1: Manifest, b1: ParsedBundle, a2: Archive, m2: Manifest, b2: ParsedBundle)
    requires AuthenticV2(k, c, a1, m1, b1) && AuthenticV2(k, c, a2, m2, b2)
    requires m1.signature.Some? && m2.signature.Some? && m1.signature.value.signedPayload == m2.signature.value.signedPayload
    requires forall x, y :: k.canonicalize(x) == k.canonicalize(y) ==> x == y
    ensures b1.did == b2.did && FileHashes(k, b1.files) == FileHashes(k, b2.files)
    ensures NoCollision(k, b1.files, b2.files) ==> b1.files - {MANIFEST} == b2.files - {MANIFEST}
  {
    hide ParseDid, ResolvesTo, EmbeddedChain, ReadManifest, DecodeMultibase, EncodeRoot, FileHashes, NoCollision;
    assert m1.core == m2.core;
    if NoCollision(k, b1.files, b2.files) {
      EqualHashesEqualFiles(k, b1.files, b2.files);
    }
  }

  /** If no key signs two rotations, the chains of all accepted bundles of one DID lie on one history. */
  lemma SignedRootsShareOneHistory(k: Formats, c: Crypto, a1: Archive, m1: Manifest, b1: ParsedBundle,
                                   a2: Archive, m2: Manifest, b2: ParsedBundle,
                                   presented: iset<RotationStatement>, signed: iset<(Key, RotationPayload)>, i: nat)
    requires AuthenticV2(k, c, a1, m1, b1) && AuthenticV2(k, c, a2, m2, b2) && b1.did == b2.did
    requires (forall s :: s in b1.chain ==> s in presented) && (forall s :: s in b2.chain ==> s in presented)
    requires PresentedWereSigned(c, presented, signed) && NoKeySignsTwice(signed)
    requires i < |b1.chain| && i < |b2.chain|
    ensures b1.chain[i].newRoot == b2.chain[i].newRoot
  {
    hide ParseDid, EmbeddedChain, ReadManifest, SignedBy, FileHashes, HeadKey, ValidChain, PresentedWereSigned;
    HistoryIsLinear(c, b1.did, b1.chain, b2.chain, presented, signed, i);
    assert b1.chain[i].Payload().newRoot == b2.chain[i].Payload().newRoot;
  }

  /** An archive whose manifest is neither signed nor marked unsigned is not acceptable, whatever else it holds. */
  lemma UnmarkedIsRejected(k: Formats, c: Crypto, a: Archive, m: Manifest, b: ParsedBundle)
    requires a.Zip? && ReadManifest(k, a.files) == Some(ClaimsV2(Some(m)))
    requires m.signature.None? && !m.unsigned
    ensures !Authentic(k, c, a, b)
  {
    hide ParseDid, EmbeddedChain, FileHashes, ResolvesTo;
  }

  /** A signed archive with its signature taken off, and marked unsigned or not. */
  function Stripped(k: Formats, a: Archive, m: Manifest, unsigned: bool, declared: nat): Archive
    requires a.Zip?
  {
    Zip(a.files[MANIFEST := k.writeManifest(Manifest(m.core, None, unsigned))], declared)
  }

  lemma StrippedContents(k: Formats, a: Archive, m: Manifest, unsigned: bool, declared: nat)
    requires RoundTrips(k) && a.Zip?
    ensures
      var files := Stripped(k, a, m, unsigned, declared).files;
      && ReadManifest(k, files) == Some(ClaimsV2(Some(Manifest(m.core, None, unsigned))))
      && FileHashes(k, files) == FileHashes(k, a.files)
      && EmbeddedChain(k, files) == EmbeddedChain(k, a.files)
  {
    HashesIgnoreManifest(k, a.files, k.writeManifest(Manifest(m.core, None, unsigned)));
    assert IDENTITY[0] != MANIFEST[0];
  }

  /**
   * An accepted archive without its signature is accepted if and only if it is also
   * re-marked as unsigned, and then as nothing more than that, with the same DID, root
   * and chain: taking the signature off alone never downgrades a bundle.
   */
  lemma StrippedSignatureNeedsTheMark(k: Formats, c: Crypto, a: Archive, m: Manifest, b: ParsedBundle, unsigned: bool, declared: nat)
    requires RoundTrips(k) && AuthenticV2(k, c, a, m, b)
    requires WithinLimits(Stripped(k, a, m, unsigned, declared))
    ensures
      var stripped := Stripped(k, a, m, unsigned, declared);
      && ((exists other :: Authentic(k, c, stripped, other)) <==> unsigned)
      && (unsigned ==> Authentic(k, c, stripped, ParsedBundle(b.did, stripped.files, b.rootKey, b.chain, Unsigned)))
  {
    assert a.Zip?;
    hide ParseDid, EmbeddedChain, FileHashes, ResolvesTo, ReadManifest, SignedBy, WithinLimits, IsDigestStream;
    var stripped := Stripped(k, a, m, unsigned, declared);
    StrippedContents(k, a, m, unsigned, declared);
    if unsigned {
      var other := ParsedBundle(b.did, stripped.files, b.rootKey, b.chain, Unsigned);
      assert AuthenticV2(k, c, stripped, Manifest(m.core, None, true), other);
      assert Authentic(k, c, stripped, other);
    } else {
      forall other ensures !Authentic(k, c, stripped, other) {
        UnmarkedIsRejected(k, c, stripped, Manifest(m.core, None, false), other);
      }
    }
  }

  /**
   * The whole way: a custodial identity rotated honestly through `seeds` is exported
   * under its newest seed, accepted elsewhere, and the restored chain verifies there
   * with that seed's key.
   */
  lemma MigrationKeepsTheRoot(k: Formats, c: Crypto, s: Source, seeds: seq<Key>, times: seq<int>, a: Archive, m: Manifest, target: Rows)
    requires RoundTrips(k) && Correct(c)
    requires 0 < |seeds| <= U32 && |times| == |seeds| - 1
    requires forall i, j :: 0 <= i < j < |times| ==> times[i] <= times[j]
    requires |s.records| == |RECORD_FILES| && s.identity.Some?
    requires
      var did := DeriveDid(c.publicKey(seeds[0]));
      && FindChainByDid(s.rows, did) == BuildChain(c, did, seeds, times)
      && Exported(k, c, s, did, Some(seeds[|seeds| - 1]), a, m)
      && KeyedByOwnFields(target) && FindChainByDid(target, did) == []
    requires WithinLimits(a)
    ensures
      var did := DeriveDid(c.publicKey(seeds[0]));
      var root := c.publicKey(seeds[|seeds| - 1]);
      var chain := BuildChain(c, did, seeds, times);
      && Authentic(k, c, a, ParsedBundle(did, a.files, root, chain, Signed))
      && Accepts(c, did, FindChainByDid(Ingested(target, did, chain), did), root)
  {
    hide FindChainByDid, Exported, Authentic, ParseDid, Accepts, BuildChain, DeriveDid, ChainFrom;
    var did := DeriveDid(c.publicKey(seeds[0]));
    BuiltChainVerifies(c, seeds, times);
    DerivedDidParses(c.publicKey(seeds[0]));
    ExportIsAccepted(k, c, s, did, Some(seeds[|seeds| - 1]), a, m, c.publicKey(seeds[|seeds| - 1]));
    RestoredChainVerifies(c, target, did, BuildChain(c, did, seeds, times), c.publicKey(seeds[|seeds| - 1]));
  }

  lemma DerivedDidParses(key: Key)
    ensures ParseDid(DeriveDid(key)) == Some(key)
  {
    hide DecodeMultibase, EncodeMultibase;
    var bytes := ED25519_MULTICODEC_PREFIX + key;
    DecodeEncodeMultibase(bytes);
    assert MethodId(DeriveDid(key)) == EncodeMultibase(bytes);
    PrefixedKey(bytes, key);
    assert bytes[2..] == key && bytes[..2] == ED25519_MULTICODEC_PREFIX;
  }
}
