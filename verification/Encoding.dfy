/** Multibase base58btc, multicodec public keys and `did:syr` derivation. */
module Encoding {
  import opened Wrappers

  type Byte = b: nat | b < 256

  type Bytes = seq<Byte>

  const U32: nat := 0x1_0000_0000

  type u32 = x: nat | x < U32

  // ---- Positional numerals ----

  ghost predicate DigitsBelow(ds: seq<nat>, base: nat) {
    forall i :: 0 <= i < |ds| ==> ds[i] < base
  }

  /** Append one digit to a numeral's value; `Quot` and `Rem` take it off again. */
  function Put(n: nat, base: nat, digit: nat): nat {
    n * base + digit
  }

  function Quot(n: nat, base: nat): nat
    requires base > 0
  {
    n / base
  }

  function Rem(n: nat, base: nat): nat
    requires base > 0
  {
    n % base
  }

  lemma SplitDigit(n: nat, base: nat)
    requires base >= 2
    ensures Put(Quot(n, base), base, Rem(n, base)) == n
    ensures Rem(n, base) < base
    ensures n > 0 ==> Quot(n, base) < n
  {
    assert n == base * (n / base) + n % base;
    MultipleIsLarge(n / base, base);
  }

  lemma MultipleIsLarge(d: int, base: nat)
    ensures d >= 1 ==> d * base >= base
    ensures d <= -1 ==> d * base <= 0 - base
    ensures d >= 1 && base >= 2 ==> d * base > d
  {
    if d >= 1 {
      assert d * base == base + (d - 1) * base;
      if base >= 2 {
        assert d * base == d + d * (base - 1);
      }
    } else if d <= -1 {
      assert d * base == (d + 1) * base - base;
    }
  }

  lemma JoinDigit(q: nat, base: nat, r: nat)
    requires r < base
    ensures Quot(Put(q, base, r), base) == q && Rem(Put(q, base, r), base) == r
    ensures q > 0 || r > 0 ==> Put(q, base, r) > 0
    ensures q == 0 ==> Put(q, base, r) == r
  {
    var n := q * base + r;
    assert n == base * (n / base) + n % base;
    var d := n / base - q;
    assert d * base == r - n % base;
    MultipleIsLarge(d, base);
    MultipleIsLarge(q, base);
  }

  function FromDigits(ds: seq<nat>, base: nat): nat {
    if ds == [] then 0 else Put(FromDigits(ds[..|ds| - 1], base), base, ds[|ds| - 1])
  }

  /** Big-endian numeral without leading zeros; zero is the empty numeral. */
  function ToDigits(n: nat, base: nat): (ds: seq<nat>)
    requires base >= 2
    ensures DigitsBelow(ds, base)
    ensures ds != [] ==> ds[0] != 0
    ensures n == 0 <==> ds == []
  {
    if n == 0 then []
    else
      hide Put, Quot, Rem;
      SplitDigit(n, base);
      JoinDigit(Quot(n, base), base, Rem(n, base));
      ToDigits(Quot(n, base), base) + [Rem(n, base)]
  }

  lemma {:induction false} FromToDigits(n: nat, base: nat)
    requires base >= 2
    ensures FromDigits(ToDigits(n, base), base) == n
  {
    hide Put, Quot, Rem;
    if n > 0 {
      SplitDigit(n, base);
      FromToDigits(Quot(n, base), base);
      var ds := ToDigits(n, base);
      assert ds[..|ds| - 1] == ToDigits(Quot(n, base), base);
    }
  }

  lemma {:induction false} ToFromDigits(ds: seq<nat>, base: nat)
    requires base >= 2 && DigitsBelow(ds, base)
    requires ds != [] ==> ds[0] != 0
    ensures ToDigits(FromDigits(ds, base), base) == ds
    ensures ds != [] ==> FromDigits(ds, base) > 0
  {
    hide Put, Quot, Rem;
    if ds != [] {
      var front, last := ds[..|ds| - 1], ds[|ds| - 1];
      ToFromDigits(front, base);
      JoinDigit(FromDigits(front, base), base, last);
      assert ds == front + [last];
    }
  }

  function Zeros(n: nat): seq<nat> {
    seq(n, _ => 0)
  }

  function LeadingZeros(ds: seq<nat>): (z: nat)
    ensures z <= |ds|
    ensures ds[..z] == Zeros(z)
    ensures z < |ds| ==> ds[z] != 0
  {
    if ds == [] || ds[0] != 0 then 0
    else
      var z := 1 + LeadingZeros(ds[1..]);
      assert forall i :: 0 < i < z ==> ds[i] == ds[1..][..z - 1][i - 1];
      z
  }

  lemma {:induction false} LeadingZerosWorthNothing(z: nat, ds: seq<nat>, base: nat)
    ensures FromDigits(Zeros(z) + ds, base) == FromDigits(ds, base)
  {
    hide Put;
    if ds != [] {
      var n := |ds| - 1;
      assert (Zeros(z) + ds)[..z + n] == Zeros(z) + ds[..n];
      LeadingZerosWorthNothing(z, ds[..n], base);
    } else if z > 0 {
      assert (Zeros(z) + ds)[..z - 1] == Zeros(z - 1) + [];
      PutNothing(base);
      LeadingZerosWorthNothing(z - 1, [], base);
    }
  }

  lemma PutNothing(base: nat)
    ensures Put(0, base, 0) == 0
  {
  }

  lemma LeadingZerosOf(z: nat, ds: seq<nat>)
    requires ds != [] ==> ds[0] != 0
    ensures LeadingZeros(Zeros(z) + ds) == z
  {
    var all := Zeros(z) + ds;
    var n := LeadingZeros(all);
    assert forall i :: 0 <= i < n ==> all[i] == all[..n][i] && all[..n][i] == 0;
    assert forall i :: 0 <= i < z ==> all[i] == 0;
    assert ds != [] ==> all[z] == ds[0];
  }

  /** Change of base that keeps each leading zero as one leading zero. */
  function Rebase(ds: seq<nat>, from: nat, to: nat): (r: seq<nat>)
    requires to >= 2
    ensures DigitsBelow(r, to)
  {
    Zeros(LeadingZeros(ds)) + ToDigits(FromDigits(ds, from), to)
  }

  lemma RebaseInverts(ds: seq<nat>, from: nat, to: nat)
    requires from >= 2 && to >= 2 && DigitsBelow(ds, from)
    ensures Rebase(Rebase(ds, from, to), to, from) == ds
  {
    var z := LeadingZeros(ds);
    var tail := ds[z..];
    var n := FromDigits(ds, from);
    assert ds == Zeros(z) + tail;
    LeadingZerosWorthNothing(z, tail, from);
    ToFromDigits(tail, from);
    LeadingZerosOf(z, ToDigits(n, to));
    LeadingZerosWorthNothing(z, ToDigits(n, to), to);
    FromToDigits(n, to);
  }

  // ---- Base58btc ----

  /** The alphabet leaves out `0`, `I`, `O` and `l`. */
  function DigitChar(d: nat): char
    requires d < 58
  {
    if d < 9 then '1' + d as char
    else if d < 17 then 'A' + (d - 9) as char
    else if d < 22 then 'J' + (d - 17) as char
    else if d < 33 then 'P' + (d - 22) as char
    else if d < 44 then 'a' + (d - 33) as char
    else 'm' + (d - 44) as char
  }

  function CharDigit(c: char): Option<nat> {
    if '1' <= c <= '9' then Some((c - '1') as nat)
    else if 'A' <= c <= 'H' then Some((c - 'A') as nat + 9)
    else if 'J' <= c <= 'N' then Some((c - 'J') as nat + 17)
    else if 'P' <= c <= 'Z' then Some((c - 'P') as nat + 22)
    else if 'a' <= c <= 'k' then Some((c - 'a') as nat + 33)
    else if 'm' <= c <= 'z' then Some((c - 'm') as nat + 44)
    else None
  }

  lemma AlphabetInverts(d: nat, c: char)
    ensures d < 58 ==> CharDigit(DigitChar(d)) == Some(d)
    ensures CharDigit(c).Some? ==> CharDigit(c).value < 58 && DigitChar(CharDigit(c).value) == c
  {
  }

  function EncodeBase58(bytes: Bytes): string {
    var ds := Rebase(bytes, 256, 58);
    seq(|ds|, i requires 0 <= i < |ds| => DigitChar(ds[i]))
  }

  predicate IsBase58(s: string) {
    forall i :: 0 <= i < |s| ==> CharDigit(s[i]).Some?
  }

  function Base58Digits(s: string): (ds: seq<nat>)
    requires IsBase58(s)
    ensures DigitsBelow(ds, 58)
  {
    seq(|s|, i requires 0 <= i < |s| => CharDigit(s[i]).value)
  }

  function DecodeBase58(s: string): Option<Bytes> {
    if IsBase58(s) then Some(AsBytes(Rebase(Base58Digits(s), 58, 256))) else None
  }

  function AsBytes(ds: seq<nat>): (bytes: Bytes)
    requires DigitsBelow(ds, 256)
    ensures bytes == ds
  {
    seq(|ds|, i requires 0 <= i < |ds| => ds[i])
  }

  lemma DecodeEncodeBase58(bytes: Bytes)
    ensures DecodeBase58(EncodeBase58(bytes)) == Some(bytes)
  {
    hide Rebase, DigitChar, CharDigit;
    var ds := Rebase(bytes, 256, 58);
    var s := EncodeBase58(bytes);
    forall i | 0 <= i < |s| ensures CharDigit(s[i]) == Some(ds[i]) {
      AlphabetInverts(ds[i], s[i]);
    }
    assert Base58Digits(s) == ds;
    RebaseInverts(bytes, 256, 58);
  }

  /** Decoding is injective: a base58 string is the only spelling of its bytes. */
  lemma EncodeDecodeBase58(s: string)
    requires DecodeBase58(s).Some?
    ensures EncodeBase58(DecodeBase58(s).value) == s
  {
    hide Rebase, DigitChar, CharDigit;
    var ds := Base58Digits(s);
    RebaseInverts(ds, 58, 256);
    assert Rebase(DecodeBase58(s).value, 256, 58) == ds;
    forall i | 0 <= i < |s| ensures DigitChar(ds[i]) == s[i] {
      AlphabetInverts(0, s[i]);
    }
  }

  // ---- Multibase, keys and DIDs ----

  const ED25519_MULTICODEC_PREFIX: Bytes := [0xed, 0x01]

  type Key = k: Bytes | |k| == 32 witness seq(32, _ => 0)

  datatype DecodeError = EmptyInput | UnsupportedPrefix | InvalidBase58 | InvalidKeyLength | MissingScheme

  function EncodeMultibase(bytes: Bytes): string {
    "z" + EncodeBase58(bytes)
  }

  function DecodeMultibase(encoded: string): Result<Bytes, DecodeError> {
    if encoded == "" then Err(EmptyInput)
    else if encoded[0] != 'z' then Err(UnsupportedPrefix)
    else
      match DecodeBase58(encoded[1..])
      case None => Err(InvalidBase58)
      case Some(bytes) => Ok(bytes)
  }

  predicate HasKeyPrefix(bytes: Bytes) {
    |bytes| == 34 && bytes[..2] == ED25519_MULTICODEC_PREFIX
  }

  /** A key is accepted with its multicodec prefix or as 32 raw bytes. */
  function DecodePublicKey(encoded: string): Result<Key, DecodeError> {
    match DecodeMultibase(encoded)
    case Err(e) => Err(e)
    case Ok(bytes) =>
      var raw := if HasKeyPrefix(bytes) then bytes[2..] else bytes;
      if |raw| != 32 then Err(InvalidKeyLength) else Ok(raw)
  }

  /** The root-key spelling that statements and DIDs use. */
  function EncodeRoot(key: Key): string {
    EncodeMultibase(ED25519_MULTICODEC_PREFIX + key)
  }

  const DID_SCHEME := "did:syr:"

  function DeriveDid(key: Key): string {
    DID_SCHEME + EncodeRoot(key)
  }

  function MethodId(did: string): string
    requires DID_SCHEME <= did
  {
    did[|DID_SCHEME|..]
  }

  function GenesisKey(did: string): Result<Key, DecodeError> {
    if DID_SCHEME <= did then DecodePublicKey(MethodId(did)) else Err(MissingScheme)
  }

  /** The DID's own key, spelled the way statements spell keys. */
  function GenesisRoot(did: string): Result<string, DecodeError> {
    if !(DID_SCHEME <= did) then Err(MissingScheme)
    else if MethodId(did) == "" then Err(EmptyInput)
    else
      match DecodePublicKey(MethodId(did))
      case Err(e) => Err(e)
      case Ok(key) => Ok(EncodeRoot(key))
  }

  /** A DID with a genesis root has a genesis key. */
  lemma GenesisRootHasKey(did: string)
    ensures GenesisRoot(did).Ok? ==> GenesisKey(did).Ok? && GenesisRoot(did).value == EncodeRoot(GenesisKey(did).value)
  {
    hide DecodePublicKey, EncodeRoot;
  }

  lemma DecodeEncodeMultibase(bytes: Bytes)
    ensures DecodeMultibase(EncodeMultibase(bytes)) == Ok(bytes)
  {
    hide DecodeBase58, EncodeBase58;
    DecodeEncodeBase58(bytes);
    assert EncodeMultibase(bytes)[1..] == EncodeBase58(bytes);
  }

  /** Multibase decoding is injective where it succeeds. */
  lemma EncodeDecodeMultibase(s: string)
    requires DecodeMultibase(s).Ok?
    ensures EncodeMultibase(DecodeMultibase(s).value) == s
  {
    hide DecodeBase58, EncodeBase58, IsBase58;
    EncodeDecodeBase58(s[1..]);
    assert s == "z" + s[1..];
  }

  lemma DecodeEncodeRoot(key: Key)
    ensures DecodePublicKey(EncodeRoot(key)) == Ok(key)
  {
    hide DecodeMultibase, EncodeMultibase;
    var bytes := ED25519_MULTICODEC_PREFIX + key;
    DecodeEncodeMultibase(bytes);
    assert bytes[..2] == ED25519_MULTICODEC_PREFIX && bytes[2..] == key;
  }

  /** A derived DID names its key, in the canonical spelling. */
  lemma DerivedDidNamesItsKey(key: Key)
    ensures GenesisKey(DeriveDid(key)) == Ok(key)
    ensures GenesisRoot(DeriveDid(key)) == Ok(EncodeRoot(key))
  {
    hide DecodePublicKey, EncodeBase58;
    assert MethodId(DeriveDid(key)) == EncodeRoot(key);
    DecodeEncodeRoot(key);
  }

  /**
   * Canonicalisation of the genesis key is idempotent, and it changes nothing but the
   * spelling: the canonical DID names the same key, and it is the same DID exactly
   * when the given one already spelled its key with the multicodec prefix.
   */
  lemma GenesisCanonicalisation(did: string)
    requires GenesisRoot(did).Ok?
    ensures
      var canonical := DID_SCHEME + GenesisRoot(did).value;
      && GenesisRoot(canonical) == GenesisRoot(did)
      && GenesisKey(canonical) == GenesisKey(did)
      && (canonical == did <==> HasKeyPrefix(DecodeMultibase(MethodId(did)).value))
  {
    hide DecodeMultibase, EncodeMultibase;
    var key := GenesisKey(did).value;
    DerivedDidNamesItsKey(key);
    var id := MethodId(did);
    assert did == DID_SCHEME + id;
    var bytes := DecodeMultibase(id).value;
    EncodeDecodeMultibase(id);
    DecodeEncodeMultibase(ED25519_MULTICODEC_PREFIX + key);
    PrefixedKey(bytes, key);
    var canonical := DID_SCHEME + EncodeRoot(key);
    assert MethodId(canonical) == EncodeRoot(key);
  }

  lemma PrefixedKey(bytes: Bytes, key: Key)
    requires key == if HasKeyPrefix(bytes) then bytes[2..] else bytes
    ensures HasKeyPrefix(bytes) <==> bytes == ED25519_MULTICODEC_PREFIX + key
  {
    assert (ED25519_MULTICODEC_PREFIX + key)[..2] == ED25519_MULTICODEC_PREFIX;
    if HasKeyPrefix(bytes) {
      assert bytes == bytes[..2] + bytes[2..];
    }
  }

  /** Every key has two accepted spellings, with the multicodec prefix and without, and no other. */
  lemma PublicKeySpellings(encoded: string, key: Key)
    ensures DecodePublicKey(encoded) == Ok(key)
            <==> encoded == EncodeMultibase(ED25519_MULTICODEC_PREFIX + key) || encoded == EncodeMultibase(key)
  {
    hide DecodeMultibase, EncodeMultibase;
    DecodeEncodeMultibase(ED25519_MULTICODEC_PREFIX + key);
    DecodeEncodeMultibase(key);
    PrefixedKey(ED25519_MULTICODEC_PREFIX + key, key);
    assert (ED25519_MULTICODEC_PREFIX + key)[2..] == key;
    if DecodeMultibase(encoded).Ok? {
      EncodeDecodeMultibase(encoded);
      var bytes := DecodeMultibase(encoded).value;
      if HasKeyPrefix(bytes) {
        PrefixedKey(bytes, bytes[2..]);
      }
    }
  }
}
