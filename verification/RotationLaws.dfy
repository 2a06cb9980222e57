/**
 * The laws that lemmas ask of the signature library do not contradict each other: a
 * library that meets them all, written out. It is no secure one.
 */
module RotationLaws {
  import opened Wrappers
  import opened Encoding
  import opened Rotation

  function TimeText(t: int): string {
    if t >= 0 then "+" + seq(t, _ => '1') else "-" + seq(-t, _ => '1')
  }

  function TimeOf(s: string): Option<int> {
    if s == "" then None else if s[0] == '+' then Some(|s| - 1) else Some(1 - |s|)
  }

  lemma TimeRoundTrips(t: int)
    ensures TimeOf(TimeText(t)) == Some(t)
  {
  }

  function OwnKey(seed: Key): Key { seed }

  function Doubled(message: string, seed: Key): (r: Bytes)
    ensures |r| == 64
  {
    seed + seed
  }

  predicate IsDoubled(message: string, signature: Bytes, key: Key) {
    signature == Doubled(message, key)
  }

  lemma DoubledTellsSeeds(message: string, seed: Key, key: Key)
    requires Doubled(message, seed) == Doubled(message, key)
    ensures seed == key
  {
    assert Doubled(message, seed)[..32] == seed && Doubled(message, key)[..32] == key;
  }

  function AnyText(payload: RotationPayload): string { payload.newRoot }

  /** The laws do not contradict each other: a library, though not a secure one, meets both. */
  lemma LawsAreConsistent() returns (c: Crypto)
    ensures Correct(c) && TellsKeysApart(c)
  {
    hide TimeOf, TimeText, Doubled;
    c := Crypto(OwnKey, Doubled, IsDoubled, AnyText, TimeOf, TimeText);
    forall t ensures c.parseTime(c.formatTime(t)) == Some(t) {
      TimeRoundTrips(t);
    }
    forall message, seed, key | c.verify(message, c.sign(message, seed), key) ensures key == c.publicKey(seed) {
      DoubledTellsSeeds(message, seed, key);
    }
  }
}
