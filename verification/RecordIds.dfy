/** The `stringToRecordId` codec: record links as `table:id` strings. */
module RecordIds {

  datatype RecordId = RecordId(tb: string, id: string)

  function Encode(r: RecordId): string {
    r.tb + ":" + r.id
  }

  /** Length of the part of `s` in front of its first colon. */
  function TableLength(s: string): (n: nat)
    ensures n <= |s|
    ensures ':' !in s[..n]
    ensures n < |s| <==> ':' in s
    ensures n < |s| ==> s[n] == ':'
  {
    if s == "" || s[0] == ':' then 0
    else
      var n := 1 + TableLength(s[1..]);
      assert s == [s[0]] + s[1..];
      assert s[..n] == [s[0]] + s[1..][..n - 1];
      n
  }

  /** Split at the first colon; without one the whole string is the table. */
  function Decode(s: string): RecordId {
    var n := TableLength(s);
    RecordId(s[..n], if n < |s| then s[n + 1..] else "")
  }

  /**
   * Normalising a string through the codec gives it back exactly when it holds a
   * colon; any other string gains one and so matches no encoded row id.
   */
  lemma EncodeDecode(s: string)
    ensures ':' in s ==> Encode(Decode(s)) == s
    ensures ':' !in s ==> Encode(Decode(s)) == s + ":" && Encode(Decode(s)) != s
    ensures ':' !in Decode(s).tb
  {
    var n := TableLength(s);
    if n < |s| {
      assert s == s[..n] + [s[n]] + s[n + 1..];
    } else {
      assert s[..n] == s;
    }
  }

  /** A record survives the wire exactly when its table name holds no colon. */
  lemma DecodeEncode(r: RecordId)
    ensures Decode(Encode(r)) == r <==> ':' !in r.tb
  {
    var s := Encode(r);
    var n := TableLength(s);
    assert s[|r.tb|] == ':';
    assert ':' in s;
    if ':' !in r.tb {
      assert forall k :: 0 <= k < |r.tb| ==> s[k] == r.tb[k] && s[k] in r.tb;
      assert forall k :: 0 <= k < n ==> s[k] == s[..n][k] && s[k] in s[..n];
      assert n == |r.tb|;
      assert s[..n] == r.tb && s[n + 1..] == r.id;
    }
  }
}
