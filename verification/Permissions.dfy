/** Permission masks and flags. */
module Permissions {

  /** A mask is the finite set of its bit positions: a non-negative `BigInt`. */
  type Mask = set<nat>

  const READ_MESSAGES: nat := 1
  const ADMINISTRATOR: nat := 30

  /** A holder of ADMINISTRATOR has every flag. */
  predicate HasPermission(permissions: Mask, flag: nat) {
    ADMINISTRATOR in permissions || flag in permissions
  }

  /** The allow and deny masks of one row. */
  datatype Entry = Entry(allow: Mask, deny: Mask)

  /** `(perms & ~deny) | allow`: a bit named by both masks ends up allowed. */
  function Apply(perms: Mask, e: Entry): Mask {
    perms - e.deny + e.allow
  }

  function Replay(perms: Mask, entries: seq<Entry>): Mask {
    if entries == [] then perms
    else Apply(Replay(perms, entries[..|entries| - 1]), entries[|entries| - 1])
  }

  lemma {:induction false} ReplayConcat(perms: Mask, a: seq<Entry>, b: seq<Entry>)
    ensures Replay(perms, a + b) == Replay(Replay(perms, a), b)
  {
    if b == [] {
      assert a + b == a;
    } else {
      var n := |b| - 1;
      assert (a + b)[..|a + b| - 1] == a + b[..n];
      ReplayConcat(perms, a, b[..n]);
    }
  }

  predicate Mentions(e: Entry, bit: nat) {
    bit in e.allow || bit in e.deny
  }

  /** Entry `i` is the last one to say anything about `bit`. */
  ghost predicate LastWord(entries: seq<Entry>, bit: nat, i: nat) {
    && i < |entries|
    && Mentions(entries[i], bit)
    && forall j :: i < j < |entries| ==> !Mentions(entries[j], bit)
  }

  /**
   * Per-bit last writer: a bit stands exactly when the last entry that mentions it
   * allows it, or when none mentions it and it stood before.
   */
  lemma {:induction false} LastWriterWins(perms: Mask, entries: seq<Entry>, bit: nat)
    ensures bit in Replay(perms, entries) <==>
              || (exists i: nat :: LastWord(entries, bit, i) && bit in entries[i].allow)
              || (bit in perms && forall i :: 0 <= i < |entries| ==> !Mentions(entries[i], bit))
  {
    if entries != [] {
      var n := |entries| - 1;
      var front := entries[..n];
      LastWriterWins(perms, front, bit);
      if Mentions(entries[n], bit) {
        assert LastWord(entries, bit, n);
      } else {
        forall i: nat ensures LastWord(entries, bit, i) <==> LastWord(front, bit, i) {
          if LastWord(front, bit, i) {
            assert entries[i] == front[i];
          }
          if LastWord(entries, bit, i) {
            assert front[i] == entries[i];
          }
        }
        assert (forall i :: 0 <= i < |entries| ==> !Mentions(entries[i], bit))
               <==> (forall i :: 0 <= i < |front| ==> !Mentions(front[i], bit)) by {
          assert forall i :: 0 <= i < |front| ==> entries[i] == front[i];
        }
      }
    }
  }

  ghost predicate LastWordAllows(entries: seq<Entry>, bit: nat) {
    exists i: nat :: LastWord(entries, bit, i) && bit in entries[i].allow
  }
}
