/** Positions within a server, and the reassignment that a reorder performs. */
module Ordering {
  import opened Wrappers
  import opened Sequences

  /** Where a row stands; rows without a server are not ordered. */
  datatype Slot = Slot(server: Option<string>, position: int)

  type Slots = map<string, Slot>

  /** Rows of one server stand at pairwise distinct positions. */
  ghost predicate Distinct(slots: Slots) {
    forall a, b :: a in slots && b in slots && a != b && slots[a].server.Some? && slots[a].server == slots[b].server
      ==> slots[a].position != slots[b].position
  }

  lemma FewerStayDistinct(slots: Slots, fewer: Slots)
    requires Distinct(slots) && forall id :: id in fewer ==> id in slots && fewer[id] == slots[id]
    ensures Distinct(fewer)
  {
  }

  function Itself(): int -> int {
    (x: int) => x
  }

  function Listed(slots: Slots, ids: seq<string>): (r: seq<int>)
    requires forall id :: id in ids ==> id in slots
    ensures |r| == |ids|
    ensures forall i :: 0 <= i < |ids| ==> r[i] == slots[ids[i]].position
  {
    seq(|ids|, i requires 0 <= i < |ids| => slots[ids[i]].position)
  }

  /** The listed rows' own positions, ascending: the `i`th goes to the `i`th id. */
  function Targets(slots: Slots, ids: seq<string>): (r: seq<int>)
    requires forall id :: id in ids ==> id in slots
    ensures |r| == |ids|
  {
    StableSort(Listed(slots, ids), Itself())
  }

  /** The writes for the first `n` ids; a row already at its target is not written. */
  function Assign(slots: Slots, ids: seq<string>, n: nat): (r: Slots)
    requires forall id :: id in ids ==> id in slots
    requires n <= |ids|
    ensures r.Keys == slots.Keys
    ensures forall id :: id in slots ==> r[id].server == slots[id].server
    ensures forall id :: id in slots && id !in ids ==> r[id] == slots[id]
  {
    if n == 0 then slots
    else
      var before := Assign(slots, ids, n - 1);
      var id, target := ids[n - 1], Targets(slots, ids)[n - 1];
      if slots[id].position != target then before[id := before[id].(position := target)] else before
  }

  function Reordered(slots: Slots, ids: seq<string>): Slots
    requires forall id :: id in ids ==> id in slots
  {
    Assign(slots, ids, |ids|)
  }

  lemma {:induction false} AssignedPositions(slots: Slots, ids: seq<string>, n: nat)
    requires forall id :: id in ids ==> id in slots
    requires n <= |ids| && NoRepeats(ids)
    ensures forall i :: 0 <= i < n ==> Assign(slots, ids, n)[ids[i]].position == Targets(slots, ids)[i]
    ensures forall i :: n <= i < |ids| ==> Assign(slots, ids, n)[ids[i]] == slots[ids[i]]
  {
    hide Targets;
    if n > 0 {
      AssignedPositions(slots, ids, n - 1);
    }
  }

  /**
   * Where the writes leave one id: at the last target, among its places in the list,
   * that differs from the position it started from.
   */
  function LastMove(targets: seq<int>, ids: seq<string>, id: string, home: int): (p: int)
    requires |targets| == |ids|
    ensures p == home || p in targets
  {
    if ids == [] then home
    else
      var n := |ids| - 1;
      if ids[n] == id && targets[n] != home then targets[n] else LastMove(targets[..n], ids[..n], id, home)
  }

  /** For any list, repeats included, that is the position each row ends on. */
  lemma {:induction false} RowsLandOnLastMove(slots: Slots, ids: seq<string>, n: nat, id: string)
    requires forall x :: x in ids ==> x in slots
    requires n <= |ids| && id in slots
    ensures Assign(slots, ids, n)[id].position == LastMove(Targets(slots, ids)[..n], ids[..n], id, slots[id].position)
  {
    hide Targets;
    if n > 0 {
      RowsLandOnLastMove(slots, ids, n - 1, id);
      assert ids[..n][..n - 1] == ids[..n - 1];
      assert Targets(slots, ids)[..n][..n - 1] == Targets(slots, ids)[..n - 1];
    }
  }

  function Landing(slots: Slots, ids: seq<string>, id: string): int
    requires forall x :: x in ids ==> x in slots
    requires id in slots
  {
    LastMove(Targets(slots, ids), ids, id, slots[id].position)
  }

  lemma ReorderedLanding(slots: Slots, ids: seq<string>, id: string)
    requires forall x :: x in ids ==> x in slots
    requires id in slots
    ensures Reordered(slots, ids)[id].position == Landing(slots, ids, id)
  {
    hide Targets, Assign;
    RowsLandOnLastMove(slots, ids, |ids|, id);
    assert Targets(slots, ids)[..|ids|] == Targets(slots, ids) && ids[..|ids|] == ids;
  }

  /** No two different listed rows end on one position. */
  ghost predicate LandApart(slots: Slots, ids: seq<string>)
    requires forall x :: x in ids ==> x in slots
  {
    forall a, b :: a in ids && b in ids && a != b ==> Landing(slots, ids, a) != Landing(slots, ids, b)
  }

  lemma NoRepeatsPermutation(s: seq<int>, t: seq<int>)
    requires multiset(s) == multiset(t) && NoRepeats(s)
    ensures NoRepeats(t)
  {
    MultisetMembers(s, t);
    forall i, j | 0 <= i < j < |t| && t[i] == t[j] ensures false {
      assert t == t[..i] + [t[i]] + t[i + 1..j] + [t[j]] + t[j + 1..];
      assert multiset(t)[t[i]] >= 2;
      OnceEach(s, t[i]);
    }
  }

  lemma {:induction false} OnceEach(s: seq<int>, x: int)
    requires NoRepeats(s)
    ensures multiset(s)[x] <= 1
  {
    if s != [] {
      var n := |s| - 1;
      assert s == s[..n] + [s[n]];
      OnceEach(s[..n], x);
      assert s[n] !in s[..n];
      assert s[n] !in multiset(s[..n]);
    }
  }

  lemma ListedHasNoRepeats(slots: Slots, ids: seq<string>, server: string)
    requires Distinct(slots) && NoRepeats(ids)
    requires forall id :: id in ids ==> id in slots && slots[id].server == Some(server)
    ensures NoRepeats(Listed(slots, ids))
  {
  }

  /**
   * With distinct ids, a reorder puts the listed rows in the requested order on the
   * very positions they held before; nothing else moves.
   */
  lemma ReorderPermutesListed(slots: Slots, ids: seq<string>)
    requires forall id :: id in ids ==> id in slots
    requires NoRepeats(ids)
    ensures
      var after := Reordered(slots, ids);
      && after.Keys == slots.Keys
      && multiset(Listed(after, ids)) == multiset(Listed(slots, ids))
      && SortedBy(Listed(after, ids), Itself())
      && (forall id :: id in slots && id !in ids ==> after[id] == slots[id])
  {
    AssignedPositions(slots, ids, |ids|);
    StableSortIsStable(Listed(slots, ids), Itself());
    assert Listed(Reordered(slots, ids), ids) == Targets(slots, ids);
  }

  /** That outcome is the only one there is. */
  lemma ReorderIsTheOnlyOutcome(slots: Slots, ids: seq<string>, other: Slots)
    requires forall id :: id in ids ==> id in slots && id in other
    requires NoRepeats(ids)
    requires other.Keys == slots.Keys
    requires forall id :: id in slots ==> other[id].server == slots[id].server
    requires forall id :: id in slots && id !in ids ==> other[id] == slots[id]
    requires multiset(Listed(other, ids)) == multiset(Listed(slots, ids)) && SortedBy(Listed(other, ids), Itself())
    ensures other == Reordered(slots, ids)
  {
    hide Reordered, SortedBy;
    var after := Reordered(slots, ids);
    ReorderPermutesListed(slots, ids);
    SameServer(slots, ids);
    SortedArrangementIsUnique(Listed(after, ids), Listed(other, ids), Itself());
    forall id | id in slots ensures other[id] == after[id] {
      if id in ids {
        SameListing(after, other, ids, id);
      }
    }
  }

  lemma SameListing(a: Slots, b: Slots, ids: seq<string>, id: string)
    requires forall x :: x in ids ==> x in a && x in b
    requires Listed(a, ids) == Listed(b, ids) && id in ids
    ensures a[id].position == b[id].position
  {
    var i :| 0 <= i < |ids| && ids[i] == id;
    assert Listed(a, ids)[i] == Listed(b, ids)[i];
  }

  /**
   * A reorder of one server's rows keeps positions distinct exactly when the listed
   * rows land apart: whatever the list, unlisted rows are never in the way.
   */
  lemma ReorderKeepsDistinct(slots: Slots, ids: seq<string>, server: string)
    requires Distinct(slots)
    requires forall id :: id in ids ==> id in slots && slots[id].server == Some(server)
    ensures Distinct(Reordered(slots, ids)) <==> LandApart(slots, ids)
  {
    hide Reordered, Landing, Distinct;
    var after := Reordered(slots, ids);
    SameServer(slots, ids);
    forall id | id in slots ensures after[id].position == Landing(slots, ids, id) {
      ReorderedLanding(slots, ids, id);
    }
    if LandApart(slots, ids) {
      hide LandApart;
      forall a, b | a in after && b in after && a != b && after[a].server.Some? && after[a].server == after[b].server
        ensures after[a].position != after[b].position
      {
        LandingsDiffer(slots, ids, server, a, b);
      }
      DistinctIf(after);
    } else {
      var a, b :| a in ids && b in ids && a != b && Landing(slots, ids, a) == Landing(slots, ids, b);
      NotDistinctIf(after, a, b);
    }
  }

  lemma DistinctIf(slots: Slots)
    requires forall a, b :: a in slots && b in slots && a != b && slots[a].server.Some? && slots[a].server == slots[b].server
               ==> slots[a].position != slots[b].position
    ensures Distinct(slots)
  {
  }

  lemma NotDistinctIf(slots: Slots, a: string, b: string)
    requires a in slots && b in slots && a != b && slots[a].server.Some? && slots[a].server == slots[b].server
    requires slots[a].position == slots[b].position
    ensures !Distinct(slots)
  {
  }

  lemma SameServer(slots: Slots, ids: seq<string>)
    requires forall id :: id in ids ==> id in slots
    ensures Reordered(slots, ids).Keys == slots.Keys
    ensures forall id :: id in slots ==> Reordered(slots, ids)[id].server == slots[id].server
    ensures forall id :: id in slots && id !in ids ==> Reordered(slots, ids)[id] == slots[id]
  {
  }

  lemma LandingsDiffer(slots: Slots, ids: seq<string>, server: string, a: string, b: string)
    requires Distinct(slots) && a in slots && b in slots && a != b
    requires forall id :: id in ids ==> id in slots && slots[id].server == Some(server)
    requires slots[a].server.Some? && slots[a].server == slots[b].server
    requires LandApart(slots, ids)
    ensures Landing(slots, ids, a) != Landing(slots, ids, b)
  {
    hide Landing;
    LandsWhereSomeoneStood(slots, ids, a);
    LandsWhereSomeoneStood(slots, ids, b);
  }

  /** A listed row ends where some listed row stood; an unlisted one stays. */
  lemma LandsWhereSomeoneStood(slots: Slots, ids: seq<string>, id: string)
    requires forall x :: x in ids ==> x in slots
    requires id in slots
    ensures id in ids ==> exists x :: x in ids && slots[x].position == Landing(slots, ids, id)
    ensures id !in ids ==> Landing(slots, ids, id) == slots[id].position
  {
    hide Assign;
    if id in ids {
      var target := Landing(slots, ids, id);
      if target in Targets(slots, ids) {
        assert target in Listed(slots, ids);
        var j :| 0 <= j < |ids| && Listed(slots, ids)[j] == target;
        assert ids[j] in ids && slots[ids[j]].position == target;
      }
    } else {
      ReorderedLanding(slots, ids, id);
      SameServer(slots, ids);
    }
  }

  /** Without repeats, rows of one server always land apart. */
  lemma NoRepeatsLandApart(slots: Slots, ids: seq<string>, server: string)
    requires Distinct(slots) && NoRepeats(ids)
    requires forall id :: id in ids ==> id in slots && slots[id].server == Some(server)
    ensures LandApart(slots, ids)
  {
    hide Targets, Assign, Distinct, Landing;
    AssignedPositions(slots, ids, |ids|);
    ListedHasNoRepeats(slots, ids, server);
    TargetsPermute(slots, ids);
    NoRepeatsPermutation(Listed(slots, ids), Targets(slots, ids));
    forall a, b | a in ids && b in ids && a != b ensures Landing(slots, ids, a) != Landing(slots, ids, b) {
      ReorderedLanding(slots, ids, a);
      ReorderedLanding(slots, ids, b);
      var i :| 0 <= i < |ids| && ids[i] == a;
      var j :| 0 <= j < |ids| && ids[j] == b;
      assert Targets(slots, ids)[i] != Targets(slots, ids)[j];
    }
  }

  lemma TargetsPermute(slots: Slots, ids: seq<string>)
    requires forall id :: id in ids ==> id in slots
    ensures multiset(Targets(slots, ids)) == multiset(Listed(slots, ids))
  {
  }

  /** A list has nothing left to move exactly when its rows already stand in its order. */
  lemma NothingToMove(slots: Slots, ids: seq<string>)
    requires forall id :: id in ids ==> id in slots
    ensures Targets(slots, ids) == Listed(slots, ids) <==> SortedBy(Listed(slots, ids), Itself())
  {
    var s := Listed(slots, ids);
    StableSortIsStable(s, Itself());
    if SortedBy(s, Itself()) {
      SortedArrangementIsUnique(StableSort(s, Itself()), s, Itself());
    }
  }

  /**
   * Asking for the same order again finds every row at its target exactly when the
   * first time put the list in order, which it does for every list without repeats.
   */
  lemma ReorderSettles(slots: Slots, ids: seq<string>)
    requires forall id :: id in ids ==> id in slots
    ensures
      var after := Reordered(slots, ids);
      && (Targets(after, ids) == Listed(after, ids) <==> SortedBy(Listed(after, ids), Itself()))
      && (NoRepeats(ids) ==> Targets(after, ids) == Listed(after, ids))
  {
    hide Targets, SortedBy, Listed;
    NothingToMove(Reordered(slots, ids), ids);
    if NoRepeats(ids) {
      ReorderPermutesListed(slots, ids);
    }
  }

  /** Distinct ids are needed: listing one id twice can put two others on one position. */
  lemma RepeatedIdsCollide() returns (slots: Slots, ids: seq<string>)
    ensures Distinct(slots) && forall id :: id in ids ==> id in slots && slots[id].server == Some("server:s")
    ensures !Distinct(Reordered(slots, ids))
  {
    var s := Some("server:s");
    slots := map["a" := Slot(s, 0), "b" := Slot(s, 1), "c" := Slot(s, 2)];
    ids := ["c", "c", "a", "b"];
    hide Reordered, StableSort;
    assert Listed(slots, ids) == [2, 2, 0, 1];
    SortedFour();
    FourTargets(slots, ids);
  }

  lemma SortedFour()
    ensures StableSort([2, 2, 0, 1], Itself()) == [0, 1, 2, 2]
  {
    hide StableSort, SortedBy;
    StableSortIsStable([2, 2, 0, 1], Itself());
    FourAscend(0, 1, 2, 2);
    assert multiset([2, 2, 0, 1]) == multiset([0, 1, 2, 2]);
    SortedArrangementIsUnique(StableSort([2, 2, 0, 1], Itself()), [0, 1, 2, 2], Itself());
  }

  lemma FourAscend(a: int, b: int, c: int, d: int)
    requires a <= b <= c <= d
    ensures SortedBy([a, b, c, d], Itself())
  {
  }

  lemma FourTargets(slots: Slots, ids: seq<string>)
    requires |ids| == 4 && ids[0] == ids[1] && ids[2] != ids[3] && ids[0] != ids[2] && ids[0] != ids[3]
    requires forall id :: id in ids ==> id in slots && slots[id].server == Some("server:s")
    requires Listed(slots, ids) == [2, 2, 0, 1] && Targets(slots, ids) == [0, 1, 2, 2]
    ensures !Distinct(Reordered(slots, ids))
  {
    var step2 := Assign(slots, ids, 2);
    var step3 := Assign(slots, ids, 3);
    assert step3[ids[2]].position == 2;
    assert Assign(slots, ids, 4)[ids[2]].position == 2 && Assign(slots, ids, 4)[ids[3]].position == 2;
  }
}
