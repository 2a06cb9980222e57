/** Categories of a server: creation, reordering, swapping and deletion. */
module CategoryOrder {
  import opened Wrappers
  import opened Sequences
  import opened Histories
  import opened Ordering
  import ChannelOrder

  datatype Category = Category(server: string, position: int)

  type Categories = map<string, Category>

  function SlotsOf(rows: Categories): (r: Slots)
    ensures r.Keys == rows.Keys
  {
    map id | id in rows :: Slot(Some(rows[id].server), rows[id].position)
  }

  function FromSlots(rows: Categories, slots: Slots): (r: Categories)
    requires slots.Keys == rows.Keys
    ensures r.Keys == rows.Keys
  {
    map id | id in rows :: rows[id].(position := slots[id].position)
  }

  predicate IsIn(rows: Categories, server: string, id: string) {
    id in rows && rows[id].server == server
  }

  /** One behind the last category of the server; 0 for the first. */
  ghost predicate IsNextPosition(rows: Categories, server: string, p: int) {
    if forall id :: id in rows ==> rows[id].server != server then p == 0
    else
      && (exists id :: IsIn(rows, server, id) && rows[id].position == p - 1)
      && (forall id :: IsIn(rows, server, id) ==> rows[id].position < p)
  }

  // ---- Operations ----

  datatype Op =
    | OpCreate(id: string, server: string, position: int)
    | OpReorder(server: string, ids: seq<string>)
    | OpSwap(a: string, b: string)
    | OpDelete(id: string)

  function Swapped(rows: Categories, a: string, b: string): Categories
    requires a in rows && b in rows
  {
    rows[a := rows[a].(position := rows[b].position)][b := rows[b].(position := rows[a].position)]
  }

  /** The rows behind one call of the service. */
  function Apply(rows: Categories, op: Op): Categories {
    match op
    case OpCreate(id, server, position) => rows[id := Category(server, position)]
    case OpReorder(server, ids) =>
      if |ids| >= 2 && forall id :: id in ids ==> IsIn(rows, server, id) then FromSlots(rows, Reordered(SlotsOf(rows), ids)) else rows
    case OpSwap(a, b) => if a in rows && b in rows then Swapped(rows, a, b) else rows
    case OpDelete(id) => rows - {id}
  }

  class CategoryService {
    var rows: Categories
    /** The channel table, for the links that a deletion clears. */
    var channels: ChannelOrder.Channels

    method Create(fresh_: string, server: string) returns (position: int)
      requires fresh_ !in rows
      modifies this`rows
      ensures IsNextPosition(old(rows), server, position)
      ensures rows == Apply(old(rows), OpCreate(fresh_, server, position))
      ensures rows == old(rows)[fresh_ := Category(server, position)]
    {
      var top: Option<int> := None;
      var pending := rows.Keys;
      while pending != {}
        invariant pending <= rows.Keys && rows == old(rows)
        invariant top.None? ==> forall id :: id in rows && id !in pending ==> rows[id].server != server
        invariant top.Some? ==> exists id :: IsIn(rows, server, id) && rows[id].position == top.value
        invariant top.Some? ==> forall id :: IsIn(rows, server, id) && id !in pending ==> rows[id].position <= top.value
        decreases pending
      {
        var id :| id in pending;
        if rows[id].server == server && (top.None? || top.value < rows[id].position) {
          assert IsIn(rows, server, id);
          top := Some(rows[id].position);
        }
        pending := pending - {id};
      }
      position := top.GetOr(-1) + 1;
      rows := rows[fresh_ := Category(server, position)];
    }

    /** `None` when some id is not a category of the server; otherwise how many rows were written. */
    method Reorder(server: string, ids: seq<string>) returns (updated: Option<nat>)
      modifies this`rows
      ensures updated.Some? <==> |ids| < 2 || forall id :: id in ids ==> id in old(rows) && old(rows)[id].server == server
      ensures rows == Apply(old(rows), OpReorder(server, ids))
      ensures updated.None? || |ids| < 2 ==> rows == old(rows)
      ensures updated.Some? && |ids| < 2 ==> updated.value == 0
      ensures updated.Some? && |ids| >= 2 ==>
                && rows == FromSlots(old(rows), Reordered(SlotsOf(old(rows)), ids))
                && updated.value == Misplaced(SlotsOf(old(rows)), ids, |ids|)
    {
      if |ids| < 2 {
        return Some(0);
      }
      var i := 0;
      while i < |ids|
        invariant i <= |ids|
        invariant forall id :: id in ids[..i] ==> IsIn(rows, server, id)
      {
        assert ids[..i + 1] == ids[..i] + [ids[i]];
        if !IsIn(rows, server, ids[i]) {
          assert ids[i] in ids;
          return None;
        }
        i := i + 1;
      }
      assert ids[..|ids|] == ids;
      var count := Write(ids);
      return Some(count);
    }

    method Write(ids: seq<string>) returns (count: nat)
      requires forall id :: id in ids ==> id in rows
      modifies this`rows
      ensures rows == FromSlots(old(rows), Reordered(SlotsOf(old(rows)), ids))
      ensures count == Misplaced(SlotsOf(old(rows)), ids, |ids|)
    {
      hide Targets, FromSlots, SlotsOf, Assign;
      var snapshot := rows;
      var slots := SlotsOf(snapshot);
      var positions := Targets(slots, ids);
      count := 0;
      NothingWritten(snapshot, ids);
      for j := 0 to |ids|
        invariant rows == FromSlots(snapshot, Assign(slots, ids, j))
        invariant count == Misplaced(slots, ids, j)
      {
        WriteStep(snapshot, ids, j);
        if snapshot[ids[j]].position != positions[j] {
          rows := rows[ids[j] := rows[ids[j]].(position := positions[j])];
          count := count + 1;
        }
      }
    }

    /** Each of the two takes the other's position; false when one of them is missing. */
    method Swap(a: string, b: string) returns (ok: bool)
      modifies this`rows
      ensures ok <==> a in old(rows) && b in old(rows)
      ensures rows == Apply(old(rows), OpSwap(a, b))
      ensures rows == if ok then Swapped(old(rows), a, b) else old(rows)
    {
      if a !in rows || b !in rows {
        return false;
      }
      var posA, posB := rows[a].position, rows[b].position;
      rows := rows[a := rows[a].(position := posB)];
      rows := rows[b := rows[b].(position := posA)];
      return true;
    }

    /** Remove a category; the channels that were filed under it stay, without one. */
    method Delete(id: string) returns (ok: bool)
      modifies this
      ensures ok <==> id in old(rows)
      ensures rows == Apply(old(rows), OpDelete(id))
      ensures rows == if ok then old(rows) - {id} else old(rows)
      ensures channels == if ok then Unfiled(old(channels), id) else old(channels)
    {
      if id !in rows {
        assert rows - {id} == rows;
        return false;
      }
      ghost var before := channels;
      var children := set c | c in channels && channels[c].category == Some(id);
      var pending := children;
      while pending != {}
        invariant pending <= children
        invariant rows == old(rows)
        invariant channels.Keys == before.Keys
        invariant forall c :: c in before ==>
          channels[c] == if c in children && c !in pending then before[c].(category := None) else before[c]
        decreases pending
      {
        var c :| c in pending;
        channels := channels[c := channels[c].(category := None)];
        pending := pending - {c};
      }
      rows := rows - {id};
      return true;
    }
  }

  function Unfiled(channels: ChannelOrder.Channels, id: string): ChannelOrder.Channels {
    map c | c in channels :: if channels[c].category == Some(id) then channels[c].(category := None) else channels[c]
  }

  /** How many of the first `n` listed rows are off their target. */
  function Misplaced(slots: Slots, ids: seq<string>, n: nat): nat
    requires forall id :: id in ids ==> id in slots
    requires n <= |ids|
  {
    if n == 0 then 0
    else Misplaced(slots, ids, n - 1) + if slots[ids[n - 1]].position != Targets(slots, ids)[n - 1] then 1 else 0
  }

  lemma FromSlotsUpdate(rows: Categories, slots: Slots, id: string, position: int)
    requires slots.Keys == rows.Keys && id in rows
    ensures FromSlots(rows, slots[id := slots[id].(position := position)])
            == FromSlots(rows, slots)[id := FromSlots(rows, slots)[id].(position := position)]
  {
  }

  lemma NothingWritten(rows: Categories, ids: seq<string>)
    requires forall id :: id in ids ==> id in rows
    ensures FromSlots(rows, Assign(SlotsOf(rows), ids, 0)) == rows
  {
  }

  lemma WriteStep(rows: Categories, ids: seq<string>, j: nat)
    requires j < |ids| && forall id :: id in ids ==> id in rows
    ensures
      var slots, target := SlotsOf(rows), Targets(SlotsOf(rows), ids)[j];
      var before := FromSlots(rows, Assign(slots, ids, j));
      && slots[ids[j]].position == rows[ids[j]].position
      && FromSlots(rows, Assign(slots, ids, j + 1))
         == if rows[ids[j]].position != target then before[ids[j] := before[ids[j]].(position := target)] else before
  {
    hide Targets, FromSlots;
    FromSlotsUpdate(rows, Assign(SlotsOf(rows), ids, j), ids[j], Targets(SlotsOf(rows), ids)[j]);
  }

  lemma SlotsOfFromSlots(rows: Categories, slots: Slots)
    requires slots.Keys == rows.Keys && forall id :: id in rows ==> slots[id].server == Some(rows[id].server)
    ensures SlotsOf(FromSlots(rows, slots)) == slots
  {
  }

  /**
   * A category reorder is the plain reassignment: every listed row ends on its landing,
   * distinctness is kept exactly when those are apart, and without repeats the listed
   * rows share out their own positions in the requested order, once and for all.
   */
  lemma ReorderOutcome(rows: Categories, ids: seq<string>, server: string)
    requires forall id :: id in ids ==> id in rows && IsIn(rows, server, id)
    ensures
      var after := FromSlots(rows, Reordered(SlotsOf(rows), ids));
      && SlotsOf(after) == Reordered(SlotsOf(rows), ids)
      && (forall id :: id in rows ==> after[id].position == Landing(SlotsOf(rows), ids, id))
      && (Distinct(SlotsOf(rows)) ==> (Distinct(SlotsOf(after)) <==> LandApart(SlotsOf(rows), ids)))
      && (NoRepeats(ids) ==>
            && multiset(Listed(SlotsOf(after), ids)) == multiset(Listed(SlotsOf(rows), ids))
            && SortedBy(Listed(SlotsOf(after), ids), Itself())
            && Misplaced(SlotsOf(after), ids, |ids|) == 0)
  {
    hide Listed, SortedBy, Distinct, Targets, Landing, LandApart;
    var slots := SlotsOf(rows);
    SlotsOfFromSlots(rows, Reordered(slots, ids));
    forall id | id in rows ensures Reordered(slots, ids)[id].position == Landing(slots, ids, id) {
      ReorderedLanding(slots, ids, id);
    }
    if NoRepeats(ids) {
      ReorderPermutesListed(slots, ids);
      ReorderSettles(slots, ids);
      NothingMisplaced(Reordered(slots, ids), ids, |ids|);
    }
    if Distinct(slots) {
      ReorderKeepsDistinct(slots, ids, server);
    }
  }

  lemma {:induction false} NothingMisplaced(slots: Slots, ids: seq<string>, n: nat)
    requires forall id :: id in ids ==> id in slots
    requires n <= |ids| && Targets(slots, ids) == Listed(slots, ids)
    ensures Misplaced(slots, ids, n) == 0
  {
    hide Targets;
    if n > 0 {
      NothingMisplaced(slots, ids, n - 1);
    }
  }

  // ---- Swapping ----

  /** No third category of the row's server stands where the row is to go. */
  predicate HasRoom(rows: Categories, mover: string, target: int)
    requires mover in rows
  {
    forall id :: id in rows && id != mover && rows[id].server == rows[mover].server ==> rows[id].position != target
  }

  /**
   * A swap keeps positions distinct exactly when the two categories share a server, or
   * each finds the other's position free in its own.
   */
  lemma SwapKeepsDistinct(rows: Categories, a: string, b: string)
    requires Distinct(SlotsOf(rows)) && a in rows && b in rows
    ensures Distinct(SlotsOf(Swapped(rows, a, b))) <==>
            || rows[a].server == rows[b].server
            || (HasRoom(rows, a, rows[b].position) && HasRoom(rows, b, rows[a].position))
  {
    var before, after := SlotsOf(rows), SlotsOf(Swapped(rows, a, b));
    if rows[a].server != rows[b].server {
      if !HasRoom(rows, a, rows[b].position) {
        var x :| x in rows && x != a && rows[x].server == rows[a].server && rows[x].position == rows[b].position;
        assert after[x].position == after[a].position;
      } else if !HasRoom(rows, b, rows[a].position) {
        var x :| x in rows && x != b && rows[x].server == rows[b].server && rows[x].position == rows[a].position;
        assert after[x].position == after[b].position;
      }
    }
    if rows[a].server == rows[b].server || (HasRoom(rows, a, rows[b].position) && HasRoom(rows, b, rows[a].position)) {
      forall x, y | x in after && y in after && x != y && after[x].server == after[y].server
        ensures after[x].position != after[y].position
      {
        assert before[x].position != before[y].position;
        assert x !in {a, b} ==> before[x].position != before[a].position || before[x].server != before[a].server;
        assert x !in {a, b} ==> before[x].position != before[b].position || before[x].server != before[b].server;
        assert y !in {a, b} ==> before[y].position != before[a].position || before[y].server != before[a].server;
        assert y !in {a, b} ==> before[y].position != before[b].position || before[y].server != before[b].server;
      }
    }
  }

  /** Swapping twice puts both back. */
  lemma SwapUndoesItself(rows: Categories, a: string, b: string)
    requires a in rows && b in rows
    ensures Swapped(Swapped(rows, a, b), a, b) == rows
  {
  }

  // ---- The operations in terms of the columns ----

  /** A reorder that lists a missing or foreign category, or fewer than two, changes nothing. */
  lemma ReorderTakesOwnCategoriesOnly(rows: Categories, server: string, ids: seq<string>)
    requires |ids| < 2 || exists id :: id in ids && (id !in rows || rows[id].server != server)
    ensures Apply(rows, OpReorder(server, ids)) == rows
  {
    if id :| id in ids && (id !in rows || rows[id].server != server) {
      assert !IsIn(rows, server, id);
    }
  }

  /** The next position: 0 on a server without categories, else one more than the highest. */
  lemma NextPositionIsBehindAll(rows: Categories, server: string, p: int)
    ensures IsNextPosition(rows, server, p) <==>
              if forall id :: id in rows ==> rows[id].server != server then p == 0
              else
                && (exists id :: id in rows && rows[id].server == server && rows[id].position == p - 1)
                && (forall id :: id in rows && rows[id].server == server ==> rows[id].position < p)
  {
    if id :| id in rows && rows[id].server == server && rows[id].position == p - 1 {
      assert IsIn(rows, server, id);
    }
    assert forall id :: id in rows && rows[id].server == server ==> IsIn(rows, server, id);
  }

  /** A swap exchanges two positions and changes nothing else. */
  lemma SwapExchangesPositions(rows: Categories, a: string, b: string, c: string)
    requires a in rows && b in rows
    ensures
      var after := Apply(rows, OpSwap(a, b));
      && after.Keys == rows.Keys
      && after[a].position == rows[b].position && after[b].position == rows[a].position
      && (c in rows ==> after[c].server == rows[c].server && (c != a && c != b ==> after[c] == rows[c]))
  {
  }

  /** After a deletion no channel is filed under the category, every other link stands, and nothing else changes. */
  lemma DeletionUnfilesItsChannels(channels: ChannelOrder.Channels, id: string, c: string)
    ensures
      var after := Unfiled(channels, id);
      && (c in after <==> c in channels)
      && (c in channels ==>
            && after[c].category == (if channels[c].category == Some(id) then None else channels[c].category)
            && after[c].server == channels[c].server && after[c].position == channels[c].position && after[c].deleted == channels[c].deleted)
      && (c in after ==> after[c].category != Some(id))
  {
  }

  /** The places among the first `n` whose row is off its target. */
  function MisplacedPlaces(slots: Slots, ids: seq<string>, n: nat): set<nat>
    requires forall id :: id in ids ==> id in slots
    requires n <= |ids|
  {
    set i: nat | i < n && slots[ids[i]].position != Targets(slots, ids)[i]
  }

  /** The count of a reorder is the number of those places. */
  lemma {:induction false} MisplacedAreCounted(slots: Slots, ids: seq<string>, n: nat)
    requires forall id :: id in ids ==> id in slots
    requires n <= |ids|
    ensures Misplaced(slots, ids, n) == |MisplacedPlaces(slots, ids, n)|
  {
    hide Targets;
    if n > 0 {
      MisplacedAreCounted(slots, ids, n - 1);
      var before := MisplacedPlaces(slots, ids, n - 1);
      assert MisplacedPlaces(slots, ids, n)
             == if slots[ids[n - 1]].position != Targets(slots, ids)[n - 1] then before + {n - 1} else before;
    }
  }

  // ---- Histories ----

  /** What `Create` sees to: a fresh id and the next position. */
  ghost predicate Possible(rows: Categories, op: Op) {
    match op
    case OpCreate(id, server, position) => id !in rows && IsNextPosition(rows, server, position)
    case _ => true
  }

  /** No reorder makes two rows land together, and no swap across servers finds a position taken. */
  ghost predicate Harmless(rows: Categories, op: Op) {
    match op
    case OpReorder(server, ids) =>
      |ids| >= 2 && (forall id :: id in ids ==> IsIn(rows, server, id)) ==> LandApart(SlotsOf(rows), ids)
    case OpSwap(a, b) => a in rows && b in rows ==>
      || rows[a].server == rows[b].server
      || (HasRoom(rows, a, rows[b].position) && HasRoom(rows, b, rows[a].position))
    case _ => true
  }

  lemma CreateKeepsDistinct(rows: Categories, id: string, server: string, position: int)
    requires Distinct(SlotsOf(rows)) && id !in rows && IsNextPosition(rows, server, position)
    ensures Distinct(SlotsOf(rows[id := Category(server, position)]))
  {
    forall a | a in rows && rows[a].server == server ensures SlotsOf(rows)[a].position != position {
      assert IsIn(rows, server, a);
    }
    assert SlotsOf(rows[id := Category(server, position)]) == SlotsOf(rows)[id := Slot(Some(server), position)];
  }

  /** An operation keeps positions distinct exactly when it is harmless. */
  lemma StepKeepsDistinct(rows: Categories, op: Op)
    requires Distinct(SlotsOf(rows)) && Possible(rows, op)
    ensures Distinct(SlotsOf(Apply(rows, op))) <==> Harmless(rows, op)
  {
    hide Distinct, Reordered, LandApart, Swapped, HasRoom;
    match op
    case OpCreate(id, server, position) => CreateKeepsDistinct(rows, id, server, position);
    case OpReorder(server, ids) =>
      if |ids| >= 2 && forall id :: id in ids ==> IsIn(rows, server, id) {
        ReorderOutcome(rows, ids, server);
      }
    case OpSwap(a, b) =>
      if a in rows && b in rows {
        SwapKeepsDistinct(rows, a, b);
      }
    case OpDelete(id) => FewerStayDistinct(SlotsOf(rows), SlotsOf(Apply(rows, op)));
  }

  /** The three judgements of a history: what is possible, what does no harm, and what is to be kept. */
  ghost function CanHappen(): (Categories, Op) -> bool {
    (rows: Categories, op: Op) => Possible(rows, op)
  }

  ghost function DoesNoHarm(): (Categories, Op) -> bool {
    (rows: Categories, op: Op) => Harmless(rows, op)
  }

  ghost function HasDistinctPositions(): Categories -> bool {
    (rows: Categories) => Distinct(SlotsOf(rows))
  }

  /**
   * A server's categories stand at pairwise distinct positions throughout a history if
   * and only if each of its reorders and swaps is harmless.
   */
  lemma HistoryKeepsDistinct(rows: Categories, ops: seq<Op>)
    requires Distinct(SlotsOf(rows)) && Throughout(rows, ops, Apply, CanHappen())
    ensures Always(rows, ops, Apply, HasDistinctPositions()) <==> Throughout(rows, ops, Apply, DoesNoHarm())
  {
    hide Apply, Distinct, Possible, Harmless;
    forall before, op | Distinct(SlotsOf(before)) && Possible(before, op)
      ensures Distinct(SlotsOf(Apply(before, op))) <==> Harmless(before, op)
    {
      StepKeepsDistinct(before, op);
    }
    InvariantExactly(rows, ops, Apply, HasDistinctPositions(), CanHappen(), DoesNoHarm());
  }
}
