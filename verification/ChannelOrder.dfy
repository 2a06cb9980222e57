/** Channels of a server: creation, trash, and reordering, over whole histories. */
module ChannelOrder {
  import opened Wrappers
  import opened Sequences
  import opened Histories
  import opened Ordering
  import opened RecordIds

  /** An encoded category id. */
  type CategoryId = s: string | ':' in s witness "channel_category:c"

  /** The ordering columns of a channel; `server` is `None` for a conversation. */
  datatype Channel = Channel(server: Option<string>, position: int, category: Option<CategoryId>, deleted: Option<bool>)

  type Channels = map<string, Channel>

  function SlotsOf(rows: Channels): (r: Slots)
    ensures r.Keys == rows.Keys
  {
    map id | id in rows :: Slot(rows[id].server, rows[id].position)
  }

  predicate IsLiveIn(rows: Channels, server: string, id: string) {
    id in rows && rows[id].server == Some(server) && rows[id].deleted == Some(false)
  }

  /** The link a category argument is stored as: decoded by the codec; an empty string means none. */
  function Linked(categoryId: Option<string>): Option<CategoryId> {
    if categoryId.None? || categoryId.value == "" then None
    else
      var id := Encode(Decode(categoryId.value));
      assert id[|Decode(categoryId.value).tb|] == ':';
      Some(id)
  }

  /** The `categoryId` argument of a reorder: left out, or given. */
  datatype CategoryArg = Leave | Set(categoryId: Option<string>)
  {
    function Wanted(): Option<CategoryId>
      requires Set?
    {
      Linked(categoryId)
    }

    /** The comparison is with the argument as it was given, not as it is stored. */
    predicate Differs(current: Option<CategoryId>) {
      Set? && !(if current.Some? then categoryId == Some(current.value) else categoryId.None?)
    }
  }

  datatype Error = NotFound | NoServer | AlreadyTrashed | NotTrashed

  // ---- Positions of new channels ----

  function PositionsIn(rows: Channels, server: string): set<int> {
    set id | id in rows && rows[id].server == Some(server) :: rows[id].position
  }

  /** One behind the last row of the server, live or trashed; 0 for the first. */
  ghost predicate IsNextPosition(rows: Channels, server: string, p: int) {
    if PositionsIn(rows, server) == {} then p == 0
    else p - 1 in PositionsIn(rows, server) && forall q :: q in PositionsIn(rows, server) ==> q < p
  }

  method NextPosition(rows: Channels, server: string) returns (p: int)
    ensures IsNextPosition(rows, server, p)
  {
    var top: Option<int> := None;
    var pending := rows.Keys;
    while pending != {}
      invariant pending <= rows.Keys
      invariant top.None? ==> forall id :: id in rows && id !in pending ==> rows[id].server != Some(server)
      invariant top.Some? ==> top.value in PositionsIn(rows, server)
      invariant top.Some? ==> forall id :: id in rows && id !in pending && rows[id].server == Some(server) ==> rows[id].position <= top.value
      decreases pending
    {
      var id :| id in pending;
      if rows[id].server == Some(server) && (top.None? || top.value < rows[id].position) {
        top := Some(rows[id].position);
      }
      pending := pending - {id};
    }
    p := top.GetOr(-1) + 1;
  }

  // ---- Reordering ----

  /** One row's write: what to change is decided on the row as first read. */
  function Rewrite(read: Channel, current: Channel, target: int, arg: CategoryArg): Channel {
    var moved := if read.position != target then current.(position := target) else current;
    if arg.Differs(read.category) then moved.(category := arg.Wanted()) else moved
  }

  /** The writes for the first `n` ids, each decided on the rows as first read. */
  function Rearrange(rows: Channels, ids: seq<string>, arg: CategoryArg, n: nat): (r: Channels)
    requires forall id :: id in ids ==> id in rows
    requires n <= |ids|
    ensures r.Keys == rows.Keys
    ensures forall id :: id in rows ==> r[id].server == rows[id].server && r[id].deleted == rows[id].deleted
  {
    if n == 0 then rows
    else
      var before := Rearrange(rows, ids, arg, n - 1);
      var id := ids[n - 1];
      before[id := Rewrite(rows[id], before[id], Targets(SlotsOf(rows), ids)[n - 1], arg)]
  }

  predicate NeedsWrite(rows: Channels, ids: seq<string>, arg: CategoryArg, i: nat)
    requires forall id :: id in ids ==> id in rows
    requires i < |ids|
  {
    rows[ids[i]].position != Targets(SlotsOf(rows), ids)[i] || arg.Differs(rows[ids[i]].category)
  }

  function Writes(rows: Channels, ids: seq<string>, arg: CategoryArg, n: nat): nat
    requires forall id :: id in ids ==> id in rows
    requires n <= |ids|
  {
    if n == 0 then 0 else Writes(rows, ids, arg, n - 1) + if NeedsWrite(rows, ids, arg, n - 1) then 1 else 0
  }

  lemma AssignOnce(slots: Slots, ids: seq<string>, n: nat)
    requires forall id :: id in ids ==> id in slots
    requires n < |ids|
    ensures Assign(slots, ids, n + 1) == Moved(Assign(slots, ids, n), slots, ids[n], Targets(slots, ids)[n])
  {
    hide Targets;
  }

  /** One write of the plain reassignment. */
  function Moved(before: Slots, read: Slots, id: string, target: int): Slots
    requires id in before && id in read
  {
    if read[id].position != target then before[id := before[id].(position := target)] else before
  }

  lemma RearrangeOnce(rows: Channels, ids: seq<string>, arg: CategoryArg, n: nat)
    requires forall id :: id in ids ==> id in rows
    requires n < |ids|
    ensures SlotsOf(Rearrange(rows, ids, arg, n + 1))
            == Moved(SlotsOf(Rearrange(rows, ids, arg, n)), SlotsOf(rows), ids[n], Targets(SlotsOf(rows), ids)[n])
  {
    hide Targets, Rewrite, SlotsOf, Moved;
    var before, id, target := Rearrange(rows, ids, arg, n), ids[n], Targets(SlotsOf(rows), ids)[n];
    RearrangeStep(rows, before, id, target, arg);
    assert Rearrange(rows, ids, arg, n + 1) == before[id := Rewrite(rows[id], before[id], target, arg)];
  }

  /** On positions a channel reorder is the plain reassignment. */
  lemma {:induction false} RearrangeAssigns(rows: Channels, ids: seq<string>, arg: CategoryArg, n: nat)
    requires forall id :: id in ids ==> id in rows
    requires n <= |ids|
    ensures SlotsOf(Rearrange(rows, ids, arg, n)) == Assign(SlotsOf(rows), ids, n)
  {
    hide Targets, SlotsOf, Assign, Rearrange, Moved;
    if n == 0 {
      NothingRearranged(rows, ids, arg);
    } else {
      RearrangeAssigns(rows, ids, arg, n - 1);
      RearrangeOnce(rows, ids, arg, n - 1);
      AssignOnce(SlotsOf(rows), ids, n - 1);
    }
  }

  lemma NothingRearranged(rows: Channels, ids: seq<string>, arg: CategoryArg)
    requires forall id :: id in ids ==> id in rows
    ensures Rearrange(rows, ids, arg, 0) == rows && Assign(SlotsOf(rows), ids, 0) == SlotsOf(rows)
  {
  }

  lemma RearrangeStep(rows: Channels, before: Channels, id: string, target: int, arg: CategoryArg)
    requires id in rows && id in before && before[id].server == rows[id].server
    ensures SlotsOf(before[id := Rewrite(rows[id], before[id], target, arg)]) == Moved(SlotsOf(before), SlotsOf(rows), id, target)
  {
    SlotsUpdate(before, id, Rewrite(rows[id], before[id], target, arg));
    var slots := SlotsOf(before);
    assert slots[id := slots[id]] == slots;
  }

  lemma SlotsUpdate(rows: Channels, id: string, row: Channel)
    ensures SlotsOf(rows[id := row]) == SlotsOf(rows)[id := Slot(row.server, row.position)]
  {
  }

  predicate ListedBefore(ids: seq<string>, n: nat, id: string)
    requires n <= |ids|
  {
    id in ids[..n]
  }

  lemma ListedBeforeStep(ids: seq<string>, n: nat, id: string)
    requires 0 < n <= |ids|
    ensures ListedBefore(ids, n, id) <==> ListedBefore(ids, n - 1, id) || ids[n - 1] == id
  {
    assert ids[..n] == ids[..n - 1] + [ids[n - 1]];
  }

  /** The category of a row behind the first `n` writes. */
  function CategoryAfter(rows: Channels, ids: seq<string>, arg: CategoryArg, n: nat, id: string): Option<CategoryId>
    requires forall x :: x in ids ==> x in rows
    requires n <= |ids| && id in rows
  {
    Rearrange(rows, ids, arg, n)[id].category
  }

  lemma CategoryOnce(rows: Channels, ids: seq<string>, arg: CategoryArg, n: nat, id: string)
    requires forall x :: x in ids ==> x in rows
    requires n < |ids| && id in rows
    requires CategoryAfter(rows, ids, arg, n, id) == rows[id].category || (arg.Set? && CategoryAfter(rows, ids, arg, n, id) == arg.Wanted())
    ensures CategoryAfter(rows, ids, arg, n + 1, id)
            == if id == ids[n] && arg.Set? then arg.Wanted() else CategoryAfter(rows, ids, arg, n, id)
  {
    hide Targets, SlotsOf, Rewrite, CategoryArg.Wanted;
    if id == ids[n] {
      RewriteCategory(rows[id], Rearrange(rows, ids, arg, n)[id], Targets(SlotsOf(rows), ids)[n], arg);
    }
  }

  lemma {:induction false} RearrangedCategories(rows: Channels, ids: seq<string>, arg: CategoryArg, n: nat, id: string)
    requires forall x :: x in ids ==> x in rows
    requires n <= |ids| && id in rows
    ensures CategoryAfter(rows, ids, arg, n, id) == if ListedBefore(ids, n, id) && arg.Set? then arg.Wanted() else rows[id].category
  {
    hide CategoryArg.Wanted;
    if n > 0 {
      hide CategoryAfter, ListedBefore;
      RearrangedCategories(rows, ids, arg, n - 1, id);
      CategoryOnce(rows, ids, arg, n - 1, id);
      ListedBeforeStep(ids, n, id);
    }
  }

  lemma RewriteCategory(read: Channel, current: Channel, target: int, arg: CategoryArg)
    requires current.category == read.category || (arg.Set? && current.category == arg.Wanted())
    ensures Rewrite(read, current, target, arg).category == if arg.Set? then arg.Wanted() else current.category
  {
    if arg.Set? && !arg.Differs(read.category) && read.category.Some? {
      EncodeDecode(read.category.value);
    }
  }

  lemma {:induction false} NoWrites(rows: Channels, ids: seq<string>, arg: CategoryArg, n: nat)
    requires forall id :: id in ids ==> id in rows
    requires n <= |ids|
    ensures Writes(rows, ids, arg, n) == 0 <==> forall i :: 0 <= i < n ==> !NeedsWrite(rows, ids, arg, i)
  {
    hide NeedsWrite;
    if n > 0 {
      NoWrites(rows, ids, arg, n - 1);
    }
  }

  // ---- Operations ----

  datatype Op =
    | OpCreate(id: string, server: string, categoryId: Option<string>, position: int)
    | OpDelete(id: string)
    | OpRestore(id: string)
    | OpHardDelete(id: string)
    | OpReorder(server: string, ids: seq<string>, arg: CategoryArg)

  /** The rows behind one call of the service. */
  function Apply(rows: Channels, op: Op): Channels {
    match op
    case OpCreate(id, server, categoryId, position) => rows[id := Channel(Some(server), position, Linked(categoryId), Some(false))]
    case OpDelete(id) =>
      if id in rows && rows[id].server.Some? && rows[id].deleted != Some(true) then rows[id := rows[id].(deleted := Some(true))] else rows
    case OpRestore(id) =>
      if id in rows && rows[id].server.Some? && rows[id].deleted == Some(true) then rows[id := rows[id].(deleted := Some(false))] else rows
    case OpHardDelete(id) =>
      if id in rows && rows[id].server.Some? && rows[id].deleted == Some(true) then rows - {id} else rows
    case OpReorder(server, ids, arg) =>
      if forall id :: id in ids ==> IsLiveIn(rows, server, id) then Rearrange(rows, ids, arg, |ids|) else rows
  }

  class ChannelService {
    var rows: Channels

    /** `fresh_` is the id the database hands out. */
    method Create(fresh_: string, server: string, categoryId: Option<string>) returns (position: int)
      requires fresh_ !in rows
      modifies this
      ensures IsNextPosition(old(rows), server, position)
      ensures rows == Apply(old(rows), OpCreate(fresh_, server, categoryId, position))
      ensures rows == old(rows)[fresh_ := Channel(Some(server), position, Linked(categoryId), Some(false))]
    {
      position := NextPosition(rows, server);
      rows := rows[fresh_ := Channel(Some(server), position, Linked(categoryId), Some(false))];
    }

    method Delete(id: string) returns (error: Option<Error>)
      modifies this
      ensures error.None? <==> id in old(rows) && old(rows)[id].server.Some? && old(rows)[id].deleted != Some(true)
      ensures rows == Apply(old(rows), OpDelete(id))
      ensures rows == if error.None? then old(rows)[id := old(rows)[id].(deleted := Some(true))] else old(rows)
    {
      if id !in rows {
        return Some(NotFound);
      }
      if rows[id].server.None? {
        return Some(NoServer);
      }
      if rows[id].deleted == Some(true) {
        return Some(AlreadyTrashed);
      }
      rows := rows[id := rows[id].(deleted := Some(true))];
      return None;
    }

    method Restore(id: string) returns (error: Option<Error>)
      modifies this
      ensures error.None? <==> id in old(rows) && old(rows)[id].server.Some? && old(rows)[id].deleted == Some(true)
      ensures rows == Apply(old(rows), OpRestore(id))
      ensures rows == if error.None? then old(rows)[id := old(rows)[id].(deleted := Some(false))] else old(rows)
    {
      if id !in rows {
        return Some(NotFound);
      }
      if rows[id].server.None? {
        return Some(NoServer);
      }
      if rows[id].deleted != Some(true) {
        return Some(NotTrashed);
      }
      rows := rows[id := rows[id].(deleted := Some(false))];
      return None;
    }

    method HardDelete(id: string) returns (error: Option<Error>)
      modifies this
      ensures error.None? <==> id in old(rows) && old(rows)[id].server.Some? && old(rows)[id].deleted == Some(true)
      ensures rows == Apply(old(rows), OpHardDelete(id))
      ensures rows == if error.None? then old(rows) - {id} else old(rows)
    {
      if id !in rows {
        return Some(NotFound);
      }
      if rows[id].server.None? {
        return Some(NoServer);
      }
      if rows[id].deleted != Some(true) {
        return Some(NotTrashed);
      }
      rows := rows - {id};
      return None;
    }

    method Reorder(server: string, ids: seq<string>, arg: CategoryArg) returns (r: Result<nat, Error>)
      modifies this
      ensures r.Ok? <==> forall id :: id in ids ==>
                id in old(rows) && old(rows)[id].server == Some(server) && old(rows)[id].deleted == Some(false)
      ensures rows == Apply(old(rows), OpReorder(server, ids, arg))
      ensures r.Err? ==> rows == old(rows) && r.error == NotFound
      ensures r.Ok? ==> rows == Rearrange(old(rows), ids, arg, |ids|) && r.value == Writes(old(rows), ids, arg, |ids|)
    {
      if ids == [] {
        return Ok(0);
      }
      var i := 0;
      while i < |ids|
        invariant i <= |ids|
        invariant forall id :: id in ids[..i] ==> IsLiveIn(rows, server, id)
      {
        assert ids[..i + 1] == ids[..i] + [ids[i]];
        if !IsLiveIn(rows, server, ids[i]) {
          assert ids[i] in ids;
          return Err(NotFound);
        }
        i := i + 1;
      }
      assert ids[..|ids|] == ids;
      var count := Write(ids, arg);
      return Ok(count);
    }

    /** The writing loop, behind the checks. */
    method Write(ids: seq<string>, arg: CategoryArg) returns (count: nat)
      requires forall id :: id in ids ==> id in rows
      modifies this
      ensures rows == Rearrange(old(rows), ids, arg, |ids|)
      ensures count == Writes(old(rows), ids, arg, |ids|)
    {
      hide Targets, Rewrite, SlotsOf;
      var snapshot := rows;
      var positions := Targets(SlotsOf(snapshot), ids);
      count := 0;
      for j := 0 to |ids|
        invariant rows == Rearrange(snapshot, ids, arg, j)
        invariant count == Writes(snapshot, ids, arg, j)
      {
        var changed := WriteRow(ids[j], snapshot[ids[j]], positions[j], arg);
        if changed {
          count := count + 1;
        }
      }
    }

    /** Merge one row's changes, if there are any. */
    method WriteRow(id: string, channel: Channel, target: int, arg: CategoryArg) returns (changed: bool)
      requires id in rows
      modifies this
      ensures rows == old(rows)[id := Rewrite(channel, old(rows)[id], target, arg)]
      ensures changed <==> channel.position != target || arg.Differs(channel.category)
    {
      var row := rows[id];
      changed := false;
      if channel.position != target {
        row := row.(position := target);
        changed := true;
      }
      if arg.Differs(channel.category) {
        row := row.(category := arg.Wanted());
        changed := true;
      }
      if changed {
        rows := rows[id := row];
      } else {
        assert rows[id := row] == rows;
      }
    }
  }

  // ---- What a reorder does ----

  /**
   * For every list, the listed channels get the requested category and unlisted ones
   * keep everything; without repeats, the listed ones take each other's positions in
   * the requested order.
   */
  lemma ReorderOutcome(rows: Channels, ids: seq<string>, arg: CategoryArg)
    requires forall id :: id in ids ==> id in rows
    ensures
      var after := Rearrange(rows, ids, arg, |ids|);
      && (arg.Set? ==> forall id :: id in ids ==> after[id].category == arg.Wanted())
      && (arg.Leave? ==> forall id :: id in rows ==> after[id].category == rows[id].category)
      && (forall id :: id in rows && id !in ids ==> after[id] == rows[id])
      && (forall id :: id in ids ==> after[id].position == Landing(SlotsOf(rows), ids, id))
      && (NoRepeats(ids) ==>
            && multiset(Listed(SlotsOf(after), ids)) == multiset(Listed(SlotsOf(rows), ids))
            && SortedBy(Listed(SlotsOf(after), ids), Itself()))
  {
    hide Rearrange, Listed, Assign, SortedBy, Landing;
    var after := Rearrange(rows, ids, arg, |ids|);
    RearrangeAssigns(rows, ids, arg, |ids|);
    if NoRepeats(ids) {
      ReorderPermutesListed(SlotsOf(rows), ids);
    }
    assert ids[..|ids|] == ids;
    forall id | id in rows
      ensures after[id].category == if id in ids && arg.Set? then arg.Wanted() else rows[id].category
    {
      RearrangedCategories(rows, ids, arg, |ids|, id);
    }
    forall id | id in rows && id !in ids ensures after[id] == rows[id] {
      assert SlotsOf(after)[id] == SlotsOf(rows)[id];
    }
    forall id | id in ids ensures after[id].position == Landing(SlotsOf(rows), ids, id) {
      ReorderedLanding(SlotsOf(rows), ids, id);
      assert SlotsOf(after)[id].position == after[id].position;
    }
  }

  /** The codec gives this category argument back as it was. */
  predicate Canonical(arg: CategoryArg) {
    arg.Set? && arg.categoryId.Some? ==> ':' in arg.categoryId.value
  }

  /** Once written, a category differs from the argument exactly when the argument is not an encoded id. */
  lemma WrittenCategoryDiffers(arg: CategoryArg)
    requires arg.Set?
    ensures arg.Differs(arg.Wanted()) <==> !Canonical(arg)
  {
    if arg.categoryId.Some? {
      EncodeDecode(arg.categoryId.value);
    }
  }

  /**
   * Repeating a reorder writes nothing exactly when the first time put the list in
   * order and the category was not given as a string without a colon, the empty string
   * included: that is compared as it stands and rewrites every listed row each time.
   * Lists without repeats are always put in order.
   */
  lemma ReorderAgainWritesNothing(rows: Channels, ids: seq<string>, arg: CategoryArg)
    requires forall id :: id in ids ==> id in rows
    ensures
      var after := Rearrange(rows, ids, arg, |ids|);
      && (Writes(after, ids, arg, |ids|) == 0 <==>
            ids == [] || (Canonical(arg) && SortedBy(Listed(SlotsOf(after), ids), Itself())))
      && (NoRepeats(ids) ==> SortedBy(Listed(SlotsOf(after), ids), Itself()))
  {
    hide Rearrange, Targets, Writes, Assign, Canonical, SortedBy, Listed, CategoryArg.Wanted, CategoryArg.Differs;
    var after := Rearrange(rows, ids, arg, |ids|);
    ReorderOutcome(rows, ids, arg);
    NoWrites(after, ids, arg, |ids|);
    NothingToMove(SlotsOf(after), ids);
    var targets, listed := Targets(SlotsOf(after), ids), Listed(SlotsOf(after), ids);
    forall i | 0 <= i < |ids|
      ensures NeedsWrite(after, ids, arg, i) <==> listed[i] != targets[i] || !Canonical(arg)
    {
      assert ids[i] in ids;
      RowNeedsWrite(after, ids, arg, i);
    }
    if Canonical(arg) {
      assert targets == listed <==> forall i :: 0 <= i < |ids| ==> listed[i] == targets[i];
    } else if ids != [] {
      assert NeedsWrite(after, ids, arg, 0);
    }
  }

  lemma RowNeedsWrite(rows: Channels, ids: seq<string>, arg: CategoryArg, i: nat)
    requires forall id :: id in ids ==> id in rows
    requires i < |ids|
    requires arg.Set? ==> rows[ids[i]].category == arg.Wanted()
    ensures NeedsWrite(rows, ids, arg, i)
            <==> Listed(SlotsOf(rows), ids)[i] != Targets(SlotsOf(rows), ids)[i] || !Canonical(arg)
  {
    hide Targets, CategoryArg.Wanted;
    if arg.Set? {
      WrittenCategoryDiffers(arg);
    }
  }

  // ---- The operations in terms of the columns ----

  /** A reorder that lists a missing, foreign or trashed channel, or any but a live one, changes nothing at all. */
  lemma ReorderTakesLiveChannelsOnly(rows: Channels, server: string, ids: seq<string>, arg: CategoryArg, id: string)
    requires id in ids
    requires id !in rows || rows[id].server != Some(server) || rows[id].deleted != Some(false)
    ensures Apply(rows, OpReorder(server, ids, arg)) == rows
  {
    assert !IsLiveIn(rows, server, id);
  }

  /** The next position: 0 on a server without channels, else one more than the highest, trashed channels included. */
  lemma NextPositionIsBehindAll(rows: Channels, server: string, p: int)
    ensures IsNextPosition(rows, server, p) <==>
              if forall id :: id in rows ==> rows[id].server != Some(server) then p == 0
              else
                && (exists id :: id in rows && rows[id].server == Some(server) && rows[id].position == p - 1)
                && (forall id :: id in rows && rows[id].server == Some(server) ==> rows[id].position < p)
  {
    var taken := PositionsIn(rows, server);
    forall id | id in rows && rows[id].server == Some(server) ensures rows[id].position in taken {
    }
    if p - 1 in taken {
      var id :| id in rows && rows[id].server == Some(server) && rows[id].position == p - 1;
    }
    if q :| q in taken {
      var id :| id in rows && rows[id].server == Some(server) && rows[id].position == q;
    }
  }

  /** Restoring undoes trashing, position and category included. */
  lemma RestoreUndoesTrash(rows: Channels, id: string)
    requires id in rows && rows[id].server.Some? && rows[id].deleted == Some(false)
    ensures Apply(Apply(rows, OpDelete(id)), OpRestore(id)) == rows
    ensures Apply(Apply(rows, OpDelete(id)), OpHardDelete(id)) == rows - {id}
    ensures Apply(rows, OpHardDelete(id)) == rows == Apply(rows, OpRestore(id))
  {
  }

  /** The places among the first `n` whose row is off its target or in another category than asked for. */
  function WrittenPlaces(rows: Channels, ids: seq<string>, arg: CategoryArg, n: nat): set<nat>
    requires forall id :: id in ids ==> id in rows
    requires n <= |ids|
  {
    set i: nat | i < n && (rows[ids[i]].position != Targets(SlotsOf(rows), ids)[i] || arg.Differs(rows[ids[i]].category))
  }

  /** The count of a reorder is the number of those places. */
  lemma {:induction false} WritesAreCounted(rows: Channels, ids: seq<string>, arg: CategoryArg, n: nat)
    requires forall id :: id in ids ==> id in rows
    requires n <= |ids|
    ensures Writes(rows, ids, arg, n) == |WrittenPlaces(rows, ids, arg, n)|
  {
    hide Targets, SlotsOf, CategoryArg.Differs;
    if n > 0 {
      WritesAreCounted(rows, ids, arg, n - 1);
      var before := WrittenPlaces(rows, ids, arg, n - 1);
      assert WrittenPlaces(rows, ids, arg, n) == if NeedsWrite(rows, ids, arg, n - 1) then before + {n - 1} else before;
    }
  }

  // ---- Histories ----

  /** What `Create` sees to: a fresh id and the next position. */
  ghost predicate Possible(rows: Channels, op: Op) {
    match op
    case OpCreate(id, server, _, position) => id !in rows && IsNextPosition(rows, server, position)
    case _ => true
  }

  /** Only a reorder can do harm, and only when rows listed more than once make two land together. */
  ghost predicate Harmless(rows: Channels, op: Op) {
    match op
    case OpReorder(server, ids, _) => (forall id :: id in ids ==> IsLiveIn(rows, server, id)) ==> LandApart(SlotsOf(rows), ids)
    case _ => true
  }

  lemma ReordersWithoutRepeatsAreHarmless(rows: Channels, server: string, ids: seq<string>, arg: CategoryArg)
    requires Distinct(SlotsOf(rows)) && NoRepeats(ids)
    ensures Harmless(rows, OpReorder(server, ids, arg))
  {
    hide Distinct, LandApart;
    if forall id :: id in ids ==> IsLiveIn(rows, server, id) {
      NoRepeatsLandApart(SlotsOf(rows), ids, server);
    }
  }

  lemma CreateKeepsDistinct(rows: Channels, id: string, server: string, categoryId: Option<string>, position: int)
    requires Distinct(SlotsOf(rows)) && id !in rows && IsNextPosition(rows, server, position)
    ensures Distinct(SlotsOf(rows[id := Channel(Some(server), position, Linked(categoryId), Some(false))]))
  {
    SlotsUpdate(rows, id, Channel(Some(server), position, Linked(categoryId), Some(false)));
    forall a | a in rows && rows[a].server == Some(server) ensures SlotsOf(rows)[a].position != position {
      assert rows[a].position in PositionsIn(rows, server);
    }
  }

  lemma ListedServers(rows: Channels, ids: seq<string>, server: string)
    requires forall id :: id in ids ==> IsLiveIn(rows, server, id)
    ensures forall id :: id in ids ==> id in SlotsOf(rows) && SlotsOf(rows)[id].server == Some(server)
  {
  }

  lemma ReorderedRowsAreDistinct(rows: Channels, server: string, ids: seq<string>, arg: CategoryArg)
    requires Distinct(SlotsOf(rows)) && forall id :: id in ids ==> id in rows && IsLiveIn(rows, server, id)
    ensures Distinct(SlotsOf(Rearrange(rows, ids, arg, |ids|))) <==> LandApart(SlotsOf(rows), ids)
  {
    hide Rearrange, Assign, Distinct, LandApart, SlotsOf;
    RearrangeAssigns(rows, ids, arg, |ids|);
    ListedServers(rows, ids, server);
    ReorderKeepsDistinct(SlotsOf(rows), ids, server);
  }

  /** An operation keeps positions distinct exactly when it is harmless. */
  lemma StepKeepsDistinct(rows: Channels, op: Op)
    requires Distinct(SlotsOf(rows)) && Possible(rows, op)
    ensures Distinct(SlotsOf(Apply(rows, op))) <==> Harmless(rows, op)
  {
    hide Distinct, Rearrange, LandApart;
    match op
    case OpCreate(id, server, categoryId, position) => CreateKeepsDistinct(rows, id, server, categoryId, position);
    case OpDelete(id) => assert SlotsOf(Apply(rows, op)) == SlotsOf(rows);
    case OpRestore(id) => assert SlotsOf(Apply(rows, op)) == SlotsOf(rows);
    case OpHardDelete(id) => FewerStayDistinct(SlotsOf(rows), SlotsOf(Apply(rows, op)));
    case OpReorder(server, ids, arg) =>
      if forall id :: id in ids ==> IsLiveIn(rows, server, id) {
        ReorderedRowsAreDistinct(rows, server, ids, arg);
      }
  }

  /** The three judgements of a history: what is possible, what does no harm, and what is to be kept. */
  ghost function CanHappen(): (Channels, Op) -> bool {
    (rows: Channels, op: Op) => Possible(rows, op)
  }

  ghost function DoesNoHarm(): (Channels, Op) -> bool {
    (rows: Channels, op: Op) => Harmless(rows, op)
  }

  ghost function HasDistinctPositions(): Channels -> bool {
    (rows: Channels) => Distinct(SlotsOf(rows))
  }

  /**
   * A server's channels stand at pairwise distinct positions throughout a history, the
   * trashed ones included, if and only if each of its reorders is harmless; so whatever
   * happens meanwhile, a restored channel finds its position free.
   */
  lemma HistoryKeepsDistinct(rows: Channels, ops: seq<Op>)
    requires Distinct(SlotsOf(rows)) && Throughout(rows, ops, Apply, CanHappen())
    ensures Always(rows, ops, Apply, HasDistinctPositions()) <==> Throughout(rows, ops, Apply, DoesNoHarm())
  {
    hide Apply, Distinct, Possible, Harmless;
    forall before, op | Distinct(SlotsOf(before)) && Possible(before, op)
      ensures Distinct(SlotsOf(Apply(before, op))) <==> Harmless(before, op)
    {
      StepKeepsDistinct(before, op);
    }
    InvariantExactly(rows, ops, Apply, HasDistinctPositions(), CanHappen(), DoesNoHarm());
  }
}
