/** When the order in which the database returns rows cannot move a permission. */
module RowOrder {
  import opened Wrappers
  import opened Sequences
  import opened RecordIds
  import opened Permissions
  import opened PermissionCascade

  /** No two different live roles stand at the same position. */
  ghost predicate DistinctPositions(roles: seq<Role>) {
    KeyIdentifies(Filter(roles, IsLive()), ByPosition())
  }

  predicate SameTarget(a: Override, b: Override) {
    a.scopeType == b.scopeType && a.ScopeKey() == b.ScopeKey()
    && a.targetType == b.targetType && a.targetId == b.targetId
  }

  /** The unique index on (server, scope type, scope, target type, target). */
  ghost predicate UniqueRows(overrides: seq<Override>) {
    forall a, b :: a in overrides && b in overrides && SameTarget(a, b) ==> a == b
  }

  predicate IsLiveKey(live: seq<Role>, id: string) {
    exists r :: r in live && r.Key() == id
  }

  ghost predicate TargetsAreLive(m: Subject, live: seq<Role>, overrides: seq<Override>) {
    forall o :: o in overrides && Reaches(m, live, o) ==> IsLiveKey(live, o.targetId)
  }

  lemma {:induction false} PositionOfLive(live: seq<Role>, id: string) returns (r: Role)
    requires IsLiveKey(live, id)
    ensures r in live && r.Key() == id && r.Position() == PositionOf(live, id)
  {
    var n := |live| - 1;
    if live[n].Key() == id {
      r := live[n];
    } else {
      var w :| w in live && w.Key() == id;
      assert live == live[..n] + [live[n]];
      r := PositionOfLive(live[..n], id);
    }
  }

  lemma SamePositionSameRow(m: Subject, roles: seq<Role>, overrides: seq<Override>, x: Override, y: Override)
    requires DistinctPositions(roles) && UniqueRows(overrides)
    requires x in overrides && y in overrides
    requires IsLiveKey(LiveRoles(roles), x.targetId) && IsLiveKey(LiveRoles(roles), y.targetId)
    requires x.targetType == y.targetType && x.scopeType == y.scopeType && x.ScopeKey() == y.ScopeKey()
    requires PositionOf(LiveRoles(roles), x.targetId) == PositionOf(LiveRoles(roles), y.targetId)
    ensures x == y
  {
    var rx := PositionOfLive(LiveRoles(roles), x.targetId);
    var ry := PositionOfLive(LiveRoles(roles), y.targetId);
    assert ByPosition()(rx) == ByPosition()(ry);
    assert rx == ry;
    assert SameTarget(x, y);
  }

  /** Overrides of one scope are told apart by the position of their role. */
  lemma ScopeRowsHaveOwnPositions(m: Subject, roles: seq<Role>, overrides: seq<Override>, kind: string, key: string)
    requires DistinctPositions(roles) && UniqueRows(overrides)
    requires TargetsAreLive(m, LiveRoles(roles), overrides)
    ensures KeyIdentifies(Filter(overrides, RoleRow(m, LiveRoles(roles), kind, key)), ByTarget(LiveRoles(roles)))
  {
    var live := LiveRoles(roles);
    var rows := Filter(overrides, RoleRow(m, live, kind, key));
    forall x, y | x in rows && y in rows && ByTarget(live)(x) == ByTarget(live)(y)
      ensures x == y
    {
      SamePositionSameRow(m, roles, overrides, x, y);
    }
  }

  lemma FirstOfOneKind<T(!new)>(a: seq<T>, b: seq<T>)
    requires multiset(a) == multiset(b)
    requires forall x, y :: x in a && y in a ==> x == y
    ensures First(a) == First(b)
  {
    MultisetMembers(a, b);
    if a != [] {
      assert a[0] in a && b[0] in b;
      assert b[0] in a;
    }
  }

  /** Everything the cascade reads from the rows is the same for any order of the rows. */
  lemma LayersForgetOrder(m: Subject, roles: seq<Role>, o1: seq<Override>, o2: seq<Override>, kind: string, key: Option<string>)
    requires multiset(o1) == multiset(o2)
    requires DistinctPositions(roles) && UniqueRows(o1)
    requires TargetsAreLive(m, LiveRoles(roles), o1)
    ensures UserLayer(m, o1, kind, key) == UserLayer(m, o2, kind, key)
    ensures key.Some? ==> RoleLayer(m, LiveRoles(roles), o1, kind, key.value) == RoleLayer(m, LiveRoles(roles), o2, kind, key.value)
  {
    var live := LiveRoles(roles);
    FilterPermutation(o1, o2, UserRow(m, kind, key));
    forall x, y | x in Filter(o1, UserRow(m, kind, key)) && y in Filter(o1, UserRow(m, kind, key))
      ensures x == y
    {
      assert SameTarget(x, y);
    }
    FirstOfOneKind(Filter(o1, UserRow(m, kind, key)), Filter(o2, UserRow(m, kind, key)));
    if key.Some? {
      FilterPermutation(o1, o2, RoleRow(m, live, kind, key.value));
      ScopeRowsHaveOwnPositions(m, roles, o1, kind, key.value);
      SortForgetsOrder(Filter(o1, RoleRow(m, live, kind, key.value)), Filter(o2, RoleRow(m, live, kind, key.value)), ByTarget(live));
    }
  }

  /**
   * With distinct live positions, live override targets and the unique index, any
   * permutation of the role rows and of the override rows gives the same answers.
   */
  lemma RowOrderDoesNotMatter(m: Subject, r1: seq<Role>, r2: seq<Role>, o1: seq<Override>, o2: seq<Override>,
                              channel: string, category: Option<string>, other: string)
    requires multiset(r1) == multiset(r2) && multiset(o1) == multiset(o2)
    requires DistinctPositions(r1) && UniqueRows(o1)
    requires TargetsAreLive(m, LiveRoles(r1), o1)
    ensures PlainServer(m, r1, o1) == PlainServer(m, r2, o2)
    ensures PlainChannel(m, r1, o1, channel, category) == PlainChannel(m, r2, o2, channel, category)
    ensures PlainCategory(m, r1, o1, other) == PlainCategory(m, r2, o2, other)
  {
    LiveRolesForgetOrder(r1, r2);
    ScopedRowsForgetOrder(m, r1, o1, o2, channel, category, other);
  }

  lemma LiveRolesForgetOrder(r1: seq<Role>, r2: seq<Role>)
    requires multiset(r1) == multiset(r2) && DistinctPositions(r1)
    ensures LiveRoles(r1) == LiveRoles(r2)
  {
    FilterPermutation(r1, r2, IsLive());
    SortForgetsOrder(Filter(r1, IsLive()), Filter(r2, IsLive()), ByPosition());
  }

  lemma ScopedRowsForgetOrder(m: Subject, roles: seq<Role>, o1: seq<Override>, o2: seq<Override>,
                              channel: string, category: Option<string>, other: string)
    requires multiset(o1) == multiset(o2)
    requires DistinctPositions(roles) && UniqueRows(o1)
    requires TargetsAreLive(m, LiveRoles(roles), o1)
    ensures UserLayer(m, o1, "server", None) == UserLayer(m, o2, "server", None)
    ensures ChannelRows(m, LiveRoles(roles), o1, channel, category) == ChannelRows(m, LiveRoles(roles), o2, channel, category)
    ensures CategoryRows(m, LiveRoles(roles), o1, other) == CategoryRows(m, LiveRoles(roles), o2, other)
  {
    LayersForgetOrder(m, roles, o1, o2, "server", None);
    LayersForgetOrder(m, roles, o1, o2, "channel", Some(channel));
    LayersForgetOrder(m, roles, o1, o2, "category", category);
    LayersForgetOrder(m, roles, o1, o2, "category", Some(other));
  }

  lemma SortOfTwo<T(!new)>(x: T, y: T, key: T -> int)
    requires key(x) <= key(y)
    ensures StableSort([x, y], key) == [x, y]
  {
    assert [x, y][..1] == [x] && [x][..0] == [];
    assert StableSort([x], key) == [x];
  }

  lemma FilterOfTwo<T(!new)>(x: T, y: T, keep: T -> bool)
    requires keep(x) && keep(y)
    ensures Filter([x, y], keep) == [x, y]
  {
    assert [x, y][..1] == [x] && [x][..0] == [];
    assert Filter([x], keep) == [x];
  }

  lemma ReplayOfTwo(x: Entry, y: Entry)
    ensures Replay({}, [x, y]) == Apply(Apply({}, x), y)
  {
    assert [x, y][..1] == [x] && [x][..0] == [];
    assert Replay({}, [x]) == Apply({}, x);
  }

  /** Distinct positions are needed: two roles at one position, one allowing what the other denies. */
  lemma SharedPositionMakesOrderMatter() returns (m: Subject, a: Role, b: Role)
    ensures !a.deleted && !b.deleted && a.Position() == b.Position() && a.Key() != b.Key()
    ensures READ_MESSAGES !in PlainServer(m, [a, b], []) && READ_MESSAGES in PlainServer(m, [b, a], [])
  {
    m := Subject("did:syr:u", {});
    a := Role(RecordId("server_role", "a"), Some(1), true, false, None, Some({READ_MESSAGES}), None);
    b := Role(RecordId("server_role", "b"), Some(1), true, false, None, None, Some({READ_MESSAGES}));
    TwoDefaultRoles(m, a, b);
    TwoDefaultRoles(m, b, a);
    assert a.Key()[12] != b.Key()[12];
  }

  lemma TwoDefaultRoles(m: Subject, x: Role, y: Role)
    requires x.isDefault && y.isDefault && !x.deleted && !y.deleted
    requires x.Position() <= y.Position()
    ensures PlainServer(m, [x, y], []) == Apply(Apply({}, x.ToEntry()), y.ToEntry())
  {
    FilterOfTwo(x, y, IsLive());
    SortOfTwo(x, y, ByPosition());
    FilterOfTwo(x, y, Holds(m));
    assert RoleEntries(m, [x, y]) == [x.ToEntry(), y.ToEntry()];
    ReplayOfTwo(x.ToEntry(), y.ToEntry());
    assert UserLayer(m, [], "server", None) == [];
    assert RoleEntries(m, [x, y]) + ToEntries([]) == RoleEntries(m, [x, y]);
  }

  /**
   * A soft-deleted role that the member still holds gives nothing in layer 1, yet its
   * overrides go on counting in layers 3 and 4, among whatever others there are,
   * sorted as if the role stood at position 0.
   */
  lemma DeletedRoleOverridesStillCount(m: Subject, roles: seq<Role>, overrides: seq<Override>, o: Override, kind: string, key: string)
    requires o in overrides && o.targetType == "role" && o.targetId in m.held
    requires o.scopeType == kind && o.ScopeKey() == Some(key)
    requires forall r :: r in roles && r.Key() == o.targetId ==> r.deleted
    ensures forall r :: r in LiveRoles(roles) ==> r.Key() != o.targetId
    ensures o in RoleLayer(m, LiveRoles(roles), overrides, kind, key)
    ensures ByTarget(LiveRoles(roles))(o) == 0
  {
    AbsentPositionIsZero(LiveRoles(roles), o.targetId);
  }

  function TargetsLive(live: seq<Role>): Override -> bool {
    (o: Override) => IsLiveKey(live, o.targetId)
  }

  /**
   * Leaving out the overrides of roles that are not live changes nothing in a scope if
   * and only if every override of that scope which reaches the member targets a live role.
   */
  lemma DeletionIsInert(m: Subject, roles: seq<Role>, overrides: seq<Override>, kind: string, key: string)
    ensures
      var live := LiveRoles(roles);
      RoleLayer(m, live, Filter(overrides, TargetsLive(live)), kind, key) == RoleLayer(m, live, overrides, kind, key)
      <==> forall o :: o in overrides && RoleRow(m, live, kind, key)(o) ==> IsLiveKey(live, o.targetId)
  {
    var live := LiveRoles(roles);
    var counts := RoleRow(m, live, kind, key);
    hide IsLiveKey, LiveRoles, RoleRow;
    if forall o :: o in overrides && counts(o) ==> IsLiveKey(live, o.targetId) {
      FilterOfFilter(overrides, TargetsLive(live), counts);
    } else {
      var o :| o in overrides && counts(o) && !IsLiveKey(live, o.targetId);
      assert o in RoleLayer(m, live, overrides, kind, key);
      assert o !in RoleLayer(m, live, Filter(overrides, TargetsLive(live)), kind, key);
    }
  }

  /** The override addresses a user, or a role that is live. */
  function Standing(live: seq<Role>): Override -> bool {
    (o: Override) => o.targetType == "role" ==> IsLiveKey(live, o.targetId)
  }

  lemma StandingRoleRows(m: Subject, live: seq<Role>, overrides: seq<Override>, kind: string, key: string)
    ensures RoleLayer(m, live, Filter(overrides, Standing(live)), kind, key) == Filter(RoleLayer(m, live, overrides, kind, key), Standing(live))
  {
    FilterCommutes(overrides, Standing(live), RoleRow(m, live, kind, key));
    FilterOfSort(Filter(overrides, RoleRow(m, live, kind, key)), ByTarget(live), Standing(live));
  }

  lemma StandingUserRows(m: Subject, live: seq<Role>, overrides: seq<Override>, kind: string, key: Option<string>)
    ensures UserLayer(m, Filter(overrides, Standing(live)), kind, key) == UserLayer(m, overrides, kind, key)
    ensures Filter(UserLayer(m, overrides, kind, key), Standing(live)) == UserLayer(m, overrides, kind, key)
  {
    FilterOfFilter(overrides, Standing(live), UserRow(m, kind, key));
    FilterEverything(UserLayer(m, overrides, kind, key), Standing(live));
  }

  /** Without the overrides of dead roles, a channel's rows are its rows with just those left out. */
  lemma DeadRowsDropOut(m: Subject, live: seq<Role>, overrides: seq<Override>, channel: string, category: Option<string>)
    ensures UserLayer(m, Filter(overrides, Standing(live)), "server", None) == UserLayer(m, overrides, "server", None)
    ensures ChannelRows(m, live, Filter(overrides, Standing(live)), channel, category)
            == Filter(ChannelRows(m, live, overrides, channel, category), Standing(live))
  {
    hide UserLayer, RoleLayer, Standing;
    StandingUserRows(m, live, overrides, "server", None);
    var layer3 := if InCategory(category) then RoleLayer(m, live, overrides, "category", category.value) else [];
    var layer4 := RoleLayer(m, live, overrides, "channel", channel);
    var layer5 := if InCategory(category) then UserLayer(m, overrides, "category", category) else [];
    var layer6 := UserLayer(m, overrides, "channel", Some(channel));
    if InCategory(category) {
      StandingRoleRows(m, live, overrides, "category", category.value);
      StandingUserRows(m, live, overrides, "category", category);
    }
    StandingRoleRows(m, live, overrides, "channel", channel);
    StandingUserRows(m, live, overrides, "channel", Some(channel));
    FilterConcat(layer3 + layer4 + layer5, layer6, Standing(live));
    FilterConcat(layer3 + layer4, layer5, Standing(live));
    FilterConcat(layer3, layer4, Standing(live));
  }

  /** Rows that do not mention a bit can be left out without moving it. */
  lemma {:induction false} UnmentionedRowsDropOut(perms: Mask, rows: seq<Override>, keep: Override -> bool, bit: nat)
    requires forall o :: o in rows && !keep(o) ==> !Mentions(o.ToEntry(), bit)
    ensures bit in Replay(perms, ToEntries(Filter(rows, keep))) <==> bit in Replay(perms, ToEntries(rows))
  {
    if rows != [] {
      var front, last := rows[..|rows| - 1], rows[|rows| - 1];
      assert rows == front + [last];
      UnmentionedRowsDropOut(perms, front, keep, bit);
      ReplayOneMore(perms, front, last);
      ReplayOneMore(perms, Filter(front, keep), last);
    }
  }

  lemma ReplayOneMore(perms: Mask, rows: seq<Override>, o: Override)
    ensures Replay(perms, ToEntries(rows + [o])) == Apply(Replay(perms, ToEntries(rows)), o.ToEntry())
  {
    assert ToEntries(rows + [o])[..|rows|] == ToEntries(rows);
  }

  /**
   * Deletion moves a bit of the answer exactly when the last word on it changes with
   * the rows of dead roles left out; so it is inert for every bit that none of the dead
   * roles' rows in the channel mentions.
   */
  lemma DeletionAndTheAnswer(m: Subject, roles: seq<Role>, overrides: seq<Override>, channel: string, category: Option<string>, bit: nat)
    ensures
      var live := LiveRoles(roles);
      var standing := Filter(overrides, Standing(live));
      var same := bit in PlainChannel(m, roles, standing, channel, category) <==> bit in PlainChannel(m, roles, overrides, channel, category);
      && (same <==> (LastWordAllows(ChannelEntries(m, roles, standing, channel, category), bit)
                     <==> LastWordAllows(ChannelEntries(m, roles, overrides, channel, category), bit)))
      && ((forall o :: o in ChannelRows(m, live, overrides, channel, category) && !Standing(live)(o) ==> !Mentions(o.ToEntry(), bit)) ==> same)
  {
    var live := LiveRoles(roles);
    var standing := Filter(overrides, Standing(live));
    ChannelBitIsLastWord(m, roles, overrides, channel, category, bit);
    ChannelBitIsLastWord(m, roles, standing, channel, category, bit);
    hide Standing, LastWord, ChannelRows, UserLayer, LiveRoles, RoleEntries;
    var rows := ChannelRows(m, live, overrides, channel, category);
    if forall o :: o in rows && !Standing(live)(o) ==> !Mentions(o.ToEntry(), bit) {
      DeadRowsDropOut(m, live, overrides, channel, category);
      BehindLayerTwo(m, live, UserLayer(m, overrides, "server", None), rows);
      BehindLayerTwo(m, live, UserLayer(m, overrides, "server", None), Filter(rows, Standing(live)));
      UnmentionedRowsDropOut(Replay({}, RoleEntries(m, live) + ToEntries(UserLayer(m, overrides, "server", None))), rows, Standing(live), bit);
    }
  }

  lemma BehindLayerTwo(m: Subject, live: seq<Role>, layer2: seq<Override>, rows: seq<Override>)
    ensures
      var base := RoleEntries(m, live);
      Replay({}, base + ToEntries(layer2 + rows)) == Replay(Replay({}, base + ToEntries(layer2)), ToEntries(rows))
  {
    EntriesConcat(layer2, rows);
    assert RoleEntries(m, live) + ToEntries(layer2 + rows) == (RoleEntries(m, live) + ToEntries(layer2)) + ToEntries(rows);
    ReplayConcat({}, RoleEntries(m, live) + ToEntries(layer2), ToEntries(rows));
  }

  /** Live targets are needed: overrides of two deleted roles tie at position 0, so row order decides. */
  lemma DeletedTargetsMakeOrderMatter() returns (m: Subject, a: Override, b: Override)
    ensures !SameTarget(a, b)
    ensures READ_MESSAGES !in PlainChannel(m, [], [a, b], "channel:c", None)
    ensures READ_MESSAGES in PlainChannel(m, [], [b, a], "channel:c", None)
  {
    var channel := Some(RecordId("channel", "c"));
    m := Subject("did:syr:u", {"server_role:x", "server_role:y"});
    a := Override("channel", channel, "role", "server_role:x", Some({READ_MESSAGES}), None);
    b := Override("channel", channel, "role", "server_role:y", None, Some({READ_MESSAGES}));
    assert a.targetId[12] != b.targetId[12];
    assert "channel" + ":" + "c" == "channel:c";
    TwoChannelOverrides(m, a, b, "channel:c");
    TwoChannelOverrides(m, b, a, "channel:c");
  }

  lemma TwoChannelOverrides(m: Subject, x: Override, y: Override, channel: string)
    requires x.targetType == y.targetType == "role" && x.targetId in m.held && y.targetId in m.held
    requires x.scopeType == y.scopeType == "channel" && x.ScopeKey() == y.ScopeKey() == Some(channel)
    ensures PlainChannel(m, [], [x, y], channel, None) == Apply(Apply({}, x.ToEntry()), y.ToEntry())
  {
    OnlyChannelRoleRows(m, x, y, channel);
    assert [] + [x, y] == [x, y];
    assert RoleEntries(m, LiveRoles([])) == [];
    assert ToEntries([x, y]) == [x.ToEntry(), y.ToEntry()];
    assert [] + ToEntries([x, y]) == ToEntries([x, y]);
    ReplayOfTwo(x.ToEntry(), y.ToEntry());
  }

  lemma OnlyChannelRoleRows(m: Subject, x: Override, y: Override, channel: string)
    requires x.targetType == y.targetType == "role" && x.targetId in m.held && y.targetId in m.held
    requires x.scopeType == y.scopeType == "channel" && x.ScopeKey() == y.ScopeKey() == Some(channel)
    ensures UserLayer(m, [x, y], "server", None) == []
    ensures ChannelRows(m, LiveRoles([]), [x, y], channel, None) == [x, y]
  {
    hide Filter, StableSort, Encode;
    FilterNothing([x, y], UserRow(m, "server", None));
    FilterNothing([x, y], UserRow(m, "channel", Some(channel)));
    FilterOfTwo(x, y, RoleRow(m, [], "channel", channel));
    SortOfTwo(x, y, ByTarget([]));
  }

  lemma {:induction false} AbsentPositionIsZero(live: seq<Role>, id: string)
    requires forall r :: r in live ==> r.Key() != id
    ensures PositionOf(live, id) == 0
  {
    if live != [] {
      AbsentPositionIsZero(live[..|live| - 1], id);
    }
  }
}
