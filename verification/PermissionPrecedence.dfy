/**
 * The cascade in terms of the stored columns: which single row decides a permission
 * bit, layer by layer from the highest down, and what that row says.
 */
module PermissionPrecedence {
  import opened Wrappers
  import opened Sequences
  import opened RecordIds
  import opened Permissions
  import opened PermissionCascade

  // ---- Roles ----

  predicate RoleApplies(m: Subject, r: Role) {
    !r.deleted && (r.isDefault || Encode(r.id) in m.held)
  }

  /** The legacy mask counts only where there is no allow mask. */
  predicate RoleAllows(r: Role, bit: nat) {
    if r.allow.Some? then bit in r.allow.value else r.legacy.Some? && bit in r.legacy.value
  }

  predicate RoleMentions(r: Role, bit: nat) {
    RoleAllows(r, bit) || (r.deny.Some? && bit in r.deny.value)
  }

  /** Of the roles that apply and mention the bit, row `i` stands highest; the later row of two that tie. */
  predicate RoleDecides(m: Subject, roles: seq<Role>, bit: nat, i: nat) {
    && i < |roles| && RoleApplies(m, roles[i]) && RoleMentions(roles[i], bit)
    && forall j :: 0 <= j < |roles| && j != i && RoleApplies(m, roles[j]) && RoleMentions(roles[j], bit) ==>
         || roles[j].position.GetOr(0) < roles[i].position.GetOr(0)
         || (roles[j].position.GetOr(0) == roles[i].position.GetOr(0) && j < i)
  }

  ghost predicate RolesAllow(m: Subject, roles: seq<Role>, bit: nat) {
    exists i: nat :: RoleDecides(m, roles, bit, i) && RoleAllows(roles[i], bit)
  }

  // ---- Overrides ----

  predicate RowAllows(o: Override, bit: nat) {
    o.allow.Some? && bit in o.allow.value
  }

  predicate RowMentions(o: Override, bit: nat) {
    RowAllows(o, bit) || (o.deny.Some? && bit in o.deny.value)
  }

  predicate InScope(o: Override, kind: string, key: Option<string>) {
    o.scopeType == kind && if o.scopeId.Some? then key == Some(Encode(o.scopeId.value)) else key.None?
  }

  predicate IsUserRow(m: Subject, o: Override, kind: string, key: Option<string>) {
    o.targetType == "user" && o.targetId == m.userId && InScope(o, kind, key)
  }

  predicate IsFirstUserRow(m: Subject, rows: seq<Override>, kind: string, key: Option<string>, i: nat) {
    i < |rows| && IsUserRow(m, rows[i], kind, key) && forall j :: 0 <= j < i ==> !IsUserRow(m, rows[j], kind, key)
  }

  /** The first row that addresses the user in the scope mentions the bit. */
  ghost predicate UserRowMentions(m: Subject, rows: seq<Override>, kind: string, key: Option<string>, bit: nat) {
    exists i: nat :: IsFirstUserRow(m, rows, kind, key, i) && RowMentions(rows[i], bit)
  }

  ghost predicate UserRowAllows(m: Subject, rows: seq<Override>, kind: string, key: Option<string>, bit: nat) {
    exists i: nat :: IsFirstUserRow(m, rows, kind, key, i) && RowAllows(rows[i], bit)
  }

  predicate IsRoleRow(m: Subject, roles: seq<Role>, o: Override, kind: string, key: string) {
    && o.targetType == "role" && InScope(o, kind, Some(key))
    && (o.targetId in m.held || exists r :: r in roles && !r.deleted && r.isDefault && Encode(r.id) == o.targetId)
  }

  /** The position a role id stands at: that of its live row, the highest if there are several; 0 without one. */
  predicate StandsAt(roles: seq<Role>, id: string, p: int) {
    if exists r :: r in roles && !r.deleted && Encode(r.id) == id
    then
      && (exists r :: r in roles && !r.deleted && Encode(r.id) == id && r.position.GetOr(0) == p)
      && (forall r :: r in roles && !r.deleted && Encode(r.id) == id ==> r.position.GetOr(0) <= p)
    else p == 0
  }

  ghost predicate StandsBelow(roles: seq<Role>, rows: seq<Override>, j: nat, i: nat)
    requires i < |rows| && j < |rows|
  {
    exists p, q :: StandsAt(roles, rows[j].targetId, p) && StandsAt(roles, rows[i].targetId, q) && (p < q || (p == q && j < i))
  }

  /** Of the role rows of the scope that mention the bit, the target of row `i` stands highest. */
  ghost predicate RoleRowDecides(m: Subject, roles: seq<Role>, rows: seq<Override>, kind: string, key: string, bit: nat, i: nat) {
    && i < |rows| && IsRoleRow(m, roles, rows[i], kind, key) && RowMentions(rows[i], bit)
    && forall j :: 0 <= j < |rows| && j != i && IsRoleRow(m, roles, rows[j], kind, key) && RowMentions(rows[j], bit) ==>
         StandsBelow(roles, rows, j, i)
  }

  predicate RoleRowsMention(m: Subject, roles: seq<Role>, rows: seq<Override>, kind: string, key: string, bit: nat) {
    exists o :: o in rows && IsRoleRow(m, roles, o, kind, key) && RowMentions(o, bit)
  }

  ghost predicate RoleRowsAllow(m: Subject, roles: seq<Role>, rows: seq<Override>, kind: string, key: string, bit: nat) {
    exists i: nat :: RoleRowDecides(m, roles, rows, kind, key, bit, i) && RowAllows(rows[i], bit)
  }

  // ---- What the last entry of a list says ----

  function LastSays(entries: seq<Entry>, bit: nat): Option<bool> {
    if entries == [] then None
    else if Mentions(entries[|entries| - 1], bit) then Some(bit in entries[|entries| - 1].allow)
    else LastSays(entries[..|entries| - 1], bit)
  }

  lemma {:induction false} ReplaySays(perms: Mask, entries: seq<Entry>, bit: nat)
    ensures bit in Replay(perms, entries) <==> LastSays(entries, bit).GetOr(bit in perms)
  {
    if entries != [] {
      ReplaySays(perms, entries[..|entries| - 1], bit);
    }
  }

  lemma {:induction false} LastSaysConcat(a: seq<Entry>, b: seq<Entry>, bit: nat)
    ensures LastSays(a + b, bit) == if LastSays(b, bit).Some? then LastSays(b, bit) else LastSays(a, bit)
  {
    if b == [] {
      assert a + b == a;
    } else {
      assert (a + b)[..|a + b| - 1] == a + b[..|b| - 1];
      LastSaysConcat(a, b[..|b| - 1], bit);
    }
  }

  /** The last element of a list that passes a filter. */
  function LastOf<T(!new)>(s: seq<T>, p: T -> bool): Option<T> {
    var kept := Filter(s, p);
    if kept == [] then None else Some(kept[|kept| - 1])
  }

  lemma {:induction false} LastSaysOf<T(!new)>(rows: seq<T>, f: T -> Entry, mentions: T -> bool, bit: nat)
    requires forall x :: x in rows ==> (mentions(x) <==> Mentions(f(x), bit))
    ensures LastSays(Map(rows, f), bit)
            == match LastOf(rows, mentions) case None => None case Some(x) => Some(bit in f(x).allow)
  {
    if rows != [] {
      var front := rows[..|rows| - 1];
      LastSaysOf(front, f, mentions, bit);
      assert Map(rows, f)[..|rows| - 1] == Map(front, f);
    }
  }

  // ---- The topmost row of a sorted list ----

  predicate IsTop<T(!new)>(rows: seq<T>, key: T -> int, p: T -> bool, i: nat) {
    && i < |rows| && p(rows[i])
    && forall j :: 0 <= j < |rows| && j != i && p(rows[j]) ==>
         key(rows[j]) < key(rows[i]) || (key(rows[j]) == key(rows[i]) && j < i)
  }

  lemma LastOfInsert<T(!new)>(s: seq<T>, key: T -> int, x: T, p: T -> bool)
    requires SortedBy(s, key)
    ensures LastOf(InsertLast(s, key, x), p)
            == if p(x) && (LastOf(s, p).None? || key(LastOf(s, p).value) <= key(x)) then Some(x) else LastOf(s, p)
  {
    FilterOfInsert(s, key, x, p);
  }

  /** The topmost row among the rows so far, if any passes. */
  ghost predicate TopSoFar<T(!new)>(rows: seq<T>, key: T -> int, p: T -> bool, top: Option<T>, i: nat) {
    if top.None? then forall x :: x in rows ==> !p(x)
    else IsTop(rows, key, p, i) && rows[i] == top.value
  }

  lemma TopOneMore<T(!new)>(front: seq<T>, x: T, key: T -> int, p: T -> bool, top: Option<T>, i: nat)
    requires TopSoFar(front, key, p, top, i)
    ensures
      var next := p(x) && (top.None? || key(top.value) <= key(x));
      TopSoFar(front + [x], key, p, if next then Some(x) else top, if next then |front| else i)
  {
    var rows := front + [x];
    assert forall j :: 0 <= j < |front| ==> rows[j] == front[j] && rows[j] in front;
    assert forall y :: y in rows <==> y in front || y == x;
  }

  /** Sorted, the last of the rows that pass is the topmost of them, the later of two that tie. */
  lemma {:induction false} LastOfSort<T(!new)>(rows: seq<T>, key: T -> int, p: T -> bool) returns (i: nat)
    ensures TopSoFar(rows, key, p, LastOf(StableSort(rows, key), p), i)
  {
    i := 0;
    if rows != [] {
      hide LastOf, TopSoFar, InsertLast, SortedBy;
      var front, x := rows[..|rows| - 1], rows[|rows| - 1];
      assert rows == front + [x];
      var k := LastOfSort(front, key, p);
      StableSortIsStable(front, key);
      LastOfInsert(StableSort(front, key), key, x, p);
      var before := LastOf(StableSort(front, key), p);
      TopOneMore(front, x, key, p, before, k);
      i := if p(x) && (before.None? || key(before.value) <= key(x)) then |front| else k;
    }
  }

  lemma TopIsUnique<T(!new)>(rows: seq<T>, key: T -> int, p: T -> bool, i: nat, j: nat)
    requires IsTop(rows, key, p, i) && IsTop(rows, key, p, j)
    ensures i == j
  {
  }

  lemma {:induction false} FilterTwice<T(!new)>(s: seq<T>, f: T -> bool, g: T -> bool, both: T -> bool)
    requires forall x :: both(x) <==> f(x) && g(x)
    ensures Filter(Filter(s, f), g) == Filter(s, both)
  {
    if s != [] {
      var front, last := s[..|s| - 1], s[|s| - 1];
      FilterTwice(front, f, g, both);
      FilterSnoc(Filter(front, f), last, g);
    }
  }

  // ---- Layer by layer ----

  function MentioningRole(m: Subject, bit: nat): Role -> bool {
    (r: Role) => RoleApplies(m, r) && RoleMentions(r, bit)
  }

  lemma RolesMention(r: Role, bit: nat)
    ensures Mentions(r.ToEntry(), bit) <==> RoleMentions(r, bit)
    ensures bit in r.ToEntry().allow <==> RoleAllows(r, bit)
  {
  }

  lemma RolesInOrder(m: Subject, roles: seq<Role>, bit: nat)
    ensures LastOf(Filter(LiveRoles(roles), Holds(m)), (r: Role) => RoleMentions(r, bit))
            == LastOf(StableSort(roles, ByPosition()), MentioningRole(m, bit))
  {
    var sorted := StableSort(roles, ByPosition());
    var mentions := (r: Role) => RoleMentions(r, bit);
    var heldMentions := (r: Role) => Holds(m)(r) && mentions(r);
    FilterOfSort(roles, ByPosition(), IsLive());
    FilterTwice(LiveRoles(roles), Holds(m), mentions, heldMentions);
    FilterTwice(sorted, IsLive(), heldMentions, MentioningRole(m, bit));
  }

  /** Layer 1: the highest live role that is held or default and mentions the bit decides. */
  lemma RoleLayerSays(m: Subject, roles: seq<Role>, bit: nat)
    ensures LastSays(RoleEntries(m, LiveRoles(roles)), bit).GetOr(false) <==> RolesAllow(m, roles, bit)
  {
    hide LastOf, Filter, StableSort, LiveRoles, RoleMentions, RoleAllows, RoleApplies, Role.ToEntry;
    forall r: Role ensures Mentions(r.ToEntry(), bit) <==> RoleMentions(r, bit) {
      RolesMention(r, bit);
    }
    LastSaysOf(Filter(LiveRoles(roles), Holds(m)), (r: Role) => r.ToEntry(), (r: Role) => RoleMentions(r, bit), bit);
    RolesInOrder(m, roles, bit);
    var i := LastOfSort(roles, ByPosition(), MentioningRole(m, bit));
    if LastOf(StableSort(roles, ByPosition()), MentioningRole(m, bit)).Some? {
      RolesMention(roles[i], bit);
      DecidingRole(m, roles, bit, i);
    } else {
      forall k: nat ensures !RoleDecides(m, roles, bit, k) {
        assert k < |roles| ==> !MentioningRole(m, bit)(roles[k]);
      }
    }
  }

  lemma DecidingRole(m: Subject, roles: seq<Role>, bit: nat, i: nat)
    requires IsTop(roles, ByPosition(), MentioningRole(m, bit), i)
    ensures RolesAllow(m, roles, bit) <==> RoleAllows(roles[i], bit)
  {
    assert RoleDecides(m, roles, bit, i);
    forall k: nat | RoleDecides(m, roles, bit, k) ensures k == i {
      assert IsTop(roles, ByPosition(), MentioningRole(m, bit), k);
    }
  }

  lemma LiveRolesAre(roles: seq<Role>)
    ensures forall r :: r in LiveRoles(roles) <==> r in roles && !r.deleted
    ensures SortedBy(LiveRoles(roles), ByPosition())
  {
    StableSortIsStable(Filter(roles, IsLive()), ByPosition());
  }

  lemma {:induction false} PositionOfSorted(live: seq<Role>, id: string)
    requires SortedBy(live, ByPosition())
    ensures (exists r :: r in live && Encode(r.id) == id) ==>
              && (exists r :: r in live && Encode(r.id) == id && r.Position() == PositionOf(live, id))
              && (forall r :: r in live && Encode(r.id) == id ==> r.Position() <= PositionOf(live, id))
    ensures (forall r :: r in live ==> Encode(r.id) != id) ==> PositionOf(live, id) == 0
  {
    hide Encode;
    if live != [] {
      var n := |live| - 1;
      assert live == live[..n] + [live[n]];
      PositionOfSorted(live[..n], id);
      forall r | r in live ensures ByPosition()(r) <= ByPosition()(live[n]) {
        LastIsLargest(live, ByPosition(), r);
      }
    }
  }

  lemma TargetStands(roles: seq<Role>, id: string, p: int)
    ensures StandsAt(roles, id, p) <==> p == PositionOf(LiveRoles(roles), id)
  {
    hide LiveRoles, Encode;
    LiveRolesAre(roles);
    PositionOfSorted(LiveRoles(roles), id);
    if r :| r in roles && !r.deleted && Encode(r.id) == id {
      assert r in LiveRoles(roles);
    }
  }

  lemma RoleRowsAre(m: Subject, roles: seq<Role>, o: Override, kind: string, key: string)
    ensures RoleRow(m, LiveRoles(roles), kind, key)(o) <==> IsRoleRow(m, roles, o, kind, key)
  {
    hide LiveRoles, Encode;
    LiveRolesAre(roles);
    var live := LiveRoles(roles);
    if r :| r in roles && !r.deleted && r.isDefault && Encode(r.id) == o.targetId {
      assert r in live && r.Key() in DefaultIds(live);
    }
    if o.targetId in DefaultIds(live) {
      var r :| r in live && r.isDefault && r.Key() == o.targetId;
      assert r in roles && !r.deleted;
    }
  }

  function MentioningRow(m: Subject, roles: seq<Role>, kind: string, key: string, bit: nat): Override -> bool {
    (o: Override) => IsRoleRow(m, roles, o, kind, key) && RowMentions(o, bit)
  }

  lemma RowsMention(o: Override, bit: nat)
    ensures Mentions(o.ToEntry(), bit) <==> RowMentions(o, bit)
    ensures bit in o.ToEntry().allow <==> RowAllows(o, bit)
  {
  }

  /** Filtering the sorted rows of one scope filters all rows, sorted. */
  lemma LastOfScope<T(!new)>(rows: seq<T>, key: T -> int, scope: T -> bool, mentions: T -> bool, both: T -> bool)
    requires forall x :: both(x) <==> scope(x) && mentions(x)
    ensures LastOf(StableSort(Filter(rows, scope), key), mentions) == LastOf(StableSort(rows, key), both)
  {
    hide Filter, StableSort;
    FilterOfSort(rows, key, scope);
    FilterTwice(StableSort(rows, key), scope, mentions, both);
  }

  lemma RoleRowsInOrder(m: Subject, roles: seq<Role>, rows: seq<Override>, kind: string, key: string, bit: nat)
    ensures LastOf(RoleLayer(m, LiveRoles(roles), rows, kind, key), (o: Override) => RowMentions(o, bit))
            == LastOf(StableSort(rows, ByTarget(LiveRoles(roles))), MentioningRow(m, roles, kind, key, bit))
  {
    hide RowMentions, LiveRoles, LastOf, StableSort, Filter, IsRoleRow;
    var live := LiveRoles(roles);
    var scope := RoleRow(m, live, kind, key);
    forall o: Override ensures scope(o) <==> IsRoleRow(m, roles, o, kind, key) {
      RoleRowsAre(m, roles, o, kind, key);
    }
    LastOfScope(rows, ByTarget(live), scope, (o: Override) => RowMentions(o, bit), MentioningRow(m, roles, kind, key, bit));
  }

  lemma BelowIsByTarget(roles: seq<Role>, rows: seq<Override>, j: nat, i: nat)
    requires i < |rows| && j < |rows|
    ensures
      var key := ByTarget(LiveRoles(roles));
      StandsBelow(roles, rows, j, i) <==> key(rows[j]) < key(rows[i]) || (key(rows[j]) == key(rows[i]) && j < i)
  {
    hide StandsAt;
    var p, q := PositionOf(LiveRoles(roles), rows[j].targetId), PositionOf(LiveRoles(roles), rows[i].targetId);
    TargetStands(roles, rows[j].targetId, p);
    TargetStands(roles, rows[i].targetId, q);
    if a, b :| StandsAt(roles, rows[j].targetId, a) && StandsAt(roles, rows[i].targetId, b) && (a < b || (a == b && j < i)) {
      TargetStands(roles, rows[j].targetId, a);
      TargetStands(roles, rows[i].targetId, b);
    }
  }

  lemma TopRowDecides(m: Subject, roles: seq<Role>, rows: seq<Override>, kind: string, key: string, bit: nat, i: nat)
    ensures IsTop(rows, ByTarget(LiveRoles(roles)), MentioningRow(m, roles, kind, key, bit), i)
            <==> RoleRowDecides(m, roles, rows, kind, key, bit, i)
  {
    hide IsRoleRow, RowMentions, StandsBelow, LiveRoles;
    if i < |rows| {
      forall j: nat | j < |rows|
        ensures StandsBelow(roles, rows, j, i)
                <==> ByTarget(LiveRoles(roles))(rows[j]) < ByTarget(LiveRoles(roles))(rows[i])
                     || (ByTarget(LiveRoles(roles))(rows[j]) == ByTarget(LiveRoles(roles))(rows[i]) && j < i)
      {
        BelowIsByTarget(roles, rows, j, i);
      }
    }
  }

  /** Layers 3 and 4: of the reaching role rows that mention the bit, the one whose target stands highest decides. */
  lemma RoleRowsSay(m: Subject, roles: seq<Role>, rows: seq<Override>, kind: string, key: string, bit: nat)
    ensures
      var says := LastSays(ToEntries(RoleLayer(m, LiveRoles(roles), rows, kind, key)), bit);
      && (says.Some? <==> RoleRowsMention(m, roles, rows, kind, key, bit))
      && (says.GetOr(false) <==> RoleRowsAllow(m, roles, rows, kind, key, bit))
  {
    hide LastOf, StableSort, LiveRoles, RowMentions, RowAllows, IsRoleRow, RoleRowDecides, IsTop, Override.ToEntry, RoleLayer;
    var layer := RoleLayer(m, LiveRoles(roles), rows, kind, key);
    forall o: Override ensures Mentions(o.ToEntry(), bit) <==> RowMentions(o, bit) {
      RowsMention(o, bit);
    }
    LastSaysOf(layer, (o: Override) => o.ToEntry(), (o: Override) => RowMentions(o, bit), bit);
    RoleRowsInOrder(m, roles, rows, kind, key, bit);
    var i := LastOfSort(rows, ByTarget(LiveRoles(roles)), MentioningRow(m, roles, kind, key, bit));
    forall k: nat
      ensures IsTop(rows, ByTarget(LiveRoles(roles)), MentioningRow(m, roles, kind, key, bit), k)
              <==> RoleRowDecides(m, roles, rows, kind, key, bit, k)
    {
      TopRowDecides(m, roles, rows, kind, key, bit, k);
    }
    if LastOf(StableSort(rows, ByTarget(LiveRoles(roles))), MentioningRow(m, roles, kind, key, bit)).Some? {
      TopIsThere(rows, ByTarget(LiveRoles(roles)), MentioningRow(m, roles, kind, key, bit), i);
      RowsMention(rows[i], bit);
      forall k: nat | RoleRowDecides(m, roles, rows, kind, key, bit, k) ensures k == i {
        TopIsUnique(rows, ByTarget(LiveRoles(roles)), MentioningRow(m, roles, kind, key, bit), i, k);
      }
    } else {
      forall k: nat ensures !RoleRowDecides(m, roles, rows, kind, key, bit, k) {
        TopPasses(rows, ByTarget(LiveRoles(roles)), MentioningRow(m, roles, kind, key, bit), k);
      }
    }
  }

  lemma TopIsThere<T(!new)>(rows: seq<T>, key: T -> int, p: T -> bool, i: nat)
    requires IsTop(rows, key, p, i)
    ensures i < |rows| && p(rows[i])
  {
  }

  lemma TopPasses<T(!new)>(rows: seq<T>, key: T -> int, p: T -> bool, i: nat)
    requires forall x :: x in rows ==> !p(x)
    ensures !IsTop(rows, key, p, i)
  {
  }

  lemma {:induction false} FirstOfFilter<T(!new)>(rows: seq<T>, p: T -> bool) returns (i: nat)
    ensures Filter(rows, p) != [] ==> i < |rows| && p(rows[i]) && Filter(rows, p)[0] == rows[i] && forall j :: 0 <= j < i ==> !p(rows[j])
  {
    i := 0;
    if rows != [] {
      var n := |rows| - 1;
      i := FirstOfFilter(rows[..n], p);
      if Filter(rows[..n], p) == [] {
        i := n;
        assert forall j :: 0 <= j < n ==> rows[j] == rows[..n][j] && rows[..n][j] in rows[..n];
      }
    }
  }

  /** Layers 2, 5 and 6: the first row that addresses the user in the scope decides, if it mentions the bit. */
  lemma UserRowSays(m: Subject, rows: seq<Override>, kind: string, key: Option<string>, bit: nat)
    ensures
      var says := LastSays(ToEntries(UserLayer(m, rows, kind, key)), bit);
      && (says.Some? <==> UserRowMentions(m, rows, kind, key, bit))
      && (says.GetOr(false) <==> UserRowAllows(m, rows, kind, key, bit))
  {
    hide RowMentions, RowAllows, Override.ToEntry, Filter;
    var p := UserRow(m, kind, key);
    forall o: Override ensures p(o) <==> IsUserRow(m, o, kind, key) {
    }
    hide IsUserRow;
    if Filter(rows, p) == [] {
      forall i: nat ensures !IsFirstUserRow(m, rows, kind, key, i) {
        assert i < |rows| ==> rows[i] in rows && rows[i] !in Filter(rows, p);
      }
      assert UserLayer(m, rows, kind, key) == [];
    } else {
      var i := FirstOfFilter(rows, p);
      assert IsFirstUserRow(m, rows, kind, key, i);
      forall k: nat | IsFirstUserRow(m, rows, kind, key, k) ensures k == i {
      }
      RowsMention(rows[i], bit);
      assert UserLayer(m, rows, kind, key) == [rows[i]];
      OneRowSays(rows[i], bit);
    }
  }

  lemma OneRowSays(o: Override, bit: nat)
    ensures LastSays(ToEntries([o]), bit) == if Mentions(o.ToEntry(), bit) then Some(bit in o.ToEntry().allow) else None
  {
    assert ToEntries([o])[..0] == [];
    assert ToEntries([o])[0] == o.ToEntry();
  }

  // ---- The whole order of precedence ----

  /** ADMINISTRATOR by roles alone, in terms of the rows. */
  lemma RolesGrantAdministratorByColumns(m: Subject, roles: seq<Role>)
    ensures HasPermission(Replay({}, RoleEntries(m, LiveRoles(roles))), ADMINISTRATOR) <==> RolesAllow(m, roles, ADMINISTRATOR)
  {
    RoleLayerSays(m, roles, ADMINISTRATOR);
    ReplaySays({}, RoleEntries(m, LiveRoles(roles)), ADMINISTRATOR);
  }

  /** The rows behind layer 1 come last; where they say nothing, layer 1 decides. */
  lemma CascadeSays(m: Subject, roles: seq<Role>, rows: seq<Override>, bit: nat)
    ensures bit in Replay({}, Cascade(m, LiveRoles(roles), rows)) <==>
              var says := LastSays(ToEntries(rows), bit);
              if RolesAllow(m, roles, ADMINISTRATOR) || says.None? then RolesAllow(m, roles, bit) else says.value
  {
    hide LiveRoles, RoleEntries, RolesAllow, LastSays;
    RolesGrantAdministratorByColumns(m, roles);
    RoleLayerSays(m, roles, bit);
    ReplaySays({}, Cascade(m, LiveRoles(roles), rows), bit);
    LastSaysConcat(RoleEntries(m, LiveRoles(roles)), ToEntries(rows), bit);
  }

  lemma TwoLayersSay(a: seq<Override>, b: seq<Override>, bit: nat)
    ensures LastSays(ToEntries(a + b), bit)
            == if LastSays(ToEntries(b), bit).Some? then LastSays(ToEntries(b), bit) else LastSays(ToEntries(a), bit)
  {
    EntriesConcat(a, b);
    LastSaysConcat(ToEntries(a), ToEntries(b), bit);
  }

  /** A server bit: the user's server row, then the roles. */
  lemma ServerPrecedence(m: Subject, roles: seq<Role>, rows: seq<Override>, bit: nat)
    ensures bit in PlainServer(m, roles, rows) <==>
              if RolesAllow(m, roles, ADMINISTRATOR) then RolesAllow(m, roles, bit)
              else if UserRowMentions(m, rows, "server", None, bit) then UserRowAllows(m, rows, "server", None, bit)
              else RolesAllow(m, roles, bit)
  {
    hide LiveRoles, UserLayer, RolesAllow, UserRowMentions, UserRowAllows, LastSays;
    CascadeSays(m, roles, UserLayer(m, rows, "server", None), bit);
    UserRowSays(m, rows, "server", None, bit);
  }

  /** A category bit: the user's row there, the highest role row there, and then as for the server. */
  lemma CategoryPrecedence(m: Subject, roles: seq<Role>, rows: seq<Override>, category: string, bit: nat)
    ensures bit in PlainCategory(m, roles, rows, category) <==>
              if RolesAllow(m, roles, ADMINISTRATOR) then RolesAllow(m, roles, bit)
              else if UserRowMentions(m, rows, "category", Some(category), bit) then UserRowAllows(m, rows, "category", Some(category), bit)
              else if RoleRowsMention(m, roles, rows, "category", category, bit) then RoleRowsAllow(m, roles, rows, "category", category, bit)
              else if UserRowMentions(m, rows, "server", None, bit) then UserRowAllows(m, rows, "server", None, bit)
              else RolesAllow(m, roles, bit)
  {
    hide LiveRoles, UserLayer, RoleLayer, RolesAllow, UserRowMentions, UserRowAllows, RoleRowsMention, RoleRowsAllow, LastSays;
    var live := LiveRoles(roles);
    var layer2, layer3, layer5 := UserLayer(m, rows, "server", None), RoleLayer(m, live, rows, "category", category), UserLayer(m, rows, "category", Some(category));
    CascadeSays(m, roles, layer2 + (layer3 + layer5), bit);
    TwoLayersSay(layer2, layer3 + layer5, bit);
    TwoLayersSay(layer3, layer5, bit);
    UserRowSays(m, rows, "server", None, bit);
    RoleRowsSay(m, roles, rows, "category", category, bit);
    UserRowSays(m, rows, "category", Some(category), bit);
  }

  /**
   * A channel bit: the user's row on the channel; the user's row on its category; the
   * highest role row on the channel; the highest role row on the category; the user's
   * server row; the highest role. The first of these that mentions the bit decides it,
   * unless roles alone grant ADMINISTRATOR: then only roles count.
   */
  lemma ChannelPrecedence(m: Subject, roles: seq<Role>, rows: seq<Override>, channel: string, category: Option<string>, bit: nat)
    ensures
      var inCategory := category.Some? && category.value != "";
      bit in PlainChannel(m, roles, rows, channel, category) <==>
        if RolesAllow(m, roles, ADMINISTRATOR) then RolesAllow(m, roles, bit)
        else if UserRowMentions(m, rows, "channel", Some(channel), bit) then UserRowAllows(m, rows, "channel", Some(channel), bit)
        else if inCategory && UserRowMentions(m, rows, "category", category, bit) then UserRowAllows(m, rows, "category", category, bit)
        else if RoleRowsMention(m, roles, rows, "channel", channel, bit) then RoleRowsAllow(m, roles, rows, "channel", channel, bit)
        else if inCategory && RoleRowsMention(m, roles, rows, "category", category.value, bit) then RoleRowsAllow(m, roles, rows, "category", category.value, bit)
        else if UserRowMentions(m, rows, "server", None, bit) then UserRowAllows(m, rows, "server", None, bit)
        else RolesAllow(m, roles, bit)
  {
    hide LiveRoles, UserLayer, RoleLayer, RolesAllow, UserRowMentions, UserRowAllows, RoleRowsMention, RoleRowsAllow, LastSays;
    var live := LiveRoles(roles);
    var layer2 := UserLayer(m, rows, "server", None);
    var layer3 := if InCategory(category) then RoleLayer(m, live, rows, "category", category.value) else [];
    var layer4 := RoleLayer(m, live, rows, "channel", channel);
    var layer5 := if InCategory(category) then UserLayer(m, rows, "category", category) else [];
    var layer6 := UserLayer(m, rows, "channel", Some(channel));
    CascadeSays(m, roles, layer2 + (layer3 + layer4 + layer5 + layer6), bit);
    TwoLayersSay(layer2, layer3 + layer4 + layer5 + layer6, bit);
    TwoLayersSay(layer3 + layer4 + layer5, layer6, bit);
    TwoLayersSay(layer3 + layer4, layer5, bit);
    TwoLayersSay(layer3, layer4, bit);
    NothingSaid(bit);
    UserRowSays(m, rows, "server", None, bit);
    RoleRowsSay(m, roles, rows, "channel", channel, bit);
    UserRowSays(m, rows, "channel", Some(channel), bit);
    if InCategory(category) {
      RoleRowsSay(m, roles, rows, "category", category.value, bit);
      UserRowSays(m, rows, "category", category, bit);
    }
  }

  lemma NothingSaid(bit: nat)
    ensures LastSays(ToEntries([]), bit) == None
  {
  }
}
