/**
 * The permission cascade as a plain scan of all rows, layer by layer. This is the
 * reference that the bucketed fold is measured against.
 */
module PermissionCascade {
  import opened Wrappers
  import opened Sequences
  import opened RecordIds
  import opened Permissions

  /** The `server_role` columns the cascade reads; an absent mask column is `None`. */
  datatype Role = Role(id: RecordId, position: Option<int>, isDefault: bool, deleted: bool,
                       legacy: Option<Mask>, allow: Option<Mask>, deny: Option<Mask>)
  {
    function Key(): string { Encode(id) }

    function Position(): int { position.GetOr(0) }

    /** The legacy mask is read only when `permissions_allow` is absent. */
    function ToEntry(): Entry {
      Entry(allow.GetOr(legacy.GetOr({})), deny.GetOr({}))
    }
  }

  /** The `permission_override` columns the cascade reads. */
  datatype Override = Override(scopeType: string, scopeId: Option<RecordId>,
                               targetType: string, targetId: string,
                               allow: Option<Mask>, deny: Option<Mask>)
  {
    function ScopeKey(): Option<string> {
      if scopeId.Some? then Some(Encode(scopeId.value)) else None
    }

    function ToEntry(): Entry {
      Entry(allow.GetOr({}), deny.GetOr({}))
    }
  }

  /** The member under evaluation: DID and encoded ids of the roles held. */
  datatype Subject = Subject(userId: string, held: set<string>)

  function IsLive(): Role -> bool {
    (r: Role) => !r.deleted
  }

  function ByPosition(): Role -> int {
    (r: Role) => r.Position()
  }

  /** Roles that are not soft-deleted, lowest position first. */
  function LiveRoles(roles: seq<Role>): seq<Role> {
    StableSort(Filter(roles, IsLive()), ByPosition())
  }

  function Holds(m: Subject): Role -> bool {
    (r: Role) => r.isDefault || r.Key() in m.held
  }

  function DefaultIds(live: seq<Role>): set<string> {
    set r | r in live && r.isDefault :: r.Key()
  }

  /** Position of the last role in the list under that id; 0 when there is none. */
  function PositionOf(live: seq<Role>, id: string): int {
    if live == [] then 0
    else if live[|live| - 1].Key() == id then live[|live| - 1].Position()
    else PositionOf(live[..|live| - 1], id)
  }

  function ByTarget(live: seq<Role>): Override -> int {
    (o: Override) => PositionOf(live, o.targetId)
  }

  /** A role override counts when the member holds the role or it is a default one. */
  predicate Reaches(m: Subject, live: seq<Role>, o: Override) {
    o.targetType == "role" && (o.targetId in m.held || o.targetId in DefaultIds(live))
  }

  function RoleRow(m: Subject, live: seq<Role>, kind: string, key: string): Override -> bool {
    (o: Override) => Reaches(m, live, o) && o.scopeType == kind && o.ScopeKey() == Some(key)
  }

  function UserRow(m: Subject, kind: string, key: Option<string>): Override -> bool {
    (o: Override) => o.targetType == "user" && o.targetId == m.userId
                     && o.scopeType == kind && o.ScopeKey() == key
  }

  /** Role overrides of one scope, ascending role position, ties in row order. */
  function RoleLayer(m: Subject, live: seq<Role>, overrides: seq<Override>, kind: string, key: string): seq<Override> {
    StableSort(Filter(overrides, RoleRow(m, live, kind, key)), ByTarget(live))
  }

  function First<T>(s: seq<T>): seq<T> {
    if s == [] then [] else [s[0]]
  }

  /** The first row that addresses the user in one scope, if any. */
  function UserLayer(m: Subject, overrides: seq<Override>, kind: string, key: Option<string>): seq<Override> {
    First(Filter(overrides, UserRow(m, kind, key)))
  }

  function ToEntries(rows: seq<Override>): seq<Entry> {
    Map(rows, (o: Override) => o.ToEntry())
  }

  function RoleEntries(m: Subject, live: seq<Role>): seq<Entry> {
    Map(Filter(live, Holds(m)), (r: Role) => r.ToEntry())
  }

  /** An absent or empty category id means that no category is in scope. */
  predicate InCategory(category: Option<string>) {
    category.Some? && category.value != ""
  }

  /** Layers 3 to 6 for one channel. */
  function ChannelRows(m: Subject, live: seq<Role>, overrides: seq<Override>, channel: string, category: Option<string>): seq<Override> {
    (if InCategory(category) then RoleLayer(m, live, overrides, "category", category.value) else [])
    + RoleLayer(m, live, overrides, "channel", channel)
    + (if InCategory(category) then UserLayer(m, overrides, "category", category) else [])
    + UserLayer(m, overrides, "channel", Some(channel))
  }

  /** Layers 3 and 5 for one category. */
  function CategoryRows(m: Subject, live: seq<Role>, overrides: seq<Override>, category: string): seq<Override> {
    RoleLayer(m, live, overrides, "category", category)
    + UserLayer(m, overrides, "category", Some(category))
  }

  /** Layer 1, and behind it the rows of higher layers unless layer 1 is ADMINISTRATOR. */
  function Cascade(m: Subject, live: seq<Role>, rows: seq<Override>): seq<Entry> {
    var base := RoleEntries(m, live);
    if HasPermission(Replay({}, base), ADMINISTRATOR) then base else base + ToEntries(rows)
  }

  function ServerEntries(m: Subject, roles: seq<Role>, overrides: seq<Override>): seq<Entry> {
    Cascade(m, LiveRoles(roles), UserLayer(m, overrides, "server", None))
  }

  function ChannelEntries(m: Subject, roles: seq<Role>, overrides: seq<Override>, channel: string, category: Option<string>): seq<Entry> {
    Cascade(m, LiveRoles(roles),
      UserLayer(m, overrides, "server", None) + ChannelRows(m, LiveRoles(roles), overrides, channel, category))
  }

  function CategoryEntries(m: Subject, roles: seq<Role>, overrides: seq<Override>, category: string): seq<Entry> {
    Cascade(m, LiveRoles(roles),
      UserLayer(m, overrides, "server", None) + CategoryRows(m, LiveRoles(roles), overrides, category))
  }

  /** The plain answers: every applicable entry, lowest layer first, replayed from nothing. */
  function PlainServer(m: Subject, roles: seq<Role>, overrides: seq<Override>): Mask {
    Replay({}, ServerEntries(m, roles, overrides))
  }

  function PlainChannel(m: Subject, roles: seq<Role>, overrides: seq<Override>, channel: string, category: Option<string>): Mask {
    Replay({}, ChannelEntries(m, roles, overrides, channel, category))
  }

  function PlainCategory(m: Subject, roles: seq<Role>, overrides: seq<Override>, category: string): Mask {
    Replay({}, CategoryEntries(m, roles, overrides, category))
  }

  lemma EntriesConcat(a: seq<Override>, b: seq<Override>)
    ensures ToEntries(a + b) == ToEntries(a) + ToEntries(b)
  {
  }

  /**
   * Per-bit last writer over the whole cascade: a channel grants a bit exactly when
   * the last role or override that mentions the bit allows it.
   */
  lemma ChannelBitIsLastWord(m: Subject, roles: seq<Role>, overrides: seq<Override>, channel: string, category: Option<string>, bit: nat)
    ensures bit in PlainChannel(m, roles, overrides, channel, category) <==>
            exists i: nat :: LastWord(ChannelEntries(m, roles, overrides, channel, category), bit, i)
                             && bit in ChannelEntries(m, roles, overrides, channel, category)[i].allow
  {
    LastWriterWins({}, ChannelEntries(m, roles, overrides, channel, category), bit);
  }

  /** ADMINISTRATOR granted by roles alone silences every override. */
  lemma AdministratorSilencesOverrides(m: Subject, roles: seq<Role>, o1: seq<Override>, o2: seq<Override>, channel: string, category: Option<string>)
    requires ADMINISTRATOR in Replay({}, RoleEntries(m, LiveRoles(roles)))
    ensures PlainChannel(m, roles, o1, channel, category) == PlainServer(m, roles, o2)
    ensures forall flag :: HasPermission(PlainChannel(m, roles, o1, channel, category), flag)
  {
  }

  /** With no role or user override scoped to the channel, it answers as its category. */
  lemma UnscopedChannelAnswersAsCategory(m: Subject, roles: seq<Role>, overrides: seq<Override>, channel: string, category: string)
    requires category != ""
    requires forall o :: o in overrides ==> !(o.scopeType == "channel" && o.ScopeKey() == Some(channel))
    ensures PlainChannel(m, roles, overrides, channel, Some(category)) == PlainCategory(m, roles, overrides, category)
  {
    var live := LiveRoles(roles);
    FilterNothing(overrides, RoleRow(m, live, "channel", channel));
    FilterNothing(overrides, UserRow(m, "channel", Some(channel)));
    assert ChannelRows(m, live, overrides, channel, Some(category)) == CategoryRows(m, live, overrides, category);
  }
}
