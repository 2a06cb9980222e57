/** Batch authorisation of the channel topics of one SUBSCRIBE frame. */
module MemberAccess {
  import opened Wrappers
  import opened Sequences
  import opened RecordIds
  import opened Permissions
  import opened PermissionCascade
  import opened PermissionFold
  import opened ChannelTopics

  /** What the database holds about one server. `owner` is `None` when there is no server row. */
  datatype ServerData = ServerData(banned: set<string>, members: map<string, seq<RecordId>>,
                                   owner: Option<string>, roles: seq<Role>, overrides: seq<Override>)

  /** The tables the authoriser reads; servers are keyed by encoded id. */
  datatype Db = Db(channels: map<RecordId, ChannelRow>,
                   participations: map<string, seq<RecordId>>,
                   servers: map<string, ServerData>)
  {
    /** Every row is stored under its own id. */
    ghost predicate Valid() {
      forall id :: id in channels ==> channels[id].id == id
    }

    function Server(s: string): ServerData {
      if s in servers then servers[s] else ServerData({}, map[], None, [], [])
    }

    function ParticipatesIn(user: string): set<string> {
      if user in participations then set p | p in participations[user] :: Encode(p) else {}
    }
  }

  /** One read that throws. */
  datatype Fault =
    | ChannelRows
    | Participants
    | Bans(server: string)
    | MemberRow(server: string)
    | ServerRow(server: string)
    | RoleRows(server: string)
    | OverrideRows(server: string)

  function SubjectOf(d: ServerData, user: string): Subject {
    Subject(user, if user in d.members then set r | r in d.members[user] :: Encode(r) else {})
  }

  // ---- The pointwise rule ----

  /** Scope of a topic by the database alone: the row stored under exactly this id. */
  function TopicScope(db: Db, id: string): Scope {
    ScopeOf(if ':' in id && Decode(id) in db.channels then Some(db.channels[Decode(id)]) else None)
  }

  predicate MayEnter(d: ServerData, user: string) {
    user !in d.banned && user in d.members
  }

  /** READ_MESSAGES by ownership or by the plain cascade. */
  predicate ReadableInServer(d: ServerData, user: string, channel: string, category: Option<string>) {
    && MayEnter(d, user)
    && (d.owner == Some(user)
        || HasPermission(PlainChannel(SubjectOf(d, user), d.roles, d.overrides, channel, category), READ_MESSAGES))
  }

  /** May `user` read this one topic, all reads succeeding? */
  predicate Readable(db: Db, user: string, id: string) {
    match TopicScope(db, id)
    case Unresolved => false
    case Unscoped => id in db.ParticipatesIn(user)
    case Scoped(server, category) => ReadableInServer(db.Server(server), user, id, category)
  }

  /** Does some read that the fold of this server really performs fail? */
  predicate FoldFails(db: Db, faults: set<Fault>, user: string, server: string) {
    var d := db.Server(server);
    || Bans(server) in faults
    || (user !in d.banned && MemberRow(server) in faults)
    || (MayEnter(d, user) && ServerRow(server) in faults)
    || (MayEnter(d, user) && d.owner != Some(user)
        && (|| RoleRows(server) in faults
            || (OverrideRows(server) in faults && !RolesGrantAdministrator(SubjectOf(d, user), d.roles))))
  }

  predicate ScopeFails(db: Db, faults: set<Fault>, user: string, id: string) {
    match TopicScope(db, id)
    case Unresolved => false
    case Unscoped => Participants in faults
    case Scoped(server, _) => FoldFails(db, faults, user, server)
  }

  /** The answer to a whole frame, pointwise. */
  function ReadableTopics(db: Db, faults: set<Fault>, user: string, ids: seq<string>): set<string> {
    set id | id in ids && Readable(db, user, id) && !ScopeFails(db, faults, user, id)
  }

  // ---- The batch ----

  /** What `SELECT * FROM channel WHERE id IN $ids` may return: the matching rows in any order. */
  ghost predicate FindByIdsAnswer(db: Db, ids: seq<string>, rows: seq<ChannelRow>) {
    && (forall row :: row in rows ==>
          row.id in db.channels && db.channels[row.id] == row && exists id :: id in ids && Decode(id) == row.id)
    && (forall id :: id in ids && Decode(id) in db.channels ==> db.channels[Decode(id)] in rows)
  }

  method FindByIds(db: Db, ids: seq<string>) returns (rows: seq<ChannelRow>)
    requires db.Valid()
    ensures FindByIdsAnswer(db, ids, rows)
  {
    rows := [];
    for i := 0 to |ids|
      invariant FindByIdsAnswer(db, ids[..i], rows)
    {
      assert forall id :: id in ids[..i + 1] <==> id in ids[..i] || id == ids[i];
      if Decode(ids[i]) in db.channels {
        rows := [db.channels[Decode(ids[i])]] + rows;
      }
    }
    assert ids[..|ids|] == ids;
  }

  lemma {:induction false} RowOfIsMember(rows: seq<ChannelRow>, id: string)
    ensures RowOf(rows, id).Some? ==> RowOf(rows, id).value in rows && Encode(RowOf(rows, id).value.id) == id
    ensures RowOf(rows, id).None? ==> forall row :: row in rows ==> Encode(row.id) != id
  {
    if rows != [] {
      var n := |rows| - 1;
      assert rows == rows[..n] + [rows[n]];
      RowOfIsMember(rows[..n], id);
    }
  }

  /** A hit in the returned rows is the row stored under exactly the requested string. */
  lemma BatchScope(db: Db, ids: seq<string>, rows: seq<ChannelRow>, id: string)
    requires db.Valid() && FindByIdsAnswer(db, ids, rows) && id in ids
    ensures Classify(rows, id) == TopicScope(db, id)
  {
    RowOfIsMember(rows, id);
    EncodeDecode(id);
    var hit := RowOf(rows, id);
    if hit.Some? {
      var asked :| asked in ids && Decode(asked) == hit.value.id;
      EncodeDecode(asked);
      DecodeEncode(hit.value.id);
      assert Decode(id) == hit.value.id;
      assert id[|hit.value.id.tb|] == ':';
    }
  }

  method FoldForServer(db: Db, faults: set<Fault>, user: string, server: string) returns (r: Result<Option<Fold>, Fault>)
    ensures r.Err? <==> FoldFails(db, faults, user, server)
    ensures r.Err? ==> r.error in faults
    ensures r.Ok? ==> (r.value.Some? <==> MayEnter(db.Server(server), user))
    ensures r.Ok? && r.value.Some? ==>
              forall channel, category ::
                HasPermission(r.value.value.ChannelPermissions(channel, category), READ_MESSAGES)
                <==> ReadableInServer(db.Server(server), user, channel, category)
  {
    var d := db.Server(server);
    if Bans(server) in faults {
      return Err(Bans(server));
    }
    if user in d.banned {
      return Ok(None);
    }
    if MemberRow(server) in faults {
      return Err(MemberRow(server));
    }
    if user !in d.members {
      return Ok(None);
    }
    if ServerRow(server) in faults {
      return Err(ServerRow(server));
    }
    if d.owner == Some(user) {
      var f := Constant({ADMINISTRATOR});
      forall channel, category
        ensures HasPermission(f.ChannelPermissions(channel, category), READ_MESSAGES)
      {
        UnscopedFoldIsConstant(f, channel, category, "");
      }
      return Ok(Some(f));
    }
    if RoleRows(server) in faults {
      return Err(RoleRows(server));
    }
    var m := SubjectOf(d, user);
    var fold := ResolvePermissionFold(m, d.roles,
      if OverrideRows(server) in faults then Err(OverrideRows(server)) else Ok(d.overrides));
    if fold.Err? {
      return Err(fold.error);
    }
    forall channel, category
      ensures HasPermission(fold.value.ChannelPermissions(channel, category), READ_MESSAGES)
              <==> ReadableInServer(d, user, channel, category)
    {
      if OverrideRows(server) in faults {
        UnscopedFoldIsConstant(fold.value, channel, category, "");
      }
    }
    r := Ok(Some(fold.value));
  }

  /** Conversation topics: one read of the caller's own participations answers them all. */
  method ReadableConversations(db: Db, faults: set<Fault>, user: string, unscoped: seq<string>) returns (allowed: set<string>)
    ensures allowed == set id | id in unscoped && Participants !in faults && id in db.ParticipatesIn(user)
  {
    allowed := {};
    if Participants in faults {
      return;
    }
    var participating := db.ParticipatesIn(user);
    for i := 0 to |unscoped|
      invariant allowed == set id | id in unscoped[..i] && id in participating
    {
      assert unscoped[..i + 1] == unscoped[..i] + [unscoped[i]];
      if unscoped[i] in participating {
        allowed := allowed + {unscoped[i]};
      }
    }
    assert unscoped[..|unscoped|] == unscoped;
  }

  /** The channels of one server that its fold lets the user read. */
  method ReadableByFold(fold: Fold, channels: seq<GroupedChannel>) returns (allowed: set<string>)
    ensures allowed == set c | c in channels && HasPermission(fold.ChannelPermissions(c.id, c.categoryId), READ_MESSAGES) :: c.id
  {
    allowed := {};
    for i := 0 to |channels|
      invariant allowed == set c | c in channels[..i] && HasPermission(fold.ChannelPermissions(c.id, c.categoryId), READ_MESSAGES) :: c.id
    {
      assert channels[..i + 1] == channels[..i] + [channels[i]];
      var perms := fold.ForChannel(channels[i].id, channels[i].categoryId);
      if HasPermission(perms, READ_MESSAGES) {
        allowed := allowed + {channels[i].id};
      }
    }
    assert channels[..|channels|] == channels;
  }

  /** The share of the answer that the scopes outside `pending` contribute. */
  function Answered(db: Db, faults: set<Fault>, user: string, ids: seq<string>, pending: set<string>): set<string> {
    set id | id in ReadableTopics(db, faults, user, ids)
             && !(TopicScope(db, id).Scoped? && TopicScope(db, id).server in pending)
  }

  lemma GroupedChannels(db: Db, ids: seq<string>, rows: seq<ChannelRow>, g: Grouping, server: string)
    requires db.Valid() && FindByIdsAnswer(db, ids, rows) && Groups(g, ids, rows)
    ensures forall c :: c in BucketOf(g.byServer, server) ==>
              c.id in ids && TopicScope(db, c.id) == Scoped(server, c.categoryId)
    ensures forall id :: id in ids && TopicScope(db, id).Scoped? && TopicScope(db, id).server == server ==>
              GroupedChannel(id, TopicScope(db, id).category) in BucketOf(g.byServer, server)
  {
    var members := Filter(Distinct(ids), InServer(rows, server));
    assert BucketOf(g.byServer, server) == Map(members, ToGrouped(rows));
    forall c | c in BucketOf(g.byServer, server)
      ensures c.id in ids && TopicScope(db, c.id) == Scoped(server, c.categoryId)
    {
      var i :| 0 <= i < |members| && c == ToGrouped(rows)(members[i]);
      assert members[i] in members;
      BatchScope(db, ids, rows, members[i]);
    }
    forall id | id in ids && TopicScope(db, id).Scoped? && TopicScope(db, id).server == server
      ensures GroupedChannel(id, TopicScope(db, id).category) in BucketOf(g.byServer, server)
    {
      BatchScope(db, ids, rows, id);
      assert id in members;
      var i :| 0 <= i < |members| && members[i] == id;
      assert Map(members, ToGrouped(rows))[i] == GroupedChannel(id, TopicScope(db, id).category);
    }
  }

  lemma UnscopedIds(db: Db, ids: seq<string>, rows: seq<ChannelRow>, g: Grouping)
    requires db.Valid() && FindByIdsAnswer(db, ids, rows) && Groups(g, ids, rows)
    ensures forall id :: id in g.unscoped <==> id in ids && TopicScope(db, id) == Unscoped
  {
    forall id ensures id in g.unscoped <==> id in ids && TopicScope(db, id) == Unscoped {
      if id in ids {
        BatchScope(db, ids, rows, id);
      }
    }
  }

  /** Adding one server's readable channels completes that server's share. */
  lemma ServerShare(db: Db, faults: set<Fault>, user: string, ids: seq<string>, pending: set<string>, server: string,
                    channels: seq<GroupedChannel>, added: set<string>)
    requires server in pending
    requires forall c :: c in channels ==> c.id in ids && TopicScope(db, c.id) == Scoped(server, c.categoryId)
    requires forall id :: id in ids && TopicScope(db, id).Scoped? && TopicScope(db, id).server == server ==>
               GroupedChannel(id, TopicScope(db, id).category) in channels
    requires added == set c | c in channels && !FoldFails(db, faults, user, server)
                              && ReadableInServer(db.Server(server), user, c.id, c.categoryId) :: c.id
    ensures Answered(db, faults, user, ids, pending) + added == Answered(db, faults, user, ids, pending - {server})
  {
    forall id
      ensures id in added <==> id in ReadableTopics(db, faults, user, ids)
                               && TopicScope(db, id).Scoped? && TopicScope(db, id).server == server
    {
      if id in ids && TopicScope(db, id).Scoped? && TopicScope(db, id).server == server {
        assert GroupedChannel(id, TopicScope(db, id).category) in channels;
      }
    }
  }

  /**
   * The subset of `ids` the user may read. Only a failure of the first row read loses
   * the whole frame; any other failure loses exactly its own scope.
   */
  method CanReadChannels(db: Db, faults: set<Fault>, user: string, ids: seq<string>) returns (r: Result<set<string>, Fault>)
    requires db.Valid()
    ensures r.Err? <==> ids != [] && ChannelRows in faults
    ensures r.Ok? ==> r.value == ReadableTopics(db, faults, user, ids)
  {
    if ids == [] {
      return Ok({});
    }
    if ChannelRows in faults {
      return Err(ChannelRows);
    }
    var rows := FindByIds(db, ids);
    var g := GroupChannelTopicsByServer(ids, rows);
    var allowed := {};
    if g.unscoped != [] {
      allowed := ReadableConversations(db, faults, user, g.unscoped);
    }
    UnscopedIds(db, ids, rows, g);
    var pending := g.byServer.Keys;
    NothingScopedYet(db, faults, user, ids, rows, g, allowed);
    while pending != {}
      invariant pending <= g.byServer.Keys
      invariant allowed == Answered(db, faults, user, ids, pending)
      decreases pending
    {
      var server :| server in pending;
      GroupedChannels(db, ids, rows, g, server);
      var fold := FoldForServer(db, faults, user, server);
      var added := {};
      if fold.Ok? && fold.value.Some? {
        added := ReadableByFold(fold.value.value, g.byServer[server]);
      }
      ServerShare(db, faults, user, ids, pending, server, g.byServer[server], added);
      allowed := allowed + added;
      pending := pending - {server};
    }
    r := Ok(allowed);
  }

  lemma UnscopedAnswers(db: Db, faults: set<Fault>, user: string, ids: seq<string>, unscoped: seq<string>)
    requires forall id :: id in unscoped <==> id in ids && TopicScope(db, id) == Unscoped
    ensures forall id :: id in ReadableTopics(db, faults, user, ids) && !TopicScope(db, id).Scoped? <==>
              id in unscoped && Participants !in faults && id in db.ParticipatesIn(user)
  {
    hide TopicScope;
  }

  lemma NothingScopedYet(db: Db, faults: set<Fault>, user: string, ids: seq<string>, rows: seq<ChannelRow>, g: Grouping, allowed: set<string>)
    requires db.Valid() && FindByIdsAnswer(db, ids, rows) && Groups(g, ids, rows)
    requires allowed == set id | id in g.unscoped && Participants !in faults && id in db.ParticipatesIn(user)
    ensures allowed == Answered(db, faults, user, ids, g.byServer.Keys)
  {
    hide Groups, FindByIdsAnswer, TopicScope, Readable;
    UnscopedIds(db, ids, rows, g);
    UnscopedAnswers(db, faults, user, ids, g.unscoped);
    forall id | id in ids && TopicScope(db, id).Scoped?
      ensures TopicScope(db, id).server in g.byServer
    {
      GroupedChannels(db, ids, rows, g, TopicScope(db, id).server);
    }
  }

  // ---- What the batch promises ----

  function FaultServer(f: Fault): Option<string> {
    match f
    case ChannelRows => None
    case Participants => None
    case Bans(s) => Some(s)
    case MemberRow(s) => Some(s)
    case ServerRow(s) => Some(s)
    case RoleRows(s) => Some(s)
    case OverrideRows(s) => Some(s)
  }

  /**
   * With every read succeeding a batch answers each id as it would alone; failed reads
   * take away exactly the scopes they belong to; order, repetition and ids without a
   * live row make no difference; and the faults of one server stay there.
   */
  lemma BatchIsPointwise(db: Db, faults: set<Fault>, user: string, ids: seq<string>, more: seq<string>, id: string)
    ensures id in ReadableTopics(db, {}, user, ids) <==> id in ids && ReadableTopics(db, {}, user, [id]) == {id}
    ensures ReadableTopics(db, faults, user, ids)
            == ReadableTopics(db, {}, user, ids) - (set x | x in ids && ScopeFails(db, faults, user, x))
    ensures (forall x :: x in more ==> x in ids || TopicScope(db, x) == Unresolved) ==>
              ReadableTopics(db, faults, user, ids + more) == ReadableTopics(db, faults, user, more + ids) == ReadableTopics(db, faults, user, ids)
    ensures (forall f :: f in faults ==> FaultServer(f).Some? && !InServerScope(db, id, FaultServer(f).value)) ==>
              (id in ReadableTopics(db, faults, user, ids) <==> id in ReadableTopics(db, {}, user, ids))
  {
    if Readable(db, user, id) {
      assert id in ReadableTopics(db, {}, user, [id]);
    }
    if forall f :: f in faults ==> FaultServer(f).Some? && !InServerScope(db, id, FaultServer(f).value) {
      FaultsStayInTheirServer(db, faults, user, id);
    }
  }

  predicate InServerScope(db: Db, id: string, server: string) {
    TopicScope(db, id).Scoped? && TopicScope(db, id).server == server
  }

  lemma FaultsStayInTheirServer(db: Db, faults: set<Fault>, user: string, id: string)
    requires forall f :: f in faults ==> FaultServer(f).Some? && !InServerScope(db, id, FaultServer(f).value)
    ensures !ScopeFails(db, faults, user, id)
  {
    var scope := TopicScope(db, id);
    if scope.Scoped? {
      var s := scope.server;
      assert FaultServer(Bans(s)) == FaultServer(MemberRow(s)) == FaultServer(ServerRow(s))
             == FaultServer(RoleRows(s)) == FaultServer(OverrideRows(s)) == Some(s);
    } else {
      assert FaultServer(Participants).None?;
    }
  }

  // ---- Topics that are not channels ----

  /** A server topic asks for membership; a topic that resolves to no server passes. */
  predicate MaySubscribe(db: Db, faults: set<Fault>, user: string, topic: string) {
    if "server:" <= topic then
      var d := db.Server(topic);
      && ServerRow(topic) !in faults
      && (|| d.owner.None?
          || (Bans(topic) !in faults && user !in d.banned && MemberRow(topic) !in faults && user in d.members))
    else true
  }
}
