/** What a SUBSCRIBE frame is granted, in terms of the stored tables alone. */
module MemberAccessTables {
  import opened Wrappers
  import opened RecordIds
  import opened Permissions
  import opened PermissionCascade
  import opened PermissionFold
  import PermissionPrecedence
  import opened ChannelTopics
  import opened MemberAccess

  /** The member's own row of a server: the DID and the encoded ids of the roles on it. */
  function MemberOf(d: ServerData, user: string): Subject
    requires user in d.members
  {
    Subject(user, set r | r in d.members[user] :: Encode(r))
  }

  /** READ_MESSAGES on a channel row, by the server's tables. */
  predicate ServerGrants(db: Db, user: string, row: ChannelRow, id: string)
    requires row.serverId.Some?
  {
    var server := Encode(row.serverId.value);
    && server in db.servers
    && var d := db.servers[server];
       && user !in d.banned && user in d.members
       && (|| d.owner == Some(user)
           || var category := if row.categoryId.Some? then Some(Encode(row.categoryId.value)) else None;
              var permissions := PlainChannel(MemberOf(d, user), d.roles, d.overrides, id, category);
              READ_MESSAGES in permissions || ADMINISTRATOR in permissions)
  }

  /**
   * With every read succeeding, a topic is granted exactly when it is requested, its
   * row is there under that very id and not in the trash, and either it is a
   * conversation that the user takes part in, or the tables of its server let this user in.
   */
  lemma GrantedByTheTables(db: Db, user: string, ids: seq<string>, id: string)
    ensures id in ReadableTopics(db, {}, user, ids) <==>
              && id in ids && ':' in id && Decode(id) in db.channels
              && var row := db.channels[Decode(id)];
                 && row.deleted != Some(true)
                 && if row.serverId.None?
                    then user in db.participations && exists p :: p in db.participations[user] && Encode(p) == id
                    else ServerGrants(db, user, row, id)
  {
    hide PlainChannel, Decode, Encode;
    assert forall d: ServerData :: user in d.members ==> SubjectOf(d, user) == MemberOf(d, user);
  }

  /** A read that fails takes away the answers that rest on it, and no others. */
  lemma GrantedUnderFaults(db: Db, faults: set<Fault>, user: string, ids: seq<string>, id: string)
    ensures id in ReadableTopics(db, faults, user, ids) <==>
              && id in ReadableTopics(db, {}, user, ids)
              && var row := db.channels[Decode(id)];
                 if row.serverId.None? then Participants !in faults
                 else
                   var server := Encode(row.serverId.value);
                   && Bans(server) !in faults && MemberRow(server) !in faults && ServerRow(server) !in faults
                   && var d := db.servers[server];
                      || d.owner == Some(user)
                      || (RoleRows(server) !in faults
                          && (OverrideRows(server) !in faults || PermissionPrecedence.RolesAllow(MemberOf(d, user), d.roles, ADMINISTRATOR)))
  {
    GrantedByTheTables(db, user, ids, id);
    if id in ReadableTopics(db, {}, user, ids) && db.channels[Decode(id)].serverId.Some? {
      var d := db.servers[Encode(db.channels[Decode(id)].serverId.value)];
      assert SubjectOf(d, user) == MemberOf(d, user);
      PermissionPrecedence.RolesGrantAdministratorByColumns(MemberOf(d, user), d.roles);
    }
    hide PlainChannel, Decode, Encode, RoleEntries, LiveRoles, PermissionPrecedence.RolesAllow;
  }

  /** Two databases that show `user` the same, whatever they hold about others. */
  predicate SameFor(a: Db, b: Db, user: string) {
    && a.channels == b.channels
    && (user in a.participations <==> user in b.participations)
    && (user in a.participations ==> a.participations[user] == b.participations[user])
    && a.servers.Keys == b.servers.Keys
    && forall s :: s in a.servers ==>
         && (user in a.servers[s].banned <==> user in b.servers[s].banned)
         && (user in a.servers[s].members <==> user in b.servers[s].members)
         && (user in a.servers[s].members ==> a.servers[s].members[user] == b.servers[s].members[user])
         && (a.servers[s].owner == Some(user) <==> b.servers[s].owner == Some(user))
         && a.servers[s].roles == b.servers[s].roles && a.servers[s].overrides == b.servers[s].overrides
  }

  /** Other users' participations, memberships, bans and ownerships move no answer, under any faults. */
  lemma OthersDoNotMatter(a: Db, b: Db, faults: set<Fault>, user: string, ids: seq<string>)
    requires SameFor(a, b, user)
    ensures ReadableTopics(a, faults, user, ids) == ReadableTopics(b, faults, user, ids)
  {
    forall id ensures id in ReadableTopics(a, faults, user, ids) <==> id in ReadableTopics(b, faults, user, ids) {
      GrantedUnderFaults(a, faults, user, ids, id);
      GrantedUnderFaults(b, faults, user, ids, id);
      GrantedByTheTables(a, user, ids, id);
      GrantedByTheTables(b, user, ids, id);
      hide PlainChannel, Decode, Encode, PermissionPrecedence.RolesAllow, ReadableTopics;
    }
  }

  /**
   * A server topic whose server exists is for members who are not banned: under any
   * faults it is granted to nobody else, and without faults to all of them.
   */
  lemma ServerTopicsAreForMembers(db: Db, faults: set<Fault>, user: string, topic: string)
    requires "server:" <= topic && topic in db.servers && db.servers[topic].owner.Some?
    ensures MaySubscribe(db, faults, user, topic) ==> user in db.servers[topic].members && user !in db.servers[topic].banned
    ensures MaySubscribe(db, {}, user, topic) <==> user in db.servers[topic].members && user !in db.servers[topic].banned
    ensures MaySubscribe(db, faults, user, topic) ==> {ServerRow(topic), Bans(topic), MemberRow(topic)} !! faults
  {
  }
}
