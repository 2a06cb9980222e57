/** The bucketed fold: one read of a server's rows, replayed per channel. */
module PermissionFold {
  import opened Wrappers
  import opened Sequences
  import opened RecordIds
  import opened Permissions
  import opened PermissionCascade

  type Buckets = map<string, seq<Override>>

  function Bucket(b: Buckets, key: string): seq<Override> {
    if key in b then b[key] else []
  }

  function Single(b: map<string, Override>, key: string): seq<Override> {
    if key in b then [b[key]] else []
  }

  /** A resolved fold. The constant form is the owner's, or that of role-granted ADMINISTRATOR. */
  datatype Fold =
    | Constant(permissions: Mask)
    | Bucketed(base: Mask,
               roleCategory: Buckets, roleChannel: Buckets,
               userCategory: map<string, Override>, userChannel: map<string, Override>)
  {
    function ServerPermissions(): Mask {
      match this
      case Constant(p) => p
      case Bucketed(base, _, _, _, _) => base
    }

    predicate HasChannelScopedOverrides() {
      Bucketed? && (|roleCategory| > 0 || |roleChannel| > 0 || |userCategory| > 0 || |userChannel| > 0)
    }

    /** The rows that `ForChannel` replays, in replay order. */
    function RowsForChannel(channel: string, category: Option<string>): seq<Override> {
      match this
      case Constant(_) => []
      case Bucketed(_, rcat, rch, ucat, uch) =>
        (if InCategory(category) then Bucket(rcat, category.value) else [])
        + Bucket(rch, channel)
        + (if InCategory(category) then Single(ucat, category.value) else [])
        + Single(uch, channel)
    }

    function RowsForCategory(category: string): seq<Override> {
      match this
      case Constant(_) => []
      case Bucketed(_, rcat, _, ucat, _) => Bucket(rcat, category) + Single(ucat, category)
    }

    function ChannelPermissions(channel: string, category: Option<string>): Mask {
      Replay(ServerPermissions(), ToEntries(RowsForChannel(channel, category)))
    }

    function CategoryPermissions(category: string): Mask {
      Replay(ServerPermissions(), ToEntries(RowsForCategory(category)))
    }

    method ForChannel(channel: string, category: Option<string>) returns (perms: Mask)
      ensures perms == ChannelPermissions(channel, category)
    {
      perms := ServerPermissions();
      if Constant? {
        return;
      }
      ghost var start := perms;
      ghost var rows: seq<Override> := [];
      if InCategory(category) {
        perms := ReplayList(perms, Bucket(roleCategory, category.value));
        rows := Bucket(roleCategory, category.value);
      }
      ReplayRows(start, rows, Bucket(roleChannel, channel));
      perms := ReplayList(perms, Bucket(roleChannel, channel));
      rows := rows + Bucket(roleChannel, channel);
      if InCategory(category) {
        ReplaySingle(start, rows, userCategory, category.value);
        if category.value in userCategory {
          perms := Apply(perms, userCategory[category.value].ToEntry());
        }
        rows := rows + Single(userCategory, category.value);
      }
      ReplaySingle(start, rows, userChannel, channel);
      if channel in userChannel {
        perms := Apply(perms, userChannel[channel].ToEntry());
      }
      assert rows + Single(userChannel, channel) == RowsForChannel(channel, category);
    }

    method ForCategory(category: string) returns (perms: Mask)
      ensures perms == CategoryPermissions(category)
    {
      perms := ServerPermissions();
      if Constant? {
        return;
      }
      perms := ReplayList(perms, Bucket(roleCategory, category));
      ReplaySingle(ServerPermissions(), Bucket(roleCategory, category), userCategory, category);
      if category in userCategory {
        perms := Apply(perms, userCategory[category].ToEntry());
      }
    }
  }

  lemma ReplayRows(perms: Mask, a: seq<Override>, b: seq<Override>)
    ensures Replay(perms, ToEntries(a + b)) == Replay(Replay(perms, ToEntries(a)), ToEntries(b))
  {
    EntriesConcat(a, b);
    ReplayConcat(perms, ToEntries(a), ToEntries(b));
  }

  lemma ReplaySingle(perms: Mask, rows: seq<Override>, b: map<string, Override>, key: string)
    ensures Replay(perms, ToEntries(rows + Single(b, key)))
            == if key in b then Apply(Replay(perms, ToEntries(rows)), b[key].ToEntry())
               else Replay(perms, ToEntries(rows))
  {
    ReplayRows(perms, rows, Single(b, key));
    if key in b {
      assert ToEntries(Single(b, key)) == [b[key].ToEntry()];
      var before := Replay(perms, ToEntries(rows));
      assert Replay(before, [b[key].ToEntry()]) == Apply(Replay(before, []), b[key].ToEntry());
    }
  }

  method ReplayList(start: Mask, rows: seq<Override>) returns (perms: Mask)
    ensures perms == Replay(start, ToEntries(rows))
  {
    perms := start;
    for i := 0 to |rows|
      invariant perms == Replay(start, ToEntries(rows[..i]))
    {
      assert ToEntries(rows[..i + 1])[..i] == ToEntries(rows[..i]);
      perms := Apply(perms, rows[i].ToEntry());
    }
    assert rows[..|rows|] == rows;
  }

  /** The fold answers every server, channel and category question as the plain scan does. */
  ghost predicate Refines(f: Fold, m: Subject, roles: seq<Role>, overrides: seq<Override>) {
    && f.ServerPermissions() == PlainServer(m, roles, overrides)
    && (forall channel, category ::
          f.ChannelPermissions(channel, category) == PlainChannel(m, roles, overrides, channel, category))
    && (forall category ::
          f.CategoryPermissions(category) == PlainCategory(m, roles, overrides, category))
  }

  predicate RolesGrantAdministrator(m: Subject, roles: seq<Role>) {
    HasPermission(Replay({}, RoleEntries(m, LiveRoles(roles))), ADMINISTRATOR)
  }

  /** What a bucket map of role overrides holds once `rows` have been scanned. */
  ghost predicate RoleBuckets(b: Buckets, m: Subject, live: seq<Role>, rows: seq<Override>, kind: string) {
    && (forall key :: Bucket(b, key) == Filter(rows, RoleRow(m, live, kind, key)))
    && (forall key :: key in b ==> b[key] != [])
  }

  ghost predicate UserBuckets(b: map<string, Override>, m: Subject, rows: seq<Override>, kind: string) {
    forall key :: Single(b, key) == UserLayer(m, rows, kind, Some(key))
  }

  function Push(b: Buckets, key: string, o: Override): Buckets {
    b[key := Bucket(b, key) + [o]]
  }

  /** The first row of a scope stays; later ones are dropped. */
  function KeepFirst(b: map<string, Override>, key: string, o: Override): map<string, Override> {
    if key in b then b else b[key := o]
  }

  /** A row of the member's own, or of a role that reaches it. */
  predicate Concerns(m: Subject, live: seq<Role>, o: Override) {
    Reaches(m, live, o) || (o.targetType == "user" && o.targetId == m.userId)
  }

  predicate RoleCounts(m: Subject, live: seq<Role>, kind: string, o: Override) {
    Reaches(m, live, o) && o.scopeType == kind && o.ScopeKey().Some?
  }

  predicate UserCounts(m: Subject, kind: string, o: Override) {
    o.targetType == "user" && o.targetId == m.userId && o.scopeType == kind && o.ScopeKey().Some?
  }

  predicate ServerCounts(m: Subject, o: Override) {
    o.targetType == "user" && o.targetId == m.userId && o.scopeType == "server" && o.ScopeKey().None?
  }

  lemma RoleBucketsStep(b: Buckets, m: Subject, live: seq<Role>, rows: seq<Override>, kind: string, o: Override)
    requires RoleBuckets(b, m, live, rows, kind)
    ensures
      RoleBuckets(if RoleCounts(m, live, kind, o) then Push(b, o.ScopeKey().value, o) else b, m, live, rows + [o], kind)
  {
    var after := if RoleCounts(m, live, kind, o) then Push(b, o.ScopeKey().value, o) else b;
    forall key ensures Bucket(after, key) == Filter(rows + [o], RoleRow(m, live, kind, key)) {
      FilterSnoc(rows, o, RoleRow(m, live, kind, key));
      assert Bucket(b, key) == Filter(rows, RoleRow(m, live, kind, key));
    }
  }

  lemma UserBucketsStep(b: map<string, Override>, m: Subject, rows: seq<Override>, kind: string, o: Override)
    requires UserBuckets(b, m, rows, kind)
    ensures
      UserBuckets(if UserCounts(m, kind, o) then KeepFirst(b, o.ScopeKey().value, o) else b, m, rows + [o], kind)
  {
    forall key {
      FilterSnoc(rows, o, UserRow(m, kind, Some(key)));
    }
  }

  lemma ServerLayerStep(m: Subject, rows: seq<Override>, o: Override)
    ensures
      var before := UserLayer(m, rows, "server", None);
      UserLayer(m, rows + [o], "server", None) == if ServerCounts(m, o) && before == [] then [o] else before
  {
    FilterSnoc(rows, o, UserRow(m, "server", None));
  }

  /** The four scope maps and the server row that one pass over the overrides fills. */
  datatype Scan = Scan(roleCategory: Buckets, roleChannel: Buckets,
                       userCategory: map<string, Override>, userChannel: map<string, Override>,
                       serverUser: Option<Override>)
  {
    /** Put one row where it belongs, or skip it. */
    function Place(m: Subject, defaults: set<string>, o: Override): Scan {
      var key := o.ScopeKey();
      if o.targetType == "role" then
        if o.targetId !in m.held && o.targetId !in defaults then this
        else if key.None? then this
        else if o.scopeType == "category" then this.(roleCategory := Push(roleCategory, key.value, o))
        else if o.scopeType == "channel" then this.(roleChannel := Push(roleChannel, key.value, o))
        else this
      else if o.targetType != "user" || o.targetId != m.userId then this
      else if o.scopeType == "server" then
        if key.None? && serverUser.None? then this.(serverUser := Some(o)) else this
      else if key.None? then this
      else if o.scopeType == "category" then this.(userCategory := KeepFirst(userCategory, key.value, o))
      else if o.scopeType == "channel" then this.(userChannel := KeepFirst(userChannel, key.value, o))
      else this
    }
  }

  /** Every bucket holds exactly its scope's share of the rows scanned so far. */
  ghost predicate Scanned(scan: Scan, m: Subject, live: seq<Role>, rows: seq<Override>) {
    && RoleBuckets(scan.roleCategory, m, live, rows, "category")
    && RoleBuckets(scan.roleChannel, m, live, rows, "channel")
    && UserBuckets(scan.userCategory, m, rows, "category")
    && UserBuckets(scan.userChannel, m, rows, "channel")
    && UserLayer(m, rows, "server", None) == (if scan.serverUser.Some? then [scan.serverUser.value] else [])
  }

  /** Each row changes at most the one bucket of its own kind. */
  lemma PlaceFields(scan: Scan, m: Subject, live: seq<Role>, o: Override)
    ensures
      var after := scan.Place(m, DefaultIds(live), o);
      && after.roleCategory == (if RoleCounts(m, live, "category", o) then Push(scan.roleCategory, o.ScopeKey().value, o) else scan.roleCategory)
      && after.roleChannel == (if RoleCounts(m, live, "channel", o) then Push(scan.roleChannel, o.ScopeKey().value, o) else scan.roleChannel)
      && after.userCategory == (if UserCounts(m, "category", o) then KeepFirst(scan.userCategory, o.ScopeKey().value, o) else scan.userCategory)
      && after.userChannel == (if UserCounts(m, "channel", o) then KeepFirst(scan.userChannel, o.ScopeKey().value, o) else scan.userChannel)
      && after.serverUser == (if ServerCounts(m, o) && scan.serverUser.None? then Some(o) else scan.serverUser)
  {
  }

  lemma PlaceStep(scan: Scan, m: Subject, live: seq<Role>, rows: seq<Override>, o: Override)
    requires Scanned(scan, m, live, rows)
    ensures Scanned(scan.Place(m, DefaultIds(live), o), m, live, rows + [o])
  {
    PlaceFields(scan, m, live, o);
    RoleBucketsStep(scan.roleCategory, m, live, rows, "category", o);
    RoleBucketsStep(scan.roleChannel, m, live, rows, "channel", o);
    UserBucketsStep(scan.userCategory, m, rows, "category", o);
    UserBucketsStep(scan.userChannel, m, rows, "channel", o);
    ServerLayerStep(m, rows, o);
  }

  lemma EmptyReplay(m: Subject)
    ensures Replay({}, RoleEntries(m, [])) == {}
  {
  }

  lemma RoleStep(m: Subject, front: seq<Role>, r: Role)
    ensures
      var before := Replay({}, RoleEntries(m, front));
      Replay({}, RoleEntries(m, front + [r])) == if r.isDefault || r.Key() in m.held then Apply(before, r.ToEntry()) else before
  {
    hide Filter, Role.Key, Role.ToEntry;
    FilterSnoc(front, r, Holds(m));
    if r.isDefault || r.Key() in m.held {
      assert RoleEntries(m, front + [r]) == RoleEntries(m, front) + [r.ToEntry()];
      assert (RoleEntries(m, front) + [r.ToEntry()])[..|RoleEntries(m, front)|] == RoleEntries(m, front);
    }
  }

  /** Layer 1: every live role that is default or held, lowest position first. */
  method FoldRoles(m: Subject, live: seq<Role>) returns (base: Mask)
    ensures base == Replay({}, RoleEntries(m, live))
  {
    hide RoleEntries, Replay, Role.Key, Role.ToEntry;
    base := {};
    EmptyReplay(m);
    for i := 0 to |live|
      invariant base == Replay({}, RoleEntries(m, live[..i]))
    {
      var r := live[i];
      RoleStep(m, live[..i], r);
      assert live[..i + 1] == live[..i] + [r];
      if !r.isDefault && r.Key() !in m.held {
        continue;
      }
      base := Apply(base, r.ToEntry());
    }
    assert live[..|live|] == live;
  }

  /** Position by encoded role id, and the ids of the default roles. */
  method IndexRoles(live: seq<Role>) returns (positions: map<string, int>, defaults: set<string>)
    ensures forall id :: (if id in positions then positions[id] else 0) == PositionOf(live, id)
    ensures defaults == DefaultIds(live)
  {
    positions, defaults := map[], {};
    for i := 0 to |live|
      invariant forall id :: (if id in positions then positions[id] else 0) == PositionOf(live[..i], id)
      invariant defaults == DefaultIds(live[..i])
    {
      assert live[..i + 1] == live[..i] + [live[i]];
      assert live[..i + 1][..i] == live[..i];
      positions := positions[live[i].Key() := live[i].Position()];
      if live[i].isDefault {
        defaults := defaults + {live[i].Key()};
      }
    }
    assert live[..|live|] == live;
  }

  method SortBuckets(b: Buckets, positions: map<string, int>, ghost live: seq<Role>) returns (sorted: Buckets)
    requires forall id :: (if id in positions then positions[id] else 0) == PositionOf(live, id)
    ensures sorted.Keys == b.Keys
    ensures forall key :: Bucket(sorted, key) == StableSort(Bucket(b, key), ByTarget(live))
  {
    sorted := b;
    var byRolePosition := (o: Override) => if o.targetId in positions then positions[o.targetId] else 0;
    var pending := b.Keys;
    while pending != {}
      invariant pending <= b.Keys == sorted.Keys
      invariant forall key :: key in pending ==> sorted[key] == b[key]
      invariant forall key :: key !in pending ==> Bucket(sorted, key) == StableSort(Bucket(b, key), ByTarget(live))
      decreases pending
    {
      var key :| key in pending;
      StableSortCongruence(b[key], byRolePosition, ByTarget(live));
      sorted := sorted[key := StableSort(sorted[key], byRolePosition)];
      pending := pending - {key};
    }
  }

  /**
   * Resolve one member's cascade on one server. `load` is the outcome of reading the
   * override rows; it is not looked at when roles alone grant ADMINISTRATOR.
   */
  method ResolvePermissionFold<E>(m: Subject, roles: seq<Role>, load: Result<seq<Override>, E>)
    returns (r: Result<Fold, E>)
    ensures r.Err? <==> load.Err? && !RolesGrantAdministrator(m, roles)
    ensures r.Err? ==> r.error == load.error
    ensures r.Ok? && load.Ok? ==> Refines(r.value, m, roles, load.value)
    ensures r.Ok? && RolesGrantAdministrator(m, roles) ==> r.value == Constant(PlainServer(m, roles, []))
    ensures r.Ok? && load.Ok? && r.value.Bucketed? ==>
              (r.value.HasChannelScopedOverrides() <==>
                 exists o :: o in load.value && o.scopeType in {"category", "channel"} && o.scopeId.Some? && Concerns(m, LiveRoles(roles), o))
  {
    var live := LiveRoles(roles);
    var base := FoldRoles(m, live);
    if HasPermission(base, ADMINISTRATOR) {
      return Ok(Constant(base));
    }
    if load.Err? {
      return Err(load.error);
    }
    var overrides := load.value;
    var positions, defaults := IndexRoles(live);
    var scan := Scan(map[], map[], map[], map[], None);
    for i := 0 to |overrides|
      invariant Scanned(scan, m, live, overrides[..i])
    {
      assert overrides[..i + 1] == overrides[..i] + [overrides[i]];
      PlaceStep(scan, m, live, overrides[..i], overrides[i]);
      scan := scan.Place(m, defaults, overrides[i]);
    }
    assert overrides[..|overrides|] == overrides;
    var roleCategory := SortBuckets(scan.roleCategory, positions, live);
    var roleChannel := SortBuckets(scan.roleChannel, positions, live);

    if scan.serverUser.Some? {
      base := Apply(base, scan.serverUser.value.ToEntry());
    }
    var f := Bucketed(base, roleCategory, roleChannel, scan.userCategory, scan.userChannel);
    BucketsRefine(f, m, roles, overrides, scan.serverUser);
    BucketsFilled(scan.roleCategory, scan.userCategory, m, live, overrides, "category");
    BucketsFilled(scan.roleChannel, scan.userChannel, m, live, overrides, "channel");
    SameKeys(scan.roleCategory, roleCategory);
    SameKeys(scan.roleChannel, roleChannel);
    r := Ok(f);
  }

  lemma SameKeys(a: Buckets, b: Buckets)
    requires a.Keys == b.Keys
    ensures |a| == |b|
  {
    assert |a.Keys| == |a| && |b.Keys| == |b|;
  }

  /** A bucket stands open exactly when a row of that kind concerns the member. */
  lemma BucketsFilled(b: Buckets, u: map<string, Override>, m: Subject, live: seq<Role>, rows: seq<Override>, kind: string)
    requires RoleBuckets(b, m, live, rows, kind) && UserBuckets(u, m, rows, kind)
    ensures (|b| > 0 || |u| > 0) <==>
              exists o :: o in rows && o.scopeType == kind && o.scopeId.Some? && Concerns(m, live, o)
  {
    if o :| o in rows && o.scopeType == kind && o.scopeId.Some? && Concerns(m, live, o) {
      var key := o.ScopeKey().value;
      assert Bucket(b, key) == Filter(rows, RoleRow(m, live, kind, key));
      assert Single(u, key) == UserLayer(m, rows, kind, Some(key));
      assert o in Filter(rows, RoleRow(m, live, kind, key)) || o in Filter(rows, UserRow(m, kind, Some(key)));
      assert key in b || key in u;
    }
    if |b| > 0 {
      var key :| key in b;
      var o := Bucket(b, key)[0];
      assert o in Filter(rows, RoleRow(m, live, kind, key));
    }
    if |u| > 0 {
      var key :| key in u;
      var o := Single(u, key)[0];
      assert UserLayer(m, rows, kind, Some(key)) == [o];
      assert o in Filter(rows, UserRow(m, kind, Some(key)));
    }
  }

  /** Buckets that hold each scope's layer make a fold that refines the plain scan. */
  lemma BucketsRefine(f: Fold, m: Subject, roles: seq<Role>, overrides: seq<Override>, serverUser: Option<Override>)
    requires f.Bucketed? && !RolesGrantAdministrator(m, roles)
    requires UserLayer(m, overrides, "server", None) == if serverUser.Some? then [serverUser.value] else []
    requires
      var layer1 := Replay({}, RoleEntries(m, LiveRoles(roles)));
      f.base == if serverUser.Some? then Apply(layer1, serverUser.value.ToEntry()) else layer1
    requires forall key :: Bucket(f.roleCategory, key) == RoleLayer(m, LiveRoles(roles), overrides, "category", key)
    requires forall key :: Bucket(f.roleChannel, key) == RoleLayer(m, LiveRoles(roles), overrides, "channel", key)
    requires UserBuckets(f.userCategory, m, overrides, "category")
    requires UserBuckets(f.userChannel, m, overrides, "channel")
    ensures Refines(f, m, roles, overrides)
  {
    var live := LiveRoles(roles);
    BaseIsServerLayer(f.base, RoleEntries(m, live), serverUser);
    var layer2 := UserLayer(m, overrides, "server", None);
    HigherLayers(f.base, RoleEntries(m, live), layer2, []);
    assert layer2 + [] == layer2;
    forall channel, category
      ensures f.ChannelPermissions(channel, category) == PlainChannel(m, roles, overrides, channel, category)
    {
      HigherLayers(f.base, RoleEntries(m, live), layer2, ChannelRows(m, live, overrides, channel, category));
      ChannelRowsAgree(f, m, live, overrides, channel, category);
    }
    forall category
      ensures f.CategoryPermissions(category) == PlainCategory(m, roles, overrides, category)
    {
      HigherLayers(f.base, RoleEntries(m, live), layer2, CategoryRows(m, live, overrides, category));
      assert f.RowsForCategory(category) == CategoryRows(m, live, overrides, category);
    }
  }

  lemma ChannelRowsAgree(f: Fold, m: Subject, live: seq<Role>, overrides: seq<Override>, channel: string, category: Option<string>)
    requires f.Bucketed?
    requires forall key :: Bucket(f.roleCategory, key) == RoleLayer(m, live, overrides, "category", key)
    requires forall key :: Bucket(f.roleChannel, key) == RoleLayer(m, live, overrides, "channel", key)
    requires UserBuckets(f.userCategory, m, overrides, "category")
    requires UserBuckets(f.userChannel, m, overrides, "channel")
    ensures f.RowsForChannel(channel, category) == ChannelRows(m, live, overrides, channel, category)
  {
    if InCategory(category) {
      assert Single(f.userCategory, category.value) == UserLayer(m, overrides, "category", Some(category.value));
    }
  }

  lemma BaseIsServerLayer(base: Mask, layer1: seq<Entry>, serverUser: Option<Override>)
    requires base == if serverUser.Some? then Apply(Replay({}, layer1), serverUser.value.ToEntry()) else Replay({}, layer1)
    ensures base == Replay(Replay({}, layer1), ToEntries(if serverUser.Some? then [serverUser.value] else []))
  {
    if serverUser.Some? {
      var rows := [serverUser.value];
      assert ToEntries(rows)[..0] == [];
      assert ToEntries(rows)[0] == serverUser.value.ToEntry();
    }
  }

  lemma HigherLayers(base: Mask, layer1: seq<Entry>, layer2: seq<Override>, rows: seq<Override>)
    requires base == Replay(Replay({}, layer1), ToEntries(layer2))
    ensures Replay(base, ToEntries(rows)) == Replay({}, layer1 + ToEntries(layer2 + rows))
  {
    ReplayRows(Replay({}, layer1), layer2, rows);
    ReplayConcat({}, layer1, ToEntries(layer2 + rows));
  }

  /** Without channel-scoped overrides, a fold gives one answer for every channel and category. */
  lemma UnscopedFoldIsConstant(f: Fold, channel: string, category: Option<string>, other: string)
    requires !f.HasChannelScopedOverrides()
    ensures f.ChannelPermissions(channel, category) == f.ServerPermissions()
    ensures f.CategoryPermissions(other) == f.ServerPermissions()
  {
    assert f.RowsForChannel(channel, category) == [];
    assert f.RowsForCategory(other) == [];
  }
}
