/** Pairing requested channel topics with their rows, bucketed by deciding server. */
module ChannelTopics {
  import opened Wrappers
  import opened Sequences
  import opened RecordIds

  predicate IsChannelTopic(topic: string) {
    "channel:" <= topic
  }

  /** The `channel` columns the grouping reads; only an explicit `deleted: true` excludes a row. */
  datatype ChannelRow = ChannelRow(id: RecordId, serverId: Option<RecordId>,
                                   categoryId: Option<RecordId>, deleted: Option<bool>)

  datatype GroupedChannel = GroupedChannel(id: string, categoryId: Option<string>)

  datatype Grouping = Grouping(unscoped: seq<string>,
                               byServer: map<string, seq<GroupedChannel>>,
                               unresolved: seq<string>)

  /** How one requested id is to be answered. */
  datatype Scope = Unresolved | Unscoped | Scoped(server: string, category: Option<string>)

  function EncodeLink(link: Option<RecordId>): Option<string> {
    if link.Some? then Some(Encode(link.value)) else None
  }

  function ScopeOf(row: Option<ChannelRow>): Scope {
    if row.None? || row.value.deleted == Some(true) then Unresolved
    else if row.value.serverId.None? then Unscoped
    else Scoped(Encode(row.value.serverId.value), EncodeLink(row.value.categoryId))
  }

  /** The row whose own encoded id is exactly the requested string; the last one if several. */
  function RowOf(rows: seq<ChannelRow>, id: string): Option<ChannelRow> {
    if rows == [] then None
    else if Encode(rows[|rows| - 1].id) == id then Some(rows[|rows| - 1])
    else RowOf(rows[..|rows| - 1], id)
  }

  function Classify(rows: seq<ChannelRow>, id: string): Scope {
    ScopeOf(RowOf(rows, id))
  }

  /** First occurrences, in order. */
  function Distinct(ids: seq<string>): (r: seq<string>)
    ensures forall x :: x in r <==> x in ids
    ensures forall i, j :: 0 <= i < j < |r| ==> r[i] != r[j]
  {
    if ids == [] then []
    else
      var front, last := ids[..|ids| - 1], ids[|ids| - 1];
      assert ids == front + [last];
      if last in front then Distinct(front) else Distinct(front) + [last]
  }

  function HasScope(rows: seq<ChannelRow>, scope: Scope): string -> bool {
    (id: string) => Classify(rows, id) == scope
  }

  function InServer(rows: seq<ChannelRow>, server: string): string -> bool {
    (id: string) => Classify(rows, id).Scoped? && Classify(rows, id).server == server
  }

  function ToGrouped(rows: seq<ChannelRow>): string -> GroupedChannel {
    (id: string) => GroupedChannel(id, if Classify(rows, id).Scoped? then Classify(rows, id).category else None)
  }

  function BucketOf(byServer: map<string, seq<GroupedChannel>>, server: string): seq<GroupedChannel> {
    if server in byServer then byServer[server] else []
  }

  /** Every distinct requested id stands in the one bucket of its scope, in request order. */
  ghost predicate Groups(g: Grouping, ids: seq<string>, rows: seq<ChannelRow>) {
    && g.unscoped == Filter(Distinct(ids), HasScope(rows, Unscoped))
    && g.unresolved == Filter(Distinct(ids), HasScope(rows, Unresolved))
    && GroupsByServer(g.byServer, ids, rows)
  }

  ghost predicate GroupsByServer(byServer: map<string, seq<GroupedChannel>>, ids: seq<string>, rows: seq<ChannelRow>) {
    && (forall server :: BucketOf(byServer, server) == ServerGroup(ids, rows, server))
    && (forall server :: server in byServer ==> byServer[server] != [])
  }

  function ServerGroup(ids: seq<string>, rows: seq<ChannelRow>, server: string): seq<GroupedChannel> {
    Map(Filter(Distinct(ids), InServer(rows, server)), ToGrouped(rows))
  }

  method IndexRows(rows: seq<ChannelRow>) returns (rowByKey: map<string, ChannelRow>)
    ensures forall id :: RowOf(rows, id) == if id in rowByKey then Some(rowByKey[id]) else None
  {
    rowByKey := map[];
    for i := 0 to |rows|
      invariant forall id :: RowOf(rows[..i], id) == if id in rowByKey then Some(rowByKey[id]) else None
    {
      assert rows[..i + 1][..i] == rows[..i];
      rowByKey := rowByKey[Encode(rows[i].id) := rows[i]];
    }
    assert rows[..|rows|] == rows;
  }

  /** Add one id that has not been asked for before to the bucket its row calls for. */
  function Place(g: Grouping, row: Option<ChannelRow>, id: string): Grouping {
    if row.None? || row.value.deleted == Some(true) then
      g.(unresolved := g.unresolved + [id])
    else if row.value.serverId.None? then
      g.(unscoped := g.unscoped + [id])
    else
      var server := Encode(row.value.serverId.value);
      var entry := GroupedChannel(id, EncodeLink(row.value.categoryId));
      g.(byServer := g.byServer[server := BucketOf(g.byServer, server) + [entry]])
  }

  lemma GroupsStep(g: Grouping, ids: seq<string>, rows: seq<ChannelRow>, id: string)
    requires Groups(g, ids, rows)
    ensures Groups(if id in ids then g else Place(g, RowOf(rows, id), id), ids + [id], rows)
  {
    hide HasScope, RowOf, Filter;
    if id in ids {
      assert Distinct(ids + [id]) == Distinct(ids) by {
        assert (ids + [id])[..|ids|] == ids;
      }
    } else {
      assert Distinct(ids + [id]) == Distinct(ids) + [id] by {
        assert (ids + [id])[..|ids|] == ids;
      }
      ServerGroupsStep(g, ids, rows, id);
      ListsStep(g, ids, rows, id);
    }
  }

  lemma ListsStep(g: Grouping, ids: seq<string>, rows: seq<ChannelRow>, id: string)
    requires g.unscoped == Filter(Distinct(ids), HasScope(rows, Unscoped))
    requires g.unresolved == Filter(Distinct(ids), HasScope(rows, Unresolved))
    requires Distinct(ids + [id]) == Distinct(ids) + [id]
    ensures
      var after := Place(g, RowOf(rows, id), id);
      && after.unscoped == Filter(Distinct(ids + [id]), HasScope(rows, Unscoped))
      && after.unresolved == Filter(Distinct(ids + [id]), HasScope(rows, Unresolved))
  {
    hide Filter, Distinct, RowOf, Encode;
    FilterSnoc(Distinct(ids), id, HasScope(rows, Unscoped));
    FilterSnoc(Distinct(ids), id, HasScope(rows, Unresolved));
  }

  lemma ServerGroupsStep(g: Grouping, ids: seq<string>, rows: seq<ChannelRow>, id: string)
    requires GroupsByServer(g.byServer, ids, rows)
    requires Distinct(ids + [id]) == Distinct(ids) + [id]
    ensures GroupsByServer(Place(g, RowOf(rows, id), id).byServer, ids + [id], rows)
  {
    var after := Place(g, RowOf(rows, id), id);
    forall server ensures BucketOf(after.byServer, server) == ServerGroup(ids + [id], rows, server) {
      assert BucketOf(g.byServer, server) == ServerGroup(ids, rows, server);
      BucketStep(g, ids, rows, id, server);
    }
  }

  lemma BucketStep(g: Grouping, ids: seq<string>, rows: seq<ChannelRow>, id: string, server: string)
    requires BucketOf(g.byServer, server) == ServerGroup(ids, rows, server)
    requires Distinct(ids + [id]) == Distinct(ids) + [id]
    ensures BucketOf(Place(g, RowOf(rows, id), id).byServer, server) == ServerGroup(ids + [id], rows, server)
  {
    hide ServerGroup, Distinct, RowOf, Encode;
    ServerGroupStep(ids, rows, id, server);
  }

  lemma ServerGroupStep(ids: seq<string>, rows: seq<ChannelRow>, id: string, server: string)
    requires Distinct(ids + [id]) == Distinct(ids) + [id]
    ensures ServerGroup(ids + [id], rows, server)
            == if InServer(rows, server)(id) then ServerGroup(ids, rows, server) + [GroupedChannel(id, Classify(rows, id).category)]
               else ServerGroup(ids, rows, server)
  {
    hide Filter, Distinct, Classify;
    FilterSnoc(Distinct(ids), id, InServer(rows, server));
  }

  lemma NothingGrouped(rows: seq<ChannelRow>)
    ensures Groups(Grouping([], map[], []), [], rows)
  {
  }

  method GroupChannelTopicsByServer(ids: seq<string>, rows: seq<ChannelRow>) returns (g: Grouping)
    ensures Groups(g, ids, rows)
  {
    hide Groups, RowOf, Place;
    var rowByKey := IndexRows(rows);
    g := Grouping([], map[], []);
    NothingGrouped(rows);
    var seen: set<string> := {};
    assert ids[..0] == [];
    for i := 0 to |ids|
      invariant seen == Members(ids[..i])
      invariant Groups(g, ids[..i], rows)
    {
      var id := ids[i];
      assert ids[..i + 1] == ids[..i] + [id];
      MembersSnoc(ids[..i], id);
      GroupsStep(g, ids[..i], rows, id);
      if id !in seen {
        seen := seen + {id};
        g := Place(g, if id in rowByKey then Some(rowByKey[id]) else None, id);
      }
      assert seen == Members(ids[..i] + [id]);
    }
    assert ids[..|ids|] == ids;
  }
}
