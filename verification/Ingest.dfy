/** Upserting the records of a bundle under the importer's DID. */
module Ingest {
  import opened Wrappers
  import opened Sequences

  /** A field of a record, by its path. */
  type Path = seq<string>

  type Value = string

  /** A record as the values at its leaf paths; a merge overwrites path by path. */
  type Record = map<Path, Value>

  /** Rows of one composite-keyed table: `{ created_by: did, id: local_id }`. */
  type Table = map<(string, string), Record>

  /** An entry of a records file; `record` is `None` when it is missing or null. */
  datatype ExportedRecord = ExportedRecord(localId: string, record: Option<Record>)

  const OWNED_FIELDS: set<string> := {"id", "created_by", "owner_id", "account_id", "folder_id"}

  /** Drop the fields that say whose record it is. */
  function Sanitize(record: Record): Record {
    map p | p in record && !(p != [] && p[0] in OWNED_FIELDS) :: record[p]
  }

  /** `revive` rewrites URLs and turns date strings into dates, value by value. */
  function Prepare(record: Record, revive: (Path, Value) -> Value): Record {
    var kept := Sanitize(record);
    map p | p in kept :: revive(p, kept[p])
  }

  /** The record under a key, empty when there is none. */
  function At(t: Table, key: (string, string)): Record {
    if key in t then t[key] else map[]
  }

  predicate Usable(r: ExportedRecord) {
    r.localId != "" && r.record.Some?
  }

  /** `failing` are the ids whose write the database refuses. */
  function Upsert(t: Table, did: string, r: ExportedRecord, revive: (Path, Value) -> Value, failing: set<string>): Table {
    if !Usable(r) || r.localId in failing then t
    else
      var data := Prepare(r.record.value, revive);
      var key := (did, r.localId);
      t[key := At(t, key) + data]
  }

  function Ingested(t: Table, did: string, rows: seq<ExportedRecord>, revive: (Path, Value) -> Value, failing: set<string>): Table {
    if rows == [] then t
    else Upsert(Ingested(t, did, rows[..|rows| - 1], revive, failing), did, rows[|rows| - 1], revive, failing)
  }

  function Accepted(failing: set<string>): ExportedRecord -> bool {
    (r: ExportedRecord) => Usable(r) && r.localId !in failing
  }

  lemma IngestedStep(t: Table, did: string, front: seq<ExportedRecord>, r: ExportedRecord, revive: (Path, Value) -> Value, failing: set<string>)
    ensures Ingested(t, did, front + [r], revive, failing) == Upsert(Ingested(t, did, front, revive, failing), did, r, revive, failing)
  {
    assert (front + [r])[..|front|] == front;
  }

  class CompositeRepository {
    var rows: Table

    method FindByComposite(did: string, localId: string) returns (r: Option<Record>)
      ensures r == if (did, localId) in rows then Some(rows[(did, localId)]) else None
    {
      r := if (did, localId) in rows then Some(rows[(did, localId)]) else None;
    }

    method MergeByComposite(did: string, localId: string, data: Record)
      requires (did, localId) in rows
      modifies this
      ensures rows == old(rows)[(did, localId) := old(rows)[(did, localId)] + data]
    {
      rows := rows[(did, localId) := rows[(did, localId)] + data];
    }

    method CreateWithExplicitId(did: string, localId: string, data: Record)
      requires (did, localId) !in rows
      modifies this
      ensures rows == old(rows)[(did, localId) := data]
    {
      rows := rows[(did, localId) := data];
    }

    /** One round of the import loop; `done` tells whether the row counts. */
    method IngestRecord(did: string, r: ExportedRecord, revive: (Path, Value) -> Value, failing: set<string>) returns (done: bool)
      modifies this
      ensures rows == Upsert(old(rows), did, r, revive, failing)
      ensures done == Accepted(failing)(r)
    {
      hide Prepare;
      if r.localId == "" || r.record.None? {
        return false;
      }
      var data := Prepare(r.record.value, revive);
      if r.localId in failing {
        return false;
      }
      var existing := FindByComposite(did, r.localId);
      if existing.Some? {
        MergeByComposite(did, r.localId, data);
      } else {
        assert map[] + data == data;
        CreateWithExplicitId(did, r.localId, data);
      }
      return true;
    }

    method IngestRecords(did: string, entries: seq<ExportedRecord>, revive: (Path, Value) -> Value, failing: set<string>)
      returns (n: nat)
      modifies this
      ensures rows == Ingested(old(rows), did, entries, revive, failing)
      ensures n == |Filter(entries, Accepted(failing))|
    {
      hide Upsert, Usable;
      n := 0;
      for i := 0 to |entries|
        invariant rows == Ingested(old(rows), did, entries[..i], revive, failing)
        invariant n == |Filter(entries[..i], Accepted(failing))|
      {
        assert entries[..i + 1] == entries[..i] + [entries[i]];
        FilterSnoc(entries[..i], entries[i], Accepted(failing));
        IngestedStep(old(rows), did, entries[..i], entries[i], revive, failing);
        var done := IngestRecord(did, entries[i], revive, failing);
        if done {
          n := n + 1;
        }
      }
      assert entries[..|entries|] == entries;
    }
  }

  /** Lay a table of patches over another, field by field. */
  function Overlay(t: Table, patches: Table): Table {
    map k | k in t.Keys + patches.Keys :: At(t, k) + At(patches, k)
  }

  /** All that ingestion does to a table is to lay one fixed table of patches over it. */
  lemma {:induction false} IngestionIsAnOverlay(t: Table, did: string, rows: seq<ExportedRecord>, revive: (Path, Value) -> Value, failing: set<string>)
    ensures Ingested(t, did, rows, revive, failing) == Overlay(t, Ingested(map[], did, rows, revive, failing))
  {
    if rows == [] {
      assert forall k :: k in t ==> t[k] + map[] == t[k];
    } else {
      var front, r := rows[..|rows| - 1], rows[|rows| - 1];
      IngestionIsAnOverlay(t, did, front, revive, failing);
      UpsertOverlay(t, Ingested(map[], did, front, revive, failing), did, r, revive, failing);
    }
  }

  lemma UpsertOverlay(t: Table, patches: Table, did: string, r: ExportedRecord, revive: (Path, Value) -> Value, failing: set<string>)
    ensures Upsert(Overlay(t, patches), did, r, revive, failing) == Overlay(t, Upsert(patches, did, r, revive, failing))
  {
    hide Prepare;
    if Usable(r) && r.localId !in failing {
      var key, data := (did, r.localId), Prepare(r.record.value, revive);
      var left := Overlay(t, patches)[key := At(Overlay(t, patches), key) + data];
      var right := Overlay(t, patches[key := At(patches, key) + data]);
      MergeAssociates(At(t, key), At(patches, key), data);
      assert At(Overlay(t, patches), key) == At(t, key) + At(patches, key) by {
        MergeAssociates(map[], map[], map[]);
      }
      assert left.Keys == right.Keys;
      assert right[key] == At(t, key) + (At(patches, key) + data);
      assert forall k :: k in left && k != key ==> left[k] == right[k];
      assert left == right;
    }
  }

  lemma MergeAssociates(a: Record, b: Record, c: Record)
    ensures (a + b) + c == a + (b + c)
  {
  }

  /** Importing the same records twice leaves the table as importing them once, repeats and failures included. */
  lemma IngestionIsIdempotent(t: Table, did: string, rows: seq<ExportedRecord>, revive: (Path, Value) -> Value, failing: set<string>)
    ensures
      var once := Ingested(t, did, rows, revive, failing);
      Ingested(once, did, rows, revive, failing) == once
  {
    hide Ingested;
    var patches := Ingested(map[], did, rows, revive, failing);
    var once := Ingested(t, did, rows, revive, failing);
    IngestionIsAnOverlay(t, did, rows, revive, failing);
    IngestionIsAnOverlay(once, did, rows, revive, failing);
    OverlayTwice(t, patches);
  }

  lemma OverlayTwice(t: Table, patches: Table)
    ensures Overlay(Overlay(t, patches), patches) == Overlay(t, patches)
  {
    var once := Overlay(t, patches);
    var twice := Overlay(once, patches);
    assert twice.Keys == once.Keys;
    forall k | k in once ensures twice[k] == once[k] {
      assert once[k] == At(t, k) + At(patches, k);
      assert (At(t, k) + At(patches, k)) + At(patches, k) == At(t, k) + At(patches, k);
    }
  }

  /**
   * Ingestion writes under the importer's DID alone, and never a field that says whose
   * record it is, whatever the bundle claims.
   */
  lemma {:induction false} IngestionOwnsNothingElse(t: Table, did: string, rows: seq<ExportedRecord>, revive: (Path, Value) -> Value, failing: set<string>,
                                                    key: (string, string), path: Path)
    requires key.0 != did || (path != [] && path[0] in OWNED_FIELDS)
    ensures
      var after := Ingested(t, did, rows, revive, failing);
      && (key.0 != did ==> (key in after <==> key in t) && (key in t ==> after[key] == t[key]))
      && (key in t && path in t[key] ==> key in after && path in after[key] && after[key][path] == t[key][path])
      && (key in after && path in after[key] ==> key in t && path in t[key])
  {
    if rows != [] {
      IngestionOwnsNothingElse(t, did, rows[..|rows| - 1], revive, failing, key, path);
    }
  }

  // ---- What an entry leaves in the table ----

  /** The entry is written: it has an id and a record, and the database takes it. */
  predicate IsWritten(r: ExportedRecord, failing: set<string>) {
    r.localId != "" && r.record.Some? && r.localId !in failing
  }

  /** The count of an import counts exactly the entries that were written. */
  lemma CountedAreWritten(r: ExportedRecord, failing: set<string>)
    ensures Accepted(failing)(r) <==> IsWritten(r, failing)
  {
  }

  predicate IsPortable(path: Path) {
    path == [] || path[0] !in {"id", "created_by", "owner_id", "account_id", "folder_id"}
  }

  /** Every field of the last written entry under an id stands in the importer's row, revived, but for the ownership fields. */
  lemma {:induction false} LastEntryStands(t: Table, did: string, rows: seq<ExportedRecord>, revive: (Path, Value) -> Value, failing: set<string>,
                                           i: nat, path: Path)
    requires i < |rows| && IsWritten(rows[i], failing)
    requires forall j :: i < j < |rows| && IsWritten(rows[j], failing) ==> rows[j].localId != rows[i].localId
    requires path in rows[i].record.value && IsPortable(path)
    ensures
      var after, key := Ingested(t, did, rows, revive, failing), (did, rows[i].localId);
      key in after && path in after[key] && after[key][path] == revive(path, rows[i].record.value[path])
  {
    var n := |rows| - 1;
    if i < n {
      assert forall j :: i < j < n ==> rows[..n][j] == rows[j];
      LastEntryStands(t, did, rows[..n], revive, failing, i, path);
    }
  }

  /** Some written entry under this id has the field. */
  predicate Brings(rows: seq<ExportedRecord>, failing: set<string>, localId: string, path: Path) {
    exists r :: r in rows && IsWritten(r, failing) && r.localId == localId && path in r.record.value
  }

  /** And nothing else is written: the rows are those that were there and one per written id; fields that no entry brings stay. */
  lemma {:induction false} NothingElseIsWritten(t: Table, did: string, rows: seq<ExportedRecord>, revive: (Path, Value) -> Value, failing: set<string>,
                                                key: (string, string), path: Path)
    ensures
      var after := Ingested(t, did, rows, revive, failing);
      && (key in after <==> key in t || (key.0 == did && exists r :: r in rows && IsWritten(r, failing) && r.localId == key.1))
      && (!Brings(rows, failing, key.1, path) ==>
            && (key in after && path in after[key] <==> key in t && path in t[key])
            && (key in t && path in t[key] ==> after[key][path] == t[key][path]))
  {
    if rows != [] {
      var n := |rows| - 1;
      assert rows == rows[..n] + [rows[n]];
      NothingElseIsWritten(t, did, rows[..n], revive, failing, key, path);
      assert forall r :: r in rows <==> r in rows[..n] || r == rows[n];
    }
  }
}
