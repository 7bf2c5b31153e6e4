/** The `sync_objects` table (storage/store.go): rows under a four-column UNIQUE
    constraint, written by UPDATE-then-INSERT. */
module SyncTable {
  import opened Prelude

  /** The four columns of the UNIQUE constraint. */
  datatype Key = Key(syncId: string, source: string, target: string, name: string)

  datatype Status = Success | Failed | InSync

  datatype Direction = NoDirection | SourceToTarget | TargetToSource

  /** The columns the sync engine fills in. */
  datatype SyncObject = SyncObject(sourceSum: string, targetSum: string, status: Status,
                                   error: string, direction: Direction)

  datatype Row = Row(id: nat, key: Key, obj: SyncObject)

  /** No two rows share the four-column key, no two share an id, and every id was handed out already. */
  ghost predicate Consistent(rows: seq<Row>, nextId: nat) {
    && (forall i, j | 0 <= i < j < |rows| :: rows[i].key != rows[j].key)
    && (forall i, j | 0 <= i < j < |rows| :: rows[i].id != rows[j].id)
    && (forall i | 0 <= i < |rows| :: rows[i].id < nextId)
  }

  /** SELECT by key. */
  function Find(rows: seq<Row>, key: Key): (r: Option<Row>)
    ensures r.Some? ==> r.value in rows && r.value.key == key
    ensures r.None? ==> forall i | 0 <= i < |rows| :: rows[i].key != key
  {
    if rows == [] then None
    else if rows[0].key == key then Some(rows[0])
    else Find(rows[1..], key)
  }

  /** The content of the row with this key, without its id. */
  function Content(rows: seq<Row>, key: Key): Option<SyncObject> {
    var r := Find(rows, key);
    if r.Some? then Some(r.value.obj) else None
  }

  /** `UPDATE ... WHERE` the four columns match. */
  function Updated(rows: seq<Row>, key: Key, obj: SyncObject): (r: seq<Row>)
    ensures |r| == |rows|
    ensures forall i | 0 <= i < |rows| :: r[i] == if rows[i].key == key then rows[i].(obj := obj) else rows[i]
  {
    seq(|rows|, i requires 0 <= i < |rows| => if rows[i].key == key then rows[i].(obj := obj) else rows[i])
  }

  /** `RowsAffected` of that UPDATE. */
  function Affected(rows: seq<Row>, key: Key): (n: nat)
    ensures n == 0 <==> Find(rows, key).None?
  {
    if rows == [] then 0 else (if rows[0].key == key then 1 else 0) + Affected(rows[1..], key)
  }

  /** `INSERT`: an error, and no change, when the key is already there. */
  function Inserted(rows: seq<Row>, nextId: nat, key: Key, obj: SyncObject): Option<seq<Row>> {
    if Find(rows, key).Some? then None else Some(rows + [Row(nextId, key, obj)])
  }

  // ---------------------------------------------------------------- facts about single statements

  lemma {:induction false} FindUnique(rows: seq<Row>, nextId: nat, i: nat)
    requires Consistent(rows, nextId) && i < |rows|
    ensures Find(rows, rows[i].key) == Some(rows[i])
  {
    if i > 0 {
      assert rows[i] == rows[1..][i - 1];
      assert rows[0].key != rows[i].key;
      assert Consistent(rows[1..], nextId);
      FindUnique(rows[1..], nextId, i - 1);
    }
  }

  /** UPDATE keeps the row's id, sets its content, and leaves every other row alone. */
  lemma {:induction false} FindUpdated(rows: seq<Row>, key: Key, obj: SyncObject, k: Key)
    ensures Find(Updated(rows, key, obj), k) ==
            if k == key && Find(rows, k).Some? then Some(Find(rows, k).value.(obj := obj)) else Find(rows, k)
  {
    if rows != [] {
      FindUpdated(rows[1..], key, obj, k);
      assert Updated(rows, key, obj)[1..] == Updated(rows[1..], key, obj);
    }
  }

  lemma {:induction false} FindAppended(rows: seq<Row>, row: Row, k: Key)
    ensures Find(rows + [row], k) ==
            if Find(rows, k).Some? then Find(rows, k) else if row.key == k then Some(row) else None
  {
    if rows != [] {
      assert (rows + [row])[1..] == rows[1..] + [row];
      FindAppended(rows[1..], row, k);
    }
  }

  /** Appending a row under a new key and the next id keeps the constraints. */
  lemma ConsistentAppended(rows: seq<Row>, nextId: nat, key: Key, obj: SyncObject)
    requires Consistent(rows, nextId) && Find(rows, key).None?
    ensures Consistent(rows + [Row(nextId, key, obj)], nextId + 1)
  {
    var r := rows + [Row(nextId, key, obj)];
    forall i, j | 0 <= i < j < |r| ensures r[i].key != r[j].key && r[i].id != r[j].id {
      if j == |rows| {
        assert r[i] == rows[i];
      }
    }
  }

  lemma ConsistentUpdated(rows: seq<Row>, nextId: nat, key: Key, obj: SyncObject)
    requires Consistent(rows, nextId)
    ensures Consistent(Updated(rows, key, obj), nextId)
  {}

  // ---------------------------------------------------------------- UPDATE-then-INSERT

  datatype Table = Table(rows: seq<Row>, nextId: nat) {
    ghost predicate Valid() { Consistent(rows, nextId) }
  }

  /** The table after `UpsertSyncObject`, as the two statements leave it. */
  function Upserted(t: Table, key: Key, obj: SyncObject): Table {
    if Affected(t.rows, key) > 0 then Table(Updated(t.rows, key, obj), t.nextId)
    else match Inserted(t.rows, t.nextId, key, obj)
      case Some(rows) => Table(rows, t.nextId + 1)
      case None => t
  }

  /** One upsert refines one map update: the constraints survive, the INSERT is never refused, the
      row keeps its id when it had one, and every other row is the same row as before. */
  lemma UpsertRefinesMapUpdate(t: Table, key: Key, obj: SyncObject, k: Key)
    requires t.Valid()
    ensures Upserted(t, key, obj).Valid()
    ensures Affected(t.rows, key) == 0 ==> Inserted(t.rows, t.nextId, key, obj).Some?
    ensures Find(Upserted(t, key, obj).rows, k) ==
            if k != key then Find(t.rows, k)
            else Some(Row(if Find(t.rows, key).Some? then Find(t.rows, key).value.id else t.nextId, key, obj))
  {
    if Find(t.rows, key).None? {
      FindAppended(t.rows, Row(t.nextId, key, obj), k);
      ConsistentAppended(t.rows, t.nextId, key, obj);
    } else {
      FindUpdated(t.rows, key, obj, k);
      ConsistentUpdated(t.rows, t.nextId, key, obj);
    }
  }

  datatype Upsert = Upsert(key: Key, obj: SyncObject)

  function UpsertAll(t: Table, ops: seq<Upsert>): Table {
    if ops == [] then t
    else
      var last := ops[|ops| - 1];
      Upserted(UpsertAll(t, ops[..|ops| - 1]), last.key, last.obj)
  }

  /** The object a map would hold at `key` after the same assignments. */
  function LastWritten(ops: seq<Upsert>, key: Key): Option<SyncObject> {
    if ops == [] then None
    else if ops[|ops| - 1].key == key then Some(ops[|ops| - 1].obj)
    else LastWritten(ops[..|ops| - 1], key)
  }

  /** Over any history of upserts the table is a map: `GetSyncObject` returns the last object upserted
      under the key, or the row that was there before; a row, once there, keeps its id for ever. */
  lemma {:induction false} HistoryRefinesMap(t: Table, ops: seq<Upsert>, key: Key)
    requires t.Valid()
    ensures UpsertAll(t, ops).Valid()
    ensures Content(UpsertAll(t, ops).rows, key) ==
            if LastWritten(ops, key).Some? then LastWritten(ops, key) else Content(t.rows, key)
    ensures Find(t.rows, key).Some? ==>
              && Find(UpsertAll(t, ops).rows, key).Some?
              && Find(UpsertAll(t, ops).rows, key).value.id == Find(t.rows, key).value.id
  {
    if ops != [] {
      var last := ops[|ops| - 1];
      var front := ops[..|ops| - 1];
      HistoryRefinesMap(t, front, key);
      UpsertRefinesMapUpdate(UpsertAll(t, front), last.key, last.obj, key);
    }
  }

  // ---------------------------------------------------------------- the store object

  /** `SyncObjectStore`. `up` says whether the database accepts statements at the moment of the call. */
  class SyncObjectStore {
    var rows: seq<Row>
    var nextId: nat

    constructor ()
      ensures rows == [] && nextId == 1
    {
      rows, nextId := [], 1;
    }

    ghost function View(): Table
      reads this
    {
      Table(rows, nextId)
    }

    method ExecUpdate(key: Key, obj: SyncObject) returns (affected: nat)
      modifies this`rows
      ensures rows == Updated(old(rows), key, obj)
      ensures affected == Affected(old(rows), key)
    {
      affected := Affected(rows, key);
      rows := Updated(rows, key, obj);
    }

    method ExecInsert(key: Key, obj: SyncObject) returns (ok: bool)
      modifies this
      ensures ok == Inserted(old(rows), old(nextId), key, obj).Some?
      ensures ok ==> Some(rows) == Inserted(old(rows), old(nextId), key, obj) && nextId == old(nextId) + 1
      ensures !ok ==> rows == old(rows) && nextId == old(nextId)
    {
      var r := Inserted(rows, nextId, key, obj);
      ok := r.Some?;
      if ok {
        rows, nextId := r.value, nextId + 1;
      }
    }

    method UpsertSyncObject(key: Key, obj: SyncObject, up: bool) returns (ok: bool)
      modifies this
      ensures !up ==> !ok && View() == old(View())
      ensures up ==> View() == Upserted(old(View()), key, obj)
      ensures up && old(View().Valid()) ==> ok && View().Valid()
    {
      if !up {
        return false;
      }
      if old(View().Valid()) {
        UpsertRefinesMapUpdate(View(), key, obj, key);
      }
      var n := ExecUpdate(key, obj);
      if n == 0 {
        assert rows == old(rows) by {
          forall i | 0 <= i < |rows| ensures rows[i] == old(rows)[i] {}
        }
        ok := ExecInsert(key, obj);
      } else {
        ok := true;
      }
    }

    method GetSyncObject(key: Key) returns (r: Option<Row>)
      ensures r == Find(rows, key)
    {
      r := Find(rows, key);
    }

    /** Every row of the sync, each once. */
    method GetSyncObjectsBySync(syncId: string) returns (objects: seq<Row>)
      ensures objects == OfSync(rows, syncId)
    {
      objects := [];
      for i := 0 to |rows|
        invariant objects == OfSync(rows[..i], syncId)
      {
        OfSyncSnoc(rows[..i], rows[i], syncId);
        assert rows[..i + 1] == rows[..i] + [rows[i]];
        if rows[i].key.syncId == syncId {
          objects := objects + [rows[i]];
        }
      }
      assert rows[..|rows|] == rows;
    }
  }

  /** The rows of one sync. */
  function OfSync(rows: seq<Row>, syncId: string): (r: seq<Row>)
    ensures forall x :: x in r <==> x in rows && x.key.syncId == syncId
  {
    if rows == [] then []
    else (if rows[0].key.syncId == syncId then [rows[0]] else []) + OfSync(rows[1..], syncId)
  }

  lemma {:induction false} OfSyncSnoc(rows: seq<Row>, row: Row, syncId: string)
    ensures OfSync(rows + [row], syncId) == OfSync(rows, syncId) + (if row.key.syncId == syncId then [row] else [])
  {
    if rows == [] {
      assert rows + [row] == [row];
    } else {
      assert (rows + [row])[1..] == rows[1..] + [row];
      OfSyncSnoc(rows[1..], row, syncId);
    }
  }
}
