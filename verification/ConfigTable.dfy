/** The tables `config_vaults` and `config_syncs` (storage/config_store.go:99-109, 163-236): one document
    per id, rows in the order they were inserted. */
module ConfigTable {
  import opened Prelude

  datatype Row<D> = Row(id: string, doc: D, createdAt: int)

  ghost predicate Holds<D(!new)>(rows: seq<Row<D>>, id: string, doc: D) {
    exists i | 0 <= i < |rows| :: rows[i].id == id && rows[i].doc == doc
  }

  function Lookup<D(!new)>(rows: seq<Row<D>>, id: string): (r: Option<D>)
    ensures r.Some? ==> Holds(rows, id, r.value)
    ensures r.None? ==> forall i | 0 <= i < |rows| :: rows[i].id != id
  {
    if rows == [] then None
    else if rows[0].id == id then Some(rows[0].doc)
    else Lookup(rows[1..], id)
  }

  /** `upsertConfigRow`: UPDATE, then INSERT when no row was affected. */
  function Saved<D(!new)>(rows: seq<Row<D>>, id: string, doc: D, now: int): seq<Row<D>> {
    if Lookup(rows, id).Some? then
      seq(|rows|, i requires 0 <= i < |rows| => if rows[i].id == id then rows[i].(doc := doc) else rows[i])
    else rows + [Row(id, doc, now)]
  }

  function Deleted<D(!new)>(rows: seq<Row<D>>, id: string): (r: seq<Row<D>>)
    ensures forall x :: x in r <==> x in rows && x.id != id
  {
    if rows == [] then []
    else Deleted(rows[..|rows| - 1], id) + (if rows[|rows| - 1].id == id then [] else [rows[|rows| - 1]])
  }

  datatype Op<D> = Save(id: string, doc: D, now: int) | Delete(id: string)

  function Replay<D(!new)>(ops: seq<Op<D>>): seq<Row<D>> {
    if ops == [] then []
    else
      var rows := Replay(ops[..|ops| - 1]);
      match ops[|ops| - 1]
      case Save(id, doc, now) => Saved(rows, id, doc, now)
      case Delete(id) => Deleted(rows, id)
  }

  /** The document last saved under the id and not deleted since. */
  function Latest<D(!new)>(ops: seq<Op<D>>, id: string): Option<D> {
    if ops == [] then None
    else
      var last := ops[|ops| - 1];
      if last.id != id then Latest(ops[..|ops| - 1], id)
      else if last.Save? then Some(last.doc)
      else None
  }

  /** The index of the save that made the id live: the last save that found it absent. */
  function Born<D(!new)>(ops: seq<Op<D>>, id: string): (b: int)
    ensures -1 <= b < |ops|
    ensures b >= 0 ==> ops[b].Save? && ops[b].id == id
    ensures Latest(ops, id).Some? ==> b >= 0
  {
    if ops == [] then -1
    else
      var k := |ops| - 1;
      if ops[k].Save? && ops[k].id == id && Latest(ops[..k], id).None? then k else Born(ops[..k], id)
  }

  /** The row shows the latest document of a live id, stamped when the id became live. */
  ghost predicate Current<D(!new)>(ops: seq<Op<D>>, row: Row<D>) {
    && Latest(ops, row.id) == Some(row.doc)
    && row.createdAt == ops[Born(ops, row.id)].now
  }

  ghost predicate Before<D(!new)>(ops: seq<Op<D>>, x: Row<D>, y: Row<D>) { Born(ops, x.id) < Born(ops, y.id) }

  /** What a listing returns after a history: each live id once, with the latest document, in the order
      in which the ids became live. */
  ghost predicate Lists<D(!new)>(rows: seq<Row<D>>, ops: seq<Op<D>>) {
    && (forall i | 0 <= i < |rows| :: Current(ops, rows[i]))
    && (forall id | Latest(ops, id).Some? :: Lookup(rows, id).Some?)
    && (forall i, j | 0 <= i < j < |rows| :: Before(ops, rows[i], rows[j]))
  }

  lemma Extend<D(!new)>(ops: seq<Op<D>>, op: Op<D>, id: string)
    ensures Latest(ops + [op], id) ==
            if op.id != id then Latest(ops, id) else if op.Save? then Some(op.doc) else None
    ensures Born(ops + [op], id) ==
            if op.Save? && op.id == id && Latest(ops, id).None? then |ops| else Born(ops, id)
  {
    assert (ops + [op])[..|ops|] == ops;
  }

  lemma {:induction false} DeletedKeepsOrder<D(!new)>(rows: seq<Row<D>>, id: string, before: (Row<D>, Row<D>) -> bool)
    requires forall i, j | 0 <= i < j < |rows| :: before(rows[i], rows[j])
    ensures forall i, j | 0 <= i < j < |Deleted(rows, id)| :: before(Deleted(rows, id)[i], Deleted(rows, id)[j])
  {
    if rows != [] {
      var k := |rows| - 1;
      DeletedKeepsOrder(rows[..k], id, before);
      var front := Deleted(rows[..k], id);
      forall i | 0 <= i < |front| ensures before(front[i], rows[k]) {
        assert front[i] in rows[..k];
      }
    }
  }

  lemma SaveLists<D(!new)>(ops: seq<Op<D>>, rows: seq<Row<D>>, op: Op<D>)
    requires Lists(rows, ops) && op.Save?
    ensures Lists(Saved(rows, op.id, op.doc, op.now), ops + [op])
  {
    var ops' := ops + [op];
    var rows' := Saved(rows, op.id, op.doc, op.now);
    forall i | 0 <= i < |rows'| ensures Current(ops', rows'[i]) {
      Extend(ops, op, rows'[i].id);
      if i < |rows| {
        assert Current(ops, rows[i]) && rows'[i].id == rows[i].id;
      }
    }
    forall i, j | 0 <= i < j < |rows'| ensures Before(ops', rows'[i], rows'[j]) {
      Extend(ops, op, rows'[i].id);
      Extend(ops, op, rows'[j].id);
      assert Current(ops, rows[i]) && rows'[i].id == rows[i].id;
      if j < |rows| {
        assert Current(ops, rows[j]) && Before(ops, rows[i], rows[j]);
      }
    }
    forall id | Latest(ops', id).Some? ensures Lookup(rows', id).Some? {
      Extend(ops, op, id);
      SavedLookup(rows, op.id, op.doc, op.now, id);
    }
  }

  /** One save is one map update. */
  lemma {:induction false} SavedLookup<D(!new)>(rows: seq<Row<D>>, id: string, doc: D, now: int, other: string)
    ensures Lookup(Saved(rows, id, doc, now), other) == if other == id then Some(doc) else Lookup(rows, other)
  {
    if rows != [] {
      SavedLookup(rows[1..], id, doc, now, other);
      if rows[0].id == id && Lookup(rows[1..], id).None? {
        assert Saved(rows, id, doc, now) == [rows[0].(doc := doc)] + rows[1..];
      } else {
        assert Saved(rows, id, doc, now)[1..] == Saved(rows[1..], id, doc, now);
      }
    }
  }

  lemma DeleteLists<D(!new)>(ops: seq<Op<D>>, rows: seq<Row<D>>, op: Op<D>)
    requires Lists(rows, ops) && op.Delete?
    ensures Lists(Deleted(rows, op.id), ops + [op])
  {
    var ops' := ops + [op];
    var rows' := Deleted(rows, op.id);
    DeletedKeepsOrder(rows, op.id, (x, y) => Before(ops, x, y));
    forall i | 0 <= i < |rows'| ensures Current(ops', rows'[i]) {
      assert rows'[i] in rows';
      var k :| 0 <= k < |rows| && rows[k] == rows'[i];
      assert Current(ops, rows[k]);
      Extend(ops, op, rows'[i].id);
    }
    forall i, j | 0 <= i < j < |rows'| ensures Before(ops', rows'[i], rows'[j]) {
      Extend(ops, op, rows'[i].id);
      Extend(ops, op, rows'[j].id);
    }
    forall id | Latest(ops', id).Some? ensures Lookup(rows', id).Some? {
      Extend(ops, op, id);
      var i :| 0 <= i < |rows| && rows[i].id == id;
      assert rows[i] in rows';
    }
  }

  /** Over any history of saves and deletes. */
  lemma {:induction false} ListingAfterHistory<D(!new)>(ops: seq<Op<D>>)
    ensures Lists(Replay(ops), ops)
  {
    if ops != [] {
      var k := |ops| - 1;
      ListingAfterHistory(ops[..k]);
      assert ops == ops[..k] + [ops[k]];
      if ops[k].Save? {
        SaveLists(ops[..k], Replay(ops[..k]), ops[k]);
      } else {
        DeleteLists(ops[..k], Replay(ops[..k]), ops[k]);
      }
    }
  }

  /** Under a clock that does not run backwards the listing is in the order of `created_at`. */
  lemma ListingSortedByCreation<D(!new)>(ops: seq<Op<D>>)
    requires forall i, j | 0 <= i < j < |ops| && ops[i].Save? && ops[j].Save? :: ops[i].now <= ops[j].now
    ensures forall i, j | 0 <= i < j < |Replay(ops)| :: Replay(ops)[i].createdAt <= Replay(ops)[j].createdAt
  {
    ListingAfterHistory(ops);
    var rows := Replay(ops);
    forall i, j | 0 <= i < j < |rows| ensures rows[i].createdAt <= rows[j].createdAt {
      assert Current(ops, rows[i]) && Current(ops, rows[j]) && Before(ops, rows[i], rows[j]);
    }
  }
}
