/**
 * The remote /rfps collection as the client sees it: a table of records
 * with server-assigned identifiers, and what each request does to it and
 * answers. The server keeps one row per identifier, assigns a fresh
 * identifier and stamps its own clock on create, replaces every field on
 * update, and reports a missing row only on a read by identifier; update
 * and delete of a missing row succeed and change nothing.
 */
module Store {
  import opened Records

  /** The stored rows in listing order, and the identifier the next create will use. */
  datatype Table = Table(rows: seq<Record>, nextId: Id)

  ghost predicate UniqueIds(rows: seq<Record>) {
    forall i, j :: 0 <= i < j < |rows| ==> rows[i].id != rows[j].id
  }

  ghost predicate IdsBelow(rows: seq<Record>, bound: Id) {
    forall i :: 0 <= i < |rows| ==> rows[i].id < bound
  }

  /** At most one row per identifier, and no row uses an identifier not yet handed out. */
  ghost predicate ValidTable(t: Table) {
    UniqueIds(t.rows) && IdsBelow(t.rows, t.nextId)
  }

  ghost predicate Stored(rows: seq<Record>, id: Id) {
    exists i :: 0 <= i < |rows| && rows[i].id == id
  }

  /** The row with identifier id, if there is one. */
  function Find(rows: seq<Record>, id: Id): (r: Option<Record>)
    ensures r.Some? <==> Stored(rows, id)
    ensures r.Some? ==> r.value in rows && r.value.id == id
  {
    if rows == [] then None
    else if rows[0].id == id then Some(rows[0])
    else Find(rows[1..], id)
  }

  /** Full replacement of the fields of the row with identifier id; every other row, and the order, stay. */
  function Replace(rows: seq<Record>, id: Id, body: Fields): (r: seq<Record>)
    ensures |r| == |rows|
    ensures forall i :: 0 <= i < |rows| ==> r[i].id == rows[i].id
    ensures forall i :: 0 <= i < |rows| ==>
      r[i].fields == if rows[i].id == id then body else rows[i].fields
  {
    if rows == [] then []
    else
      [if rows[0].id == id then Record(id, body) else rows[0]] + Replace(rows[1..], id, body)
  }

  /** Deletion of the row with identifier id: exactly the other rows remain. */
  function Remove(rows: seq<Record>, id: Id): (r: seq<Record>)
    ensures |r| <= |rows|
    ensures forall x :: x in r <==> x in rows && x.id != id
    ensures UniqueIds(rows) ==> UniqueIds(r)
  {
    if rows == [] then []
    else if rows[0].id == id then Remove(rows[1..], id)
    else
      var rest := Remove(rows[1..], id);
      assert UniqueIds(rows) ==> forall x :: x in rest ==> x.id != rows[0].id by {
        if UniqueIds(rows) {
          forall x | x in rest ensures x.id != rows[0].id {
            var j :| 0 <= j < |rows[1..]| && rows[1..][j] == x;
            assert rows[j + 1] == x;
          }
        }
      }
      [rows[0]] + rest
  }

  /** The table after the server has handled req; reads and failed calls change nothing. */
  function Apply(t: Table, req: Request, outcome: Outcome): (r: Table)
    ensures outcome.Failed? || req.ListAll? || req.Get? ==> r == t
    ensures ValidTable(t) ==> ValidTable(r)
    ensures r.nextId >= t.nextId
  {
    if outcome.Failed? then t
    else match req
      case Create(body) =>
        Table(t.rows + [Record(t.nextId, body.(dateSubmitted := outcome.serverTime))], t.nextId + 1)
      case Update(id, body) => t.(rows := Replace(t.rows, id, body))
      case Delete(id) => t.(rows := Remove(t.rows, id))
      case _ => t
  }

  /** What the client receives for req, given the table before the server handled it. */
  function Respond(t: Table, req: Request, outcome: Outcome): (r: Response)
    ensures r.Failure? <==> outcome.Failed? || (req.Get? && !Stored(t.rows, req.id))
    ensures r.Failure? ==> r.error == if outcome.Failed? then TransportError else NotFound
    ensures outcome.Delivered? && req.ListAll? ==> r == Listed(t.rows)
    ensures r.Found? ==> req.Get? && r.record in t.rows && r.record.id == req.id
  {
    if outcome.Failed? then Failure(TransportError)
    else match req
      case ListAll => Listed(t.rows)
      case Get(id) =>
        (match Find(t.rows, id)
         case Some(row) => Found(row)
         case None => Failure(NotFound))
      case Create(body) => Saved(Record(t.nextId, body.(dateSubmitted := outcome.serverTime)))
      case Update(id, body) => Saved(Record(id, body))
      case Delete(_) => Done
  }

  /** In a table with one row per identifier, looking up a row's identifier finds that row. */
  lemma {:induction false} FindUnique(rows: seq<Record>, k: nat)
    requires UniqueIds(rows) && k < |rows|
    ensures Find(rows, rows[k].id) == Some(rows[k])
  {
    if k > 0 {
      assert rows[0].id != rows[k].id;
      assert UniqueIds(rows[1..]) by {
        forall i, j | 0 <= i < j < |rows[1..]| ensures rows[1..][i].id != rows[1..][j].id {
          assert rows[1..][i] == rows[i + 1] && rows[1..][j] == rows[j + 1];
        }
      }
      FindUnique(rows[1..], k - 1);
    }
  }

  /** Reading back a record right after creating it yields the created record: the submitted fields, with the server's clock as date. */
  lemma CreateThenGet(t: Table, body: Fields, serverTime: string, later: Outcome)
    requires ValidTable(t) && later.Delivered?
    ensures var created := Respond(t, Create(body), Delivered(serverTime));
      && created == Saved(Record(t.nextId, body.(dateSubmitted := serverTime)))
      && Respond(Apply(t, Create(body), Delivered(serverTime)), Get(created.record.id), later) == Found(created.record)
  {
    var rows := Apply(t, Create(body), Delivered(serverTime)).rows;
    FindUnique(rows, |rows| - 1);
  }

  /** Replacing the fields of a stored identifier makes it read back as exactly the new fields; a missing one stays missing. */
  lemma FindAfterReplace(rows: seq<Record>, id: Id, body: Fields)
    requires UniqueIds(rows)
    ensures Find(Replace(rows, id, body), id) == if Stored(rows, id) then Some(Record(id, body)) else None
  {
    var r := Replace(rows, id, body);
    if Stored(rows, id) {
      var k :| 0 <= k < |rows| && rows[k].id == id;
      assert r[k] == Record(id, body);
      assert UniqueIds(r) by {
        forall i, j | 0 <= i < j < |r| ensures r[i].id != r[j].id {
          assert r[i].id == rows[i].id && r[j].id == rows[j].id;
        }
      }
      FindUnique(r, k);
    } else {
      assert !Stored(r, id);
    }
  }

  /** After an update, reading the identifier yields exactly the new fields; an update of a missing row creates nothing. */
  lemma UpdateThenGet(t: Table, id: Id, body: Fields, outcome: Outcome, later: Outcome)
    requires ValidTable(t) && outcome.Delivered? && later.Delivered?
    ensures Respond(Apply(t, Update(id, body), outcome), Get(id), later)
      == if Stored(t.rows, id) then Found(Record(id, body)) else Failure(NotFound)
  {
    FindAfterReplace(t.rows, id, body);
  }

  /** After a delivered delete, the identifier reads as not found. */
  lemma DeleteThenGet(t: Table, id: Id, outcome: Outcome, later: Outcome)
    requires outcome.Delivered? && later.Delivered?
    ensures Respond(Apply(t, Delete(id), outcome), Get(id), later) == Failure(NotFound)
  {
  }

  /** Deleting twice leaves the same table as deleting once. */
  lemma {:induction false} RemoveTwice(rows: seq<Record>, id: Id)
    ensures Remove(Remove(rows, id), id) == Remove(rows, id)
  {
    if rows != [] {
      RemoveTwice(rows[1..], id);
    }
  }

  lemma DeleteIdempotent(t: Table, id: Id, first: Outcome, second: Outcome)
    requires first.Delivered? && second.Delivered?
    ensures Apply(Apply(t, Delete(id), first), Delete(id), second) == Apply(t, Delete(id), first)
  {
    RemoveTwice(t.rows, id);
  }

  /** Replacing one identifier's fields leaves every other identifier reading as before. */
  lemma FindOtherAfterReplace(rows: seq<Record>, id: Id, body: Fields, other: Id)
    requires UniqueIds(rows) && other != id
    ensures Find(Replace(rows, id, body), other) == Find(rows, other)
  {
    var r := Replace(rows, id, body);
    if Stored(rows, other) {
      var k :| 0 <= k < |rows| && rows[k].id == other;
      FindUnique(rows, k);
      assert r[k] == rows[k];
      assert UniqueIds(r) by {
        forall i, j | 0 <= i < j < |r| ensures r[i].id != r[j].id {
          assert r[i].id == rows[i].id && r[j].id == rows[j].id;
        }
      }
      FindUnique(r, k);
    } else {
      assert !Stored(r, other);
    }
  }

  /** Removing one identifier leaves every other identifier reading as before. */
  lemma FindOtherAfterRemove(rows: seq<Record>, id: Id, other: Id)
    requires UniqueIds(rows) && other != id
    ensures Find(Remove(rows, id), other) == Find(rows, other)
  {
    var r := Remove(rows, id);
    if Stored(rows, other) {
      var k :| 0 <= k < |rows| && rows[k].id == other;
      FindUnique(rows, k);
      assert rows[k] in r;
      var j :| 0 <= j < |r| && r[j] == rows[k];
      FindUnique(r, j);
    }
  }

  /** An update or delete of one identifier leaves what every other identifier reads unchanged. */
  lemma MutationIsolated(t: Table, req: Request, outcome: Outcome, other: Id)
    requires ValidTable(t) && outcome.Delivered?
    requires (req.Update? || req.Delete?) && other != req.id
    ensures Find(Apply(t, req, outcome).rows, other) == Find(t.rows, other)
  {
    if req.Update? {
      FindOtherAfterReplace(t.rows, req.id, req.body, other);
    } else {
      FindOtherAfterRemove(t.rows, req.id, other);
    }
  }

  /**
   * The JSON body the server writes for GET /rfps as written: the rows are
   * appended to a slice declared without elements, and Go encodes a slice
   * that never received an element as null, not as [].
   */
  function ListBodyAsWritten(rows: seq<Record>): (body: Option<seq<Record>>)
    ensures body.Some? ==> body.value == rows && rows != []
    ensures rows == [] ==> body == None
  {
    if rows == [] then None else Some(rows)
  }

  /** An empty table is listed as null, which the list screen stores as its snapshot and then fails to map over. */
  lemma EmptyTableListsAsNull(t: Table, outcome: Outcome)
    requires t.rows == [] && outcome.Delivered?
    ensures ListBodyAsWritten(t.rows) == None
    ensures Respond(t, ListAll, outcome) == Listed([])
  {
  }

  /**
   * The remote store: its table and the log of every request the client
   * has sent it, in order.
   */
  class RecordStore {
    var table: Table
    var log: seq<Request>

    ghost predicate Valid()
      reads this
    {
      ValidTable(table)
    }

    constructor (initial: Table)
      requires ValidTable(initial)
      ensures Valid() && table == initial && log == []
    {
      table := initial;
      log := [];
    }

    /** One request: it is logged, the server applies it (unless the call failed) and answers. */
    method Send(req: Request, outcome: Outcome) returns (resp: Response)
      requires Valid()
      modifies this
      ensures Valid()
      ensures log == old(log) + [req]
      ensures table == Apply(old(table), req, outcome)
      ensures resp == Respond(old(table), req, outcome)
    {
      resp := Respond(table, req, outcome);
      table := Apply(table, req, outcome);
      log := log + [req];
    }
  }
}
