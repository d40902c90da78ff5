/** The main-process document-store wrapper (`Database`). The PouchDB
    engine behind it is abstract: a map from id to the latest revision of
    each document (tombstones included), an engine error the read may raise
    instead of answering, and a `put` oracle that accepts or refuses a
    write and hands out the new revision. */
module DocumentStore {
  import opened Wrappers

  const DefaultQueryLimit := 20
  const DefaultQueryOrder := "asc"
  const DefaultDateField := "created"

  /** A document field value: a string, a number or a list of strings (an
      album's track paths, a playlist's album ids). */
  datatype Value = Str(s: string) | Num(n: int) | Strs(items: seq<string>)

  /** A document: `_id`, `_rev`, `_deleted` and every other field. */
  datatype Doc = Doc(id: Option<string>, rev: Option<string>, deleted: bool, fields: map<string, Value>)

  /** `{}`, the record `get` answers for a missing document. */
  const EmptyDoc := Doc(None, None, false, map[])

  /** A rejected promise: an engine error passed on, or the wrapper's own
      `DatabaseError`. */
  datatype DbError = Rethrown(name: string) | DatabaseError(message: string)

  /** What `db.put` does: answer `ok` and the new revision, or reject its
      promise with a named engine error (a conflicting concurrent write, a
      storage failure). */
  datatype PutResponse = PutResponse(ok: bool, rev: string) | PutRejected(name: string)

  /** The engine stored the write. */
  predicate Accepted(response: PutResponse) {
    response.PutResponse? && response.ok
  }

  /** The documents persisted under a database's path: each under its own id
      and with a revision. */
  ghost predicate Persisted(docs: map<string, Doc>) {
    forall k :: k in docs ==> docs[k].id == Some(k) && docs[k].rev.Some?
  }

  /** One row of `allDocs({ keys, include_docs })`. */
  datatype Row = Row(error: bool, doc: Option<Doc>)

  /** JavaScript truthiness of an optional string. */
  predicate Truthy(s: Option<string>) {
    s.Some? && s.value != ""
  }

  /** A template literal prints a missing value as `undefined`. */
  function Show(s: Option<string>): string {
    if s.Some? then s.value else "undefined"
  }

  /** The document `save` hands to `put`: the caller's fields and `_id`,
      with the stored revision when there is one and no revision otherwise. */
  function SavePayload(entity: Doc, stored: Doc): (p: Doc)
    ensures p.id == entity.id && p.deleted == entity.deleted && p.fields == entity.fields
    ensures Truthy(stored.rev) ==> p.rev == stored.rev
    ensures !Truthy(stored.rev) ==> p.rev.None?
  {
    if Truthy(stored.rev) then entity.(rev := stored.rev) else entity.(rev := None)
  }

  /** The caller's `_rev` plays no part in what `save` writes. */
  lemma SavePayloadIgnoresCallerRev(entity: Doc, rev: Option<string>, stored: Doc)
    ensures SavePayload(entity.(rev := rev), stored) == SavePayload(entity, stored)
    ensures SavePayload(entity, stored).(rev := entity.rev) == entity
  {
  }

  /** A row `getList` keeps: no error and a document. */
  predicate Usable(row: Row) {
    !row.error && row.doc.Some?
  }

  /** `rows.filter(row => !row.error && row.doc).map(row => row.doc)`. */
  function ListedDocs(rows: seq<Row>): (r: seq<Doc>)
    ensures |r| <= |rows|
    ensures forall d :: d in r <==> exists j :: 0 <= j < |rows| && Usable(rows[j]) && rows[j].doc.value == d
    ensures |r| == |rows| <==> forall j :: 0 <= j < |rows| ==> Usable(rows[j])
  {
    if rows == [] then []
    else
      var rest := ListedDocs(rows[1..]);
      assert forall j :: 1 <= j < |rows| ==> rows[j] == rows[1..][j - 1];
      assert forall j :: 0 <= j < |rows| - 1 ==> rows[1..][j] == rows[j + 1];
      (if Usable(rows[0]) then [rows[0].doc.value] else []) + rest
  }

  /** The rows are filtered one by one, so the kept documents stay in row
      order. */
  lemma {:induction false} ListedDocsConcat(a: seq<Row>, b: seq<Row>)
    ensures ListedDocs(a + b) == ListedDocs(a) + ListedDocs(b)
  {
    if a == [] {
      assert a + b == b;
    } else {
      assert (a + b)[0] == a[0] && (a + b)[1..] == a[1..] + b;
      ListedDocsConcat(a[1..], b);
      var h := if Usable(a[0]) then [a[0].doc.value] else [];
      assert ListedDocs(a + b) == h + (ListedDocs(a[1..]) + ListedDocs(b));
      assert h + (ListedDocs(a[1..]) + ListedDocs(b)) == (h + ListedDocs(a[1..])) + ListedDocs(b);
    }
  }

  /** `deleteBulk`'s payload: every entity marked `_deleted: true`. */
  function Tombstones(entities: seq<Doc>): (r: seq<Doc>)
    ensures |r| == |entities|
    ensures forall i :: 0 <= i < |r| ==> r[i].deleted
    ensures forall i :: 0 <= i < |r| ==> r[i].(deleted := entities[i].deleted) == entities[i]
  {
    if entities == [] then [] else [entities[0].(deleted := true)] + Tombstones(entities[1..])
  }

  /** The query `getLatest` sends: `{ [field]: { $gt: after } }` sorted on
      the same field. */
  datatype LatestQuery = LatestQuery(field: string, after: int, sortField: string, order: string, limit: int)

  /** `getLatest`'s parameters with their defaults: the date field is
      `created`, the limit 20, the order `asc` and `dateFrom` now. */
  function LatestQueryOf(dateFrom: Option<int>, dateField: Option<string>, limit: Option<int>,
                         order: Option<string>, now: int): (q: LatestQuery)
    ensures q.field == q.sortField
    ensures q.field == dateField.GetOr(DefaultDateField) && q.after == dateFrom.GetOr(now)
    ensures q.limit == limit.GetOr(DefaultQueryLimit) && q.order == order.GetOr(DefaultQueryOrder)
  {
    var field := dateField.GetOr(DefaultDateField);
    LatestQuery(field, dateFrom.GetOr(now), field, order.GetOr(DefaultQueryOrder), limit.GetOr(DefaultQueryLimit))
  }

  class Database {
    /** The latest revision of every document, tombstones included. */
    var docs: map<string, Doc>

    /** Every stored document carries its own key and a revision. */
    ghost predicate Valid()
      reads this
    {
      Persisted(docs)
    }

    /** `new LocalPouchDB(name)` with the path as prefix: the store opens on
        whatever an earlier run left at that path. */
    constructor (persisted: map<string, Doc>)
      requires Persisted(persisted)
      ensures docs == persisted && Valid()
    {
      docs := persisted;
    }

    /** A document the engine reads back: stored and not a tombstone. */
    predicate Live(id: string)
      reads this
    {
      id in docs && !docs[id].deleted
    }

    /** `get(_id)`: the engine's answer, `{}` for `not_found`, and any other
        engine error passed on. `failure` is the error the engine raises
        instead of reading; with none it reports `not_found` for a missing
        or deleted document. */
    function Get(id: string, failure: Option<string>): (r: Result<Doc, DbError>)
      reads this
      ensures r.Failure? <==> failure.Some? && failure.value != "not_found"
      ensures r.Failure? ==> r.error == Rethrown(failure.value)
      ensures failure.None? && Live(id) ==> r == Success(docs[id])
      ensures failure.None? && !Live(id) ==> r == Success(EmptyDoc)
      ensures failure == Some("not_found") ==> r == Success(EmptyDoc)
    {
      var fetched: Result<Doc, string> :=
        if failure.Some? then Failure(failure.value)
        else if Live(id) then Success(docs[id])
        else Failure("not_found");
      match fetched
      case Success(doc) => Success(doc)
      case Failure(name) => if name == "not_found" then Success(EmptyDoc) else Failure(Rethrown(name))
    }

    /** `db.put(payload)`: an accepted write of a document with an id stores
        it under that id with the new revision; a refused or rejected one
        stores nothing. */
    method Put(payload: Doc, response: PutResponse)
      modifies this
      ensures Accepted(response) && payload.id.Some? ==>
                docs == old(docs)[payload.id.value := payload.(rev := Some(response.rev))]
      ensures !(Accepted(response) && payload.id.Some?) ==> docs == old(docs)
    {
      if Accepted(response) && payload.id.Some? {
        docs := docs[payload.id.value := payload.(rev := Some(response.rev))];
      }
    }

    /** `getList(ids)`: the live documents among `ids`, in the order of
        `ids`; the rows of missing or deleted ones are dropped. */
    function Rows(ids: seq<string>): (rows: seq<Row>)
      reads this
      ensures |rows| == |ids|
      ensures forall i :: 0 <= i < |ids| ==> (Usable(rows[i]) <==> Live(ids[i]))
      ensures forall i :: 0 <= i < |ids| && Live(ids[i]) ==> rows[i].doc == Some(docs[ids[i]])
    {
      seq(|ids|, i requires 0 <= i < |ids| reads this =>
        if ids[i] !in docs then Row(true, None)
        else if docs[ids[i]].deleted then Row(false, None)
        else Row(false, Some(docs[ids[i]])))
    }

    function GetList(ids: seq<string>): (r: seq<Doc>)
      reads this
      ensures |r| <= |ids|
      ensures forall d :: d in r ==> exists i :: 0 <= i < |ids| && Live(ids[i]) && docs[ids[i]] == d
      ensures forall i :: 0 <= i < |ids| && Live(ids[i]) ==> docs[ids[i]] in r
      ensures |r| == |ids| <==> forall i :: 0 <= i < |ids| ==> Live(ids[i])
    {
      ListedDocs(Rows(ids))
    }

    /** `save(entity)`: read the stored document, write the caller's fields
        under the stored revision (the caller's own `_rev` is ignored), and
        answer the entity with the new revision, `DatabaseError` when the
        write is not ok, or the engine's error when `put` rejects. */
    method Save(entity: Doc, getFailure: Option<string>, put: Doc -> PutResponse)
      returns (r: Result<Doc, DbError>)
      requires entity.id.Some?
      requires Valid()
      modifies this
      ensures Valid()
      ensures old(Get(entity.id.value, getFailure)).Failure? ==>
                r == Failure(old(Get(entity.id.value, getFailure)).error) && docs == old(docs)
      ensures old(Get(entity.id.value, getFailure)).Success? ==>
                var response := put(SavePayload(entity, old(Get(entity.id.value, getFailure)).value));
                (response.PutRejected? ==> r == Failure(Rethrown(response.name)) && docs == old(docs)) &&
                (Accepted(response) ==>
                   r == Success(entity.(rev := Some(response.rev))) &&
                   docs == old(docs)[entity.id.value := entity.(rev := Some(response.rev))]) &&
                (response.PutResponse? && !response.ok ==>
                   r == Failure(DatabaseError("Problems persisting entity: " + entity.id.value + " - " + Show(entity.rev))) &&
                   docs == old(docs))
      ensures r.Success? && !entity.deleted ==> Get(entity.id.value, None) == r
    {
      var id := entity.id.value;
      var read := Get(id, getFailure);
      if read.Failure? {
        return Failure(read.error);
      }
      var payload: Doc;
      if Truthy(read.value.rev) {
        payload := entity.(rev := read.value.rev);
      } else {
        payload := entity.(rev := None);
      }
      assert payload == SavePayload(entity, read.value);
      var response := put(payload);
      if response.PutRejected? {
        return Failure(Rethrown(response.name));
      }
      Put(payload, response);
      assert payload.(rev := Some(response.rev)) == entity.(rev := Some(response.rev));
      if response.ok {
        return Success(entity.(rev := Some(response.rev)));
      }
      return Failure(DatabaseError("Problems persisting entity: " + id + " - " + Show(entity.rev)));
    }

    /** `delete(entity)`: write the stored document (not the caller's) as a
        tombstone and answer that document with the new revision,
        `DatabaseError` when the write is not ok, or the engine's error when
        `put` rejects. */
    method Delete(entity: Doc, getFailure: Option<string>, put: Doc -> PutResponse)
      returns (r: Result<Doc, DbError>)
      requires entity.id.Some?
      requires Valid()
      modifies this
      ensures Valid()
      ensures old(Get(entity.id.value, getFailure)).Failure? ==>
                r == Failure(old(Get(entity.id.value, getFailure)).error) && docs == old(docs)
      ensures old(Get(entity.id.value, getFailure)).Success? ==>
                var doc := old(Get(entity.id.value, getFailure)).value;
                var response := put(doc.(deleted := true));
                (response.PutRejected? ==> r == Failure(Rethrown(response.name))) &&
                (Accepted(response) ==> r == Success(doc.(rev := Some(response.rev)))) &&
                (Accepted(response) && doc.id.Some? ==>
                   docs == old(docs)[doc.id.value := doc.(deleted := true, rev := Some(response.rev))]) &&
                (!(Accepted(response) && doc.id.Some?) ==> docs == old(docs)) &&
                (response.PutResponse? && !response.ok ==>
                   r == Failure(DatabaseError("Problems deleting entity: " + Show(doc.id) + " - " + Show(doc.rev))))
      ensures r.Success? && getFailure.None? ==> Get(entity.id.value, None) == Success(EmptyDoc)
    {
      var read := Get(entity.id.value, getFailure);
      if read.Failure? {
        return Failure(read.error);
      }
      var doc := read.value;
      var response := put(doc.(deleted := true));
      if response.PutRejected? {
        return Failure(Rethrown(response.name));
      }
      Put(doc.(deleted := true), response);
      if response.ok {
        return Success(doc.(rev := Some(response.rev)));
      }
      return Failure(DatabaseError("Problems deleting entity: " + Show(doc.id) + " - " + Show(doc.rev)));
    }
  }
}
