/** The backing document store as the engine uses it: a finite map from `_id`
    to a flat record, with the point lookup, write, create, delete and
    selector query the engine calls, and `getOrCreateDoc` built on top. */
module DocumentStore {
  import opened JsValues

  /** A stored record `{_id, name, value, type, index_value, parent_id, order}`.
      Every field but the id may be absent (`Undefined`): `getOrCreateDoc`
      stores a bare `{_id}`. `type` is called `kind` here. */
  datatype Doc = Doc(id: string, name: Json, value: Json, kind: Json, indexValue: Json, parentId: Json, order: Json)

  /** The record `{_id: id}`. */
  function Blank(id: string): Doc
  {
    Doc(id, Undefined, Undefined, Undefined, Undefined, Undefined, Undefined)
  }

  /** What a store call answers: a value, or a rejection carrying an error status. */
  datatype Reply<+T> = Ok(value: T) | Fail(status: int)

  /** The status of a rejected lookup of a missing record. */
  const NotFound := 404

  /** The answer to `get(key)`: the record stored under the key, 404 when there
      is none (a key that is not a string names no record), or the backend's
      error status while it is failing. */
  function Answer(docs: map<string, Doc>, fault: Option<int>, key: Json): (r: Reply<Doc>)
    ensures r.Ok? <==> fault.None? && key.Str? && key.s in docs
    ensures r.Ok? ==> r.value == docs[key.s]
    ensures r.Fail? ==> r.status == if fault.Some? then fault.value else NotFound
  {
    match fault
    case Some(s) => Fail(s)
    case None => if key.Str? && key.s in docs then Ok(docs[key.s]) else Fail(NotFound)
  }

  /** The records a `find` with selector `{parent_id: sel}` matches. */
  function Selected(docs: map<string, Doc>, sel: Json): set<Doc>
  {
    set d | d in docs.Values && d.parentId == sel
  }

  /** Moving one record from the unvisited to the visited part of a query. */
  lemma SelectedStep(docs: map<string, Doc>, sel: Json, rest: set<Doc>, d: Doc)
    requires d in rest && rest <= docs.Values
    ensures d.parentId == sel ==>
      multiset(Selected(docs, sel) - (rest - {d})) == multiset(Selected(docs, sel) - rest) + multiset{d}
    ensures d.parentId != sel ==>
      multiset(Selected(docs, sel) - (rest - {d})) == multiset(Selected(docs, sel) - rest)
  {
    if d.parentId == sel {
      assert Selected(docs, sel) - (rest - {d}) == (Selected(docs, sel) - rest) + {d};
    } else {
      assert Selected(docs, sel) - (rest - {d}) == Selected(docs, sel) - rest;
    }
  }

  class Store {
    /** The stored records, by `_id`. */
    var docs: map<string, Doc>
    /** `Some(status)` while the backend rejects every call with `status`;
        `None` while it is reachable. */
    const fault: Option<int>

    /** Every record is stored under its own `_id`. */
    ghost predicate Valid()
      reads this
    {
      forall k :: k in docs ==> docs[k].id == k
    }

    constructor (docs: map<string, Doc>, fault: Option<int>)
      requires forall k :: k in docs ==> docs[k].id == k
      ensures Valid() && this.docs == docs && this.fault == fault
    {
      this.docs := docs;
      this.fault := fault;
    }

    /** `get(key)`. */
    method Get(key: Json) returns (r: Reply<Doc>)
      ensures r == Answer(docs, fault, key)
    {
      if fault.Some? {
        r := Fail(fault.value);
      } else if key.Str? && key.s in docs {
        r := Ok(docs[key.s]);
      } else {
        r := Fail(NotFound);
      }
    }

    /** `put(d)`: a full-document replace under `d`'s id. */
    method Put(d: Doc) returns (r: Reply<()>)
      requires Valid()
      modifies this
      ensures Valid()
      ensures fault.None? ==> r == Ok(()) && docs == old(docs)[d.id := d]
      ensures fault.Some? ==> r == Fail(fault.value) && docs == old(docs)
    {
      if fault.Some? {
        r := Fail(fault.value);
      } else {
        docs := docs[d.id := d];
        r := Ok(());
      }
    }

    /** `post(d)`: creates `d` under the id the store assigned to it, which no
        stored record has. */
    method Post(d: Doc) returns (r: Reply<()>)
      requires Valid() && d.id !in docs
      modifies this
      ensures Valid()
      ensures fault.None? ==> r == Ok(()) && docs == old(docs)[d.id := d]
      ensures fault.Some? ==> r == Fail(fault.value) && docs == old(docs)
    {
      if fault.Some? {
        r := Fail(fault.value);
      } else {
        docs := docs[d.id := d];
        r := Ok(());
      }
    }

    /** `remove(d)`: deletes the record stored under `d`'s id, and only it. */
    method Remove(d: Doc) returns (r: Reply<()>)
      requires Valid()
      modifies this
      ensures Valid()
      ensures fault.None? && d.id in old(docs) ==> r == Ok(()) && docs == old(docs) - {d.id}
      ensures fault.None? && d.id !in old(docs) ==> r == Fail(NotFound) && docs == old(docs)
      ensures fault.Some? ==> r == Fail(fault.value) && docs == old(docs)
    {
      if fault.Some? {
        r := Fail(fault.value);
      } else if d.id in docs {
        docs := docs - {d.id};
        r := Ok(());
      } else {
        r := Fail(NotFound);
      }
    }

    /** `find({selector: {parent_id: sel}})`: every matching record once, in
        no particular order. */
    method Find(sel: Json) returns (r: Reply<seq<Doc>>)
      ensures fault.Some? ==> r == Fail(fault.value)
      ensures fault.None? ==> r.Ok? && multiset(r.value) == multiset(Selected(docs, sel))
    {
      if fault.Some? {
        return Fail(fault.value);
      }
      var rest := docs.Values;
      var found: seq<Doc> := [];
      while rest != {}
        invariant rest <= docs.Values
        invariant multiset(found) == multiset(Selected(docs, sel) - rest)
        decreases |rest|
      {
        var d :| d in rest;
        SelectedStep(docs, sel, rest, d);
        if d.parentId == sel {
          found := found + [d];
        }
        rest := rest - {d};
      }
      r := Ok(found);
    }
  }

  /** `getOrCreateDoc(database, id)`: the stored record; on a 404 the bare
      record `{_id: id}` is written and read back; any other rejection of the
      first lookup answers `null` (`None`) and writes nothing. A rejection of
      the write or of the second lookup propagates. */
  method GetOrCreateDoc(db: Store, id: string) returns (r: Reply<Option<Doc>>)
    requires db.Valid()
    modifies db
    ensures db.Valid()
    ensures db.fault.None? && id in old(db.docs) ==> r == Ok(Some(old(db.docs)[id])) && db.docs == old(db.docs)
    ensures db.fault.None? && id !in old(db.docs) ==> r == Ok(Some(Blank(id))) && db.docs == old(db.docs)[id := Blank(id)]
    ensures db.fault.Some? && db.fault.value != NotFound ==> r == Ok(None) && db.docs == old(db.docs)
    ensures db.fault == Some(NotFound) ==> r == Fail(NotFound) && db.docs == old(db.docs)
  {
    var got := db.Get(Str(id));
    if got.Ok? {
      return Ok(Some(got.value));
    }
    if got.status != NotFound {
      return Ok(None);
    }
    var put := db.Put(Blank(id));
    if put.Fail? {
      return Fail(put.status);
    }
    got := db.Get(Str(id));
    match got
    case Ok(d) => r := Ok(Some(d));
    case Fail(s) => r := Fail(s);
  }
}
