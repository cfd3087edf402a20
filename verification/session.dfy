/** The document-tree session returned by `getDatabaseConnection`: the
    children of the selected node, the selection and its breadcrumb route,
    kept in step with the store by a refresh after every mutation. Each
    awaited store call is a sequential call on the store. */
module Database {
  import opened JsValues
  import opened Widgets
  import opened DocumentStore
  import opened Ordering
  import opened Route

  /** How an operation's promise settles: resolved, rejected with a store
      error status, or never (the route walk loops on a cyclic parent chain). */
  datatype Outcome = Done | Rejected(status: int) | Hangs

  /** The selector value of `fetchDocuments(arg)`: a missing argument
      (`undefined`) defaults to the current selection, and `?? false` then
      replaces only `null` and `undefined`. */
  function Selector(arg: Json, current: Json): (sel: Json)
    ensures sel != Undefined && sel != Null
    ensures current != Undefined && current != Null && arg == Undefined ==> sel == current
    ensures arg != Undefined && arg != Null ==> sel == arg
    ensures arg == Null || (arg == Undefined && (current == Undefined || current == Null)) ==> sel == Bool(false)
  {
    Coalesce(if arg == Undefined then current else arg, Bool(false))
  }

  /** `s` is what the listing shows for selector `sel`: each stored record
      whose `parent_id` equals `sel`, once, sorted by `order`. */
  ghost predicate IsListing(docs: map<string, Doc>, sel: Json, s: seq<Doc>)
  {
    multiset(s) == multiset(Selected(docs, sel)) && Sorted(s)
  }

  /** The `order` of a new child: 100 past the last listed child, 0 for the first. */
  function NextOrder(documents: seq<Doc>): Json
  {
    if |documents| == 0 then Num(0) else Plus100(documents[|documents| - 1].order)
  }

  /** The record `createDocument(value, widget)` posts under the id `id`. */
  function NewRecord(id: string, value: Json, widget: WidgetEntry, current: Json, documents: seq<Doc>): Doc
  {
    var isText := widget.index == "text";
    Doc(id,
        name := if isText then Str("") else value,
        value := if isText then value else widget.defaultValue,
        kind := Str(widget.index),
        indexValue := Bool(widget.indexValue),
        parentId := Coalesce(current, Bool(false)),
        order := NextOrder(documents))
  }

  /** The order arithmetic: over a sorted listing whose last key is a number,
      the new key is that number plus 100 and exceeds every numeric key
      listed; over an empty listing it is 0. */
  lemma NextOrderExceedsSiblings(documents: seq<Doc>)
    requires Sorted(documents)
    requires documents != [] ==> documents[|documents| - 1].order.Num?
    ensures documents == [] ==> NextOrder(documents) == Num(0)
    ensures documents != [] ==> NextOrder(documents) == Num(documents[|documents| - 1].order.n + 100)
    ensures forall i :: 0 <= i < |documents| && documents[i].order.Num? ==>
              documents[i].order.n < NextOrder(documents).n
  {
    forall i | 0 <= i < |documents| && documents[i].order.Num?
      ensures documents[i].order.n < NextOrder(documents).n
    {
      if i < |documents| - 1 {
        SortedNumbersNonDecreasing(documents, i, |documents| - 1);
      }
    }
  }

  /** The text-versus-other rule, for the entry of each registry kind: a text
      node keeps the input as its value and has an empty name; any other node
      is named by the input and starts from the kind's default value, which is
      `false` for a checkbox and absent otherwise. The stored type and index
      flag come from the registry. */
  lemma NewRecordByKind(id: string, input: Json, k: Kind, current: Json, documents: seq<Doc>)
    ensures var d := NewRecord(id, input, Entry(k), current, documents);
      && d.id == id
      && (k == Text ==> d.value == input && d.name == Str(""))
      && (k == Checkbox ==> d.name == input && d.value == Bool(false))
      && (k != Text && k != Checkbox ==> d.name == input && d.value == Undefined)
      && d.kind == Str(Key(k))
      && (d.indexValue == Bool(true) <==> k == Text || k == Link)
      && d.parentId == Coalesce(current, Bool(false))
      && d.order == NextOrder(documents)
  {
    KeyInjective(k, Text);
  }

  /** A new child is filed under the selector the next refresh queries, so
      the refresh lists it; the initial selection `''` is kept as it is, so
      a record created before any selection is not a root (`parent_id: false`). */
  lemma NewRecordIsSelected(id: string, value: Json, widget: WidgetEntry, current: Json, documents: seq<Doc>)
    ensures NewRecord(id, value, widget, current, documents).parentId == Selector(Undefined, current)
    ensures current == Str("") ==> NewRecord(id, value, widget, current, documents).parentId == Str("")
  {
  }

  /** Refreshing is idempotent: when the selected children carry distinct
      numeric `order` keys, every listing of them is the same sequence, so
      the operation's own refresh and the change feed's converge. */
  lemma ListingUnique(docs: map<string, Doc>, sel: Json, a: seq<Doc>, b: seq<Doc>)
    requires IsListing(docs, sel, a) && IsListing(docs, sel, b)
    requires forall d :: d in Selected(docs, sel) ==> d.order.Num?
    requires forall d, e :: d in Selected(docs, sel) && e in Selected(docs, sel) && d != e ==> d.order != e.order
    ensures a == b
  {
    forall i | 0 <= i < |a| ensures a[i].order.Num? {
      assert a[i] in multiset(a);
    }
    forall i, j | 0 <= i < j < |a| ensures a[i].order != a[j].order {
      assert a[i] in multiset(a) && a[j] in multiset(a);
      RepeatCounts(a, i, j);
      assert multiset(Selected(docs, sel))[a[j]] <= 1;
    }
    SortedUnique(a, b);
  }

  /** An element found at two positions occurs at least twice. */
  lemma RepeatCounts(s: seq<Doc>, i: int, j: int)
    requires 0 <= i < j < |s|
    ensures multiset(s)[s[j]] >= if s[i] == s[j] then 2 else 1
  {
    assert s == s[..i] + [s[i]] + s[i + 1..j] + [s[j]] + s[j + 1..];
  }

  /** A record whose id the store no longer holds is in no listing of it. */
  lemma RemovedNotListed(docs: map<string, Doc>, id: string, sel: Json, s: seq<Doc>)
    requires forall k :: k in docs ==> docs[k].id == k
    requires id !in docs && IsListing(docs, sel, s)
    ensures forall i :: 0 <= i < |s| ==> s[i].id != id
  {
    forall i | 0 <= i < |s| ensures s[i].id != id {
      assert s[i] in multiset(s);
      assert s[i] in docs.Values;
      var k :| k in docs && docs[k] == s[i];
    }
  }

  class Session {
    /** The logical database id the session was opened for. */
    const id: string
    /** The connection every operation uses. */
    const db: Store
    /** The listed children of the selected node. */
    var documents: seq<Doc>
    /** The selection; initially `''`. */
    var currentDocumentId: Json
    /** The breadcrumb of the selection, root first. */
    var currentRoute: seq<Crumb>

    /** `getDatabaseConnection(databaseId)` over an opened store. */
    constructor (databaseId: string, store: Store)
      ensures id == databaseId && db == store
      ensures documents == [] && currentDocumentId == Str("") && currentRoute == []
    {
      id := databaseId;
      db := store;
      documents := [];
      currentDocumentId := Str("");
      currentRoute := [];
    }

    /** The view after a refresh under selector `sel`, from the view
        (`oldDocs`, `oldRoute`) before it: while the store rejects, the view is
        untouched and the refresh rejects; otherwise the listing is rebuilt and
        the route is replaced by the walk's breadcrumb, or left as it was when
        the walk rejects or never ends. */
    ghost predicate RefreshedFrom(sel: Json, oldDocs: seq<Doc>, oldRoute: seq<Crumb>, o: Outcome)
      reads this, db
    {
      match db.fault
      case Some(s) => documents == oldDocs && currentRoute == oldRoute && o == Rejected(s)
      case None =>
        && IsListing(db.docs, sel, documents)
        && match Walk(db.docs, None, currentDocumentId, |db.docs| + 1)
           case Found(chain) => currentRoute == Reverse(chain) && o == Done
           case Failed(s) => currentRoute == oldRoute && o == Rejected(s)
           case Cycle => currentRoute == oldRoute && o == Hangs
    }

    /** `fetchCurrentDocumentRoute()`: walk up from the selection pushing
        `{id, name}`, stop at a falsy parent, then store the reversed list. A
        rejected lookup leaves the route as it was. */
    method FetchCurrentDocumentRoute() returns (o: Outcome)
      modifies this`currentRoute
      ensures match Walk(db.docs, db.fault, currentDocumentId, |db.docs| + 1)
        case Found(chain) => currentRoute == Reverse(chain) && o == Done
        case Failed(s) => currentRoute == old(currentRoute) && o == Rejected(s)
        case Cycle => currentRoute == old(currentRoute) && o == Hangs
    {
      var parentId := currentDocumentId;
      var route: seq<Crumb> := [];
      var fuel: nat := |db.docs| + 1;
      while Truthy(parentId)
        invariant Walk(db.docs, db.fault, currentDocumentId, |db.docs| + 1)
                  == Prepend(route, Walk(db.docs, db.fault, parentId, fuel))
        invariant currentRoute == old(currentRoute)
        decreases fuel
      {
        if fuel == 0 {
          return Hangs;
        }
        var got := db.Get(parentId);
        WalkStep(db.docs, db.fault, parentId, fuel, route);
        match got
        case Fail(s) =>
          return Rejected(s);
        case Ok(parent) =>
          route := route + [Crumb(parentId.s, parent.name)];
          parentId := parent.parentId;
          fuel := fuel - 1;
      }
      assert Walk(db.docs, db.fault, parentId, fuel) == Found([]);
      assert route + [] == route;
      currentRoute := Reverse(route);
      o := Done;
    }

    /** `fetchDocuments(arg)`: query the records under the selector, sort
        them by `order`, then rebuild the route. */
    method FetchDocuments(arg: Json) returns (o: Outcome)
      modifies this`documents, this`currentRoute
      ensures RefreshedFrom(Selector(arg, currentDocumentId), old(documents), old(currentRoute), o)
    {
      var found := db.Find(Selector(arg, currentDocumentId));
      match found
      case Fail(s) =>
        return Rejected(s);
      case Ok(list) =>
        documents := SortByOrder(list);
        o := FetchCurrentDocumentRoute();
    }

    /** The change-feed handler: every change notification refreshes the
        current selection. */
    method OnChange() returns (o: Outcome)
      modifies this`documents, this`currentRoute
      ensures RefreshedFrom(Selector(Undefined, currentDocumentId), old(documents), old(currentRoute), o)
    {
      o := FetchDocuments(Undefined);
    }

    /** `createDocument(value, widget)`: post one new child of the selection,
        under the id `newId` the store assigns, then refresh. */
    method CreateDocument(value: Json, widget: WidgetEntry, newId: string) returns (o: Outcome)
      requires db.Valid() && newId !in db.docs
      modifies this`documents, this`currentRoute, db
      ensures db.Valid() && currentDocumentId == old(currentDocumentId)
      ensures db.fault.None? ==>
        db.docs == old(db.docs)[newId := NewRecord(newId, value, widget, currentDocumentId, old(documents))]
      ensures db.fault.Some? ==> db.docs == old(db.docs)
      ensures RefreshedFrom(Selector(Undefined, currentDocumentId), old(documents), old(currentRoute), o)
      ensures db.fault.None? ==> NewRecord(newId, value, widget, currentDocumentId, old(documents)) in documents
    {
      var record := NewRecord(newId, value, widget, currentDocumentId, documents);
      var posted := db.Post(record);
      if posted.Fail? {
        return Rejected(posted.status);
      }
      o := FetchDocuments(Undefined);
      NewRecordIsSelected(newId, value, widget, currentDocumentId, old(documents));
      assert db.docs[newId] == record;
      assert record in Selected(db.docs, Selector(Undefined, currentDocumentId));
      assert record in multiset(documents);
    }

    /** `updateDocument(document, value)`: replace the record's value, write
        the whole record back, then refresh. `updated` is the caller's record
        after the assignment. */
    method UpdateDocument(document: Doc, value: Json) returns (o: Outcome, updated: Doc)
      requires db.Valid()
      modifies this`documents, this`currentRoute, db
      ensures db.Valid() && currentDocumentId == old(currentDocumentId)
      ensures updated == document.(value := value)
      ensures db.fault.None? ==> db.docs == old(db.docs)[document.id := updated]
      ensures db.fault.Some? ==> db.docs == old(db.docs)
      ensures RefreshedFrom(Selector(Undefined, currentDocumentId), old(documents), old(currentRoute), o)
    {
      updated := document.(value := value);
      var put := db.Put(updated);
      if put.Fail? {
        return Rejected(put.status), updated;
      }
      o := FetchDocuments(Undefined);
    }

    /** `deleteDocument(document)`: remove its record, and only it (children
        are not removed), then refresh. Removing a record that is not stored
        rejects with 404 and skips the refresh. */
    method DeleteDocument(document: Doc) returns (o: Outcome)
      requires db.Valid()
      modifies this`documents, this`currentRoute, db
      ensures db.Valid() && currentDocumentId == old(currentDocumentId)
      ensures db.fault.None? && document.id in old(db.docs) ==>
        && db.docs == old(db.docs) - {document.id}
        && RefreshedFrom(Selector(Undefined, currentDocumentId), old(documents), old(currentRoute), o)
      ensures db.fault.None? && document.id !in old(db.docs) ==>
        db.docs == old(db.docs) && documents == old(documents) && currentRoute == old(currentRoute)
        && o == Rejected(NotFound)
      ensures db.fault.Some? ==>
        db.docs == old(db.docs)
        && RefreshedFrom(Selector(Undefined, currentDocumentId), old(documents), old(currentRoute), o)
      ensures forall k :: k in old(db.docs) && k != document.id ==> k in db.docs && db.docs[k] == old(db.docs)[k]
    {
      var removed := db.Remove(document);
      if removed.Fail? {
        return Rejected(removed.status);
      }
      o := FetchDocuments(Undefined);
    }

    /** `setCurrentDocument(documentId)`: select, then refresh. */
    method SetCurrentDocument(documentId: Json) returns (o: Outcome)
      modifies this`currentDocumentId, this`documents, this`currentRoute
      ensures currentDocumentId == documentId
      ensures RefreshedFrom(Selector(Undefined, documentId), old(documents), old(currentRoute), o)
    {
      currentDocumentId := documentId;
      o := FetchDocuments(Undefined);
    }
  }
}
