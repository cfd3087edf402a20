/** A client of the session: select the root level, create a folder, select
    it, create a text node inside it. What it asserts follows from the
    operations' contracts alone. */
module Scenario {
  import opened JsValues
  import opened Widgets
  import opened DocumentStore
  import opened Ordering
  import opened Route
  import opened Database

  /** The only arrangement of a single record. */
  lemma Singleton(s: seq<Doc>, d: Doc)
    requires multiset(s) == multiset{d}
    ensures s == [d]
  {
    assert |s| == |multiset(s)| == 1;
    assert s[0] in multiset(s);
  }

  /** The listing of a selection with no children is empty. */
  lemma EmptyListing(docs: map<string, Doc>, sel: Json, s: seq<Doc>)
    requires IsListing(docs, sel, s) && Selected(docs, sel) == {}
    ensures s == []
  {
    assert |s| == |multiset(s)| == 0;
  }

  /** The values of a map with two keys. */
  lemma TwoValues(m: map<string, Doc>, k1: string, v1: Doc, k2: string, v2: Doc)
    requires k1 != k2 && m == map[k1 := v1, k2 := v2]
    ensures m.Values == {v1, v2}
  {
    assert m[k1] == v1 && m[k2] == v2;
  }

  /** From an empty store: select the root level, then create a folder there. */
  method SelectRootScenario()
  {
    var store := new Store(map[], None);
    var session := new Session("notes", store);
    var o := SelectRoot(session);
    CreateFolderAtRoot(session);
  }

  /** Selecting the root level of an empty store: no children, no route. */
  method SelectRoot(session: Session) returns (o: Outcome)
    requires session.db.fault.None? && session.db.docs == map[]
    modifies session`currentDocumentId, session`documents, session`currentRoute
    ensures session.currentDocumentId == Null && session.documents == []
    ensures session.currentRoute == [] && o == Done
  {
    o := session.SetCurrentDocument(Null);
    EmptyListing(session.db.docs, Bool(false), session.documents);
    assert Walk(session.db.docs, None, Null, 1) == Found([]);
  }

  /** Creating a folder at the root level: it is the one child listed, with
      order 0 and `parent_id: false`. */
  method CreateFolderAtRoot(session: Session)
    requires session.db.Valid() && session.db.fault.None? && session.db.docs == map[]
    requires session.currentDocumentId == Null && session.documents == []
    modifies session`documents, session`currentRoute, session.db
  {
    var store := session.db;
    var o := session.CreateDocument(Str("Notes"), Entry(Folder), "f1");
    var folder := NewRecord("f1", Str("Notes"), Entry(Folder), Null, []);
    NewRecordByKind("f1", Str("Notes"), Folder, Null, []);
    assert store.docs == map["f1" := folder];
    assert store.docs.Values == {folder};
    assert Selected(store.docs, Bool(false)) == {folder};
    Singleton(session.documents, folder);
    assert folder == NotesFolder();
  }

  /** The walk from a root folder `f1` finds the folder alone. */
  lemma FolderRoute(docs: map<string, Doc>, folder: Doc)
    requires "f1" in docs && docs["f1"] == folder
    requires folder.name == Str("Notes") && folder.parentId == Bool(false)
    ensures Walk(docs, None, Str("f1"), |docs| + 1) == Found([Crumb("f1", Str("Notes"))])
  {
    var route := [Crumb("f1", Str("Notes"))];
    assert IsRoute(docs, Str("f1"), route);
    RouteExact(docs, Str("f1"), route);
    ReverseTwice(route);
  }

  /** In a store of a root folder and one child of it, the folder's listing
      is that child. */
  lemma OneChildListed(docs: map<string, Doc>, folder: Doc, body: Doc, documents: seq<Doc>)
    requires docs == map["f1" := folder, "t1" := body]
    requires folder.parentId == Bool(false) && body.parentId == Str("f1")
    requires IsListing(docs, Str("f1"), documents)
    ensures documents == [body]
  {
    TwoValues(docs, "f1", folder, "t1", body);
    assert Selected(docs, Str("f1")) == {body};
    Singleton(documents, body);
  }

  /** The folder record the first scenario creates. */
  function NotesFolder(): Doc
  {
    Doc("f1", Str("Notes"), Undefined, Str("folder"), Bool(false), Bool(false), Num(0))
  }

  /** Continued from a store that holds the folder alone: select the folder,
      then create a text node in it. */
  method SelectFolderScenario()
  {
    var store := new Store(map["f1" := NotesFolder()], None);
    var session := new Session("notes", store);
    var o := SelectFolder(session);
    CreateTextInFolder(session);
  }

  /** Selecting the folder: no children yet, the route is the folder. */
  method SelectFolder(session: Session) returns (o: Outcome)
    requires session.db.Valid() && session.db.fault.None?
    requires session.db.docs == map["f1" := NotesFolder()]
    modifies session`currentDocumentId, session`documents, session`currentRoute
    ensures session.currentDocumentId == Str("f1") && session.documents == []
    ensures session.currentRoute == [Crumb("f1", Str("Notes"))] && o == Done
  {
    var store := session.db;
    o := session.SetCurrentDocument(Str("f1"));
    assert store.docs.Values == {NotesFolder()};
    assert Selected(store.docs, Str("f1")) == {};
    EmptyListing(store.docs, Str("f1"), session.documents);
    FolderRoute(store.docs, NotesFolder());
  }

  /** With the folder selected and empty, create a text node inside it: it is
      listed alone, first in order, and the route still is the folder. */
  method CreateTextInFolder(session: Session)
    requires session.db.Valid() && session.db.fault.None?
    requires session.db.docs == map["f1" := NotesFolder()]
    requires session.currentDocumentId == Str("f1") && session.documents == []
    modifies session`documents, session`currentRoute, session.db
  {
    var store := session.db;
    var o := session.CreateDocument(Str("body text"), Entry(Text), "t1");
    var body := NewRecord("t1", Str("body text"), Entry(Text), Str("f1"), []);
    NewRecordByKind("t1", Str("body text"), Text, Str("f1"), []);
    assert store.docs == map["f1" := NotesFolder(), "t1" := body];
    OneChildListed(store.docs, NotesFolder(), body, session.documents);
    assert body.value == Str("body text") && body.name == Str("") && body.order == Num(0);

    FolderRoute(store.docs, NotesFolder());
    assert o == Done && session.currentRoute == [Crumb("f1", Str("Notes"))];
  }
}
