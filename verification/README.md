# Document-tree engine of minderal, modelled in Dafny

minderal keeps a tree of typed widget nodes (text, folder, link, checkbox,
audio, counter, countdown, to-do) in a replicating document database. The
engine in `src/functions/database.js` opens a session over the database. The
session holds three pieces of state:

- the sorted children of the selected node (`documents`);
- the selection (`currentDocumentId`);
- the breadcrumb route from a root down to the selection (`currentRoute`).

Create, update and delete each do one store write; select only changes the
selection. Each of them then rebuilds that view from the store.
`src/enums/widgets.js` is the widget registry the engine reads when it
creates a node.

The model's modules, one file each:

- `json.dfy` (`JsValues`): the untyped JavaScript values that flow through the
  engine. It covers truthiness, `??` and `+ 100`.
- `widgets.dfy` (`Widgets`): the eight-kind registry and `getWidgetList`. It is
  pure, so it is written as datatypes and functions.
- `store.dfy` (`DocumentStore`): the backing database as a class over a map
  from `_id` to record. It has `get`, `put`, `post`, `remove` and a
  `find` by `parent_id`, plus `getOrCreateDoc` on top. `find` is a loop over
  the stored records.
- `ordering.dfy` (`Ordering`): the sort by `order`, specified as a sorted
  permutation.
- `route.dfy` (`Route`): the upward parent walk as a function, and the
  definition of a valid route (`IsRoute`). It proves that the walk finds
  exactly the valid route.
- `session.dfy` (`Database`): the session as a class with the three fields.
  Its methods are the engine's closures, and the route rebuild is a `while`
  loop proved against the walk function.
- `scenario.dfy` (`Scenario`): client methods that use the session. The
  facts they assert follow from the operations' contracts alone.

Each `await` on the store is a sequential method call on the `Store` object.
A store can be given a `fault`: while it is set, the backend rejects every
call with that status. This is how the model reaches the error paths, such
as the non-404 branch of `getOrCreateDoc` and a rejection that propagates
out of a refresh.

Two behaviours of the code that the model keeps as written:

- The comparator `a.order > b.order ? 1 : -1` (src/functions/database.js:36)
  is not consistent on ties or on non-numeric keys. The model fixes one
  allowed result: non-numeric keys first, then ascending numbers.
- `fetchDocuments` queries `{parent_id: <selection> ?? false}`
  (src/functions/database.js:34), and `createDocument` stores
  `currentDocumentId ?? false` as the new record's `parent_id`
  (src/functions/database.js:61). Only `null` and `undefined` are replaced,
  so the initial selection `''` acts as a parent id of its own, separate from
  the root marker `false` (`NewRecordIsSelected`).

## Model

| member | source | states |
|---|---|---|
| JsValues.Coalesce | src/functions/database.js:34 | `x ?? y` is `y` exactly when `x` is `null` or `undefined` (and differs from `y`); otherwise `x`, falsy or not |
| JsValues.Plus100 | src/functions/database.js:62 | JS `+ 100`: numbers add 100; the result is a number exactly when the operand is a number, `null` or a boolean |
| JsValues.NullishNotFalsy | src/functions/database.js:20 | the initial selection `''` and `false` are falsy, yet `?? y` keeps them unchanged |
| Widgets.Lookup | src/enums/widgets.js:1-43 | the row of each kind: `indexValue` holds exactly for text and link; only checkbox has a default value, and it is `false` |
| Widgets.KeyInjective | src/enums/widgets.js:1-43 | distinct kinds have distinct keys, so a kind is determined by its key |
| Widgets.KindOf | src/enums/widgets.js:1-43 | looking a key up gives the kind declared under it, and gives nothing exactly when no kind has that key |
| Widgets.GetWidgetList | src/enums/widgets.js:45-49 | 8 entries; entry `i` is the entry of the `i`-th declared key |
| Widgets.WidgetListRows | src/enums/widgets.js:46-48 | each entry's `index` is a declared key, and its label, icon, index flag and default are that key's row, unchanged |
| Widgets.WidgetListFlags | src/enums/widgets.js:2-42 | in the list, an entry is indexed exactly when its key is `text` or `link`, and has a default exactly when its key is `checkbox`, that default being `false` |
| Widgets.WidgetListCoversKinds | src/enums/widgets.js:45-49 | every kind appears in the list at its declaration position, and list indices are pairwise distinct |
| DocumentStore.Answer | src/functions/database.js:44 | `get` answers the stored record exactly when the backend is up and the key is a stored id; otherwise it rejects with the backend's status or 404 |
| DocumentStore.Store.Get | src/functions/database.js:44 | `get(key)` answers as `Answer` does and changes nothing |
| DocumentStore.Store.Put | src/functions/database.js:69 | `put(d)` stores `d` under its id and changes no other record; while the backend rejects, it fails and changes nothing |
| DocumentStore.Store.Post | src/functions/database.js:56-63 | `post(d)` adds `d` under an id no record had, and changes no other record |
| DocumentStore.Store.Remove | src/functions/database.js:74 | `remove(d)` deletes exactly `d`'s record; a record that is not stored gives 404 and no change |
| DocumentStore.Store.Find | src/functions/database.js:33-35 | `find` answers every stored record whose `parent_id` equals the selector, each exactly once (multiset equality) |
| DocumentStore.GetOrCreateDoc | src/functions/database.js:5-13 | a stored record is returned with the store unchanged; on 404 the store gains exactly `{_id: id}`, which is returned; any other error gives `null` and no write |
| Ordering.OrderLeTotalPreorder | src/functions/database.js:36 | the order used for the listing is reflexive, total and transitive |
| Ordering.SortedNumbersNonDecreasing | src/functions/database.js:36 | in a sorted listing, numeric `order` keys never decrease and no non-numeric key follows a numeric one |
| Ordering.InsertSorted | src/functions/database.js:36 | inserting one record into a sorted listing keeps it sorted |
| Ordering.SortByOrder | src/functions/database.js:36 | the sorted listing is a permutation of its input and is sorted by `order` |
| Ordering.SortedUnique | src/functions/database.js:36 | with numeric, pairwise distinct keys, two sorted permutations of the same records are equal |
| Database.Selector | src/functions/database.js:32-34 | the selector is `p ?? false` for the argument `p`, which defaults to the current selection: an argument that is neither `null` nor `undefined` is the selector itself; `null`, or no argument while the selection is `null` or `undefined`, gives `false`; no argument with any other selection gives that selection; the selector is never `null` or `undefined` |
| Database.ListingUnique | src/functions/database.js:32-38 | a refresh is idempotent: with distinct numeric keys under the selector, any two listings of the same store are the same sequence |
| Database.RemovedNotListed | src/functions/database.js:73-75 | after a record is removed, no listing of the store contains a record with its id |
| Database.NextOrderExceedsSiblings | src/functions/database.js:62 | a new key is 0 for an empty listing, otherwise the last key + 100, which exceeds every numeric key listed |
| Database.NewRecordByKind | src/functions/database.js:56-63 | text node: value = input, name = `''`; checkbox: name = input, value = `false`; other kinds: name = input, value absent; the type is the widget key, the index flag holds exactly for text and link, and `parent_id` is the selection `?? false` |
| Database.NewRecordIsSelected | src/functions/database.js:61 | a new record's `parent_id` is the selector of the next refresh; under the initial selection `''` it is `''`, not `false` |
| Route.WalkStep | src/functions/database.js:43-49 | one loop step: a rejected lookup ends the walk with its status; otherwise the walk pushes `{id, name}` and continues from the parent |
| Route.RouteSound | src/functions/database.js:40-51 | whatever breadcrumb the walk finds, reversed, is a valid route: it is empty iff the selection is falsy, ends with the selection, each crumb carries its record's name, each crumb's id is the next record's `parent_id`, and the first record's parent is falsy |
| Route.RouteComplete | src/functions/database.js:40-51 | every valid route that fits in the walk's steps is what the walk finds |
| Route.RouteIdsDistinct | src/functions/database.js:43-50 | a valid route visits no record twice |
| Route.RouteLengthBound | src/functions/database.js:43-50 | a valid route is no longer than the store, so `|docs| + 1` steps always suffice |
| Route.RouteExact | src/functions/database.js:40-51 | with the backend up, the walk finds a breadcrumb if and only if the selection has a valid route, and it is that route |
| Route.NoRouteWhenWalkFails | src/functions/database.js:44 | a walk that rejects or loops leaves the selection with no valid route at all |
| Route.WalkFailsIffMissingAncestor | src/functions/database.js:43-50 | the walk rejects if and only if a truthy id on the parent chain names no stored record, and then it rejects with 404 |
| Route.OrphanHasNoRoute | src/functions/database.js:73-76 | a child whose parent was deleted has no valid route (delete does not cascade) |
| Database.Session.constructor | src/functions/database.js:19-21 | a new session has an empty listing, the selection `''` and an empty route |
| Database.Session.FetchCurrentDocumentRoute | src/functions/database.js:40-52 | the loop stores the reverse of the walk's breadcrumb; if a lookup rejects or the chain loops, the route is left as it was |
| Database.Session.FetchDocuments | src/functions/database.js:32-38 | with the backend up, the listing is exactly the selector's children, sorted by `order`, and the route is rebuilt; while the backend rejects, nothing changes |
| Database.Session.OnChange | src/functions/database.js:26-27 | a change notification refreshes the current selection |
| Database.Session.CreateDocument | src/functions/database.js:54-65 | the store gains exactly the new record under a fresh id, with all other records unchanged; the refreshed listing contains it |
| Database.Session.UpdateDocument | src/functions/database.js:67-71 | only the given record changes, and only its `value`; then the view is refreshed |
| Database.Session.DeleteDocument | src/functions/database.js:73-76 | only the given record is removed (its children stay); then the view is refreshed; a record that is not stored rejects with 404 and skips the refresh |
| Database.Session.SetCurrentDocument | src/functions/database.js:78-81 | the selection becomes the argument before the refresh, and the refresh lists its children |

## Left out

- PouchDB construction and the connection-info lookup (src/functions/database.js:16-18). These are foreign-library and I/O calls; the session takes an already opened `Store`.
- The live change subscription and its error logger (src/functions/database.js:23-30). These are event wiring. Only the handler is modelled, as `OnChange`.
- Vue `ref` reactivity. The three refs are plain fields of `Session`.
- Interleaving between a refresh driven by the change feed and one driven by an operation. The model is sequential.
- Revisions (`_rev`), update conflicts, deleted-document tombstones and replication. `put` always succeeds while the backend is up.
- Backend failures are modelled only as a backend that rejects every call with one status (`Store.fault`), not as failures of single calls.
- Ordering.SortByOrder: fixes one admissible result of `Array.prototype.sort` with the comparator `a.order > b.order ? 1 : -1`. JavaScript's own placement of ties and of non-numeric keys (strings compared as text, mixed types coerced) is not modelled; the model puts non-numeric keys first and keeps ties in input order.
- JsValues.Plus100: JavaScript numbers are modelled as integers. Fractional `order` keys and float rounding are not modelled, and neither is number-to-string conversion when `order` is a string.
- Database.Session.FetchCurrentDocumentRoute: the source loop never ends on a cyclic parent chain. The model gives the walk `|docs| + 1` steps and reports a cycle as the outcome `Hangs`, with the route unchanged. `RouteLengthBound` shows that no chain that reaches a root needs more steps; that a walk out of steps would never end with more steps is not proved.
- DocumentStore.Answer: a truthy selection that is not a string (a number, `true`) is answered with 404, as a missing id would be.
- Database.Session.CreateDocument: the id the store assigns on `post` is a parameter `newId`, required to be unused.
- Database.Session.UpdateDocument: the source assigns `value` on the caller's own object. The model works on values and returns the updated record as `updated`, so aliasing of that object is not captured.
- The `id` field of the returned session is kept as `Session.id`; nothing reads it.
- The widget field `label` is named `labelText`, because `label` is a Dafny keyword.
