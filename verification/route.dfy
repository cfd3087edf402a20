/** The breadcrumb route: starting at the selected id, look each record up,
    record `{id, name}`, move to its `parent_id`, stop at the first falsy
    parent, and reverse. The source loop has no bound and runs forever on a
    cyclic parent chain; the model gives it `|docs| + 1` steps, which every
    chain that ends needs at most (`RouteLengthBound`), and reports a walk
    that would go on as `Cycle`. */
module Route {
  import opened JsValues
  import opened DocumentStore

  /** One breadcrumb `{id, name}`. */
  datatype Crumb = Crumb(id: string, name: Json)

  /** How a walk ends: the crumbs it pushed (selected node first), the status
      of the lookup that rejected, or out of steps on a cycle. */
  datatype Walked = Found(chain: seq<Crumb>) | Failed(status: int) | Cycle

  function Reverse<T>(s: seq<T>): (r: seq<T>)
    ensures |r| == |s|
    ensures forall i :: 0 <= i < |s| ==> r[i] == s[|s| - 1 - i]
  {
    if s == [] then [] else Reverse(s[1..]) + [s[0]]
  }

  /** Crumbs pushed before a walk's remainder. */
  function Prepend(chain: seq<Crumb>, w: Walked): Walked
  {
    match w
    case Found(rest) => Found(chain + rest)
    case _ => w
  }

  /** The upward walk from `p` with at most `fuel` lookups. */
  function Walk(docs: map<string, Doc>, fault: Option<int>, p: Json, fuel: nat): Walked
    decreases fuel
  {
    if !Truthy(p) then Found([])
    else if fuel == 0 then Cycle
    else
      match Answer(docs, fault, p)
      case Fail(s) => Failed(s)
      case Ok(d) => Prepend([Crumb(p.s, d.name)], Walk(docs, fault, d.parentId, fuel - 1))
  }

  /** One step of the walk from a truthy id. */
  lemma WalkStep(docs: map<string, Doc>, fault: Option<int>, p: Json, fuel: nat, chain: seq<Crumb>)
    requires Truthy(p) && fuel > 0
    ensures Answer(docs, fault, p).Fail? ==>
      Prepend(chain, Walk(docs, fault, p, fuel)) == Failed(Answer(docs, fault, p).status)
    ensures Answer(docs, fault, p).Ok? ==>
      var d := Answer(docs, fault, p).value;
      Prepend(chain, Walk(docs, fault, p, fuel))
      == Prepend(chain + [Crumb(p.s, d.name)], Walk(docs, fault, d.parentId, fuel - 1))
  {
    if Answer(docs, fault, p).Ok? {
      var d := Answer(docs, fault, p).value;
      var w := Walk(docs, fault, d.parentId, fuel - 1);
      if w.Found? {
        assert chain + ([Crumb(p.s, d.name)] + w.chain) == (chain + [Crumb(p.s, d.name)]) + w.chain;
      }
    }
  }

  /** `route` is a root-first breadcrumb of the selection `sel`: empty exactly
      when `sel` is falsy; otherwise it ends with `sel` itself, every crumb
      names a stored record and carries its name, each crumb's id is the
      `parent_id` of the next crumb's record, and the first crumb's record has
      a falsy `parent_id`. */
  ghost predicate IsRoute(docs: map<string, Doc>, sel: Json, route: seq<Crumb>)
  {
    && (route == [] <==> !Truthy(sel))
    && (route != [] ==> sel == Str(route[|route| - 1].id))
    && (forall i :: 0 <= i < |route| ==>
          route[i].id != "" && route[i].id in docs && route[i].name == docs[route[i].id].name)
    && (forall i :: 0 < i < |route| ==> docs[route[i].id].parentId == Str(route[i - 1].id))
    && (route != [] ==> !Truthy(docs[route[0].id].parentId))
  }

  /** A route of `q` extended by a record whose parent is `q`. */
  lemma RouteExtend(docs: map<string, Doc>, q: Json, route: seq<Crumb>, id: string)
    requires IsRoute(docs, q, route)
    requires id != "" && id in docs && docs[id].parentId == q
    ensures IsRoute(docs, Str(id), route + [Crumb(id, docs[id].name)])
  {
    var r := route + [Crumb(id, docs[id].name)];
    forall i | 0 < i < |r| ensures docs[r[i].id].parentId == Str(r[i - 1].id) {
      if i < |route| {
        assert r[i] == route[i] && r[i - 1] == route[i - 1];
      }
    }
  }

  /** A route without its last crumb is a route of that crumb's parent. */
  lemma RouteTrim(docs: map<string, Doc>, sel: Json, route: seq<Crumb>)
    requires IsRoute(docs, sel, route) && route != []
    ensures IsRoute(docs, docs[route[|route| - 1].id].parentId, route[..|route| - 1])
  {
    var r := route[..|route| - 1];
    RouteLastLink(docs, sel, route);
    if |route| > 1 {
      assert r[|r| - 1] == route[|route| - 2];
      assert r[0] == route[0];
    }
    forall i | 0 <= i < |r| ensures r[i].id != "" && r[i].id in docs && r[i].name == docs[r[i].id].name {
      assert r[i] == route[i];
    }
    forall i | 0 < i < |r| ensures docs[r[i].id].parentId == Str(r[i - 1].id) {
      assert r[i] == route[i] && r[i - 1] == route[i - 1];
    }
  }

  /** Every breadcrumb the walk produces is a route of the selection. */
  lemma {:induction false} RouteSound(docs: map<string, Doc>, fault: Option<int>, p: Json, fuel: nat)
    requires Walk(docs, fault, p, fuel).Found?
    ensures IsRoute(docs, p, Reverse(Walk(docs, fault, p, fuel).chain))
    decreases fuel
  {
    if Truthy(p) {
      var d := docs[p.s];
      RouteSound(docs, fault, d.parentId, fuel - 1);
      var rest := Walk(docs, fault, d.parentId, fuel - 1).chain;
      RouteExtend(docs, d.parentId, Reverse(rest), p.s);
      var c := [Crumb(p.s, d.name)] + rest;
      assert Walk(docs, fault, p, fuel).chain == c;
      assert c[1..] == rest;
    }
  }

  lemma {:induction false} ReverseSnoc<T>(s: seq<T>, x: T)
    ensures Reverse(s + [x]) == [x] + Reverse(s)
  {
    var r := Reverse(s + [x]);
    assert r[0] == x;
    assert forall i :: 1 <= i < |r| ==> r[i] == Reverse(s)[i - 1];
  }

  /** With a reachable store, the walk finds every route that fits in its steps. */
  lemma {:induction false} RouteComplete(docs: map<string, Doc>, p: Json, route: seq<Crumb>, fuel: nat)
    requires IsRoute(docs, p, route) && |route| <= fuel
    ensures Walk(docs, None, p, fuel) == Found(Reverse(route))
    decreases |route|
  {
    if route != [] {
      var last := route[|route| - 1];
      var front := route[..|route| - 1];
      var d := docs[last.id];
      RouteTrim(docs, p, route);
      RouteComplete(docs, d.parentId, front, fuel - 1);
      assert Walk(docs, None, p, fuel) == Prepend([Crumb(last.id, d.name)], Walk(docs, None, d.parentId, fuel - 1));
      assert route == front + [last];
      ReverseSnoc(front, last);
    }
  }

  /** A route never visits a record twice. */
  lemma {:induction false} RouteIdsDistinct(docs: map<string, Doc>, sel: Json, route: seq<Crumb>, i: int, j: int)
    requires IsRoute(docs, sel, route) && 0 <= i < j < |route|
    ensures route[i].id != route[j].id
    decreases i
  {
    if i == 0 {
      assert docs[route[j].id].parentId == Str(route[j - 1].id);
      assert route[j - 1].id != "";
      assert Truthy(docs[route[j].id].parentId);
    } else {
      RouteIdsDistinct(docs, sel, route, i - 1, j - 1);
    }
  }

  /** Distinct ids in a sequence are as many as its elements. */
  lemma {:induction false} DistinctCount(ids: seq<string>)
    requires forall i, j :: 0 <= i < j < |ids| ==> ids[i] != ids[j]
    ensures |set i | 0 <= i < |ids| :: ids[i]| == |ids|
  {
    if ids != [] {
      var front := ids[..|ids| - 1];
      DistinctCount(front);
      var s := set i | 0 <= i < |ids| :: ids[i];
      var t := set i | 0 <= i < |front| :: front[i];
      assert s == t + {ids[|ids| - 1]};
      assert ids[|ids| - 1] !in t;
    }
  }

  /** A route is no longer than the store is large. */
  lemma RouteLengthBound(docs: map<string, Doc>, sel: Json, route: seq<Crumb>)
    requires IsRoute(docs, sel, route)
    ensures |route| <= |docs|
  {
    var ids := seq(|route|, i requires 0 <= i < |route| => route[i].id);
    forall i, j | 0 <= i < j < |ids| ensures ids[i] != ids[j] {
      RouteIdsDistinct(docs, sel, route, i, j);
    }
    DistinctCount(ids);
    var s := set i | 0 <= i < |ids| :: ids[i];
    assert s <= docs.Keys;
    assert |s| <= |docs.Keys| by {
      SubsetCard(s, docs.Keys);
    }
  }

  lemma {:induction false} SubsetCard(a: set<string>, b: set<string>)
    requires a <= b
    ensures |a| <= |b|
    decreases |a|
  {
    if a != {} {
      var x :| x in a;
      SubsetCard(a - {x}, b - {x});
    }
  }

  /** With a reachable store, the walk the engine runs (`|docs| + 1` steps)
      finds a breadcrumb exactly when the selection has a route, and then the
      route it finds. */
  lemma RouteExact(docs: map<string, Doc>, p: Json, route: seq<Crumb>)
    ensures IsRoute(docs, p, route) <==> Walk(docs, None, p, |docs| + 1) == Found(Reverse(route))
  {
    if IsRoute(docs, p, route) {
      RouteLengthBound(docs, p, route);
      RouteComplete(docs, p, route, |docs| + 1);
    }
    if Walk(docs, None, p, |docs| + 1) == Found(Reverse(route)) {
      RouteSound(docs, None, p, |docs| + 1);
      ReverseTwice(route);
    }
  }

  lemma {:induction false} ReverseTwice<T>(s: seq<T>)
    ensures Reverse(Reverse(s)) == s
  {
  }

  /** A walk that rejects or runs out of steps leaves the selection with no
      route at all. */
  lemma NoRouteWhenWalkFails(docs: map<string, Doc>, p: Json)
    requires !Walk(docs, None, p, |docs| + 1).Found?
    ensures forall route: seq<Crumb> :: !IsRoute(docs, p, route)
  {
    forall route: seq<Crumb> ensures !IsRoute(docs, p, route) {
      RouteExact(docs, p, route);
    }
  }

  /** `key` names a stored record. */
  predicate Names(docs: map<string, Doc>, key: Json)
  {
    key.Str? && key.s in docs
  }

  /** `q` is `n` parent links above `p`: each of the first `n` ids on the way
      is truthy and names a stored record. */
  ghost predicate Reaches(docs: map<string, Doc>, p: Json, q: Json, n: nat)
    decreases n
  {
    if n == 0 then q == p
    else Truthy(p) && p.Str? && p.s in docs && Reaches(docs, docs[p.s].parentId, q, n - 1)
  }

  /** With a reachable store, the walk rejects exactly when a truthy id on the
      parent chain, within its steps, names no stored record, and it then
      rejects with 404. */
  lemma {:induction false} WalkFailsIffMissingAncestor(docs: map<string, Doc>, p: Json, fuel: nat)
    ensures Walk(docs, None, p, fuel).Failed? <==>
      exists n: nat, q: Json :: n < fuel && Reaches(docs, p, q, n) && Truthy(q) && !Names(docs, q)
    ensures Walk(docs, None, p, fuel).Failed? ==> Walk(docs, None, p, fuel).status == NotFound
    decreases fuel
  {
    if Truthy(p) && fuel > 0 && p.Str? && p.s in docs {
      var parent := docs[p.s].parentId;
      WalkFailsIffMissingAncestor(docs, parent, fuel - 1);
      assert Walk(docs, None, p, fuel) == Prepend([Crumb(p.s, docs[p.s].name)], Walk(docs, None, parent, fuel - 1));
      if Walk(docs, None, p, fuel).Failed? {
        var n: nat, q: Json :| n < fuel - 1 && Reaches(docs, parent, q, n) && Truthy(q) && !Names(docs, q);
        var m: nat := n + 1;
        assert m < fuel && Reaches(docs, p, q, m);
        assert exists n: nat, q: Json :: n < fuel && Reaches(docs, p, q, n) && Truthy(q) && !Names(docs, q);
      }
      if exists n: nat, q: Json :: n < fuel && Reaches(docs, p, q, n) && Truthy(q) && !Names(docs, q) {
        var n: nat, q: Json :| n < fuel && Reaches(docs, p, q, n) && Truthy(q) && !Names(docs, q);
        assert n > 0;
        var m: nat := n - 1;
        assert m < fuel - 1 && Reaches(docs, parent, q, m);
        assert exists n: nat, q: Json :: n < fuel - 1 && Reaches(docs, parent, q, n) && Truthy(q) && !Names(docs, q);
      }
    } else if Truthy(p) && fuel > 0 {
      assert Walk(docs, None, p, fuel) == Failed(NotFound);
      var zero: nat := 0;
      assert zero < fuel && Reaches(docs, p, p, zero) && Truthy(p) && !Names(docs, p);
      assert exists n: nat, q: Json :: n < fuel && Reaches(docs, p, q, n) && Truthy(q) && !Names(docs, q);
    } else {
      forall n: nat, q: Json | n < fuel && Reaches(docs, p, q, n)
        ensures !Truthy(q) || Names(docs, q)
      {
        assert n == 0;
      }
    }
  }

  /** The selected record of a route either is a root or hangs under the
      crumb before it. */
  lemma RouteLastLink(docs: map<string, Doc>, sel: Json, route: seq<Crumb>)
    requires IsRoute(docs, sel, route) && Truthy(sel)
    ensures sel.Str? && sel.s in docs
    ensures |route| == 1 ==> !Truthy(docs[sel.s].parentId)
    ensures |route| > 1 ==> docs[sel.s].parentId == Str(route[|route| - 2].id) && route[|route| - 2].id in docs
  {
  }

  /** Deleting a record orphans its children: a child whose parent is gone
      has no route, so selecting it makes route reconstruction fail. */
  lemma OrphanHasNoRoute(docs: map<string, Doc>, child: string, gone: string)
    requires gone != "" && gone !in docs
    requires child != "" && child in docs && docs[child].parentId == Str(gone)
    ensures forall route: seq<Crumb> :: !IsRoute(docs, Str(child), route)
  {
    forall route: seq<Crumb> ensures !IsRoute(docs, Str(child), route) {
      if IsRoute(docs, Str(child), route) {
        RouteLastLink(docs, Str(child), route);
      }
    }
  }
}
