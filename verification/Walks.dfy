/** Walks in a finite directed graph, and the invariant shared by the breadth-first searches. */
module Walks {

  type Id = string

  /** Adjacency; an id that is not a key is never expanded by a search. */
  type Graph = map<Id, set<Id>>

  ghost predicate Edge(g: Graph, u: Id, v: Id) {
    u in g && v in g[u]
  }

  ghost predicate Joins(g: Graph, p: seq<Id>, a: Id, b: Id) {
    && |p| > 0 && p[0] == a && p[|p| - 1] == b
    && forall i :: 0 < i < |p| ==> Edge(g, p[i - 1], p[i])
  }

  ghost predicate Reaches(g: Graph, a: Id, b: Id) {
    exists p :: Joins(g, p, a, b)
  }

  /** b can be reached from a in at most k hops. */
  ghost predicate Within(g: Graph, a: Id, b: Id, k: nat) {
    exists p :: Joins(g, p, a, b) && |p| <= k + 1
  }

  ghost predicate IsShortest(g: Graph, p: seq<Id>, a: Id, b: Id) {
    Joins(g, p, a, b) && forall q :: Joins(g, q, a, b) ==> |p| <= |q|
  }

  ghost function Targets(g: Graph): set<Id> {
    set u, v | u in g && v in g[u] :: v
  }

  ghost predicate Settled(g: Graph, routes: map<Id, seq<Id>>, u: Id)
    requires u in routes
  {
    forall v :: Edge(g, u, v) ==> v in routes && |routes[v]| <= |routes[u]| + 1
  }

  /**
   * The state of a breadth-first search from src. routes holds a walk to every id met so far;
   * open lists, nearest first, the ids whose successors are still to be looked at.
   */
  ghost predicate Layered(g: Graph, src: Id, routes: map<Id, seq<Id>>, open: seq<Id>) {
    && src in routes
    && routes[src] == [src]
    && (forall v :: v in routes ==> Joins(g, routes[v], src, v))
    && (forall i :: 0 <= i < |open| ==> open[i] in routes)
    && (forall i, j :: 0 <= i < j < |open| ==> |routes[open[i]]| <= |routes[open[j]]|)
    && (open != [] ==> forall v :: v in routes ==> |routes[v]| <= |routes[open[0]]| + 1)
    && (forall u :: u in routes && u !in open ==> Settled(g, routes, u))
  }

  lemma Extend(g: Graph, p: seq<Id>, a: Id, u: Id, v: Id)
    requires Joins(g, p, a, u) && Edge(g, u, v)
    ensures Joins(g, p + [v], a, v)
  {
  }

  lemma ShortestReaches(g: Graph, p: seq<Id>, a: Id, b: Id)
    requires IsShortest(g, p, a, b)
    ensures Reaches(g, a, b)
  {
  }

  lemma Start(g: Graph, src: Id)
    ensures Layered(g, src, map[src := [src]], [src])
    ensures IsShortest(g, [src], src, src)
  {
  }

  /** Meeting a new successor of the id being expanded keeps the search layered. */
  lemma Discover(g: Graph, src: Id, routes: map<Id, seq<Id>>, cur: Id, rest: seq<Id>, v: Id)
    requires Layered(g, src, routes, [cur] + rest) && v !in routes && Edge(g, cur, v)
    ensures Layered(g, src, routes[v := routes[cur] + [v]], [cur] + (rest + [v]))
  {
    var open := [cur] + rest;
    assert open[0] == cur;
    Extend(g, routes[cur], src, cur, v);
    var routes' := routes[v := routes[cur] + [v]];
    var open' := [cur] + (rest + [v]);
    assert open' == open + [v];
    forall u | u in routes' && u !in open' ensures Settled(g, routes', u) {
      assert u !in open;
      assert Settled(g, routes, u);
    }
  }

  /** Once every successor of the id at the head has been met, the id may be dropped. */
  lemma Settle(g: Graph, src: Id, routes: map<Id, seq<Id>>, cur: Id, rest: seq<Id>)
    requires Layered(g, src, routes, [cur] + rest)
    requires forall v :: Edge(g, cur, v) ==> v in routes
    ensures Layered(g, src, routes, rest)
  {
    var open := [cur] + rest;
    assert open[0] == cur;
    assert forall i :: 0 <= i < |rest| ==> rest[i] == open[i + 1];
    assert rest != [] ==> |routes[open[0]]| <= |routes[open[1]]|;
    forall u | u in routes && u !in rest ensures Settled(g, routes, u) {
      if u in open {
        assert u == cur;
      }
    }
  }

  /** The head of the open list has a route, and so has everything else on it. */
  lemma OpenIsMet(g: Graph, src: Id, routes: map<Id, seq<Id>>, open: seq<Id>)
    requires Layered(g, src, routes, open)
    ensures src in routes && forall i :: 0 <= i < |open| ==> open[i] in routes
  {
  }

  /** Every walk no longer than the nearest open route ends at an id already met, at least as near. */
  lemma {:induction false} Covered(g: Graph, src: Id, routes: map<Id, seq<Id>>, open: seq<Id>, p: seq<Id>, b: Id)
    requires Layered(g, src, routes, open) && Joins(g, p, src, b)
    requires open != [] ==> |p| <= |routes[open[0]]|
    ensures b in routes && |routes[b]| <= |p|
    decreases |p|
  {
    if |p| > 1 {
      var q := p[..|p| - 1];
      var u := q[|q| - 1];
      assert Edge(g, p[|p| - 2], p[|p| - 1]);
      Covered(g, src, routes, open, q, u);
      assert u !in open by {
        assert forall i :: 0 <= i < |open| ==> |routes[open[0]]| <= |routes[open[i]]|;
      }
      assert Settled(g, routes, u);
    }
  }

  /** An id met from the head of a layered search by a walk one hop longer has no shorter walk. */
  lemma FirstMeeting(g: Graph, src: Id, routes: map<Id, seq<Id>>, cur: Id, rest: seq<Id>, v: Id)
    requires Layered(g, src, routes, [cur] + rest) && v !in routes && Edge(g, cur, v)
    ensures IsShortest(g, routes[cur] + [v], src, v)
  {
    assert ([cur] + rest)[0] == cur;
    Extend(g, routes[cur], src, cur, v);
    forall q | Joins(g, q, src, v) ensures |routes[cur]| + 1 <= |q| {
      if |q| <= |routes[cur]| {
        Covered(g, src, routes, [cur] + rest, q, v);
      }
    }
  }

  /** In a layered search every recorded route is a shortest walk. */
  lemma RoutesAreShortest(g: Graph, src: Id, routes: map<Id, seq<Id>>, v: Id)
    requires Layered(g, src, routes, []) && v in routes
    ensures IsShortest(g, routes[v], src, v)
  {
    forall q | Joins(g, q, src, v) ensures |routes[v]| <= |q| {
      Covered(g, src, routes, [], q, v);
    }
  }
}
