/** The entity relationship graph of internal/entity/graph.go. */
module EntityGraph {
  import opened Common
  import opened Walks

  datatype Relationship = Relationship(target: Id, kind: string)

  type Entities = map<Id, seq<Relationship>>

  /** Outgoing relationships of the known entities. */
  ghost function Outgoing(entities: Entities): Graph {
    map u | u in entities :: set r | r in entities[u] :: r.target
  }

  lemma EdgeIsRelationship(entities: Entities, u: Id, k: nat)
    requires u in entities && k < |entities[u]|
    ensures Edge(Outgoing(entities), u, entities[u][k].target)
  {
    assert entities[u][k] in entities[u];
  }

  /** Shortest chain of relationships from source to target; None stands for the nil slice. */
  method GetDependencyChain(entities: Entities, source: Id, target: Id) returns (chain: Option<seq<Id>>)
    ensures chain.Some? ==> IsShortest(Outgoing(entities), chain.value, source, target)
    ensures chain.None? ==> !Reaches(Outgoing(entities), source, target)
  {
    hide Layered, IsShortest, Joins, ParentsTrace, Targets;
    ghost var g := Outgoing(entities);
    Start(g, source);
    if source == target {
      return Some([source]);
    }
    var visited := {source};
    var parent: map<Id, Id> := map[];
    var queue := [source];
    ghost var routes := map[source := [source]];
    ghost var unseen := Targets(g) - {source};
    NothingTraced(source);
    while queue != []
      invariant Layered(g, source, routes, queue) && ParentsTrace(source, routes, parent)
      invariant visited == routes.Keys && target !in visited
      invariant unseen == Targets(g) - visited
      decreases unseen, |queue|
    {
      var current := queue[0];
      assert queue == [current] + queue[1..];
      queue := queue[1..];
      if current !in entities {
        Settle(g, source, routes, current, queue);
        continue;
      }
      var relationships := entities[current];
      ghost var unseenBefore, queueBefore := unseen, queue;
      for k := 0 to |relationships|
        invariant Layered(g, source, routes, [current] + queue) && ParentsTrace(source, routes, parent)
        invariant visited == routes.Keys && target !in visited
        invariant forall i :: 0 <= i < k ==> relationships[i].target in visited
        invariant unseen == Targets(g) - visited
        invariant unseen < unseenBefore || (unseen == unseenBefore && queue == queueBefore)
      {
        var next := relationships[k].target;
        EdgeIsRelationship(entities, current, k);
        if next in visited {
          continue;
        }
        if next == target {
          FirstMeeting(g, source, routes, current, queue, next);
        }
        Discover(g, source, routes, current, queue, next);
        TraceNext(g, source, routes, parent, current, queue, next);
        visited := visited + {next};
        parent := parent[next := current];
        queue := queue + [next];
        routes := routes[next := routes[current] + [next]];
        unseen := unseen - {next};
        if next == target {
          var path := Retrace(source, routes, parent, target);
          return Some(path);
        }
      }
      Settle(g, source, routes, current, queue);
    }
    forall p | Joins(g, p, source, target) ensures false {
      Covered(g, source, routes, [], p, target);
    }
    return None;
  }

  /** Each parent pointer leads to the previous id of the recorded route. */
  ghost predicate ParentsTrace(source: Id, routes: map<Id, seq<Id>>, parent: map<Id, Id>) {
    && source in routes && routes[source] == [source]
    && forall v :: v in routes && v != source ==>
         v in parent && parent[v] in routes && routes[v] == routes[parent[v]] + [v]
  }

  lemma NothingTraced(source: Id)
    ensures ParentsTrace(source, map[source := [source]], map[])
  {
  }

  lemma TraceNext(g: Graph, source: Id, routes: map<Id, seq<Id>>, parent: map<Id, Id>, cur: Id, rest: seq<Id>, v: Id)
    requires Layered(g, source, routes, [cur] + rest) && ParentsTrace(source, routes, parent)
    requires v !in routes && Edge(g, cur, v)
    ensures cur in routes && v in Targets(g)
    ensures ParentsTrace(source, routes[v := routes[cur] + [v]], parent[v := cur])
  {
    assert ([cur] + rest)[0] == cur;
  }

  /** The walk back along the parents terminates and rebuilds the route to target. */
  method Retrace(source: Id, ghost routes: map<Id, seq<Id>>, parent: map<Id, Id>, target: Id) returns (path: seq<Id>)
    requires ParentsTrace(source, routes, parent) && target in routes
    ensures path == routes[target]
  {
    path := [target];
    var node := target;
    ghost var after: seq<Id> := [];
    while node != source
      invariant path == [node] + after
      invariant node in routes && routes[node] + after == routes[target]
      decreases |routes[node]|
    {
      after := path;
      Reassociate(routes[parent[node]], node, path[1..]);
      node := parent[node];
      path := [node] + path;
    }
  }

  lemma Reassociate(a: seq<Id>, x: Id, b: seq<Id>)
    ensures a + [x] + b == a + ([x] + b)
  {
  }

  // ---- GetSubgraph ----

  datatype GraphEdge = GraphEdge(source: Id, target: Id, kind: string)

  ghost predicate PointsAt(entities: Entities, u: Id, v: Id) {
    u in entities && exists r :: r in entities[u] && r.target == v
  }

  /** One hop in either direction: a known entity reaches its targets and the entities that point at it. */
  ghost function Neighbours(entities: Entities): Graph {
    map u | u in entities ::
      (set r | r in entities[u] :: r.target) + (set w | w in entities && PointsAt(entities, w, u))
  }

  lemma NeighbourEdge(entities: Entities, u: Id, v: Id)
    ensures Edge(Neighbours(entities), u, v) <==>
            u in entities && (PointsAt(entities, u, v) || PointsAt(entities, v, u))
  {
  }

  function ClampDepth(depth: int): (d: nat)
    ensures 1 <= d <= 5 && (1 <= depth <= 5 ==> d == depth)
    ensures (depth <= 0 ==> d == 2) && (depth > 5 ==> d == 5)
  {
    var depth := if depth <= 0 then 2 else depth;
    if depth > 5 then 5 else depth
  }

  ghost predicate Distinct<T>(s: seq<T>) {
    forall i, j :: 0 <= i < j < |s| ==> s[i] != s[j]
  }

  /** The layer being expanded (open, at distance d) and the layer being collected (next, at d + 1). */
  ghost predicate Frontier(g: Graph, src: Id, routes: map<Id, seq<Id>>, visited: set<Id>,
                           open: seq<Id>, next: seq<Id>, d: nat) {
    && Layered(g, src, routes, open + next)
    && visited == routes.Keys
    && (forall v :: v in open ==> v in routes && |routes[v]| == d + 1)
    && (forall v :: v in next ==> v in routes && |routes[v]| == d + 2)
    && (forall v :: v in routes ==> |routes[v]| <= d + 2 && (|routes[v]| == d + 2 ==> v in next))
  }

  lemma FrontierStart(g: Graph, src: Id)
    ensures Frontier(g, src, map[src := [src]], {src}, [src], [], 0)
  {
    Start(g, src);
    assert [src] + [] == [src];
  }

  lemma FrontierMeets(g: Graph, src: Id, routes: map<Id, seq<Id>>, visited: set<Id>,
                      cur: Id, open: seq<Id>, next: seq<Id>, d: nat, v: Id)
    requires Frontier(g, src, routes, visited, [cur] + open, next, d)
    requires v !in visited && Edge(g, cur, v)
    ensures cur in routes
    ensures Frontier(g, src, routes[v := routes[cur] + [v]], visited + {v}, [cur] + open, next + [v], d)
  {
    assert ([cur] + open)[0] == cur;
    assert ([cur] + open) + next == [cur] + (open + next);
    Discover(g, src, routes, cur, open + next, v);
    assert [cur] + ((open + next) + [v]) == ([cur] + open) + (next + [v]);
  }

  lemma FrontierSettles(g: Graph, src: Id, routes: map<Id, seq<Id>>, visited: set<Id>,
                        cur: Id, open: seq<Id>, next: seq<Id>, d: nat)
    requires Frontier(g, src, routes, visited, [cur] + open, next, d)
    requires forall v :: Edge(g, cur, v) ==> v in visited
    ensures Frontier(g, src, routes, visited, open, next, d)
  {
    assert ([cur] + open) + next == [cur] + (open + next);
    Settle(g, src, routes, cur, open + next);
  }

  lemma FrontierAdvances(g: Graph, src: Id, routes: map<Id, seq<Id>>, visited: set<Id>, next: seq<Id>, d: nat)
    requires Frontier(g, src, routes, visited, [], next, d)
    ensures Frontier(g, src, routes, visited, next, [], d + 1)
  {
    assert [] + next == next + [];
  }

  /** What has been met after d full layers is exactly what lies within d hops, or all that is reachable. */
  lemma LayersMeasureHops(g: Graph, src: Id, routes: map<Id, seq<Id>>, visited: set<Id>, open: seq<Id>, d: nat,
                          limit: nat)
    requires Frontier(g, src, routes, visited, open, [], d)
    requires d <= limit && (d == limit || open == [])
    ensures forall v :: v in visited <==> Within(g, src, v, limit)
  {
    assert open + [] == open;
    forall v | v in visited ensures Within(g, src, v, limit) {
      assert Joins(g, routes[v], src, v);
    }
    forall v | Within(g, src, v, limit) ensures v in visited {
      var p :| Joins(g, p, src, v) && |p| <= limit + 1;
      assert open != [] ==> open[0] in open;
      Covered(g, src, routes, open, p, v);
    }
  }

  method MeetOutgoing(entities: Entities, ghost src: Id, cur: Id, visited0: set<Id>, next0: seq<Id>,
                      ghost open: seq<Id>, ghost routes0: map<Id, seq<Id>>, ghost d: nat)
    returns (visited: set<Id>, next: seq<Id>, ghost routes: map<Id, seq<Id>>)
    requires cur in entities
    requires Frontier(Neighbours(entities), src, routes0, visited0, [cur] + open, next0, d)
    ensures Frontier(Neighbours(entities), src, routes, visited, [cur] + open, next, d)
    ensures visited0 <= visited && forall v :: PointsAt(entities, cur, v) ==> v in visited
  {
    hide Frontier, Neighbours;
    ghost var g := Neighbours(entities);
    visited, next, routes := visited0, next0, routes0;
    for k := 0 to |entities[cur]|
      invariant Frontier(g, src, routes, visited, [cur] + open, next, d)
      invariant visited0 <= visited && forall i :: 0 <= i < k ==> entities[cur][i].target in visited
    {
      var id := entities[cur][k].target;
      if id !in visited {
        assert entities[cur][k] in entities[cur];
        NeighbourEdge(entities, cur, id);
        FrontierMeets(g, src, routes, visited, cur, open, next, d, id);
        visited, next, routes := visited + {id}, next + [id], routes[id := routes[cur] + [id]];
      }
    }
  }

  /** Does this list of relationships contain one that leads to id? */
  method LeadsTo(relationships: seq<Relationship>, id: Id) returns (found: bool)
    ensures found <==> exists r :: r in relationships && r.target == id
  {
    for k := 0 to |relationships|
      invariant forall i :: 0 <= i < k ==> relationships[i].target != id
    {
      if relationships[k].target == id {
        assert relationships[k] in relationships;
        return true;
      }
    }
    return false;
  }

  method MeetIncoming(entities: Entities, ghost src: Id, cur: Id, visited0: set<Id>, next0: seq<Id>,
                      ghost open: seq<Id>, ghost routes0: map<Id, seq<Id>>, ghost d: nat)
    returns (visited: set<Id>, next: seq<Id>, ghost routes: map<Id, seq<Id>>)
    requires cur in entities
    requires Frontier(Neighbours(entities), src, routes0, visited0, [cur] + open, next0, d)
    ensures Frontier(Neighbours(entities), src, routes, visited, [cur] + open, next, d)
    ensures visited0 <= visited && forall w :: PointsAt(entities, w, cur) ==> w in visited
  {
    hide Frontier, Neighbours;
    ghost var g := Neighbours(entities);
    visited, next, routes := visited0, next0, routes0;
    var others := entities.Keys;
    while others != {}
      invariant others <= entities.Keys
      invariant Frontier(g, src, routes, visited, [cur] + open, next, d)
      invariant visited0 <= visited
      invariant forall w :: w in entities && w !in others && PointsAt(entities, w, cur) ==> w in visited
      decreases others
    {
      var other :| other in others;
      others := others - {other};
      if other in visited {
        continue;
      }
      var found := LeadsTo(entities[other], cur);
      if found {
        NeighbourEdge(entities, cur, other);
        FrontierMeets(g, src, routes, visited, cur, open, next, d, other);
        visited, next, routes := visited + {other}, next + [other], routes[other := routes[cur] + [other]];
      }
    }
  }

  /** The ids within the clamped depth of the centre, collected layer by layer. */
  method VisitLayers(entities: Entities, center: Id, depth: nat) returns (visited: set<Id>)
    ensures forall v :: v in visited <==> Within(Neighbours(entities), center, v, depth)
  {
    hide Frontier, Neighbours, Within;
    ghost var g := Neighbours(entities);
    visited := {center};
    var toVisit := [center];
    ghost var routes := map[center := [center]];
    FrontierStart(g, center);
    var d := 0;
    while d < depth && toVisit != []
      invariant d <= depth && Frontier(g, center, routes, visited, toVisit, [], d)
    {
      var nextVisit := [];
      assert toVisit[0..] == toVisit;
      for i := 0 to |toVisit|
        invariant Frontier(g, center, routes, visited, toVisit[i..], nextVisit, d)
      {
        var id := toVisit[i];
        assert toVisit[i..] == [id] + toVisit[i + 1..];
        if id in entities {
          visited, nextVisit, routes :=
            MeetOutgoing(entities, center, id, visited, nextVisit, toVisit[i + 1..], routes, d);
          visited, nextVisit, routes :=
            MeetIncoming(entities, center, id, visited, nextVisit, toVisit[i + 1..], routes, d);
        }
        forall v | Edge(g, id, v) ensures v in visited {
          NeighbourEdge(entities, id, v);
        }
        FrontierSettles(g, center, routes, visited, id, toVisit[i + 1..], nextVisit, d);
      }
      assert toVisit[|toVisit|..] == [];
      FrontierAdvances(g, center, routes, visited, nextVisit, d);
      toVisit := nextVisit;
      d := d + 1;
    }
    LayersMeasureHops(g, center, routes, visited, toVisit, d, depth);
  }

  ghost predicate IsEdgeAmong(entities: Entities, ids: set<Id>, e: GraphEdge) {
    e.source in ids && e.source in entities && e.target in ids && Relationship(e.target, e.kind) in entities[e.source]
  }

  /** The nodes and edges emitted for the visited ids, each once. */
  method Emit(entities: Entities, visited: set<Id>) returns (nodes: seq<Id>, edges: seq<GraphEdge>)
    ensures Distinct(nodes) && forall v :: v in nodes <==> v in visited && v in entities
    ensures Distinct(edges) && forall e :: e in edges <==> IsEdgeAmong(entities, visited, e)
  {
    nodes, edges := [], [];
    var todo := visited;
    while todo != {}
      invariant todo <= visited
      invariant Distinct(nodes) && forall v :: v in nodes <==> v in visited - todo && v in entities
      invariant Distinct(edges)
      invariant forall e :: e in edges <==> IsEdgeAmong(entities, visited, e) && e.source !in todo
      decreases todo
    {
      var id :| id in todo;
      todo := todo - {id};
      if id in entities {
        nodes := nodes + [id];
        edges := EmitEdges(entities, visited, todo + {id}, id, edges);
      }
    }
  }

  method EmitEdges(entities: Entities, visited: set<Id>, ghost todo: set<Id>, id: Id, edges0: seq<GraphEdge>)
    returns (edges: seq<GraphEdge>)
    requires id in entities && id in visited && id in todo && Distinct(edges0)
    requires forall e :: e in edges0 <==> IsEdgeAmong(entities, visited, e) && e.source !in todo
    ensures Distinct(edges)
    ensures forall e :: e in edges <==> IsEdgeAmong(entities, visited, e) && e.source !in todo - {id}
  {
    edges := edges0;
    for k := 0 to |entities[id]|
      invariant Distinct(edges)
      invariant forall e :: e in edges <==>
                  || e in edges0
                  || (e.source == id && e.target in visited && Relationship(e.target, e.kind) in entities[id][..k])
    {
      var r := entities[id][k];
      assert entities[id][..k + 1] == entities[id][..k] + [r];
      var edge := GraphEdge(id, r.target, r.kind);
      if r.target in visited && edge !in edges {
        edges := edges + [edge];
      }
    }
    assert entities[id][..|entities[id]|] == entities[id];
  }

  /** The neighbourhood of an entity: known entities within the clamped depth, and the relationships among them. */
  method GetSubgraph(entities: Entities, center: Id, depth: int) returns (nodes: seq<Id>, edges: seq<GraphEdge>)
    ensures Distinct(nodes) && Distinct(edges)
    ensures forall v :: v in nodes <==>
              v in entities && Within(Neighbours(entities), center, v, ClampDepth(depth))
    ensures forall e :: e in edges <==>
              && e.source in nodes
              && Within(Neighbours(entities), center, e.target, ClampDepth(depth))
              && Relationship(e.target, e.kind) in entities[e.source]
  {
    hide Within, Neighbours, Distinct;
    var visited := VisitLayers(entities, center, ClampDepth(depth));
    nodes, edges := Emit(entities, visited);
  }
}
