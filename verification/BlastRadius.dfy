/** Downstream impact of a failed service: internal/alerting/dependency.go. */
module BlastRadius {
  import opened Common
  import opened Walks

  type Tier = string

  const TIER_CRITICAL: Tier := "critical"

  datatype Service = Service(name: string, tier: Tier)

  type Catalog = map<Id, Service>

  datatype Dependency = Dependency(source: Id, target: Id)

  datatype AffectedService = AffectedService(id: Id, name: string, tier: Tier, depth: nat, path: seq<string>)

  datatype Report = Report(failed: Id, failedName: string, affected: seq<AffectedService>,
                           totalAffected: nat, criticalAffected: nat, propagationDepth: nat)

  function Lists(cache: map<Id, seq<Id>>, id: Id): seq<Id> {
    if id in cache then cache[id] else []
  }

  ghost predicate Records(deps: seq<Dependency>, upstream: map<Id, seq<Id>>, downstream: map<Id, seq<Id>>) {
    forall u, v ::
      && (v in Lists(upstream, u) <==> Dependency(u, v) in deps)
      && (u in Lists(downstream, v) <==> Dependency(u, v) in deps)
  }

  /** The targets of the rows of one source, and the sources of the rows of one target, in the order of the rows. */
  function TargetsOf(deps: seq<Dependency>, source: Id): seq<Id> {
    if deps == [] then []
    else var last := deps[|deps| - 1];
         TargetsOf(deps[..|deps| - 1], source) + if last.source == source then [last.target] else []
  }

  function SourcesOf(deps: seq<Dependency>, target: Id): seq<Id> {
    if deps == [] then []
    else var last := deps[|deps| - 1];
         SourcesOf(deps[..|deps| - 1], target) + if last.target == target then [last.source] else []
  }

  lemma {:induction false} InTargets(deps: seq<Dependency>, u: Id, v: Id)
    ensures v in TargetsOf(deps, u) <==> Dependency(u, v) in deps
    ensures u in SourcesOf(deps, v) <==> Dependency(u, v) in deps
  {
    if deps != [] {
      InTargets(deps[..|deps| - 1], u, v);
      assert deps == deps[..|deps| - 1] + [deps[|deps| - 1]];
    }
  }

  lemma NoRows()
    ensures forall u :: TargetsOf([], u) == [] && SourcesOf([], u) == []
  {
  }

  lemma RowsGrow(deps: seq<Dependency>, k: nat, id: Id)
    requires k < |deps|
    ensures var before := TargetsOf(deps[..k], id);
            TargetsOf(deps[..k + 1], id) == if deps[k].source == id then before + [deps[k].target] else before
    ensures var before := SourcesOf(deps[..k], id);
            SourcesOf(deps[..k + 1], id) == if deps[k].target == id then before + [deps[k].source] else before
  {
    assert deps[..k + 1][..k] == deps[..k];
  }

  /** The two caches rebuilt from the dependency rows list each row once, in order, and are converse to each other. */
  method RefreshDependencyCache(deps: seq<Dependency>)
    returns (upstream: map<Id, seq<Id>>, downstream: map<Id, seq<Id>>)
    ensures forall u :: Lists(upstream, u) == TargetsOf(deps, u)
    ensures forall v :: Lists(downstream, v) == SourcesOf(deps, v)
    ensures Records(deps, upstream, downstream)
  {
    hide TargetsOf, SourcesOf;
    upstream, downstream := map[], map[];
    assert deps[..0] == [];
    NoRows();
    for k := 0 to |deps|
      invariant forall u :: Lists(upstream, u) == TargetsOf(deps[..k], u)
      invariant forall v :: Lists(downstream, v) == SourcesOf(deps[..k], v)
    {
      var dep := deps[k];
      upstream := upstream[dep.source := Lists(upstream, dep.source) + [dep.target]];
      downstream := downstream[dep.target := Lists(downstream, dep.target) + [dep.source]];
      forall id
        ensures Lists(upstream, id) == TargetsOf(deps[..k + 1], id)
        ensures Lists(downstream, id) == SourcesOf(deps[..k + 1], id)
      {
        RowsGrow(deps, k, id);
      }
    }
    assert deps[..|deps|] == deps;
    forall u, v
      ensures v in Lists(upstream, u) <==> Dependency(u, v) in deps
      ensures u in Lists(downstream, v) <==> Dependency(u, v) in deps
    {
      InTargets(deps, u, v);
    }
  }

  /** Downstream hops between services the catalog can resolve. */
  ghost function Impact(downstream: map<Id, seq<Id>>, catalog: Catalog): Graph {
    map u | u in downstream :: set v | v in downstream[u] && v in catalog
  }

  ghost predicate Resolved(catalog: Catalog, p: seq<Id>) {
    forall i :: 0 <= i < |p| ==> p[i] in catalog
  }

  ghost function Names(catalog: Catalog, p: seq<Id>): seq<string>
    requires Resolved(catalog, p)
  {
    seq(|p|, i requires 0 <= i < |p| => catalog[p[i]].name)
  }

  /** a reports the end of the walk p from the failed service. */
  ghost predicate Describes(catalog: Catalog, p: seq<Id>, a: AffectedService) {
    && |p| > 0 && Resolved(catalog, p)
    && a.id == p[|p| - 1]
    && a.name == catalog[a.id].name && a.tier == catalog[a.id].tier
    && a.depth == |p| - 1
    && a.path == Names(catalog, p)
  }

  function CountCritical(affected: seq<AffectedService>): nat {
    if affected == [] then 0
    else CountCritical(affected[..|affected| - 1]) + if affected[|affected| - 1].tier == TIER_CRITICAL then 1 else 0
  }

  function MaxDepth(affected: seq<AffectedService>): nat {
    if affected == [] then 0
    else var rest := MaxDepth(affected[..|affected| - 1]);
         var last := affected[|affected| - 1].depth;
         if last > rest then last else rest
  }

  /** The positions of critical services. */
  ghost function CriticalAt(affected: seq<AffectedService>): set<nat> {
    set i: nat | i < |affected| && affected[i].tier == "critical"
  }

  lemma {:induction false} CriticalAreCounted(affected: seq<AffectedService>)
    ensures CountCritical(affected) == |CriticalAt(affected)|
  {
    if affected != [] {
      var n := |affected| - 1;
      CriticalAreCounted(affected[..n]);
      if affected[n].tier == "critical" {
        assert CriticalAt(affected) == CriticalAt(affected[..n]) + {n};
      } else {
        assert CriticalAt(affected) == CriticalAt(affected[..n]);
      }
    }
  }

  ghost predicate IsDepth(affected: seq<AffectedService>, depth: nat) {
    && (forall i :: 0 <= i < |affected| ==> affected[i].depth <= depth)
    && (if affected == [] then depth == 0 else exists i :: 0 <= i < |affected| && affected[i].depth == depth)
  }

  lemma {:induction false} DepthIsGreatest(affected: seq<AffectedService>)
    ensures IsDepth(affected, MaxDepth(affected))
  {
    if affected != [] {
      var n := |affected| - 1;
      DepthIsGreatest(affected[..n]);
      assert affected[n].depth > MaxDepth(affected[..n]) || n == 0 ==> MaxDepth(affected) == affected[n].depth;
    }
  }

  ghost predicate IsListed(affected: seq<AffectedService>, id: Id) {
    exists i :: 0 <= i < |affected| && affected[i].id == id
  }

  /** The list holds, in the order they were met, the services with a recorded route. */
  ghost predicate Listing(catalog: Catalog, failed: Id, routes: map<Id, seq<Id>>, affected: seq<AffectedService>) {
    && (forall i, j :: 0 <= i < j < |affected| ==>
          affected[i].id != affected[j].id && affected[i].depth <= affected[j].depth)
    && (forall i :: 0 <= i < |affected| ==>
          && affected[i].id in routes && affected[i].id != failed
          && Describes(catalog, routes[affected[i].id], affected[i]))
    && (forall v :: v in routes && v != failed ==> IsListed(affected, v))
  }

  /** a is reported at its true distance, with the names along a shortest walk to it. */
  ghost predicate Explained(g: Graph, catalog: Catalog, failed: Id, a: AffectedService) {
    exists p :: IsShortest(g, p, failed, a.id) && Describes(catalog, p, a)
  }

  /** Everything the blast radius promises about the services it lists. */
  ghost predicate IsBlastRadius(g: Graph, catalog: Catalog, failed: Id, affected: seq<AffectedService>) {
    && (forall i, j :: 0 <= i < j < |affected| ==>
          affected[i].id != affected[j].id && affected[i].depth <= affected[j].depth)
    && (forall v :: IsListed(affected, v) <==> v != failed && Reaches(g, failed, v))
    && (forall i :: 0 <= i < |affected| ==> Explained(g, catalog, failed, affected[i]))
  }

  datatype QueueItem = QueueItem(id: Id, depth: nat, path: seq<string>)

  ghost predicate Matches(catalog: Catalog, routes: map<Id, seq<Id>>, item: QueueItem) {
    && item.id in routes && Resolved(catalog, routes[item.id])
    && item.depth + 1 == |routes[item.id]| && item.path == Names(catalog, routes[item.id])
  }

  ghost function Ids(queue: seq<QueueItem>): seq<Id> {
    seq(|queue|, i requires 0 <= i < |queue| => queue[i].id)
  }

  /** The whole search state between two steps. */
  ghost predicate Searching(g: Graph, catalog: Catalog, failed: Id, routes: map<Id, seq<Id>>, visited: set<Id>,
                            queue: seq<QueueItem>, affected: seq<AffectedService>) {
    && failed in catalog
    && Layered(g, failed, routes, Ids(queue))
    && Listing(catalog, failed, routes, affected)
    && (forall i :: 0 <= i < |queue| ==> Matches(catalog, routes, queue[i]))
    && (forall v :: v in routes <==> v in visited && v in catalog)
    && (queue != [] && affected != [] ==> affected[|affected| - 1].depth <= queue[0].depth + 1)
  }

  lemma SearchStarts(g: Graph, catalog: Catalog, failed: Id)
    requires failed in catalog
    ensures Searching(g, catalog, failed, map[failed := [failed]], {failed},
                      [QueueItem(failed, 0, [catalog[failed].name])], [])
  {
    Start(g, failed);
    assert Ids([QueueItem(failed, 0, [catalog[failed].name])]) == [failed];
    assert Names(catalog, [failed]) == [catalog[failed].name];
  }

  /** Listing one more resolvable service, met from the head of the queue. */
  lemma SearchMeets(g: Graph, catalog: Catalog, failed: Id, routes: map<Id, seq<Id>>, visited: set<Id>,
                    current: QueueItem, queue: seq<QueueItem>, affected: seq<AffectedService>,
                    v: Id, item: QueueItem, a: AffectedService)
    requires Searching(g, catalog, failed, routes, visited, [current] + queue, affected)
    requires v !in visited && Edge(g, current.id, v) && v in catalog
    requires item == QueueItem(v, current.depth + 1, current.path + [catalog[v].name])
    requires a == AffectedService(v, catalog[v].name, catalog[v].tier, item.depth, item.path)
    ensures current.id in routes
    ensures Searching(g, catalog, failed, routes[v := routes[current.id] + [v]], visited + {v},
                      [current] + (queue + [item]), affected + [a])
  {
    hide Layered, Listing;
    var open := [current] + queue;
    var routes' := routes[v := routes[current.id] + [v]];
    assert open[0] == current;
    assert Matches(catalog, routes, current);
    assert Ids(open) == [current.id] + Ids(queue);
    OpenIsMet(g, failed, routes, Ids(open));
    Discover(g, failed, routes, current.id, Ids(queue), v);
    var open' := [current] + (queue + [item]);
    assert open' == open + [item];
    assert Ids(open') == [current.id] + (Ids(queue) + [v]);
    assert Names(catalog, routes'[v]) == item.path;
    ListingGrows(catalog, failed, routes, affected, routes[current.id] + [v], a);
    forall i | 0 <= i < |open'| ensures Matches(catalog, routes', open'[i]) {
      if i < |open| {
        assert Matches(catalog, routes, open[i]);
      }
    }
  }

  lemma ListingGrows(catalog: Catalog, failed: Id, routes: map<Id, seq<Id>>, affected: seq<AffectedService>,
                     p: seq<Id>, a: AffectedService)
    requires Listing(catalog, failed, routes, affected)
    requires a.id !in routes && a.id != failed && Describes(catalog, p, a)
    requires affected != [] ==> affected[|affected| - 1].depth <= a.depth
    ensures Listing(catalog, failed, routes[a.id := p], affected + [a])
  {
    var affected' := affected + [a];
    hide Describes;
    forall v | v in routes[a.id := p] && v != failed ensures IsListed(affected', v) {
      if v == a.id {
        assert affected'[|affected|].id == v;
      } else {
        var i :| 0 <= i < |affected| && affected[i].id == v;
        assert affected'[i].id == v;
      }
    }
  }

  /** An id the catalog cannot resolve is only marked as visited. */
  lemma SearchSkips(g: Graph, catalog: Catalog, failed: Id, routes: map<Id, seq<Id>>, visited: set<Id>,
                    queue: seq<QueueItem>, affected: seq<AffectedService>, v: Id)
    requires Searching(g, catalog, failed, routes, visited, queue, affected) && v !in catalog
    ensures Searching(g, catalog, failed, routes, visited + {v}, queue, affected)
  {
  }

  lemma SearchSettles(g: Graph, catalog: Catalog, failed: Id, routes: map<Id, seq<Id>>, visited: set<Id>,
                      current: QueueItem, queue: seq<QueueItem>, affected: seq<AffectedService>)
    requires Searching(g, catalog, failed, routes, visited, [current] + queue, affected)
    requires forall v :: Edge(g, current.id, v) ==> v in visited && v in catalog
    ensures Searching(g, catalog, failed, routes, visited, queue, affected)
  {
    var open := [current] + queue;
    assert open[0] == current;
    assert Ids(open) == [current.id] + Ids(queue);
    Settle(g, failed, routes, current.id, Ids(queue));
    forall i | 0 <= i < |queue| ensures Matches(catalog, routes, queue[i]) {
      assert Matches(catalog, routes, open[i + 1]);
    }
    if queue != [] {
      assert Ids(open)[0] == current.id && Ids(open)[1] == queue[0].id;
      assert Matches(catalog, routes, open[0]) && Matches(catalog, routes, open[1]);
    }
  }

  lemma SearchEnds(g: Graph, catalog: Catalog, failed: Id, routes: map<Id, seq<Id>>, visited: set<Id>,
                   affected: seq<AffectedService>)
    requires Searching(g, catalog, failed, routes, visited, [], affected)
    ensures IsBlastRadius(g, catalog, failed, affected)
  {
    hide Layered, IsShortest, Describes;
    assert Ids([]) == [];
    forall v ensures IsListed(affected, v) <==> v != failed && Reaches(g, failed, v) {
      if v in routes {
        RoutesAreShortest(g, failed, routes, v);
        ShortestReaches(g, routes[v], failed, v);
      }
      if Reaches(g, failed, v) {
        var p :| Joins(g, p, failed, v);
        Covered(g, failed, routes, [], p, v);
      }
    }
    forall i | 0 <= i < |affected| ensures Explained(g, catalog, failed, affected[i]) {
      RoutesAreShortest(g, failed, routes, affected[i].id);
    }
  }

  ghost function AllListed(cache: map<Id, seq<Id>>): set<Id> {
    set u, v | u in cache && v in cache[u] :: v
  }

  lemma NothingCounted()
    ensures CountCritical([]) == 0 && MaxDepth([]) == 0
  {
  }

  lemma CountsGrow(affected: seq<AffectedService>, a: AffectedService)
    ensures CountCritical(affected + [a]) == CountCritical(affected) + if a.tier == TIER_CRITICAL then 1 else 0
    ensures MaxDepth(affected + [a]) == if a.depth > MaxDepth(affected) then a.depth else MaxDepth(affected)
  {
    assert (affected + [a])[..|affected|] == affected;
  }

  lemma ListedIsImpact(downstream: map<Id, seq<Id>>, catalog: Catalog, id: Id, k: nat)
    requires k < |Lists(downstream, id)|
    ensures Lists(downstream, id)[k] in AllListed(downstream)
    ensures Lists(downstream, id)[k] in catalog ==> Edge(Impact(downstream, catalog), id, Lists(downstream, id)[k])
  {
    assert Lists(downstream, id)[k] in Lists(downstream, id);
  }

  lemma ImpactIsListed(downstream: map<Id, seq<Id>>, catalog: Catalog, id: Id)
    ensures forall v :: Edge(Impact(downstream, catalog), id, v) ==> v in Lists(downstream, id) && v in catalog
  {
  }

  method CalculateBlastRadius(downstream: map<Id, seq<Id>>, catalog: Catalog, failed: Id) returns (r: Option<Report>)
    ensures r.None? <==> failed !in catalog
    ensures r.Some? ==>
      && r.value.failed == failed && r.value.failedName == catalog[failed].name
      && IsBlastRadius(Impact(downstream, catalog), catalog, failed, r.value.affected)
      && r.value.totalAffected == |r.value.affected|
      && r.value.criticalAffected == |CriticalAt(r.value.affected)|
      && IsDepth(r.value.affected, r.value.propagationDepth)
  {
    hide Searching, IsBlastRadius, CountCritical, CriticalAt, MaxDepth, IsDepth, AllListed, Impact, Lists;
    if failed !in catalog {
      return None;
    }
    ghost var g := Impact(downstream, catalog);
    var affected, total, critical, depth := [], 0, 0, 0;
    var visited := {failed};
    var queue := [QueueItem(failed, 0, [catalog[failed].name])];
    ghost var routes := map[failed := [failed]];
    ghost var unseen := AllListed(downstream) - visited;
    SearchStarts(g, catalog, failed);
    NothingCounted();
    while queue != []
      invariant Searching(g, catalog, failed, routes, visited, queue, affected)
      invariant total == |affected| && critical == CountCritical(affected) && depth == MaxDepth(affected)
      invariant unseen == AllListed(downstream) - visited
      decreases unseen, |queue|
    {
      var current := queue[0];
      assert queue == [current] + queue[1..];
      queue := queue[1..];
      var next := Lists(downstream, current.id);
      ghost var unseenBefore, queueBefore := unseen, queue;
      for k := 0 to |next|
        invariant Searching(g, catalog, failed, routes, visited, [current] + queue, affected)
        invariant total == |affected| && critical == CountCritical(affected) && depth == MaxDepth(affected)
        invariant forall i :: 0 <= i < k ==> next[i] in visited
        invariant unseen == AllListed(downstream) - visited
        invariant unseen < unseenBefore || (unseen == unseenBefore && queue == queueBefore)
      {
        var id := next[k];
        if id in visited {
          continue;
        }
        ListedIsImpact(downstream, catalog, current.id, k);
        if id !in catalog {
          SearchSkips(g, catalog, failed, routes, visited, [current] + queue, affected, id);
          visited := visited + {id};
          unseen := unseen - {id};
          continue;
        }
        var path := current.path + [catalog[id].name];
        var a := AffectedService(id, catalog[id].name, catalog[id].tier, current.depth + 1, path);
        var item := QueueItem(id, current.depth + 1, path);
        SearchMeets(g, catalog, failed, routes, visited, current, queue, affected, id, item, a);
        visited := visited + {id};
        unseen := unseen - {id};
        CountsGrow(affected, a);
        affected := affected + [a];
        total := total + 1;
        if a.tier == TIER_CRITICAL {
          critical := critical + 1;
        }
        if current.depth + 1 > depth {
          depth := current.depth + 1;
        }
        queue := queue + [item];
        routes := routes[id := routes[current.id] + [id]];
      }
      ImpactIsListed(downstream, catalog, current.id);
      SearchSettles(g, catalog, failed, routes, visited, current, queue, affected);
    }
    SearchEnds(g, catalog, failed, routes, visited, affected);
    CriticalAreCounted(affected);
    DepthIsGreatest(affected);
    return Some(Report(failed, catalog[failed].name, affected, total, critical, depth));
  }
}
