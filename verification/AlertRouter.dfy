/** Grouping and notification cadence: internal/alerting/router.go. */
module AlertRouter {
  import opened AlertModel
  import opened Common

  /** A reference to an alert object; its state is read when a group is processed. */
  datatype AlertRef = AlertRef(fingerprint: string, object: nat)

  datatype Route = Route(receiver: string, id: nat, continues: bool, children: seq<Route>,
                         groupWait: int, groupInterval: int, repeatInterval: int)

  // ---- Choosing routes ----

  /** The routes an alert is sent to; matches stands for the label matchers. */
  function FindMatchingRoutes(matches: Route -> bool, routes: seq<Route>): seq<Route>
    decreases routes, 1
  {
    var matched := Scan(matches, routes);
    if matched == [] && routes != [] then [routes[0]] else matched
  }

  function Scan(matches: Route -> bool, routes: seq<Route>): seq<Route>
    decreases routes, 0
  {
    if routes == [] then []
    else if !matches(routes[0]) then Scan(matches, routes[1..])
    else
      var here := [routes[0]] + FindMatchingRoutes(matches, routes[0].children);
      if routes[0].continues then here + Scan(matches, routes[1..]) else here
  }

  /** Route i of a list is reached by the scan: it matches, and no earlier match stopped the scan. */
  predicate Reached(matches: Route -> bool, routes: seq<Route>, i: nat) {
    i < |routes| && matches(routes[i]) && forall j :: 0 <= j < i ==> !matches(routes[j]) || routes[j].continues
  }

  predicate NoneMatch(matches: Route -> bool, routes: seq<Route>) {
    forall j :: 0 <= j < |routes| ==> !matches(routes[j])
  }

  /** The route at a path of child positions is selected; a default is never descended into. */
  predicate Selected(matches: Route -> bool, routes: seq<Route>, path: seq<nat>) {
    path != [] && path[0] < |routes| &&
    if |path| == 1 then Reached(matches, routes, path[0]) || (path[0] == 0 && NoneMatch(matches, routes))
    else Reached(matches, routes, path[0]) && Selected(matches, routes[path[0]].children, path[1..])
  }

  function At(routes: seq<Route>, path: seq<nat>): (r: Option<Route>)
    decreases path
  {
    if path == [] || path[0] >= |routes| then None
    else if |path| == 1 then Some(routes[path[0]])
    else At(routes[path[0]].children, path[1..])
  }

  /** Preorder: a route before those below it, and those before the routes further on. */
  ghost predicate Before(p: seq<nat>, q: seq<nat>) {
    q != [] && (p == [] || p[0] < q[0] || (p[0] == q[0] && Before(p[1..], q[1..])))
  }

  ghost predicate Preordered(paths: seq<seq<nat>>) {
    forall i, j :: 0 <= i < j < |paths| ==> Before(paths[i], paths[j])
  }

  /** The paths lead to the routes found, one by one. */
  ghost predicate LeadTo(routes: seq<Route>, paths: seq<seq<nat>>, found: seq<Route>) {
    |paths| == |found| && forall i :: 0 <= i < |paths| ==> At(routes, paths[i]) == Some(found[i])
  }

  /**
   * The search returns the routes at the selected paths, in preorder and once for each path. The order matters: the
   * first route to add an alert under a key fixes the receiver of the group.
   */
  lemma FindsExactlySelected(matches: Route -> bool, routes: seq<Route>) returns (paths: seq<seq<nat>>)
    ensures LeadTo(routes, paths, FindMatchingRoutes(matches, routes)) && Preordered(paths)
    ensures forall path :: path in paths <==> Selected(matches, routes, path)
  {
    paths := Paths(matches, routes);
    PathsLead(matches, routes);
    PathsInPreorder(matches, routes);
    forall path ensures path in paths <==> Selected(matches, routes, path) {
      PathsAreSelected(matches, routes, path);
    }
  }

  function Further(path: seq<nat>): seq<nat> {
    if path == [] then [] else [path[0] + 1] + path[1..]
  }

  /** The same paths one position further on, and one level further down. */
  ghost function AllFurther(paths: seq<seq<nat>>): seq<seq<nat>> {
    seq(|paths|, i requires 0 <= i < |paths| => Further(paths[i]))
  }

  ghost function AllBelow(paths: seq<seq<nat>>): seq<seq<nat>> {
    seq(|paths|, i requires 0 <= i < |paths| => [0] + paths[i])
  }

  ghost function Paths(matches: Route -> bool, routes: seq<Route>): seq<seq<nat>>
    decreases routes, 1
  {
    var scanned := ScanPaths(matches, routes);
    if scanned == [] && routes != [] then [[0]] else scanned
  }

  ghost function ScanPaths(matches: Route -> bool, routes: seq<Route>): seq<seq<nat>>
    decreases routes, 0
  {
    if routes == [] then []
    else
      var later := AllFurther(ScanPaths(matches, routes[1..]));
      if !matches(routes[0]) then later
      else
        var here := [[0]] + AllBelow(Paths(matches, routes[0].children));
        if routes[0].continues then here + later else here
  }

  // What the paths of a list are, from those of its tail and of the children of its head.

  lemma FurtherAt(routes: seq<Route>, path: seq<nat>)
    requires routes != []
    ensures path != [] ==> At(routes, Further(path)) == At(routes[1..], path)
  {
  }

  lemma BelowAt(routes: seq<Route>, path: seq<nat>)
    requires routes != []
    ensures path != [] ==> At(routes, [0] + path) == At(routes[0].children, path)
  {
    assert ([0] + path)[1..] == path;
  }

  lemma LeadConcat(routes: seq<Route>, ps: seq<seq<nat>>, qs: seq<seq<nat>>, found: seq<Route>, more: seq<Route>)
    requires LeadTo(routes, ps, found) && LeadTo(routes, qs, more)
    ensures LeadTo(routes, ps + qs, found + more)
  {
  }

  lemma LeadFurther(routes: seq<Route>, ps: seq<seq<nat>>, found: seq<Route>)
    requires routes != [] && LeadTo(routes[1..], ps, found)
    ensures LeadTo(routes, AllFurther(ps), found)
  {
    forall i | 0 <= i < |ps| ensures At(routes, AllFurther(ps)[i]) == Some(found[i]) {
      FurtherAt(routes, ps[i]);
    }
  }

  lemma LeadBelow(routes: seq<Route>, ps: seq<seq<nat>>, found: seq<Route>)
    requires routes != [] && LeadTo(routes[0].children, ps, found)
    ensures LeadTo(routes, AllBelow(ps), found)
  {
    forall i | 0 <= i < |ps| ensures At(routes, AllBelow(ps)[i]) == Some(found[i]) {
      BelowAt(routes, ps[i]);
    }
  }

  lemma {:induction false} PathsLead(matches: Route -> bool, routes: seq<Route>)
    ensures LeadTo(routes, Paths(matches, routes), FindMatchingRoutes(matches, routes))
    decreases routes, 1
  {
    ScanPathsLead(matches, routes);
  }

  lemma {:induction false} ScanPathsLead(matches: Route -> bool, routes: seq<Route>)
    ensures LeadTo(routes, ScanPaths(matches, routes), Scan(matches, routes))
    decreases routes, 0
  {
    hide LeadTo, AllFurther, AllBelow;
    if routes == [] {
      LeadNowhere(routes);
    } else {
      var rest := ScanPaths(matches, routes[1..]);
      ScanPathsLead(matches, routes[1..]);
      LeadFurther(routes, rest, Scan(matches, routes[1..]));
      if matches(routes[0]) {
        PathsLead(matches, routes[0].children);
        var below, found := Paths(matches, routes[0].children), FindMatchingRoutes(matches, routes[0].children);
        LeadBelow(routes, below, found);
        LeadHere(routes);
        LeadConcat(routes, [[0]], AllBelow(below), [routes[0]], found);
        LeadConcat(routes, [[0]] + AllBelow(below), AllFurther(rest), [routes[0]] + found, Scan(matches, routes[1..]));
      }
    }
  }

  lemma LeadNowhere(routes: seq<Route>)
    ensures LeadTo(routes, [], [])
  {
  }

  lemma LeadHere(routes: seq<Route>)
    requires routes != []
    ensures LeadTo(routes, [[0]], [routes[0]])
  {
  }

  lemma InFurther(ps: seq<seq<nat>>, path: seq<nat>)
    requires [] !in ps
    ensures path in AllFurther(ps) <==> path != [] && path[0] > 0 && [path[0] - 1] + path[1..] in ps
  {
    if path in AllFurther(ps) {
      var i :| 0 <= i < |ps| && AllFurther(ps)[i] == path;
      assert [path[0] - 1] + path[1..] == ps[i];
    }
    if path != [] && path[0] > 0 && [path[0] - 1] + path[1..] in ps {
      var i :| 0 <= i < |ps| && ps[i] == [path[0] - 1] + path[1..];
      assert Further(ps[i]) == path;
      assert AllFurther(ps)[i] == path;
    }
  }

  lemma InBelow(ps: seq<seq<nat>>, path: seq<nat>)
    ensures path in AllBelow(ps) <==> path != [] && path[0] == 0 && path[1..] in ps
  {
    if path in AllBelow(ps) {
      var i :| 0 <= i < |ps| && AllBelow(ps)[i] == path;
      assert path[1..] == ps[i];
    }
    if path != [] && path[0] == 0 && path[1..] in ps {
      var i :| 0 <= i < |ps| && ps[i] == path[1..];
      assert [0] + path[1..] == path;
      assert AllBelow(ps)[i] == path;
    }
  }

  /** Beyond the first route the scan goes on as in the tail, unless the first match stops it. */
  lemma ReachedFurther(matches: Route -> bool, routes: seq<Route>, i: nat)
    requires routes != [] && i > 0
    ensures Reached(matches, routes, i) <==>
              (!matches(routes[0]) || routes[0].continues) && Reached(matches, routes[1..], i - 1)
  {
    if i < |routes| {
      assert routes[1..][i - 1] == routes[i];
      assert forall j :: 1 <= j < i ==> routes[j] == routes[1..][j - 1];
    }
  }

  lemma NoneMatchSplits(matches: Route -> bool, routes: seq<Route>)
    requires routes != []
    ensures NoneMatch(matches, routes) <==> !matches(routes[0]) && NoneMatch(matches, routes[1..])
  {
    assert forall j :: 1 <= j < |routes| ==> routes[j] == routes[1..][j - 1];
  }

  lemma {:induction false} ScanIsEmptyIff(matches: Route -> bool, routes: seq<Route>)
    ensures ScanPaths(matches, routes) == [] <==> NoneMatch(matches, routes)
  {
    if routes != [] {
      ScanIsEmptyIff(matches, routes[1..]);
      NoneMatchSplits(matches, routes);
    }
  }

  lemma {:induction false} PathsAreSelected(matches: Route -> bool, routes: seq<Route>, path: seq<nat>)
    ensures path in Paths(matches, routes) <==> Selected(matches, routes, path)
    decreases routes, 1
  {
    ScanPathsAreSelected(matches, routes, path);
    ScanIsEmptyIff(matches, routes);
    if |path| == 1 {
      assert path == [path[0]];
    }
  }

  lemma {:induction false} ScanPathsAreSelected(matches: Route -> bool, routes: seq<Route>, path: seq<nat>)
    ensures path in ScanPaths(matches, routes) <==>
              path != [] && Reached(matches, routes, path[0]) && Selected(matches, routes, path)
    decreases routes, 0
  {
    hide Reached, AllFurther, AllBelow, NoneMatch;
    if routes == [] {
      NotReached(matches, path);
    } else {
      var rest := ScanPaths(matches, routes[1..]);
      ScanPathsAreSelected(matches, routes[1..], []);
      InFurther(rest, path);
      InBelow(Paths(matches, routes[0].children), path);
      if path != [] {
        if path[0] > 0 {
          var before := [path[0] - 1] + path[1..];
          ScanPathsAreSelected(matches, routes[1..], before);
          ReachedFurther(matches, routes, path[0]);
          assert before[1..] == path[1..];
        } else {
          FirstReached(matches, routes);
          assert |path| == 1 ==> path == [0];
          PathsAreSelected(matches, routes[0].children, path[1..]);
        }
      }
    }
  }

  lemma NotReached(matches: Route -> bool, path: seq<nat>)
    ensures path != [] ==> !Reached(matches, [], path[0])
  {
  }

  lemma FirstReached(matches: Route -> bool, routes: seq<Route>)
    requires routes != []
    ensures Reached(matches, routes, 0) <==> matches(routes[0])
  {
  }

  // ---- Preorder ----

  lemma PreorderedConcat(ps: seq<seq<nat>>, qs: seq<seq<nat>>)
    requires Preordered(ps) && Preordered(qs)
    requires forall i, j :: 0 <= i < |ps| && 0 <= j < |qs| ==> Before(ps[i], qs[j])
    ensures Preordered(ps + qs)
  {
  }

  lemma PreorderedFurther(ps: seq<seq<nat>>)
    requires Preordered(ps) && [] !in ps
    ensures Preordered(AllFurther(ps))
  {
  }

  lemma PreorderedBelow(ps: seq<seq<nat>>)
    requires Preordered(ps)
    ensures Preordered(AllBelow(ps))
  {
    forall i, j | 0 <= i < j < |ps| ensures Before([0] + ps[i], [0] + ps[j]) {
      assert ([0] + ps[i])[1..] == ps[i] && ([0] + ps[j])[1..] == ps[j];
    }
  }

  lemma {:induction false} PathsInPreorder(matches: Route -> bool, routes: seq<Route>)
    ensures Preordered(Paths(matches, routes))
    decreases routes, 1
  {
    ScanInPreorder(matches, routes);
  }

  lemma {:induction false} ScanInPreorder(matches: Route -> bool, routes: seq<Route>)
    ensures Preordered(ScanPaths(matches, routes))
    decreases routes, 0
  {
    hide Preordered, Selected, Reached;
    if routes == [] {
      NothingPreordered();
    } else {
      var rest, below := ScanPaths(matches, routes[1..]), Paths(matches, routes[0].children);
      ScanInPreorder(matches, routes[1..]);
      ScanPathsAreSelected(matches, routes[1..], []);
      PreorderedFurther(rest);
      if matches(routes[0]) {
        PathsInPreorder(matches, routes[0].children);
        PathsAreSelected(matches, routes[0].children, []);
        NothingSelected(matches, routes[0].children);
        HereFirst(below);
        PreorderedConcat([[0]] + AllBelow(below), AllFurther(rest));
      }
    }
  }

  lemma NothingPreordered()
    ensures Preordered([])
  {
  }

  lemma NothingSelected(matches: Route -> bool, routes: seq<Route>)
    ensures !Selected(matches, routes, [])
  {
  }

  lemma HereFirst(ps: seq<seq<nat>>)
    requires Preordered(ps) && [] !in ps
    ensures Preordered([[0]] + AllBelow(ps))
  {
    PreorderedBelow(ps);
    forall i | 0 <= i < |ps| ensures Before([0], AllBelow(ps)[i]) {
      assert ([0] + ps[i])[1..] == ps[i] && ps[i] in ps;
    }
    PreorderedConcat([[0]], AllBelow(ps));
  }

  // ---- Cadence ----

  datatype Cadence = Cadence(groupWait: int, groupInterval: int, repeatInterval: int)

  const SECOND := 1_000_000_000

  function Positive(value: int, fallback: int): int {
    if value > 0 then value else fallback
  }

  /** The first top-level route with the receiver sets the intervals; what it leaves unset has defaults. */
  function CadenceOf(routes: seq<Route>, receiver: string): Cadence {
    if routes == [] then Cadence(30 * SECOND, 300 * SECOND, 14400 * SECOND)
    else if routes[0].receiver == receiver then
      Cadence(Positive(routes[0].groupWait, 30 * SECOND), Positive(routes[0].groupInterval, 300 * SECOND),
              Positive(routes[0].repeatInterval, 14400 * SECOND))
    else CadenceOf(routes[1..], receiver)
  }

  /** Route i is the first top-level route with the receiver. */
  predicate IsFirst(routes: seq<Route>, receiver: string, i: nat) {
    i < |routes| && routes[i].receiver == receiver && forall j :: 0 <= j < i ==> routes[j].receiver != receiver
  }

  /** The value of a route if it is set, or the default. */
  predicate IsSetting(x: int, value: int, fallback: int) {
    if value > 0 then x == value else x == fallback
  }

  /** Each interval is the field of that name in the first route with the receiver, or 30 s, 5 min and 4 h. */
  lemma {:induction false} CadenceIsOfRoute(routes: seq<Route>, receiver: string)
    ensures
      var c := CadenceOf(routes, receiver);
      && (forall i: nat :: IsFirst(routes, receiver, i) ==>
            && IsSetting(c.groupWait, routes[i].groupWait, 30_000_000_000)
            && IsSetting(c.groupInterval, routes[i].groupInterval, 300_000_000_000)
            && IsSetting(c.repeatInterval, routes[i].repeatInterval, 14_400_000_000_000))
      && ((forall i: nat :: !IsFirst(routes, receiver, i)) ==>
            && c.groupWait == 30_000_000_000 && c.groupInterval == 300_000_000_000
            && c.repeatInterval == 14_400_000_000_000)
  {
    if routes != [] {
      if routes[0].receiver == receiver {
        assert IsFirst(routes, receiver, 0);
      } else {
        CadenceIsOfRoute(routes[1..], receiver);
        forall i: nat ensures IsFirst(routes, receiver, i) <==> i > 0 && IsFirst(routes[1..], receiver, i - 1) {
          FirstInTail(routes, receiver, i);
        }
        if i: nat :| IsFirst(routes[1..], receiver, i) {
          assert IsFirst(routes, receiver, i + 1);
        }
      }
    }
  }

  lemma FirstInTail(routes: seq<Route>, receiver: string, i: nat)
    requires routes != [] && routes[0].receiver != receiver
    ensures IsFirst(routes, receiver, i) <==> i > 0 && IsFirst(routes[1..], receiver, i - 1)
  {
    assert forall j :: 1 <= j < |routes| ==> routes[j] == routes[1..][j - 1];
  }

  datatype Group = Group(alerts: seq<AlertRef>, receiver: string, createdAt: Time, updatedAt: Time,
                         notifiedAt: Option<Time>)

  /** A successful send, with the last update of the group it reported. */
  datatype Sent = Sent(at: Time, updatedAt: Time)

  ghost predicate Distinct(alerts: seq<AlertRef>) {
    forall i, j :: 0 <= i < j < |alerts| ==> alerts[i].fingerprint != alerts[j].fingerprint
  }

  /** The sends of one group keep the cadence: a first wait, then one interval after a change, another without. */
  ghost predicate Paced(c: Cadence, createdAt: Time, sends: seq<Sent>) {
    && (sends != [] ==> sends[0].at - createdAt >= c.groupWait)
    && forall i :: 0 < i < |sends| ==>
         sends[i].at - sends[i - 1].at
         >= if sends[i].updatedAt > sends[i - 1].at then c.groupInterval else c.repeatInterval
  }

  ghost predicate GroupOk(c: Cadence, g: Group, sends: seq<Sent>, lastNotify: Option<Time>) {
    && Distinct(g.alerts)
    && Paced(c, g.createdAt, sends)
    && (if sends == [] then g.notifiedAt == None
        else g.notifiedAt == Some(sends[|sends| - 1].at) && lastNotify == g.notifiedAt)
  }

  /** Over a group's lifetime any two sends are apart by as many of the smaller intervals as sends lie between them. */
  lemma {:induction false} SendsAreSpaced(c: Cadence, createdAt: Time, sends: seq<Sent>, i: nat, j: nat)
    requires Paced(c, createdAt, sends) && i <= j < |sends|
    ensures sends[0].at - createdAt >= c.groupWait
    ensures sends[j].at - sends[i].at
            >= (j - i) * if c.groupInterval < c.repeatInterval then c.groupInterval else c.repeatInterval
    decreases j
  {
    if i < j {
      SendsAreSpaced(c, createdAt, sends, i, j - 1);
      var least := if c.groupInterval < c.repeatInterval then c.groupInterval else c.repeatInterval;
      assert sends[j].at - sends[j - 1].at >= least;
      assert (j - i) * least == (j - 1 - i) * least + least;
    }
  }

  /** Has the interval of this name passed, or else the default? */
  predicate Passed(elapsed: int, value: int, fallback: int) {
    elapsed >= if value > 0 then value else fallback
  }

  /** What three settings of a route allow at a moment; a setting that is not positive is not set. */
  predicate AllowedBy(wait: int, interval: int, repeat: int, g: Group, sends: seq<Sent>, now: Time) {
    if sends == [] then Passed(now - g.createdAt, wait, 30_000_000_000)
    else var last := sends[|sends| - 1].at;
         if g.updatedAt > last then Passed(now - last, interval, 300_000_000_000)
         else Passed(now - last, repeat, 14_400_000_000_000)
  }

  /** The first route with the receiver of the group allows a send, or the defaults do if there is none. */
  ghost predicate Allowed(routes: seq<Route>, g: Group, sends: seq<Sent>, now: Time) {
    && (forall i: nat :: IsFirst(routes, g.receiver, i) ==>
          AllowedBy(routes[i].groupWait, routes[i].groupInterval, routes[i].repeatInterval, g, sends, now))
    && ((forall i: nat :: !IsFirst(routes, g.receiver, i)) ==> AllowedBy(0, 0, 0, g, sends, now))
  }

  lemma DueIsAllowed(routes: seq<Route>, g: Group, sends: seq<Sent>, now: Time)
    ensures Due(CadenceOf(routes, g.receiver), g, sends, now) <==> Allowed(routes, g, sends, now)
  {
    hide CadenceOf;
    CadenceIsOfRoute(routes, g.receiver);
  }

  /** What the cadence allows at a moment, judged by the sends that were made. */
  predicate Due(c: Cadence, g: Group, sends: seq<Sent>, now: Time) {
    if sends == [] then now - g.createdAt >= c.groupWait
    else var last := sends[|sends| - 1].at;
         now - last >= if g.updatedAt > last then c.groupInterval else c.repeatInterval
  }

  lemma NothingDistinct()
    ensures Distinct([])
  {
  }

  lemma NothingSent(c: Cadence, createdAt: Time)
    ensures Paced(c, createdAt, [])
  {
  }

  lemma PacedGrows(c: Cadence, createdAt: Time, sends: seq<Sent>, s: Sent)
    requires Paced(c, createdAt, sends)
    requires sends == [] ==> s.at - createdAt >= c.groupWait
    requires sends != [] ==> var last := sends[|sends| - 1].at;
                             s.at - last >= if s.updatedAt > last then c.groupInterval else c.repeatInterval
    ensures Paced(c, createdAt, sends + [s])
  {
  }

  lemma Multiples(n: nat, x: int)
    requires x >= 0
    ensures n * x >= 0
  {
  }

  function Get(m: map<string, Time>, key: string): Option<Time> {
    if key in m then Some(m[key]) else None
  }

  class Router {
    const routes: seq<Route>
    var groups: map<string, Group>
    var receivers: set<string>
    var lastNotify: map<string, Time>
    /** The successful sends of every live group. */
    ghost var history: map<string, seq<Sent>>

    ghost predicate Valid()
      reads this
    {
      && history.Keys == groups.Keys
      && forall key :: key in groups ==>
           GroupOk(CadenceOf(routes, groups[key].receiver), groups[key], history[key], Get(lastNotify, key))
    }

    constructor (routes: seq<Route>)
      ensures Valid() && groups == map[] && this.routes == routes
    {
      this.routes := routes;
      groups, receivers, lastNotify, history := map[], {}, map[], map[];
    }

    /** The sends of a live group keep the intervals of its route. */
    lemma GroupKeepsCadence(key: string, i: nat, wait: int, interval: int, repeat: int, first: nat, second: nat)
      requires Valid() && key in groups && IsFirst(routes, groups[key].receiver, i)
      requires IsSetting(wait, routes[i].groupWait, 30_000_000_000)
      requires IsSetting(interval, routes[i].groupInterval, 300_000_000_000)
      requires IsSetting(repeat, routes[i].repeatInterval, 14_400_000_000_000)
      requires first < second < |history[key]|
      ensures
        var sends := history[key];
        && sends[first].at - groups[key].createdAt >= wait
        && sends[second].at - sends[first].at >= (second - first) * (if interval < repeat then interval else repeat)
        && sends[second].at - sends[second - 1].at
           >= if sends[second].updatedAt > sends[second - 1].at then interval else repeat
    {
      hide CadenceOf;
      var c, sends := CadenceOf(routes, groups[key].receiver), history[key];
      CadenceIsOfRoute(routes, groups[key].receiver);
      SendsAreSpaced(c, groups[key].createdAt, sends, first, second);
      SendsAreSpaced(c, groups[key].createdAt, sends, 0, first);
      Multiples(first, if interval < repeat then interval else repeat);
    }

    /** The alert replaces the one with its fingerprint, or joins the group. An existing group keeps its receiver. */
    method AddToGroup(key: string, alert: AlertRef, receiver: string, createdAt: Time, updatedAt: Time)
      requires Valid()
      modifies this`groups, this`history
      ensures Valid() && key in groups
      ensures forall other :: other != key ==> (other in groups <==> other in old(groups))
      ensures forall other :: other != key && other in groups ==>
                groups[other] == old(groups)[other] && history[other] == old(history)[other]
      ensures
        var g := if key in old(groups) then old(groups)[key] else Group([], receiver, createdAt, createdAt, None);
        groups[key] == g.(alerts := groups[key].alerts, updatedAt := updatedAt)
        && Joined(g.alerts, groups[key].alerts, alert)
        && history[key] == (if key in old(groups) then old(history)[key] else [])
    {
      hide CadenceOf, Paced, Joined, Distinct;
      NothingSent(CadenceOf(routes, receiver), createdAt);
      var group;
      if key in groups {
        group := groups[key];
      } else {
        group := Group([], receiver, createdAt, createdAt, None);
        NothingDistinct();
        history := history[key := []];
      }
      ghost var before := group.alerts;
      var found := false;
      var i := 0;
      while i < |group.alerts|
        invariant 0 <= i <= |group.alerts| && !found
        invariant forall j :: 0 <= j < i ==> group.alerts[j].fingerprint != alert.fingerprint
        decreases |group.alerts| - i
      {
        if group.alerts[i].fingerprint == alert.fingerprint {
          JoinsAt(group.alerts, i, alert);
          group := group.(alerts := group.alerts[i := alert]);
          found := true;
          break;
        }
        i := i + 1;
      }
      if !found {
        JoinsAtEnd(group.alerts, alert);
        group := group.(alerts := group.alerts + [alert]);
      }
      assert Joined(before, group.alerts, alert) && Distinct(group.alerts);
      groups := groups[key := group.(updatedAt := updatedAt)];
    }

    /** One pass over a group. live gives the states its alerts have now; sendOk is the receiver's answer. */
    method ProcessGroup(key: string, live: AlertRef -> AlertState, now: Time, sendOk: bool, sentAt: Time)
      returns (sent: Option<seq<AlertRef>>)
      requires Valid() && key in groups && now <= sentAt
      modifies this
      ensures Valid() && receivers == old(receivers)
      ensures sent.Some? <==>
        && Allowed(routes, old(groups)[key], old(history)[key], now)
        && AnyFiring(old(groups)[key].alerts, live)
        && old(groups)[key].receiver in receivers && sendOk
      ensures sent.Some? ==>
        && sent.value == Firings(old(groups)[key].alerts, live)
        && groups == old(groups)[key := old(groups)[key].(notifiedAt := Some(sentAt))]
        && lastNotify == old(lastNotify)[key := sentAt]
        && history == old(history)[key := old(history)[key] + [Sent(sentAt, old(groups)[key].updatedAt)]]
      ensures sent.None? ==>
        && lastNotify == old(lastNotify)
        && if !AnyFiring(old(groups)[key].alerts, live) && Lapsed(old(groups)[key], live, now)
           then groups == old(groups) - {key} && history == old(history) - {key}
           else groups == old(groups) && history == old(history)
    {
      hide CadenceOf, Paced, Allowed, Firings, AnyFiring, Distinct;
      var group := groups[key];
      DueIsAllowed(routes, group, history[key], now);
      var firing := FiringOf(group.alerts, live);
      FiringsAre(group.alerts, live);
      if firing == [] {
        HandleResolvedGroup(key, live, now);
        return None;
      }
      var c := CadenceOf(routes, group.receiver);
      var shouldNotify := false;
      if group.notifiedAt.None? {
        if now - group.createdAt >= c.groupWait {
          shouldNotify := true;
        }
      } else if group.updatedAt > group.notifiedAt.value {
        if now - group.notifiedAt.value >= c.groupInterval {
          shouldNotify := true;
        }
      } else {
        var last := if key in lastNotify then lastNotify[key] else 0;
        if now - last >= c.repeatInterval {
          shouldNotify := true;
        }
      }
      if !shouldNotify || group.receiver !in receivers || !sendOk {
        return None;
      }
      PacedGrows(c, group.createdAt, history[key], Sent(sentAt, group.updatedAt));
      groups := groups[key := group.(notifiedAt := Some(sentAt))];
      lastNotify := lastNotify[key := sentAt];
      history := history[key := history[key] + [Sent(sentAt, group.updatedAt)]];
      return Some(firing);
    }

    /** A group without firing alerts is deleted once it has been quiet for long enough. */
    method HandleResolvedGroup(key: string, live: AlertRef -> AlertState, now: Time)
      requires Valid() && key in groups
      modifies this`groups, this`history
      ensures Valid()
      ensures
        var g := old(groups)[key];
        var quiet := if g.notifiedAt.Some?
                     then (forall a :: a in g.alerts ==> live(a) == Resolved || live(a) == Inactive)
                          && now - g.updatedAt > 900_000_000_000
                     else now - g.createdAt > 300_000_000_000;
        if quiet then groups == old(groups) - {key} && history == old(history) - {key}
        else groups == old(groups) && history == old(history)
    {
      hide CadenceOf, Paced;
      var group := groups[key];
      var expired;
      if group.notifiedAt.Some? {
        var hasUnresolved := false;
        for i := 0 to |group.alerts|
          invariant hasUnresolved <==>
                      exists j :: 0 <= j < i && live(group.alerts[j]) != Resolved && live(group.alerts[j]) != Inactive
        {
          if live(group.alerts[i]) != Resolved && live(group.alerts[i]) != Inactive {
            hasUnresolved := true;
          }
        }
        expired := !hasUnresolved && now - group.updatedAt > 900 * SECOND;
      } else {
        expired := now - group.createdAt > 300 * SECOND;
      }
      if expired {
        groups := groups - {key};
        history := history - {key};
      }
    }

    static method FiringOf(alerts: seq<AlertRef>, live: AlertRef -> AlertState) returns (firing: seq<AlertRef>)
      ensures firing == Firings(alerts, live)
    {
      firing := [];
      for i := 0 to |alerts|
        invariant firing == Firings(alerts[..i], live)
      {
        assert alerts[..i + 1][..i] == alerts[..i];
        if live(alerts[i]) == Firing {
          firing := firing + [alerts[i]];
        }
      }
      assert alerts[..|alerts|] == alerts;
    }
  }

  ghost predicate AnyFiring(alerts: seq<AlertRef>, live: AlertRef -> AlertState) {
    exists a :: a in alerts && live(a) == Firing
  }

  /** The firing alerts, in order. */
  function Firings(alerts: seq<AlertRef>, live: AlertRef -> AlertState): seq<AlertRef> {
    if alerts == [] then []
    else var last := alerts[|alerts| - 1];
         Firings(alerts[..|alerts| - 1], live) + if live(last) == Firing then [last] else []
  }

  lemma {:induction false} FiringsAre(alerts: seq<AlertRef>, live: AlertRef -> AlertState)
    ensures Firings(alerts, live) != [] <==> AnyFiring(alerts, live)
    ensures forall a :: a in Firings(alerts, live) <==> a in alerts && live(a) == Firing
  {
    if alerts != [] {
      var n := |alerts| - 1;
      FiringsAre(alerts[..n], live);
      assert alerts == alerts[..n] + [alerts[n]];
    }
  }

  /** A quiet group may go: 15 minutes after its last update if it was notified, else 5 minutes after its creation. */
  ghost predicate Lapsed(g: Group, live: AlertRef -> AlertState, now: Time) {
    if g.notifiedAt.Some?
    then (forall a :: a in g.alerts ==> live(a) == Resolved || live(a) == Inactive) && now - g.updatedAt > 900 * SECOND
    else now - g.createdAt > 300 * SECOND
  }

  /** after is before with the alert in the place of its fingerprint, or at the end. */
  ghost predicate Joined(before: seq<AlertRef>, after: seq<AlertRef>, alert: AlertRef) {
    || (after == before + [alert] && forall j :: 0 <= j < |before| ==> before[j].fingerprint != alert.fingerprint)
    || exists i :: 0 <= i < |before| && before[i].fingerprint == alert.fingerprint && after == before[i := alert]
  }

  lemma JoinsAt(alerts: seq<AlertRef>, i: nat, alert: AlertRef)
    requires Distinct(alerts) && i < |alerts| && alerts[i].fingerprint == alert.fingerprint
    ensures Joined(alerts, alerts[i := alert], alert) && Distinct(alerts[i := alert])
  {
  }

  lemma JoinsAtEnd(alerts: seq<AlertRef>, alert: AlertRef)
    requires Distinct(alerts) && forall j :: 0 <= j < |alerts| ==> alerts[j].fingerprint != alert.fingerprint
    ensures Joined(alerts, alerts + [alert], alert) && Distinct(alerts + [alert])
  {
  }
}
