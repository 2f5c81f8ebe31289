/** The search for the deepest unhealthy upstream service: internal/alerting/dependency.go. */
module RootCause {
  import opened Common
  import opened Walks

  /** Upstream lists, and the services that have firing alerts. */
  datatype World = World(upstream: map<Id, seq<Id>>, firing: set<Id>)

  function Upstream(w: World, s: Id): seq<Id> {
    if s in w.upstream then w.upstream[s] else []
  }

  predicate FiringAt(w: World, s: Id, k: int) {
    0 <= k < |Upstream(w, s)| && Upstream(w, s)[k] in w.firing
  }

  /** Hops to firing upstream services. */
  ghost function Blame(w: World): Graph {
    map s | s in w.upstream :: set u | u in w.upstream[s] && u in w.firing
  }

  ghost predicate HasFiringUpstream(w: World, s: Id) {
    exists u :: Edge(Blame(w), s, u)
  }

  lemma BlameEdges(w: World, s: Id)
    ensures forall u :: Edge(Blame(w), s, u) ==> exists k :: FiringAt(w, s, k) && Upstream(w, s)[k] == u
    ensures forall k :: FiringAt(w, s, k) ==>
              Edge(Blame(w), s, Upstream(w, s)[k]) && Upstream(w, s)[k] in Targets(Blame(w))
  {
    forall k | FiringAt(w, s, k) ensures Edge(Blame(w), s, Upstream(w, s)[k]) {
      assert Upstream(w, s)[k] in Upstream(w, s);
    }
    forall u | Edge(Blame(w), s, u) ensures exists k :: FiringAt(w, s, k) && Upstream(w, s)[k] == u {
      var k :| 0 <= k < |Upstream(w, s)| && Upstream(w, s)[k] == u;
      assert FiringAt(w, s, k);
    }
  }

  // ---- What one traversal marks as visited ----

  ghost predicate Avoids(p: seq<Id>, no: set<Id>) {
    forall i :: 0 <= i < |p| ==> p[i] !in no
  }

  /** x can be reached from a without touching the ids in no. */
  ghost predicate Leads(g: Graph, a: Id, x: Id, no: set<Id>) {
    exists p :: Joins(g, p, a, x) && Avoids(p, no)
  }

  /** x is reached from one of the first k firing upstreams of s. */
  ghost predicate FromEarlier(w: World, s: Id, k: nat, no: set<Id>, x: Id) {
    exists j :: 0 <= j < k && FiringAt(w, s, j) && Leads(Blame(w), Upstream(w, s)[j], x, no)
  }

  /** The ids marked when the k-th upstream of s comes up, if those in before were marked when s was entered. */
  ghost function Marked(w: World, s: Id, k: nat, before: set<Id>): set<Id> {
    before + {s} + set x | x in Targets(Blame(w)) && FromEarlier(w, s, k, before + {s}, x)
  }

  lemma LeadsToTarget(g: Graph, a: Id, x: Id, no: set<Id>)
    requires Leads(g, a, x, no) && a in Targets(g)
    ensures x in Targets(g)
  {
    var p :| Joins(g, p, a, x) && Avoids(p, no);
    if |p| > 1 {
      assert Edge(g, p[|p| - 2], p[|p| - 1]);
    }
  }

  lemma InMarked(w: World, s: Id, k: nat, before: set<Id>, x: Id)
    requires k <= |Upstream(w, s)|
    ensures x in Marked(w, s, k, before) <==> x in before || x == s || FromEarlier(w, s, k, before + {s}, x)
  {
    if FromEarlier(w, s, k, before + {s}, x) {
      var j :| 0 <= j < k && FiringAt(w, s, j) && Leads(Blame(w), Upstream(w, s)[j], x, before + {s});
      BlameEdges(w, s);
      LeadsToTarget(Blame(w), Upstream(w, s)[j], x, before + {s});
    }
  }

  lemma LeadsOn(g: Graph, a: Id, b: Id, c: Id, no: set<Id>)
    requires Leads(g, a, b, no) && Leads(g, b, c, no)
    ensures Leads(g, a, c, no)
  {
    var p :| Joins(g, p, a, b) && Avoids(p, no);
    var q :| Joins(g, q, b, c) && Avoids(q, no);
    var r := p + q[1..];
    assert r[|r| - 1] == c;
    forall i | 0 < i < |r| ensures Edge(g, r[i - 1], r[i]) {
      if i >= |p| {
        assert r[i] == q[i - |p| + 1] && r[i - 1] == q[i - |p|];
      }
    }
    assert Joins(g, r, a, c) && Avoids(r, no);
  }

  lemma Suffix(g: Graph, p: seq<Id>, a: Id, x: Id, no: set<Id>, i: nat)
    requires Joins(g, p, a, x) && Avoids(p, no) && i < |p|
    ensures Leads(g, p[i], x, no)
  {
    assert Joins(g, p[i..], p[i], x) && Avoids(p[i..], no);
  }

  /** Exploring the k-th upstream, when it is fresh, marks exactly the next set. */
  lemma MarkFresh(w: World, s: Id, k: nat, before: set<Id>, after: set<Id>)
    requires FiringAt(w, s, k) && Upstream(w, s)[k] !in Marked(w, s, k, before)
    requires forall x :: x in after <==>
               x in Marked(w, s, k, before) || Leads(Blame(w), Upstream(w, s)[k], x, Marked(w, s, k, before))
    ensures after == Marked(w, s, k + 1, before)
  {
    hide Marked, Leads;
    var g, u, m, no := Blame(w), Upstream(w, s)[k], Marked(w, s, k, before), before + {s};
    forall x ensures x in after <==> x in Marked(w, s, k + 1, before) {
      InMarked(w, s, k, before, x);
      InMarked(w, s, k + 1, before, x);
      if Leads(g, u, x, m) {
        WeakerAvoid(w, s, k, before, u, x);
      }
      if Leads(g, u, x, no) && x !in m {
        StaysFresh(w, s, k, before, u, x);
      }
    }
  }

  lemma WeakerAvoid(w: World, s: Id, k: nat, before: set<Id>, u: Id, x: Id)
    requires Leads(Blame(w), u, x, Marked(w, s, k, before))
    ensures Leads(Blame(w), u, x, before + {s})
  {
    var p :| Joins(Blame(w), p, u, x) && Avoids(p, Marked(w, s, k, before));
    assert Avoids(p, before + {s});
  }

  /** A walk to an unmarked id that stays clear of s and of what was marked before s meets nothing marked since. */
  lemma StaysFresh(w: World, s: Id, k: nat, before: set<Id>, u: Id, x: Id)
    requires k <= |Upstream(w, s)| && Leads(Blame(w), u, x, before + {s}) && x !in Marked(w, s, k, before)
    ensures Leads(Blame(w), u, x, Marked(w, s, k, before))
  {
    hide Marked;
    var g, no := Blame(w), before + {s};
    var p :| Joins(g, p, u, x) && Avoids(p, no);
    forall i | 0 <= i < |p| ensures p[i] !in Marked(w, s, k, before) {
      InMarked(w, s, k, before, p[i]);
      InMarked(w, s, k, before, x);
      if FromEarlier(w, s, k, no, p[i]) {
        var j :| 0 <= j < k && FiringAt(w, s, j) && Leads(g, Upstream(w, s)[j], p[i], no);
        Suffix(g, p, u, x, no, i);
        LeadsOn(g, Upstream(w, s)[j], p[i], x, no);
      }
    }
    assert Avoids(p, Marked(w, s, k, before));
  }

  /** Nothing new is marked by the k-th upstream when it is healthy or already marked. */
  lemma MarkNothing(w: World, s: Id, k: nat, before: set<Id>)
    requires k < |Upstream(w, s)|
    requires !FiringAt(w, s, k) || Upstream(w, s)[k] in Marked(w, s, k, before)
    ensures Marked(w, s, k + 1, before) == Marked(w, s, k, before)
  {
    hide Marked, Leads;
    var g, u, no := Blame(w), Upstream(w, s)[k], before + {s};
    forall x ensures x in Marked(w, s, k, before) <==> x in Marked(w, s, k + 1, before) {
      InMarked(w, s, k, before, x);
      InMarked(w, s, k + 1, before, x);
      InMarked(w, s, k, before, u);
      if FiringAt(w, s, k) && Leads(g, u, x, no) {
        StartIsClear(g, u, x, no);
        var j :| 0 <= j < k && FiringAt(w, s, j) && Leads(g, Upstream(w, s)[j], u, no);
        LeadsOn(g, Upstream(w, s)[j], u, x, no);
      }
    }
  }

  lemma StartIsClear(g: Graph, a: Id, x: Id, no: set<Id>)
    requires Leads(g, a, x, no)
    ensures a !in no
  {
  }

  /** The set marked by a complete visit of s is what s leads to. */
  lemma MarkedAtEnd(w: World, s: Id, before: set<Id>)
    requires s !in before
    ensures forall x :: x in Marked(w, s, |Upstream(w, s)|, before) <==> x in before || Leads(Blame(w), s, x, before)
  {
    hide Marked;
    var g, n, no := Blame(w), |Upstream(w, s)|, before + {s};
    BlameEdges(w, s);
    forall x ensures x in Marked(w, s, n, before) <==> x in before || Leads(g, s, x, before) {
      InMarked(w, s, n, before, x);
      if FromEarlier(w, s, n, no, x) {
        var j :| 0 <= j < n && FiringAt(w, s, j) && Leads(g, Upstream(w, s)[j], x, no);
        Prepend(g, s, Upstream(w, s)[j], x, before);
      }
      assert Joins(g, [s], s, s) && Avoids([s], before);
      if Leads(g, s, x, before) && x != s {
        var u := LastExit(g, s, x, before);
        assert Edge(g, s, u);
      }
    }
  }

  lemma Prepend(g: Graph, s: Id, u: Id, x: Id, before: set<Id>)
    requires Edge(g, s, u) && Leads(g, u, x, before + {s}) && s !in before
    ensures Leads(g, s, x, before)
  {
    var p :| Joins(g, p, u, x) && Avoids(p, before + {s});
    var q := [s] + p;
    assert Joins(g, q, s, x);
    assert Avoids(q, before);
  }

  /** A walk from s to another id leaves s for the last time along some edge. */
  lemma LastExit(g: Graph, s: Id, x: Id, before: set<Id>) returns (u: Id)
    requires Leads(g, s, x, before) && x != s
    ensures Edge(g, s, u) && Leads(g, u, x, before + {s})
  {
    var p :| Joins(g, p, s, x) && Avoids(p, before);
    var i := |p| - 1;
    while p[i - 1] != s
      invariant 0 < i < |p| && forall m :: i <= m < |p| ==> p[m] != s
      decreases i
    {
      i := i - 1;
    }
    u := p[i];
    assert Joins(g, p[i..], u, x) && Avoids(p[i..], before + {s});
  }

  // ---- Which service is reported ----

  /** The last firing upstream of s among the first n. */
  ghost function LastFiring(w: World, s: Id, n: nat): (k: int)
    requires n <= |Upstream(w, s)|
    ensures -1 <= k < n
    ensures k >= 0 ==> FiringAt(w, s, k)
    ensures forall j :: k < j < n ==> !FiringAt(w, s, j)
  {
    if n == 0 then -1 else if FiringAt(w, s, n - 1) then n - 1 else LastFiring(w, s, n - 1)
  }

  /** The report for s, when before is already marked: follow the last firing upstream until it is marked or healthy. */
  ghost function Reported(w: World, s: Id, before: set<Id>): Option<Id>
    requires s !in before
    decreases Targets(Blame(w)) + {s} - before, 1
  {
    var k := LastFiring(w, s, |Upstream(w, s)|);
    if k < 0 then None else Some(ReportedVia(w, s, k, before))
  }

  ghost function ReportedVia(w: World, s: Id, k: nat, before: set<Id>): Id
    requires FiringAt(w, s, k) && s !in before
    decreases Targets(Blame(w)) + {s} - before, 0
  {
    BlameEdges(w, s);
    var u := Upstream(w, s)[k];
    var m := Marked(w, s, k, before);
    assert s in Targets(Blame(w)) + {s} - before && s !in Targets(Blame(w)) + {u} - m;
    if u in m then u
    else match Reported(w, u, m)
         case None => u
         case Some(r) => r
  }

  method FindRootCauseRecursive(w: World, s: Id, visited0: set<Id>) returns (cause: Option<Id>, visited: set<Id>)
    ensures s in visited0 ==> cause == None && visited == visited0
    ensures s !in visited0 ==> cause == Reported(w, s, visited0)
    ensures s !in visited0 ==> forall x :: x in visited <==> x in visited0 || Leads(Blame(w), s, x, visited0)
    decreases Targets(Blame(w)) + {s} - visited0
  {
    hide Marked, Leads, Blame;
    if s in visited0 {
      return None, visited0;
    }
    visited := visited0 + {s};
    cause := None;
    var upstreams := Upstream(w, s);
    BlameEdges(w, s);
    MarkedAtStart(w, s, visited0);
    for k := 0 to |upstreams|
      invariant visited == Marked(w, s, k, visited0)
      invariant cause == var l := LastFiring(w, s, k); if l < 0 then None else Some(ReportedVia(w, s, l, visited0))
    {
      var u := upstreams[k];
      if u !in w.firing {
        MarkNothing(w, s, k, visited0);
        continue;
      }
      assert FiringAt(w, s, k);
      InMarked(w, s, k, visited0, s);
      MarkedGrows(w, s, k, visited0);
      var deeper, marked := FindRootCauseRecursive(w, u, visited);
      if u in visited {
        MarkNothing(w, s, k, visited0);
      } else {
        MarkFresh(w, s, k, visited0, marked);
      }
      visited := marked;
      cause := if deeper.Some? then deeper else Some(u);
    }
    MarkedAtEnd(w, s, visited0);
  }

  lemma MarkedAtStart(w: World, s: Id, before: set<Id>)
    ensures Marked(w, s, 0, before) == before + {s}
  {
  }

  lemma MarkedGrows(w: World, s: Id, k: nat, before: set<Id>)
    ensures before + {s} <= Marked(w, s, k, before)
  {
  }

  method FindRootCause(w: World, s: Id) returns (cause: Option<Id>)
    ensures cause == Reported(w, s, {})
  {
    var visited;
    cause, visited := FindRootCauseRecursive(w, s, {});
  }

  // ---- What the report means ----

  /** A service is reported exactly when a direct upstream is firing; it is firing, and firing hops lead to it. */
  lemma {:induction false} ReportIsFiringUpstream(w: World, s: Id, before: set<Id>)
    requires s !in before
    ensures Reported(w, s, before).None? <==> !HasFiringUpstream(w, s)
    ensures Reported(w, s, before).Some? ==>
              var r := Reported(w, s, before).value;
              r in w.firing && exists u :: Edge(Blame(w), s, u) && Reaches(Blame(w), u, r)
    decreases Targets(Blame(w)) + {s} - before
  {
    hide Blame, Marked;
    BlameEdges(w, s);
    var g, k := Blame(w), LastFiring(w, s, |Upstream(w, s)|);
    if k >= 0 {
      var u, m := Upstream(w, s)[k], Marked(w, s, k, before);
      MarkedGrows(w, s, k, before);
      assert Joins(g, [u], u, u);
      if u !in m {
        ReportIsFiringUpstream(w, u, m);
        if Reported(w, u, m).Some? {
          var r := Reported(w, u, m).value;
          var v :| Edge(g, u, v) && Reaches(g, v, r);
          var p :| Joins(g, p, v, r);
          assert Joins(g, [u] + p, u, r);
        }
      }
    }
  }

  /** The search below s ends at a service that is already marked and still has firing upstreams of its own. */
  ghost predicate EndsMarked(w: World, s: Id, before: set<Id>)
    requires s !in before
    decreases Targets(Blame(w)) + {s} - before
  {
    var k := LastFiring(w, s, |Upstream(w, s)|);
    k >= 0 &&
    (BlameEdges(w, s);
     var u, m := Upstream(w, s)[k], Marked(w, s, k, before);
     assert s in Targets(Blame(w)) + {s} - before && s !in Targets(Blame(w)) + {u} - m;
     if u in m then HasFiringUpstream(w, u) else EndsMarked(w, u, m))
  }

  lemma {:induction false} RootUnlessEndsMarked(w: World, s: Id, before: set<Id>)
    requires s !in before && Reported(w, s, before).Some?
    ensures HasFiringUpstream(w, Reported(w, s, before).value) <==> EndsMarked(w, s, before)
    decreases Targets(Blame(w)) + {s} - before
  {
    hide Blame, Marked, HasFiringUpstream;
    BlameEdges(w, s);
    MarkedGrows(w, s, LastFiring(w, s, |Upstream(w, s)|), before);
    var k := LastFiring(w, s, |Upstream(w, s)|);
    var u, m := Upstream(w, s)[k], Marked(w, s, k, before);
    if u !in m {
      ReportIsFiringUpstream(w, u, m);
      if Reported(w, u, m).Some? {
        RootUnlessEndsMarked(w, u, m);
      }
    }
  }

  // ---- The same in terms of the graph alone ----

  /** v is the last firing upstream of u. */
  ghost predicate LastUpstream(w: World, u: Id, v: Id) {
    var k := LastFiring(w, u, |Upstream(w, u)|);
    k >= 0 && Upstream(w, u)[k] == v
  }

  /** The trail of last firing upstreams from s, as far as it is followed. */
  ghost predicate IsTrail(w: World, s: Id, p: seq<Id>) {
    p != [] && p[0] == s && forall i :: 0 < i < |p| ==> LastUpstream(w, p[i - 1], p[i])
  }

  function Ids(p: seq<Id>): set<Id> {
    set x | x in p
  }

  /** A walk from a firing upstream of p[i] before the last one leads to x and avoids the trail up to p[i]. */
  ghost predicate LedAside(w: World, p: seq<Id>, i: nat, x: Id)
    requires i < |p|
  {
    var k := LastFiring(w, p[i], |Upstream(w, p[i])|);
    k >= 0 && FromEarlier(w, p[i], k, Ids(p[..i + 1]), x)
  }

  /** The trail has been at x before it comes to its end, or a branch that leaves it earlier leads to x. */
  ghost predicate Met(w: World, p: seq<Id>, x: Id)
    requires p != []
  {
    x in p[..|p| - 1] || exists i: nat :: i < |p| - 1 && LedAside(w, p, i, x)
  }

  /** Some service on the trail was met before, and it has a firing upstream, as all those before it on the trail. */
  ghost predicate CutShort(w: World, s: Id) {
    exists p :: IsTrail(w, s, p) && Met(w, p, p[|p| - 1]) && HasFiringUpstream(w, p[|p| - 1])
  }

  lemma LedAsideLonger(w: World, p: seq<Id>, u: Id, i: nat, x: Id)
    requires i < |p|
    ensures LedAside(w, p + [u], i, x) <==> LedAside(w, p, i, x)
  {
    assert (p + [u])[..i + 1] == p[..i + 1];
  }

  /** What has been met one step later on the trail. */
  lemma MetLonger(w: World, p: seq<Id>, u: Id, x: Id)
    requires p != []
    ensures Met(w, p + [u], x) <==> Met(w, p, x) || x == p[|p| - 1] || LedAside(w, p, |p| - 1, x)
  {
    hide LedAside;
    var n, q := |p| - 1, p + [u];
    assert q[..|q| - 1] == p && p == p[..n] + [p[n]];
    if i: nat :| i < |q| - 1 && LedAside(w, q, i, x) {
      LedAsideLonger(w, p, u, i, x);
    }
    if i: nat :| i < n && LedAside(w, p, i, x) {
      LedAsideLonger(w, p, u, i, x);
      assert LedAside(w, q, i, x);
    }
    LedAsideLonger(w, p, u, n, x);
  }

  /** From what a branch leads to, it leads on to whatever can be reached clear of the trail. */
  lemma MetLeadsOn(w: World, p: seq<Id>, y: Id, x: Id)
    requires p != [] && Met(w, p, y) && Leads(Blame(w), y, x, Ids(p))
    ensures Met(w, p, x)
  {
    hide Leads;
    StartIsClear(Blame(w), y, x, Ids(p));
    assert y !in p[..|p| - 1];
    var i: nat :| i < |p| - 1 && LedAside(w, p, i, y);
    var no := Ids(p[..i + 1]);
    var k := LastFiring(w, p[i], |Upstream(w, p[i])|);
    var j :| 0 <= j < k && FiringAt(w, p[i], j) && Leads(Blame(w), Upstream(w, p[i])[j], y, no);
    AvoidLess(Blame(w), y, x, Ids(p), no);
    LeadsOn(Blame(w), Upstream(w, p[i])[j], y, x, no);
    assert LedAside(w, p, i, x);
  }

  lemma AvoidLess(g: Graph, a: Id, x: Id, no: set<Id>, no': set<Id>)
    requires Leads(g, a, x, no) && no' <= no
    ensures Leads(g, a, x, no')
  {
    var p :| Joins(g, p, a, x) && Avoids(p, no);
    assert Avoids(p, no');
  }

  /** A walk clear of the trail is clear of everything marked, unless its end has been met. */
  lemma ClearOfMarked(w: World, p: seq<Id>, marked: set<Id>, a: Id, x: Id)
    requires p != [] && (forall y :: y in marked <==> Met(w, p, y))
    requires Leads(Blame(w), a, x, Ids(p)) && !Met(w, p, x)
    ensures Leads(Blame(w), a, x, marked + {p[|p| - 1]})
  {
    hide Met;
    var g := Blame(w);
    var q :| Joins(g, q, a, x) && Avoids(q, Ids(p));
    forall i | 0 <= i < |q| ensures q[i] !in marked + {p[|p| - 1]} {
      if Met(w, p, q[i]) {
        Suffix(g, q, a, x, Ids(p), i);
        MetLeadsOn(w, p, q[i], x);
      }
      assert p[|p| - 1] in Ids(p);
    }
    assert Avoids(q, marked + {p[|p| - 1]});
  }

  /** The marks of the search, step by step along the trail, are what has been met. */
  lemma MarkedIsMet(w: World, p: seq<Id>, marked: set<Id>, k: nat, u: Id)
    requires p != [] && k == LastFiring(w, p[|p| - 1], |Upstream(w, p[|p| - 1])|)
    requires forall x :: x in marked <==> Met(w, p, x)
    ensures forall x :: x in Marked(w, p[|p| - 1], k, marked) <==> Met(w, p + [u], x)
  {
    hide Marked, Met, Leads;
    var s := p[|p| - 1];
    forall x ensures x in Marked(w, s, k, marked) <==> Met(w, p + [u], x) {
      InMarked(w, s, k, marked, x);
      MetLonger(w, p, u, x);
      assert p[..|p|] == p;
      if FromEarlier(w, s, k, marked + {s}, x) {
        var j :| 0 <= j < k && FiringAt(w, s, j) && Leads(Blame(w), Upstream(w, s)[j], x, marked + {s});
        TrailIsMet(w, p);
        AvoidLess(Blame(w), Upstream(w, s)[j], x, marked + {s}, Ids(p));
      }
      if FromEarlier(w, s, k, Ids(p), x) && !Met(w, p, x) {
        var j :| 0 <= j < k && FiringAt(w, s, j) && Leads(Blame(w), Upstream(w, s)[j], x, Ids(p));
        ClearOfMarked(w, p, marked, Upstream(w, s)[j], x);
      }
    }
  }

  lemma TrailIsMet(w: World, p: seq<Id>)
    requires p != []
    ensures forall x :: x in Ids(p) ==> x == p[|p| - 1] || Met(w, p, x)
  {
    assert p == p[..|p| - 1] + [p[|p| - 1]];
  }

  /** A trail that ends at something met before shows that the search ends at something marked. */
  lemma {:induction false} CutEndsMarked(w: World, p: seq<Id>, q: seq<Id>, marked: set<Id>)
    requires 0 < |p| < |q| && IsTrail(w, q[0], q) && p == q[..|p|] && p[|p| - 1] !in marked
    requires forall x :: x in marked <==> Met(w, p, x)
    requires Met(w, q, q[|q| - 1]) && HasFiringUpstream(w, q[|q| - 1])
    ensures EndsMarked(w, p[|p| - 1], marked)
    decreases |q| - |p|
  {
    hide Marked, Met, HasFiringUpstream, Blame;
    var s, u := p[|p| - 1], q[|p|];
    assert LastUpstream(w, q[|p| - 1], q[|p|]);
    var k := LastFiring(w, s, |Upstream(w, s)|);
    var m := Marked(w, s, k, marked);
    MarkedIsMet(w, p, marked, k, u);
    assert p + [u] == q[..|p| + 1];
    if |q| == |p| + 1 {
      assert p + [u] == q;
    } else if u in m {
      assert LastUpstream(w, q[|p|], q[|p| + 1]);
      BlameEdges(w, u);
      FiringIsUpstream(w, u, LastFiring(w, u, |Upstream(w, u)|));
    } else {
      CutEndsMarked(w, p + [u], q, m);
    }
  }

  lemma FiringIsUpstream(w: World, s: Id, k: int)
    requires FiringAt(w, s, k)
    ensures HasFiringUpstream(w, s)
  {
    hide Blame;
    BlameEdges(w, s);
  }

  lemma {:induction false} EndsMarkedIsCut(w: World, p: seq<Id>, marked: set<Id>) returns (q: seq<Id>)
    requires p != [] && IsTrail(w, p[0], p) && p[|p| - 1] !in marked
    requires (forall x :: x in marked <==> Met(w, p, x)) && EndsMarked(w, p[|p| - 1], marked)
    ensures q != [] && q[0] == p[0] && IsTrail(w, q[0], q)
    ensures Met(w, q, q[|q| - 1]) && HasFiringUpstream(w, q[|q| - 1])
    decreases Targets(Blame(w)) + {p[|p| - 1]} - marked
  {
    hide Marked, Met, HasFiringUpstream, Blame;
    var s := p[|p| - 1];
    var k := LastFiring(w, s, |Upstream(w, s)|);
    var u, m := Upstream(w, s)[k], Marked(w, s, k, marked);
    BlameEdges(w, s);
    MarkedGrows(w, s, k, marked);
    MarkedIsMet(w, p, marked, k, u);
    if u in m {
      q := p + [u];
    } else {
      q := EndsMarkedIsCut(w, p + [u], m);
    }
  }

  /**
   * The reported service has a firing upstream exactly when the trail of last firing upstreams is cut short: it comes
   * to a service it has been at, or to which an earlier firing upstream of a service on the trail leads clear of the
   * trail.
   */
  lemma RootUnlessCutShort(w: World, s: Id)
    requires Reported(w, s, {}).Some?
    ensures HasFiringUpstream(w, Reported(w, s, {}).value) <==> CutShort(w, s)
  {
    hide Blame, HasFiringUpstream, LedAside;
    RootUnlessEndsMarked(w, s, {});
    assert forall x :: !Met(w, [s], x);
    if EndsMarked(w, s, {}) {
      var q := EndsMarkedIsCut(w, [s], {});
    }
    if CutShort(w, s) {
      var q :| IsTrail(w, s, q) && Met(w, q, q[|q| - 1]) && HasFiringUpstream(w, q[|q| - 1]);
      assert q[..1] == [s];
      CutEndsMarked(w, [s], q, {});
    }
  }

  /** From root on, every firing service is listed once, by one service, and nothing lists root. */
  ghost predicate IsTree(w: World, root: Id) {
    && (forall u, i, v, j |
          FiringAt(w, u, i) && FiringAt(w, v, j) && Reaches(Blame(w), root, u) && Reaches(Blame(w), root, v) ::
          Upstream(w, u)[i] == Upstream(w, v)[j] ==> u == v && i == j)
    && (forall u, i :: FiringAt(w, u, i) && Reaches(Blame(w), root, u) ==> Upstream(w, u)[i] != root)
  }

  /** x is the root or was entered from an id of the set. */
  ghost predicate Entered(w: World, root: Id, ids: set<Id>, x: Id) {
    Reaches(Blame(w), root, x) && (x == root || exists y :: y in ids && Edge(Blame(w), y, x))
  }

  ghost predicate Grown(w: World, root: Id, ids: set<Id>) {
    forall x :: x in ids ==> Entered(w, root, ids, x)
  }

  lemma {:induction false} TreeIsNeverCut(w: World, root: Id, s: Id, before: set<Id>)
    requires IsTree(w, root) && s !in before && Grown(w, root, before) && Entered(w, root, before, s)
    ensures !EndsMarked(w, s, before)
    decreases Targets(Blame(w)) + {s} - before
  {
    hide Blame, Marked, IsTree, Grown, Entered, HasFiringUpstream;
    BlameEdges(w, s);
    var k := LastFiring(w, s, |Upstream(w, s)|);
    if k >= 0 {
      var u, m := Upstream(w, s)[k], Marked(w, s, k, before);
      MarkedGrows(w, s, k, before);
      TreeIsFresh(w, root, s, k, before);
      MarkedIsGrown(w, root, s, k, before);
      TreeIsNeverCut(w, root, u, m);
    }
  }

  lemma StepOn(g: Graph, a: Id, u: Id, v: Id)
    requires Reaches(g, a, u) && Edge(g, u, v)
    ensures Reaches(g, a, v)
  {
    var p :| Joins(g, p, a, u);
    Extend(g, p, a, u, v);
  }

  /** How an id reached from an earlier sibling was entered: from that sibling's list entry or from another such id. */
  lemma EnteredFrom(w: World, s: Id, k: nat, no: set<Id>, x: Id) returns (y: Id, j: nat)
    requires k <= |Upstream(w, s)| && FromEarlier(w, s, k, no, x) && s in no
    ensures FiringAt(w, y, j) && Upstream(w, y)[j] == x
    ensures (y == s && j < k) || (y != s && y !in no && FromEarlier(w, s, k, no, y))
  {
    var i :| 0 <= i < k && FiringAt(w, s, i) && Leads(Blame(w), Upstream(w, s)[i], x, no);
    var p :| Joins(Blame(w), p, Upstream(w, s)[i], x) && Avoids(p, no);
    if |p| == 1 {
      y, j := s, i;
    } else {
      y := p[|p| - 2];
      assert Edge(Blame(w), p[|p| - 2], p[|p| - 1]);
      BlameEdges(w, y);
      j :| FiringAt(w, y, j) && Upstream(w, y)[j] == x;
      assert Joins(Blame(w), p[..|p| - 1], Upstream(w, s)[i], y) && Avoids(p[..|p| - 1], no);
    }
  }

  lemma EarlierIsReached(w: World, root: Id, s: Id, k: nat, no: set<Id>, x: Id)
    requires Reaches(Blame(w), root, s) && FromEarlier(w, s, k, no, x)
    ensures Reaches(Blame(w), root, x)
  {
    hide Blame;
    var i :| 0 <= i < k && FiringAt(w, s, i) && Leads(Blame(w), Upstream(w, s)[i], x, no);
    BlameEdges(w, s);
    StepOn(Blame(w), root, s, Upstream(w, s)[i]);
    var p :| Joins(Blame(w), p, root, Upstream(w, s)[i]);
    assert Avoids(p, {});
    var q :| Joins(Blame(w), q, Upstream(w, s)[i], x) && Avoids(q, no);
    assert Avoids(q, {});
    LeadsOn(Blame(w), root, Upstream(w, s)[i], x, {});
  }

  /** In a tree the last firing upstream has not been marked by the time it comes up. */
  lemma TreeIsFresh(w: World, root: Id, s: Id, k: nat, before: set<Id>)
    requires IsTree(w, root) && s !in before && Grown(w, root, before) && Entered(w, root, before, s)
    requires FiringAt(w, s, k)
    ensures Upstream(w, s)[k] !in Marked(w, s, k, before)
  {
    hide Blame, Marked;
    var u, no := Upstream(w, s)[k], before + {s};
    InMarked(w, s, k, before, u);
    if FromEarlier(w, s, k, no, u) {
      var y, j := EnteredFrom(w, s, k, no, u);
      if y != s {
        EarlierIsReached(w, root, s, k, no, y);
      }
      assert false;
    } else if u in no {
      assert u != root && Entered(w, root, before, u);
      var y :| y in before && Edge(Blame(w), y, u);
      assert Entered(w, root, before, y);
      BlameEdges(w, y);
      assert false;
    }
  }

  lemma MarkedIsGrown(w: World, root: Id, s: Id, k: nat, before: set<Id>)
    requires s !in before && Grown(w, root, before) && Entered(w, root, before, s) && FiringAt(w, s, k)
    ensures Grown(w, root, Marked(w, s, k, before)) && Entered(w, root, Marked(w, s, k, before), Upstream(w, s)[k])
  {
    hide Blame, Marked;
    var u, no, m := Upstream(w, s)[k], before + {s}, Marked(w, s, k, before);
    BlameEdges(w, s);
    StepOn(Blame(w), root, s, u);
    MarkedGrows(w, s, k, before);
    forall x | x in m ensures Entered(w, root, m, x) {
      InMarked(w, s, k, before, x);
      if x in no {
        assert Entered(w, root, before, x);
      } else {
        EarlierIsReached(w, root, s, k, no, x);
        var y, j := EnteredFrom(w, s, k, no, x);
        BlameEdges(w, y);
        InMarked(w, s, k, before, y);
      }
    }
  }

  /** On a tree the reported service has no firing upstream. */
  lemma TreeReportIsRoot(w: World, s: Id)
    requires IsTree(w, s) && Reported(w, s, {}).Some?
    ensures !HasFiringUpstream(w, Reported(w, s, {}).value)
  {
    assert Joins(Blame(w), [s], s, s);
    TreeIsNeverCut(w, s, s, {});
    RootUnlessEndsMarked(w, s, {});
  }

  const DIAMOND := World(map["s" := ["a", "b"], "a" := ["c"], "b" := ["c"], "c" := ["d"]], {"a", "b", "c", "d"})

  lemma {:induction false} Confined(g: Graph, ids: set<Id>, p: seq<Id>, a: Id, x: Id)
    requires Joins(g, p, a, x) && a in ids && forall u, v :: u in ids && Edge(g, u, v) ==> v in ids
    ensures x in ids
    decreases |p|
  {
    if |p| > 1 {
      assert Edge(g, p[|p| - 2], p[|p| - 1]);
      Confined(g, ids, p[..|p| - 1], a, p[|p| - 2]);
    }
  }

  /** Without the tree shape: both branches of a diamond meet at c, and c is reported although d is firing above it. */
  lemma DiamondIsCutShort()
    ensures Reported(DIAMOND, "s", {}) == Some("c")
    ensures HasFiringUpstream(DIAMOND, "c")
  {
    var w, g := DIAMOND, Blame(DIAMOND);
    assert Edge(g, "c", "d");
    var m := Marked(w, "s", 1, {});
    InMarked(w, "s", 1, {}, "b");
    if FromEarlier(w, "s", 1, {"s"}, "b") {
      var p :| Joins(g, p, "a", "b") && Avoids(p, {"s"});
      Confined(g, {"a", "c", "d"}, p, "a", "b");
      assert false;
    }
    InMarked(w, "s", 1, {}, "c");
    assert FiringAt(w, "s", 0) && Joins(g, ["a", "c"], "a", "c") && Avoids(["a", "c"], {"s"});
    assert Leads(g, "a", "c", {"s"});
    assert {} + {"s"} == {"s"};
    MarkedGrows(w, "b", 0, m);
    assert LastFiring(w, "s", 2) == 1 && LastFiring(w, "b", 1) == 0;
    assert ReportedVia(w, "b", 0, m) == "c";
  }
}
