/** Request and response accounting: internal/aggregator/aggregator.go. */
module HttpAggregator {
  import opened Common
  import opened Totals

  type Time = int

  datatype Thread = Thread(pid: nat, tid: nat)

  datatype PendingRequest = PendingRequest(verb: string, path: string, timestamp: Time)

  function EndpointOf(r: PendingRequest): string {
    r.verb + " " + r.path
  }

  lemma EndpointIs(r: PendingRequest)
    ensures EndpointOf(r) == r.verb + " " + r.path
  {
  }

  datatype EndpointStats = EndpointStats(requestCount: nat, errorCount: nat, latencies: seq<int>, lastSeen: Time,
                                         p50: int, p99: int, avg: int)

  const NEW_ENDPOINT := EndpointStats(0, 0, [], 0, 0, 0, 0)

  const MAX_SAMPLES := 1000
  const REQUEST_TIMEOUT := 30_000_000_000

  datatype Answer = Answer(latency: int, status: int)

  /** What became of an endpoint's requests: the answers, and the counts of those never answered. */
  datatype Ledger = Ledger(answers: seq<Answer>, overwritten: nat, timedOut: nat)

  const NEW_LEDGER := Ledger([], 0, 0)

  function StatsOf(endpoints: map<string, EndpointStats>, e: string): EndpointStats {
    if e in endpoints then endpoints[e] else NEW_ENDPOINT
  }

  function LedgerOf(ledger: map<string, Ledger>, e: string): Ledger {
    if e in ledger then ledger[e] else NEW_LEDGER
  }

  function Latencies(answers: seq<Answer>): seq<int> {
    seq(|answers|, i requires 0 <= i < |answers| => answers[i].latency)
  }

  /** The number of 4xx and 5xx answers. */
  function Failures(answers: seq<Answer>): nat {
    if answers == [] then 0
    else Failures(answers[..|answers| - 1]) + if answers[|answers| - 1].status >= 400 then 1 else 0
  }

  function Answered(l: Ledger, latency: int, status: int): Ledger {
    l.(answers := l.answers + [Answer(latency, status)])
  }

  lemma AnswerCounts(l: Ledger, latency: int, status: int)
    ensures Latencies(Answered(l, latency, status).answers) == Latencies(l.answers) + [latency]
    ensures Failures(Answered(l, latency, status).answers) == Failures(l.answers) + if status >= 400 then 1 else 0
  {
    assert (l.answers + [Answer(latency, status)])[..|l.answers|] == l.answers;
  }

  lemma {:induction false} FailuresFit(answers: seq<Answer>)
    ensures Failures(answers) <= |answers|
  {
    if answers != [] {
      FailuresFit(answers[..|answers| - 1]);
    }
  }

  /** The threads waiting for an answer from the endpoint. */
  ghost function WaitingFor(pending: map<Thread, PendingRequest>, e: string): set<Thread> {
    set t | t in pending && EndpointOf(pending[t]) == e
  }

  // ---- Order statistics ----

  ghost predicate Ascending(s: seq<int>) {
    forall i, j :: 0 <= i < j < |s| ==> s[i] <= s[j]
  }

  /** x stands at position k when s is put in order. */
  ghost predicate IsOrderStatistic(s: seq<int>, k: nat, x: int) {
    exists t :: Ascending(t) && multiset(t) == multiset(s) && k < |t| && t[k] == x
  }

  /** There is only one way to put a sequence in order, so an order statistic is unique. */
  lemma {:induction false} OrderIsUnique(t: seq<int>, u: seq<int>)
    requires Ascending(t) && Ascending(u) && multiset(t) == multiset(u)
    ensures t == u
  {
    hide Ascending;
    assert |t| == |multiset(t)| && |u| == |multiset(u)|;
    if t == [] {
      assert u == [];
    } else {
      var n := |t| - 1;
      LastIsGreatest(t, u);
      LastIsGreatest(u, t);
      WithoutLast(t);
      WithoutLast(u);
      AscendingPrefix(t);
      AscendingPrefix(u);
      OrderIsUnique(t[..n], u[..n]);
      assert t == t[..n] + [t[n]] && u == u[..n] + [u[n]];
    }
  }

  lemma LastIsGreatest(t: seq<int>, u: seq<int>)
    requires Ascending(t) && u != [] && t != [] && multiset(t) == multiset(u)
    ensures u[|u| - 1] <= t[|t| - 1]
  {
    var x := u[|u| - 1];
    assert x in multiset(t);
    var i :| 0 <= i < |t| && t[i] == x;
  }

  lemma AscendingPrefix(t: seq<int>)
    requires Ascending(t) && t != []
    ensures Ascending(t[..|t| - 1])
  {
  }

  lemma WithoutLast(t: seq<int>)
    requires t != []
    ensures multiset(t[..|t| - 1]) == multiset(t) - multiset{t[|t| - 1]}
  {
    assert t == t[..|t| - 1] + [t[|t| - 1]];
  }

  function Sum(s: seq<int>): int {
    if s == [] then 0 else Sum(s[..|s| - 1]) + s[|s| - 1]
  }

  lemma SumSnoc(s: seq<int>, x: int)
    ensures Sum(s + [x]) == Sum(s) + x
  {
    assert (s + [x])[..|s|] == s;
  }

  lemma {:induction false} SumInsert(s: seq<int>, k: nat, x: int)
    requires k <= |s|
    ensures Sum(s[..k] + [x] + s[k..]) == Sum(s) + x
    decreases |s| - k
  {
    var t := s[..k] + [x] + s[k..];
    if k == |s| {
      assert t == s + [x] && t[..|s|] == s;
    } else {
      var init := s[..|s| - 1];
      assert t[..|t| - 1] == init[..k] + [x] + init[k..];
      SumInsert(init, k, x);
    }
  }

  /** A sorted copy; which sorting algorithm is used does not matter. */
  method SortedCopy(s: seq<int>) returns (t: seq<int>)
    ensures Ascending(t) && multiset(t) == multiset(s) && |t| == |s| && Sum(t) == Sum(s)
  {
    hide Sum;
    t := [];
    assert s[..0] == [];
    for i := 0 to |s|
      invariant Ascending(t) && multiset(t) == multiset(s[..i]) && |t| == i && Sum(t) == Sum(s[..i])
    {
      assert s[..i + 1] == s[..i] + [s[i]];
      SumSnoc(s[..i], s[i]);
      t := Insert(t, s[i]);
    }
    assert s[..|s|] == s;
  }

  method Insert(t: seq<int>, x: int) returns (u: seq<int>)
    requires Ascending(t)
    ensures Ascending(u) && multiset(u) == multiset(t) + multiset{x} && |u| == |t| + 1 && Sum(u) == Sum(t) + x
  {
    hide Sum;
    var k := 0;
    while k < |t| && t[k] <= x
      invariant 0 <= k <= |t| && forall i :: 0 <= i < k ==> t[i] <= x
    {
      k := k + 1;
    }
    u := t[..k] + [x] + t[k..];
    SumInsert(t, k, x);
    InsertKeeps(t, k, x);
  }

  lemma InsertKeeps(t: seq<int>, k: nat, x: int)
    requires Ascending(t) && k <= |t| && (forall i :: 0 <= i < k ==> t[i] <= x) && (k < |t| ==> x < t[k])
    ensures var u := t[..k] + [x] + t[k..]; Ascending(u) && multiset(u) == multiset(t) + multiset{x}
  {
    assert t == t[..k] + t[k..];
  }

  /** Median, 99th percentile and mean of the recorded latencies. */
  method ComputePercentiles(stats: EndpointStats) returns (r: EndpointStats)
    ensures r == stats.(p50 := r.p50, p99 := r.p99, avg := r.avg)
    ensures stats.latencies == [] ==> r == stats
    ensures stats.latencies != [] ==> Summarised(r)
  {
    var n := |stats.latencies|;
    if n == 0 {
      return stats;
    }
    var sorted := SortedCopy(stats.latencies);
    var total := 0;
    for i := 0 to n
      invariant total == Sum(sorted[..i])
    {
      assert sorted[..i + 1][..i] == sorted[..i];
      total := total + sorted[i];
    }
    assert sorted[..n] == sorted;
    AverageIsAmong(sorted, stats.latencies);
    assert sorted[n * 50 / 100] == sorted[n * 50 / 100];
    r := stats.(avg := total / n, p50 := sorted[n * 50 / 100], p99 := sorted[n * 99 / 100]);
  }

  lemma {:induction false} SumInRange(s: seq<int>, lo: int, hi: int)
    requires forall i :: 0 <= i < |s| ==> lo <= s[i] <= hi
    ensures |s| * lo <= Sum(s) <= |s| * hi
  {
    if s != [] {
      SumInRange(s[..|s| - 1], lo, hi);
      assert |s| * lo == (|s| - 1) * lo + lo && |s| * hi == (|s| - 1) * hi + hi;
    }
  }

  /** The mean lies between the least and the greatest value. */
  lemma AverageInRange(sorted: seq<int>)
    requires Ascending(sorted) && sorted != []
    ensures sorted[0] <= Sum(sorted) / |sorted| <= sorted[|sorted| - 1]
  {
    var n := |sorted|;
    SumInRange(sorted, sorted[0], sorted[n - 1]);
    QuotientInRange(Sum(sorted), n, sorted[0], sorted[n - 1]);
  }

  lemma QuotientInRange(sum: int, n: nat, lo: int, hi: int)
    requires n > 0 && n * lo <= sum <= n * hi
    ensures lo <= sum / n <= hi
  {
    var q := sum / n;
    assert sum == n * q + sum % n && 0 <= sum % n < n;
    if q < lo {
      LessTimes(q, lo, n);
      assert false;
    } else if q > hi {
      LessTimes(hi, q, n);
      assert false;
    }
  }

  lemma LessTimes(a: int, b: int, n: nat)
    requires a < b
    ensures n * a + n <= n * b
  {
    assert n * (b - a - 1) >= 0;
    assert n * (b - a - 1) == n * b - n * a - n;
  }

  /** x lies between two of the values. */
  ghost predicate Among(s: seq<int>, x: int) {
    (exists i :: 0 <= i < |s| && s[i] <= x) && exists i :: 0 <= i < |s| && x <= s[i]
  }

  lemma AverageIsAmong(sorted: seq<int>, s: seq<int>)
    requires Ascending(sorted) && sorted != [] && multiset(sorted) == multiset(s)
    ensures Among(s, Sum(sorted) / |sorted|)
  {
    AverageInRange(sorted);
    var n := |sorted|;
    assert sorted[0] in multiset(s) && sorted[n - 1] in multiset(s);
    var i :| 0 <= i < |s| && s[i] == sorted[0];
    var j :| 0 <= j < |s| && s[j] == sorted[n - 1];
  }

  ghost predicate Summarised(s: EndpointStats) {
    var n := |s.latencies|;
    n > 0
    && IsOrderStatistic(s.latencies, n * 50 / 100, s.p50) && IsOrderStatistic(s.latencies, n * 99 / 100, s.p99)
    && s.p50 <= s.p99 && s.avg == Sum(s.latencies) / n
    && Among(s.latencies, s.avg)
  }

  lemma SameSummary(s: EndpointStats, s': EndpointStats)
    requires s' == s.(requestCount := s'.requestCount, lastSeen := s'.lastSeen)
    ensures Summarised(s') <==> Summarised(s)
  {
  }

  // ---- Accounting ----

  /** One endpoint's books balance. */
  ghost predicate Balanced(s: EndpointStats, l: Ledger, waiting: nat) {
    && s.requestCount == |l.answers| + waiting + l.overwritten + l.timedOut
    && s.errorCount == Failures(l.answers)
    && s.latencies == LastOf(Latencies(l.answers), MAX_SAMPLES)
    && (s.latencies != [] ==> Summarised(s))
  }

  ghost predicate AllBalanced(endpoints: map<string, EndpointStats>, pending: map<Thread, PendingRequest>,
                              ledger: map<string, Ledger>) {
    && ledger.Keys == endpoints.Keys
    && (forall t :: t in pending ==> EndpointOf(pending[t]) in endpoints)
    && forall e :: e in endpoints ==> Balanced(endpoints[e], ledger[e], |WaitingFor(pending, e)|)
  }

  lemma SizeWithout<T>(s: set<T>, x: T)
    ensures |s| == |s - {x}| + if x in s then 1 else 0
  {
    if x !in s {
      assert s - {x} == s;
    }
  }

  lemma WaitersAfterPut(pending: map<Thread, PendingRequest>, t: Thread, r: PendingRequest, e: string)
    ensures WaitingFor(pending[t := r], e) == WaitingFor(pending, e) - {t} + if EndpointOf(r) == e then {t} else {}
  {
    hide EndpointOf;
    var pending' := pending[t := r];
    forall x
      ensures x in WaitingFor(pending', e) <==> if x == t then EndpointOf(r) == e else x in WaitingFor(pending, e)
    {
      assert x in pending' <==> x == t || x in pending;
    }
  }

  lemma WaitingAfterPut(pending: map<Thread, PendingRequest>, t: Thread, r: PendingRequest, e: string)
    ensures |WaitingFor(pending[t := r], e)|
            == |WaitingFor(pending, e)| + (if EndpointOf(r) == e then 1 else 0)
               - (if t in pending && EndpointOf(pending[t]) == e then 1 else 0)
  {
    hide EndpointOf, WaitingFor;
    WaitersAfterPut(pending, t, r, e);
    IsWaiting(pending, t, e);
    var before := WaitingFor(pending, e);
    SizeWithout(before, t);
    SizeWithout(WaitingFor(pending[t := r], e), t);
    assert before - {t} - {t} == before - {t};
    assert before - {t} + {t} - {t} == before - {t};
  }

  lemma IsWaiting(pending: map<Thread, PendingRequest>, t: Thread, e: string)
    ensures t in WaitingFor(pending, e) <==> t in pending && EndpointOf(pending[t]) == e
  {
  }

  lemma SlotsAfterPut(pending: map<Thread, PendingRequest>, t: Thread, r: PendingRequest)
    ensures |pending[t := r]| == |pending| + if t in pending then 0 else 1
  {
    assert pending[t := r].Keys == pending.Keys + {t};
  }

  lemma WaitingAfterDelete(pending: map<Thread, PendingRequest>, t: Thread, e: string)
    requires t in pending
    ensures |WaitingFor(pending - {t}, e)| == |WaitingFor(pending, e)| - if EndpointOf(pending[t]) == e then 1 else 0
  {
    hide EndpointOf;
    var before, after := WaitingFor(pending, e), WaitingFor(pending - {t}, e);
    assert after == before - {t};
    SizeWithout(before, t);
  }

  /** Overwriting an unanswered request of the same thread. */
  function Overwrite(ledger: map<string, Ledger>, pending: map<Thread, PendingRequest>, t: Thread)
    : map<string, Ledger>
  {
    if t in pending then
      var e := EndpointOf(pending[t]);
      ledger[e := LedgerOf(ledger, e).(overwritten := LedgerOf(ledger, e).overwritten + 1)]
    else ledger
  }

  function Opened(ledger: map<string, Ledger>, pending: map<Thread, PendingRequest>, t: Thread, e: string)
    : map<string, Ledger>
  {
    var ledger1 := Overwrite(ledger, pending, t);
    ledger1[e := LedgerOf(ledger1, e)]
  }

  function Requested(endpoints: map<string, EndpointStats>, e: string, ts: Time): EndpointStats {
    var s := StatsOf(endpoints, e);
    s.(requestCount := s.requestCount + 1, lastSeen := ts)
  }

  lemma NothingAnswered()
    ensures Latencies([]) == [] && Failures([]) == 0 && LastOf<int>([], MAX_SAMPLES) == []
  {
  }

  lemma RequestBalances(endpoints: map<string, EndpointStats>, pending: map<Thread, PendingRequest>,
                        ledger: map<string, Ledger>, t: Thread, r: PendingRequest)
    requires AllBalanced(endpoints, pending, ledger)
    ensures var e := EndpointOf(r);
            AllBalanced(endpoints[e := Requested(endpoints, e, r.timestamp)], pending[t := r],
                        Opened(ledger, pending, t, e))
  {
    hide Summarised, Latencies, Failures, LastOf;
    var e := EndpointOf(r);
    NothingAnswered();
    var s := Requested(endpoints, e, r.timestamp);
    SameSummary(StatsOf(endpoints, e), s);
    var ledger' := Opened(ledger, pending, t, e);
    if e !in endpoints {
      assert WaitingFor(pending, e) == {};
    }
    forall x | x in endpoints[e := s]
      ensures Balanced(endpoints[e := s][x], ledger'[x], |WaitingFor(pending[t := r], x)|)
    {
      WaitingAfterPut(pending, t, r, x);
    }
  }

  lemma OpenRequest(endpoints: map<string, EndpointStats>, pending: map<Thread, PendingRequest>,
                    ledger: map<string, Ledger>, t: Thread)
    requires AllBalanced(endpoints, pending, ledger) && t in pending
    ensures var e := EndpointOf(pending[t]);
            && e in endpoints && e in ledger
            && endpoints[e].latencies == LastOf(Latencies(ledger[e].answers), MAX_SAMPLES)
  {
  }

  lemma ResponseBalances(endpoints: map<string, EndpointStats>, pending: map<Thread, PendingRequest>,
                         ledger: map<string, Ledger>, t: Thread, latency: int, status: int, s: EndpointStats)
    requires AllBalanced(endpoints, pending, ledger) && t in pending
    requires var e := EndpointOf(pending[t]);
             && s.requestCount == endpoints[e].requestCount
             && s.errorCount == endpoints[e].errorCount + (if status >= 400 then 1 else 0)
             && s.latencies == LastOf(Latencies(ledger[e].answers) + [latency], MAX_SAMPLES) && Summarised(s)
    ensures var e := EndpointOf(pending[t]);
            AllBalanced(endpoints[e := s], pending - {t}, ledger[e := Answered(ledger[e], latency, status)])
  {
    hide Summarised, EndpointOf, WaitingFor, Latencies, Failures, LastOf;
    var e := EndpointOf(pending[t]);
    var ledger' := ledger[e := Answered(ledger[e], latency, status)];
    AnswerCounts(ledger[e], latency, status);
    forall x | x in endpoints[e := s]
      ensures Balanced(endpoints[e := s][x], ledger'[x], |WaitingFor(pending - {t}, x)|)
    {
      WaitingAfterDelete(pending, t, x);
    }
  }

  function TimeOut(ledger: map<string, Ledger>, e: string): map<string, Ledger> {
    ledger[e := LedgerOf(ledger, e).(timedOut := LedgerOf(ledger, e).timedOut + 1)]
  }

  /** The two ledgers differ only in how many requests timed out. */
  ghost predicate OnlyTimedOut(before: map<string, Ledger>, after: map<string, Ledger>) {
    after.Keys == before.Keys && forall e :: e in after ==> after[e] == before[e].(timedOut := after[e].timedOut)
  }

  lemma TimeoutBalances(endpoints: map<string, EndpointStats>, pending: map<Thread, PendingRequest>,
                        ledger: map<string, Ledger>, t: Thread)
    requires AllBalanced(endpoints, pending, ledger) && t in pending
    ensures AllBalanced(endpoints, pending - {t}, TimeOut(ledger, EndpointOf(pending[t])))
  {
    hide Summarised, EndpointOf, WaitingFor, Latencies, Failures, LastOf;
    var ledger' := TimeOut(ledger, EndpointOf(pending[t]));
    forall x | x in endpoints ensures Balanced(endpoints[x], ledger'[x], |WaitingFor(pending - {t}, x)|) {
      WaitingAfterDelete(pending, t, x);
    }
  }

  ghost function Requests(endpoints: map<string, EndpointStats>): map<string, int> {
    map e | e in endpoints :: endpoints[e].requestCount
  }

  ghost function Errors(endpoints: map<string, EndpointStats>): map<string, int> {
    map e | e in endpoints :: endpoints[e].errorCount
  }

  lemma TotalsAfter(endpoints: map<string, EndpointStats>, e: string, s: EndpointStats)
    ensures Total(Requests(endpoints[e := s]))
            == Total(Requests(endpoints)) + s.requestCount - StatsOf(endpoints, e).requestCount
    ensures Total(Errors(endpoints[e := s]))
            == Total(Errors(endpoints)) + s.errorCount - StatsOf(endpoints, e).errorCount
  {
    assert Requests(endpoints[e := s]) == Requests(endpoints)[e := s.requestCount];
    assert Errors(endpoints[e := s]) == Errors(endpoints)[e := s.errorCount];
    TotalUpdate(Requests(endpoints), e, s.requestCount);
    TotalUpdate(Errors(endpoints), e, s.errorCount);
  }

  class Aggregator {
    var endpoints: map<string, EndpointStats>
    var pending: map<Thread, PendingRequest>
    ghost var ledger: map<string, Ledger>
    /** Requests answered, and requests that will never be. */
    ghost var answered: nat
    ghost var abandoned: nat

    ghost predicate Valid()
      reads this
    {
      && AllBalanced(endpoints, pending, ledger)
      && Total(Requests(endpoints)) == answered + |pending| + abandoned
      && Total(Errors(endpoints)) <= answered
    }

    constructor ()
      ensures Valid() && endpoints == map[] && pending == map[]
    {
      endpoints, pending, ledger, answered, abandoned := map[], map[], map[], 0, 0;
      assert Requests(map[]) == map[] && Errors(map[]) == map[];
    }

    /** A request opens the thread's slot; one that was still open there is lost. */
    method RecordRequest(t: Thread, verb: string, path: string, ts: Time)
      requires Valid()
      modifies this
      ensures Valid()
      ensures
        var e := verb + " " + path;
        var s := if e in old(endpoints) then old(endpoints)[e] else EndpointStats(0, 0, [], 0, 0, 0, 0);
        && pending == old(pending)[t := PendingRequest(verb, path, ts)]
        && endpoints == old(endpoints)[e := s.(requestCount := s.requestCount + 1, lastSeen := ts)]
        && ledger == Opened(old(ledger), old(pending), t, e)
    {
      hide AllBalanced, Total, EndpointOf, Opened, Requests, Errors;
      var r := PendingRequest(verb, path, ts);
      EndpointIs(r);
      var e := EndpointOf(r);
      var stats := StatsOf(endpoints, e);
      stats := stats.(requestCount := stats.requestCount + 1, lastSeen := ts);
      RequestBalances(endpoints, pending, ledger, t, r);
      TotalsAfter(endpoints, e, stats);
      SlotsAfterPut(pending, t, r);
      abandoned := abandoned + if t in pending then 1 else 0;
      ledger := Opened(ledger, pending, t, e);
      pending := pending[t := r];
      endpoints := endpoints[e := stats];
    }

    /** A response answers the thread's open request; without one it is ignored. */
    method RecordResponse(t: Thread, statusCode: int, ts: Time)
      requires Valid()
      modifies this
      ensures Valid()
      ensures t !in old(pending) ==> unchanged(this)
      ensures t in old(pending) ==>
        var r := old(pending)[t];
        var e, latency := r.verb + " " + r.path, if ts < r.timestamp then 0 else ts - r.timestamp;
        && pending == old(pending) - {t}
        && e in old(endpoints) && e in endpoints && endpoints == old(endpoints)[e := endpoints[e]]
        && endpoints[e].requestCount == old(endpoints)[e].requestCount
        && endpoints[e].errorCount == old(endpoints)[e].errorCount + (if statusCode >= 400 then 1 else 0)
        && endpoints[e].lastSeen == ts
        && ledger == old(ledger)[e := Answered(LedgerOf(old(ledger), e), latency, statusCode)]
    {
      hide Total, Summarised, AllBalanced, EndpointOf, LastOf, Requests, Errors, Latencies;
      if t !in pending {
        return;
      }
      OpenRequest(endpoints, pending, ledger, t);
      var r := pending[t];
      EndpointIs(r);
      var latency := ts - r.timestamp;
      if latency < 0 {
        latency := 0;
      }
      var e := EndpointOf(r);
      var stats := endpoints[e];
      if |stats.latencies| >= MAX_SAMPLES {
        stats := stats.(latencies := stats.latencies[1..]);
      }
      stats := stats.(latencies := stats.latencies + [latency]);
      LastSlides(Latencies(ledger[e].answers), latency, MAX_SAMPLES);
      if statusCode >= 400 {
        stats := stats.(errorCount := stats.errorCount + 1);
      }
      stats := stats.(lastSeen := ts);
      var final := ComputePercentiles(stats);
      ResponseBalances(endpoints, pending, ledger, t, latency, statusCode, final);
      TotalsAfter(endpoints, e, final);
      assert (pending - {t}).Keys == pending.Keys - {t};
      pending := pending - {t};
      ledger := ledger[e := Answered(ledger[e], latency, statusCode)];
      answered := answered + 1;
      endpoints := endpoints[e := final];
    }

    /** Requests older than the timeout are given up. */
    method Cleanup(now: Time)
      requires Valid()
      modifies this`pending, this`ledger, this`abandoned
      ensures Valid()
      ensures pending == map t | t in old(pending) && now - old(pending)[t].timestamp <= 30_000_000_000
                           :: old(pending)[t]
      ensures OnlyTimedOut(old(ledger), ledger)
    {
      hide AllBalanced, Total, Requests, Errors, EndpointOf;
      var todo := pending.Keys;
      while todo != {}
        invariant todo <= pending.Keys && AllBalanced(endpoints, pending, ledger)
        invariant abandoned + |pending| == old(abandoned) + |old(pending)| && OnlyTimedOut(old(ledger), ledger)
        invariant pending == map t | t in old(pending)
                                     && (t in todo || now - old(pending)[t].timestamp <= REQUEST_TIMEOUT)
                               :: old(pending)[t]
        decreases todo
      {
        var t :| t in todo;
        todo := todo - {t};
        if now - pending[t].timestamp > REQUEST_TIMEOUT {
          GiveUp(t);
        }
      }
    }

    method GiveUp(t: Thread)
      requires AllBalanced(endpoints, pending, ledger) && t in pending
      modifies this`pending, this`ledger, this`abandoned
      ensures AllBalanced(endpoints, pending, ledger) && OnlyTimedOut(old(ledger), ledger)
      ensures pending == old(pending) - {t} && |pending| == |old(pending)| - 1 && abandoned == old(abandoned) + 1
    {
      hide AllBalanced, EndpointOf;
      TimeoutBalances(endpoints, pending, ledger, t);
      OpenRequest(endpoints, pending, ledger, t);
      assert (pending - {t}).Keys == pending.Keys - {t};
      ledger := TimeOut(ledger, EndpointOf(pending[t]));
      pending := pending - {t};
      abandoned := abandoned + 1;
    }

    /** Per endpoint, the errors are the failed answers, and with the open requests they never exceed the requests. */
    lemma ErrorsAndPendingFit(e: string)
      requires Valid() && e in endpoints
      ensures e in ledger && endpoints[e].errorCount == Failures(ledger[e].answers)
      ensures endpoints[e].errorCount + |WaitingFor(pending, e)| <= endpoints[e].requestCount
      ensures endpoints[e].latencies == LastOf(Latencies(ledger[e].answers), 1000)
    {
      FailuresFit(ledger[e].answers);
    }

    /** The totals shown to users: errors and open requests together never exceed the requests. */
    method GetStats() returns (totalRequests: int, totalErrors: int)
      requires Valid()
      ensures totalRequests == Total(Requests(endpoints)) && totalErrors == Total(Errors(endpoints))
      ensures totalErrors + |pending| <= totalRequests
    {
      hide Total, AllBalanced;
      totalRequests, totalErrors := 0, 0;
      var todo := endpoints.Keys;
      assert Requests(endpoints).Keys == endpoints.Keys && Errors(endpoints).Keys == endpoints.Keys;
      TotalEnds(Requests(endpoints));
      TotalEnds(Errors(endpoints));
      while todo != {}
        invariant todo <= endpoints.Keys
        invariant totalRequests == Total(Requests(endpoints) - todo) && totalErrors == Total(Errors(endpoints) - todo)
        decreases todo
      {
        var e :| e in todo;
        TotalAdds(Requests(endpoints), todo, e);
        TotalAdds(Errors(endpoints), todo, e);
        todo := todo - {e};
        totalRequests := totalRequests + endpoints[e].requestCount;
        totalErrors := totalErrors + endpoints[e].errorCount;
      }
    }
  }

  /** Dropping the oldest sample when the window is full keeps the last ones. */
  lemma LastSlides(s: seq<int>, x: int, n: nat)
    requires n > 0
    ensures LastOf(s + [x], n) == (if |LastOf(s, n)| >= n then LastOf(s, n)[1..] else LastOf(s, n)) + [x]
  {
  }
}
