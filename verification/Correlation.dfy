/** Values and arithmetic of headerless correlation: internal/correlation/headerless.go. */
module Correlation {
  import opened Common
  import opened Reals
  import opened Totals

  datatype ThreadKey = ThreadKey(pid: nat, tid: nat)

  /** Times are in nanoseconds. */
  type Time = int

  datatype RequestEvent = RequestEvent(id: string, thread: ThreadKey, socket: nat, timestamp: Time,
                                       attributes: map<string, string>)

  datatype Activity = Idle | Processing | Waiting

  datatype ThreadState = ThreadState(current: Option<RequestEvent>, outbound: seq<RequestEvent>, activity: Activity,
                                     lastActivity: Time, processed: nat)

  datatype Method = Header | Socket | Timing | Content | Unknown

  function Confidence(m: Method): real {
    match m
    case Header => 0.95
    case Socket => 0.85
    case Content => 0.80
    case Timing => 0.70
    case Unknown => 0.50
  }

  datatype Result = Result(inbound: string, outbound: string, via: Method, confidence: real, warnings: seq<string>)

  datatype Config = Config(timingWindowMs: int, threadStateMaxAge: int, maxPendingOutbound: nat,
                           detectConnectionPooling: bool, detectAsyncWorkers: bool, headers: seq<string>)

  const NS_PER_MS := 1_000_000

  // ---- Confidence of a correlation by timing ----

  /** How close in time the two requests are: 1 at once, 0 at the edge of the window. */
  function Proximity(diff: int, windowMs: int): (p: real)
    requires 0 <= diff <= windowMs * NS_PER_MS && windowMs > 0
    ensures 0.0 <= p <= 1.0
  {
    WindowFraction(diff / NS_PER_MS, windowMs);
    1.0 - (diff / NS_PER_MS) as real / windowMs as real
  }

  lemma WindowFraction(ms: int, windowMs: int)
    requires 0 <= ms <= windowMs && windowMs > 0
    ensures 0.0 <= ms as real / windowMs as real <= 1.0
  {
    var q := ms as real / windowMs as real;
    DivideBack(ms as real, windowMs as real);
    Cancel(q, 1.0, windowMs as real);
    Cancel(0.0, q, windowMs as real);
  }

  function TimingConfidence(diff: int, windowMs: int, candidates: nat): (c: real)
    requires 0 <= diff <= windowMs * NS_PER_MS && windowMs > 0
    ensures 0.392 <= c <= 0.7
  {
    var scaled := Confidence(Timing) * (0.7 + 0.3 * Proximity(diff, windowMs));
    if candidates > 1 then scaled * 0.8 else scaled
  }

  /** Confidence falls evenly, by 0.21 over the window in whole milliseconds, and by a fifth when there are rivals. */
  lemma ConfidenceFallsEvenly(diff: int, windowMs: int, candidates: nat)
    requires 0 <= diff <= windowMs * NS_PER_MS && windowMs > 0
    ensures (0.7 - TimingConfidence(diff, windowMs, 1)) * windowMs as real == 0.21 * (diff / 1_000_000) as real
    ensures TimingConfidence(diff, windowMs, candidates) ==
              (if candidates > 1 then 0.8 else 1.0) * TimingConfidence(diff, windowMs, 1)
  {
    var ms, w := (diff / NS_PER_MS) as real, windowMs as real;
    var q := ms / w;
    DivideBack(ms, w);
    assert TimingConfidence(diff, windowMs, 1) == 0.7 - 0.21 * q;
    assert (0.21 * q) * w == 0.21 * (q * w);
  }

  /** It is 0.7 at once and 0.49 at the edge of the window, for an only candidate. */
  lemma ConfidenceAtTheEnds(windowMs: int)
    requires windowMs > 0
    ensures TimingConfidence(0, windowMs, 1) == 0.7
    ensures TimingConfidence(windowMs * 1_000_000, windowMs, 1) == 0.49
  {
    var w := windowMs as real;
    assert 0.0 / w == 0.0;
    assert (windowMs * NS_PER_MS) / NS_PER_MS == windowMs;
    DivideBack(w, w);
    CancelEqual(w / w, 1.0, w);
  }

  /** Of two candidates in the same situation the closer one gets more confidence, if it is closer by a millisecond. */
  lemma CloserIsSurer(near: int, far: int, windowMs: int, candidates: nat)
    requires 0 <= near <= far <= windowMs * NS_PER_MS && windowMs > 0
    ensures TimingConfidence(near, windowMs, candidates) >= TimingConfidence(far, windowMs, candidates)
    ensures TimingConfidence(near, windowMs, candidates) > TimingConfidence(far, windowMs, candidates) <==>
              near / 1_000_000 < far / 1_000_000
  {
    hide TimingConfidence;
    ConfidenceFallsEvenly(near, windowMs, candidates);
    ConfidenceFallsEvenly(far, windowMs, candidates);
    var a, b, w := TimingConfidence(near, windowMs, 1), TimingConfidence(far, windowMs, 1), windowMs as real;
    if near / 1_000_000 < far / 1_000_000 {
      Below(0.7 - a, 0.7 - b, w);
    } else {
      CancelEqual(0.7 - a, 0.7 - b, w);
    }
  }

  lemma Below(a: real, b: real, n: real)
    requires n > 0.0 && a * n < b * n
    ensures a < b
  {
    if a > b {
      Scale(b, a, n);
      assert false;
    }
  }

  // ---- Running statistics ----

  function SumConfidence(all: seq<Result>): real {
    if all == [] then 0.0 else SumConfidence(all[..|all| - 1]) + all[|all| - 1].confidence
  }

  function CountMethod(all: seq<Result>, m: Method): nat {
    if all == [] then 0 else CountMethod(all[..|all| - 1], m) + if all[|all| - 1].via == m then 1 else 0
  }

  function OfInbound(all: seq<Result>, id: string): seq<Result> {
    if all == [] then []
    else OfInbound(all[..|all| - 1], id) + if all[|all| - 1].inbound == id then [all[|all| - 1]] else []
  }

  function Get<V>(m: map<string, seq<V>>, id: string): seq<V> {
    if id in m then m[id] else []
  }

  function GetCount(m: map<Method, nat>, k: Method): nat {
    if k in m then m[k] else 0
  }

  ghost function Sizes(m: map<string, seq<Result>>): map<string, int> {
    map id | id in m :: |m[id]|
  }

  /** The statistics and the stored lists are those of the correlations found so far, in the order they were found. */
  ghost predicate Tallied(all: seq<Result>, stored: map<string, seq<Result>>, found: nat,
                          byMethod: map<Method, nat>, average: real) {
    && found == |all|
    && (forall id :: Get(stored, id) == OfInbound(all, id))
    && Total(Sizes(stored)) == |all|
    && (forall m :: GetCount(byMethod, m) == CountMethod(all, m))
    && average * found as real == SumConfidence(all)
  }

  /** The average over total values, the last of which is c, from the average over the others. */
  function RunningMean(average: real, total: nat, c: real): (m: real)
    requires total > 0
    ensures m * total as real == average * (total - 1) as real + c
  {
    DivideBack(average * (total as real - 1.0) + c, total as real);
    (average * (total as real - 1.0) + c) / total as real
  }

  lemma TallyAdds(all: seq<Result>, stored: map<string, seq<Result>>, found: nat, byMethod: map<Method, nat>,
                  average: real, r: Result)
    requires Tallied(all, stored, found, byMethod, average)
    ensures Tallied(all + [r], stored[r.inbound := Get(stored, r.inbound) + [r]], found + 1,
                    byMethod[r.via := GetCount(byMethod, r.via) + 1],
                    RunningMean(average, found + 1, r.confidence))
  {
    hide Total, Sizes, OfInbound, CountMethod, SumConfidence, RunningMean;
    HistoryGrows(all, r);
    StoredGrows(stored, r);
  }

  lemma HistoryGrows(all: seq<Result>, r: Result)
    ensures SumConfidence(all + [r]) == SumConfidence(all) + r.confidence
    ensures forall m :: CountMethod(all + [r], m) == CountMethod(all, m) + if r.via == m then 1 else 0
    ensures forall id :: OfInbound(all + [r], id) == OfInbound(all, id) + if r.inbound == id then [r] else []
  {
    assert (all + [r])[..|all|] == all;
  }

  lemma StoredGrows(stored: map<string, seq<Result>>, r: Result)
    ensures Total(Sizes(stored[r.inbound := Get(stored, r.inbound) + [r]])) == Total(Sizes(stored)) + 1
  {
    var list := Get(stored, r.inbound) + [r];
    assert Sizes(stored[r.inbound := list]) == Sizes(stored)[r.inbound := |list|];
    TotalUpdate(Sizes(stored), r.inbound, |list|);
  }

  /** The counts by method add up to the total. */
  lemma {:induction false} MethodsAddUp(all: seq<Result>)
    ensures CountMethod(all, Header) + CountMethod(all, Socket) + CountMethod(all, Timing)
            + CountMethod(all, Content) + CountMethod(all, Unknown) == |all|
  {
    if all != [] {
      MethodsAddUp(all[..|all| - 1]);
    }
  }

  ghost predicate InRange(all: seq<Result>, lo: real, hi: real) {
    forall i :: 0 <= i < |all| ==> lo <= all[i].confidence <= hi
  }

  lemma {:induction false} SumInRange(all: seq<Result>, lo: real, hi: real)
    requires InRange(all, lo, hi)
    ensures lo * |all| as real <= SumConfidence(all) <= hi * |all| as real
  {
    if all != [] {
      SumInRange(all[..|all| - 1], lo, hi);
    }
  }

  /** The running average is the exact mean, so it lies between the bounds of its terms. */
  lemma MeanInRange(all: seq<Result>, average: real, lo: real, hi: real)
    requires all != [] && InRange(all, lo, hi) && average * |all| as real == SumConfidence(all)
    ensures lo <= average <= hi
  {
    SumInRange(all, lo, hi);
    Cancel(lo, average, |all| as real);
    Cancel(average, hi, |all| as real);
  }

  // ---- Threads ----

  /** A correlation of these two requests is stored. */
  ghost predicate Correlated(stored: map<string, seq<Result>>, inbound: string, outbound: string) {
    exists i :: 0 <= i < |Get(stored, inbound)| && Get(stored, inbound)[i].outbound == outbound
  }

  ghost predicate ThreadOk(t: ThreadState, stored: map<string, seq<Result>>) {
    && (t.current.None? <==> t.activity == Idle)
    && (t.current.None? ==> t.outbound == [])
    && (t.activity == Waiting ==> t.outbound != [])
    && (t.current.Some? ==> forall o :: o in t.outbound ==> Correlated(stored, t.current.value.id, o.id))
  }

  ghost predicate ThreadsOk(threads: map<ThreadKey, ThreadState>, stored: map<string, seq<Result>>) {
    forall k :: k in threads ==> ThreadOk(threads[k], stored)
  }

  lemma StaysCorrelated(stored: map<string, seq<Result>>, r: Result, inbound: string, outbound: string)
    requires Correlated(stored, inbound, outbound) || (r.inbound == inbound && r.outbound == outbound)
    ensures Correlated(stored[r.inbound := Get(stored, r.inbound) + [r]], inbound, outbound)
  {
    var stored' := stored[r.inbound := Get(stored, r.inbound) + [r]];
    if Correlated(stored, inbound, outbound) {
      var i :| 0 <= i < |Get(stored, inbound)| && Get(stored, inbound)[i].outbound == outbound;
      assert Get(stored', inbound)[i] == Get(stored, inbound)[i];
    } else {
      assert Get(stored', inbound)[|Get(stored, inbound)|] == r;
    }
  }

  lemma ThreadsStayOk(threads: map<ThreadKey, ThreadState>, stored: map<string, seq<Result>>, r: Result)
    requires ThreadsOk(threads, stored)
    ensures ThreadsOk(threads, stored[r.inbound := Get(stored, r.inbound) + [r]])
  {
    var stored' := stored[r.inbound := Get(stored, r.inbound) + [r]];
    forall k | k in threads ensures ThreadOk(threads[k], stored') {
      var t := threads[k];
      if t.current.Some? {
        forall o | o in t.outbound ensures Correlated(stored', t.current.value.id, o.id) {
          StaysCorrelated(stored, r, t.current.value.id, o.id);
        }
      }
    }
  }

  // ---- Candidates for correlation by timing ----

  /** An inbound request of the same process that started at most the window before the outbound one. */
  predicate IsCandidate(t: ThreadState, outbound: RequestEvent, windowMs: int) {
    && t.current.Some?
    && t.current.value.timestamp <= outbound.timestamp
    && outbound.timestamp - t.current.value.timestamp <= windowMs * NS_PER_MS
    && t.current.value.thread.pid == outbound.thread.pid
  }

  ghost predicate IsClosest(threads: map<ThreadKey, ThreadState>, outbound: RequestEvent, windowMs: int, k: ThreadKey) {
    && k in threads && IsCandidate(threads[k], outbound, windowMs)
    && forall j :: j in threads && IsCandidate(threads[j], outbound, windowMs) ==>
         threads[j].current.value.timestamp <= threads[k].current.value.timestamp
  }

  ghost function Candidates(threads: map<ThreadKey, ThreadState>, outbound: RequestEvent, windowMs: int)
    : set<ThreadKey>
  {
    set k | k in threads && IsCandidate(threads[k], outbound, windowMs)
  }
}
