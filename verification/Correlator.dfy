/** The correlator object: thread activity, stored correlations and statistics, updated by every recorded event. */
module Correlator {
  import opened Common
  import opened Correlation
  import opened Totals

  predicate Awaits(t: ThreadState, id: string) {
    t.activity == Waiting && exists o :: o in t.outbound && o.id == id
  }

  function Resumed(t: ThreadState, id: string, endTime: Time): ThreadState {
    if Awaits(t, id) then t.(activity := Processing, lastActivity := endTime) else t
  }

  predicate Handles(t: ThreadState, id: string) {
    t.current.Some? && t.current.value.id == id
  }

  class HeaderlessCorrelator {
    const config: Config
    var threads: map<ThreadKey, ThreadState>
    var sockets: map<nat, seq<RequestEvent>>
    var pending: map<string, RequestEvent>
    var stored: map<string, seq<Result>>
    var totalInbound: nat
    var totalOutbound: nat
    var found: nat
    var byMethod: map<Method, nat>
    var averageConfidence: real
    var poolingDetected: nat
    var asyncDetected: nat
    /** Every correlation ever stored, in order. */
    ghost var all: seq<Result>

    ghost predicate Valid()
      reads this
    {
      && config.timingWindowMs != 0
      && ThreadsOk(threads, stored)
      && Tallied(all, stored, found, byMethod, averageConfidence)
      && InRange(all, 0.392, 0.85)
    }

    /** A zero window would divide zero by zero. */
    constructor (config: Config)
      requires config.timingWindowMs != 0
      ensures Valid() && this.config == config && threads == map[] && pending == map[] && sockets == map[] && all == []
      ensures totalInbound == totalOutbound == found == poolingDetected == asyncDetected == 0
    {
      this.config := config;
      threads, sockets, pending, stored := map[], map[], map[], map[];
      totalInbound, totalOutbound, found, byMethod, averageConfidence := 0, 0, 0, map[], 0.0;
      poolingDetected, asyncDetected, all := 0, 0, [];
      assert Sizes(map[]) == map[];
    }

    /** The statistics read at any time: totals agree, and the average is the mean of what is stored. */
    lemma StatisticsAgree()
      requires Valid()
      ensures found == Total(Sizes(stored))
      ensures found == GetCount(byMethod, Header) + GetCount(byMethod, Socket) + GetCount(byMethod, Timing)
                       + GetCount(byMethod, Content) + GetCount(byMethod, Unknown)
      ensures averageConfidence * found as real == SumConfidence(all)
      ensures found > 0 ==> 0.392 <= averageConfidence <= 0.85
    {
      hide ThreadsOk, Total, Sizes, OfInbound, CountMethod, SumConfidence;
      MethodsAddUp(all);
      if found > 0 {
        MeanInRange(all, averageConfidence, 0.392, 0.85);
      }
    }

    method AddCorrelation(r: Result)
      requires Valid() && 0.392 <= r.confidence <= 0.85
      modifies this`stored, this`found, this`byMethod, this`averageConfidence, this`all
      ensures Valid() && all == old(all) + [r]
      ensures stored == old(stored)[r.inbound := Get(old(stored), r.inbound) + [r]]
    {
      hide ThreadsOk, Tallied, RunningMean;
      ThreadsStayOk(threads, stored, r);
      TallyAdds(all, stored, found, byMethod, averageConfidence, r);
      stored := stored[r.inbound := Get(stored, r.inbound) + [r]];
      found := found + 1;
      byMethod := byMethod[r.via := GetCount(byMethod, r.via) + 1];
      averageConfidence := RunningMean(averageConfidence, found, r.confidence);
      all := all + [r];
    }

    method TrackSocket(event: RequestEvent)
      modifies this`sockets
      ensures sockets == Tracked(old(sockets), event)
    {
      if event.socket != 0 {
        sockets := sockets[event.socket := SocketRequests(sockets, event.socket) + [event]];
      }
    }

    method RecordInboundRequest(event: RequestEvent)
      requires Valid()
      modifies this`threads, this`sockets, this`totalInbound
      ensures Valid() && totalInbound == old(totalInbound) + 1 && sockets == Tracked(old(sockets), event)
      ensures threads == old(threads)[event.thread :=
                ThreadState(Some(event), [], Processing, event.timestamp, ProcessedBy(old(threads), event.thread))]
    {
      totalInbound := totalInbound + 1;
      var state := if event.thread in threads then threads[event.thread] else ThreadState(None, [], Idle, 0, 0);
      state := state.(current := Some(event), activity := Processing, lastActivity := event.timestamp, outbound := []);
      threads := threads[event.thread := state];
      TrackSocket(event);
    }

    /** Completing a request frees one thread that was handling it. Finalising its outbound calls adds nothing. */
    method RecordInboundComplete(requestID: string, endTime: Time)
      requires Valid()
      modifies this
      ensures Valid()
      ensures (threads == old(threads) && forall k :: k in threads ==> !Handles(threads[k], requestID))
           || exists k :: k in old(threads) && Handles(old(threads)[k], requestID)
                          && threads == old(threads)[k :=
                               ThreadState(None, [], Idle, endTime, old(threads)[k].processed + 1)]
      ensures stored == old(stored) && all == old(all) && found == old(found) && byMethod == old(byMethod)
              && averageConfidence == old(averageConfidence) && poolingDetected == old(poolingDetected)
      ensures sockets == old(sockets) && pending == old(pending) && asyncDetected == old(asyncDetected)
              && totalInbound == old(totalInbound) && totalOutbound == old(totalOutbound)
    {
      hide Tallied, InRange;
      var todo := threads.Keys;
      while todo != {}
        invariant todo <= threads.Keys
        invariant forall k :: k in threads && k !in todo ==> !Handles(threads[k], requestID)
        invariant unchanged(this)
        decreases todo
      {
        var k :| k in todo;
        todo := todo - {k};
        var state := threads[k];
        if Handles(state, requestID) {
          var current := state.current.value;
          assert ThreadOk(state, stored);
          for i := 0 to |state.outbound|
            invariant unchanged(this)
          {
            assert state.outbound[i] in state.outbound;
            FinalizeCorrelation(current, state.outbound[i]);
          }
          state := state.(activity := Idle, processed := state.processed + 1, lastActivity := endTime);
          state := state.(current := None, outbound := []);
          threads := threads[k := state];
          return;
        }
      }
    }

    /** Adds a correlation of the two requests unless there is one already. */
    method FinalizeCorrelation(inbound: RequestEvent, outbound: RequestEvent)
      requires Valid()
      modifies this`stored, this`found, this`byMethod, this`averageConfidence, this`all, this`poolingDetected
      ensures Valid() && Correlated(stored, inbound.id, outbound.id)
      ensures old(Correlated(stored, inbound.id, outbound.id)) ==> unchanged(this)
      ensures !old(Correlated(stored, inbound.id, outbound.id)) ==>
                && |all| == |old(all)| + 1 && all[..|old(all)|] == old(all)
                && IsSocketResult(inbound, outbound, Pooled(config, sockets, outbound), all[|old(all)|])
                && poolingDetected == old(poolingDetected) + OneIf(Pooled(config, sockets, outbound))
    {
      hide Tallied, InRange, ThreadsOk;
      var existing := Get(stored, inbound.id);
      for i := 0 to |existing|
        invariant forall j :: 0 <= j < i ==> existing[j].outbound != outbound.id
      {
        if existing[i].outbound == outbound.id {
          return;
        }
      }
      var warnings := DetectPooling(outbound, "connection_pooling_detected");
      var r := Result(inbound.id, outbound.id, Socket, Confidence(Socket), warnings);
      StaysCorrelated(stored, r, inbound.id, outbound.id);
      AddCorrelation(r);
    }

    method DetectPooling(event: RequestEvent, warning: string) returns (warnings: seq<string>)
      modifies this`poolingDetected
      ensures warnings == if Pooled(config, sockets, event) then [warning] else []
      ensures poolingDetected == old(poolingDetected) + OneIf(Pooled(config, sockets, event))
    {
      warnings := [];
      if config.detectConnectionPooling && event.socket != 0 {
        if |SocketRequests(sockets, event.socket)| > 2 {
          warnings := [warning];
          poolingDetected := poolingDetected + 1;
        }
      }
    }

    /** Direct correlation with the request the event's own thread is handling. */
    method CorrelateByThread(event: RequestEvent)
      requires Valid() && event.thread in threads && threads[event.thread].current.Some?
      modifies this`threads, this`stored, this`found, this`byMethod, this`averageConfidence, this`all,
               this`poolingDetected
      ensures Valid()
      ensures
        var t := old(threads)[event.thread];
        && threads == old(threads)[event.thread := t.(outbound := t.outbound + [event], activity := Waiting)]
        && |all| == |old(all)| + 1 && all[..|old(all)|] == old(all)
        && IsSocketResult(t.current.value, event, Pooled(config, sockets, event), all[|old(all)|])
        && poolingDetected == old(poolingDetected) + OneIf(Pooled(config, sockets, event))
        && stored == old(stored)[t.current.value.id := Get(old(stored), t.current.value.id) + [all[|old(all)|]]]
    {
      hide Tallied, InRange, ThreadsOk;
      var state := threads[event.thread];
      var current := state.current.value;
      var warnings := DetectPooling(event, "connection_pooling_detected");
      var r := Result(current.id, event.id, Socket, Confidence(Socket), warnings);
      ghost var before := stored;
      AddCorrelation(r);
      ListOutbound(threads, before, r, event.thread, event);
      threads := threads[event.thread := state.(outbound := state.outbound + [event], activity := Waiting)];
    }

    /** An outbound request of a thread that is handling a request is correlated at once; any other waits for timing. */
    method RecordOutboundRequest(event: RequestEvent)
      requires Valid()
      modifies this
      ensures Valid() && totalOutbound == old(totalOutbound) + 1
      ensures totalInbound == old(totalInbound) && asyncDetected == old(asyncDetected)
      ensures sockets == Tracked(old(sockets), event)
      ensures
        if event.thread in old(threads) && old(threads)[event.thread].current.Some? then
          var t := old(threads)[event.thread];
          && threads == old(threads)[event.thread := t.(outbound := t.outbound + [event], activity := Waiting)]
          && |all| == |old(all)| + 1 && all[..|old(all)|] == old(all)
          && IsSocketResult(t.current.value, event, Pooled(config, sockets, event), all[|old(all)|])
          && poolingDetected == old(poolingDetected) + OneIf(Pooled(config, sockets, event))
          && stored == old(stored)[t.current.value.id := Get(old(stored), t.current.value.id) + [all[|old(all)|]]]
          && pending == old(pending)
        else
          && threads == old(threads) && stored == old(stored) && all == old(all)
          && pending == old(pending)[event.id := event] && poolingDetected == old(poolingDetected)
    {
      hide Tallied, InRange;
      totalOutbound := totalOutbound + 1;
      TrackSocket(event);
      if event.thread in threads {
        var state := threads[event.thread];
        assert ThreadOk(state, stored);
        if state.current.Some? && (state.activity == Processing || state.activity == Waiting) {
          CorrelateByThread(event);
          return;
        }
      }
      pending := pending[event.id := event];
    }

    /** A completed outbound request is tried by timing if it was waiting; threads waiting for it resume. */
    method RecordOutboundComplete(requestID: string, endTime: Time)
      requires Valid()
      modifies this
      ensures Valid() && pending == old(pending) && sockets == old(sockets)
      ensures totalInbound == old(totalInbound) && totalOutbound == old(totalOutbound)
      ensures threads == map k | k in old(threads) ::
                           if old(threads)[k].activity == Waiting
                              && exists o :: o in old(threads)[k].outbound && o.id == requestID
                           then old(threads)[k].(activity := Processing, lastActivity := endTime) else old(threads)[k]
      ensures requestID !in old(pending) ==>
                && stored == old(stored) && all == old(all)
                && poolingDetected == old(poolingDetected) && asyncDetected == old(asyncDetected)
      ensures requestID in old(pending) ==>
                var outbound := old(pending)[requestID];
                var pooled := LikelyPooled(config, old(threads), sockets, outbound);
                var async := SeemsAsync(config, old(threads), outbound);
                && TimedAgainst(old(threads), outbound, config.timingWindowMs, pooled, async, old(all), all)
                && poolingDetected == old(poolingDetected) + OneIf(pooled)
                && asyncDetected == old(asyncDetected) + OneIf(async)
    {
      hide Tallied, InRange, TimedAgainst, ThreadsOk;
      if requestID in pending {
        TryTimingCorrelation(pending[requestID]);
      }
      ResumeWaiting(requestID, endTime);
    }

    method ResumeWaiting(requestID: string, endTime: Time)
      requires ThreadsOk(threads, stored)
      modifies this`threads
      ensures ThreadsOk(threads, stored)
      ensures threads == map k | k in old(threads) :: Resumed(old(threads)[k], requestID, endTime)
    {
      hide ThreadsOk;
      ghost var start := threads;
      var todo := threads.Keys;
      while todo != {}
        invariant todo <= start.Keys
        invariant threads == map k | k in start :: if k in todo then start[k] else Resumed(start[k], requestID, endTime)
        decreases todo
      {
        var k :| k in todo;
        todo := todo - {k};
        var state := threads[k];
        if state.activity == Waiting {
          var awaits := Mentions(state.outbound, requestID);
          if awaits {
            threads := threads[k := state.(activity := Processing, lastActivity := endTime)];
          }
        }
      }
      assert threads == map k | k in start :: Resumed(start[k], requestID, endTime);
      ResumedOk(start, stored, requestID, endTime);
    }

    static method Mentions(events: seq<RequestEvent>, id: string) returns (found: bool)
      ensures found <==> exists o :: o in events && o.id == id
    {
      for i := 0 to |events|
        invariant forall j :: 0 <= j < i ==> events[j].id != id
      {
        if events[i].id == id {
          assert events[i] in events;
          return true;
        }
      }
      return false;
    }

    /** Correlates with a closest inbound request of the same process inside the window, if there is one. */
    method TryTimingCorrelation(outbound: RequestEvent)
      requires Valid()
      modifies this`stored, this`found, this`byMethod, this`averageConfidence, this`all,
               this`poolingDetected, this`asyncDetected
      ensures Valid()
      ensures
        var pooled, async := LikelyPooled(config, threads, sockets, outbound), SeemsAsync(config, threads, outbound);
        && TimedAgainst(threads, outbound, config.timingWindowMs, pooled, async, old(all), all)
        && poolingDetected == old(poolingDetected) + OneIf(pooled)
        && asyncDetected == old(asyncDetected) + OneIf(async)
    {
      hide Tallied, InRange, ThreadsOk, Candidates, TimingConfidence, Pooled, TimingWarnings, SeemsAsync, TimedAgainst;
      var candidates := CollectCandidates(outbound);
      if |candidates| == 0 {
        NoneTimed(config, threads, sockets, outbound, all);
        return;
      }
      var warnings := Diagnose(candidates, outbound);
      var best := PickClosest(candidates);
      ghost var bestKey :| bestKey in threads && IsCandidate(threads[bestKey], outbound, config.timingWindowMs)
                           && threads[bestKey].current.value == best;
      var confidence := TimingConfidence(outbound.timestamp - best.timestamp, config.timingWindowMs, |candidates|);
      var r := Result(best.id, outbound.id, Timing, confidence, warnings);
      OneTimed(config, threads, sockets, outbound, all, bestKey, r);
      AddCorrelation(r);
    }

    /** What makes a correlation by timing doubtful. */
    method Diagnose(candidates: seq<RequestEvent>, outbound: RequestEvent) returns (warnings: seq<string>)
      requires |candidates| == |Candidates(threads, outbound, config.timingWindowMs)| > 0
      requires Lists(candidates, threads, outbound, config.timingWindowMs)
      modifies this`poolingDetected, this`asyncDetected
      ensures
        var pooled, async := LikelyPooled(config, threads, sockets, outbound), SeemsAsync(config, threads, outbound);
        && warnings == TimingWarnings(|candidates|, pooled, async)
        && poolingDetected == old(poolingDetected) + OneIf(pooled)
        && asyncDetected == old(asyncDetected) + OneIf(async)
    {
      hide Pooled, Candidates, IsCandidate;
      warnings := if |candidates| > 1 then ["multiple_candidates"] else [];
      var pooling := DetectPooling(outbound, "connection_pooling_likely");
      warnings := warnings + pooling;
      if config.detectAsyncWorkers {
        var async := DetectAsync(candidates, outbound);
        warnings := warnings + async;
      }
    }

    /** The inbound requests that could have caused the outbound one, one entry for each thread. */
    method CollectCandidates(outbound: RequestEvent) returns (candidates: seq<RequestEvent>)
      ensures |candidates| == |Candidates(threads, outbound, config.timingWindowMs)|
      ensures Lists(candidates, threads, outbound, config.timingWindowMs)
    {
      candidates := [];
      ghost var from: set<ThreadKey> := {};
      var todo := threads.Keys;
      while todo != {}
        invariant todo <= threads.Keys && |candidates| == |from|
        invariant from == set k | k in threads && k !in todo && IsCandidate(threads[k], outbound, config.timingWindowMs)
        invariant forall c :: c in candidates ==> exists k :: k in from && threads[k].current.value == c
        invariant forall k :: k in from ==> threads[k].current.value in candidates
        decreases todo
      {
        var k :| k in todo;
        todo := todo - {k};
        var state := threads[k];
        if state.current.None? {
          continue;
        }
        var inbound := state.current.value;
        if outbound.timestamp < inbound.timestamp {
          continue;
        }
        if outbound.timestamp - inbound.timestamp > config.timingWindowMs * NS_PER_MS {
          continue;
        }
        if outbound.thread.pid == inbound.thread.pid {
          candidates := candidates + [inbound];
          from := from + {k};
        }
      }
      assert from == Candidates(threads, outbound, config.timingWindowMs);
    }

    method DetectAsync(candidates: seq<RequestEvent>, outbound: RequestEvent) returns (warnings: seq<string>)
      modifies this`asyncDetected
      ensures asyncDetected == old(asyncDetected) + |warnings|
      ensures warnings == if exists c :: c in candidates && c.thread.tid != outbound.thread.tid
                          then ["async_worker_pattern"] else []
    {
      warnings := [];
      for i := 0 to |candidates|
        invariant forall j :: 0 <= j < i ==> candidates[j].thread.tid == outbound.thread.tid
      {
        if candidates[i].thread.tid != outbound.thread.tid {
          assert candidates[i] in candidates;
          warnings := ["async_worker_pattern"];
          asyncDetected := asyncDetected + 1;
          return;
        }
      }
    }

    /** The head of the candidates sorted by time proximity: some candidate that is no further than any other. */
    static method PickClosest(candidates: seq<RequestEvent>) returns (best: RequestEvent)
      requires candidates != []
      ensures best in candidates && forall c :: c in candidates ==> c.timestamp <= best.timestamp
    {
      best := candidates[0];
      for i := 1 to |candidates|
        invariant best in candidates && forall j :: 0 <= j < i ==> candidates[j].timestamp <= best.timestamp
      {
        var replaceOnTie: bool := *;
        if candidates[i].timestamp > best.timestamp || (candidates[i].timestamp == best.timestamp && replaceOnTie) {
          best := candidates[i];
        }
      }
    }

    /** Correlates a waiting outbound request that carries the same request id in one of the configured headers. */
    method CorrelateByContent(inboundID: string, headers: map<string, string>) returns (r: Option<Result>)
      requires Valid()
      modifies this
      ensures Valid() && threads == old(threads) && sockets == old(sockets)
      ensures totalInbound == old(totalInbound) && totalOutbound == old(totalOutbound)
      ensures poolingDetected == old(poolingDetected) && asyncDetected == old(asyncDetected)
      ensures r.None? ==> unchanged(this)
      ensures r.None? <==> forall h, id :: h in config.headers && id in old(pending) ==>
                             !SameContent(headers, h, old(pending)[id])
      ensures r.Some? ==>
                && all == old(all) + [r.value] && r.value.inbound == inboundID
                && r.value.outbound in old(pending) && pending == old(pending) - {r.value.outbound}
                && r.value.via == Content && r.value.confidence == 0.80
                && exists h :: h in config.headers && SameContent(headers, h, old(pending)[r.value.outbound])
    {
      hide Tallied, InRange, ThreadsOk;
      for i := 0 to |config.headers|
        invariant unchanged(this)
        invariant forall j, id :: 0 <= j < i && id in pending ==> !SameContent(headers, config.headers[j], pending[id])
      {
        var h := config.headers[i];
        if h in headers && headers[h] != "" {
          var todo := pending.Keys;
          while todo != {}
            invariant todo <= pending.Keys && unchanged(this)
            invariant forall id :: id in pending && id !in todo ==> !SameContent(headers, h, pending[id])
            decreases todo
          {
            var id :| id in todo;
            todo := todo - {id};
            if SharesHeader(pending[id], h, headers[h]) {
              assert h in config.headers && SameContent(headers, h, pending[id]);
              var result := Result(inboundID, id, Content, Confidence(Content), []);
              AddCorrelation(result);
              pending := pending - {id};
              return Some(result);
            }
          }
        }
      }
      return None;
    }

    /** Stale threads, requests and sockets are dropped; correlations and statistics stay. */
    method Cleanup(now: Time)
      requires Valid()
      modifies this`threads, this`pending, this`sockets
      ensures Valid()
      ensures threads == map k | k in old(threads) && now - old(threads)[k].lastActivity <= config.threadStateMaxAge
                           :: old(threads)[k]
      ensures KeepsNewest(map id | id in old(pending)
                                   && now - old(pending)[id].timestamp <= config.threadStateMaxAge :: old(pending)[id],
                          pending, config.maxPendingOutbound)
      ensures forall s :: SocketRequests(sockets, s)
                          == Recent(SocketRequests(old(sockets), s), now, config.threadStateMaxAge)
      ensures forall s :: s in sockets ==> sockets[s] != []
    {
      hide Tallied, InRange, Recent, SocketRequests;
      var maxAge := config.threadStateMaxAge;
      threads := map k | k in threads && now - threads[k].lastActivity <= maxAge :: threads[k];
      assert ThreadsOk(threads, stored);
      pending := Fresh(pending, now, maxAge);
      CleanSockets(now);
      TrimPending();
    }

    method CleanSockets(now: Time)
      modifies this`sockets
      ensures forall s :: SocketRequests(sockets, s)
                          == Recent(SocketRequests(old(sockets), s), now, config.threadStateMaxAge)
      ensures forall s :: s in sockets ==> sockets[s] != []
    {
      var maxAge := config.threadStateMaxAge;
      sockets := map s | s in sockets && Recent(sockets[s], now, maxAge) != [] :: Recent(sockets[s], now, maxAge);
    }

    method TrimPending()
      modifies this`pending
      ensures KeepsNewest(old(pending), pending, config.maxPendingOutbound)
    {
      ghost var young := pending;
      while |pending| > config.maxPendingOutbound
        invariant KeepsNewest(young, pending,
                              if |pending| > config.maxPendingOutbound then |pending| else config.maxPendingOutbound)
        invariant |young| <= config.maxPendingOutbound ==> pending == young
      {
        var id := Oldest(pending);
        pending := pending - {id};
      }
    }

    /** The head of the waiting requests sorted by age. */
    static method Oldest(pending: map<string, RequestEvent>) returns (oldest: string)
      requires pending != map[]
      ensures oldest in pending && forall id :: id in pending ==> pending[oldest].timestamp <= pending[id].timestamp
    {
      oldest :| oldest in pending;
      var todo := pending.Keys;
      while todo != {}
        invariant todo <= pending.Keys && oldest in pending
        invariant forall id :: id in pending && id !in todo ==> pending[oldest].timestamp <= pending[id].timestamp
        decreases todo
      {
        var id :| id in todo;
        todo := todo - {id};
        if pending[id].timestamp < pending[oldest].timestamp {
          oldest := id;
        }
      }
    }
  }

  /** kept is all of the requests, or the limit's worth of newest ones. */
  ghost predicate KeepsNewest(all: map<string, RequestEvent>, kept: map<string, RequestEvent>, limit: nat) {
    && kept.Keys <= all.Keys
    && (forall id :: id in kept ==> kept[id] == all[id])
    && (if |all| <= limit then kept == all else |kept| == limit)
    && forall id, gone :: id in kept && gone in all && gone !in kept ==> all[gone].timestamp <= all[id].timestamp
  }

  predicate IsSocketResult(inbound: RequestEvent, outbound: RequestEvent, pooled: bool, r: Result) {
    && r.inbound == inbound.id && r.outbound == outbound.id && r.via == Socket && r.confidence == 0.85
    && r.warnings == if pooled then ["connection_pooling_detected"] else []
  }

  /** Listing an outbound call on its thread is fine once the correlation is stored. */
  lemma ListOutbound(threads: map<ThreadKey, ThreadState>, before: map<string, seq<Result>>, r: Result,
                     k: ThreadKey, event: RequestEvent)
    requires ThreadsOk(threads, before) && k in threads && threads[k].current.Some?
    requires r.inbound == threads[k].current.value.id && r.outbound == event.id
    ensures ThreadsOk(threads[k := threads[k].(outbound := threads[k].outbound + [event], activity := Waiting)],
                      before[r.inbound := Get(before, r.inbound) + [r]])
  {
    ThreadsStayOk(threads, before, r);
    StaysCorrelated(before, r, r.inbound, event.id);
  }

  function Fresh(pending: map<string, RequestEvent>, now: Time, maxAge: int): map<string, RequestEvent> {
    map id | id in pending && now - pending[id].timestamp <= maxAge :: pending[id]
  }

  function Recent(events: seq<RequestEvent>, now: Time, maxAge: int): seq<RequestEvent> {
    if events == [] then []
    else Recent(events[..|events| - 1], now, maxAge)
         + if now - events[|events| - 1].timestamp <= maxAge then [events[|events| - 1]] else []
  }

  /** The requests by socket; a socket of zero is unknown. */
  function Tracked(sockets: map<nat, seq<RequestEvent>>, event: RequestEvent): map<nat, seq<RequestEvent>> {
    if event.socket == 0 then sockets else sockets[event.socket := SocketRequests(sockets, event.socket) + [event]]
  }

  /** The socket has carried more than two requests. */
  predicate Pooled(config: Config, sockets: map<nat, seq<RequestEvent>>, event: RequestEvent) {
    config.detectConnectionPooling && event.socket != 0 && |SocketRequests(sockets, event.socket)| > 2
  }

  function OneIf(b: bool): nat {
    if b then 1 else 0
  }

  /** Of each event, as many are left as there were if it is young enough, and none otherwise. */
  lemma {:induction false} RecentKeepsYoung(events: seq<RequestEvent>, now: Time, maxAge: int, e: RequestEvent)
    ensures multiset(Recent(events, now, maxAge))[e] == if now - e.timestamp <= maxAge then multiset(events)[e] else 0
  {
    if events != [] {
      var n := |events| - 1;
      var init, last := events[..n], events[n];
      RecentKeepsYoung(init, now, maxAge, e);
      assert events == init + [last];
      OneMore(init, last, e);
      OneMore(Recent(init, now, maxAge), last, e);
      assert Recent(init, now, maxAge) + [] == Recent(init, now, maxAge);
    }
  }

  lemma OneMore(events: seq<RequestEvent>, last: RequestEvent, e: RequestEvent)
    ensures multiset(events + [last])[e] == multiset(events)[e] + if last == e then 1 else 0
  {
  }

  function SocketRequests(sockets: map<nat, seq<RequestEvent>>, socket: nat): seq<RequestEvent> {
    if socket in sockets then sockets[socket] else []
  }

  function ProcessedBy(threads: map<ThreadKey, ThreadState>, k: ThreadKey): nat {
    if k in threads then threads[k].processed else 0
  }

  predicate SharesHeader(event: RequestEvent, header: string, value: string) {
    header in event.attributes && event.attributes[header] == value
  }

  /** The inbound request has this header, with some value, and the outbound one has the same. */
  predicate SameContent(headers: map<string, string>, h: string, outbound: RequestEvent) {
    h in headers && headers[h] != "" && SharesHeader(outbound, h, headers[h])
  }

  /** The candidates are the inbound requests that could have caused the outbound one. */
  ghost predicate Lists(candidates: seq<RequestEvent>, threads: map<ThreadKey, ThreadState>, outbound: RequestEvent,
                        windowMs: int) {
    && (forall c :: c in candidates ==>
          exists k :: k in threads && IsCandidate(threads[k], outbound, windowMs) && threads[k].current.value == c)
    && (forall k :: k in threads && IsCandidate(threads[k], outbound, windowMs) ==>
          threads[k].current.value in candidates)
  }

  ghost predicate LikelyPooled(config: Config, threads: map<ThreadKey, ThreadState>,
                               sockets: map<nat, seq<RequestEvent>>, outbound: RequestEvent) {
    |Candidates(threads, outbound, config.timingWindowMs)| > 0 && Pooled(config, sockets, outbound)
  }

  /** A candidate is handled by another thread than the one the outbound request came from. */
  ghost predicate SeemsAsync(config: Config, threads: map<ThreadKey, ThreadState>, outbound: RequestEvent) {
    && config.detectAsyncWorkers
    && exists k :: k in threads && IsCandidate(threads[k], outbound, config.timingWindowMs)
                   && threads[k].current.value.thread.tid != outbound.thread.tid
  }

  function TimingWarnings(candidates: nat, pooled: bool, async: bool): seq<string> {
    (if candidates > 1 then ["multiple_candidates"] else [])
    + (if pooled then ["connection_pooling_likely"] else [])
    + (if async then ["async_worker_pattern"] else [])
  }

  /** r correlates outbound by timing with the request that thread k is handling. */
  ghost predicate IsTimingResult(threads: map<ThreadKey, ThreadState>, outbound: RequestEvent, windowMs: int,
                                 pooled: bool, async: bool, k: ThreadKey, r: Result) {
    && IsClosest(threads, outbound, windowMs, k) && windowMs > 0
    && r.inbound == threads[k].current.value.id && r.outbound == outbound.id && r.via == Timing
    && r.confidence == TimingConfidence(outbound.timestamp - threads[k].current.value.timestamp, windowMs,
                                        |Candidates(threads, outbound, windowMs)|)
    && r.warnings == TimingWarnings(|Candidates(threads, outbound, windowMs)|, pooled, async)
  }

  /** Nothing was added and there was no candidate, or one result was added, for a closest candidate. */
  ghost predicate TimedAgainst(threads: map<ThreadKey, ThreadState>, outbound: RequestEvent, windowMs: int,
                               pooled: bool, async: bool, before: seq<Result>, after: seq<Result>) {
    if Candidates(threads, outbound, windowMs) == {} then after == before
    else |after| == |before| + 1 && after[..|before|] == before
         && exists k :: IsTimingResult(threads, outbound, windowMs, pooled, async, k, after[|before|])
  }

  lemma NoneTimed(config: Config, threads: map<ThreadKey, ThreadState>, sockets: map<nat, seq<RequestEvent>>,
                  outbound: RequestEvent, all: seq<Result>)
    requires |Candidates(threads, outbound, config.timingWindowMs)| == 0
    ensures !LikelyPooled(config, threads, sockets, outbound) && !SeemsAsync(config, threads, outbound)
    ensures TimedAgainst(threads, outbound, config.timingWindowMs, false, false, all, all)
  {
    assert forall k :: k in threads && IsCandidate(threads[k], outbound, config.timingWindowMs) ==>
                         k in Candidates(threads, outbound, config.timingWindowMs);
  }

  lemma OneTimed(config: Config, threads: map<ThreadKey, ThreadState>, sockets: map<nat, seq<RequestEvent>>,
                 outbound: RequestEvent, all: seq<Result>, k: ThreadKey, r: Result)
    requires |Candidates(threads, outbound, config.timingWindowMs)| > 0 && config.timingWindowMs > 0
    requires IsClosest(threads, outbound, config.timingWindowMs, k)
    requires
      var pooled, async := LikelyPooled(config, threads, sockets, outbound), SeemsAsync(config, threads, outbound);
      IsTimingResult(threads, outbound, config.timingWindowMs, pooled, async, k, r)
    ensures
      var pooled, async := LikelyPooled(config, threads, sockets, outbound), SeemsAsync(config, threads, outbound);
      TimedAgainst(threads, outbound, config.timingWindowMs, pooled, async, all, all + [r])
  {
    hide SeemsAsync, LikelyPooled, IsTimingResult;
    assert (all + [r])[..|all|] == all && (all + [r])[|all|] == r;
  }

  lemma ResumedOk(threads: map<ThreadKey, ThreadState>, stored: map<string, seq<Result>>, id: string, endTime: Time)
    requires ThreadsOk(threads, stored)
    ensures ThreadsOk(map k | k in threads :: Resumed(threads[k], id, endTime), stored)
  {
    hide Correlated;
    assert forall k :: k in threads ==> ThreadOk(threads[k], stored);
  }

  /** Resuming threads does not change what could have caused a request. */
  lemma SameCandidates(threads: map<ThreadKey, ThreadState>, after: map<ThreadKey, ThreadState>, id: string,
                       endTime: Time, outbound: RequestEvent, windowMs: int)
    requires after == map k | k in threads :: Resumed(threads[k], id, endTime)
    ensures Candidates(after, outbound, windowMs) == Candidates(threads, outbound, windowMs)
  {
  }

  /** A waiting request for which there is a candidate is correlated again each time it is completed. */
  method CompleteTwice(c: HeaderlessCorrelator, id: string, first: Time, second: Time)
    requires c.Valid() && id in c.pending && Candidates(c.threads, c.pending[id], c.config.timingWindowMs) != {}
    modifies c
    ensures c.Valid() && |c.all| == |old(c.all)| + 2
    ensures forall i :: |old(c.all)| <= i < |c.all| ==>
              && c.all[i].outbound == old(c.pending)[id].id && c.all[i].via == Timing
              && exists k :: k in Candidates(old(c.threads), old(c.pending)[id], c.config.timingWindowMs)
                             && c.all[i].inbound == old(c.threads)[k].current.value.id
  {
    hide Tallied, ThreadsOk, TimingConfidence, TimingWarnings, InRange, LikelyPooled, SeemsAsync;
    c.RecordOutboundComplete(id, first);
    SameCandidates(old(c.threads), c.threads, id, first, c.pending[id], c.config.timingWindowMs);
    c.RecordOutboundComplete(id, second);
  }

  /** A request that another thread of the process sends is completed twice, and is stored twice. */
  method StoredTwice() returns (results: seq<Result>)
    ensures |results| == 2
    ensures forall i :: 0 <= i < 2 ==>
              results[i].inbound == "in" && results[i].outbound == "out" && results[i].via == Timing
  {
    hide Tallied, ThreadsOk, InRange;
    var c := new HeaderlessCorrelator(Config(5000, 30_000_000_000, 10000, true, true, []));
    c.RecordInboundRequest(RequestEvent("in", ThreadKey(1, 1), 0, 10, map[]));
    c.RecordOutboundRequest(RequestEvent("out", ThreadKey(1, 2), 0, 20, map[]));
    assert ThreadKey(1, 1) in Candidates(c.threads, c.pending["out"], 5000);
    CompleteTwice(c, "out", 30, 40);
    results := Get(c.stored, "in");
    StoredOfBoth(c.all, c.stored, c.found, c.byMethod, c.averageConfidence, "in");
  }

  lemma StoredOfBoth(all: seq<Result>, stored: map<string, seq<Result>>, found: nat, byMethod: map<Method, nat>,
                     average: real, id: string)
    requires Tallied(all, stored, found, byMethod, average) && |all| == 2 && all[0].inbound == all[1].inbound == id
    ensures Get(stored, id) == all
  {
    assert all[..1][..0] == [] && OfInbound(all[..1], id) == [all[0]];
    assert Get(stored, id) == OfInbound(all, id) == [all[0]] + [all[1]];
  }

  /** A request sent by another thread than the one that handles the only request of the process. */
  method TimedOnce() returns (results: seq<Result>, async: nat)
    ensures results == [Result("in", "out", Timing, 0.7, ["async_worker_pattern"])] && async == 1
  {
    hide Tallied, ThreadsOk, InRange, TimingConfidence;
    var c := new HeaderlessCorrelator(Config(5000, 30_000_000_000, 10000, true, true, []));
    c.RecordInboundRequest(RequestEvent("in", ThreadKey(1, 1), 0, 10, map[]));
    c.RecordOutboundRequest(RequestEvent("out", ThreadKey(1, 2), 0, 20, map[]));
    assert Candidates(c.threads, c.pending["out"], 5000) == {ThreadKey(1, 1)};
    assert IsCandidate(c.threads[ThreadKey(1, 1)], c.pending["out"], 5000);
    assert SeemsAsync(c.config, c.threads, c.pending["out"]);
    assert !LikelyPooled(c.config, c.threads, c.sockets, c.pending["out"]);
    c.RecordOutboundComplete("out", 30);
    JustInTime();
    assert TimingWarnings(1, false, true) == ["async_worker_pattern"];
    assert c.all[0] == Result("in", "out", Timing, 0.7, ["async_worker_pattern"]);
    assert c.all == [c.all[0]];
    results, async := Get(c.stored, "in"), c.asyncDetected;
    StoredOfOne(c.all, c.stored, c.found, c.byMethod, c.averageConfidence, "in");
  }

  lemma JustInTime()
    ensures TimingConfidence(10, 5000, 1) == 0.7
  {
    assert 10 / NS_PER_MS == 0;
    assert 0.0 / 5000.0 == 0.0;
  }

  lemma StoredOfOne(all: seq<Result>, stored: map<string, seq<Result>>, found: nat, byMethod: map<Method, nat>,
                    average: real, id: string)
    requires Tallied(all, stored, found, byMethod, average) && |all| == 1 && all[0].inbound == id
    ensures Get(stored, id) == all
  {
    assert all[..0] == [];
    assert Get(stored, id) == OfInbound(all, id);
  }

  /** Three calls of one request over one socket: only the third meets more than two requests on it. */
  method ThirdUseIsPooled() returns (second: nat, third: nat)
    ensures second == 0 && third == 1
  {
    hide Tallied, ThreadsOk, InRange;
    var c := new HeaderlessCorrelator(Config(5000, 30_000_000_000, 10000, true, true, []));
    c.RecordInboundRequest(RequestEvent("in", ThreadKey(1, 1), 0, 10, map[]));
    c.RecordOutboundRequest(RequestEvent("a", ThreadKey(1, 1), 7, 20, map[]));
    c.RecordOutboundRequest(RequestEvent("b", ThreadKey(1, 1), 7, 30, map[]));
    second := c.poolingDetected;
    c.RecordOutboundRequest(RequestEvent("c", ThreadKey(1, 1), 7, 40, map[]));
    third := c.poolingDetected;
  }
}
