/** What every run of the evaluator keeps. */
module AlertRuns {
  import opened AlertModel
  import opened Common

  // ---- Reading the event log ----

  predicate Closes(e: Event, fp: Fingerprint) {
    (e.Left? && e.fp == fp) || (e.Swept? && fp in e.fps)
  }

  predicate Enters(e: Event, fp: Fingerprint) {
    e.Entered? && e.fp == fp
  }

  predicate Breaks(e: Event, fp: Fingerprint) {
    e.Observed? && e.fp == fp && !e.firing
  }

  /** The last entry of fp into firing has not been followed by a resolution. */
  predicate IsOpen(log: seq<Event>, fp: Fingerprint) {
    log != [] &&
    var e := log[|log| - 1];
    if Enters(e, fp) then true else if Closes(e, fp) then false else IsOpen(log[..|log| - 1], fp)
  }

  /** The condition of fp was observed to hold at since, and never observed not to hold after that. */
  ghost predicate Unbroken(log: seq<Event>, fp: Fingerprint, since: Time) {
    exists j :: 0 <= j < |log| && log[j] == Observed(fp, true, since)
                && forall k :: j < k < |log| ==> !Breaks(log[k], fp)
  }

  ghost predicate Spans(log: seq<Event>, fp: Fingerprint, at: Time, duration: int) {
    exists since :: Unbroken(log, fp, since) && at - since >= duration
  }

  /** What must have happened before an event may be logged. */
  ghost predicate Justified(log: seq<Event>, e: Event) {
    match e
    case Observed(_, _, _) => true
    case Entered(fp, at, forDuration) =>
      && log != [] && log[|log| - 1] == Observed(fp, true, at)
      && !IsOpen(log, fp) && Spans(log, fp, at, forDuration)
    case Notified(fp, at) => log != [] && Enters(log[|log| - 1], fp) && log[|log| - 1].at == at
    case Left(fp, _) => IsOpen(log, fp)
    case Swept(fps, _) => forall fp :: fp in fps ==> IsOpen(log, fp)
  }

  ghost predicate Sound(log: seq<Event>) {
    forall i :: 0 <= i < |log| ==> Justified(log[..i], log[i])
  }

  /** Everything that holds between steps, for every rule and whatever its durations are. */
  ghost predicate Inv(w: World) {
    && Sound(w.log)
    && (forall fp :: IsFiring(w, fp) <==> IsOpen(w.log, fp))
    && (forall fp :: IsFiring(w, fp) <==> fp in StateOf(w, fp.rule).firingAlerts)
    && (forall id :: Owned(w, id))
    && (forall fp :: fp in w.alerts ==> w.alerts[fp].state != Inactive)
  }

  /** The state of one rule mentions only its own fingerprints, and remembers why each became active. */
  ghost predicate Owned(w: World, id: string) {
    var s := StateOf(w, id);
    && (forall fp :: fp in s.firingAlerts ==> fp.rule == id)
    && (forall fp :: fp in s.activeSince ==>
          fp.rule == id && s.activeSince[fp] > 0 && Unbroken(w.log, fp, s.activeSince[fp]))
    && s.pendingAlerts == map[]
  }

  // ---- Growing the log ----

  lemma SoundGrows(log: seq<Event>, e: Event)
    requires Sound(log) && Justified(log, e)
    ensures Sound(log + [e])
  {
    var log' := log + [e];
    forall i | 0 <= i < |log'| ensures Justified(log'[..i], log'[i]) {
      if i < |log| {
        assert log'[..i] == log[..i];
      } else {
        assert log'[..i] == log;
      }
    }
  }

  lemma OpenAfter(log: seq<Event>, e: Event)
    ensures forall fp :: IsOpen(log + [e], fp) <==> Enters(e, fp) || (!Closes(e, fp) && IsOpen(log, fp))
  {
    assert (log + [e])[..|log|] == log;
  }

  lemma UnbrokenGrows(log: seq<Event>, e: Event, fp: Fingerprint, since: Time)
    requires Unbroken(log, fp, since) && !Breaks(e, fp)
    ensures Unbroken(log + [e], fp, since)
  {
    var j :| 0 <= j < |log| && log[j] == Observed(fp, true, since) && forall k :: j < k < |log| ==> !Breaks(log[k], fp);
    var log' := log + [e];
    assert log'[j] == Observed(fp, true, since);
  }

  lemma UnbrokenStarts(log: seq<Event>, fp: Fingerprint, now: Time)
    ensures Unbroken(log + [Observed(fp, true, now)], fp, now)
  {
    assert (log + [Observed(fp, true, now)])[|log|] == Observed(fp, true, now);
  }

  /** An event other than a failed observation of one of them leaves the rule states justified. */
  lemma OwnedGrows(w: World, id: string, e: Event)
    requires Owned(w, id) && forall fp :: fp in StateOf(w, id).activeSince ==> !Breaks(e, fp)
    ensures Owned(w.(log := w.log + [e]), id)
  {
    hide Unbroken;
    var s := StateOf(w, id);
    forall fp | fp in s.activeSince ensures Unbroken(w.log + [e], fp, s.activeSince[fp]) {
      UnbrokenGrows(w.log, e, fp, s.activeSince[fp]);
    }
  }

  // ---- Each step keeps the invariant ----

  /** Recording that the condition of fp holds. */
  function Note(w: World, fp: Fingerprint, now: Time): World {
    var s := StateOf(w, fp.rule);
    var since := if fp in s.activeSince then s.activeSince[fp] else now;
    w.(rules := w.rules[fp.rule := s.(activeSince := s.activeSince[fp := since])],
       log := w.log + [Observed(fp, true, now)])
  }

  lemma NoteIsOwned(w: World, fp: Fingerprint, now: Time, id: string)
    requires Owned(w, id) && now > 0
    ensures Owned(Note(w, fp, now), id)
  {
    hide Unbroken;
    OwnedGrows(w, id, Observed(fp, true, now));
    UnbrokenStarts(w.log, fp, now);
  }

  lemma NoteKeepsInv(w: World, fp: Fingerprint, now: Time)
    requires Inv(w) && now > 0
    ensures Inv(Note(w, fp, now))
  {
    hide Owned, IsOpen, Sound;
    var e := Observed(fp, true, now);
    SoundGrows(w.log, e);
    OpenAfter(w.log, e);
    var w' := Note(w, fp, now);
    forall id ensures Owned(w', id) {
      NoteIsOwned(w, fp, now, id);
    }
    assert forall id: string :: StateOf(w', id).firingAlerts == StateOf(w, id).firingAlerts;
  }

  /** Moving an alert that is not firing, and whose span is long enough, into firing. */
  function Enter(w: World, fp: Fingerprint, alert: Alert, now: Time, forDuration: int): World {
    var s := StateOf(w, fp.rule);
    w.(alerts := w.alerts[fp := alert],
       rules := w.rules[fp.rule := s.(firingAlerts := s.firingAlerts + {fp}, pendingAlerts := s.pendingAlerts - {fp})],
       log := w.log + [Entered(fp, now, forDuration)])
  }

  lemma EnterIsOwned(w: World, fp: Fingerprint, alert: Alert, now: Time, forDuration: int, id: string)
    requires Owned(w, id)
    ensures Owned(Enter(w, fp, alert, now, forDuration), id)
  {
    hide Unbroken;
    OwnedGrows(w, id, Entered(fp, now, forDuration));
  }

  lemma EnterKeepsInv(w: World, fp: Fingerprint, alert: Alert, now: Time, forDuration: int)
    requires Inv(w) && !IsFiring(w, fp) && alert.state == Firing
    requires w.log != [] && w.log[|w.log| - 1] == Observed(fp, true, now)
    requires Spans(w.log, fp, now, forDuration)
    ensures Inv(Enter(w, fp, alert, now, forDuration))
  {
    hide Owned, IsOpen, Sound, Spans;
    var e := Entered(fp, now, forDuration);
    SoundGrows(w.log, e);
    OpenAfter(w.log, e);
    var w' := Enter(w, fp, alert, now, forDuration);
    forall id ensures Owned(w', id) {
      EnterIsOwned(w, fp, alert, now, forDuration, id);
    }
    assert forall id: string :: StateOf(w', id).firingAlerts ==
                       if id == fp.rule then StateOf(w, id).firingAlerts + {fp} else StateOf(w, id).firingAlerts;
  }

  lemma NotifyKeepsInv(w: World, fp: Fingerprint, now: Time)
    requires Inv(w) && w.log != [] && Enters(w.log[|w.log| - 1], fp) && w.log[|w.log| - 1].at == now
    ensures Inv(w.(log := w.log + [Notified(fp, now)]))
  {
    hide Unbroken, IsOpen, Sound;
    var e := Notified(fp, now);
    SoundGrows(w.log, e);
    OpenAfter(w.log, e);
    forall id ensures Owned(w.(log := w.log + [e]), id) {
      OwnedGrows(w, id, e);
    }
  }

  /** Changing details of an alert, but not whether it is firing, is harmless. */
  lemma TouchKeepsInv(w: World, fp: Fingerprint, alert: Alert)
    requires Inv(w) && (alert.state == Firing <==> IsFiring(w, fp)) && alert.state != Inactive
    ensures Inv(w.(alerts := w.alerts[fp := alert]))
  {
    hide Unbroken, IsOpen, Sound;
    var w' := w.(alerts := w.alerts[fp := alert]);
    forall id ensures Owned(w', id) {
      assert Owned(w, id);
    }
    assert forall id: string :: StateOf(w', id) == StateOf(w, id);
  }

  lemma FiringKeepsInv(w: World, rule: Rule, fp: Fingerprint, r: EvalResult, now: Time)
    requires Inv(w) && now > 0 && fp.rule == rule.id
    ensures Inv(HandleFiring(w, rule, fp, r, now))
  {
    hide Inv, IsOpen, Sound, HandleFiring, Enter, Unbroken, Spans;
    var since := SinceOf(w, fp, now);
    var known := AlertOf(w, fp, r, since, now);
    var noted := Note(w, fp, now);
    NoteKeepsInv(w, fp, now);
    NeverInactive(w, fp);
    FiringInSteps(w, rule, fp, r, now);
    if now - since >= rule.forDuration && known.state != Firing {
      NotedSpans(w, fp, now, rule.forDuration);
      var last := FiredAs(known, r, now);
      EnterKeepsInv(noted, fp, last, now, rule.forDuration);
      if !r.silenced && w.hasNotifier {
        EnterLogs(noted, fp, last, now, rule.forDuration);
        NotifyKeepsInv(Enter(noted, fp, last, now, rule.forDuration), fp, now);
      }
    } else {
      TouchKeepsInv(noted, fp, known);
    }
  }

  function SinceOf(w: World, fp: Fingerprint, now: Time): Time {
    var s := StateOf(w, fp.rule);
    if fp in s.activeSince then s.activeSince[fp] else now
  }

  function FiredAs(alert: Alert, r: EvalResult, now: Time): Alert {
    alert.(state := Firing, firedAt := Some(now), notifiedAt := if r.silenced then alert.notifiedAt else Some(now))
  }

  lemma EnterLogs(w: World, fp: Fingerprint, alert: Alert, now: Time, forDuration: int)
    ensures Enter(w, fp, alert, now, forDuration).log == w.log + [Entered(fp, now, forDuration)]
  {
  }

  /** Handling a firing result is noting it, then perhaps entering firing, then perhaps notifying. */
  lemma FiringInSteps(w: World, rule: Rule, fp: Fingerprint, r: EvalResult, now: Time)
    requires fp.rule == rule.id && (fp in w.alerts ==> w.alerts[fp].state != Inactive)
    ensures
      var since := SinceOf(w, fp, now);
      var known, noted := AlertOf(w, fp, r, since, now), Note(w, fp, now);
      HandleFiring(w, rule, fp, r, now) ==
        if now - since >= rule.forDuration && known.state != Firing then
          var entered := Enter(noted, fp, FiredAs(known, r, now), now, rule.forDuration);
          if !r.silenced && w.hasNotifier then entered.(log := entered.log + [Notified(fp, now)]) else entered
        else noted.(alerts := noted.alerts[fp := known])
  {
    var s, noted := StateOf(w, rule.id), Note(w, fp, now);
    assert w.rules[rule.id := StateOf(noted, rule.id)] == noted.rules;
    assert noted.rules[rule.id := StateOf(noted, rule.id)] == noted.rules;
  }

  function AlertOf(w: World, fp: Fingerprint, r: EvalResult, since: Time, now: Time): Alert {
    (if fp in w.alerts then w.alerts[fp] else Alert(Pending, r.value, since, now, None, None, None))
    .(value := r.value, lastEvalAt := now)
  }

  lemma NeverInactive(w: World, fp: Fingerprint)
    requires Inv(w)
    ensures fp in w.alerts ==> w.alerts[fp].state != Inactive
  {
  }

  lemma NotedSpans(w: World, fp: Fingerprint, now: Time, duration: int)
    requires Inv(w) && now > 0 && now - SinceOf(w, fp, now) >= duration
    ensures Spans(Note(w, fp, now).log, fp, now, duration)
  {
    hide Unbroken, IsOpen, Sound;
    assert Owned(w, fp.rule);
    NoteIsOwned(w, fp, now, fp.rule);
    assert Unbroken(Note(w, fp, now).log, fp, SinceOf(w, fp, now));
  }

  /** Forgetting that fp was active, because its condition was observed not to hold. */
  function Break(w: World, fp: Fingerprint, now: Time): World {
    var s := StateOf(w, fp.rule);
    w.(rules := w.rules[fp.rule := s.(activeSince := s.activeSince - {fp}, pendingAlerts := s.pendingAlerts - {fp})],
       log := w.log + [Observed(fp, false, now)])
  }

  lemma BreakKeepsInv(w: World, fp: Fingerprint, now: Time)
    requires Inv(w)
    ensures Inv(Break(w, fp, now))
  {
    hide Unbroken, IsOpen, Sound;
    var e := Observed(fp, false, now);
    SoundGrows(w.log, e);
    OpenAfter(w.log, e);
    var w' := Break(w, fp, now);
    var dropped := w'.(log := w.log);
    forall id ensures Owned(w', id) {
      assert Owned(w, id);
      assert Owned(dropped, id);
      OwnedGrows(dropped, id, e);
    }
    assert forall id: string :: StateOf(w', id).firingAlerts == StateOf(w, id).firingAlerts;
  }

  function Leave(w: World, fp: Fingerprint, alert: Alert, now: Time): World {
    var s := StateOf(w, fp.rule);
    w.(alerts := w.alerts[fp := alert], rules := w.rules[fp.rule := s.(firingAlerts := s.firingAlerts - {fp})],
       log := w.log + [Left(fp, now)])
  }

  lemma LeaveKeepsInv(w: World, fp: Fingerprint, alert: Alert, now: Time)
    requires Inv(w) && IsFiring(w, fp) && alert.state == Resolved
    ensures Inv(Leave(w, fp, alert, now))
  {
    hide Unbroken, IsOpen, Sound;
    var e := Left(fp, now);
    SoundGrows(w.log, e);
    OpenAfter(w.log, e);
    var w' := Leave(w, fp, alert, now);
    forall id ensures Owned(w', id) {
      assert Owned(w, id);
      OwnedGrows(w, id, e);
    }
    assert forall id: string :: StateOf(w', id).firingAlerts ==
                       if id == fp.rule then StateOf(w, id).firingAlerts - {fp} else StateOf(w, id).firingAlerts;
  }

  lemma ResolvedKeepsInv(w: World, rule: Rule, fp: Fingerprint, now: Time)
    requires Inv(w) && fp.rule == rule.id
    ensures Inv(HandleResolved(w, rule, fp, now))
  {
    hide Inv, IsOpen, Sound, Unbroken;
    var broken := Break(w, fp, now);
    BreakKeepsInv(w, fp, now);
    var s := StateOf(w, rule.id);
    if fp in s.activeSince && s.activeSince[fp] != 0 && fp in w.alerts
       && !(w.alerts[fp].state == Firing && Held(rule, w.alerts[fp], now)) {
      var alert := w.alerts[fp];
      if alert.state == Firing {
        var done := alert.(state := Resolved, resolvedAt := Some(now));
        LeaveKeepsInv(broken, fp, done, now);
        assert HandleResolved(w, rule, fp, now) == Leave(broken, fp, done, now);
      } else {
        NeverInactive(w, fp);
        NotListed(broken, fp);
        var done := if alert.state == Pending then alert.(state := Resolved, resolvedAt := Some(now)) else alert;
        TouchKeepsInv(broken, fp, done);
        assert StateOf(broken, rule.id).firingAlerts - {fp} == StateOf(broken, rule.id).firingAlerts;
        assert HandleResolved(w, rule, fp, now).rules == broken.rules;
        assert HandleResolved(w, rule, fp, now) == broken.(alerts := broken.alerts[fp := done]);
      }
    } else {
      assert HandleResolved(w, rule, fp, now) == broken;
    }
  }

  lemma NotListed(w: World, fp: Fingerprint)
    requires Inv(w) && !IsFiring(w, fp)
    ensures fp !in StateOf(w, fp.rule).firingAlerts
  {
  }

  lemma {:induction false} HandleAllKeepsInv(w: World, rule: Rule, results: seq<EvalResult>, now: Time)
    requires Inv(w) && now > 0
    ensures Inv(HandleAll(w, rule, results, now))
  {
    hide Inv, HandleFiring, HandleResolved;
    if results != [] {
      var w1, r := HandleAll(w, rule, results[..|results| - 1], now), results[|results| - 1];
      HandleAllKeepsInv(w, rule, results[..|results| - 1], now);
      FiringKeepsInv(w1, rule, Fingerprint(rule.id, r.labels), r, now);
      ResolvedKeepsInv(w1, rule, Fingerprint(rule.id, r.labels), now);
    }
  }

  lemma SweepIsOwned(w: World, rule: Rule, seen: set<Fingerprint>, at: Time, id: string)
    requires Owned(w, id)
    ensures Owned(Sweep(w, rule, seen, at), id)
  {
    hide Unbroken;
    OwnedGrows(w, id, Swept(StateOf(w, rule.id).firingAlerts - seen, at));
  }

  lemma SweepKeepsInv(w: World, rule: Rule, seen: set<Fingerprint>, at: Time)
    requires Inv(w)
    ensures Inv(Sweep(w, rule, seen, at))
  {
    hide Unbroken, IsOpen, Sound;
    var gone := StateOf(w, rule.id).firingAlerts - seen;
    var e := Swept(gone, at);
    assert Owned(w, rule.id);
    SoundGrows(w.log, e);
    OpenAfter(w.log, e);
    var w' := Sweep(w, rule, seen, at);
    forall id ensures Owned(w', id) {
      SweepIsOwned(w, rule, seen, at, id);
    }
    assert forall id: string :: StateOf(w', id).firingAlerts ==
                       if id == rule.id then StateOf(w, id).firingAlerts - gone else StateOf(w, id).firingAlerts;
  }

  lemma CleanupKeepsInv(w: World, now: Time)
    requires Inv(w)
    ensures Inv(Cleanup(w, now))
  {
    hide Unbroken, IsOpen, Sound;
    var w' := Cleanup(w, now);
    forall id ensures Owned(w', id) {
      assert Owned(w, id);
    }
    assert forall id: string :: StateOf(w', id) == StateOf(w, id);
  }

  lemma StampKeepsInv(w: World, id: string, s: RuleState)
    requires Inv(w) && s == StateOf(w, id).(lastEval := s.lastEval)
    ensures Inv(w.(rules := w.rules[id := s]))
  {
    hide Unbroken, IsOpen, Sound;
    var w' := w.(rules := w.rules[id := s]);
    forall i ensures Owned(w', i) {
      assert Owned(w, i);
    }
    assert forall id: string :: StateOf(w', id).firingAlerts == StateOf(w, id).firingAlerts;
  }

  lemma ApplyKeepsInv(w: World, step: Step)
    requires Inv(w) && InOrder(1, step)
    ensures Inv(Apply(w, step))
  {
    hide Inv, HandleAll, Sweep, Cleanup;
    match step
    case Forget(now) => CleanupKeepsInv(w, now);
    case Evaluation(rule, gateAt, outcome, now, sweepAt) =>
      if !Gated(w, rule, gateAt) {
        var s := StateOf(w, rule.id).(lastEval := Some(gateAt));
        var w1 := w.(rules := w.rules[rule.id := s]);
        StampKeepsInv(w, rule.id, s);
        if outcome.Some? {
          HandleAllKeepsInv(w1, rule, outcome.value, now);
          SweepKeepsInv(HandleAll(w1, rule, outcome.value, now), rule, Seen(rule, outcome.value), sweepAt);
        }
      }
  }

  lemma {:induction false} TimelyPrefix(steps: seq<Step>, n: nat)
    requires Timely(steps) && n <= |steps|
    ensures Timely(steps[..n]) && ClockAt(steps, n) >= 1
    ensures ClockAt(steps[..n], n) == ClockAt(steps, n)
    ensures n < |steps| ==> InOrder(1, steps[n])
  {
    if n > 0 {
      TimelyPrefix(steps, n - 1);
      assert InOrder(ClockAt(steps, n - 1), steps[n - 1]);
    }
    forall i | 0 <= i < n ensures InOrder(ClockAt(steps[..n], i), steps[..n][i]) {
      assert InOrder(ClockAt(steps, i), steps[i]);
    }
    assert n < |steps| ==> InOrder(ClockAt(steps, n), steps[n]);
  }

  /** On every run, for any mix of rules and durations, the log is sound and the four maps agree. */
  lemma {:induction false} EveryRunKeepsInv(hasNotifier: bool, steps: seq<Step>)
    requires Timely(steps)
    ensures Inv(Run(Initial(hasNotifier), steps))
  {
    if steps != [] {
      var n := |steps| - 1;
      TimelyPrefix(steps, n);
      EveryRunKeepsInv(hasNotifier, steps[..n]);
      ApplyKeepsInv(Run(Initial(hasNotifier), steps[..n]), steps[n]);
    }
  }
}
