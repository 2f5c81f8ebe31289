/** What the steps leave in the alert records, and when they happen. */
module AlertEffects {
  import opened AlertGaps
  import opened AlertModel
  import opened AlertRuns
  import opened AlertTheorems
  import opened Common

  // ---- Records ----

  /** What a firing result leaves behind, field by field; it touches no other alert. */
  lemma FiringRecords(w: World, rule: Rule, fp: Fingerprint, r: EvalResult, now: Time)
    requires Inv(w) && fp.rule == rule.id
    ensures
      var w', was, enters := HandleFiring(w, rule, fp, r, now), Lookup(w, fp), EntersAt(w, rule, fp, now);
      && fp in w'.alerts
      && var a := w'.alerts[fp];
         && a.value == r.value && a.lastEvalAt == now
         && a.state == (if enters then Firing else if was.Some? then was.value.state else Pending)
         && a.startsAt == (if was.Some? then was.value.startsAt else SinceOf(w, fp, now))
         && a.firedAt == (if enters then Some(now) else if was.Some? then was.value.firedAt else None)
         && a.notifiedAt ==
            (if enters && !r.silenced then Some(now) else if was.Some? then was.value.notifiedAt else None)
         && a.resolvedAt == (if was.Some? then was.value.resolvedAt else None)
         && forall other :: other != fp ==> Lookup(w', other) == Lookup(w, other)
  {
    NeverInactive(w, fp);
  }

  /** The result makes the alert enter firing. */
  predicate EntersAt(w: World, rule: Rule, fp: Fingerprint, now: Time) {
    !IsFiring(w, fp) && now - SinceOf(w, fp, now) >= rule.forDuration
  }

  /** The notifier is called exactly if the alert enters firing, is not silenced, and there is a notifier. */
  lemma NotifiesIff(w: World, rule: Rule, fp: Fingerprint, r: EvalResult, now: Time)
    requires fp.rule == rule.id && (fp in w.alerts ==> w.alerts[fp].state != Inactive)
    ensures
      var log, enters := HandleFiring(w, rule, fp, r, now).log, EntersAt(w, rule, fp, now);
      log == w.log + [Observed(fp, true, now)]
             + (if enters then [Entered(fp, now, rule.forDuration)] else [])
             + (if enters && !r.silenced && w.hasNotifier then [Notified(fp, now)] else [])
  {
  }

  /** An alert that a failing result resolves. */
  predicate ResolvesAt(w: World, rule: Rule, fp: Fingerprint, now: Time) {
    && fp in w.alerts && SinceWhen(w, fp).Some?
    && (w.alerts[fp].state == Pending || (w.alerts[fp].state == Firing && !Held(rule, w.alerts[fp], now)))
  }

  /** A failing result resolves an active pending or firing alert that is not held, and changes no other alert. */
  lemma FailingResolvesIff(w: World, rule: Rule, fp: Fingerprint, now: Time)
    requires Inv(w) && fp.rule == rule.id
    ensures
      var w' := HandleResolved(w, rule, fp, now);
      && (ResolvesAt(w, rule, fp, now) ==>
            fp in w'.alerts && IsResolved(w.alerts[fp], w'.alerts[fp], now) && fp !in StateOf(w', rule.id).firingAlerts)
      && (!ResolvesAt(w, rule, fp, now) ==> Lookup(w', fp) == Lookup(w, fp))
      && forall other :: other != fp ==> Lookup(w', other) == Lookup(w, other)
  {
    hide Sound, IsOpen, Unbroken;
    assert Owned(w, rule.id);
  }

  /** after is before, resolved at this time and otherwise unchanged. */
  predicate IsResolved(before: Alert, after: Alert, at: Time) {
    && after.state == Resolved && after.resolvedAt == Some(at)
    && after.value == before.value && after.startsAt == before.startsAt && after.lastEvalAt == before.lastEvalAt
    && after.firedAt == before.firedAt && after.notifiedAt == before.notifiedAt
  }

  /** A firing alert that a batch of its rule does not mention is resolved by the sweep, which logs it. */
  lemma UnseenIsResolved(w: World, rule: Rule, results: seq<EvalResult>, now: Time, sweepAt: Time, fp: Fingerprint)
    requires Inv(w) && now > 0 && fp !in Seen(rule, results) && fp.rule == rule.id && IsFiring(w, fp)
    ensures
      var w' := ProcessResults(w, rule, results, now, sweepAt);
      && fp in w'.alerts && IsResolved(w.alerts[fp], w'.alerts[fp], sweepAt)
      && fp !in StateOf(w', rule.id).firingAlerts
      && w'.log != [] && w'.log[|w'.log| - 1].Swept? && fp in w'.log[|w'.log| - 1].fps
      && w'.log[|w'.log| - 1].at == sweepAt
  {
    hide HandleAll, Inv, Sweep, SinceWhen;
    HandleAllKeepsInv(w, rule, results, now);
    HandleAllElse(w, rule, results, now, fp);
    SweepResolves(HandleAll(w, rule, results, now), rule, Seen(rule, results), sweepAt, fp);
  }

  lemma SweepResolves(w: World, rule: Rule, seen: set<Fingerprint>, at: Time, fp: Fingerprint)
    requires Inv(w) && fp !in seen && fp.rule == rule.id && IsFiring(w, fp)
    ensures
      var w' := Sweep(w, rule, seen, at);
      && fp in w'.alerts && IsResolved(w.alerts[fp], w'.alerts[fp], at)
      && fp !in StateOf(w', rule.id).firingAlerts
      && w'.log == w.log + [Swept(StateOf(w, rule.id).firingAlerts - seen, at)]
      && fp in StateOf(w, rule.id).firingAlerts - seen
  {
    hide Sound, IsOpen, Unbroken;
    assert Owned(w, rule.id);
  }

  /** The alerts a batch mentions keep in the sweep what their results left. */
  lemma SweepKeepsSeen(w: World, rule: Rule, seen: set<Fingerprint>, at: Time, fp: Fingerprint)
    requires fp in seen
    ensures Lookup(Sweep(w, rule, seen, at), fp) == Lookup(w, fp)
  {
  }

  /** An alert is forgotten exactly if it has been resolved for more than an hour; the others stay as they are. */
  lemma ForgottenIff(w: World, now: Time, fp: Fingerprint)
    requires fp in w.alerts
    ensures
      var a := w.alerts[fp];
      Lookup(Cleanup(w, now), fp) ==
        if a.state == Resolved && a.resolvedAt.Some? && now - a.resolvedAt.value > 3_600_000_000_000 then None
        else Some(a)
  {
  }

  /** So an alert that the sweep resolved is forgotten exactly when an hour has passed since. */
  lemma SweptIsForgottenIff(w: World, rule: Rule, results: seq<EvalResult>, now: Time, sweepAt: Time, fp: Fingerprint,
                            later: Time)
    requires Inv(w) && now > 0 && fp !in Seen(rule, results) && fp.rule == rule.id && IsFiring(w, fp)
    ensures
      var w' := Cleanup(ProcessResults(w, rule, results, now, sweepAt), later);
      Lookup(w', fp).None? <==> later - sweepAt > 3_600_000_000_000
  {
    hide Inv, ProcessResults, Cleanup, Seen;
    UnseenIsResolved(w, rule, results, now, sweepAt, fp);
    ForgottenIff(ProcessResults(w, rule, results, now, sweepAt), later, fp);
  }

  // ---- FiredAt and KeepFiringFor ----

  /** When the alert last entered firing. */
  function LastEntry(log: seq<Event>, fp: Fingerprint): Option<Time> {
    if log == [] then None
    else var e := log[|log| - 1];
         if Enters(e, fp) then Some(e.at) else LastEntry(log[..|log| - 1], fp)
  }

  lemma {:induction false} LastEntryAfter(log: seq<Event>, more: seq<Event>, fp: Fingerprint)
    requires forall i :: 0 <= i < |more| ==> !Enters(more[i], fp)
    ensures LastEntry(log + more, fp) == LastEntry(log, fp)
  {
    if more == [] {
      assert log + more == log;
    } else {
      var n := |more| - 1;
      LastEntryAfter(log, more[..n], fp);
      assert (log + more)[..|log + more| - 1] == log + more[..n];
    }
  }

  /** FiredAt of a firing alert is the time of its last entry into firing. */
  ghost predicate Dated(w: World) {
    forall fp :: IsFiring(w, fp) ==> w.alerts[fp].firedAt.Some? && w.alerts[fp].firedAt == LastEntry(w.log, fp)
  }

  lemma FiringDates(w: World, rule: Rule, fp: Fingerprint, r: EvalResult, now: Time)
    requires Inv(w) && Dated(w) && fp.rule == rule.id
    ensures Dated(HandleFiring(w, rule, fp, r, now))
  {
    hide Inv, HandleFiring, LastEntry;
    var w', enters := HandleFiring(w, rule, fp, r, now), EntersAt(w, rule, fp, now);
    FiringRecords(w, rule, fp, r, now);
    NeverInactive(w, fp);
    NotifiesIff(w, rule, fp, r, now);
    var seen := w.log + [Observed(fp, true, now)];
    var more: seq<Event> := if enters && !r.silenced && w.hasNotifier then [Notified(fp, now)] else [];
    forall x | IsFiring(w', x)
      ensures w'.alerts[x].firedAt.Some? && w'.alerts[x].firedAt == LastEntry(w'.log, x)
    {
      LastEntryAfter(w.log, [Observed(fp, true, now)], x);
      assert Lookup(w', x) == Some(w'.alerts[x]);
      if enters {
        EntryIsLast(seen, fp, now, rule.forDuration, x);
        LastEntryAfter(seen + [Entered(fp, now, rule.forDuration)], more, x);
        assert w'.log == seen + [Entered(fp, now, rule.forDuration)] + more;
      } else {
        assert w'.log == seen;
      }
      assert x != fp ==> Lookup(w, x) == Some(w'.alerts[x]);
    }
  }

  lemma EntryIsLast(log: seq<Event>, fp: Fingerprint, at: Time, duration: int, x: Fingerprint)
    ensures LastEntry(log + [Entered(fp, at, duration)], x) == if x == fp then Some(at) else LastEntry(log, x)
  {
    assert (log + [Entered(fp, at, duration)])[..|log|] == log;
  }

  lemma ResolvedDates(w: World, rule: Rule, fp: Fingerprint, now: Time)
    requires Inv(w) && Dated(w) && fp.rule == rule.id
    ensures Dated(HandleResolved(w, rule, fp, now))
  {
    hide Inv, LastEntry;
    var w' := HandleResolved(w, rule, fp, now);
    forall x | IsFiring(w', x)
      ensures w'.alerts[x].firedAt.Some? && w'.alerts[x].firedAt == LastEntry(w'.log, x)
    {
      LastEntryAfter(w.log, [Observed(fp, false, now)], x);
      LastEntryAfter(w.log, [Observed(fp, false, now)] + [Left(fp, now)], x);
      assert w.log + [Observed(fp, false, now)] + [Left(fp, now)]
             == w.log + ([Observed(fp, false, now)] + [Left(fp, now)]);
      assert IsFiring(w, x);
    }
  }

  lemma {:induction false} HandleAllDates(w: World, rule: Rule, results: seq<EvalResult>, now: Time)
    requires Inv(w) && Dated(w) && now > 0
    ensures Dated(HandleAll(w, rule, results, now))
  {
    hide Inv, Dated, HandleFiring, HandleResolved;
    if results != [] {
      var prev, r := HandleAll(w, rule, results[..|results| - 1], now), results[|results| - 1];
      HandleAllDates(w, rule, results[..|results| - 1], now);
      HandleAllKeepsInv(w, rule, results[..|results| - 1], now);
      FiringDates(prev, rule, Fingerprint(rule.id, r.labels), r, now);
      ResolvedDates(prev, rule, Fingerprint(rule.id, r.labels), now);
    }
  }

  lemma SweepDates(w: World, rule: Rule, seen: set<Fingerprint>, at: Time)
    requires Dated(w)
    ensures Dated(Sweep(w, rule, seen, at))
  {
    hide LastEntry;
    var w' := Sweep(w, rule, seen, at);
    forall x | IsFiring(w', x)
      ensures w'.alerts[x].firedAt.Some? && w'.alerts[x].firedAt == LastEntry(w'.log, x)
    {
      LastEntryAfter(w.log, [Swept(StateOf(w, rule.id).firingAlerts - seen, at)], x);
      assert IsFiring(w, x);
    }
  }

  lemma ApplyDates(w: World, step: Step)
    requires Inv(w) && Dated(w) && InOrder(1, step)
    ensures Dated(Apply(w, step))
  {
    hide Inv, HandleAll, Sweep, LastEntry;
    match step
    case Forget(now) =>
      assert forall fp :: IsFiring(Cleanup(w, now), fp) ==> IsFiring(w, fp);
    case Evaluation(rule, gateAt, outcome, now, sweepAt) =>
      if !Gated(w, rule, gateAt) {
        var s := StateOf(w, rule.id).(lastEval := Some(gateAt));
        var w1 := w.(rules := w.rules[rule.id := s]);
        StampKeepsInv(w, rule.id, s);
        assert forall fp :: IsFiring(w1, fp) ==> IsFiring(w, fp);
        if outcome.Some? {
          HandleAllDates(w1, rule, outcome.value, now);
          SweepDates(HandleAll(w1, rule, outcome.value, now), rule, Seen(rule, outcome.value), sweepAt);
        }
      }
  }

  /** On every run, for any mix of rules, FiredAt of a firing alert is when it last entered firing. */
  lemma {:induction false} EveryRunDates(hasNotifier: bool, steps: seq<Step>)
    requires Timely(steps)
    ensures Dated(Run(Initial(hasNotifier), steps))
  {
    hide Inv, Apply, Dated;
    if steps == [] {
      NothingDated(hasNotifier);
    } else {
      var n := |steps| - 1;
      TimelyPrefix(steps, n);
      EveryRunKeepsInv(hasNotifier, steps[..n]);
      EveryRunDates(hasNotifier, steps[..n]);
      ApplyDates(Run(Initial(hasNotifier), steps[..n]), steps[n]);
    }
  }

  lemma NothingDated(hasNotifier: bool)
    ensures Dated(Initial(hasNotifier))
  {
  }

  /**
   * On every run a failing result takes a firing alert out of firing exactly if the alert is active and KeepFiringFor
   * has passed since its last entry into firing.
   */
  lemma KeptForItsTime(hasNotifier: bool, steps: seq<Step>, rule: Rule, fp: Fingerprint, now: Time)
    requires Timely(steps) && fp.rule == rule.id && IsFiring(Run(Initial(hasNotifier), steps), fp)
    ensures
      var w := Run(Initial(hasNotifier), steps);
      var entered := LastEntry(w.log, fp);
      && entered.Some?
      && (!IsFiring(HandleResolved(w, rule, fp, now), fp) <==>
            SinceWhen(w, fp).Some? && (rule.keepFiringFor <= 0 || now - entered.value >= rule.keepFiringFor))
  {
    hide Inv, Run, HandleResolved, LastEntry;
    EveryRunKeepsInv(hasNotifier, steps);
    EveryRunDates(hasNotifier, steps);
    FailingResultResolves(Run(Initial(hasNotifier), steps), rule, fp, now);
  }

  // ---- The interval gate ----

  /** Step i of the run evaluates its rule. */
  ghost predicate Passes(hasNotifier: bool, steps: seq<Step>, i: nat) {
    && i < |steps| && steps[i].Evaluation?
    && !Gated(Run(Initial(hasNotifier), steps[..i]), steps[i].rule, steps[i].gateAt)
  }

  lemma {:induction false} HandleAllKeepsStamp(w: World, rule: Rule, results: seq<EvalResult>, now: Time, id: string)
    ensures StateOf(HandleAll(w, rule, results, now), id).lastEval == StateOf(w, id).lastEval
  {
    hide HandleFiring, HandleResolved;
    if results != [] {
      var prev, r := HandleAll(w, rule, results[..|results| - 1], now), results[|results| - 1];
      HandleAllKeepsStamp(w, rule, results[..|results| - 1], now, id);
      FiringKeepsStamp(prev, rule, Fingerprint(rule.id, r.labels), r, now, id);
      ResolvedKeepsStamp(prev, rule, Fingerprint(rule.id, r.labels), now, id);
    }
  }

  lemma FiringKeepsStamp(w: World, rule: Rule, fp: Fingerprint, r: EvalResult, now: Time, id: string)
    ensures StateOf(HandleFiring(w, rule, fp, r, now), id).lastEval == StateOf(w, id).lastEval
  {
  }

  lemma ResolvedKeepsStamp(w: World, rule: Rule, fp: Fingerprint, now: Time, id: string)
    ensures StateOf(HandleResolved(w, rule, fp, now), id).lastEval == StateOf(w, id).lastEval
  {
  }

  lemma ApplyStamps(w: World, step: Step, id: string)
    ensures StateOf(Apply(w, step), id).lastEval ==
              if step.Evaluation? && step.rule.id == id && !Gated(w, step.rule, step.gateAt) then Some(step.gateAt)
              else StateOf(w, id).lastEval
  {
    hide HandleAll;
    if step.Evaluation? && !Gated(w, step.rule, step.gateAt) && step.outcome.Some? {
      var s := StateOf(w, step.rule.id).(lastEval := Some(step.gateAt));
      HandleAllKeepsStamp(w.(rules := w.rules[step.rule.id := s]), step.rule, step.outcome.value, step.now, id);
    }
  }

  lemma PassesInPrefix(hasNotifier: bool, steps: seq<Step>, n: nat)
    requires n <= |steps|
    ensures forall k: nat :: k < n ==> (Passes(hasNotifier, steps[..n], k) <==> Passes(hasNotifier, steps, k))
  {
    hide Run, Gated;
    forall k: nat | k < n ensures Passes(hasNotifier, steps[..n], k) <==> Passes(hasNotifier, steps, k) {
      assert steps[..n][..k] == steps[..k];
    }
  }

  /** The stamp of a rule is the time of the last evaluation of the rule that passed the gate. */
  lemma {:induction false} StampIsLast(hasNotifier: bool, steps: seq<Step>, id: string) returns (last: int)
    ensures -1 <= last < |steps|
    ensures last >= 0 ==> Passes(hasNotifier, steps, last) && steps[last].rule.id == id
    ensures forall k: nat :: last < k && Passes(hasNotifier, steps, k) ==> steps[k].rule.id != id
    ensures StateOf(Run(Initial(hasNotifier), steps), id).lastEval
            == if last >= 0 then Some(steps[last].gateAt) else None
  {
    hide Apply, Gated;
    if steps == [] {
      last := -1;
    } else {
      var n := |steps| - 1;
      last := StampIsLast(hasNotifier, steps[..n], id);
      PassesInPrefix(hasNotifier, steps, n);
      StampStep(hasNotifier, steps, id);
      if Passes(hasNotifier, steps, n) && steps[n].rule.id == id {
        last := n;
      }
    }
  }

  lemma StampStep(hasNotifier: bool, steps: seq<Step>, id: string)
    requires steps != []
    ensures
      var n := |steps| - 1;
      StateOf(Run(Initial(hasNotifier), steps), id).lastEval ==
        if Passes(hasNotifier, steps, n) && steps[n].rule.id == id then Some(steps[n].gateAt)
        else StateOf(Run(Initial(hasNotifier), steps[..n]), id).lastEval
  {
    hide Apply, Gated, StateOf;
    ApplyStamps(Run(Initial(hasNotifier), steps[..|steps| - 1]), steps[|steps| - 1], id);
  }

  lemma {:induction false} GateTimesGrow(steps: seq<Step>, i: nat, j: nat)
    requires Timely(steps) && i < j < |steps| && steps[i].Evaluation?
    ensures steps[i].gateAt <= ClockAt(steps, j)
    decreases j
  {
    assert InOrder(ClockAt(steps, i), steps[i]);
    if j > i + 1 {
      GateTimesGrow(steps, i, j - 1);
      assert InOrder(ClockAt(steps, j - 1), steps[j - 1]);
    }
  }

  /**
   * On every run a rule is evaluated exactly if its interval, one minute unless the rule says otherwise, has passed
   * since every earlier evaluation of it. Attempts that come earlier change nothing.
   */
  lemma EvaluatedIff(hasNotifier: bool, steps: seq<Step>, j: nat)
    requires Timely(steps) && j < |steps| && steps[j].Evaluation?
    ensures
      var rule := steps[j].rule;
      var interval := if rule.evalInterval == 0 then 60_000_000_000 else rule.evalInterval;
      Passes(hasNotifier, steps, j) <==>
        forall i :: 0 <= i < j && Passes(hasNotifier, steps, i) && steps[i].rule.id == rule.id ==>
                      steps[j].gateAt - steps[i].gateAt >= interval
    ensures !Passes(hasNotifier, steps, j) ==>
              Run(Initial(hasNotifier), steps[..j + 1]) == Run(Initial(hasNotifier), steps[..j])
  {
    hide Run, ProcessResults;
    TimelyPrefix(steps, j);
    var last := StampIsLast(hasNotifier, steps[..j], steps[j].rule.id);
    PassesInPrefix(hasNotifier, steps, j);
    if last >= 0 {
      forall i | 0 <= i <= last && steps[i].Evaluation? ensures steps[i].gateAt <= steps[last].gateAt {
        if i < last {
          GateTimesGrow(steps, i, last);
          assert InOrder(ClockAt(steps, last), steps[last]);
        }
      }
    }
    OneMore(Initial(hasNotifier), steps, j);
  }

  lemma OneMore(w: World, steps: seq<Step>, j: nat)
    requires j < |steps|
    ensures Run(w, steps[..j + 1]) == Apply(Run(w, steps[..j]), steps[j])
  {
    assert steps[..j + 1][..j] == steps[..j];
  }
}
