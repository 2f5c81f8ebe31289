/** What the runs of the evaluator mean for an observer. */
module AlertTheorems {
  import opened AlertModel
  import opened AlertRuns
  import opened Common

  // ---- Every run, every rule ----

  ghost predicate ClosedBetween(log: seq<Event>, fp: Fingerprint, i: nat, j: nat) {
    exists k :: i < k < j && k < |log| && Closes(log[k], fp)
  }

  lemma {:induction false} StaysOpen(log: seq<Event>, fp: Fingerprint, i: nat, j: nat)
    requires i < j <= |log| && Enters(log[i], fp) && !ClosedBetween(log, fp, i, j)
    ensures IsOpen(log[..j], fp)
    decreases j
  {
    var e := log[j - 1];
    assert log[..j][..j - 1] == log[..j - 1];
    if j > i + 1 {
      assert !Closes(e, fp);
      StaysOpen(log, fp, i, j - 1);
    }
  }

  /** Two entries of one alert into firing always have a resolution between them. */
  lemma EntriesAreSeparated(hasNotifier: bool, steps: seq<Step>, fp: Fingerprint, i: nat, j: nat)
    requires Timely(steps)
    requires var log := Run(Initial(hasNotifier), steps).log;
             i < j < |log| && Enters(log[i], fp) && Enters(log[j], fp)
    ensures ClosedBetween(Run(Initial(hasNotifier), steps).log, fp, i, j)
  {
    EveryRunKeepsInv(hasNotifier, steps);
    var log := Run(Initial(hasNotifier), steps).log;
    assert Justified(log[..j], log[j]);
    if !ClosedBetween(log, fp, i, j) {
      StaysOpen(log, fp, i, j);
      assert false;
    }
  }

  /** The entry at i of the log was earned by observations from j on. */
  ghost predicate Earned(log: seq<Event>, j: nat, i: nat)
    requires j < i < |log| && log[i].Entered?
  {
    var e := log[i];
    && log[j].Observed? && log[j].fp == e.fp && log[j].firing
    && log[i - 1] == Observed(e.fp, true, e.at)
    && e.at - log[j].at >= e.forDuration
    && forall k :: j <= k < i ==> !Breaks(log[k], e.fp)
  }

  lemma EntryIsEarned(log: seq<Event>, i: nat) returns (j: nat)
    requires i < |log| && log[i].Entered? && Justified(log[..i], log[i])
    ensures j < i && Earned(log, j, i)
  {
    hide IsOpen;
    var e, past := log[i], log[..i];
    var since :| Unbroken(past, e.fp, since) && e.at - since >= e.forDuration;
    j :| 0 <= j < i && past[j] == Observed(e.fp, true, since) && forall k :: j < k < i ==> !Breaks(past[k], e.fp);
    forall k | j <= k < i ensures !Breaks(log[k], e.fp) {
      assert log[k] == past[k];
    }
  }

  /** An alert enters firing only when observations of its condition, none of them failing, span ForDuration. */
  lemma EntryNeedsSpan(hasNotifier: bool, steps: seq<Step>, i: nat) returns (j: nat)
    requires Timely(steps)
    requires var log := Run(Initial(hasNotifier), steps).log; i < |log| && log[i].Entered?
    ensures j < i && Earned(Run(Initial(hasNotifier), steps).log, j, i)
  {
    hide Run, Earned, Justified, Owned, IsOpen;
    EveryRunKeepsInv(hasNotifier, steps);
    j := EntryIsEarned(Run(Initial(hasNotifier), steps).log, i);
  }

  function Count(log: seq<Event>, p: Event -> bool): nat {
    if log == [] then 0 else Count(log[..|log| - 1], p) + if p(log[|log| - 1]) then 1 else 0
  }

  function Entries(log: seq<Event>, fp: Fingerprint): nat {
    Count(log, e => Enters(e, fp))
  }

  function Notifications(log: seq<Event>, fp: Fingerprint): nat {
    Count(log, (e: Event) => e.Notified? && e.fp == fp)
  }

  lemma {:induction false} NotificationsInLog(log: seq<Event>, fp: Fingerprint)
    requires Sound(log)
    ensures Notifications(log, fp) + (if log != [] && Enters(log[|log| - 1], fp) then 1 else 0) <= Entries(log, fp)
  {
    if log != [] {
      var n := |log| - 1;
      assert Sound(log[..n]) by {
        forall i | 0 <= i < n ensures Justified(log[..n][..i], log[..n][i]) {
          assert log[..n][..i] == log[..i];
          assert Justified(log[..i], log[i]);
        }
      }
      NotificationsInLog(log[..n], fp);
      assert Justified(log[..n], log[n]);
    }
  }

  /** The notifier is called at most once for each entry into firing. */
  lemma NotifiedOncePerEntry(hasNotifier: bool, steps: seq<Step>, fp: Fingerprint)
    requires Timely(steps)
    ensures var log := Run(Initial(hasNotifier), steps).log; Notifications(log, fp) <= Entries(log, fp)
  {
    EveryRunKeepsInv(hasNotifier, steps);
    NotificationsInLog(Run(Initial(hasNotifier), steps).log, fp);
  }

  // ---- A rule with a fixed ForDuration and no KeepFiringFor ----

  /** The last result for fp in the batch, if there is one, says the condition holds. */
  predicate LastSaysFiring(rule: Rule, results: seq<EvalResult>, fp: Fingerprint) {
    results != [] &&
    var r := results[|results| - 1];
    if Fingerprint(rule.id, r.labels) == fp then r.firing else LastSaysFiring(rule, results[..|results| - 1], fp)
  }

  ghost predicate OldEnough(w: World, fp: Fingerprint, now: Time, duration: int) {
    var s := StateOf(w, fp.rule);
    fp in s.activeSince && now - s.activeSince[fp] >= duration
  }

  /** Every firing alert of the rule is old enough at time t. */
  ghost predicate Matured(w: World, rule: Rule, t: Time) {
    forall fp :: fp in StateOf(w, rule.id).firingAlerts ==> fp.rule == rule.id && OldEnough(w, fp, t, rule.forDuration)
  }

  ghost predicate Plain(rule: Rule) {
    rule.keepFiringFor <= 0
  }

  /** The effect of one result on its own fingerprint, and on no other. */
  lemma HandleDecides(w: World, rule: Rule, r: EvalResult, now: Time)
    requires Inv(w) && now > 0 && Plain(rule) && Matured(w, rule, now)
    ensures
      var w' := Handle(w, rule, r, now);
      var fp := Fingerprint(rule.id, r.labels);
      && Matured(w', rule, now)
      && (IsFiring(w', fp) <==> r.firing && OldEnough(w', fp, now, rule.forDuration))
      && (forall other :: other != fp ==>
            && (IsFiring(w', other) <==> IsFiring(w, other))
            && (OldEnough(w', other, now, rule.forDuration) <==> OldEnough(w, other, now, rule.forDuration)))
  {
    hide Sound, IsOpen, Unbroken;
    var fp := Fingerprint(rule.id, r.labels);
    assert Owned(w, rule.id);
    assert IsFiring(w, fp) <==> fp in StateOf(w, rule.id).firingAlerts;
    if r.firing {
      FiringDecides(w, rule, fp, r, now);
    } else {
      ResolvedDecides(w, rule, fp, now);
    }
  }

  lemma FiringDecides(w: World, rule: Rule, fp: Fingerprint, r: EvalResult, now: Time)
    requires fp.rule == rule.id && Matured(w, rule, now)
    requires fp in w.alerts ==> w.alerts[fp].state != Inactive
    requires IsFiring(w, fp) <==> fp in StateOf(w, rule.id).firingAlerts
    ensures
      var w' := HandleFiring(w, rule, fp, r, now);
      && Matured(w', rule, now)
      && (IsFiring(w', fp) <==> OldEnough(w', fp, now, rule.forDuration))
      && (forall other :: other != fp ==>
            && (IsFiring(w', other) <==> IsFiring(w, other))
            && (OldEnough(w', other, now, rule.forDuration) <==> OldEnough(w, other, now, rule.forDuration)))
  {
    hide HandleFiring;
    assert IsFiring(w, fp) ==> OldEnough(w, fp, now, rule.forDuration);
    FiringEffect(w, rule, fp, r, now);
  }

  lemma FiringEffect(w: World, rule: Rule, fp: Fingerprint, r: EvalResult, now: Time)
    requires fp.rule == rule.id
    requires fp in w.alerts ==> w.alerts[fp].state != Inactive
    ensures
      var w', s, since := HandleFiring(w, rule, fp, r, now), StateOf(w, rule.id), SinceOf(w, fp, now);
      var fires := now - since >= rule.forDuration;
      && StateOf(w', rule.id).activeSince == s.activeSince[fp := since]
      && StateOf(w', rule.id).firingAlerts
         == (if fires && !IsFiring(w, fp) then s.firingAlerts + {fp} else s.firingAlerts)
      && (IsFiring(w', fp) <==> fires || IsFiring(w, fp))
      && (forall other :: other != fp ==> (IsFiring(w', other) <==> IsFiring(w, other)))
      && (forall id :: id != rule.id ==> StateOf(w', id) == StateOf(w, id))
  {
  }

  lemma ResolvedDecides(w: World, rule: Rule, fp: Fingerprint, now: Time)
    requires fp.rule == rule.id && Plain(rule) && Matured(w, rule, now)
    requires IsFiring(w, fp) <==> fp in StateOf(w, rule.id).firingAlerts
    requires fp in StateOf(w, rule.id).activeSince ==> StateOf(w, rule.id).activeSince[fp] > 0
    ensures
      var w' := HandleResolved(w, rule, fp, now);
      && Matured(w', rule, now)
      && !IsFiring(w', fp)
      && (forall other :: other != fp ==>
            && (IsFiring(w', other) <==> IsFiring(w, other))
            && (OldEnough(w', other, now, rule.forDuration) <==> OldEnough(w, other, now, rule.forDuration)))
  {
    assert IsFiring(w, fp) ==> OldEnough(w, fp, now, rule.forDuration);
    var w' := HandleResolved(w, rule, fp, now);
    assert IsFiring(w, fp) ==> StateOf(w', rule.id).firingAlerts == StateOf(w, rule.id).firingAlerts - {fp};
    assert !IsFiring(w, fp) ==> StateOf(w', rule.id).firingAlerts == StateOf(w, rule.id).firingAlerts;
    assert StateOf(w', rule.id).activeSince == StateOf(w, rule.id).activeSince - {fp};
  }

  lemma {:induction false} HandleAllDecides(w: World, rule: Rule, results: seq<EvalResult>, now: Time)
    requires Inv(w) && now > 0 && Plain(rule) && Matured(w, rule, now)
    ensures Matured(HandleAll(w, rule, results, now), rule, now)
    ensures forall fp :: fp in Seen(rule, results) ==>
              var w' := HandleAll(w, rule, results, now);
              IsFiring(w', fp) <==> LastSaysFiring(rule, results, fp) && OldEnough(w', fp, now, rule.forDuration)
  {
    hide Inv, Matured, OldEnough, Handle;
    if results != [] {
      var n := |results| - 1;
      var prev, r := HandleAll(w, rule, results[..n], now), results[n];
      HandleAllDecides(w, rule, results[..n], now);
      HandleAllKeepsInv(w, rule, results[..n], now);
      HandleDecides(prev, rule, r, now);
      forall fp | fp in Seen(rule, results)
        ensures fp == Fingerprint(rule.id, r.labels) || fp in Seen(rule, results[..n])
      {
        var q :| q in results && Fingerprint(rule.id, q.labels) == fp;
        assert results == results[..n] + [r];
      }
    }
  }

  lemma {:induction false} UnseenSaysNothing(rule: Rule, results: seq<EvalResult>, fp: Fingerprint)
    requires fp !in Seen(rule, results)
    ensures !LastSaysFiring(rule, results, fp)
  {
    if results != [] {
      assert results[|results| - 1] in results;
      assert forall r :: r in results[..|results| - 1] ==> r in results;
      UnseenSaysNothing(rule, results[..|results| - 1], fp);
    }
  }

  /** After a batch, exactly the alerts whose last result is firing and whose span is long enough are firing. */
  lemma BatchDecides(w: World, rule: Rule, results: seq<EvalResult>, now: Time, sweepAt: Time)
    requires Inv(w) && 0 < now <= sweepAt && Plain(rule) && Matured(w, rule, now)
    ensures
      var w' := ProcessResults(w, rule, results, now, sweepAt);
      && Matured(w', rule, sweepAt)
      && forall fp: Fingerprint :: fp.rule == rule.id ==>
           && (IsFiring(w', fp) <==> fp in StateOf(w', rule.id).firingAlerts)
           && (IsFiring(w', fp) <==> LastSaysFiring(rule, results, fp) && OldEnough(w', fp, now, rule.forDuration))
  {
    hide HandleAll, IsOpen, Sound, Unbroken, LastSaysFiring, Seen;
    var mid, seen := HandleAll(w, rule, results, now), Seen(rule, results);
    HandleAllKeepsInv(w, rule, results, now);
    HandleAllDecides(w, rule, results, now);
    SweepKeepsInv(mid, rule, seen, sweepAt);
    var w' := Sweep(mid, rule, seen, sweepAt);
    assert Owned(mid, rule.id);
    SweepEffect(mid, rule, seen, sweepAt);
    forall fp: Fingerprint | fp.rule == rule.id
      ensures IsFiring(w', fp) <==> fp in StateOf(w', rule.id).firingAlerts
      ensures IsFiring(w', fp) <==> LastSaysFiring(rule, results, fp) && OldEnough(w', fp, now, rule.forDuration)
    {
      if fp !in seen {
        UnseenSaysNothing(rule, results, fp);
      }
    }
  }

  lemma SweepEffect(w: World, rule: Rule, seen: set<Fingerprint>, at: Time)
    requires Inv(w)
    ensures
      var w' := Sweep(w, rule, seen, at);
      && StateOf(w', rule.id).firingAlerts == StateOf(w, rule.id).firingAlerts * seen
      && (forall fp :: fp in seen && fp.rule == rule.id ==> (IsFiring(w', fp) <==> IsFiring(w, fp)))
      && (forall fp, t, d :: fp in seen && fp.rule == rule.id ==> (OldEnough(w', fp, t, d) <==> OldEnough(w, fp, t, d)))
  {
    hide IsOpen, Sound, Unbroken;
    assert Owned(w, rule.id);
  }

  // ---- ... over a whole run ----

  /** Every evaluation of the rule in the run uses the same ForDuration and no KeepFiringFor. */
  ghost predicate FixedRule(rule: Rule, steps: seq<Step>) {
    && Plain(rule)
    && forall i :: 0 <= i < |steps| && steps[i].Evaluation? && steps[i].rule.id == rule.id ==>
         steps[i].rule.forDuration == rule.forDuration && Plain(steps[i].rule)
  }

  lemma HandleElsewhere(w: World, rule: Rule, r: EvalResult, now: Time, id: string)
    requires id != rule.id
    ensures StateOf(Handle(w, rule, r, now), id) == StateOf(w, id)
  {
  }

  lemma {:induction false} HandleAllElsewhere(w: World, rule: Rule, results: seq<EvalResult>, now: Time, id: string)
    requires id != rule.id
    ensures StateOf(HandleAll(w, rule, results, now), id) == StateOf(w, id)
  {
    hide Handle;
    if results != [] {
      HandleAllElsewhere(w, rule, results[..|results| - 1], now, id);
      HandleElsewhere(HandleAll(w, rule, results[..|results| - 1], now), rule, results[|results| - 1], now, id);
    }
  }

  lemma MaturesOn(w: World, w': World, rule: Rule, t: Time, t': Time)
    requires Matured(w, rule, t) && t <= t'
    requires StateOf(w', rule.id).firingAlerts == StateOf(w, rule.id).firingAlerts
    requires StateOf(w', rule.id).activeSince == StateOf(w, rule.id).activeSince
    ensures Matured(w', rule, t')
  {
    forall fp | fp in StateOf(w', rule.id).firingAlerts
      ensures fp.rule == rule.id && OldEnough(w', fp, t', rule.forDuration)
    {
      assert OldEnough(w, fp, t, rule.forDuration);
    }
  }

  lemma ApplyKeepsMatured(w: World, rule: Rule, step: Step, t: Time)
    requires Inv(w) && Matured(w, rule, t) && t >= 1 && InOrder(t, step) && Plain(rule)
    requires step.Evaluation? && step.rule.id == rule.id ==>
               step.rule.forDuration == rule.forDuration && Plain(step.rule)
    ensures Matured(Apply(w, step), rule, EndOf(step))
  {
    hide Inv, Matured, HandleAll;
    match step
    case Forget(now) => MaturesOn(w, Cleanup(w, now), rule, t, now);
    case Evaluation(rule', gateAt, outcome, now, sweepAt) =>
      if Gated(w, rule', gateAt) {
        MaturesOn(w, w, rule, t, sweepAt);
      } else {
        var s := StateOf(w, rule'.id).(lastEval := Some(gateAt));
        var w1 := w.(rules := w.rules[rule'.id := s]);
        StampKeepsInv(w, rule'.id, s);
        MaturesOn(w, w1, rule, t, now);
        if outcome.None? {
          MaturesOn(w1, w1, rule, now, sweepAt);
        } else if rule'.id == rule.id {
          SameMaturity(w1, rule, rule', now);
          BatchDecides(w1, rule', outcome.value, now, sweepAt);
          SameMaturity(Apply(w, step), rule', rule, sweepAt);
        } else {
          HandleAllElsewhere(w1, rule', outcome.value, now, rule.id);
          MaturesOn(w1, Apply(w, step), rule, now, sweepAt);
        }
      }
  }

  lemma SameMaturity(w: World, rule: Rule, rule': Rule, t: Time)
    requires Matured(w, rule, t) && rule.id == rule'.id && rule.forDuration == rule'.forDuration
    ensures Matured(w, rule', t)
  {
  }

  lemma {:induction false} EveryRunKeepsMatured(hasNotifier: bool, steps: seq<Step>, rule: Rule)
    requires Timely(steps) && FixedRule(rule, steps)
    ensures Matured(Run(Initial(hasNotifier), steps), rule, ClockAt(steps, |steps|))
  {
    if steps != [] {
      var n := |steps| - 1;
      TimelyPrefix(steps, n);
      EveryRunKeepsInv(hasNotifier, steps[..n]);
      EveryRunKeepsMatured(hasNotifier, steps[..n], rule);
      assert InOrder(ClockAt(steps, n), steps[n]);
      ApplyKeepsMatured(Run(Initial(hasNotifier), steps[..n]), rule, steps[n], ClockAt(steps, n));
    }
  }

  /** At the end of any run whose last step evaluated the rule, its firing alerts are those the batch calls for. */
  lemma EveryBatchDecides(hasNotifier: bool, steps: seq<Step>, fp: Fingerprint)
    requires Timely(steps) && steps != []
    requires var last := steps[|steps| - 1];
             && last.Evaluation? && last.outcome.Some? && last.rule.id == fp.rule
             && !Gated(Run(Initial(hasNotifier), steps[..|steps| - 1]), last.rule, last.gateAt)
             && FixedRule(last.rule, steps)
    ensures
      var w, last := Run(Initial(hasNotifier), steps), steps[|steps| - 1];
      && (fp in StateOf(w, fp.rule).firingAlerts <==> IsFiring(w, fp))
      && (IsFiring(w, fp) <==> LastSaysFiring(last.rule, last.outcome.value, fp)
                               && OldEnough(w, fp, last.now, last.rule.forDuration))
  {
    hide Inv, Matured, ProcessResults, LastSaysFiring, OldEnough;
    var n := |steps| - 1;
    var w, last := Run(Initial(hasNotifier), steps[..n]), steps[n];
    TimelyPrefix(steps, n);
    EveryRunKeepsInv(hasNotifier, steps[..n]);
    EveryRunKeepsMatured(hasNotifier, steps[..n], last.rule);
    assert InOrder(ClockAt(steps, n), last);
    var s := StateOf(w, fp.rule).(lastEval := Some(last.gateAt));
    var w1 := w.(rules := w.rules[fp.rule := s]);
    StampKeepsInv(w, fp.rule, s);
    MaturesOn(w, w1, last.rule, ClockAt(steps, n), last.now);
    BatchDecides(w1, last.rule, last.outcome.value, last.now, last.sweepAt);
  }

  // ---- KeepFiringFor ----

  /** When a failing result takes a firing alert out of firing: exactly if it was still active and is not held. */
  lemma FailingResultResolves(w: World, rule: Rule, fp: Fingerprint, now: Time)
    requires Inv(w) && fp.rule == rule.id && IsFiring(w, fp)
    ensures !IsFiring(HandleResolved(w, rule, fp, now), fp) <==>
              fp in StateOf(w, rule.id).activeSince && !Held(rule, w.alerts[fp], now)
    ensures fp !in StateOf(HandleResolved(w, rule, fp, now), rule.id).activeSince
  {
    hide IsOpen, Sound, Unbroken;
    assert Owned(w, rule.id);
  }

  /** Every evaluation of the rule's own fingerprint fp, in every batch, fails; and every batch mentions it. */
  ghost predicate AlwaysFailing(fp: Fingerprint, step: Step) {
    step.Evaluation? && step.rule.id == fp.rule && step.outcome.Some? ==>
      && fp in Seen(step.rule, step.outcome.value)
      && forall r :: r in step.outcome.value && r.labels == fp.labels ==> !r.firing
  }

  ghost predicate Stranded(w: World, fp: Fingerprint) {
    IsFiring(w, fp) && fp !in StateOf(w, fp.rule).activeSince
  }

  lemma HandleStrands(w: World, rule: Rule, r: EvalResult, now: Time, fp: Fingerprint)
    requires Stranded(w, fp) && (Fingerprint(rule.id, r.labels) == fp ==> !r.firing)
    ensures Stranded(Handle(w, rule, r, now), fp)
  {
  }

  lemma {:induction false} HandleAllStrands(w: World, rule: Rule, results: seq<EvalResult>, now: Time, fp: Fingerprint)
    requires Stranded(w, fp)
    requires fp.rule == rule.id ==> forall r :: r in results && r.labels == fp.labels ==> !r.firing
    ensures Stranded(HandleAll(w, rule, results, now), fp)
  {
    hide Handle, Stranded;
    if results != [] {
      var n := |results| - 1;
      assert forall q :: q in results[..n] ==> q in results;
      HandleAllStrands(w, rule, results[..n], now, fp);
      assert results[n] in results;
      HandleStrands(HandleAll(w, rule, results[..n], now), rule, results[n], now, fp);
    }
  }

  /**
   * A held alert loses its ActiveSince with the failing result that was held back. From then on failing results
   * alone, however many and however late, never resolve it.
   */
  lemma {:induction false} StrandedForEver(w: World, steps: seq<Step>, fp: Fingerprint)
    requires Inv(w) && Stranded(w, fp)
    requires forall i :: 0 <= i < |steps| ==> InOrder(1, steps[i]) && AlwaysFailing(fp, steps[i])
    ensures Inv(Run(w, steps)) && Stranded(Run(w, steps), fp)
  {
    hide Inv, Stranded, AlwaysFailing, Apply, InOrder;
    if steps != [] {
      var n := |steps| - 1;
      assert forall i :: 0 <= i < n ==> steps[..n][i] == steps[i];
      StrandedForEver(w, steps[..n], fp);
      ApplyKeepsInv(Run(w, steps[..n]), steps[n]);
      StepStrands(Run(w, steps[..n]), steps[n], fp);
    }
  }

  lemma StepStrands(w: World, step: Step, fp: Fingerprint)
    requires Inv(w) && Stranded(w, fp) && InOrder(1, step) && AlwaysFailing(fp, step)
    ensures Stranded(Apply(w, step), fp)
  {
    hide HandleAll, Seen, Inv;
    if step.Evaluation? && step.outcome.Some? && !Gated(w, step.rule, step.gateAt) {
      var s := StateOf(w, step.rule.id).(lastEval := Some(step.gateAt));
      var w1 := w.(rules := w.rules[step.rule.id := s]);
      StampKeepsInv(w, step.rule.id, s);
      HandleAllKeepsInv(w1, step.rule, step.outcome.value, step.now);
      HandleAllStrands(w1, step.rule, step.outcome.value, step.now, fp);
      var mid := HandleAll(w1, step.rule, step.outcome.value, step.now);
      OwnsOnly(mid, step.rule.id);
    }
  }

  lemma OwnsOnly(w: World, id: string)
    requires Inv(w)
    ensures forall fp :: fp in StateOf(w, id).firingAlerts ==> fp.rule == id
  {
    assert Owned(w, id);
  }

  /** So one failing result inside KeepFiringFor makes the alert outlast every failing result after it, for ever. */
  lemma {:induction false} HeldAlertNeverResolves(w: World, rule: Rule, fp: Fingerprint, now: Time, steps: seq<Step>)
    requires Inv(w) && fp.rule == rule.id && IsFiring(w, fp) && Held(rule, w.alerts[fp], now)
    requires forall i :: 0 <= i < |steps| ==> InOrder(1, steps[i]) && AlwaysFailing(fp, steps[i])
    ensures IsFiring(Run(HandleResolved(w, rule, fp, now), steps), fp)
  {
    hide Inv, HandleResolved, Run;
    ResolvedKeepsInv(w, rule, fp, now);
    FailingResultResolves(w, rule, fp, now);
    StrandedForEver(HandleResolved(w, rule, fp, now), steps, fp);
  }

  /** A batch with one failing result for a single series. */
  function Failing(rule: Rule, at: Time): Step {
    Evaluation(rule, at, Some([EvalResult(map[], 0.0, false, false)]), at, at)
  }

  lemma HandleOne(w: World, rule: Rule, r: EvalResult, now: Time)
    ensures HandleAll(w, rule, [r], now) == Handle(w, rule, r, now)
    ensures Seen(rule, [r]) == {Fingerprint(rule.id, r.labels)}
  {
    assert [r][..0] == [];
    assert r in [r];
  }

  /** A failing result that finds the alert held, or no longer active, leaves it firing. */
  lemma FailingIsHeld(w: World, rule: Rule, at: Time)
    requires Inv(w) && at > 0 && !Gated(w, rule, at)
    requires var fp := Fingerprint(rule.id, map[]);
             IsFiring(w, fp) && (Held(rule, w.alerts[fp], at) || fp !in StateOf(w, rule.id).activeSince)
    ensures Inv(Apply(w, Failing(rule, at))) && Stranded(Apply(w, Failing(rule, at)), Fingerprint(rule.id, map[]))
    ensures StateOf(Apply(w, Failing(rule, at)), rule.id).lastEval == Some(at)
  {
    hide Inv, HandleAll, Seen, HandleFiring;
    var fp, r := Fingerprint(rule.id, map[]), EvalResult(map[], 0.0, false, false);
    var s := StateOf(w, rule.id).(lastEval := Some(at));
    var w1 := w.(rules := w.rules[rule.id := s]);
    ApplyKeepsInv(w, Failing(rule, at));
    StampKeepsInv(w, rule.id, s);
    HandleOne(w1, rule, r, at);
    ResolvedKeepsInv(w1, rule, fp, at);
    FailingResultResolves(w1, rule, fp, at);
    SweepEffect(HandleResolved(w1, rule, fp, at), rule, {fp}, at);
  }

  /** A firing result for a new alert without ForDuration makes it fire at once. */
  lemma FirstFires(rule: Rule, at: Time)
    requires at > 0 && rule.forDuration <= 0
    ensures
      var step := Evaluation(rule, at, Some([EvalResult(map[], 1.0, true, false)]), at, at);
      var w, fp := Apply(Initial(true), step), Fingerprint(rule.id, map[]);
      && Inv(w) && IsFiring(w, fp) && w.alerts[fp].firedAt == Some(at)
      && StateOf(w, rule.id).lastEval == Some(at)
  {
    hide HandleAll, Seen;
    var r := EvalResult(map[], 1.0, true, false);
    var step := Evaluation(rule, at, Some([r]), at, at);
    EveryRunKeepsInv(true, []);
    ApplyKeepsInv(Initial(true), step);
    var w1 := Initial(true).(rules := map[rule.id := EMPTY_RULE.(lastEval := Some(at))]);
    HandleOne(w1, rule, r, at);
  }

  /**
   * A run: with ForDuration 0 and KeepFiringFor 10 the alert fires at time 1 and its condition fails at time 2. At time
   * 100, long after KeepFiringFor, the next failing result still leaves it firing.
   */
  lemma KeepFiringForNeverEnds()
    ensures
      var rule := Rule("r", 0, 10, 1);
      var first := Evaluation(rule, 1, Some([EvalResult(map[], 1.0, true, false)]), 1, 1);
      var steps := [first, Failing(rule, 2), Failing(rule, 100)];
      Timely(steps) && IsFiring(Run(Initial(true), steps), Fingerprint("r", map[]))
  {
    hide Inv, Apply;
    var rule, fp := Rule("r", 0, 10, 1), Fingerprint("r", map[]);
    var first := Evaluation(rule, 1, Some([EvalResult(map[], 1.0, true, false)]), 1, 1);
    var steps := [first, Failing(rule, 2), Failing(rule, 100)];
    assert steps[..2][..1] == steps[..1] && steps[..1][..0] == [];
    var w1 := Run(Initial(true), steps[..1]);
    assert Run(Initial(true), []) == Initial(true);
    assert w1 == Apply(Run(Initial(true), steps[..1][..0]), steps[0]);
    FirstFires(rule, 1);
    var w2 := Run(Initial(true), steps[..2]);
    assert w2 == Apply(w1, Failing(rule, 2));
    FailingIsHeld(w1, rule, 2);
    assert Run(Initial(true), steps) == Apply(w2, Failing(rule, 100));
    FailingIsHeld(w2, rule, 100);
  }
}
