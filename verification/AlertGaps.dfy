/** What happens to an alert whose series is missing from the batches of its rule. */
module AlertGaps {
  import opened AlertModel
  import opened AlertRuns
  import opened AlertTheorems
  import opened Common

  function SinceWhen(w: World, fp: Fingerprint): Option<Time> {
    var s := StateOf(w, fp.rule);
    if fp in s.activeSince then Some(s.activeSince[fp]) else None
  }

  function Lookup(w: World, fp: Fingerprint): Option<Alert> {
    if fp in w.alerts then Some(w.alerts[fp]) else None
  }

  // ---- One batch that does not mention the alert ----

  lemma HandleElse(w: World, rule: Rule, r: EvalResult, now: Time, fp: Fingerprint)
    requires Fingerprint(rule.id, r.labels) != fp
    ensures var w' := Handle(w, rule, r, now); Lookup(w', fp) == Lookup(w, fp) && SinceWhen(w', fp) == SinceWhen(w, fp)
  {
    hide HandleFiring, HandleResolved;
    FiringElse(w, rule, Fingerprint(rule.id, r.labels), r, now, fp);
    ResolvedElse(w, rule, Fingerprint(rule.id, r.labels), now, fp);
  }

  lemma FiringElse(w: World, rule: Rule, other: Fingerprint, r: EvalResult, now: Time, fp: Fingerprint)
    requires other != fp && other.rule == rule.id
    ensures var w' := HandleFiring(w, rule, other, r, now);
            Lookup(w', fp) == Lookup(w, fp) && SinceWhen(w', fp) == SinceWhen(w, fp)
  {
  }

  lemma ResolvedElse(w: World, rule: Rule, other: Fingerprint, now: Time, fp: Fingerprint)
    requires other != fp && other.rule == rule.id
    ensures var w' := HandleResolved(w, rule, other, now);
            Lookup(w', fp) == Lookup(w, fp) && SinceWhen(w', fp) == SinceWhen(w, fp)
  {
  }

  lemma {:induction false} HandleAllElse(w: World, rule: Rule, results: seq<EvalResult>, now: Time, fp: Fingerprint)
    requires fp !in Seen(rule, results)
    ensures var w' := HandleAll(w, rule, results, now);
            Lookup(w', fp) == Lookup(w, fp) && SinceWhen(w', fp) == SinceWhen(w, fp)
  {
    hide Handle, Lookup, SinceWhen;
    if results != [] {
      var n := |results| - 1;
      assert forall q :: q in results[..n] ==> q in results;
      HandleAllElse(w, rule, results[..n], now, fp);
      assert results[n] in results;
      HandleElse(HandleAll(w, rule, results[..n], now), rule, results[n], now, fp);
    }
  }

  lemma SweepUnseen(w: World, rule: Rule, seen: set<Fingerprint>, at: Time, fp: Fingerprint)
    requires Inv(w) && fp !in seen
    ensures
      var w' := Sweep(w, rule, seen, at);
      var swept := fp.rule == rule.id && IsFiring(w, fp);
      && !(swept && IsFiring(w', fp))
      && (Lookup(w', fp) != Lookup(w, fp) <==> swept)
      && SinceWhen(w', fp) == if swept then None else SinceWhen(w, fp)
  {
    hide Sound, IsOpen, Unbroken;
    assert Owned(w, rule.id);
  }

  /**
   * A batch that does not mention an alert changes it exactly if it is a firing alert of the rule. In particular the
   * sweep leaves a pending alert alone, and with it the time since when it has been active.
   */
  lemma UnseenChangesIffFiring(w: World, rule: Rule, results: seq<EvalResult>, now: Time, sweepAt: Time,
                               fp: Fingerprint)
    requires Inv(w) && now > 0 && fp !in Seen(rule, results)
    ensures
      var w' := ProcessResults(w, rule, results, now, sweepAt);
      var swept := fp.rule == rule.id && IsFiring(w, fp);
      && !(swept && IsFiring(w', fp))
      && (Lookup(w', fp) != Lookup(w, fp) <==> swept)
      && SinceWhen(w', fp) == if swept then None else SinceWhen(w, fp)
  {
    hide HandleAll, Inv, Sweep, SinceWhen;
    HandleAllKeepsInv(w, rule, results, now);
    HandleAllElse(w, rule, results, now, fp);
    SweepUnseen(HandleAll(w, rule, results, now), rule, Seen(rule, results), sweepAt, fp);
  }

  // ---- A gap of any length ----

  /** Not firing, and active since then. */
  ghost predicate Waits(w: World, fp: Fingerprint, since: Time) {
    !IsFiring(w, fp) && SinceWhen(w, fp) == Some(since)
  }

  /** The step does not mention the alert. */
  ghost predicate Silent(fp: Fingerprint, step: Step) {
    step.Evaluation? && step.outcome.Some? ==> fp !in Seen(step.rule, step.outcome.value)
  }

  lemma StepKeepsWaiting(w: World, step: Step, fp: Fingerprint, since: Time)
    requires Inv(w) && Waits(w, fp, since) && InOrder(1, step) && Silent(fp, step)
    ensures Waits(Apply(w, step), fp, since)
  {
    hide Inv, ProcessResults, Seen;
    if step.Evaluation? && !Gated(w, step.rule, step.gateAt) {
      var s := StateOf(w, step.rule.id).(lastEval := Some(step.gateAt));
      var w1 := w.(rules := w.rules[step.rule.id := s]);
      StampKeepsInv(w, step.rule.id, s);
      if step.outcome.Some? {
        UnseenChangesIffFiring(w1, step.rule, step.outcome.value, step.now, step.sweepAt, fp);
      }
    }
  }

  /** However many batches leave out an alert that waits, and however long that takes, it waits since the same time. */
  lemma {:induction false} GapKeepsWaiting(w: World, gap: seq<Step>, fp: Fingerprint, since: Time)
    requires Inv(w) && Waits(w, fp, since)
    requires forall i :: 0 <= i < |gap| ==> InOrder(1, gap[i]) && Silent(fp, gap[i])
    ensures Inv(Run(w, gap)) && Waits(Run(w, gap), fp, since)
  {
    hide Inv, Waits, Apply, Silent;
    if gap != [] {
      var n := |gap| - 1;
      GapKeepsWaiting(w, gap[..n], fp, since);
      ApplyKeepsInv(Run(w, gap[..n]), gap[n]);
      StepKeepsWaiting(Run(w, gap[..n]), gap[n], fp, since);
    }
  }

  // ---- The series comes back ----

  /** The batch mentions the alert, and only with its condition holding. */
  ghost predicate Confirms(rule: Rule, results: seq<EvalResult>, fp: Fingerprint) {
    fp in Seen(rule, results) && forall r :: r in results && Fingerprint(rule.id, r.labels) == fp ==> r.firing
  }

  /** While a batch is handled: the alert is firing exactly if it has been mentioned and its span is long enough. */
  lemma {:induction false} HandleAllConfirms(w: World, rule: Rule, results: seq<EvalResult>, now: Time,
                                             fp: Fingerprint, since: Time)
    requires Inv(w) && Waits(w, fp, since) && now > 0 && fp.rule == rule.id
    requires forall r :: r in results && Fingerprint(rule.id, r.labels) == fp ==> r.firing
    ensures
      var w' := HandleAll(w, rule, results, now);
      && SinceWhen(w', fp) == Some(since)
      && (IsFiring(w', fp) <==> fp in Seen(rule, results) && now - since >= rule.forDuration)
  {
    hide Inv, HandleFiring, HandleResolved;
    if results != [] {
      var n := |results| - 1;
      var prev, r := HandleAll(w, rule, results[..n], now), results[n];
      assert results == results[..n] + [r];
      assert Seen(rule, results) == Seen(rule, results[..n]) + {Fingerprint(rule.id, r.labels)};
      HandleAllConfirms(w, rule, results[..n], now, fp, since);
      if Fingerprint(rule.id, r.labels) == fp {
        HandleAllKeepsInv(w, rule, results[..n], now);
        NeverInactive(prev, fp);
        FiringEffect(prev, rule, fp, r, now);
      } else {
        HandleElse(prev, rule, r, now, fp);
      }
    }
  }

  /**
   * After a gap of any length, the next batch in which the condition of the alert holds makes it enter firing exactly
   * if ForDuration has passed since it became active, before the gap: the gap counts as if its condition had held.
   */
  lemma ReturnFiresIff(w: World, gap: seq<Step>, step: Step, fp: Fingerprint, since: Time)
    requires Inv(w) && Waits(w, fp, since)
    requires forall i :: 0 <= i < |gap| ==> InOrder(1, gap[i]) && Silent(fp, gap[i])
    requires step.Evaluation? && step.rule.id == fp.rule && InOrder(1, step)
    requires !Gated(Run(w, gap), step.rule, step.gateAt)
    requires step.outcome.Some? && Confirms(step.rule, step.outcome.value, fp)
    ensures !IsFiring(Run(w, gap), fp)
    ensures IsFiring(Run(w, gap + [step]), fp) <==> step.now - since >= step.rule.forDuration
  {
    hide Inv, HandleAll, Seen, Silent;
    GapKeepsWaiting(w, gap, fp, since);
    var w0, rule, results := Run(w, gap), step.rule, step.outcome.value;
    assert (gap + [step])[..|gap|] == gap;
    var s := StateOf(w0, rule.id).(lastEval := Some(step.gateAt));
    var w1 := w0.(rules := w0.rules[rule.id := s]);
    StampKeepsInv(w0, rule.id, s);
    HandleAllKeepsInv(w1, rule, results, step.now);
    HandleAllConfirms(w1, rule, results, step.now, fp, since);
    SweepEffect(HandleAll(w1, rule, results, step.now), rule, Seen(rule, results), step.sweepAt);
  }

  function Batch(rule: Rule, at: Time, results: seq<EvalResult>): Step {
    Evaluation(rule, at, Some(results), at, at)
  }

  const HOLDS := EvalResult(map[], 1.0, true, false)

  /** A firing result for a new alert with a positive ForDuration leaves it waiting. */
  lemma FirstWaits(rule: Rule, at: Time)
    requires at > 0 && rule.forDuration > 0
    ensures var w := Apply(Initial(true), Batch(rule, at, [HOLDS]));
            Inv(w) && Waits(w, Fingerprint(rule.id, map[]), at) && StateOf(w, rule.id).lastEval == Some(at)
  {
    hide HandleAll, Seen;
    EveryRunKeepsInv(true, []);
    ApplyKeepsInv(Initial(true), Batch(rule, at, [HOLDS]));
    var w1 := Initial(true).(rules := map[rule.id := EMPTY_RULE.(lastEval := Some(at))]);
    HandleOne(w1, rule, HOLDS, at);
  }

  /** After an empty batch the rule was last evaluated then, or before if the batch came too early. */
  lemma EmptyBatchStamps(w: World, rule: Rule, at: Time)
    ensures StateOf(Apply(w, Batch(rule, at, [])), rule.id).lastEval.Some?
    ensures var s := StateOf(Apply(w, Batch(rule, at, [])), rule.id);
            s.lastEval == Some(at) || (Gated(w, rule, at) && s == StateOf(w, rule.id))
  {
  }

  /**
   * A run: ForDuration is 10. The condition holds at time 1, the series is missing at times 2 and 50, and its condition
   * holds again at time 100. Two observations 99 apart, with nothing seen in between, make the alert fire.
   */
  lemma VanishedSeriesFires()
    ensures
      var rule := Rule("r", 10, 0, 1);
      var steps := [Batch(rule, 1, [HOLDS]), Batch(rule, 2, []), Batch(rule, 50, []), Batch(rule, 100, [HOLDS])];
      && Timely(steps)
      && !IsFiring(Run(Initial(true), steps[..3]), Fingerprint("r", map[]))
      && IsFiring(Run(Initial(true), steps), Fingerprint("r", map[]))
  {
    hide Inv, Apply, Waits;
    var rule, fp := Rule("r", 10, 0, 1), Fingerprint("r", map[]);
    var gap, last := [Batch(rule, 2, []), Batch(rule, 50, [])], Batch(rule, 100, [HOLDS]);
    var steps := [Batch(rule, 1, [HOLDS])] + gap + [last];
    assert steps == [Batch(rule, 1, [HOLDS]), Batch(rule, 2, []), Batch(rule, 50, []), Batch(rule, 100, [HOLDS])];
    FirstWaits(rule, 1);
    var w := Apply(Initial(true), steps[0]);
    var w1, w2 := Apply(w, gap[0]), Apply(Apply(w, gap[0]), gap[1]);
    assert gap[..1][..0] == [] && gap[..2] == gap;
    assert Run(w, gap[..1][..0]) == w && Run(w, gap[..1]) == w1;
    assert Run(w, gap) == w2;
    EmptyBatchStamps(w, rule, 2);
    EmptyBatchStamps(w1, rule, 50);
    assert HOLDS in [HOLDS];
    assert fp in Seen(rule, [HOLDS]);
    ReturnFiresIff(w, gap, last, fp, 1);
    RunAfter(Initial(true), steps[..1], gap);
    RunAfter(Initial(true), steps[..1], gap + [last]);
    assert steps[..1] + gap == steps[..3] && steps[..1] + (gap + [last]) == steps;
    assert steps[..1][..0] == [] && Run(Initial(true), []) == Initial(true) && Run(Initial(true), steps[..1]) == w;
  }

  lemma {:induction false} RunAfter(w: World, first: seq<Step>, later: seq<Step>)
    ensures Run(w, first + later) == Run(Run(w, first), later)
  {
    hide Apply;
    if later == [] {
      assert first + later == first;
    } else {
      var n := |later| - 1;
      RunAfter(w, first, later[..n]);
      assert (first + later)[..|first + later| - 1] == first + later[..n];
    }
  }
}
