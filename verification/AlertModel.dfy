/**
 * The alert state machine of internal/alerting/evaluator.go: what every evaluation step does to the
 * in-memory alerts and to the per-rule evaluation state, with the observable events it produces.
 */
module AlertModel {
  import opened Common

  /** Clock readings; 0 is the zero time, which a clock never returns. */
  type Time = int

  /** Identity of an alert instance. Holding both parts makes the fingerprint free of collisions. */
  datatype Fingerprint = Fingerprint(rule: string, labels: map<string, string>)

  datatype AlertState = Inactive | Pending | Firing | Resolved

  datatype Alert = Alert(state: AlertState, value: real, startsAt: Time, lastEvalAt: Time,
                         firedAt: Option<Time>, resolvedAt: Option<Time>, notifiedAt: Option<Time>)

  datatype Rule = Rule(id: string, forDuration: int, keepFiringFor: int, evalInterval: int)

  /** One evaluated series. silenced is the answer the silence store gives if it is asked. */
  datatype EvalResult = EvalResult(labels: map<string, string>, value: real, firing: bool, silenced: bool)

  datatype RuleState = RuleState(lastEval: Option<Time>, activeSince: map<Fingerprint, Time>,
                                 firingAlerts: set<Fingerprint>, pendingAlerts: map<Fingerprint, Time>)

  datatype Event =
    | Observed(fp: Fingerprint, firing: bool, at: Time)
    | Entered(fp: Fingerprint, at: Time, forDuration: int)
    | Notified(fp: Fingerprint, at: Time)
    | Left(fp: Fingerprint, at: Time)
    | Swept(fps: set<Fingerprint>, at: Time)

  /** rules holds the evaluation state of every rule evaluated so far; log is the history of events. */
  datatype World = World(alerts: map<Fingerprint, Alert>, rules: map<string, RuleState>, log: seq<Event>,
                         hasNotifier: bool)

  const EMPTY_RULE := RuleState(None, map[], {}, map[])

  function StateOf(w: World, rule: string): RuleState {
    if rule in w.rules then w.rules[rule] else EMPTY_RULE
  }

  predicate IsFiring(w: World, fp: Fingerprint) {
    fp in w.alerts && w.alerts[fp].state == Firing
  }

  // ---- The steps ----

  /** A result whose condition holds. */
  function HandleFiring(w: World, rule: Rule, fp: Fingerprint, r: EvalResult, now: Time): World {
    var s := StateOf(w, rule.id);
    var since := if fp in s.activeSince then s.activeSince[fp] else now;
    var s1 := s.(activeSince := s.activeSince[fp := since]);
    var seen := w.log + [Observed(fp, true, now)];
    var alert := (if fp in w.alerts then w.alerts[fp] else Alert(Pending, r.value, since, now, None, None, None))
                 .(value := r.value, lastEvalAt := now);
    var shouldFire := now - since >= rule.forDuration;
    if shouldFire && alert.state != Firing then
      var fired := alert.(state := Firing, firedAt := Some(now));
      var s2 := s1.(firingAlerts := s1.firingAlerts + {fp}, pendingAlerts := s1.pendingAlerts - {fp});
      var entered := seen + [Entered(fp, now, rule.forDuration)];
      if r.silenced then
        w.(alerts := w.alerts[fp := fired], rules := w.rules[rule.id := s2], log := entered)
      else
        w.(alerts := w.alerts[fp := fired.(notifiedAt := Some(now))], rules := w.rules[rule.id := s2],
           log := if w.hasNotifier then entered + [Notified(fp, now)] else entered)
    else if !shouldFire && alert.state == Inactive then
      w.(alerts := w.alerts[fp := alert.(state := Pending)],
         rules := w.rules[rule.id := s1.(pendingAlerts := s1.pendingAlerts[fp := since])], log := seen)
    else
      w.(alerts := w.alerts[fp := alert], rules := w.rules[rule.id := s1], log := seen)
  }

  /** A result whose condition does not hold. */
  function HandleResolved(w: World, rule: Rule, fp: Fingerprint, now: Time): World {
    var s := StateOf(w, rule.id);
    var wasActive := if fp in s.activeSince then s.activeSince[fp] else 0;
    var s1 := s.(activeSince := s.activeSince - {fp}, pendingAlerts := s.pendingAlerts - {fp});
    var w1 := w.(rules := w.rules[rule.id := s1], log := w.log + [Observed(fp, false, now)]);
    if wasActive == 0 || fp !in w.alerts then
      w1
    else
      var alert := w.alerts[fp];
      if alert.state == Firing && Held(rule, alert, now) then
        w1
      else
        var alert' := if alert.state == Firing || alert.state == Pending
                      then alert.(state := Resolved, resolvedAt := Some(now)) else alert;
        w1.(alerts := w.alerts[fp := alert'],
            rules := w.rules[rule.id := s1.(firingAlerts := s1.firingAlerts - {fp})],
            log := if alert.state == Firing then w1.log + [Left(fp, now)] else w1.log)
  }

  /** KeepFiringFor keeps a firing alert from resolving for a while after it fired. */
  predicate Held(rule: Rule, alert: Alert, now: Time) {
    rule.keepFiringFor > 0 && alert.firedAt.Some? && now - alert.firedAt.value < rule.keepFiringFor
  }

  function Handle(w: World, rule: Rule, r: EvalResult, now: Time): World {
    var fp := Fingerprint(rule.id, r.labels);
    if r.firing then HandleFiring(w, rule, fp, r, now) else HandleResolved(w, rule, fp, now)
  }

  function HandleAll(w: World, rule: Rule, results: seq<EvalResult>, now: Time): World {
    if results == [] then w
    else Handle(HandleAll(w, rule, results[..|results| - 1], now), rule, results[|results| - 1], now)
  }

  function Seen(rule: Rule, results: seq<EvalResult>): set<Fingerprint> {
    set r | r in results :: Fingerprint(rule.id, r.labels)
  }

  function Settled(alert: Alert, at: Time): Alert {
    if alert.state == Firing || alert.state == Pending then alert.(state := Resolved, resolvedAt := Some(at)) else alert
  }

  /** The alerts in gone are no longer firing, and are resolved. */
  function Resolve(w: World, id: string, gone: set<Fingerprint>, at: Time): World {
    var s := StateOf(w, id);
    w.(alerts := map fp | fp in w.alerts :: if fp in gone then Settled(w.alerts[fp], at) else w.alerts[fp],
       rules := w.rules[id := s.(firingAlerts := s.firingAlerts - gone, activeSince := s.activeSince - gone,
                                 pendingAlerts := s.pendingAlerts - gone)])
  }

  /** Firing alerts of the rule that the batch did not mention are resolved. */
  function Sweep(w: World, rule: Rule, seen: set<Fingerprint>, at: Time): World {
    var gone := StateOf(w, rule.id).firingAlerts - seen;
    Resolve(w, rule.id, gone, at).(log := w.log + [Swept(gone, at)])
  }

  function ProcessResults(w: World, rule: Rule, results: seq<EvalResult>, now: Time, sweepAt: Time): World {
    Sweep(HandleAll(w, rule, results, now), rule, Seen(rule, results), sweepAt)
  }

  const DEFAULT_INTERVAL := 60_000_000_000

  function Interval(rule: Rule): int {
    if rule.evalInterval == 0 then DEFAULT_INTERVAL else rule.evalInterval
  }

  /** Has the rule been evaluated too recently to be evaluated again? */
  predicate Gated(w: World, rule: Rule, at: Time) {
    StateOf(w, rule.id).lastEval.Some? && at - StateOf(w, rule.id).lastEval.value < Interval(rule)
  }

  /** One evaluation of a rule; outcome is None when fetching the results failed. */
  function Evaluate(w: World, rule: Rule, gateAt: Time, outcome: Option<seq<EvalResult>>, now: Time, sweepAt: Time)
    : World
  {
    var s := StateOf(w, rule.id);
    if Gated(w, rule, gateAt) then w
    else
      var w1 := w.(rules := w.rules[rule.id := s.(lastEval := Some(gateAt))]);
      if outcome.None? then w1 else ProcessResults(w1, rule, outcome.value, now, sweepAt)
  }

  const RETENTION := 3_600_000_000_000

  predicate Expired(alert: Alert, now: Time) {
    alert.state == Resolved && alert.resolvedAt.Some? && alert.resolvedAt.value < now - RETENTION
  }

  /** Resolved alerts are forgotten after an hour. */
  function Cleanup(w: World, now: Time): World {
    w.(alerts := map fp | fp in w.alerts && !Expired(w.alerts[fp], now) :: w.alerts[fp])
  }

  // ---- Runs ----

  datatype Step =
    | Evaluation(rule: Rule, gateAt: Time, outcome: Option<seq<EvalResult>>, now: Time, sweepAt: Time)
    | Forget(now: Time)

  function Apply(w: World, step: Step): World {
    match step
    case Evaluation(rule, gateAt, outcome, now, sweepAt) => Evaluate(w, rule, gateAt, outcome, now, sweepAt)
    case Forget(now) => Cleanup(w, now)
  }

  function Run(w: World, steps: seq<Step>): World {
    if steps == [] then w else Apply(Run(w, steps[..|steps| - 1]), steps[|steps| - 1])
  }

  predicate InOrder(from: Time, step: Step) {
    match step
    case Evaluation(_, gateAt, _, now, sweepAt) => from <= gateAt <= now <= sweepAt
    case Forget(now) => from <= now
  }

  function EndOf(step: Step): Time {
    if step.Evaluation? then step.sweepAt else step.now
  }

  /** The clock before step n; it starts after the zero time. */
  function ClockAt(steps: seq<Step>, n: nat): Time
    requires n <= |steps|
  {
    if n == 0 then 1 else EndOf(steps[n - 1])
  }

  /** Clock readings never go back. */
  predicate Timely(steps: seq<Step>) {
    forall i :: 0 <= i < |steps| ==> InOrder(ClockAt(steps, i), steps[i])
  }

  function Initial(hasNotifier: bool): World {
    World(map[], map[], [], hasNotifier)
  }
}
