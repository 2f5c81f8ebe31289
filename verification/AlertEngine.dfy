/** The evaluator object itself: its maps are updated in place, entry by entry. */
module AlertEngine {
  import opened AlertModel
  import opened AlertRuns
  import opened Common

  function Lower(c: char): char {
    if 'A' <= c <= 'Z' then c - 'A' + 'a' else c
  }

  function ToLower(s: string): string {
    seq(|s|, i requires 0 <= i < |s| => Lower(s[i]))
  }

  predicate Contains(s: string, part: string) {
    exists i :: 0 <= i <= |s| && part <= s[i..]
  }

  /** A composite rule asks for all of its sub-rules when its expression says so, otherwise for any. */
  predicate AsksForAll(expression: string) {
    Contains(ToLower(expression), " and ")
  }

  /** The word and stands here, between blanks and in any case of letters. */
  predicate AndAt(s: string, i: nat) {
    && i + 5 <= |s|
    && s[i] == ' ' && (s[i + 1] == 'a' || s[i + 1] == 'A') && (s[i + 2] == 'n' || s[i + 2] == 'N')
    && (s[i + 3] == 'd' || s[i + 3] == 'D') && s[i + 4] == ' '
  }

  lemma AndIsFound(s: string, i: nat)
    requires i <= |s|
    ensures " and " <= ToLower(s)[i..] <==> AndAt(s, i)
  {
    var low, word := ToLower(s)[i..], " and ";
    assert word[0] == ' ' && word[1] == 'a' && word[2] == 'n' && word[3] == 'd' && word[4] == ' ';
    if word <= low {
      assert forall k :: 0 <= k < 5 ==> low[k] == word[k];
      assert low[0] == word[0] && low[1] == word[1] && low[2] == word[2] && low[3] == word[3] && low[4] == word[4];
    }
    if AndAt(s, i) {
      assert low[..5] == word;
    }
  }

  lemma AsksForAllIff(expression: string)
    ensures AsksForAll(expression) <==> exists i: nat :: AndAt(expression, i)
  {
    hide ToLower, AndAt;
    SameLength(expression);
    forall i: nat | i <= |expression| ensures " and " <= ToLower(expression)[i..] <==> AndAt(expression, i) {
      AndIsFound(expression, i);
    }
    if i: nat :| AndAt(expression, i) {
      AndFits(expression, i);
    }
  }

  lemma SameLength(s: string)
    ensures |ToLower(s)| == |s|
  {
  }

  lemma AndFits(s: string, i: nat)
    requires AndAt(s, i)
    ensures i <= |s|
  {
  }

  /** Some alert of the rule is firing. */
  ghost predicate RuleFires(w: World, id: string) {
    exists fp: Fingerprint :: fp.rule == id && IsFiring(w, fp)
  }

  lemma ListedMeansFires(w: World, id: string)
    requires Inv(w)
    ensures RuleFires(w, id) <==> StateOf(w, id).firingAlerts != {}
  {
    hide Sound, IsOpen;
    assert Owned(w, id);
    if StateOf(w, id).firingAlerts != {} {
      var fp :| fp in StateOf(w, id).firingAlerts;
      assert fp.rule == id && IsFiring(w, fp);
    }
  }

  class Evaluator {
    var alerts: map<Fingerprint, Alert>
    var evalState: map<string, RuleState>
    var hasNotifier: bool
    ghost var log: seq<Event>

    ghost function View(): World
      reads this
    {
      World(alerts, evalState, log, hasNotifier)
    }

    ghost predicate Valid()
      reads this
    {
      Inv(View())
    }

    constructor (notify: bool)
      ensures Valid() && View() == Initial(notify)
    {
      alerts, evalState, hasNotifier, log := map[], map[], notify, [];
    }

    method HandleFiringResult(rule: Rule, fp: Fingerprint, r: EvalResult, now: Time)
      requires rule.id in evalState
      modifies this
      ensures View() == HandleFiring(old(View()), rule, fp, r, now)
    {
      var state := evalState[rule.id];
      if fp !in state.activeSince {
        state := state.(activeSince := state.activeSince[fp := now]);
      }
      var activeSince := state.activeSince[fp];
      assert state.activeSince == old(StateOf(View(), rule.id).activeSince)[fp := activeSince];
      log := log + [Observed(fp, true, now)];

      var alert;
      if fp in alerts {
        alert := alerts[fp];
      } else {
        alert := Alert(Pending, r.value, activeSince, now, None, None, None);
      }
      alert := alert.(value := r.value, lastEvalAt := now);

      var shouldFire := now - activeSince >= rule.forDuration;
      if shouldFire && alert.state != Firing {
        alert := alert.(state := Firing, firedAt := Some(now));
        state := state.(firingAlerts := state.firingAlerts + {fp}, pendingAlerts := state.pendingAlerts - {fp});
        log := log + [Entered(fp, now, rule.forDuration)];
        if !r.silenced {
          if hasNotifier {
            log := log + [Notified(fp, now)];
          }
          alert := alert.(notifiedAt := Some(now));
        }
      } else if !shouldFire && alert.state == Inactive {
        alert := alert.(state := Pending);
        state := state.(pendingAlerts := state.pendingAlerts[fp := activeSince]);
      }
      alerts := alerts[fp := alert];
      evalState := evalState[rule.id := state];
    }

    method HandleResolvedResult(rule: Rule, fp: Fingerprint, now: Time)
      requires rule.id in evalState
      modifies this
      ensures View() == HandleResolved(old(View()), rule, fp, now)
    {
      var state := evalState[rule.id];
      var wasActive := if fp in state.activeSince then state.activeSince[fp] else 0;
      state := state.(activeSince := state.activeSince - {fp}, pendingAlerts := state.pendingAlerts - {fp});
      evalState := evalState[rule.id := state];
      log := log + [Observed(fp, false, now)];
      if wasActive == 0 || fp !in alerts {
        return;
      }
      var alert := alerts[fp];
      var wasFiring := alert.state == Firing;
      if wasFiring && rule.keepFiringFor > 0 {
        if alert.firedAt.Some? && now - alert.firedAt.value < rule.keepFiringFor {
          return;
        }
      }
      if alert.state == Firing || alert.state == Pending {
        alert := alert.(state := Resolved, resolvedAt := Some(now));
      }
      alerts := alerts[fp := alert];
      if wasFiring {
        log := log + [Left(fp, now)];
      }
      evalState := evalState[rule.id := state.(firingAlerts := state.firingAlerts - {fp})];
    }

    /** A batch of results, then the sweep over the rule's firing alerts in whatever order the map yields them. */
    method ProcessResults(rule: Rule, results: seq<EvalResult>, now: Time, sweepAt: Time)
      requires Valid() && rule.id in evalState && now > 0
      modifies this
      ensures Valid()
      ensures View() == AlertModel.ProcessResults(old(View()), rule, results, now, sweepAt)
    {
      hide Inv, HandleFiring, HandleResolved, Sweep;
      var seen: set<Fingerprint> := {};
      assert results[..0] == [];
      for i := 0 to |results|
        invariant View() == HandleAll(old(View()), rule, results[..i], now)
        invariant rule.id in evalState && seen == Seen(rule, results[..i])
      {
        var r := results[i];
        var fp := Fingerprint(rule.id, r.labels);
        seen := seen + {fp};
        SeenGrows(rule, results[..i], r);
        assert results[..i + 1] == results[..i] + [r];
        assert results[..i + 1][..i] == results[..i];
        if r.firing {
          HandleFiringResult(rule, fp, r, now);
        } else {
          HandleResolvedResult(rule, fp, now);
        }
        HandlingKeepsRule(HandleAll(old(View()), rule, results[..i], now), rule, r, now);
      }
      assert results[..|results|] == results;
      HandleAllKeepsInv(old(View()), rule, results, now);
      SweepKeepsInv(View(), rule, seen, sweepAt);
      SweepUnseen(rule, seen, sweepAt);
    }

    method SweepUnseen(rule: Rule, seen: set<Fingerprint>, sweepAt: Time)
      requires rule.id in evalState
      modifies this
      ensures View() == Sweep(old(View()), rule, seen, sweepAt)
    {
      hide Resolve;
      ghost var firing := evalState[rule.id].firingAlerts;
      var todo := evalState[rule.id].firingAlerts;
      ResolveNone(View(), rule.id, sweepAt);
      while todo != {}
        invariant todo <= firing && rule.id in evalState
        invariant View() == Resolve(old(View()), rule.id, firing - seen - todo, sweepAt)
        decreases todo
      {
        var fp :| fp in todo;
        ghost var done := firing - seen - todo;
        todo := todo - {fp};
        if fp !in seen {
          assert firing - seen - todo == done + {fp};
          ResolveMore(old(View()), rule.id, done, fp, sweepAt);
          ResolveOne(rule, fp, sweepAt);
        } else {
          assert firing - seen - todo == done;
        }
      }
      assert firing - seen - todo == firing - seen;
      log := log + [Swept(firing - seen, sweepAt)];
      ResolveLogs(old(View()), rule.id, firing - seen, sweepAt);
    }

    method ResolveOne(rule: Rule, fp: Fingerprint, at: Time)
      requires rule.id in evalState
      modifies this
      ensures rule.id in evalState && View() == Resolve(old(View()), rule.id, {fp}, at)
    {
      var state := evalState[rule.id];
      evalState := evalState[rule.id := state.(firingAlerts := state.firingAlerts - {fp},
                                               activeSince := state.activeSince - {fp},
                                               pendingAlerts := state.pendingAlerts - {fp})];
      if fp in alerts {
        var alert := alerts[fp];
        if alert.state == Firing || alert.state == Pending {
          alerts := alerts[fp := alert.(state := Resolved, resolvedAt := Some(at))];
        }
      }
      assert alerts == Resolve(old(View()), rule.id, {fp}, at).alerts;
    }

    /** One evaluation of a rule: the interval gate, then the results if fetching them succeeded. */
    method EvaluateRule(rule: Rule, gateAt: Time, outcome: Option<seq<EvalResult>>, now: Time, sweepAt: Time)
      requires Valid() && 0 < gateAt <= now <= sweepAt
      modifies this
      ensures Valid()
      ensures View() == Evaluate(old(View()), rule, gateAt, outcome, now, sweepAt)
    {
      hide Inv;
      var state := if rule.id in evalState then evalState[rule.id] else EMPTY_RULE;
      var interval := if rule.evalInterval == 0 then DEFAULT_INTERVAL else rule.evalInterval;
      if state.lastEval.Some? && gateAt - state.lastEval.value < interval {
        return;
      }
      StampKeepsInv(View(), rule.id, state.(lastEval := Some(gateAt)));
      evalState := evalState[rule.id := state.(lastEval := Some(gateAt))];
      if outcome.Some? {
        ProcessResults(rule, outcome.value, now, sweepAt);
      }
    }

    method CleanupResolvedAlerts(now: Time)
      requires Valid()
      modifies this`alerts
      ensures Valid() && View() == Cleanup(old(View()), now)
    {
      hide Inv;
      CleanupKeepsInv(View(), now);
      ghost var start := alerts;
      var cutoff := now - RETENTION;
      var todo := alerts.Keys;
      while todo != {}
        invariant todo <= alerts.Keys
        invariant alerts == map fp | fp in start && (fp in todo || !Expired(start[fp], now)) :: start[fp]
        decreases todo
      {
        var fp :| fp in todo;
        todo := todo - {fp};
        var alert := alerts[fp];
        if alert.state == Resolved && alert.resolvedAt.Some? && alert.resolvedAt.value < cutoff {
          alerts := alerts - {fp};
        }
      }
      assert alerts == Cleanup(old(View()), now).alerts;
    }

    /** A composite rule fires according to which of its sub-rules really have firing alerts; None is the error. */
    method EvaluateComposite(subRules: seq<string>, expression: string) returns (firing: Option<bool>)
      requires Valid()
      ensures firing.None? <==> subRules == []
      ensures firing.Some? && AsksForAll(expression) ==>
                (firing.value <==> forall id :: id in subRules ==> RuleFires(View(), id))
      ensures firing.Some? && !AsksForAll(expression) ==>
                (firing.value <==> exists id :: id in subRules && RuleFires(View(), id))
    {
      hide Inv, RuleFires;
      if subRules == [] {
        return None;
      }
      var status: map<string, bool> := map[];
      for i := 0 to |subRules|
        invariant forall id :: id in status <==> id in subRules[..i]
        invariant forall id :: id in status ==> (status[id] <==> RuleFires(View(), id))
      {
        var id := subRules[i];
        assert subRules[..i + 1] == subRules[..i] + [id];
        ListedMeansFires(View(), id);
        status := status[id := id in evalState && evalState[id].firingAlerts != {}];
      }
      assert subRules[..|subRules|] == subRules;
      var all := AsksForAll(expression);
      var result := all;
      var todo := status.Keys;
      while todo != {}
        invariant todo <= status.Keys
        invariant result == if all then forall id :: id in status && id !in todo ==> status[id]
                            else exists id :: id in status && id !in todo && status[id]
        decreases todo
      {
        var id :| id in todo;
        todo := todo - {id};
        if status[id] != all {
          result := !all;
          break;
        }
      }
      return Some(result);
    }
  }

  lemma ResolveNone(w: World, id: string, at: Time)
    requires id in w.rules
    ensures forall gone :: gone == {} ==> Resolve(w, id, gone, at) == w
  {
    var w' := Resolve(w, id, {}, at);
    assert w'.alerts == w.alerts;
    assert StateOf(w', id) == StateOf(w, id) && w'.rules == w.rules;
  }

  lemma ResolveMore(w: World, id: string, gone: set<Fingerprint>, fp: Fingerprint, at: Time)
    ensures Resolve(Resolve(w, id, gone, at), id, {fp}, at) == Resolve(w, id, gone + {fp}, at)
  {
    var s := StateOf(w, id);
    assert s.activeSince - gone - {fp} == s.activeSince - (gone + {fp});
    assert s.pendingAlerts - gone - {fp} == s.pendingAlerts - (gone + {fp});
    assert s.firingAlerts - gone - {fp} == s.firingAlerts - (gone + {fp});
    assert Resolve(Resolve(w, id, gone, at), id, {fp}, at).alerts == Resolve(w, id, gone + {fp}, at).alerts;
    assert Resolve(Resolve(w, id, gone, at), id, {fp}, at).rules == Resolve(w, id, gone + {fp}, at).rules;
  }

  lemma ResolveLogs(w: World, id: string, gone: set<Fingerprint>, at: Time)
    ensures Resolve(w, id, gone, at).log == w.log
  {
  }

  lemma SeenGrows(rule: Rule, results: seq<EvalResult>, r: EvalResult)
    ensures Seen(rule, results + [r]) == Seen(rule, results) + {Fingerprint(rule.id, r.labels)}
  {
  }

  lemma HandlingKeepsRule(w: World, rule: Rule, r: EvalResult, now: Time)
    ensures rule.id in Handle(w, rule, r, now).rules
  {
  }
}
