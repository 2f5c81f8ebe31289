/** The ordered shaping rules and their counters: internal/datashaping/rules.go. */
module DataShaping {
  import opened Common

  /** Actions are strings in the source; any other string is Custom. */
  datatype Action = Drop | Sample | Aggregate | Keep | Transform | Custom(name: string)

  datatype Rule = Rule(id: string, name: string, enabled: bool, priority: int, action: Action, sampleRate: real)

  datatype Decision = Decision(action: Action, rule: Option<string>)

  ghost predicate DistinctIds(rules: seq<Rule>) {
    forall i, j :: 0 <= i < j < |rules| ==> rules[i].id != rules[j].id
  }

  ghost predicate Sorted(rules: seq<Rule>) {
    forall i, j :: 0 <= i < j < |rules| ==> rules[i].priority <= rules[j].priority
  }

  /** An enabled rule that matches, of least priority value among all such rules. */
  ghost predicate IsChosen(rules: seq<Rule>, matches: Rule -> bool, r: Rule) {
    && r in rules && r.enabled && matches(r)
    && forall s :: s in rules && s.enabled && matches(s) ==> r.priority <= s.priority
  }

  ghost predicate NoneApplies(rules: seq<Rule>, matches: Rule -> bool) {
    forall s :: s in rules ==> !(s.enabled && matches(s))
  }

  // ---- Sampling ----

  /** The whole percentage. */
  function Threshold(rate: real): (t: int)
    ensures t as real <= 100.0 * rate < t as real + 1.0
  {
    (rate * 100.0).Floor
  }

  /** The counter after a sampling call that uses it. */
  function Tick(counter: nat): nat {
    (counter + 1) % TWO64
  }

  predicate Keeps(counter: nat, rate: real) {
    Tick(counter) % 100 < Threshold(rate)
  }

  /** How many of the next n calls at this rate keep their data. */
  function KeptOf(counter: nat, n: nat, rate: real): nat
    decreases n
  {
    if n == 0 then 0
    else (if Keeps(counter, rate) then 1 else 0) + KeptOf(Tick(counter), n - 1, rate)
  }

  lemma ThresholdInRange(rate: real)
    requires 0.0 < rate < 1.0
    ensures 0 <= Threshold(rate) < 100
  {
  }

  /** How many of the n counts from here on are below t modulo a hundred. */
  function Hits(from: nat, n: nat, t: int): nat
    decreases n
  {
    if n == 0 then 0 else (if from % 100 < t then 1 else 0) + Hits(from + 1, n - 1, t)
  }

  lemma {:induction false} KeptIsHits(counter: nat, n: nat, rate: real)
    requires counter + n < TWO64
    ensures KeptOf(counter, n, rate) == Hits(counter + 1, n, Threshold(rate))
    decreases n
  {
    if n > 0 {
      assert Tick(counter) == counter + 1;
      KeptIsHits(counter + 1, n - 1, rate);
    }
  }

  lemma {:induction false} HitsAppend(from: nat, n: nat, t: int)
    ensures Hits(from, n + 1, t) == Hits(from, n, t) + if (from + n) % 100 < t then 1 else 0
    decreases n
  {
    if n > 0 {
      HitsAppend(from + 1, n - 1, t);
    }
  }

  lemma SameRemainder(a: nat, n: nat)
    requires n % 100 == 0
    ensures (a + n) % 100 == a % 100
  {
  }

  /** A window of a hundred consecutive counts may start anywhere. */
  lemma {:induction false} WindowSlides(from: nat, n: nat, t: int)
    requires n % 100 == 0
    ensures Hits(from, n, t) == Hits(0, n, t)
    decreases from
  {
    if from > 0 {
      WindowSlides(from - 1, n, t);
      HitsAppend(from - 1, n, t);
      SameRemainder(from - 1, n);
      assert Hits(from - 1, n + 1, t) == (if (from - 1) % 100 < t then 1 else 0) + Hits(from, n, t);
    }
  }

  lemma {:induction false} HitsFromZero(n: nat, t: int)
    requires n <= 100 && 0 <= t
    ensures Hits(0, n, t) == if n < t then n else t
  {
    if n > 0 {
      HitsFromZero(n - 1, t);
      HitsAppend(0, n - 1, t);
    }
  }

  /** Any hundred consecutive calls at one rate keep exactly the whole percentage, unless the counter wraps in them. */
  lemma HundredCallsKeepThePercentage(counter: nat, rate: real)
    requires 0.0 < rate < 1.0 && (counter + 100 < TWO64 || counter == TWO64 - 1)
    ensures KeptOf(counter, 100, rate) as real <= 100.0 * rate < KeptOf(counter, 100, rate) as real + 1.0
    ensures KeptOf(counter, 100, rate) == Threshold(rate)
  {
    hide KeptOf, Hits, Threshold;
    ThresholdInRange(rate);
    if counter == TWO64 - 1 {
      AfterTheWrap(100, rate);
    } else {
      KeptIsHits(counter, 100, rate);
      WindowSlides(counter + 1, 100, Threshold(rate));
    }
    HitsFromZero(100, Threshold(rate));
  }

  lemma {:induction false} KeptSplits(counter: nat, n: nat, m: nat, rate: real)
    requires counter + n < TWO64
    ensures KeptOf(counter, n + m, rate) == KeptOf(counter, n, rate) + KeptOf(counter + n, m, rate)
    decreases n
  {
    if n > 0 {
      assert Tick(counter) == counter + 1;
      KeptSplits(counter + 1, n - 1, m, rate);
    }
  }

  lemma {:induction false} HitsSplit(from: nat, n: nat, m: nat, t: int)
    ensures Hits(from, n + m, t) == Hits(from, n, t) + Hits(from + n, m, t)
    decreases n
  {
    if n > 0 {
      HitsSplit(from + 1, n - 1, m, t);
    }
  }

  lemma {:induction false} HitsShift(from: nat, n: nat, t: int, q: nat)
    ensures Hits(from + 100 * q, n, t) == Hits(from, n, t)
    decreases n
  {
    if n > 0 {
      SameRemainder(from, 100 * q);
      HitsShift(from + 1, n - 1, t, q);
    }
  }

  function Between(x: int, n: nat): nat {
    if x < 0 then 0 else if x > n then n else x
  }

  /** Counts that stay within one hundred. */
  lemma {:induction false} HitsRun(from: nat, n: nat, t: int)
    requires from + n <= 100
    ensures Hits(from, n, t) == Between(t - from, n)
    decreases n
  {
    if n > 0 {
      HitsRun(from + 1, n - 1, t);
    }
  }

  /**
   * The counter wraps after the first m of the hundred calls. Because 2^64 leaves 16 modulo 100, those calls then see
   * the remainders just below 16 instead of the highest ones.
   */
  lemma WrappedKept(m: nat, rate: real)
    requires 1 <= m <= 99 && 0.0 < rate < 1.0
    ensures KeptOf(TWO64 - 1 - m, 100, rate) == Hits(116 - m, m, Threshold(rate)) + Between(Threshold(rate), 100 - m)
  {
    hide KeptOf, Hits, Threshold;
    KeptSplits(TWO64 - 1 - m, m, 100 - m, rate);
    BeforeTheWrap(m, rate);
    AfterTheWrap(100 - m, rate);
    HitsRun(0, 100 - m, Threshold(rate));
  }

  lemma BeforeTheWrap(m: nat, rate: real)
    requires 1 <= m <= 99
    ensures KeptOf(TWO64 - 1 - m, m, rate) == Hits(116 - m, m, Threshold(rate))
  {
    hide KeptOf, Hits, Threshold;
    KeptIsHits(TWO64 - 1 - m, m, rate);
    var q := 0x28f5c28f5c28f5b;
    assert 116 + 100 * q == TWO64;
    HitsShift(116 - m, m, Threshold(rate), q);
  }

  lemma AfterTheWrap(n: nat, rate: real)
    requires 1 <= n <= 100
    ensures KeptOf(TWO64 - 1, n, rate) == Hits(0, n, Threshold(rate))
  {
    hide Threshold;
    assert Tick(TWO64 - 1) == 0;
    KeptIsHits(0, n - 1, rate);
  }

  /** Exactly when a hundred consecutive calls across a wrap still keep the whole percentage. */
  lemma AcrossTheWrapIff(m: nat, rate: real)
    requires 1 <= m <= 99 && 0.0 < rate < 1.0
    ensures KeptOf(TWO64 - 1 - m, 100, rate) == Threshold(rate) <==>
              Threshold(rate) == 0 || Threshold(rate) + m <= 16 || Threshold(rate) + m >= 116
  {
    hide KeptOf, Threshold, Hits;
    var t := Threshold(rate);
    ThresholdInRange(rate);
    WrappedKept(m, rate);
    if m <= 16 {
      HitsShift(16 - m, m, t, 1);
      HitsRun(16 - m, m, t);
    } else {
      HitsSplit(116 - m, m - 16, 16, t);
      HitsRun(116 - m, m - 16, t);
      HitsShift(0, 16, t, 1);
      HitsRun(0, 16, t);
    }
  }

  /** For instance, a tenth keeps ten of a hundred. */
  lemma TenthOfHundred(counter: nat)
    requires counter + 100 < TWO64
    ensures KeptOf(counter, 100, 0.1) == 10
  {
    HundredCallsKeepThePercentage(counter, 0.1);
  }

  /** At a rate of one half, a hundred calls with the wrap in the middle keep 66. */
  lemma HalfAcrossTheWrap()
    ensures KeptOf(TWO64 - 51, 100, 0.5) == 66 && Threshold(0.5) == 50
  {
    hide KeptOf, Hits;
    WrappedKept(50, 0.5);
    HitsSplit(66, 34, 16, 50);
    HitsRun(66, 34, 50);
    HitsShift(0, 16, 50, 1);
    HitsRun(0, 16, 50);
  }

  // ---- The engine ----

  class Engine {
    var rules: seq<Rule>
    var totalProcessed: nat
    var totalDropped: nat
    var totalSampled: nat
    var totalTransformed: nat
    var totalKept: nat
    var bytesSaved: int
    var sampleCounter: nat
    /** Every decision since the last reset. */
    ghost var decisions: seq<Action>

    ghost predicate Valid()
      reads this
    {
      && DistinctIds(rules) && Sorted(rules)
      && sampleCounter < TWO64
      && totalProcessed == |decisions|
      && totalDropped == Count(decisions, Drop)
      && totalSampled == Count(decisions, Sample)
      && totalTransformed == Count(decisions, Transform)
      && totalKept == Count(decisions, Keep)
    }

    constructor ()
      ensures Valid() && rules == [] && decisions == []
    {
      rules, totalProcessed, totalDropped, totalSampled, totalTransformed, totalKept := [], 0, 0, 0, 0, 0;
      bytesSaved, sampleCounter, decisions := 0, 0, [];
    }

    /** Whatever was decided, the counters account for it: what they leave out is aggregation and custom actions. */
    lemma CountersBalance()
      requires Valid()
      ensures totalProcessed == totalDropped + totalSampled + totalTransformed + totalKept + Uncounted(decisions)
    {
      DecisionsPartition(decisions);
    }

    /** Replaces the rule with the same id. A rule whose patterns do not compile is refused. */
    method AddRule(rule: Rule, compiles: bool) returns (ok: bool)
      requires Valid()
      modifies this`rules
      ensures Valid() && ok == compiles
      ensures !ok ==> rules == old(rules)
      ensures ok ==> multiset(rules) == multiset(Without(old(rules), rule.id)) + multiset{rule}
    {
      if !compiles {
        return false;
      }
      var removed := RemoveRule(rule.id);
      rules := rules + [rule];
      SortRules();
      return true;
    }

    method RemoveRule(id: string) returns (removed: bool)
      requires DistinctIds(rules) && Sorted(rules)
      modifies this`rules
      ensures DistinctIds(rules) && Sorted(rules)
      ensures rules == Without(old(rules), id) && (removed <==> exists r :: r in old(rules) && r.id == id)
      ensures forall i :: 0 <= i < |rules| ==> rules[i].id != id
    {
      hide Without;
      for i := 0 to |rules|
        invariant rules == old(rules) && forall j :: 0 <= j < i ==> rules[j].id != id
      {
        if rules[i].id == id {
          assert rules[i] in rules;
          WithoutAt(rules, id, i);
          rules := rules[..i] + rules[i + 1..];
          return true;
        }
      }
      WithoutNothing(rules, id);
      return false;
    }

    /** The exchange sort. */
    method SortRules()
      requires DistinctIds(rules)
      modifies this`rules
      ensures Sorted(rules) && DistinctIds(rules) && multiset(rules) == multiset(old(rules))
    {
      var i := 0;
      while i < |rules| - 1
        invariant 0 <= i && |rules| == |old(rules)|
        invariant DistinctIds(rules) && multiset(rules) == multiset(old(rules))
        invariant LeastUpTo(rules, i)
      {
        var j := i + 1;
        while j < |rules|
          invariant i < j <= |rules| == |old(rules)|
          invariant DistinctIds(rules) && multiset(rules) == multiset(old(rules))
          invariant LeastUpTo(rules, i)
          invariant forall q :: i < q < j ==> rules[i].priority <= rules[q].priority
        {
          if rules[j].priority < rules[i].priority {
            ExchangeKeeps(rules, i, j);
            rules := rules[i := rules[j]][j := rules[i]];
          }
          j := j + 1;
        }
        i := i + 1;
      }
    }

    /** Whether data is kept at this rate. Rates outside (0, 1) do not use the counter. */
    method ShouldSample(rate: real) returns (keep: bool)
      requires sampleCounter < TWO64
      modifies this`sampleCounter
      ensures sampleCounter < TWO64
      ensures rate >= 1.0 ==> keep && sampleCounter == old(sampleCounter)
      ensures rate <= 0.0 ==> !keep && sampleCounter == old(sampleCounter)
      ensures 0.0 < rate < 1.0 ==> sampleCounter == Tick(old(sampleCounter)) && keep == Keeps(old(sampleCounter), rate)
      ensures 0.0 < rate < 1.0 ==>
                && sampleCounter == (if old(sampleCounter) + 1 == TWO64 then 0 else old(sampleCounter) + 1)
                && (keep <==> (sampleCounter % 100 + 1) as real <= 100.0 * rate)
    {
      if rate >= 1.0 {
        return true;
      }
      if rate <= 0.0 {
        return false;
      }
      sampleCounter := (sampleCounter + 1) % TWO64;
      var threshold := (rate * 100.0).Floor;
      return sampleCounter % 100 < threshold;
    }

    method ApplyRule(rule: Rule) returns (decision: Decision)
      requires sampleCounter < TWO64
      modifies this`sampleCounter
      ensures decision == Ruling(rule, old(sampleCounter))
      ensures sampleCounter == CounterAfter(rule, old(sampleCounter)) < TWO64
    {
      decision := Decision(rule.action, Some(rule.id));
      if rule.action == Sample {
        var keep := ShouldSample(rule.sampleRate);
        if !keep {
          decision := decision.(action := Drop);
        }
      }
    }

    /** The decision for one data point, by the first rule that applies; matches stands for the rules' patterns. */
    method Evaluate(matches: Rule -> bool, sizeBytes: int) returns (decision: Decision)
      requires Valid()
      modifies this
      ensures Valid() && rules == old(rules) && decisions == old(decisions) + [decision.action]
      ensures NoneApplies(rules, matches) ==> decision == Decision(Keep, None) && sampleCounter == old(sampleCounter)
      ensures !NoneApplies(rules, matches) ==>
                exists r :: IsChosen(rules, matches, r) && decision == Ruling(r, old(sampleCounter))
                            && sampleCounter == CounterAfter(r, old(sampleCounter))
      ensures bytesSaved == old(bytesSaved) + if decision.action == Drop then sizeBytes else 0
    {
      decision := Decision(Keep, None);
      var i := 0;
      while i < |rules|
        invariant 0 <= i <= |rules| && unchanged(this) && decision == Decision(Keep, None)
        invariant forall j :: 0 <= j < i ==> !(rules[j].enabled && matches(rules[j]))
      {
        if rules[i].enabled && matches(rules[i]) {
          assert IsChosen(rules, matches, rules[i]);
          decision := ApplyRule(rules[i]);
          break;
        }
        i := i + 1;
      }
      ghost var chosen := i < |rules|;
      assert chosen ==> IsChosen(rules, matches, rules[i]);
      Tally(decision.action, sizeBytes);
    }

    method Tally(action: Action, sizeBytes: int)
      requires Valid()
      modifies this`totalProcessed, this`totalDropped, this`totalSampled, this`totalTransformed, this`totalKept,
               this`bytesSaved, this`decisions
      ensures Valid() && decisions == old(decisions) + [action]
      ensures bytesSaved == old(bytesSaved) + if action == Drop then sizeBytes else 0
    {
      CountGrows(decisions, action);
      totalProcessed := totalProcessed + 1;
      match action {
        case Drop =>
          totalDropped := totalDropped + 1;
          bytesSaved := bytesSaved + sizeBytes;
        case Sample => totalSampled := totalSampled + 1;
        case Transform => totalTransformed := totalTransformed + 1;
        case Keep => totalKept := totalKept + 1;
        case Aggregate =>
        case Custom(_) =>
      }
      decisions := decisions + [action];
    }
  }

  predicate Sampled(counter: nat, rate: real) {
    rate >= 1.0 || (rate > 0.0 && Keeps(counter, rate))
  }

  /** A sampling rule drops what its rate does not keep; every other rule decides as it says. */
  function Ruling(r: Rule, counter: nat): Decision {
    Decision(if r.action == Sample && !Sampled(counter, r.sampleRate) then Drop else r.action, Some(r.id))
  }

  /** Only a sampling rule with a rate inside (0, 1) uses the counter. */
  function CounterAfter(r: Rule, counter: nat): nat {
    if r.action == Sample && 0.0 < r.sampleRate < 1.0 then Tick(counter) else counter
  }

  /** What n evaluations in a row decide when the same rule is chosen for each. */
  function Rulings(r: Rule, counter: nat, n: nat): seq<Action>
    decreases n
  {
    if n == 0 then [] else [Ruling(r, counter).action] + Rulings(r, CounterAfter(r, counter), n - 1)
  }

  lemma {:induction false} CountPrepends(a: Action, actions: seq<Action>, b: Action)
    ensures Count([a] + actions, b) == Count(actions, b) + if a == b then 1 else 0
  {
    if actions != [] {
      assert ([a] + actions)[..|actions|] == [a] + actions[..|actions| - 1];
      CountPrepends(a, actions[..|actions| - 1], b);
    }
  }

  lemma {:induction false} RulingsCount(r: Rule, counter: nat, n: nat)
    requires r.action == Sample && 0.0 < r.sampleRate < 1.0
    ensures Count(Rulings(r, counter, n), Sample) == KeptOf(counter, n, r.sampleRate)
    ensures Count(Rulings(r, counter, n), Drop) == n - KeptOf(counter, n, r.sampleRate)
    decreases n
  {
    hide Keeps, Tick, Count;
    if n > 0 {
      RulingsCount(r, Tick(counter), n - 1);
      var a, rest := Ruling(r, counter).action, Rulings(r, Tick(counter), n - 1);
      CountPrepends(a, rest, Sample);
      CountPrepends(a, rest, Drop);
    } else {
      NoneCounted(Sample);
      NoneCounted(Drop);
    }
  }

  lemma NoneCounted(a: Action)
    ensures Count([], a) == 0
  {
  }

  /** So of any hundred points in a row that a sampling rule decides, it keeps exactly the whole percentage. */
  lemma HundredPointsKeepThePercentage(r: Rule, counter: nat)
    requires r.action == Sample && 0.0 < r.sampleRate < 1.0 && (counter + 100 < TWO64 || counter == TWO64 - 1)
    ensures var kept := Count(Rulings(r, counter, 100), Sample);
            && kept as real <= 100.0 * r.sampleRate < kept as real + 1.0
            && Count(Rulings(r, counter, 100), Drop) == 100 - kept
  {
    hide Rulings, KeptOf, Threshold, Count;
    RulingsCount(r, counter, 100);
    HundredCallsKeepThePercentage(counter, r.sampleRate);
  }

  // ---- Lists of rules ----

  function Without(rules: seq<Rule>, id: string): seq<Rule> {
    if rules == [] then []
    else (if rules[0].id == id then [] else [rules[0]]) + Without(rules[1..], id)
  }

  lemma {:induction false} WithoutNothing(rules: seq<Rule>, id: string)
    requires forall i :: 0 <= i < |rules| ==> rules[i].id != id
    ensures Without(rules, id) == rules
  {
    if rules != [] {
      WithoutNothing(rules[1..], id);
    }
  }

  lemma {:induction false} WithoutAt(rules: seq<Rule>, id: string, k: nat)
    requires DistinctIds(rules) && k < |rules| && rules[k].id == id
    ensures Without(rules, id) == rules[..k] + rules[k + 1..]
  {
    if k == 0 {
      WithoutNothing(rules[1..], id);
    } else {
      assert rules[0].id != id;
      WithoutAt(rules[1..], id, k - 1);
      assert rules[..k] + rules[k + 1..] == [rules[0]] + (rules[1..][..k - 1] + rules[1..][k..]);
    }
  }

  /** The first i rules are in order and no later rule comes before them. */
  ghost predicate LeastUpTo(rules: seq<Rule>, i: nat) {
    forall p, q :: 0 <= p < i && p < q < |rules| ==> rules[p].priority <= rules[q].priority
  }

  lemma ExchangeKeeps(rules: seq<Rule>, i: nat, j: nat)
    requires i < j < |rules| && DistinctIds(rules) && LeastUpTo(rules, i)
    ensures var swapped := rules[i := rules[j]][j := rules[i]];
            DistinctIds(swapped) && LeastUpTo(swapped, i) && multiset(swapped) == multiset(rules)
  {
  }

  // ---- Counting decisions ----

  function Count(decisions: seq<Action>, a: Action): nat {
    if decisions == [] then 0
    else Count(decisions[..|decisions| - 1], a) + if decisions[|decisions| - 1] == a then 1 else 0
  }

  function Uncounted(decisions: seq<Action>): nat {
    if decisions == [] then 0
    else Uncounted(decisions[..|decisions| - 1])
         + if decisions[|decisions| - 1].Aggregate? || decisions[|decisions| - 1].Custom? then 1 else 0
  }

  lemma CountGrows(decisions: seq<Action>, a: Action)
    ensures forall b :: Count(decisions + [a], b) == Count(decisions, b) + if a == b then 1 else 0
  {
    assert (decisions + [a])[..|decisions|] == decisions;
  }

  lemma {:induction false} DecisionsPartition(decisions: seq<Action>)
    ensures |decisions| == Count(decisions, Drop) + Count(decisions, Sample) + Count(decisions, Transform)
                           + Count(decisions, Keep) + Uncounted(decisions)
  {
    if decisions != [] {
      DecisionsPartition(decisions[..|decisions| - 1]);
    }
  }
}
