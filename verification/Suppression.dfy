/** Suppressing symptoms of upstream failures: internal/alerting/dependency.go. */
module Suppression {

  type Severity = string

  const CRITICAL: Severity := "critical"
  const WARNING: Severity := "warning"
  const INFO: Severity := "info"

  function SeverityRank(s: Severity): nat {
    if s == CRITICAL then 3 else if s == WARNING then 2 else if s == INFO then 1 else 0
  }

  /** Critical is above warning, warning above info, and info above anything else. */
  lemma SeverityOrder(s: Severity, t: Severity)
    ensures SeverityRank(s) >= SeverityRank(t) <==>
              || s == "critical"
              || (s == "warning" && t != "critical")
              || (s == "info" && t != "critical" && t != "warning")
              || (t != "critical" && t != "warning" && t != "info")
    ensures SeverityRank(s) >= 3 <==> s == "critical"
  {
  }

  datatype Upstream = Upstream(name: string, firing: bool, severity: Severity)

  datatype Alert = Alert(severity: Severity, alertname: string)

  const CONNECTION_WORDS := ["timeout", "connection", "unavailable", "error_rate"]

  /** part occurs in s at position i. */
  predicate OccursAt(s: string, part: string, i: nat) {
    i <= |s| && part <= s[i..]
  }

  ghost predicate Mentions(s: string, words: seq<string>) {
    exists w, i: nat :: w in words && OccursAt(s, w, i)
  }

  method ContainsAny(s: string, words: seq<string>) returns (found: bool)
    ensures found <==> Mentions(s, words)
  {
    for k := 0 to |words|
      invariant forall w, i: nat :: w in words[..k] ==> !OccursAt(s, w, i)
    {
      var word := words[k];
      assert words[..k + 1] == words[..k] + [word];
      if |s| >= |word| {
        for i := 0 to |s| - |word| + 1
          invariant forall j: nat :: j < i ==> !OccursAt(s, word, j)
        {
          if s[i..i + |word|] == word {
            assert OccursAt(s, word, i) && word in words;
            return true;
          }
          assert !OccursAt(s, word, i) by {
            assert s[i..][..|word|] == s[i..i + |word|];
          }
        }
      }
    }
    assert words[..|words|] == words;
    return false;
  }

  /** Some firing upstream is at least this severe. */
  ghost predicate FiringAtLeast(upstreams: seq<Upstream>, rank: nat) {
    exists u :: u in upstreams && u.firing && SeverityRank(u.severity) >= rank
  }

  /** An alert is suppressed exactly if a firing upstream is at least as severe and the alert is about connections, or
      if a firing upstream is critical and the alert is not. */
  method ShouldSuppress(alert: Alert, upstreams: seq<Upstream>) returns (suppress: bool)
    ensures suppress <==>
      || (FiringAtLeast(upstreams, SeverityRank(alert.severity))
          && Mentions(alert.alertname, ["timeout", "connection", "unavailable", "error_rate"]))
      || ((exists u :: u in upstreams && u.firing && u.severity == "critical") && alert.severity != "critical")
  {
    hide Mentions;
    var worst := -1;
    for k := 0 to |upstreams|
      invariant -1 <= worst < k
      invariant worst >= 0 ==> upstreams[worst].firing
      invariant worst < 0 ==> forall j :: 0 <= j < k ==> !upstreams[j].firing
      invariant worst >= 0 ==> forall j :: 0 <= j < k && upstreams[j].firing ==>
                  SeverityRank(upstreams[j].severity) <= SeverityRank(upstreams[worst].severity)
    {
      if upstreams[k].firing {
        if worst < 0 || SeverityRank(upstreams[k].severity) > SeverityRank(upstreams[worst].severity) {
          worst := k;
        }
      }
    }
    if worst < 0 {
      return false;
    }
    assert upstreams[worst] in upstreams;
    var severity := upstreams[worst].severity;
    var aboutConnections := ContainsAny(alert.alertname, CONNECTION_WORDS);
    if SeverityRank(severity) >= SeverityRank(alert.severity) && aboutConnections {
      return true;
    }
    if severity == CRITICAL && SeverityRank(alert.severity) <= SeverityRank(WARNING) {
      return true;
    }
    return false;
  }
}
