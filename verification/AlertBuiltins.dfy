/** The built-in rules in terms of the raw snapshots: what their alerts say about a host. */
module AlertBuiltins {
  import opened Options
  import opened AlertEngine
  import opened AlertTheorems
  import opened AlertRules
  import opened Text

  // ---------------------------------------------------------------------------
  // One verdict
  // ---------------------------------------------------------------------------

  /** A rule on a number of the payload judges by its operator; an unknown operator never holds. */
  lemma NumberIsJudged(rule: Rule, snap: Snapshot, now: int, x: real)
    requires rule.metric != "heartbeat_age_seconds" && rule.metric in snap.payload && snap.payload[rule.metric] == Number(x)
    ensures exists holds: bool ::
              && Judge(rule, snap, now) == [Observe(rule.name + ":host:" + Decimal(snap.resourceId), now, holds, rule.duration, rule.severity, x)]
              && (rule.operator == ">" ==> (holds <==> x > rule.threshold))
              && (rule.operator == ">=" ==> (holds <==> x >= rule.threshold))
              && (rule.operator == "<" ==> (holds <==> x < rule.threshold))
              && (rule.operator == "<=" ==> (holds <==> x <= rule.threshold))
              && (rule.operator == "==" ==> (holds <==> x == rule.threshold))
              && (rule.operator == "!=" ==> (holds <==> x != rule.threshold))
              && (rule.operator !in {">", ">=", "<", "<=", "==", "!="} ==> !holds)
  {
    var o := Judge(rule, snap, now)[0];
    assert Judge(rule, snap, now) == [Observe(rule.name + ":host:" + Decimal(snap.resourceId), now, o.holds, rule.duration, rule.severity, x)];
  }

  /** The heartbeat metric is the age of the snapshot in seconds, never negative, whatever the payload. */
  lemma HeartbeatIsAge(rule: Rule, snap: Snapshot, now: int)
    requires rule.metric == "heartbeat_age_seconds"
    ensures |Judge(rule, snap, now)| == 1 && Judge(rule, snap, now)[0].Observe?
    ensures now <= snap.collectedAt ==> Judge(rule, snap, now)[0].value == 0.0
    ensures now >= snap.collectedAt ==> Judge(rule, snap, now)[0].value * 1_000_000_000.0 == (now - snap.collectedAt) as real
  {
  }

  lemma NothingIsJudged(rule: Rule, snap: Snapshot, now: int)
    requires rule.metric != "heartbeat_age_seconds"
    requires rule.metric !in snap.payload || snap.payload[rule.metric] == NotNumeric
    ensures Judge(rule, snap, now) == []
  {
  }

  lemma {:induction false} FindsListed(snaps: seq<Snapshot>, j: nat)
    requires SnapsOk(snaps) && j < |snaps|
    ensures Find(snaps, snaps[j].resourceId) == Some(snaps[j])
    decreases |snaps|
  {
    if j < |snaps| - 1 {
      FindsListed(snaps[..|snaps| - 1], j);
    }
  }

  // ---------------------------------------------------------------------------
  // The heartbeat
  // ---------------------------------------------------------------------------

  lemma AgeOver90(snap: Snapshot, now: int)
    ensures Verdict(DEFAULT_RULES[3], Some(snap), now) == [Judged(now, now - snap.collectedAt > 90 * 1_000_000_000)]
  {
  }

  /** A rule without a duration is open exactly when its last verdict is true. */
  lemma OpenAtOnce(h: seq<Mark>, m: Mark)
    requires m.Judged?
    ensures ShouldBeOpen(h + [m], 0) <==> m.holds
  {
    var n := |h|;
    if m.holds {
      assert DetectedAt(h + [m], n, 0) && NoFalseAfter(h + [m], n);
    }
    forall j | DetectedAt(h + [m], j, 0) && NoFalseAfter(h + [m], j)
      ensures m.holds
    {
      assert (h + [m])[n] == m;
    }
  }

  /** After any run that ends with an evaluation, the heartbeat alert of a listed host is open if and only
      if its last snapshot is more than 90 seconds old. */
  lemma HeartbeatAlertIff(log: seq<Happening>, snaps: seq<Snapshot>, now: int, j: nat)
    requires LogOk(log) && SnapsOk(snaps) && j < |snaps|
    ensures HasOpen(Run(FRESH, Ops(DEFAULT_RULES, log + [Round(snaps, now)])),
                    "AgentHeartbeatTimeout" + ":host:" + Decimal(snaps[j].resourceId))
       <==> now - snaps[j].collectedAt > 90 * 1_000_000_000
  {
    var rule, id, all := DEFAULT_RULES[3], snaps[j].resourceId, log + [Round(snaps, now)];
    DefaultRulesOk();
    assert rule in DEFAULT_RULES;
    RuleOpenIff(DEFAULT_RULES, all, rule, id);
    assert all[..|log|] == log;
    FindsListed(snaps, j);
    AgeOver90(snaps[j], now);
    OpenAtOnce(Verdicts(rule, id, log), Judged(now, now - snaps[j].collectedAt > 90 * 1_000_000_000));
  }

  // ---------------------------------------------------------------------------
  // Rules on a number that must stay high for a while
  // ---------------------------------------------------------------------------

  /** The evaluation lists the host with this number under the metric. */
  ghost predicate Reported(e: Happening, id: nat, metric: string, x: real) {
    e.Round? && exists s :: s in e.snaps && s.resourceId == id && metric in s.payload && s.payload[metric] == Number(x)
  }

  /** From evaluation i on every number reported for the host is at least the limit. */
  ghost predicate HighSince(log: seq<Happening>, i: int, id: nat, metric: string, limit: real) {
    && 0 <= i < |log| && (exists x :: Reported(log[i], id, metric, x))
    && forall k, x :: i <= k < |log| && Reported(log[k], id, metric, x) ==> x >= limit
  }

  predicate IsLimit(rule: Rule, metric: string, limit: real) {
    rule.metric == metric != "heartbeat_age_seconds" && rule.operator == ">=" && rule.threshold == limit
  }

  lemma ReportedVerdict(rule: Rule, id: nat, e: Happening, x: real)
    requires IsLimit(rule, rule.metric, rule.threshold) && (e.Round? ==> SnapsOk(e.snaps))
    requires Reported(e, id, rule.metric, x)
    ensures VerdictOf(rule, id, e) == [Judged(e.now, x >= rule.threshold)]
  {
    var s :| s in e.snaps && s.resourceId == id && rule.metric in s.payload && s.payload[rule.metric] == Number(x);
    var j :| 0 <= j < |e.snaps| && e.snaps[j] == s;
    FindsListed(e.snaps, j);
  }

  lemma VerdictReported(rule: Rule, id: nat, e: Happening) returns (x: real)
    requires IsLimit(rule, rule.metric, rule.threshold) && (e.Round? ==> SnapsOk(e.snaps))
    requires !e.Reboot? && VerdictOf(rule, id, e) != []
    ensures Reported(e, id, rule.metric, x)
  {
    var s := Find(e.snaps, id).value;
    FoundIsListed(e.snaps, id);
    x := s.payload[rule.metric].value;
  }

  lemma {:induction false} FoundIsListed(snaps: seq<Snapshot>, id: nat)
    requires Find(snaps, id).Some?
    ensures Find(snaps, id).value in snaps && Find(snaps, id).value.resourceId == id
    decreases |snaps|
  {
    if snaps[|snaps| - 1].resourceId != id {
      FoundIsListed(snaps[..|snaps| - 1], id);
    }
  }

  lemma LastOfBoth(a: seq<Happening>, b: seq<Happening>)
    requires b != []
    ensures (a + b)[..|a| + |b| - 1] == a + b[..|b| - 1] && (a + b)[|a| + |b| - 1] == b[|b| - 1]
  {
  }

  lemma {:induction false} VerdictsAppend(rule: Rule, id: nat, a: seq<Happening>, b: seq<Happening>)
    ensures Verdicts(rule, id, a + b) == Verdicts(rule, id, a) + Verdicts(rule, id, b)
    decreases |b|
  {
    if b == [] {
      assert a + b == a;
    } else {
      var n := |b| - 1;
      VerdictsAppend(rule, id, a, b[..n]);
      LastOfBoth(a, b);
    }
  }

  lemma VerdictsSplit(rule: Rule, id: nat, log: seq<Happening>, i: nat)
    requires i <= |log|
    ensures Verdicts(rule, id, log) == Verdicts(rule, id, log[..i]) + Verdicts(rule, id, log[i..])
  {
    assert log == log[..i] + log[i..];
    VerdictsAppend(rule, id, log[..i], log[i..]);
  }

  /** The marks before and from evaluation i on, and its own. */
  lemma MarksFrom(rule: Rule, id: nat, log: seq<Happening>, i: nat)
    requires i < |log|
    ensures Verdicts(rule, id, log) == Verdicts(rule, id, log[..i]) + VerdictOf(rule, id, log[i]) + Verdicts(rule, id, log[i + 1..])
  {
    VerdictsSplit(rule, id, log, i + 1);
    assert log[..i + 1][..i] == log[..i];
  }

  /** Mark a of the history is the verdict of evaluation i. */
  lemma {:induction false} MarkFound(rule: Rule, id: nat, log: seq<Happening>, a: nat) returns (i: nat)
    requires OneRun(log) && a < |Verdicts(rule, id, log)|
    ensures i < |log| && |Verdicts(rule, id, log[..i])| == a && VerdictOf(rule, id, log[i]) == [Verdicts(rule, id, log)[a]]
    decreases |log|
  {
    var n := |log| - 1;
    if a < |Verdicts(rule, id, log[..n])| {
      i := MarkFound(rule, id, log[..n], a);
      assert log[..n][..i] == log[..i];
    } else {
      i := n;
    }
  }

  /** A high number from i on makes every mark from there on true. */
  lemma {:induction false} HighMarks(rule: Rule, id: nat, log: seq<Happening>)
    requires IsLimit(rule, rule.metric, rule.threshold) && LogOk(log) && OneRun(log)
    requires forall k, x :: 0 <= k < |log| && Reported(log[k], id, rule.metric, x) ==> x >= rule.threshold
    ensures forall b :: 0 <= b < |Verdicts(rule, id, log)| ==> JudgedTrue(Verdicts(rule, id, log)[b])
    decreases |log|
  {
    if log != [] {
      var n := |log| - 1;
      HighMarks(rule, id, log[..n]);
      if VerdictOf(rule, id, log[n]) != [] {
        var x := VerdictReported(rule, id, log[n]);
        ReportedVerdict(rule, id, log[n], x);
      }
    }
  }

  /** And the other way round. */
  lemma MarksHigh(rule: Rule, id: nat, log: seq<Happening>, i: nat, k: int, x: real)
    requires IsLimit(rule, rule.metric, rule.threshold) && LogOk(log)
    requires i <= k < |log| && Reported(log[k], id, rule.metric, x)
    requires forall b :: |Verdicts(rule, id, log[..i])| <= b < |Verdicts(rule, id, log)| ==> JudgedTrue(Verdicts(rule, id, log)[b])
    ensures x >= rule.threshold
  {
    ReportedVerdict(rule, id, log[k], x);
    MarksFrom(rule, id, log, k);
    VerdictsSplit(rule, id, log[..k], i);
    assert log[..k][..i] == log[..i];
    var b := |Verdicts(rule, id, log[..k])|;
    assert Verdicts(rule, id, log)[b] == Judged(log[k].now, x >= rule.threshold);
  }

  lemma {:induction false} TrailStart(h: seq<Mark>, n: nat) returns (start: nat)
    requires n < |h| && JudgedTrue(h[n])
    ensures RunOfTrue(h, start, n)
  {
    if n == 0 || !JudgedTrue(h[n - 1]) {
      start := n;
    } else {
      start := TrailStart(h, n - 1);
    }
  }

  /** The marks from i on: all true, and the first one at its time. */
  lemma HighTail(rule: Rule, id: nat, log: seq<Happening>, i: nat)
    requires IsLimit(rule, rule.metric, rule.threshold) && LogOk(log) && OneRun(log) && HighSince(log, i, id, rule.metric, rule.threshold)
    ensures var a, tail := |Verdicts(rule, id, log[..i])|, Verdicts(rule, id, log[i..]);
            && Verdicts(rule, id, log) == Verdicts(rule, id, log[..i]) + tail
            && tail != [] && tail[0].Judged? && tail[0].at == log[i].now && forall b :: 0 <= b < |tail| ==> JudgedTrue(tail[b])
  {
    var x :| Reported(log[i], id, rule.metric, x);
    ReportedVerdict(rule, id, log[i], x);
    VerdictsSplit(rule, id, log, i);
    TailOk(log, i, id, rule.metric, rule.threshold);
    HighMarks(rule, id, log[i..]);
    MarksFrom(rule, id, log[i..], 0);
  }

  lemma TrailStartsBefore(h: seq<Mark>, before: seq<Mark>, tail: seq<Mark>, start: nat)
    requires h == before + tail && tail != [] && tail[0].Judged? && OneProcess(h)
    requires forall b :: 0 <= b < |tail| ==> JudgedTrue(tail[b])
    requires JudgedTrue(h[|h| - 1]) ==> RunOfTrue(h, start, |h| - 1)
    ensures JudgedTrue(h[|h| - 1]) && h[start].at <= tail[0].at
  {
    assert h[|before|] == tail[0];
    assert forall b :: |before| <= b < |h| ==> h[b] == tail[b - |before|];
  }

  lemma HighOpens(rule: Rule, id: nat, log: seq<Happening>, i: nat, start: nat)
    requires IsLimit(rule, rule.metric, rule.threshold) && LogOk(log) && OneRun(log) && HighSince(log, i, id, rule.metric, rule.threshold)
    requires var h := Verdicts(rule, id, log);
             h != [] && JudgedTrue(h[|h| - 1]) ==> RunOfTrue(h, start, |h| - 1)
    ensures var h := Verdicts(rule, id, log);
            h != [] && JudgedTrue(h[|h| - 1]) && h[start].at <= log[i].now
  {
    HighTail(rule, id, log, i);
    VerdictTimes(rule, id, log);
    TrailStartsBefore(Verdicts(rule, id, log), Verdicts(rule, id, log[..i]), Verdicts(rule, id, log[i..]), start);
  }

  lemma TailOk(log: seq<Happening>, i: nat, id: nat, metric: string, limit: real)
    requires LogOk(log) && OneRun(log) && HighSince(log, i, id, metric, limit)
    ensures LogOk(log[i..]) && OneRun(log[i..])
    ensures forall k, x :: 0 <= k < |log[i..]| && Reported(log[i..][k], id, metric, x) ==> x >= limit
  {
    forall k | 0 <= k < |log[i..]|
      ensures log[i..][k] == log[i + k]
    {
    }
  }

  /** In one process with a clock that does not go back: once an evaluation has reported a number for the
      host, the alert of such a rule is open if and only if all numbers reported over its duration, up to
      the last one, are at least the limit. */
  lemma LimitAlertIff(rules: seq<Rule>, rule: Rule, id: nat, log: seq<Happening>, x: real)
    requires RulesOk(rules) && rule in rules && rule.duration > 0 && IsLimit(rule, rule.metric, rule.threshold)
    requires LogOk(log) && OneRun(log) && log != [] && Reported(log[|log| - 1], id, rule.metric, x)
    ensures HasOpen(Run(FRESH, Ops(rules, log)), Fingerprint(rule.name, id))
       <==> exists i :: HighSince(log, i, id, rule.metric, rule.threshold) && log[|log| - 1].now - log[i].now >= rule.duration
  {
    var h, n := Verdicts(rule, id, log), |log| - 1;
    ReportedVerdict(rule, id, log[n], x);
    assert h[|h| - 1] == Judged(log[n].now, x >= rule.threshold);
    var start := 0;
    if JudgedTrue(h[|h| - 1]) {
      start := TrailStart(h, |h| - 1);
    }
    RuleOpenInOneRun(rules, log, rule, id, start);
    if JudgedTrue(h[|h| - 1]) && h[|h| - 1].at - h[start].at >= rule.duration {
      var i := MarkFound(rule, id, log, start);
      HighFromMark(rule, id, log, i, start);
    }
    if i: nat :| HighSince(log, i, id, rule.metric, rule.threshold) && log[n].now - log[i].now >= rule.duration {
      HighOpens(rule, id, log, i, start);
    }
  }

  lemma HighFromMark(rule: Rule, id: nat, log: seq<Happening>, i: nat, start: nat)
    requires IsLimit(rule, rule.metric, rule.threshold) && LogOk(log) && OneRun(log)
    requires var h := Verdicts(rule, id, log); h != [] && RunOfTrue(h, start, |h| - 1)
    requires i < |log| && |Verdicts(rule, id, log[..i])| == start && VerdictOf(rule, id, log[i]) == [Verdicts(rule, id, log)[start]]
    ensures HighSince(log, i, id, rule.metric, rule.threshold) && log[i].now == Verdicts(rule, id, log)[start].at
  {
    var x := VerdictReported(rule, id, log[i]);
    ReportedVerdict(rule, id, log[i], x);
    forall k, y | i <= k < |log| && Reported(log[k], id, rule.metric, y)
      ensures y >= rule.threshold
    {
      MarksHigh(rule, id, log, i, k, y);
    }
  }

  /** The three built-in limits: 85 and 95 percent of the root file system over five minutes and one, and
      90 percent of the memory over five minutes. */
  lemma BuiltinLimits(id: nat, log: seq<Happening>, metric: string, limit: real, seconds: int, name: string, x: real)
    requires (name, metric, limit, seconds) in {("HostDisk85", "root_used_pct", 85.0, 300), ("HostDisk95", "root_used_pct", 95.0, 60),
                                                ("HostMemory90", "memory_used_pct", 90.0, 300)}
    requires LogOk(log) && OneRun(log) && log != [] && Reported(log[|log| - 1], id, metric, x)
    ensures HasOpen(Run(FRESH, Ops(DEFAULT_RULES, log)), name + ":host:" + Decimal(id))
       <==> exists i :: HighSince(log, i, id, metric, limit) && log[|log| - 1].now - log[i].now >= seconds * 1_000_000_000
  {
    DefaultRulesOk();
    NotHeartbeat();
    var rule := if limit == 85.0 then DEFAULT_RULES[0] else if limit == 95.0 then DEFAULT_RULES[1] else DEFAULT_RULES[2];
    assert rule in DEFAULT_RULES;
    LimitAlertIff(DEFAULT_RULES, rule, id, log, x);
  }

  lemma NotHeartbeat()
    ensures "root_used_pct" != "heartbeat_age_seconds" && "memory_used_pct" != "heartbeat_age_seconds"
  {
    assert |"root_used_pct"| == 13 && |"memory_used_pct"| == 15 && |"heartbeat_age_seconds"| == 21;
  }

  // ---------------------------------------------------------------------------
  // Severities
  // ---------------------------------------------------------------------------

  lemma StepSeverity(s: State, o: Op, fingerprint: string, severity: string)
    requires forall id :: id in s.events && s.events[id].fingerprint == fingerprint ==> s.events[id].severity == severity
    requires o.Observe? && o.fingerprint == fingerprint ==> o.severity == severity
    ensures forall id :: id in Apply(s, o).events && Apply(s, o).events[id].fingerprint == fingerprint ==>
              Apply(s, o).events[id].severity == severity
  {
  }

  lemma {:induction false} RunSeverity(ops: seq<Op>, fingerprint: string, severity: string)
    requires forall o :: o in ops && o.Observe? && o.fingerprint == fingerprint ==> o.severity == severity
    ensures forall id :: id in Run(FRESH, ops).events && Run(FRESH, ops).events[id].fingerprint == fingerprint ==>
              Run(FRESH, ops).events[id].severity == severity
    decreases |ops|
  {
    if ops != [] {
      var n := |ops| - 1;
      RunSeverity(ops[..n], fingerprint, severity);
      StepSeverity(Run(FRESH, ops[..n]), ops[n], fingerprint, severity);
    }
  }

  /** Every alert of a rule has the rule's severity: the built-in ones are P2, P1, P2 and P1. */
  lemma EventsHaveSeverity(log: seq<Happening>, name: string, severity: string, id: nat, e: int)
    requires (name, severity) in {("HostDisk85", "P2"), ("HostDisk95", "P1"), ("HostMemory90", "P2"), ("AgentHeartbeatTimeout", "P1")}
    requires e in Run(FRESH, Ops(DEFAULT_RULES, log)).events
    requires Run(FRESH, Ops(DEFAULT_RULES, log)).events[e].fingerprint == name + ":host:" + Decimal(id)
    ensures Run(FRESH, Ops(DEFAULT_RULES, log)).events[e].severity == severity
  {
    DefaultRulesOk();
    var rule := RuleNamed(name, severity);
    LogUniform(DEFAULT_RULES, log, rule, id);
    forall o | o in Ops(DEFAULT_RULES, log) && o.Observe? && o.fingerprint == name + ":host:" + Decimal(id)
      ensures o.severity == severity
    {
      assert Follows(o, rule, id);
    }
    RunSeverity(Ops(DEFAULT_RULES, log), name + ":host:" + Decimal(id), severity);
  }

  lemma RuleNamed(name: string, severity: string) returns (rule: Rule)
    requires (name, severity) in {("HostDisk85", "P2"), ("HostDisk95", "P1"), ("HostMemory90", "P2"), ("AgentHeartbeatTimeout", "P1")}
    ensures rule in DEFAULT_RULES && rule.name == name && rule.severity == severity
  {
    assert |"HostDisk85"| == |"HostDisk95"| == 10 && "HostDisk85"[8] == '8' && "HostDisk95"[8] == '9';
    assert |"HostMemory90"| == 12 && |"AgentHeartbeatTimeout"| == 21;
    var i := if |name| == 12 then 2 else if |name| == 21 then 3 else if name[8] == '8' then 0 else 1;
    rule := DEFAULT_RULES[i];
    assert rule in DEFAULT_RULES;
  }
}
