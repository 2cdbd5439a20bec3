/** Rules, what one evaluation of the rules observes, and the detector's guarantee in those terms. */
module AlertRules {
  import opened Options
  import opened AlertEngine
  import opened AlertTheorems
  import opened Text

  const MINUTE := 60 * SECOND

  datatype Rule = Rule(name: string, metric: string, operator: string, threshold: real, duration: int, severity: string)

  const DEFAULT_RULES := [
    Rule("HostDisk85", "root_used_pct", ">=", 85.0, 5 * MINUTE, "P2"),
    Rule("HostDisk95", "root_used_pct", ">=", 95.0, MINUTE, "P1"),
    Rule("HostMemory90", "memory_used_pct", ">=", 90.0, 5 * MINUTE, "P2"),
    Rule("AgentHeartbeatTimeout", "heartbeat_age_seconds", ">", 90.0, 0, "P1")]

  /** A payload entry: a number, or anything else. */
  datatype Reading = Number(value: real) | NotNumeric

  datatype Snapshot = Snapshot(resourceId: nat, collectedAt: int, payload: map<string, Reading>)

  // ---------------------------------------------------------------------------
  // One evaluation
  // ---------------------------------------------------------------------------

  function MetricValue(metric: string, snap: Snapshot, now: int): Option<real> {
    if metric == "heartbeat_age_seconds" then
      var age := (now - snap.collectedAt) as real / SECOND as real;
      Some(if age < 0.0 then 0.0 else age)
    else if metric in snap.payload && snap.payload[metric].Number? then Some(snap.payload[metric].value)
    else None
  }

  predicate Compare(value: real, operator: string, threshold: real) {
    match operator
    case ">" => value > threshold
    case ">=" => value >= threshold
    case "<" => value < threshold
    case "<=" => value <= threshold
    case "==" => value == threshold
    case "!=" => value != threshold
    case _ => false
  }

  function Fingerprint(name: string, id: nat): string {
    name + ":host:" + Decimal(id)
  }

  function Judge(rule: Rule, snap: Snapshot, now: int): seq<Op> {
    match MetricValue(rule.metric, snap, now)
    case None => []
    case Some(v) => [Observe(Fingerprint(rule.name, snap.resourceId), now,
                             Compare(v, rule.operator, rule.threshold), rule.duration, rule.severity, v)]
  }

  function JudgeAll(rules: seq<Rule>, snap: Snapshot, now: int): seq<Op>
    decreases |rules|
  {
    if rules == [] then []
    else JudgeAll(rules[..|rules| - 1], snap, now) + Judge(rules[|rules| - 1], snap, now)
  }

  /** The observations of one evaluation, in the order of its two loops. */
  function Evaluation(rules: seq<Rule>, snaps: seq<Snapshot>, now: int): seq<Op>
    decreases |snaps|
  {
    if snaps == [] then []
    else Evaluation(rules, snaps[..|snaps| - 1], now) + JudgeAll(rules, snaps[|snaps| - 1], now)
  }

  // ---------------------------------------------------------------------------
  // Fingerprints tell rule and host apart
  // ---------------------------------------------------------------------------

  predicate NoColon(name: string) { ':' !in name }

  lemma FingerprintInjective(n: string, i: nat, n': string, i': nat)
    requires NoColon(n) && NoColon(n') && Fingerprint(n, i) == Fingerprint(n', i')
    ensures n == n' && i == i'
  {
    var f, f' := Fingerprint(n, i), Fingerprint(n', i');
    assert f[|n|] == ':' && f'[|n'|] == ':';
    assert forall k :: 0 <= k < |n| ==> f[k] == n[k] && f[k] != ':';
    assert forall k :: 0 <= k < |n'| ==> f'[k] == n'[k] && f'[k] != ':';
    assert |n| == |n'|;
    assert n == f[..|n|] && n' == f'[..|n'|];
    var head := |n| + |":host:"|;
    assert Decimal(i) == f[head..] && Decimal(i') == f'[head..];
    DecimalInverse(i);
    DecimalInverse(i');
  }

  predicate RulesOk(rules: seq<Rule>) {
    && (forall i :: 0 <= i < |rules| ==> NoColon(rules[i].name))
    && (forall i, j :: 0 <= i < j < |rules| ==> rules[i].name != rules[j].name)
  }

  lemma DefaultNames()
    ensures NoColon("HostDisk85") && NoColon("HostDisk95") && NoColon("HostMemory90")
    ensures NoColon("AgentHeartbeatTimeout")
    ensures "HostDisk85" != "HostDisk95"
  {
    assert "HostDisk85"[8] == '8' && "HostDisk95"[8] == '9';
  }

  lemma DefaultRulesOk()
    ensures RulesOk(DEFAULT_RULES)
  {
    DefaultNames();
    assert |"HostDisk85"| == 10 && |"HostDisk95"| == 10 && |"HostMemory90"| == 12;
    assert |"AgentHeartbeatTimeout"| == 21;
  }

  /** The name of `rule` belongs to no other rule of the list. */
  predicate Names(rules: seq<Rule>, rule: Rule) {
    NoColon(rule.name) && forall i :: 0 <= i < |rules| && rules[i].name == rule.name ==> rules[i] == rule
  }

  /** The table the snapshots come from has one row per host. */
  predicate SnapsOk(snaps: seq<Snapshot>) {
    forall i, j :: 0 <= i < j < |snaps| ==> snaps[i].resourceId != snaps[j].resourceId
  }

  // ---------------------------------------------------------------------------
  // What an evaluation says about one rule and one host
  // ---------------------------------------------------------------------------

  function Find(snaps: seq<Snapshot>, id: nat): Option<Snapshot> {
    if snaps == [] then None
    else if snaps[|snaps| - 1].resourceId == id then Some(snaps[|snaps| - 1])
    else Find(snaps[..|snaps| - 1], id)
  }

  /** Missing hosts and missing or non-numeric metrics leave no mark. */
  function Verdict(rule: Rule, snap: Option<Snapshot>, now: int): seq<Mark> {
    if snap == None || MetricValue(rule.metric, snap.value, now) == None then []
    else [Judged(now, Compare(MetricValue(rule.metric, snap.value, now).value, rule.operator, rule.threshold))]
  }

  lemma {:induction false} HistoryAppend(a: seq<Op>, b: seq<Op>, fp: string)
    ensures History(a + b, fp) == History(a, fp) + History(b, fp)
    decreases |b|
  {
    if b == [] {
      assert a + b == a;
    } else {
      var n := |b| - 1;
      HistoryAppend(a, b[..n], fp);
      LastOfAppend(a, b);
    }
  }

  lemma LastOfAppend(a: seq<Op>, b: seq<Op>)
    requires b != []
    ensures var c := a + b;
            c[..|c| - 1] == a + b[..|b| - 1] && c[|c| - 1] == b[|b| - 1]
  {
  }

  lemma JudgeHistory(r: Rule, snap: Snapshot, now: int, rule: Rule, id: nat)
    requires NoColon(r.name) && NoColon(rule.name) && (r.name == rule.name ==> r == rule)
    ensures History(Judge(r, snap, now), Fingerprint(rule.name, id))
         == if snap.resourceId == id && r == rule then Verdict(rule, Some(snap), now) else []
  {
    var fp, ops := Fingerprint(rule.name, id), Judge(r, snap, now);
    if Fingerprint(r.name, snap.resourceId) == fp {
      FingerprintInjective(r.name, snap.resourceId, rule.name, id);
    }
    if ops != [] {
      assert ops[..0] == [];
      assert History(ops, fp) == [] + Marks(ops[0], fp);
    }
  }

  lemma {:induction false} JudgeAllHistory(rules: seq<Rule>, snap: Snapshot, now: int, rule: Rule, id: nat)
    requires RulesOk(rules) && Names(rules, rule)
    ensures History(JudgeAll(rules, snap, now), Fingerprint(rule.name, id))
         == if snap.resourceId == id && rule in rules then Verdict(rule, Some(snap), now) else []
    decreases |rules|
  {
    if rules != [] {
      var n := |rules| - 1;
      var before, last := rules[..n], rules[n];
      LastRule(rules, rule);
      JudgeAllHistory(before, snap, now, rule, id);
      HistoryAppend(JudgeAll(before, snap, now), Judge(last, snap, now), Fingerprint(rule.name, id));
      JudgeHistory(last, snap, now, rule, id);
    }
  }

  lemma LastRule(rules: seq<Rule>, rule: Rule)
    requires RulesOk(rules) && Names(rules, rule) && rules != []
    ensures RulesOk(rules[..|rules| - 1]) && Names(rules[..|rules| - 1], rule)
    ensures rules[|rules| - 1] == rule ==> rule !in rules[..|rules| - 1]
    ensures rule in rules <==> rule in rules[..|rules| - 1] || rules[|rules| - 1] == rule
  {
  }

  lemma RuleNames(rules: seq<Rule>, rule: Rule)
    requires RulesOk(rules) && rule in rules
    ensures Names(rules, rule)
  {
  }

  lemma LastSnap(snaps: seq<Snapshot>, id: nat)
    requires SnapsOk(snaps) && snaps != []
    ensures SnapsOk(snaps[..|snaps| - 1])
    ensures snaps[|snaps| - 1].resourceId == id ==> Find(snaps[..|snaps| - 1], id) == None
  {
    if snaps[|snaps| - 1].resourceId == id {
      NotFound(snaps[..|snaps| - 1], id);
    }
  }

  lemma {:induction false} EvaluationHistory(rules: seq<Rule>, snaps: seq<Snapshot>, now: int, rule: Rule, id: nat)
    requires RulesOk(rules) && SnapsOk(snaps) && rule in rules
    ensures History(Evaluation(rules, snaps, now), Fingerprint(rule.name, id)) == Verdict(rule, Find(snaps, id), now)
    decreases |snaps|
  {
    if snaps != [] {
      var n := |snaps| - 1;
      var before, last := snaps[..n], snaps[n];
      LastSnap(snaps, id);
      RuleNames(rules, rule);
      EvaluationHistory(rules, before, now, rule, id);
      HistoryAppend(Evaluation(rules, before, now), JudgeAll(rules, last, now), Fingerprint(rule.name, id));
      JudgeAllHistory(rules, last, now, rule, id);
    }
  }

  lemma {:induction false} NotFound(snaps: seq<Snapshot>, id: nat)
    requires forall i :: 0 <= i < |snaps| ==> snaps[i].resourceId != id
    ensures Find(snaps, id) == None
  {
    if snaps != [] {
      NotFound(snaps[..|snaps| - 1], id);
    }
  }

  // ---------------------------------------------------------------------------
  // A whole run of the server
  // ---------------------------------------------------------------------------

  datatype Happening = Round(snaps: seq<Snapshot>, now: int) | Ack(id: int) | Reboot

  function OpsOf(rules: seq<Rule>, e: Happening): seq<Op> {
    match e
    case Round(snaps, now) => Evaluation(rules, snaps, now)
    case Ack(id) => [Acknowledge(id)]
    case Reboot => [Restart]
  }

  function Ops(rules: seq<Rule>, log: seq<Happening>): seq<Op>
    decreases |log|
  {
    if log == [] then [] else Ops(rules, log[..|log| - 1]) + OpsOf(rules, log[|log| - 1])
  }

  function VerdictOf(rule: Rule, id: nat, e: Happening): seq<Mark> {
    match e
    case Round(snaps, now) => Verdict(rule, Find(snaps, id), now)
    case Ack(_) => []
    case Reboot => [Boot]
  }

  /** The verdicts on one rule and one host over a whole run, read off the snapshots alone. */
  function Verdicts(rule: Rule, id: nat, log: seq<Happening>): seq<Mark>
    decreases |log|
  {
    if log == [] then [] else Verdicts(rule, id, log[..|log| - 1]) + VerdictOf(rule, id, log[|log| - 1])
  }

  predicate LogOk(log: seq<Happening>) {
    forall i :: 0 <= i < |log| && log[i].Round? ==> SnapsOk(log[i].snaps)
  }

  lemma {:induction false} LogHistory(rules: seq<Rule>, log: seq<Happening>, rule: Rule, id: nat)
    requires RulesOk(rules) && LogOk(log) && rule in rules
    ensures History(Ops(rules, log), Fingerprint(rule.name, id)) == Verdicts(rule, id, log)
    decreases |log|
  {
    if log != [] {
      var n := |log| - 1;
      var fp := Fingerprint(rule.name, id);
      LogHistory(rules, log[..n], rule, id);
      HistoryAppend(Ops(rules, log[..n]), OpsOf(rules, log[n]), fp);
      match log[n] {
        case Round(snaps, now) => EvaluationHistory(rules, snaps, now, rule, id);
        case Ack(k) => assert History([Acknowledge(k)], fp) == History([], fp) + [];
        case Reboot => assert History([Restart], fp) == History([], fp) + [Boot];
      }
    }
  }

  predicate Follows(o: Op, rule: Rule, id: nat) {
    o.Observe? && o.fingerprint == Fingerprint(rule.name, id) ==> o.duration == rule.duration && o.severity == rule.severity
  }

  lemma {:induction false} JudgeAllUniform(rules: seq<Rule>, snap: Snapshot, now: int, rule: Rule, id: nat)
    requires RulesOk(rules) && Names(rules, rule)
    ensures forall o :: o in JudgeAll(rules, snap, now) ==> Follows(o, rule, id)
    decreases |rules|
  {
    if rules != [] {
      var n := |rules| - 1;
      JudgeAllUniform(rules[..n], snap, now, rule, id);
      if Fingerprint(rules[n].name, snap.resourceId) == Fingerprint(rule.name, id) {
        FingerprintInjective(rules[n].name, snap.resourceId, rule.name, id);
      }
    }
  }

  lemma {:induction false} EvaluationUniform(rules: seq<Rule>, snaps: seq<Snapshot>, now: int, rule: Rule, id: nat)
    requires RulesOk(rules) && rule in rules
    ensures forall o :: o in Evaluation(rules, snaps, now) ==> Follows(o, rule, id)
    decreases |snaps|
  {
    if snaps != [] {
      EvaluationUniform(rules, snaps[..|snaps| - 1], now, rule, id);
      JudgeAllUniform(rules, snaps[|snaps| - 1], now, rule, id);
    }
  }

  lemma {:induction false} LogUniform(rules: seq<Rule>, log: seq<Happening>, rule: Rule, id: nat)
    requires RulesOk(rules) && rule in rules
    ensures forall o :: o in Ops(rules, log) ==> Follows(o, rule, id)
    decreases |log|
  {
    if log != [] {
      var n := |log| - 1;
      LogUniform(rules, log[..n], rule, id);
      if log[n].Round? {
        EvaluationUniform(rules, log[n].snaps, log[n].now, rule, id);
      }
    }
  }

  /** The clock of consecutive evaluations does not go back, and the process is not restarted. */
  predicate OneRun(log: seq<Happening>) {
    && (forall i :: 0 <= i < |log| ==> !log[i].Reboot?)
    && (forall i, j :: 0 <= i < j < |log| && log[i].Round? && log[j].Round? ==> log[i].now <= log[j].now)
  }

  lemma {:induction false} VerdictTimes(rule: Rule, id: nat, log: seq<Happening>)
    requires OneRun(log)
    ensures OneProcess(Verdicts(rule, id, log))
    decreases |log|
  {
    if log != [] {
      var n := |log| - 1;
      VerdictTimes(rule, id, log[..n]);
      if log[n].Round? {
        var past := Verdicts(rule, id, log[..n]);
        forall m | m in past
          ensures m.at <= log[n].now
        {
          SomeRound(rule, id, log[..n], m);
        }
      }
    }
  }

  /** Every verdict of one run comes from an evaluation at its time. */
  lemma {:induction false} SomeRound(rule: Rule, id: nat, log: seq<Happening>, m: Mark)
    requires OneRun(log) && m in Verdicts(rule, id, log)
    ensures m.Judged? && exists i :: 0 <= i < |log| && log[i].Round? && log[i].now == m.at
    decreases |log|
  {
    var n := |log| - 1;
    if m in Verdicts(rule, id, log[..n]) {
      SomeRound(rule, id, log[..n], m);
      var i :| 0 <= i < n && log[..n][i].Round? && log[..n][i].now == m.at;
      assert log[i].Round?;
    } else {
      assert log[n].Round?;
    }
  }

  lemma RunIsUniform(rules: seq<Rule>, log: seq<Happening>, rule: Rule, id: nat)
    requires RulesOk(rules) && rule in rules
    ensures Uniform(Ops(rules, log), Fingerprint(rule.name, id), rule.duration)
  {
    var ops := Ops(rules, log);
    LogUniform(rules, log, rule, id);
    forall i | 0 <= i < |ops|
      ensures Follows(ops[i], rule, id)
    {
      assert ops[i] in ops;
    }
  }

  /** After any run of evaluations, acknowledgements and restarts, the alert of a rule on a host is
      open exactly when the snapshots say so: some evaluation found the metric beyond the threshold
      for the rule's duration within one process, and none has found it back since. Other rules, other
      hosts and missing metrics make no difference. */
  lemma RuleOpenIff(rules: seq<Rule>, log: seq<Happening>, rule: Rule, id: nat)
    requires RulesOk(rules) && LogOk(log) && rule in rules
    ensures HasOpen(Run(FRESH, Ops(rules, log)), Fingerprint(rule.name, id))
       <==> ShouldBeOpen(Verdicts(rule, id, log), rule.duration)
    ensures |EventsOf(Run(FRESH, Ops(rules, log)), Fingerprint(rule.name, id))|
         == Episodes(Verdicts(rule, id, log), rule.duration)
  {
    var ops, fp := Ops(rules, log), Fingerprint(rule.name, id);
    LogHistory(rules, log, rule, id);
    RunIsUniform(rules, log, rule, id);
    OpenIffSpecified(ops, fp, rule.duration);
    OneEventPerEpisode(ops, fp, rule.duration);
  }

  /** Within one process and a clock that does not go back, the alert is open exactly when the last
      verdict is true and the time since the start of the trailing run of true verdicts has reached
      the rule's duration; `i` is where that run starts. */
  lemma RuleOpenInOneRun(rules: seq<Rule>, log: seq<Happening>, rule: Rule, id: nat, i: int)
    requires RulesOk(rules) && LogOk(log) && OneRun(log) && rule in rules
    requires var h := Verdicts(rule, id, log);
             h != [] && (JudgedTrue(h[|h| - 1]) ==> RunOfTrue(h, i, |h| - 1))
    ensures var h := Verdicts(rule, id, log);
            HasOpen(Run(FRESH, Ops(rules, log)), Fingerprint(rule.name, id))
            <==> JudgedTrue(h[|h| - 1]) && (rule.duration <= 0 || h[|h| - 1].at - h[i].at >= rule.duration)
  {
    LogHistory(rules, log, rule, id);
    RunIsUniform(rules, log, rule, id);
    VerdictTimes(rule, id, log);
    OneProcessSpec(Ops(rules, log), Fingerprint(rule.name, id), rule.duration, i);
  }
}
