/** The alert engine object: its memory of first true evaluations and its event rows. */
module AlertObjects {
  import opened Options
  import opened AlertEngine
  import opened AlertRules
  import opened Sets
  import opened Text

  lemma LatestUnique(events: map<int, Event>, fingerprint: string, a: Option<int>, b: Option<int>)
    requires IsLatestOpen(events, fingerprint, a) && IsLatestOpen(events, fingerprint, b)
    ensures a == b
  {
  }

  lemma {:induction false} RunAppend(s: State, a: seq<Op>, b: seq<Op>)
    ensures Run(s, a + b) == Run(Run(s, a), b)
    decreases |b|
  {
    if b == [] {
      assert a + b == a;
    } else {
      var n := |b| - 1;
      RunAppend(s, a, b[..n]);
      assert (a + b)[..|a| + n] == a + b[..n] && (a + b)[|a| + n] == b[n];
    }
  }

  /** An open event of the fingerprint that carries this severity and value and was last seen now. */
  predicate IsReport(e: Event, fingerprint: string, severity: string, value: real, now: int) {
    && e.fingerprint == fingerprint && e.status in {Firing, Acknowledged}
    && e.severity == severity && e.value == value && e.lastSeenAt == now / 1_000_000_000
  }

  class Engine {
    const interval: int
    const rules: seq<Rule>
    var firstTrue: map<string, int>
    var events: map<int, Event>
    var lastId: int

    ghost function View(): State
      reads this
    {
      State(firstTrue, events, lastId)
    }

    /** The default interval is fifteen seconds. */
    constructor (seconds: int)
      ensures View() == FRESH && rules == DEFAULT_RULES
      ensures interval == (if seconds > 0 then seconds else 15) * 1_000_000_000
    {
      interval := (if seconds <= 0 then 15 else seconds) * SECOND;
      rules := DEFAULT_RULES;
      firstTrue, events, lastId := map[], map[], 0;
    }

    method DurationReached(key: string, now: int, duration: int) returns (reached: bool)
      modifies this`firstTrue
      ensures reached <==> DurationSatisfied(old(firstTrue), key, now, duration)
      ensures firstTrue == Noted(old(firstTrue), key, now, duration)
      ensures duration <= 0 ==> reached && firstTrue == old(firstTrue)
      ensures duration > 0 && key in old(firstTrue) ==> firstTrue == old(firstTrue) && (reached <==> now - old(firstTrue)[key] >= duration)
      ensures duration > 0 && key !in old(firstTrue) ==> !reached && firstTrue == old(firstTrue)[key := now]
    {
      if duration <= 0 {
        return true;
      }
      if key !in firstTrue {
        firstTrue := firstTrue[key := now];
        return false;
      }
      return now - firstTrue[key] >= duration;
    }

    method ClearDuration(key: string)
      modifies this`firstTrue
      ensures firstTrue == old(firstTrue) - {key}
    {
      firstTrue := firstTrue - {key};
    }

    /** SELECT id ... status IN ('FIRING','ACKNOWLEDGED') ORDER BY id DESC LIMIT 1. */
    method SelectLatestOpen(fingerprint: string) returns (found: Option<int>)
      ensures IsLatestOpen(events, fingerprint, found)
    {
      var open := set id | id in events && events[id].fingerprint == fingerprint && IsOpen(events[id]);
      assert open == OpenIds(events, fingerprint);
      if open == {} {
        return None;
      }
      GreatestExists(open);
      var id :| id in open && forall j :: j in open ==> j <= id;
      return Some(id);
    }

    /** The open event with the greatest id is refreshed; if there is none, a firing one is added. */
    method UpsertFiring(o: Op)
      requires o.Observe?
      modifies this`events, this`lastId
      ensures View() == Upserted(old(View()), o)
      ensures var open := set id | id in old(events) && old(events)[id].fingerprint == o.fingerprint
                                   && old(events)[id].status in {Firing, Acknowledged};
              if open == {} then
                && lastId == old(lastId) + 1
                && events == old(events)[lastId := Event(o.fingerprint, Firing, o.severity, o.value,
                                                         o.now / 1_000_000_000, o.now / 1_000_000_000, None)]
              else
                && lastId == old(lastId)
                && exists id :: id in open && (forall j :: j in open ==> j <= id)
                     && events == old(events)[id := old(events)[id].(lastSeenAt := o.now / 1_000_000_000, severity := o.severity, value := o.value)]
      ensures exists id :: id in events && IsReport(events[id], o.fingerprint, o.severity, o.value, o.now)
    {
      ghost var open := set id | id in events && events[id].fingerprint == o.fingerprint && events[id].status in {Firing, Acknowledged};
      assert forall id :: id in open <==> id in OpenIds(events, o.fingerprint);
      assert open == OpenIds(events, o.fingerprint);
      var found := SelectLatestOpen(o.fingerprint);
      LatestUnique(events, o.fingerprint, found, LatestOpen(events, o.fingerprint));
      match found {
        case Some(id) =>
          var e := events[id];
          events := events[id := e.(lastSeenAt := o.now / SECOND, severity := o.severity, value := o.value)];
          assert id in open;
          assert IsReport(events[id], o.fingerprint, o.severity, o.value, o.now);
        case None =>
          lastId := lastId + 1;
          events := events[lastId := Event(o.fingerprint, Firing, o.severity, o.value, o.now / SECOND, o.now / SECOND, None)];
          assert IsReport(events[lastId], o.fingerprint, o.severity, o.value, o.now);
      }
    }

    method Resolve(fingerprint: string, now: int)
      modifies this`events
      ensures View() == ResolvedAll(old(View()), fingerprint, now)
      ensures events.Keys == old(events).Keys
      ensures forall id :: id in events ==>
                events[id] == if old(events)[id].fingerprint == fingerprint && old(events)[id].status in {Firing, Acknowledged}
                              then old(events)[id].(status := Resolved, resolvedAt := Some(now / 1_000_000_000), lastSeenAt := now / 1_000_000_000)
                              else old(events)[id]
    {
      ghost var before := events;
      events := map id | id in events ::
        if events[id].fingerprint == fingerprint && (events[id].status == Firing || events[id].status == Acknowledged)
        then events[id].(status := Resolved, resolvedAt := Some(now / SECOND), lastSeenAt := now / SECOND)
        else events[id];
      ghost var expected := ResolvedAll(old(View()), fingerprint, now).events;
      assert forall id :: id in before ==> events[id] == expected[id];
      assert events.Keys == before.Keys && expected.Keys == before.Keys;
      assert events == expected;
    }

    /** Fails, changing nothing, unless the event is firing. */
    method Acknowledge(id: int) returns (ok: bool)
      modifies this`events
      ensures View() == AcknowledgedEvent(old(View()), id)
      ensures ok <==> id in old(events) && old(events)[id].status == Firing
      ensures events == if ok then old(events)[id := old(events)[id].(status := Acknowledged)] else old(events)
    {
      ok := id in events && events[id].status == Firing;
      if ok {
        events := events[id := events[id].(status := Acknowledged)];
      }
    }

    /** One rule on one host. */
    method EvaluateRule(rule: Rule, snap: Snapshot, now: int)
      modifies this
      ensures View() == Run(old(View()), Judge(rule, snap, now))
      ensures rule.metric != "heartbeat_age_seconds" && (rule.metric !in snap.payload || snap.payload[rule.metric] == NotNumeric) ==>
                View() == old(View())
      ensures rule.metric != "heartbeat_age_seconds" && rule.metric in snap.payload && snap.payload[rule.metric].Number? ==>
                var x, key := snap.payload[rule.metric].value, rule.name + ":host:" + Decimal(snap.resourceId);
                var holds := (rule.operator == ">" && x > rule.threshold) || (rule.operator == ">=" && x >= rule.threshold)
                             || (rule.operator == "<" && x < rule.threshold) || (rule.operator == "<=" && x <= rule.threshold)
                             || (rule.operator == "==" && x == rule.threshold) || (rule.operator == "!=" && x != rule.threshold);
                && (!holds ==> key !in firstTrue && forall id :: id in events && events[id].fingerprint == key ==> events[id].status == Resolved)
                && (holds && rule.duration <= 0 ==>
                      exists id :: id in events && IsReport(events[id], key, rule.severity, x, now))
    {
      var value := MetricValue(rule.metric, snap, now);
      if value == None {
        return;
      }
      var fingerprint := rule.name + ":host:" + Decimal(snap.resourceId);
      var holds := Compare(value.value, rule.operator, rule.threshold);
      var o := Observe(fingerprint, now, holds, rule.duration, rule.severity, value.value);
      assert Judge(rule, snap, now) == [o];
      assert [o][..0] == [] && Run(old(View()), [o]) == Apply(Run(old(View()), []), o);
      if holds {
        var reached := DurationReached(fingerprint, now, rule.duration);
        if !reached {
          return;
        }
        UpsertFiring(o);
      } else {
        ClearDuration(fingerprint);
        Resolve(fingerprint, now);
      }
    }

    /** The inner loop: every rule on one host. */
    method EvaluateHost(snap: Snapshot, now: int)
      modifies this
      ensures View() == Run(old(View()), JudgeAll(rules, snap, now))
    {
      ghost var start := View();
      assert rules[..|rules|] == rules;
      for k := 0 to |rules|
        invariant View() == Run(start, JudgeAll(rules[..k], snap, now))
      {
        EvaluateRule(rules[k], snap, now);
        RunAppend(start, JudgeAll(rules[..k], snap, now), Judge(rules[k], snap, now));
        assert rules[..k + 1][..k] == rules[..k];
      }
    }

    /** Every rule on every host of the latest snapshots. */
    method EvaluateOnce(snaps: seq<Snapshot>, now: int)
      modifies this
      ensures View() == Run(old(View()), Evaluation(rules, snaps, now))
    {
      ghost var start := View();
      assert snaps[..|snaps|] == snaps;
      for i := 0 to |snaps|
        invariant View() == Run(start, Evaluation(rules, snaps[..i], now))
      {
        EvaluateHost(snaps[i], now);
        RunAppend(start, Evaluation(rules, snaps[..i], now), JudgeAll(rules, snaps[i], now));
        assert snaps[..i + 1][..i] == snaps[..i];
      }
    }
  }
}
