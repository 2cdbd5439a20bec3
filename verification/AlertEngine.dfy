/** The alert engine: an incremental "true for at least this long" detector with de-duplication of
    events, against a specification over the whole evaluation history. Clock values are nanoseconds;
    stored timestamps are whole seconds. */
module AlertEngine {
  import opened Options
  import opened Sets

  const SECOND := 1_000_000_000

  datatype Status = Firing | Acknowledged | Resolved

  datatype Event = Event(
    fingerprint: string, status: Status, severity: string, value: real,
    startedAt: int, lastSeenAt: int, resolvedAt: Option<int>)

  /** `firstTrue` lives in memory, the events in the database. */
  datatype State = State(firstTrue: map<string, int>, events: map<int, Event>, lastId: int)

  const FRESH := State(map[], map[], 0)

  /** One rule judged on one resource, or an operator's acknowledgement, or a restart of the process. */
  datatype Op =
    | Observe(fingerprint: string, now: int, holds: bool, duration: int, severity: string, value: real)
    | Acknowledge(id: int)
    | Restart

  // ---------------------------------------------------------------------------
  // One observation
  // ---------------------------------------------------------------------------

  predicate IsOpen(e: Event) {
    e.status == Firing || e.status == Acknowledged
  }

  function OpenIds(events: map<int, Event>, fingerprint: string): set<int> {
    set id | id in events && events[id].fingerprint == fingerprint && IsOpen(events[id])
  }

  /** The SELECT: the open event with the greatest id, if any. */
  ghost predicate IsLatestOpen(events: map<int, Event>, fingerprint: string, found: Option<int>) {
    match found
    case None => OpenIds(events, fingerprint) == {}
    case Some(id) => id in OpenIds(events, fingerprint) && forall j :: j in OpenIds(events, fingerprint) ==> j <= id
  }

  ghost function LatestOpen(events: map<int, Event>, fingerprint: string): (found: Option<int>)
    ensures IsLatestOpen(events, fingerprint, found)
  {
    var ids := OpenIds(events, fingerprint);
    if ids == {} then None
    else
      GreatestExists(ids);
      var id :| id in ids && forall j :: j in ids ==> j <= id;
      Some(id)
  }

  function NewEvent(o: Op): Event
    requires o.Observe?
  {
    Event(o.fingerprint, Firing, o.severity, o.value, o.now / SECOND, o.now / SECOND, None)
  }

  function Seen(e: Event, o: Op): Event
    requires o.Observe?
  {
    e.(lastSeenAt := o.now / SECOND, severity := o.severity, value := o.value)
  }

  /** The UPDATE of the selected event, or the INSERT when none was selected. */
  function Written(s: State, o: Op, found: Option<int>): State
    requires o.Observe?
  {
    match found
    case Some(id) =>
      if id in s.events then s.(events := s.events[id := Seen(s.events[id], o)]) else s
    case None => s.(events := s.events[s.lastId + 1 := NewEvent(o)], lastId := s.lastId + 1)
  }

  ghost function Upserted(s: State, o: Op): State
    requires o.Observe?
  {
    Written(s, o, LatestOpen(s.events, o.fingerprint))
  }

  function ResolvedEvent(e: Event, now: int): Event {
    e.(status := Resolved, resolvedAt := Some(now / SECOND), lastSeenAt := now / SECOND)
  }

  function ResolvedAll(s: State, fingerprint: string, now: int): State {
    s.(events := map id | id in s.events ::
         if s.events[id].fingerprint == fingerprint && IsOpen(s.events[id]) then ResolvedEvent(s.events[id], now)
         else s.events[id])
  }

  predicate DurationSatisfied(firstTrue: map<string, int>, key: string, now: int, duration: int) {
    duration <= 0 || (key in firstTrue && now - firstTrue[key] >= duration)
  }

  /** The map after the duration check: the first true evaluation is remembered. */
  function Noted(firstTrue: map<string, int>, key: string, now: int, duration: int): map<string, int> {
    if duration <= 0 || key in firstTrue then firstTrue else firstTrue[key := now]
  }

  ghost function Observed(s: State, o: Op): State
    requires o.Observe?
  {
    if o.holds then
      var t := s.(firstTrue := Noted(s.firstTrue, o.fingerprint, o.now, o.duration));
      if DurationSatisfied(s.firstTrue, o.fingerprint, o.now, o.duration) then Upserted(t, o) else t
    else
      ResolvedAll(s.(firstTrue := s.firstTrue - {o.fingerprint}), o.fingerprint, o.now)
  }

  predicate CanAcknowledge(s: State, id: int) {
    id in s.events && s.events[id].status == Firing
  }

  function AcknowledgedEvent(s: State, id: int): State {
    if CanAcknowledge(s, id) then s.(events := s.events[id := s.events[id].(status := Acknowledged)]) else s
  }

  ghost function Apply(s: State, o: Op): State {
    match o
    case Observe(_, _, _, _, _, _) => Observed(s, o)
    case Acknowledge(id) => AcknowledgedEvent(s, id)
    case Restart => s.(firstTrue := map[])
  }

  ghost function Run(s: State, ops: seq<Op>): State
    decreases |ops|
  {
    if ops == [] then s else Apply(Run(s, ops[..|ops| - 1]), ops[|ops| - 1])
  }

  // ---------------------------------------------------------------------------
  // The history of one fingerprint, and the specification over it
  // ---------------------------------------------------------------------------

  /** What happened to one fingerprint: evaluations with their outcome, and process starts. */
  datatype Mark = Judged(at: int, holds: bool) | Boot

  function Marks(o: Op, fingerprint: string): seq<Mark> {
    match o
    case Observe(fp, now, holds, _, _, _) => if fp == fingerprint then [Judged(now, holds)] else []
    case Acknowledge(_) => []
    case Restart => [Boot]
  }

  function History(ops: seq<Op>, fingerprint: string): seq<Mark>
    decreases |ops|
  {
    if ops == [] then []
    else History(ops[..|ops| - 1], fingerprint) + Marks(ops[|ops| - 1], fingerprint)
  }

  predicate JudgedTrue(m: Mark) { m.Judged? && m.holds }

  /** The evaluations i..j are all true, in one process, and the run they belong to starts at i. */
  ghost predicate RunOfTrue(h: seq<Mark>, i: int, j: int) {
    && 0 <= i <= j < |h|
    && (forall k :: i <= k <= j ==> JudgedTrue(h[k]))
    && (i == 0 || !JudgedTrue(h[i - 1]))
  }

  /** Evaluation j finds the condition true for at least `duration`. */
  ghost predicate DetectedAt(h: seq<Mark>, j: int, duration: int) {
    && 0 <= j < |h| && JudgedTrue(h[j])
    && (duration <= 0 || exists i :: RunOfTrue(h, i, j) && h[j].at - h[i].at >= duration)
  }

  predicate NoFalseAfter(h: seq<Mark>, j: int) {
    forall k :: 0 <= k && j < k < |h| ==> (h[k].Judged? ==> h[k].holds)
  }

  /** The specification: some evaluation detected the condition, and none has found it false since. */
  ghost predicate ShouldBeOpen(h: seq<Mark>, duration: int) {
    exists j :: DetectedAt(h, j, duration) && NoFalseAfter(h, j)
  }

  /** The start time of the current run of true evaluations. */
  function RunStart(h: seq<Mark>): Option<int> {
    if h == [] || !JudgedTrue(h[|h| - 1]) then None
    else
      var earlier := RunStart(h[..|h| - 1]);
      if earlier.Some? then earlier else Some(h[|h| - 1].at)
  }

  /** The specification, read one mark at a time. */
  ghost predicate OpenNow(h: seq<Mark>, duration: int) {
    h != [] &&
    var past := h[..|h| - 1];
    match h[|h| - 1]
    case Boot => OpenNow(past, duration)
    case Judged(at, holds) =>
      holds && (OpenNow(past, duration) || duration <= 0 || (RunStart(past).Some? && at - RunStart(past).value >= duration))
  }

  /** The run that ends the history starts where `RunStart` says. */
  lemma {:induction false} RunStartIsRun(h: seq<Mark>) returns (i: int)
    requires RunStart(h).Some?
    ensures RunOfTrue(h, i, |h| - 1) && h[i].at == RunStart(h).value
  {
    var n := |h| - 1;
    var past := h[..n];
    if RunStart(past).Some? {
      i := RunStartIsRun(past);
      assert forall k :: 0 <= k < n ==> past[k] == h[k];
    } else {
      i := n;
      if n > 0 {
        assert past[n - 1] == h[n - 1];
      }
    }
  }

  lemma {:induction false} RunIsUnique(h: seq<Mark>, i: int, i': int, j: int)
    requires RunOfTrue(h, i, j) && RunOfTrue(h, i', j)
    ensures i == i'
  {
  }

  lemma DetectedAtLast(h: seq<Mark>, duration: int)
    requires h != [] && JudgedTrue(h[|h| - 1])
    ensures DetectedAt(h, |h| - 1, duration)
       <==> duration <= 0 || (RunStart(h[..|h| - 1]).Some? && h[|h| - 1].at - RunStart(h[..|h| - 1]).value >= duration)
  {
    var n := |h| - 1;
    assert RunStart(h).Some?;
    var i := RunStartIsRun(h);
    forall i' | RunOfTrue(h, i', n)
      ensures i' == i
    {
      RunIsUnique(h, i, i', n);
    }
    assert duration > 0 ==> (DetectedAt(h, n, duration) <==> h[n].at - h[i].at >= duration);
  }

  lemma DetectedInPrefix(h: seq<Mark>, n: int, j: int, duration: int)
    requires 0 <= j < n <= |h|
    ensures DetectedAt(h[..n], j, duration) <==> DetectedAt(h, j, duration)
  {
    var p := h[..n];
    assert forall k :: 0 <= k < n ==> p[k] == h[k];
    forall i
      ensures RunOfTrue(p, i, j) <==> RunOfTrue(h, i, j)
    {
    }
  }

  /** The mark-by-mark reading is the specification. */
  lemma {:induction false} OpenNowIsSpec(h: seq<Mark>, duration: int)
    ensures OpenNow(h, duration) <==> ShouldBeOpen(h, duration)
    decreases |h|
  {
    if h != [] {
      var n := |h| - 1;
      var past := h[..n];
      OpenNowIsSpec(past, duration);
      forall j | 0 <= j < n
        ensures DetectedAt(past, j, duration) <==> DetectedAt(h, j, duration)
        ensures NoFalseAfter(h, j) <==> NoFalseAfter(past, j) && (h[n].Judged? ==> h[n].holds)
      {
        DetectedInPrefix(h, n, j, duration);
        assert forall k :: 0 <= k < n ==> past[k] == h[k];
      }
      if JudgedTrue(h[n]) {
        DetectedAtLast(h, duration);
      }
      assert NoFalseAfter(h, n);
      SpecSplits(h, duration);
    }
  }

  lemma SpecLooksBack(h: seq<Mark>, duration: int, j: int)
    requires h != [] && DetectedAt(h, j, duration) && NoFalseAfter(h, j) && j < |h| - 1
    ensures ShouldBeOpen(h[..|h| - 1], duration) && (h[|h| - 1].Judged? ==> h[|h| - 1].holds)
  {
    var past := h[..|h| - 1];
    assert forall k :: 0 <= k < |past| ==> past[k] == h[k];
    DetectedInPrefix(h, |past|, j, duration);
    assert NoFalseAfter(past, j);
  }

  lemma SpecCarriesOn(h: seq<Mark>, duration: int)
    requires h != [] && ShouldBeOpen(h[..|h| - 1], duration) && (h[|h| - 1].Judged? ==> h[|h| - 1].holds)
    ensures ShouldBeOpen(h, duration)
  {
    var past := h[..|h| - 1];
    assert forall k :: 0 <= k < |past| ==> past[k] == h[k];
    var j :| DetectedAt(past, j, duration) && NoFalseAfter(past, j);
    DetectedInPrefix(h, |past|, j, duration);
    assert NoFalseAfter(h, j);
  }

  /** The specification holds through an evaluation of the past or through the last one. */
  lemma SpecSplits(h: seq<Mark>, duration: int)
    requires h != []
    ensures ShouldBeOpen(h, duration) <==>
            DetectedAt(h, |h| - 1, duration)
            || (ShouldBeOpen(h[..|h| - 1], duration) && (h[|h| - 1].Judged? ==> h[|h| - 1].holds))
  {
    var n := |h| - 1;
    if ShouldBeOpen(h, duration) {
      var j :| DetectedAt(h, j, duration) && NoFalseAfter(h, j);
      if j < n {
        SpecLooksBack(h, duration, j);
      }
    }
    if DetectedAt(h, n, duration) {
      assert NoFalseAfter(h, n);
    }
    if ShouldBeOpen(h[..n], duration) && (h[n].Judged? ==> h[n].holds) {
      SpecCarriesOn(h, duration);
    }
  }
}
