/** The metric tables: the latest snapshot of each resource, and one row per resource and time bucket
    at three widths. Clock values are nanoseconds; the tables hold whole seconds. */
module Metrics {
  import opened Options
  import opened Rfc3339
  import opened Upserts

  const SECOND := 1_000_000_000

  datatype Granularity = FiveMinutes | Hour | Day

  const ALL_GRANULARITIES := {FiveMinutes, Hour, Day}

  function Width(g: Granularity): nat {
    match g
    case FiveMinutes => 300
    case Hour => 3600
    case Day => 86400
  }

  datatype Resource = Resource(kind: string, id: int)

  /** The primary key of a bucket table. */
  datatype Cell = Cell(resource: Resource, bucket: nat)

  datatype Sample = Sample(collectedAt: nat, payload: string)

  datatype Tables = Tables(latest: map<Resource, Sample>, fiveMinutes: map<Cell, string>, hours: map<Cell, string>, days: map<Cell, string>)

  const EMPTY := Tables(map[], map[], map[], map[])

  function Rows(t: Tables, g: Granularity): map<Cell, string> {
    match g
    case FiveMinutes => t.fiveMinutes
    case Hour => t.hours
    case Day => t.days
  }

  /** One call of Put: `at` is None for the zero time, `payload` is None when it cannot be encoded. */
  datatype Call = Call(resource: Resource, at: Option<nat>, now: nat, payload: Option<string>)

  predicate Accepted(c: Call) {
    c.resource.kind != "" && c.resource.id > 0 && c.payload.Some?
  }

  function TimeOf(c: Call): nat {
    match c.at
    case Some(t) => t
    case None => c.now
  }

  // ---------------------------------------------------------------------------
  // Buckets
  // ---------------------------------------------------------------------------

  function Truncated(t: nat, d: nat): nat
    requires d > 0
  {
    t - t % d
  }

  function MidnightOf(t: nat): nat {
    var c := CivilOf(t);
    Instant(c.(hour := 0, minute := 0, second := 0))
  }

  /** The bucket's start in seconds: two widths by rounding down, the day by its calendar date. */
  function Bucket(g: Granularity, at: nat): nat {
    match g
    case FiveMinutes => Truncated(at, 300 * SECOND) / SECOND
    case Hour => Truncated(at, 3600 * SECOND) / SECOND
    case Day => MidnightOf(at / SECOND)
  }

  lemma TruncateSeconds(at: nat, w: nat)
    requires w == 300 || w == 3600
    ensures Truncated(at, w * SECOND) / SECOND == Truncated(at / SECOND, w)
  {
    var q, r := at / (w * SECOND), at % (w * SECOND);
    assert at == q * (w * SECOND) + r;
    assert at / SECOND == q * w + r / SECOND;
    assert 0 <= r / SECOND < w;
  }

  lemma MidnightIsTruncation(t: nat)
    ensures MidnightOf(t) == Truncated(t, DAY)
  {
    var c := CivilOf(t);
    SecondOfDayRange(c);
    assert t == DayNumber(c) * DAY + SecondOfDay(c);
  }

  /** Calendar dates included, a bucket is the time rounded down to a multiple of the width. */
  lemma BucketIsTruncation(g: Granularity, at: nat)
    ensures Bucket(g, at) == Truncated(at / SECOND, Width(g))
  {
    match g {
      case FiveMinutes => TruncateSeconds(at, 300);
      case Hour => TruncateSeconds(at, 3600);
      case Day => MidnightIsTruncation(at / SECOND);
    }
  }

  // ---------------------------------------------------------------------------
  // One call, and any log of calls
  // ---------------------------------------------------------------------------

  function CellOf(c: Call, g: Granularity): Cell {
    Cell(c.resource, Bucket(g, TimeOf(c)))
  }

  function LatestWrite(c: Call): Write<Resource, Sample> {
    if Accepted(c) then Write(c.resource, Sample(TimeOf(c) / SECOND, c.payload.value)) else Skip
  }

  function BucketWrite(c: Call, g: Granularity): Write<Cell, string> {
    if Accepted(c) then Write(CellOf(c, g), c.payload.value) else Skip
  }

  function WithRows(t: Tables, g: Granularity, rows: map<Cell, string>): Tables {
    match g
    case FiveMinutes => t.(fiveMinutes := rows)
    case Hour => t.(hours := rows)
    case Day => t.(days := rows)
  }

  /** One transaction; a refused call writes nothing. */
  function Stored(t: Tables, c: Call): Tables {
    Tables(Written(t.latest, LatestWrite(c)), Written(t.fiveMinutes, BucketWrite(c, FiveMinutes)),
           Written(t.hours, BucketWrite(c, Hour)), Written(t.days, BucketWrite(c, Day)))
  }

  function Replay(log: seq<Call>): Tables
    decreases |log|
  {
    if log == [] then EMPTY else Stored(Replay(log[..|log| - 1]), log[|log| - 1])
  }

  function BucketWrites(log: seq<Call>, g: Granularity): seq<Write<Cell, string>> {
    seq(|log|, i requires 0 <= i < |log| => BucketWrite(log[i], g))
  }

  function LatestWrites(log: seq<Call>): seq<Write<Resource, Sample>> {
    seq(|log|, i requires 0 <= i < |log| => LatestWrite(log[i]))
  }

  lemma {:induction false} ReplayIsTable(log: seq<Call>, g: Granularity)
    ensures Replay(log).latest == Table(LatestWrites(log))
    ensures Rows(Replay(log), g) == Table(BucketWrites(log, g))
    decreases |log|
  {
    if log != [] {
      var n := |log| - 1;
      ReplayIsTable(log[..n], g);
      assert BucketWrites(log, g)[..n] == BucketWrites(log[..n], g);
      assert LatestWrites(log)[..n] == LatestWrites(log[..n]);
    }
  }

  predicate PutsIn(c: Call, g: Granularity, cell: Cell) {
    Accepted(c) && CellOf(c, g) == cell
  }

  /** Call i is the last of the log, in call order, that falls into the cell. */
  predicate LastIn(log: seq<Call>, i: int, g: Granularity, cell: Cell) {
    && 0 <= i < |log| && PutsIn(log[i], g, cell)
    && forall j :: i < j < |log| ==> !PutsIn(log[j], g, cell)
  }

  predicate PutsFor(c: Call, r: Resource) {
    Accepted(c) && c.resource == r
  }

  predicate LastOf(log: seq<Call>, i: int, r: Resource) {
    && 0 <= i < |log| && PutsFor(log[i], r)
    && forall j :: i < j < |log| ==> !PutsFor(log[j], r)
  }

  lemma LastInIsLast(log: seq<Call>, i: int, g: Granularity, cell: Cell)
    ensures LastIn(log, i, g, cell) <==> IsLast(BucketWrites(log, g), i, cell)
  {
    var ws := BucketWrites(log, g);
    forall j | 0 <= j < |log|
      ensures Writes(ws[j], cell) <==> PutsIn(log[j], g, cell)
    {
    }
  }

  /** Every bucket table is determined by the log: a row exists exactly when some call fell into its
      bucket, and it holds the payload of the last such call, whatever the times of the calls. */
  lemma BucketIsLastPut(log: seq<Call>, g: Granularity, cell: Cell)
    ensures cell in Rows(Replay(log), g) <==> exists i :: LastIn(log, i, g, cell)
    ensures forall i :: LastIn(log, i, g, cell) ==>
              cell in Rows(Replay(log), g) && Rows(Replay(log), g)[cell] == log[i].payload.value
  {
    ReplayIsTable(log, g);
    LastWriteWins(BucketWrites(log, g), cell);
    forall i
      ensures LastIn(log, i, g, cell) <==> IsLast(BucketWrites(log, g), i, cell)
    {
      LastInIsLast(log, i, g, cell);
    }
  }

  /** The latest table holds the last accepted call of each resource. */
  lemma LatestIsLastPut(log: seq<Call>, r: Resource)
    ensures r in Replay(log).latest <==> exists i :: LastOf(log, i, r)
    ensures forall i :: LastOf(log, i, r) ==>
              r in Replay(log).latest && Replay(log).latest[r] == Sample(TimeOf(log[i]) / SECOND, log[i].payload.value)
  {
    ReplayIsTable(log, Day);
    var ws := LatestWrites(log);
    LastWriteWins(ws, r);
    assert forall j :: 0 <= j < |log| ==> (Writes(ws[j], r) <==> PutsFor(log[j], r));
    assert forall i :: LastOf(log, i, r) <==> IsLast(ws, i, r);
  }

  // ---------------------------------------------------------------------------
  // The tables agree with each other
  // ---------------------------------------------------------------------------

  /** The wider bucket around a narrower one. */
  predicate Inside(fine: Cell, coarse: Cell, g: Granularity) {
    fine.resource == coarse.resource && coarse.bucket <= fine.bucket < coarse.bucket + Width(g)
  }

  predicate Narrower(f: Granularity, g: Granularity) {
    (f == FiveMinutes && g != FiveMinutes) || (f == Hour && g == Day)
  }

  lemma RoundTwice(s: nat, f: Granularity, g: Granularity)
    requires Narrower(f, g)
    ensures Truncated(s, Width(g)) <= Truncated(s, Width(f)) < Truncated(s, Width(g)) + Width(g)
    ensures Truncated(Truncated(s, Width(f)), Width(g)) == Truncated(s, Width(g))
  {
    match (f, g) {
      case (FiveMinutes, Hour) => FiveMinutesInHour(s);
      case (FiveMinutes, Day) => FiveMinutesInDay(s);
      case (Hour, Day) => HourInDay(s);
    }
  }

  lemma FiveMinutesInHour(s: nat)
    ensures Truncated(s, 3600) <= Truncated(s, 300) < Truncated(s, 3600) + 3600
    ensures Truncated(Truncated(s, 300), 3600) == Truncated(s, 3600)
  {
    assert s / 300 == 12 * (s / 3600) + s % 3600 / 300;
  }

  lemma FiveMinutesInDay(s: nat)
    ensures Truncated(s, 86400) <= Truncated(s, 300) < Truncated(s, 86400) + 86400
    ensures Truncated(Truncated(s, 300), 86400) == Truncated(s, 86400)
  {
    assert s / 300 == 288 * (s / 86400) + s % 86400 / 300;
  }

  lemma HourInDay(s: nat)
    ensures Truncated(s, 86400) <= Truncated(s, 3600) < Truncated(s, 86400) + 86400
    ensures Truncated(Truncated(s, 3600), 86400) == Truncated(s, 86400)
  {
    assert s / 3600 == 24 * (s / 86400) + s % 86400 / 3600;
  }

  lemma SameWindow(a: nat, b: nat, d: nat)
    requires d == 300 || d == 3600 || d == 86400
    requires b % d == 0 && b <= a < b + d
    ensures Truncated(a, d) == b
  {
  }

  /** A call falls into a wide cell exactly when its narrow cell lies inside that cell. */
  lemma CellsNest(c: Call, f: Granularity, g: Granularity, coarse: Cell)
    requires Narrower(f, g) && coarse.bucket % Width(g) == 0
    ensures CellOf(c, g) == coarse <==> Inside(CellOf(c, f), coarse, g)
  {
    var s := TimeOf(c) / SECOND;
    BucketIsTruncation(f, TimeOf(c));
    BucketIsTruncation(g, TimeOf(c));
    RoundTwice(s, f, g);
    if Inside(CellOf(c, f), coarse, g) {
      SameWindow(Truncated(s, Width(f)), coarse.bucket, Width(g));
    }
  }

  lemma BucketsGrow(g: Granularity, a: nat, b: nat)
    requires a <= b
    ensures Bucket(g, a) <= Bucket(g, b)
  {
    BucketIsTruncation(g, a);
    BucketIsTruncation(g, b);
    TruncatedGrows(a / SECOND, b / SECOND, g);
  }

  lemma TruncatedGrows(a: nat, b: nat, g: Granularity)
    requires a <= b
    ensures Truncated(a, Width(g)) <= Truncated(b, Width(g))
  {
  }

  /** The narrow row that a wide row must agree with: the latest inside its bucket. */
  ghost predicate IsLatestInside(t: Tables, f: Granularity, fine: Cell, g: Granularity, coarse: Cell) {
    && fine in Rows(t, f) && Inside(fine, coarse, g)
    && forall other :: other in Rows(t, f) && Inside(other, coarse, g) ==> other.bucket <= fine.bucket
  }

  predicate TimesOrdered(log: seq<Call>) {
    forall i, j :: 0 <= i < j < |log| && Accepted(log[i]) && Accepted(log[j]) && log[i].resource == log[j].resource ==>
      TimeOf(log[i]) <= TimeOf(log[j])
  }

  /** When each resource is reported in time order, every hour row is the latest five-minute row inside
      it, every day row is the latest hour row inside it, and a row exists exactly when such a row does. */
  lemma WideRowIsLatestNarrowRow(log: seq<Call>, f: Granularity, g: Granularity, fine: Cell, coarse: Cell)
    requires TimesOrdered(log) && Narrower(f, g)
    requires coarse.bucket % Width(g) == 0 && IsLatestInside(Replay(log), f, fine, g, coarse)
    ensures coarse in Rows(Replay(log), g) && Rows(Replay(log), g)[coarse] == Rows(Replay(log), f)[fine]
  {
    BucketIsLastPut(log, f, fine);
    BucketIsLastPut(log, g, coarse);
    var k :| LastIn(log, k, f, fine);
    CellsNest(log[k], f, g, coarse);
    forall j | k < j < |log|
      ensures !PutsIn(log[j], g, coarse)
    {
      if PutsIn(log[j], g, coarse) {
        CellsNest(log[j], f, g, coarse);
        RowExists(log, j, f);
        BucketsGrow(f, TimeOf(log[k]), TimeOf(log[j]));
      }
    }
    assert LastIn(log, k, g, coarse);
  }

  lemma RowExists(log: seq<Call>, j: int, g: Granularity)
    requires 0 <= j < |log| && Accepted(log[j])
    ensures CellOf(log[j], g) in Rows(Replay(log), g)
  {
    var cell := CellOf(log[j], g);
    ReplayIsTable(log, g);
    LastWriteWins(BucketWrites(log, g), cell);
    var i := LastExists(BucketWrites(log, g), j, cell);
  }

  /** Conversely every wide row has narrow rows inside it, so it has a latest one. */
  lemma WideRowHasNarrowRow(log: seq<Call>, f: Granularity, g: Granularity, coarse: Cell) returns (fine: Cell)
    requires Narrower(f, g) && coarse in Rows(Replay(log), g)
    ensures coarse.bucket % Width(g) == 0
    ensures fine in Rows(Replay(log), f) && Inside(fine, coarse, g)
  {
    BucketIsLastPut(log, g, coarse);
    var i :| LastIn(log, i, g, coarse);
    fine := CellOf(log[i], f);
    BucketIsTruncation(g, TimeOf(log[i]));
    Multiple(TimeOf(log[i]) / SECOND, g);
    CellsNest(log[i], f, g, coarse);
    RowExists(log, i, f);
  }

  lemma Multiple(s: nat, g: Granularity)
    ensures Truncated(s, Width(g)) % Width(g) == 0
  {
    match g {
      case FiveMinutes => assert s - s % 300 == 300 * (s / 300);
      case Hour => assert s - s % 3600 == 3600 * (s / 3600);
      case Day => assert s - s % 86400 == 86400 * (s / 86400);
    }
  }

  lemma OneLatestInside(t: Tables, f: Granularity, fine: Cell, fine': Cell, g: Granularity, coarse: Cell)
    requires IsLatestInside(t, f, fine, g, coarse) && IsLatestInside(t, f, fine', g, coarse)
    ensures fine == fine'
  {
  }

  /** The wide row exists and equals the latest narrow row inside it. */
  ghost predicate Agrees(t: Tables, f: Granularity, g: Granularity, coarse: Cell) {
    coarse in Rows(t, g) && exists fine :: IsLatestInside(t, f, fine, g, coarse) && Rows(t, g)[coarse] == Rows(t, f)[fine]
  }

  /** For any log: the last call of the wide bucket and the last call of its latest narrow bucket are
      the same call exactly when the former falls into that narrow bucket; so when two different calls
      do not happen to carry one payload, that is exactly when the two rows agree. */
  lemma RowsAgreeIff(log: seq<Call>, f: Granularity, g: Granularity, fine: Cell, coarse: Cell, j: int, k: int)
    requires Narrower(f, g) && coarse.bucket % Width(g) == 0 && IsLatestInside(Replay(log), f, fine, g, coarse)
    requires LastIn(log, j, f, fine) && LastIn(log, k, g, coarse)
    ensures CellOf(log[k], f) == fine <==> j == k
    ensures log[j].payload != log[k].payload || j == k ==>
              (Agrees(Replay(log), f, g, coarse) <==> CellOf(log[k], f) == fine)
  {
    BucketIsLastPut(log, f, fine);
    BucketIsLastPut(log, g, coarse);
    CellsNest(log[j], f, g, coarse);
    assert PutsIn(log[j], g, coarse);
    assert CellOf(log[k], f) == fine ==> PutsIn(log[k], f, fine);
    forall other | IsLatestInside(Replay(log), f, other, g, coarse)
      ensures other == fine
    {
      OneLatestInside(Replay(log), f, fine, other, g, coarse);
    }
  }

  /** What a caller can check before a call: no later narrow bucket of the same wide bucket is there
      already, or it holds the very payload. */
  ghost predicate InOrder(t: Tables, f: Granularity, g: Granularity, c: Call) {
    Accepted(c) ==>
      forall fine :: IsLatestInside(t, f, fine, g, CellOf(c, g)) ==>
        fine.bucket <= CellOf(c, f).bucket || c.payload.value == Rows(t, f)[fine]
  }

  /** The latest narrow cell after a call into the wide cell. */
  lemma LatestAfter(t: Tables, f: Granularity, g: Granularity, fine: Cell, c: Call)
    requires Narrower(f, g) && Accepted(c) && IsLatestInside(t, f, fine, g, CellOf(c, g))
    ensures IsLatestInside(Stored(t, c), f, if fine.bucket <= CellOf(c, f).bucket then CellOf(c, f) else fine, g, CellOf(c, g))
  {
    StoredRows(t, c, f);
    InsideOwn(c, f, g);
  }

  lemma FirstInside(t: Tables, f: Granularity, g: Granularity, c: Call)
    requires Narrower(f, g) && Accepted(c)
    requires forall fine :: fine in Rows(t, f) ==> !Inside(fine, CellOf(c, g), g)
    ensures IsLatestInside(Stored(t, c), f, CellOf(c, f), g, CellOf(c, g))
  {
    StoredRows(t, c, f);
    InsideOwn(c, f, g);
  }

  lemma InsideOwn(c: Call, f: Granularity, g: Granularity)
    requires Narrower(f, g)
    ensures Inside(CellOf(c, f), CellOf(c, g), g) && CellOf(c, g).bucket % Width(g) == 0
  {
    BucketIsTruncation(f, TimeOf(c));
    BucketIsTruncation(g, TimeOf(c));
    RoundTwice(TimeOf(c) / SECOND, f, g);
    Multiple(TimeOf(c) / SECOND, g);
  }

  lemma StoredRows(t: Tables, c: Call, g: Granularity)
    ensures Rows(Stored(t, c), g) == Written(Rows(t, g), BucketWrite(c, g))
  {
  }

  /** One accepted call keeps the agreement of its wide row exactly when it is in order. */
  lemma PutKeepsAgreementIff(t: Tables, f: Granularity, g: Granularity, c: Call)
    requires Narrower(f, g) && Accepted(c) && Agrees(t, f, g, CellOf(c, g))
    ensures Agrees(Stored(t, c), f, g, CellOf(c, g)) <==> InOrder(t, f, g, c)
  {
    var coarse := CellOf(c, g);
    var fine :| IsLatestInside(t, f, fine, g, coarse) && Rows(t, g)[coarse] == Rows(t, f)[fine];
    LatestAfter(t, f, g, fine, c);
    StoredRows(t, c, f);
    StoredRows(t, c, g);
    forall other | IsLatestInside(t, f, other, g, coarse)
      ensures other == fine
    {
      OneLatestInside(t, f, fine, other, g, coarse);
    }
    var next := if fine.bucket <= CellOf(c, f).bucket then CellOf(c, f) else fine;
    forall other | IsLatestInside(Stored(t, c), f, other, g, coarse)
      ensures other == next
    {
      OneLatestInside(Stored(t, c), f, next, other, g, coarse);
    }
  }

  // Over a whole log.

  ghost predicate AllAgree(t: Tables, f: Granularity, g: Granularity) {
    forall coarse :: coarse in Rows(t, g) ==> Agrees(t, f, g, coarse)
  }

  /** The narrow rows inside a wide bucket came with a wide row. */
  lemma NarrowRowHasWideRow(log: seq<Call>, f: Granularity, g: Granularity, fine: Cell, coarse: Cell)
    requires Narrower(f, g) && coarse.bucket % Width(g) == 0
    requires fine in Rows(Replay(log), f) && Inside(fine, coarse, g)
    ensures coarse in Rows(Replay(log), g)
  {
    BucketIsLastPut(log, f, fine);
    var k :| LastIn(log, k, f, fine);
    CellsNest(log[k], f, g, coarse);
    RowExists(log, k, g);
  }

  /** A call changes nothing inside the other wide buckets. */
  lemma OtherWideRow(log: seq<Call>, c: Call, f: Granularity, g: Granularity, coarse: Cell)
    requires Narrower(f, g) && coarse in Rows(Replay(log), g) && Agrees(Replay(log), f, g, coarse)
    requires Accepted(c) ==> CellOf(c, g) != coarse
    ensures Agrees(Stored(Replay(log), c), f, g, coarse)
  {
    var t := Replay(log);
    var _ := WideRowHasNarrowRow(log, f, g, coarse);
    CellsNest(c, f, g, coarse);
    StoredRows(t, c, f);
    StoredRows(t, c, g);
    var fine :| IsLatestInside(t, f, fine, g, coarse) && Rows(t, g)[coarse] == Rows(t, f)[fine];
    assert IsLatestInside(Stored(t, c), f, fine, g, coarse);
  }

  lemma FirstAgrees(log: seq<Call>, c: Call, f: Granularity, g: Granularity)
    requires Narrower(f, g) && Accepted(c) && CellOf(c, g) !in Rows(Replay(log), g)
    ensures Agrees(Stored(Replay(log), c), f, g, CellOf(c, g)) && InOrder(Replay(log), f, g, c)
  {
    var t := Replay(log);
    InsideOwn(c, f, g);
    forall fine | fine in Rows(t, f)
      ensures !Inside(fine, CellOf(c, g), g)
    {
      if Inside(fine, CellOf(c, g), g) {
        NarrowRowHasWideRow(log, f, g, fine, CellOf(c, g));
      }
    }
    FirstInside(t, f, g, c);
    StoredRows(t, c, f);
    StoredRows(t, c, g);
  }

  lemma StepAgreesIff(log: seq<Call>, c: Call, f: Granularity, g: Granularity)
    requires Narrower(f, g) && AllAgree(Replay(log), f, g)
    ensures AllAgree(Stored(Replay(log), c), f, g) <==> InOrder(Replay(log), f, g, c)
  {
    var t := Replay(log);
    StoredRows(t, c, g);
    forall coarse | coarse in Rows(t, g) && (Accepted(c) ==> coarse != CellOf(c, g))
      ensures Agrees(Stored(t, c), f, g, coarse)
    {
      OtherWideRow(log, c, f, g, coarse);
    }
    if Accepted(c) {
      if CellOf(c, g) in Rows(t, g) {
        PutKeepsAgreementIff(t, f, g, c);
      } else {
        FirstAgrees(log, c, f, g);
      }
    }
  }

  /** The wide tables agree with the narrow ones after every call exactly when every call is in order:
      no later narrow bucket of its wide bucket is stored already, unless with the same payload. */
  lemma AgreementIff(log: seq<Call>, f: Granularity, g: Granularity)
    requires Narrower(f, g)
    ensures (forall n :: 0 <= n <= |log| ==> AllAgree(Replay(log[..n]), f, g))
       <==> (forall n :: 0 <= n < |log| ==> InOrder(Replay(log[..n]), f, g, log[n]))
  {
    forall n | 0 <= n < |log|
      ensures Replay(log[..n + 1]) == Stored(Replay(log[..n]), log[n])
    {
      assert log[..n + 1][..n] == log[..n];
    }
    if forall n :: 0 <= n <= |log| ==> AllAgree(Replay(log[..n]), f, g) {
      forall n | 0 <= n < |log|
        ensures InOrder(Replay(log[..n]), f, g, log[n])
      {
        assert AllAgree(Replay(log[..n]), f, g) && AllAgree(Replay(log[..n + 1]), f, g);
        StepAgreesIff(log[..n], log[n], f, g);
      }
    }
    if forall n :: 0 <= n < |log| ==> InOrder(Replay(log[..n]), f, g, log[n]) {
      forall n | 0 <= n <= |log|
        ensures AllAgree(Replay(log[..n]), f, g)
      {
        OrderedAgree(log, n, f, g);
      }
    }
  }

  lemma {:induction false} OrderedAgree(log: seq<Call>, n: nat, f: Granularity, g: Granularity)
    requires Narrower(f, g) && n <= |log|
    requires forall i :: 0 <= i < |log| ==> InOrder(Replay(log[..i]), f, g, log[i])
    ensures AllAgree(Replay(log[..n]), f, g)
    decreases n
  {
    if n > 0 {
      OrderedAgree(log, n - 1, f, g);
      assert log[..n][..n - 1] == log[..n - 1];
      assert InOrder(Replay(log[..n - 1]), f, g, log[n - 1]);
      StepAgreesIff(log[..n - 1], log[n - 1], f, g);
    }
  }

  /** Two reports of one hour, stored in the reverse order of their times, break the agreement: the
      hour row follows the order of the calls. */
  lemma ReversedReportsDisagree(c: Call, d: Call)
    requires Accepted(c) && Accepted(d) && c.resource == d.resource && c.payload != d.payload
    requires Bucket(FiveMinutes, TimeOf(d)) < Bucket(FiveMinutes, TimeOf(c)) && CellOf(d, Hour) == CellOf(c, Hour)
    ensures IsLatestInside(Replay([c, d]), FiveMinutes, CellOf(c, FiveMinutes), Hour, CellOf(c, Hour))
    ensures CellOf(c, Hour) in Rows(Replay([c, d]), Hour)
    ensures Rows(Replay([c, d]), Hour)[CellOf(c, Hour)] != Rows(Replay([c, d]), FiveMinutes)[CellOf(c, FiveMinutes)]
  {
    var fine, later, coarse := CellOf(c, FiveMinutes), CellOf(d, FiveMinutes), CellOf(c, Hour);
    TwoCalls(c, d, FiveMinutes);
    TwoCalls(c, d, Hour);
    assert Rows(Replay([c, d]), FiveMinutes) == map[fine := c.payload.value][later := d.payload.value];
    assert Rows(Replay([c, d]), Hour) == map[coarse := c.payload.value][coarse := d.payload.value];
    HourHasFineCell(c.resource, TimeOf(c));
  }

  lemma TwoCalls(c: Call, d: Call, g: Granularity)
    ensures Rows(Replay([c, d]), g) == Written(Written(map[], BucketWrite(c, g)), BucketWrite(d, g))
  {
    ReplayIsTable([c, d], g);
    assert BucketWrites([c, d], g) == [BucketWrite(c, g), BucketWrite(d, g)];
    TwoWrites(BucketWrite(c, g), BucketWrite(d, g));
  }

  lemma HourHasFineCell(r: Resource, a: nat)
    ensures Inside(Cell(r, Bucket(FiveMinutes, a)), Cell(r, Bucket(Hour, a)), Hour)
  {
    BucketIsTruncation(FiveMinutes, a);
    BucketIsTruncation(Hour, a);
    FiveMinutesInHour(a / SECOND);
  }

  // ---------------------------------------------------------------------------
  // What the range query compares
  // ---------------------------------------------------------------------------

  /** The bucket column and the two bounds are compared and ordered as text. */
  lemma RangeComparedAsText(bucket: nat, from: nat, to: nat)
    requires InTextRange(bucket) && InTextRange(from) && InTextRange(to)
    ensures !TextLess(Stamp(bucket), Stamp(from)) && !TextLess(Stamp(to), Stamp(bucket)) <==> from <= bucket <= to
    ensures Parse(Stamp(bucket)) == Time(bucket)
  {
    StampOrder(bucket, from);
    StampOrder(to, bucket);
    StampRoundTrip(bucket);
  }
}
