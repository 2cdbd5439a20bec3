/** The metric store object: the transaction behind Put and the queries over the four tables. */
module MetricsStore {
  import opened Options
  import opened Sets
  import opened Metrics
  import opened Rfc3339
  import opened TextOrder

  const DEFAULT_LIMIT := 1000
  const MAX_LIMIT := 5000

  datatype Row = Row(bucket: nat, payload: string)

  datatype RangeResult = Snapshots(rows: seq<Row>) | UnknownGranularity | Unreadable

  /** The stored text of `a` does not sort after that of `b`. */
  predicate NotAfter(a: nat, b: nat) {
    !TextLess(Stamp(b), Stamp(a))
  }

  /** The row of `r` at `bucket` is one the query asks for; column and bounds are compared as text. */
  predicate Matches(rows: map<Cell, string>, r: Resource, from: nat, to: nat, bucket: nat) {
    Cell(r, bucket) in rows && NotAfter(from, bucket) && NotAfter(bucket, to)
  }

  /** What WHERE leaves of the table: the selected buckets with their texts. */
  function Selected(rows: map<Cell, string>, r: Resource, from: nat, to: nat): map<nat, string> {
    map c | c in rows && c.resource == r && NotAfter(from, c.bucket) && NotAfter(c.bucket, to) :: c.bucket := Stamp(c.bucket)
  }

  function Buckets(out: seq<Row>): seq<nat> {
    seq(|out|, i requires 0 <= i < |out| => out[i].bucket)
  }

  lemma BucketsAppend(out: seq<Row>, row: Row)
    ensures Buckets(out + [row]) == Buckets(out) + [row.bucket]
  {
  }

  /** A result in the order of the texts: only matching rows, each once, all of them unless the limit
      is reached, and then the first ones. */
  ghost predicate IsPage(rows: map<Cell, string>, r: Resource, from: nat, to: nat, limit: nat, out: seq<Row>) {
    && IsByText(Selected(rows, r, from, to), limit, Buckets(out))
    && forall i :: 0 <= i < |out| ==> Cell(r, out[i].bucket) in rows && rows[Cell(r, out[i].bucket)] == out[i].payload
  }

  lemma SelectedMatches(rows: map<Cell, string>, r: Resource, from: nat, to: nat, b: nat)
    ensures b in Selected(rows, r, from, to) <==> Matches(rows, r, from, to, b)
    ensures b in Selected(rows, r, from, to) ==> Selected(rows, r, from, to)[b] == Stamp(b)
  {
    CellMatches(rows, r, from, to, Cell(r, b));
    forall c | c in rows && c.resource == r && c.bucket == b
      ensures c == Cell(r, b)
    {
    }
  }

  lemma CellMatches(rows: map<Cell, string>, r: Resource, from: nat, to: nat, c: Cell)
    requires c.resource == r
    ensures Matches(rows, r, from, to, c.bucket) ==> c.bucket in Selected(rows, r, from, to)
  {
  }

  datatype Latest = Latest(id: int, sample: Sample)

  /** All resources of a kind, once each, by ascending id. */
  ghost predicate IsListing(latest: map<Resource, Sample>, kind: string, out: seq<Latest>) {
    && (forall i :: 0 <= i < |out| ==> Resource(kind, out[i].id) in latest && latest[Resource(kind, out[i].id)] == out[i].sample)
    && (forall i, j :: 0 <= i < j < |out| ==> out[i].id < out[j].id)
    && (forall id :: Resource(kind, id) in latest ==> exists i :: 0 <= i < |out| && out[i].id == id)
  }

  /** The tables in the middle of a transaction: the granularities of `todo` are not yet written. */
  function Partly(t: Tables, r: Resource, starts: map<Granularity, nat>, payload: string, todo: set<Granularity>): Tables
    requires starts.Keys == ALL_GRANULARITIES
  {
    t.(fiveMinutes := if FiveMinutes in todo then t.fiveMinutes else t.fiveMinutes[Cell(r, starts[FiveMinutes]) := payload],
       hours := if Hour in todo then t.hours else t.hours[Cell(r, starts[Hour]) := payload],
       days := if Day in todo then t.days else t.days[Cell(r, starts[Day]) := payload])
  }

  lemma OneMore(t: Tables, r: Resource, starts: map<Granularity, nat>, payload: string, todo: set<Granularity>, g: Granularity)
    requires starts.Keys == ALL_GRANULARITIES && g in todo
    ensures var p := Partly(t, r, starts, payload, todo);
            Partly(t, r, starts, payload, todo - {g}) == WithRows(p, g, Rows(p, g)[Cell(r, starts[g]) := payload])
  {
  }

  predicate AllReadable(page: seq<Row>) {
    forall i :: 0 <= i < |page| ==> InTextRange(page[i].bucket)
  }

  /** Reads a stored timestamp back. */
  method ReadTime(t: nat) returns (time: Option<nat>)
    ensures time == if InTextRange(t) then Some(t) else None
  {
    ReadableIff(t);
    var parsed := Parse(Stamp(t));
    match parsed {
      case Time(instant) => return Some(instant);
      case Malformed => return None;
    }
  }

  function Second(nanos: nat): nat {
    nanos / 1_000_000_000
  }

  lemma BucketStarts(at: nat)
    ensures Bucket(FiveMinutes, at) == Truncated(Second(at), 300) && Bucket(Hour, at) == Truncated(Second(at), 3600)
    ensures Bucket(Day, at) == Truncated(Second(at), 86400)
  {
    BucketIsTruncation(FiveMinutes, at);
    BucketIsTruncation(Hour, at);
    BucketIsTruncation(Day, at);
  }

  /** The result is this page of the table, with an absent or excessive limit replaced by 1000. */
  ghost predicate Serves(table: map<Cell, string>, r: Resource, from: nat, to: nat, limit: int, page: seq<Row>, out: RangeResult) {
    && IsPage(table, r, from, to, if 0 < limit <= 5000 then limit else 1000, page)
    && out == if AllReadable(page) then Snapshots(page) else Unreadable
  }

  ghost predicate Answers(table: map<Cell, string>, r: Resource, from: nat, to: nat, limit: int, out: RangeResult) {
    exists page :: Serves(table, r, from, to, limit, page, out)
  }

  class Store {
    var latest: map<Resource, Sample>
    var fiveMinutes: map<Cell, string>
    var hours: map<Cell, string>
    var days: map<Cell, string>

    ghost function View(): Tables
      reads this
    {
      Tables(latest, fiveMinutes, hours, days)
    }

    constructor ()
      ensures View() == EMPTY
    {
      latest, fiveMinutes, hours, days := map[], map[], map[], map[];
    }

    method UpsertBucket(g: Granularity, cell: Cell, payload: string)
      modifies this`fiveMinutes, this`hours, this`days
      ensures View() == WithRows(old(View()), g, Rows(old(View()), g)[cell := payload])
    {
      match g {
        case FiveMinutes => fiveMinutes := fiveMinutes[cell := payload];
        case Hour => hours := hours[cell := payload];
        case Day => days := days[cell := payload];
      }
    }

    /** The bucket tables are visited in whatever order the map iteration yields. */
    method UpsertBuckets(r: Resource, starts: map<Granularity, nat>, payload: string)
      requires starts.Keys == ALL_GRANULARITIES
      modifies this`fiveMinutes, this`hours, this`days
      ensures View() == Partly(old(View()), r, starts, payload, {})
    {
      ghost var before := View();
      var todo := starts.Keys;
      while todo != {}
        invariant todo <= starts.Keys
        invariant View() == Partly(before, r, starts, payload, todo)
        decreases |todo|
      {
        var g :| g in todo;
        OneMore(before, r, starts, payload, todo, g);
        UpsertBucket(g, Cell(r, starts[g]), payload);
        todo := todo - {g};
      }
    }

    /** One transaction: all four tables, or none when the call is refused. */
    method Put(kind: string, id: int, at: Option<nat>, now: nat, encoded: Option<string>) returns (ok: bool)
      modifies this
      ensures View() == Stored(old(View()), Call(Resource(kind, id), at, now, encoded))
      ensures ok <==> kind != "" && id > 0 && encoded.Some?
      ensures !ok ==> View() == old(View())
      ensures ok ==>
                var s, r := Second(if at.Some? then at.value else now), Resource(kind, id);
                && latest == old(latest)[r := Sample(s, encoded.value)]
                && fiveMinutes == old(fiveMinutes)[Cell(r, Truncated(s, 300)) := encoded.value]
                && hours == old(hours)[Cell(r, Truncated(s, 3600)) := encoded.value]
                && days == old(days)[Cell(r, Truncated(s, 86400)) := encoded.value]
    {
      if kind == "" || id <= 0 {
        return false;
      }
      var collectedAt := if at.None? then now else at.value;
      if encoded.None? {
        return false;
      }
      var raw, r := encoded.value, Resource(kind, id);
      BucketStarts(collectedAt);
      latest := latest[r := Sample(collectedAt / SECOND, raw)];
      var starts := map[FiveMinutes := Bucket(FiveMinutes, collectedAt), Hour := Bucket(Hour, collectedAt), Day := Bucket(Day, collectedAt)];
      UpsertBuckets(r, starts, raw);
      return true;
    }

    /** Nothing when there is no row or its timestamp cannot be read back. */
    method LatestOf(kind: string, id: int) returns (found: Option<Sample>)
      ensures found.Some? <==> Resource(kind, id) in latest && InTextRange(latest[Resource(kind, id)].collectedAt)
      ensures found.Some? ==> found.value == latest[Resource(kind, id)]
    {
      if Resource(kind, id) !in latest {
        return None;
      }
      var sample := latest[Resource(kind, id)];
      var time := ReadTime(sample.collectedAt);
      if time.None? {
        return None;
      }
      return Some(Sample(time.value, sample.payload));
    }

    /** Fails for an unknown granularity, or when a selected row cannot be read back; an absent or
        excessive limit becomes the default. */
    method Range(granularity: string, kind: string, id: int, from: nat, to: nat, limit: int) returns (out: RangeResult)
      ensures out.UnknownGranularity? <==> granularity != "5m" && granularity != "1h" && granularity != "1d"
      ensures granularity == "5m" ==> Answers(fiveMinutes, Resource(kind, id), Second(from), Second(to), limit, out)
      ensures granularity == "1h" ==> Answers(hours, Resource(kind, id), Second(from), Second(to), limit, out)
      ensures granularity == "1d" ==> Answers(days, Resource(kind, id), Second(from), Second(to), limit, out)
    {
      assert "5m"[0] != "1h"[0] && "5m"[0] != "1d"[0] && "1h"[1] != "1d"[1];
      match granularity {
        case "5m" => out := Query(fiveMinutes, Resource(kind, id), from / SECOND, to / SECOND, limit);
        case "1h" => out := Query(hours, Resource(kind, id), from / SECOND, to / SECOND, limit);
        case "1d" => out := Query(days, Resource(kind, id), from / SECOND, to / SECOND, limit);
        case _ => return UnknownGranularity;
      }
    }

    static method Query(table: map<Cell, string>, r: Resource, from: nat, to: nat, limit: int) returns (out: RangeResult)
      ensures !out.UnknownGranularity? && Answers(table, r, from, to, limit, out)
    {
      var bound := limit;
      if limit <= 0 || limit > MAX_LIMIT {
        bound := DEFAULT_LIMIT;
      }
      var page := Page(table, r, from, to, bound);
      out := Decode(page);
      assert Serves(table, r, from, to, limit, page, out);
    }

    /** WHERE, ORDER BY bucket_ts and LIMIT, on the stored texts. */
    static method Page(rows: map<Cell, string>, r: Resource, from: nat, to: nat, limit: nat) returns (out: seq<Row>)
      ensures IsPage(rows, r, from, to, limit, out)
    {
      var order := ByText(Selected(rows, r, from, to), limit);
      forall i | 0 <= i < |order|
        ensures Cell(r, order[i]) in rows
      {
        SelectedMatches(rows, r, from, to, order[i]);
      }
      out := Fetch(rows, r, order);
    }

    /** The selected rows themselves. */
    static method Fetch(rows: map<Cell, string>, r: Resource, order: seq<nat>) returns (out: seq<Row>)
      requires forall i :: 0 <= i < |order| ==> Cell(r, order[i]) in rows
      ensures Buckets(out) == order
      ensures forall i :: 0 <= i < |out| ==> Cell(r, out[i].bucket) in rows && out[i].payload == rows[Cell(r, out[i].bucket)]
    {
      out := [];
      for i := 0 to |order|
        invariant |out| == i && Buckets(out) == order[..i]
        invariant forall k :: 0 <= k < i ==> Cell(r, out[k].bucket) in rows && out[k].payload == rows[Cell(r, out[k].bucket)]
      {
        var row := Row(order[i], rows[Cell(r, order[i])]);
        BucketsAppend(out, row);
        out := out + [row];
      }
    }

    /** One append per row whose timestamp parses. */
    static method Decode(page: seq<Row>) returns (out: RangeResult)
      ensures out == if AllReadable(page) then Snapshots(page) else Unreadable
    {
      var snapshots := [];
      for i := 0 to |page|
        invariant snapshots == page[..i] && AllReadable(page[..i])
      {
        var time := ReadTime(page[i].bucket);
        if time.None? {
          return Unreadable;
        }
        snapshots := snapshots + [Row(time.value, page[i].payload)];
      }
      return Snapshots(snapshots);
    }

    /** Nothing when a timestamp cannot be read back. */
    method ListLatest(kind: string) returns (out: Option<seq<Latest>>)
      ensures out.Some? <==> forall id :: Resource(kind, id) in latest ==> InTextRange(latest[Resource(kind, id)].collectedAt)
      ensures out.Some? ==> IsListing(latest, kind, out.value)
    {
      var ids: set<int> := set r | r in latest && r.kind == kind :: r.id;
      forall id
        ensures id in ids <==> Resource(kind, id) in latest
      {
        assert Resource(kind, id) in latest ==> Resource(kind, id).id in ids;
      }
      var order := Ascending(ids, |ids|);
      AscendingIsAll(ids, order);
      var listed := [];
      for i := 0 to |order|
        invariant |listed| == i
        invariant forall k :: 0 <= k < i ==> order[k] in ids && listed[k] == Latest(order[k], latest[Resource(kind, order[k])])
        invariant forall k :: 0 <= k < i ==> InTextRange(latest[Resource(kind, order[k])].collectedAt)
      {
        var sample := latest[Resource(kind, order[i])];
        var time := ReadTime(sample.collectedAt);
        if time.None? {
          assert Resource(kind, order[i]) in latest;
          return None;
        }
        listed := listed + [Latest(order[i], Sample(time.value, sample.payload))];
      }
      forall id | Resource(kind, id) in latest
        ensures exists i :: 0 <= i < |listed| && listed[i].id == id
        ensures InTextRange(latest[Resource(kind, id)].collectedAt)
      {
        var i :| 0 <= i < |order| && order[i] == id;
        assert listed[i].id == id;
      }
      return Some(listed);
    }
  }

  /** What the query serves is the log: every row of a page carries the payload of the last accepted
      call in its bucket. */
  lemma PageServesTheLog(log: seq<Call>, g: Granularity, r: Resource, from: nat, to: nat, limit: nat, out: seq<Row>, i: nat, k: int)
    requires IsPage(Rows(Replay(log), g), r, from, to, limit, out) && i < |out|
    requires LastIn(log, k, g, Cell(r, out[i].bucket))
    ensures log[k].payload == Some(out[i].payload)
  {
    BucketIsLastPut(log, g, Cell(r, out[i].bucket));
  }

  /** The call's time, the given one or else the clock's, lies in the span of whole seconds. */
  predicate InSpan(c: Call, start: nat, width: nat) {
    start <= (if c.at.Some? then c.at.value else c.now) / 1_000_000_000 < start + width
  }

  /** The call is accepted and names the resource. */
  predicate Names(c: Call, r: Resource) {
    c.resource == r && r.kind != "" && r.id > 0 && c.payload.Some?
  }

  /** A row served for "5m", "1h" or "1d" starts at a multiple of 300, 3600 or 86400 seconds and carries
      the last accepted call of that span. */
  lemma RowIsLastOfItsSpan(log: seq<Call>, table: map<Cell, string>, width: nat, r: Resource, from: nat, to: nat, limit: nat,
                           out: seq<Row>, i: nat) returns (k: nat)
    requires (width == 300 && table == Replay(log).fiveMinutes) || (width == 3600 && table == Replay(log).hours)
             || (width == 86400 && table == Replay(log).days)
    requires IsPage(table, r, from, to, limit, out) && i < |out|
    ensures out[i].bucket % width == 0
    ensures k < |log| && Names(log[k], r) && InSpan(log[k], out[i].bucket, width) && log[k].payload == Some(out[i].payload)
    ensures forall j :: k < j < |log| && Names(log[j], r) ==> !InSpan(log[j], out[i].bucket, width)
  {
    var g := if width == 300 then FiveMinutes else if width == 3600 then Hour else Day;
    k := LastOfSpan(log, g, width, r, from, to, limit, out, i);
  }

  lemma InSpanIs(c: Call, start: nat, g: Granularity, width: nat)
    requires width == Width(g)
    ensures start % width == 0 ==> (InSpan(c, start, width) <==> CellOf(c, g).bucket == start)
    ensures CellOf(c, g).bucket % width == 0
  {
    var s := TimeOf(c) / SECOND;
    BucketIsTruncation(g, TimeOf(c));
    SpanOfTruncated(s, width);
    if start % width == 0 && start <= s < start + width {
      SameWindow(s, start, width);
    }
  }

  lemma LastOfSpan(log: seq<Call>, g: Granularity, width: nat, r: Resource, from: nat, to: nat, limit: nat,
                   out: seq<Row>, i: nat) returns (k: nat)
    requires IsPage(Rows(Replay(log), g), r, from, to, limit, out) && i < |out| && width == Width(g)
    ensures out[i].bucket % width == 0
    ensures k < |log| && Names(log[k], r) && InSpan(log[k], out[i].bucket, width) && log[k].payload == Some(out[i].payload)
    ensures forall j :: k < j < |log| && Names(log[j], r) ==> !InSpan(log[j], out[i].bucket, width)
  {
    var b := out[i].bucket;
    BucketIsLastPut(log, g, Cell(r, b));
    k :| LastIn(log, k, g, Cell(r, b));
    InSpanIs(log[k], b, g, width);
    forall j | k < j < |log| && Names(log[j], r)
      ensures !InSpan(log[j], b, width)
    {
      assert !PutsIn(log[j], g, Cell(r, b));
      InSpanIs(log[j], b, g, width);
    }
  }

  lemma SpanOfTruncated(s: nat, width: nat)
    requires width == 300 || width == 3600 || width == 86400
    ensures Truncated(s, width) % width == 0 && Truncated(s, width) <= s < Truncated(s, width) + width
  {
  }

  /** And every bucket between the texts of the bounds that received a call is served, unless the limit
      is reached first. */
  lemma PageIsComplete(log: seq<Call>, g: Granularity, r: Resource, from: nat, to: nat, limit: nat, out: seq<Row>, k: nat)
    requires IsPage(Rows(Replay(log), g), r, from, to, limit, out) && |out| < limit
    requires k < |log| && Accepted(log[k]) && log[k].resource == r
    requires NotAfter(from, CellOf(log[k], g).bucket) && NotAfter(CellOf(log[k], g).bucket, to)
    ensures CellOf(log[k], g).bucket in Buckets(out)
  {
    RowExists(log, k, g);
    SelectedMatches(Rows(Replay(log), g), r, from, to, CellOf(log[k], g).bucket);
  }

  // ---------------------------------------------------------------------------
  // When the texts say what the times say
  // ---------------------------------------------------------------------------

  /** A row is selected as its time demands if and only if it compares right with the bound that
      decides: no row is wrongly dropped by a bound it should pass, and none passes wrongly. */
  lemma SelectedIff(bucket: nat, from: nat, to: nat)
    ensures NotAfter(from, bucket) <==> (from == bucket || (from < bucket <==> ComparesRight(bucket, from)))
    ensures NotAfter(bucket, to) <==> (bucket == to || (bucket < to <==> ComparesRight(to, bucket)))
  {
    if from != bucket {
      AtLeastIff(bucket, from);
    } else {
      TextLessIrreflexive(Stamp(from));
    }
    if bucket != to {
      AtLeastIff(to, bucket);
    } else {
      TextLessIrreflexive(Stamp(to));
    }
  }

  /** The numeric reading of a page: the rows of the closed interval by ascending time. */
  ghost predicate IsNumericPage(rows: map<Cell, string>, r: Resource, from: nat, to: nat, limit: nat, order: seq<nat>) {
    && |order| <= limit
    && (forall i :: 0 <= i < |order| ==> Cell(r, order[i]) in rows && from <= order[i] <= to)
    && (forall i, j :: 0 <= i < j < |order| ==> order[i] < order[j])
    && (forall b: nat :: Cell(r, b) in rows && from <= b <= to && b !in order ==>
          |order| == limit && forall i :: 0 <= i < |order| ==> order[i] < b)
  }

  lemma SelectedInRange(rows: map<Cell, string>, r: Resource, from: nat, to: nat, b: nat)
    requires InTextRange(from) && InTextRange(to) && (Cell(r, b) in rows ==> InTextRange(b))
    ensures b in Selected(rows, r, from, to) <==> Cell(r, b) in rows && from <= b <= to
  {
    SelectedMatches(rows, r, from, to, b);
    if Cell(r, b) in rows {
      InRangeNotAfter(from, b);
      InRangeNotAfter(b, to);
    }
  }

  lemma SelectedOrder(rows: map<Cell, string>, r: Resource, from: nat, to: nat, a: nat, b: nat)
    requires InTextRange(a) && InTextRange(b) && a in Selected(rows, r, from, to) && b in Selected(rows, r, from, to)
    ensures !TextLess(Selected(rows, r, from, to)[b], Selected(rows, r, from, to)[a]) <==> a <= b
  {
    SelectedMatches(rows, r, from, to, a);
    SelectedMatches(rows, r, from, to, b);
    InRangeNotAfter(a, b);
  }

  /** With four-digit years on both bounds and in the table, the served page is the numeric one. */
  lemma PageIsNumeric(rows: map<Cell, string>, r: Resource, from: nat, to: nat, limit: nat, out: seq<Row>)
    requires InTextRange(from) && InTextRange(to)
    requires forall b: nat :: Cell(r, b) in rows ==> InTextRange(b)
    requires IsPage(rows, r, from, to, limit, out)
    ensures IsNumericPage(rows, r, from, to, limit, Buckets(out))
  {
    var column, order := Selected(rows, r, from, to), Buckets(out);
    forall b: nat
      ensures b in column <==> Cell(r, b) in rows && from <= b <= to
    {
      SelectedInRange(rows, r, from, to, b);
    }
    forall x, y | x in column && y in column
      ensures !TextLess(column[y], column[x]) <==> x <= y
    {
      SelectedOrder(rows, r, from, to, x, y);
    }
    ByTextIsByKey(column, limit, order);
  }

  lemma InRangeNotAfter(a: nat, b: nat)
    requires InTextRange(a) && InTextRange(b)
    ensures NotAfter(a, b) <==> a <= b
  {
    StampOrder(b, a);
  }

  /** An upper bound in the year 10000 keeps exactly the buckets of the years up to 1000. */
  lemma BoundBeyond9999(bucket: nat, to: nat)
    requires CivilOf(bucket).year < 10000 && CivilOf(to).year == 10000
    ensures bucket < to && (NotAfter(bucket, to) <==> CivilOf(bucket).year <= 1000)
  {
    FiveDigitYears(bucket, to);
    TextTotal(Stamp(bucket), Stamp(to));
    if Stamp(bucket) == Stamp(to) {
      StampInjective(bucket, to);
    }
  }

  /** The last second of the year 9999 one hour west of Greenwich is such a bound: of the years up to
      9999, a page that ends there holds no bucket after the year 1000. */
  lemma WesternYearEnd(rows: map<Cell, string>, r: Resource, from: nat, limit: nat, out: seq<Row>, to: nat, bucket: nat)
    requires to == Instant(Civil(9999, 12, 31, 23, 59, 59)) + 3600
    requires IsPage(rows, r, from, to, limit, out) && bucket in Buckets(out) && CivilOf(bucket).year < 10000
    ensures CivilOf(bucket).year <= 1000
  {
    NewYear10000(to);
    SelectedMatches(rows, r, from, to, bucket);
    BoundBeyond9999(bucket, to);
  }

  lemma NewYear10000(to: nat)
    requires to == Instant(Civil(9999, 12, 31, 23, 59, 59)) + 3600
    ensures CivilOf(to).year == 10000
  {
    YearStep(9999);
    YearLength(9999);
    assert DaysBeforeMonth(9999, 13) == DaysBeforeMonth(9999, 12) + 31;
    var utc := Civil(10000, 1, 1, 0, 59, 59);
    assert Instant(utc) == to;
    InstantOrder(CivilOf(to), utc);
  }
}
