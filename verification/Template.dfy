/** Rendering of the MySQL configuration file: one replace-all pass per variable, in an
    order the program does not choose. */
module Template {
  import opened Text

  datatype Key =
    | PORT | SERVER_ID | BASEDIR | DATADIR | LOGDIR | BINLOGDIR | RUNDIR
    | LONG_QUERY_TIME | COLLATION | INNODB_BUFFER_POOL_SIZE | MAX_CONNECTIONS

  function Name(k: Key): string {
    match k
    case PORT => "PORT"
    case SERVER_ID => "SERVER_ID"
    case BASEDIR => "BASEDIR"
    case DATADIR => "DATADIR"
    case LOGDIR => "LOGDIR"
    case BINLOGDIR => "BINLOGDIR"
    case RUNDIR => "RUNDIR"
    case LONG_QUERY_TIME => "LONG_QUERY_TIME"
    case COLLATION => "COLLATION"
    case INNODB_BUFFER_POOL_SIZE => "INNODB_BUFFER_POOL_SIZE"
    case MAX_CONNECTIONS => "MAX_CONNECTIONS"
  }

  function Placeholder(k: Key): string {
    "{{" + Name(k) + "}}"
  }

  /** A template as literal text with holes. */
  datatype Layout = End(text: string) | Hole(text: string, key: Key, rest: Layout)

  /** The simultaneous substitution of `env`; a hole without a value shows its placeholder. */
  function Fill(l: Layout, env: map<Key, string>): string {
    match l
    case End(text) => text
    case Hole(text, k, rest) => text + (if k in env then env[k] else Placeholder(k)) + Fill(rest, env)
  }

  const HOLES := 15

  /** The literal text before the i-th hole of the production template (after the last one for i == HOLES).
      Long lines are written in pieces, since the verifier looks into short literals only. */
  function TextBefore(i: nat): string
    requires i <= HOLES
  {
    match i
    case 0 => "[mysqld]\nport="
    case 1 => "\nserver_id="
    case 2 => "\nbasedir="
    case 3 => "\ndatadir="
    case 4 => "\nsocket="
    case 5 => "/mysql.sock\npid-file="
    case 6 => "/mysqld.pid\nlog_error="
    case 7 => "/error.log\n" + "slow_query_log=ON\n" + "slow_query_log_file="
    case 8 => "/slow.log\n" + "long_query_time="
    case 9 => "\ncharacter_set_" + "server=utf8mb4\n" + "collation_server="
    case 10 => "\nlog_bin="
    case 11 => "/mysql-bin\n" + "binlog_format=ROW\n" + "gtid_mode=ON\n" + "enforce_gtid_" + "consistency=ON\n"
               + "sync_binlog=1\n" + "innodb_flush_log_" + "at_trx_commit=1\n" + "innodb_buffer_" + "pool_size="
    case 12 => "\nmax_connections="
    case 13 => "\n\n[client]\nport="
    case 14 => "\nsocket="
    case _ => "/mysql.sock\n"
  }

  function KeyAfter(i: nat): Key
    requires i < HOLES
  {
    match i
    case 0 => PORT
    case 1 => SERVER_ID
    case 2 => BASEDIR
    case 3 => DATADIR
    case 4 => RUNDIR
    case 5 => RUNDIR
    case 6 => LOGDIR
    case 7 => LOGDIR
    case 8 => LONG_QUERY_TIME
    case 9 => COLLATION
    case 10 => BINLOGDIR
    case 11 => INNODB_BUFFER_POOL_SIZE
    case 12 => MAX_CONNECTIONS
    case 13 => PORT
    case _ => RUNDIR
  }

  function LayoutFrom(i: nat): Layout
    requires i <= HOLES
    decreases HOLES - i
  {
    if i == HOLES then End(TextBefore(i)) else Hole(TextBefore(i), KeyAfter(i), LayoutFrom(i + 1))
  }

  /** The number of the first piece. */
  const FIRST: nat := HOLES - 15

  function ProductionLayout(): Layout {
    LayoutFrom(FIRST)
  }

  /** One replace-all pass per key, in the given order. */
  function Passes(s: string, order: seq<Key>, values: map<Key, string>): string
    requires forall k :: k in order ==> k in values
    decreases |order|
  {
    if order == [] then s
    else Passes(ReplaceAll(s, Placeholder(order[0]), values[order[0]]), order[1..], values)
  }

  ghost predicate Total(values: map<Key, string>) {
    forall k: Key :: k in values
  }

  /** An order in which a loop may visit the replacement map: every key exactly once. */
  ghost predicate IsOrder(order: seq<Key>) {
    && (forall k: Key :: k in order)
    && Distinct(order)
  }

  ghost predicate Distinct(order: seq<Key>) {
    forall i, j :: 0 <= i < j < |order| ==> order[i] != order[j]
  }

  // ---------------------------------------------------------------------------
  // Placeholders never overlap
  // ---------------------------------------------------------------------------

  predicate KeyChar(c: char) {
    c == '{' || c == '}' || c == '_' || 'A' <= c <= 'Z'
  }

  lemma NameChars(k: Key)
    ensures Name(k) != ""
    ensures forall i :: 0 <= i < |Name(k)| ==> KeyChar(Name(k)[i]) && Name(k)[i] != '{' && Name(k)[i] != '}'
  {
  }

  lemma NameInjective(a: Key, b: Key)
    requires Name(a) == Name(b)
    ensures a == b
  {
    assert |Name(a)| == |Name(b)|;
    assert Name(a)[0] == Name(b)[0];
    assert Name(a)[1] == Name(b)[1];
  }

  lemma WrappedAt(s: string, name: string, i: int)
    requires OccursAt(s, "{{" + name + "}}", i)
    requires forall q :: 0 <= q < |name| ==> KeyChar(name[q]) && name[q] != '{' && name[q] != '}'
    ensures i + |name| + 4 <= |s|
    ensures s[i] == '{' && s[i + 1] == '{'
    ensures forall x :: i + 2 <= x < i + |name| + 4 ==> s[x] != '{'
    ensures forall x :: i + 2 <= x < i + |name| + 2 ==> s[x] == name[x - i - 2] && s[x] != '}'
    ensures s[i + |name| + 2] == '}'
    ensures forall x :: i <= x < i + |name| + 4 ==> KeyChar(s[x])
  {
    var p := "{{" + name + "}}";
    forall x | i <= x < i + |p|
      ensures s[x] == p[x - i]
    {
      assert s[i..i + |p|][x - i] == s[x];
    }
  }

  /** What the characters of `s` are where a placeholder occurs. */
  lemma PlaceholderAt(s: string, k: Key, i: int)
    requires OccursAt(s, Placeholder(k), i)
    ensures i + |Name(k)| + 4 <= |s|
    ensures s[i] == '{' && s[i + 1] == '{'
    ensures forall x :: i + 2 <= x < i + |Name(k)| + 4 ==> s[x] != '{'
    ensures forall x :: i + 2 <= x < i + |Name(k)| + 2 ==> s[x] == Name(k)[x - i - 2] && s[x] != '}'
    ensures s[i + |Name(k)| + 2] == '}'
    ensures forall x :: i <= x < i + |Name(k)| + 4 ==> KeyChar(s[x])
  {
    NameChars(k);
    WrappedAt(s, Name(k), i);
  }

  /** Two placeholders in one text are disjoint or the same placeholder at the same place. */
  lemma NoOverlap(s: string, a: Key, b: Key, i: int, j: int)
    requires OccursAt(s, Placeholder(a), i) && OccursAt(s, Placeholder(b), j)
    requires i <= j < i + |Placeholder(a)|
    ensures i == j && a == b
  {
    NameChars(a);
    NameChars(b);
    PlaceholderAt(s, a, i);
    PlaceholderAt(s, b, j);
    assert i == j;
    assert |Name(a)| == |Name(b)|;
    forall q | 0 <= q < |Name(a)|
      ensures Name(a)[q] == Name(b)[q]
    {
      assert s[i + 2 + q] == Name(a)[q] && s[i + 2 + q] == Name(b)[q];
    }
    NameInjective(a, b);
  }

  // ---------------------------------------------------------------------------
  // One pass fills one hole
  // ---------------------------------------------------------------------------

  predicate PlainText(text: string) {
    '{' !in text
  }

  function FirstText(l: Layout): string { l.text }

  /** Literal text has no brace, and a hole is always followed by a character no placeholder contains. */
  predicate WellFormed(l: Layout) {
    match l
    case End(text) => PlainText(text)
    case Hole(text, _, rest) =>
      && PlainText(text)
      && FirstText(rest) != "" && !KeyChar(FirstText(rest)[0])
      && WellFormed(rest)
  }

  lemma PlainAppend(a: string, b: string)
    requires PlainText(a) && PlainText(b)
    ensures PlainText(a + b)
  {
  }

  lemma LongTextPlain()
    ensures PlainText(TextBefore(11)) && TextBefore(11) != "" && !KeyChar(TextBefore(11)[0])
  {
    var head := "/mysql-bin\n" + "binlog_format=ROW\n" + "gtid_mode=ON\n" + "enforce_gtid_" + "consistency=ON\n";
    var tail := "sync_binlog=1\n" + "innodb_flush_log_" + "at_trx_commit=1\n" + "innodb_buffer_" + "pool_size=";
    HeadPlain(head);
    TailPlain(tail);
    PlainAppend(head, tail);
    assert TextBefore(11) == head + tail;
  }

  lemma HeadPlain(head: string)
    requires head == "/mysql-bin\n" + "binlog_format=ROW\n" + "gtid_mode=ON\n" + "enforce_gtid_" + "consistency=ON\n"
    ensures PlainText(head) && head != "" && head[0] == '/'
  {
  }

  lemma TailPlain(tail: string)
    requires tail == "sync_binlog=1\n" + "innodb_flush_log_" + "at_trx_commit=1\n" + "innodb_buffer_" + "pool_size="
    ensures PlainText(tail)
  {
  }

  lemma MiddleTextPlain(i: nat)
    requires i == 7 || i == 9
    ensures PlainText(TextBefore(i)) && TextBefore(i) != "" && !KeyChar(TextBefore(i)[0])
  {
  }

  lemma EarlyTextPlain(i: nat)
    requires i <= 6
    ensures PlainText(TextBefore(i)) && TextBefore(i) != ""
    ensures i > 0 ==> !KeyChar(TextBefore(i)[0])
  {
  }

  lemma LateTextPlain(i: nat)
    requires i == 8 || i == 10 || 12 <= i <= HOLES
    ensures PlainText(TextBefore(i)) && TextBefore(i) != "" && !KeyChar(TextBefore(i)[0])
  {
  }

  lemma TextPlain(i: nat)
    requires i <= HOLES
    ensures PlainText(TextBefore(i)) && TextBefore(i) != ""
    ensures i > 0 ==> !KeyChar(TextBefore(i)[0])
  {
    if i <= 6 {
      EarlyTextPlain(i);
    } else if i == 11 {
      LongTextPlain();
    } else if i == 7 || i == 9 {
      MiddleTextPlain(i);
    } else {
      LateTextPlain(i);
    }
  }

  lemma {:induction false} LayoutWellFormed(i: nat)
    requires i <= HOLES
    ensures WellFormed(LayoutFrom(i)) && FirstText(LayoutFrom(i)) == TextBefore(i)
    decreases HOLES - i
  {
    TextPlain(i);
    if i < HOLES {
      LayoutWellFormed(i + 1);
      TextPlain(i + 1);
    }
  }

  lemma {:induction false} LayoutHasHole(i: nat, j: nat)
    requires i <= j < HOLES
    ensures HasHole(LayoutFrom(i), KeyAfter(j))
    decreases j - i
  {
    if i < j {
      LayoutHasHole(i + 1, j);
    }
  }

  /** The production template is well formed and uses all eleven variables. */
  lemma ProductionIsWellFormed()
    ensures WellFormed(ProductionLayout()) && AllHoles(ProductionLayout())
  {
    LayoutWellFormed(0);
    forall k: Key
      ensures HasHole(ProductionLayout(), k)
    {
      var j := match k
        case PORT => 0 case SERVER_ID => 1 case BASEDIR => 2 case DATADIR => 3 case RUNDIR => 4
        case LOGDIR => 6 case LONG_QUERY_TIME => 8 case COLLATION => 9 case BINLOGDIR => 10
        case INNODB_BUFFER_POOL_SIZE => 11 case MAX_CONNECTIONS => 12;
      assert KeyAfter(j) == k;
      LayoutHasHole(0, j);
    }
  }

  predicate HasHole(l: Layout, k: Key) {
    match l
    case End(_) => false
    case Hole(_, h, rest) => h == k || HasHole(rest, k)
  }

  ghost predicate AllHoles(l: Layout) {
    forall k: Key :: HasHole(l, k)
  }

  lemma FillStarts(l: Layout, env: map<Key, string>)
    ensures FirstText(l) <= Fill(l, env)
  {
  }

  lemma PlainTextHasNoKey(text: string, k: Key)
    requires PlainText(text)
    ensures !Contains(text, Placeholder(k))
  {
    forall i | OccursAt(text, Placeholder(k), i)
      ensures false
    {
      PlaceholderAt(text, k, i);
    }
  }

  /** Plain text, a filler, then text that starts outside the key alphabet: replacement works part by part. */
  lemma ReplaceParts(text: string, mid: string, tail: string, k: Key, v: string)
    requires PlainText(text)
    requires tail != "" && !KeyChar(tail[0])
    ensures ReplaceAll(text + mid + tail, Placeholder(k), v)
         == text + ReplaceAll(mid, Placeholder(k), v) + ReplaceAll(tail, Placeholder(k), v)
  {
    var p := Placeholder(k);
    assert text + mid + tail == text + (mid + tail);
    forall i | OccursAt(text + (mid + tail), p, i)
      ensures i >= |text|
    {
      PlaceholderAt(text + (mid + tail), k, i);
    }
    ReplaceSplit(text, mid + tail, p, v);
    forall i | 0 <= i < |mid| && OccursAt(mid + tail, p, i)
      ensures i + |p| <= |mid|
    {
      assert (mid + tail)[|mid|] == tail[0];
      PlaceholderAt(mid + tail, k, i);
    }
    ReplaceSplit(mid, tail, p, v);
    PlainTextHasNoKey(text, k);
    ReplaceAbsent(text, p, v);
  }

  lemma ReplaceSelf(k: Key, v: string)
    ensures ReplaceAll(Placeholder(k), Placeholder(k), v) == v
  {
    var p := Placeholder(k);
    assert p[|p|..] == "";
    assert v + "" == v;
  }

  lemma ReplaceOther(k: Key, other: Key, v: string)
    requires k != other
    ensures ReplaceAll(Placeholder(other), Placeholder(k), v) == Placeholder(other)
  {
    var p, q := Placeholder(k), Placeholder(other);
    assert OccursAt(q, q, 0);
    forall j | OccursAt(q, p, j)
      ensures false
    {
      NoOverlap(q, other, k, 0, j);
    }
    ReplaceAbsent(q, p, v);
  }

  /** A pass for an unfilled key fills exactly that key's holes, whatever its value is. */
  lemma {:induction false} FillStep(l: Layout, env: map<Key, string>, k: Key, v: string)
    requires WellFormed(l) && k !in env
    requires forall a :: a in env ==> !Contains(env[a], Placeholder(k))
    ensures ReplaceAll(Fill(l, env), Placeholder(k), v) == Fill(l, env[k := v])
  {
    var p := Placeholder(k);
    match l {
      case End(text) =>
        PlainTextHasNoKey(text, k);
        ReplaceAbsent(text, p, v);
      case Hole(text, h, rest) =>
        var mid := if h in env then env[h] else Placeholder(h);
        var tail := Fill(rest, env);
        FillStarts(rest, env);
        assert tail[0] == FirstText(rest)[0];
        ReplaceParts(text, mid, tail, k, v);
        FillStep(rest, env, k, v);
        if h == k {
          ReplaceSelf(k, v);
        } else if h in env {
          ReplaceAbsent(mid, p, v);
        } else {
          ReplaceOther(k, h, v);
        }
    }
  }

  function Restrict(values: map<Key, string>, keys: set<Key>): map<Key, string> {
    map k | k in values && k in keys :: values[k]
  }

  ghost predicate NoKeyInside(values: map<Key, string>) {
    forall a, b: Key :: a in values ==> !Contains(values[a], Placeholder(b))
  }

  lemma {:induction false} PassesFill(l: Layout, done: set<Key>, order: seq<Key>, values: map<Key, string>)
    requires WellFormed(l) && Total(values)
    requires forall a, b: Key :: a in done || a in order ==> !Contains(values[a], Placeholder(b))
    requires Distinct(order) && forall k :: k in order ==> k !in done
    ensures Passes(Fill(l, Restrict(values, done)), order, values)
         == Fill(l, Restrict(values, done + set k | k in order))
    decreases |order|
  {
    if order == [] {
      assert done + (set k | k in order) == done;
    } else {
      var k := order[0];
      var env := Restrict(values, done);
      FillStep(l, env, k, values[k]);
      assert env[k := values[k]] == Restrict(values, done + {k});
      FirstVisited(done, order);
      PassesFill(l, done + {k}, order[1..], values);
    }
  }

  lemma FirstVisited(done: set<Key>, order: seq<Key>)
    requires Distinct(order) && order != [] && forall k :: k in order ==> k !in done
    ensures Distinct(order[1..]) && forall k :: k in order[1..] ==> k !in done + {order[0]}
    ensures done + {order[0]} + (set k | k in order[1..]) == done + set k | k in order
  {
    forall k
      ensures k in order <==> k == order[0] || k in order[1..]
    {
    }
  }

  /** If no value contains a placeholder, every order computes the one simultaneous substitution. */
  lemma OrderIrrelevant(l: Layout, order: seq<Key>, values: map<Key, string>)
    requires WellFormed(l) && Total(values) && NoKeyInside(values) && IsOrder(order)
    ensures Passes(Fill(l, map[]), order, values) == Fill(l, values)
  {
    assert Restrict(values, {}) == map[];
    PassesFill(l, {}, order, values);
    assert Restrict(values, {} + set k | k in order) == values;
  }

  // ---------------------------------------------------------------------------
  // When every order succeeds
  // ---------------------------------------------------------------------------

  ghost predicate BraceFree(values: map<Key, string>) {
    forall k :: k in values ==> !Contains(values[k], "{{")
  }

  lemma BracesAt(s: string, i: int)
    requires 0 <= i && i + 1 < |s|
    ensures OccursAt(s, "{{", i) <==> s[i] == '{' && s[i + 1] == '{'
  {
    assert s[i..i + 2] == [s[i], s[i + 1]];
  }

  lemma BraceFreeNoKey(values: map<Key, string>)
    requires BraceFree(values)
    ensures NoKeyInside(values)
  {
    forall a, b: Key | a in values && Contains(values[a], Placeholder(b))
      ensures Contains(values[a], "{{")
    {
      var i :| OccursAt(values[a], Placeholder(b), i);
      PlaceholderAt(values[a], b, i);
      BracesAt(values[a], i);
    }
  }

  lemma PlainTextHasNoBraces(text: string)
    requires PlainText(text)
    ensures !Contains(text, "{{")
  {
    forall i | OccursAt(text, "{{", i)
      ensures false
    {
      BracesAt(text, i);
    }
  }

  /** A seam after or before a character other than '{' creates no "{{". */
  lemma NoBracesAcross(a: string, b: string)
    requires !Contains(a, "{{") && !Contains(b, "{{")
    requires (a != "" && a[|a| - 1] != '{') || (b != "" && b[0] != '{') || a == "" || b == ""
    ensures !Contains(a + b, "{{")
  {
    ContainsSplit(a, b, "{{");
    forall i | OccursAt(a + b, "{{", i) && i < |a| < i + 2
      ensures false
    {
      BracesAt(a + b, i);
    }
  }

  lemma {:induction false} FilledBraceFree(l: Layout, values: map<Key, string>)
    requires WellFormed(l) && BraceFree(values)
    requires forall k :: HasHole(l, k) ==> k in values
    ensures !Contains(Fill(l, values), "{{")
  {
    PlainTextHasNoBraces(l.text);
    match l {
      case End(text) =>
      case Hole(text, h, rest) =>
        var tail := Fill(rest, values);
        FilledBraceFree(rest, values);
        FillStarts(rest, values);
        assert tail[0] == FirstText(rest)[0];
        NoBracesAcross(text, values[h]);
        NoBracesAcross(text + values[h], tail);
    }
  }

  lemma ContainsPrefix(p: string, s: string)
    requires p <= s
    ensures Contains(s, p)
  {
    assert s[0..0 + |p|] == p;
    assert OccursAt(s, p, 0);
  }

  lemma ContainsTrans(s: string, t: string, u: string)
    requires Contains(s, t) && Contains(t, u)
    ensures Contains(s, u)
  {
    var i :| OccursAt(s, t, i);
    var j :| OccursAt(t, u, j);
    SliceOfSlice(s, i, i + |t|, j, j + |u|);
    assert OccursAt(s, u, i + j);
  }

  lemma ContainsTail(s: string, n: nat, k: string, i: int)
    requires n <= i && OccursAt(s, k, i)
    ensures n <= |s| && Contains(s[n..], k)
  {
    assert s[n..] == s[n..|s|];
    SliceOfSlice(s, n, |s|, i - n, i - n + |k|);
    assert OccursAt(s[n..], k, i - n);
  }

  lemma LeadingPlaceholderKept(a: Key, rest: string, b: Key, v: string)
    requires a != b
    ensures ReplaceAll(Placeholder(a) + rest, Placeholder(b), v) == Placeholder(a) + ReplaceAll(rest, Placeholder(b), v)
  {
    var pa, pb := Placeholder(a), Placeholder(b);
    var s := pa + rest;
    assert OccursAt(s, pa, 0);
    forall j | 0 <= j < |pa| && OccursAt(s, pb, j)
      ensures false
    {
      NoOverlap(s, a, b, 0, j);
    }
    ReplaceSplit(pa, rest, pb, v);
    ReplaceOther(b, a, v);
  }

  /** A placeholder that occurs behind a leading one starts after it. */
  lemma StartsAfter(s: string, a: Key, b: Key, i: nat)
    requires a != b && Placeholder(b) <= s && OccursAt(s, Placeholder(a), i)
    ensures i >= |Placeholder(b)|
  {
    assert OccursAt(s, Placeholder(b), 0);
    if i < |Placeholder(b)| {
      NoOverlap(s, b, a, 0, i);
    }
  }

  /** A pass for one key keeps every other placeholder of the text. */
  lemma {:induction false} OtherSurvives(s: string, a: Key, b: Key, v: string)
    requires a != b && Contains(s, Placeholder(a))
    ensures Contains(ReplaceAll(s, Placeholder(b), v), Placeholder(a))
    decreases |s|
  {
    var pa, pb := Placeholder(a), Placeholder(b);
    var i :| OccursAt(s, pa, i);
    if pb <= s {
      StartsAfter(s, a, b, i);
      ContainsTail(s, |pb|, pa, i);
      OtherSurvives(s[|pb|..], a, b, v);
      ContainsSplit(v, ReplaceAll(s[|pb|..], pb, v), pa);
    } else if i == 0 {
      assert s == pa + s[|pa|..];
      LeadingPlaceholderKept(a, s[|pa|..], b, v);
      ContainsPrefix(pa, ReplaceAll(s, pb, v));
    } else {
      ContainsTail(s, 1, pa, i);
      OtherSurvives(s[1..], a, b, v);
      ContainsSplit([s[0]], ReplaceAll(s[1..], pb, v), pa);
    }
  }

  /** A pass for a key that occurs puts its value into the text. */
  lemma {:induction false} ValueAppears(s: string, k: string, v: string)
    requires k != "" && Contains(s, k)
    ensures Contains(ReplaceAll(s, k, v), v)
    decreases |s|
  {
    assert s != "" by {
      var i :| OccursAt(s, k, i);
    }
    if k <= s {
      ContainsPrefix(v, ReplaceAll(s, k, v));
    } else {
      ContainsCons(s, k);
      ValueAppears(s[1..], k, v);
      ContainsSplit([s[0]], ReplaceAll(s[1..], k, v), v);
    }
  }

  /** The value of the key visited last survives into the output verbatim. */
  lemma {:induction false} LastValueAppears(s: string, order: seq<Key>, values: map<Key, string>)
    requires Total(values) && order != [] && Distinct(order)
    requires Contains(s, Placeholder(order[|order| - 1]))
    ensures Contains(Passes(s, order, values), values[order[|order| - 1]])
    decreases |order|
  {
    var k, last := order[0], order[|order| - 1];
    if |order| == 1 {
      ValueAppears(s, Placeholder(k), values[k]);
      var out := ReplaceAll(s, Placeholder(k), values[k]);
      assert Passes(s, order, values) == Passes(out, order[1..], values);
      assert order[1..] == [];
      assert Passes(out, [], values) == out;
    } else {
      OtherSurvives(s, last, k, values[k]);
      LastValueAppears(ReplaceAll(s, Placeholder(k), values[k]), order[1..], values);
    }
  }

  lemma {:induction false} HoleShows(l: Layout, k: Key)
    requires HasHole(l, k)
    ensures Contains(Fill(l, map[]), Placeholder(k))
  {
    var tail := Fill(l.rest, map[]);
    if l.key == k {
      ContainsPrefix(Placeholder(k), Placeholder(k));
    } else {
      HoleShows(l.rest, k);
    }
    ContainsSplit(l.text, Placeholder(l.key), Placeholder(k));
    ContainsSplit(l.text + Placeholder(l.key), tail, Placeholder(k));
  }

  function AllKeys(): seq<Key> {
    [PORT, SERVER_ID, BASEDIR, DATADIR, LOGDIR, BINLOGDIR, RUNDIR,
     LONG_QUERY_TIME, COLLATION, INNODB_BUFFER_POOL_SIZE, MAX_CONNECTIONS]
  }

  lemma AllKeysOrder()
    ensures IsOrder(AllKeys())
  {
    forall k: Key
      ensures k in AllKeys()
    {
      match k {
        case PORT => assert AllKeys()[0] == k;
        case SERVER_ID => assert AllKeys()[1] == k;
        case BASEDIR => assert AllKeys()[2] == k;
        case DATADIR => assert AllKeys()[3] == k;
        case LOGDIR => assert AllKeys()[4] == k;
        case BINLOGDIR => assert AllKeys()[5] == k;
        case RUNDIR => assert AllKeys()[6] == k;
        case LONG_QUERY_TIME => assert AllKeys()[7] == k;
        case COLLATION => assert AllKeys()[8] == k;
        case INNODB_BUFFER_POOL_SIZE => assert AllKeys()[9] == k;
        case MAX_CONNECTIONS => assert AllKeys()[10] == k;
      }
    }
  }

  function Without(order: seq<Key>, k: Key): seq<Key> {
    if order == [] then []
    else if order[0] == k then Without(order[1..], k)
    else [order[0]] + Without(order[1..], k)
  }

  lemma {:induction false} WithoutKeeps(order: seq<Key>, k: Key)
    requires Distinct(order)
    ensures Distinct(Without(order, k))
    ensures forall x :: x in Without(order, k) <==> x in order && x != k
  {
    if order != [] {
      WithoutKeeps(order[1..], k);
      assert order == [order[0]] + order[1..];
      assert order[0] !in order[1..];
    }
  }

  lemma MovedToEnd(order: seq<Key>, k: Key)
    requires IsOrder(order)
    ensures IsOrder(Without(order, k) + [k])
    ensures (Without(order, k) + [k])[|Without(order, k)|] == k
  {
    WithoutKeeps(order, k);
    var w := Without(order, k);
    forall x: Key
      ensures x in w + [k]
    {
      assert x == k || x in w;
    }
    assert k !in w;
    assert Distinct(w + [k]);
  }

  ghost predicate Succeeds(l: Layout, order: seq<Key>, values: map<Key, string>)
    requires Total(values)
  {
    !Contains(Passes(Fill(l, map[]), order, values), "{{")
  }

  /** Rendering succeeds in every visiting order exactly when no value contains "{{". */
  lemma EveryOrderSucceeds(l: Layout, values: map<Key, string>)
    requires WellFormed(l) && AllHoles(l) && Total(values)
    ensures (forall order | IsOrder(order) :: Succeeds(l, order, values)) <==> BraceFree(values)
  {
    if BraceFree(values) {
      forall order | IsOrder(order)
        ensures Succeeds(l, order, values)
      {
        BraceFreeSucceeds(l, order, values);
      }
    } else {
      var k :| k in values && Contains(values[k], "{{");
      var order := SomeOrderEndingIn(k);
      LastValueFails(l, order, values);
    }
  }

  lemma BraceFreeSucceeds(l: Layout, order: seq<Key>, values: map<Key, string>)
    requires WellFormed(l) && Total(values) && BraceFree(values) && IsOrder(order)
    ensures Succeeds(l, order, values)
  {
    BraceFreeNoKey(values);
    OrderIrrelevant(l, order, values);
    FilledBraceFree(l, values);
  }

  lemma SomeOrderEndingIn(k: Key) returns (order: seq<Key>)
    ensures IsOrder(order) && order != [] && order[|order| - 1] == k
  {
    var all := AllKeys();
    AllKeysOrder();
    MovedToEnd(all, k);
    order := Without(all, k) + [k];
  }

  /** A visiting order whose last key has a value with "{{" fails. */
  lemma LastValueFails(l: Layout, order: seq<Key>, values: map<Key, string>)
    requires AllHoles(l) && Total(values) && IsOrder(order) && order != []
    requires Contains(values[order[|order| - 1]], "{{")
    ensures !Succeeds(l, order, values)
  {
    var k := order[|order| - 1];
    HoleShows(l, k);
    LastValueAppears(Fill(l, map[]), order, values);
    ContainsTrans(Passes(Fill(l, map[]), order, values), values[k], "{{");
  }
}
