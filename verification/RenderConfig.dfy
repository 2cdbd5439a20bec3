/** `RenderConfig`: validate the settings, then fill the production template in an
    unspecified key order. */
module RenderConfig {
  import opened Options
  import opened Text
  import opened Template

  datatype ConfigValues = ConfigValues(
    port: int, serverId: int,
    baseDir: string, dataDir: string, logDir: string, binlogDir: string, runDir: string,
    innodbBufferPoolBytes: int, maxConnections: int,
    longQueryTime: string, collation: string)

  datatype ConfigError = BadPortOrServerId | BadMemoryOrConnections | BadAtom | BadPath | UnresolvedVariable

  datatype Rendered = Ok(text: string) | Err(error: ConfigError)

  predicate AtomChar(c: char) {
    'a' <= c <= 'z' || 'A' <= c <= 'Z' || '0' <= c <= '9' || c == '.' || c == '_' || c == '-'
  }

  predicate IsConfigAtom(v: string) {
    v != "" && |v| <= 128 && forall i :: 0 <= i < |v| ==> AtomChar(v[i])
  }

  method SafeConfigAtom(v: string) returns (ok: bool)
    ensures ok <==> IsConfigAtom(v)
    ensures ok <==> 1 <= |v| <= 128 && forall i :: 0 <= i < |v| ==>
                      '0' <= v[i] <= '9' || 'A' <= v[i] <= 'Z' || 'a' <= v[i] <= 'z' || v[i] == '.' || v[i] == '_' || v[i] == '-'
  {
    if v == "" || |v| > 128 {
      return false;
    }
    for i := 0 to |v|
      invariant forall j :: 0 <= j < i ==> AtomChar(v[j])
    {
      if !AtomChar(v[i]) {
        return false;
      }
    }
    return true;
  }

  predicate IsConfigPath(p: string) {
    '\r' !in p && '\n' !in p && '\0' !in p
  }

  function Paths(v: ConfigValues): seq<string> {
    [v.baseDir, v.dataDir, v.logDir, v.binlogDir, v.runDir]
  }

  /** The first check that rejects the settings, if any. */
  function Rejection(v: ConfigValues): (r: seq<ConfigError>)
    ensures |r| <= 1
  {
    if v.port < 1 || v.port > 65535 || v.serverId <= 0 then [BadPortOrServerId]
    else if v.innodbBufferPoolBytes <= 0 || v.maxConnections <= 0 then [BadMemoryOrConnections]
    else if !IsConfigAtom(v.collation) || !IsConfigAtom(v.longQueryTime) then [BadAtom]
    else if exists p | p in Paths(v) :: !IsConfigPath(p) then [BadPath]
    else []
  }

  function Replacements(v: ConfigValues): map<Key, string>
    requires Rejection(v) == []
  {
    map[
      PORT := Decimal(v.port),
      SERVER_ID := Decimal(v.serverId),
      BASEDIR := v.baseDir,
      DATADIR := v.dataDir,
      LOGDIR := v.logDir,
      BINLOGDIR := v.binlogDir,
      RUNDIR := v.runDir,
      LONG_QUERY_TIME := v.longQueryTime,
      COLLATION := v.collation,
      INNODB_BUFFER_POOL_SIZE := Decimal(v.innodbBufferPoolBytes),
      MAX_CONNECTIONS := Decimal(v.maxConnections)
    ]
  }

  lemma ReplacementsTotal(v: ConfigValues)
    requires Rejection(v) == []
    ensures Total(Replacements(v))
  {
    forall k: Key
      ensures k in Replacements(v)
    {
      match k {
        case PORT => case SERVER_ID => case BASEDIR => case DATADIR => case LOGDIR => case BINLOGDIR =>
        case RUNDIR => case LONG_QUERY_TIME => case COLLATION => case INNODB_BUFFER_POOL_SIZE =>
        case MAX_CONNECTIONS =>
      }
    }
  }

  /** The whole operation for one visiting order of the replacement map. */
  ghost function Render(v: ConfigValues, order: seq<Key>): Rendered {
    if Rejection(v) != [] then Err(Rejection(v)[0])
    else
      ReplacementsTotal(v);
      var out := Passes(Fill(ProductionLayout(), map[]), order, Replacements(v));
      if Contains(out, "{{") then Err(UnresolvedVariable) else Ok(out)
  }

  // ---------------------------------------------------------------------------
  // The text, word for word
  // ---------------------------------------------------------------------------

  /** The production file with the settings in their places. */
  function ConfigText(v: ConfigValues): string
    requires Rejection(v) == []
  {
    "[mysqld]\nport=" + Decimal(v.port) + (
    "\nserver_id=" + Decimal(v.serverId) + PathSection(v))
  }

  function PathSection(v: ConfigValues): string
    requires Rejection(v) == []
  {
    "\nbasedir=" + v.baseDir + (
    "\ndatadir=" + v.dataDir + (
    "\nsocket=" + v.runDir + FileSection(v)))
  }

  function FileSection(v: ConfigValues): string
    requires Rejection(v) == []
  {
    "/mysql.sock\npid-file=" + v.runDir + (
    "/mysqld.pid\nlog_error=" + v.logDir + LogSection(v))
  }

  function LogSection(v: ConfigValues): string
    requires Rejection(v) == []
  {
    "/error.log\n" + "slow_query_log=ON\n" + "slow_query_log_file=" + v.logDir + (
    "/slow.log\n" + "long_query_time=" + v.longQueryTime + (
    "\ncharacter_set_" + "server=utf8mb4\n" + "collation_server=" + v.collation + (
    "\nlog_bin=" + v.binlogDir + LimitSection(v))))
  }

  function LimitSection(v: ConfigValues): string
    requires Rejection(v) == []
  {
    "/mysql-bin\n" + "binlog_format=ROW\n" + "gtid_mode=ON\n" + "enforce_gtid_" + "consistency=ON\n"
    + "sync_binlog=1\n" + "innodb_flush_log_" + "at_trx_commit=1\n" + "innodb_buffer_" + "pool_size=" + Decimal(v.innodbBufferPoolBytes) + (
    "\nmax_connections=" + Decimal(v.maxConnections) + (
    "\n\n[client]\nport=" + Decimal(v.port) + (
    "\nsocket=" + v.runDir + "/mysql.sock\n")))
  }

  lemma FillFrom(i: nat, text: string, k: Key, value: string, env: map<Key, string>)
    requires i < HOLES && text == TextBefore(i) && k == KeyAfter(i) && k in env && value == env[k]
    ensures Fill(LayoutFrom(i), env) == text + value + Fill(LayoutFrom(i + 1), env)
  {
  }

  lemma LimitsFilled(v: ConfigValues)
    requires Rejection(v) == []
    ensures Fill(LayoutFrom(11), Replacements(v)) == LimitSection(v)
  {
    var env := Replacements(v);
    FillFrom(11, TextBefore(11), INNODB_BUFFER_POOL_SIZE, Decimal(v.innodbBufferPoolBytes), env);
    FillFrom(12, "\nmax_connections=", MAX_CONNECTIONS, Decimal(v.maxConnections), env);
    FillFrom(13, "\n\n[client]\nport=", PORT, Decimal(v.port), env);
    FillFrom(14, "\nsocket=", RUNDIR, v.runDir, env);
    assert Fill(LayoutFrom(15), env) == "/mysql.sock\n";
  }

  lemma LogsFilled(v: ConfigValues)
    requires Rejection(v) == []
    ensures Fill(LayoutFrom(7), Replacements(v)) == LogSection(v)
  {
    var env := Replacements(v);
    FillFrom(7, TextBefore(7), LOGDIR, v.logDir, env);
    FillFrom(8, TextBefore(8), LONG_QUERY_TIME, v.longQueryTime, env);
    FillFrom(9, TextBefore(9), COLLATION, v.collation, env);
    FillFrom(10, "\nlog_bin=", BINLOGDIR, v.binlogDir, env);
    LimitsFilled(v);
  }

  lemma ProductionFilled(v: ConfigValues)
    requires Rejection(v) == []
    ensures Fill(ProductionLayout(), Replacements(v)) == ConfigText(v)
  {
    var env := Replacements(v);
    FillFrom(0, "[mysqld]\nport=", PORT, Decimal(v.port), env);
    FillFrom(1, "\nserver_id=", SERVER_ID, Decimal(v.serverId), env);
    PathsFilled(v);
  }

  lemma PathsFilled(v: ConfigValues)
    requires Rejection(v) == []
    ensures Fill(LayoutFrom(2), Replacements(v)) == PathSection(v)
  {
    var env := Replacements(v);
    FillFrom(2, "\nbasedir=", BASEDIR, v.baseDir, env);
    FillFrom(3, "\ndatadir=", DATADIR, v.dataDir, env);
    FillFrom(4, "\nsocket=", RUNDIR, v.runDir, env);
    FilesFilled(v);
  }

  lemma FilesFilled(v: ConfigValues)
    requires Rejection(v) == []
    ensures Fill(LayoutFrom(5), Replacements(v)) == FileSection(v)
  {
    var env := Replacements(v);
    FillFrom(5, "/mysql.sock\npid-file=", RUNDIR, v.runDir, env);
    FillFrom(6, "/mysqld.pid\nlog_error=", LOGDIR, v.logDir, env);
    LogsFilled(v);
  }

  /** If no path contains "{{", every visiting order yields this very text. */
  lemma RenderedText(v: ConfigValues, order: seq<Key>)
    requires Rejection(v) == [] && IsOrder(order)
    requires forall p :: p in Paths(v) ==> !Contains(p, "{{")
    ensures Render(v, order) == Ok(ConfigText(v))
  {
    RenderIsOrderIndependent(v, order);
    ProductionFilled(v);
  }

  // ---------------------------------------------------------------------------
  // Lines that no pass disturbs
  // ---------------------------------------------------------------------------

  /** Somewhere in the text: the head, then x, then the end of the line. */
  ghost predicate HasLine(text: string, head: string, x: string) {
    exists before, after: string :: IsLine(text, before, head, x, after)
  }

  predicate IsLine(text: string, before: string, head: string, x: string, after: string) {
    text == before + (head + x + ("\n" + after))
  }

  /** No placeholder straddles a character that placeholders do not contain. */
  lemma ReplaceAtSeparator(a: string, b: string, k: Key, w: string)
    requires b != "" && !KeyChar(b[0])
    ensures ReplaceAll(a + b, Placeholder(k), w) == ReplaceAll(a, Placeholder(k), w) + ReplaceAll(b, Placeholder(k), w)
  {
    forall i | 0 <= i < |a| && OccursAt(a + b, Placeholder(k), i)
      ensures i + |Placeholder(k)| <= |a|
    {
      assert (a + b)[|a|] == b[0];
      PlaceholderAt(a + b, k, i);
    }
    ReplaceSplit(a, b, Placeholder(k), w);
  }

  lemma ReplaceAfterBreak(after: string, k: Key, w: string)
    ensures ReplaceAll("\n" + after, Placeholder(k), w) == "\n" + ReplaceAll(after, Placeholder(k), w)
  {
    assert ("\n" + after)[1..] == after;
    assert Placeholder(k)[0] == '{';
  }

  /** A head that placeholders neither begin in nor straddle. */
  predicate LineHead(head: string) {
    head != "" && !KeyChar(head[0]) && PlainText(head)
  }

  lemma PassOnLine(text: string, before: string, head: string, x: string, after: string, k: Key, w: string)
    requires LineHead(head) && IsLine(text, before, head, x, after)
    ensures IsLine(ReplaceAll(text, Placeholder(k), w), ReplaceAll(before, Placeholder(k), w), head,
                   ReplaceAll(x, Placeholder(k), w), ReplaceAll(after, Placeholder(k), w))
  {
    var rest := head + x + ("\n" + after);
    assert rest[0] == head[0];
    ReplaceAtSeparator(before, rest, k, w);
    ReplaceParts(head, x, "\n" + after, k, w);
    ReplaceAfterBreak(after, k, w);
    PlainTextHasNoKey(head, k);
  }

  lemma {:induction false} LineStays(text: string, order: seq<Key>, values: map<Key, string>, head: string, x: string)
    requires forall k :: k in order ==> k in values
    requires LineHead(head) && PlainText(x) && HasLine(text, head, x)
    ensures HasLine(Passes(text, order, values), head, x)
    decreases |order|
  {
    if order != [] {
      var before, after :| IsLine(text, before, head, x, after);
      PassOnLine(text, before, head, x, after, order[0], values[order[0]]);
      PlainTextHasNoKey(x, order[0]);
      ReplaceAbsent(x, Placeholder(order[0]), values[order[0]]);
      LineStays(ReplaceAll(text, Placeholder(order[0]), values[order[0]]), order[1..], values, head, x);
    }
  }

  lemma {:induction false} LineFills(text: string, order: seq<Key>, values: map<Key, string>, head: string, k: Key)
    requires (forall h :: h in order ==> h in values) && k in order && PlainText(values[k])
    requires LineHead(head) && HasLine(text, head, Placeholder(k))
    ensures HasLine(Passes(text, order, values), head, values[k])
    decreases |order|
  {
    var before, after :| IsLine(text, before, head, Placeholder(k), after);
    var h := order[0];
    var text' := ReplaceAll(text, Placeholder(h), values[h]);
    PassOnLine(text, before, head, Placeholder(k), after, h, values[h]);
    if h == k {
      ReplaceSelf(k, values[k]);
      LineStays(text', order[1..], values, head, values[k]);
    } else {
      ReplaceOther(h, k, values[h]);
      LineFills(text', order[1..], values, head, k);
    }
  }

  lemma LineIsThere(text: string, head: string, x: string)
    requires HasLine(text, head, x)
    ensures Contains(text, head + x + "\n")
  {
    var before, after :| IsLine(text, before, head, x, after);
    assert text == before + (head + x + "\n") + after;
    assert OccursAt(text, head + x + "\n", |before|);
  }

  lemma FirstLines(a: string, b: string, c: string, d: string, rest: string)
    requires rest != "" && rest[0] == '\n'
    ensures IsLine(a + b + (c + d + rest), a + b, c, d, rest[1..])
  {
    assert rest == "\n" + rest[1..];
  }

  lemma HoleFrom(i: nat, text: string, k: Key, env: map<Key, string>)
    requires i < HOLES && text == TextBefore(i) && k == KeyAfter(i) && k !in env
    ensures Fill(LayoutFrom(i), env) == text + Placeholder(k) + Fill(LayoutFrom(i + 1), env)
  {
  }

  lemma BeginsWith(i: nat, text: string, env: map<Key, string>)
    requires i <= HOLES && text == TextBefore(i) && text != ""
    ensures Fill(LayoutFrom(i), env) != "" && Fill(LayoutFrom(i), env)[0] == text[0]
  {
    FillStarts(LayoutFrom(i), env);
  }

  lemma ServerIdHole(start: string, head: string, env: map<Key, string>)
    requires start == Fill(LayoutFrom(0), env) && head == "\nserver_id=" && PORT !in env && SERVER_ID !in env
    ensures HasLine(start, head, Placeholder(SERVER_ID))
  {
    BeginsWith(2, "\nbasedir=", env);
    HoleFrom(0, "[mysqld]\nport=", PORT, env);
    HoleFrom(1, head, SERVER_ID, env);
    FirstLines("[mysqld]\nport=", Placeholder(PORT), head, Placeholder(SERVER_ID), Fill(LayoutFrom(2), env));
  }

  lemma LineInPasses(start: string, order: seq<Key>, values: map<Key, string>, head: string, k: Key, value: string)
    requires (forall h :: h in order ==> h in values) && k in order && value == values[k] && PlainText(value)
    requires LineHead(head) && HasLine(start, head, Placeholder(k))
    ensures Contains(Passes(start, order, values), head + value + "\n")
  {
    LineFills(start, order, values, head, k);
    LineIsThere(Passes(start, order, values), head, value);
  }

  lemma DecimalPlain(n: nat)
    ensures PlainText(Decimal(n))
  {
  }

  lemma ServerIdHead(head: string)
    requires head == "\nserver_id="
    ensures LineHead(head)
  {
  }

  /** Whatever the paths hold: a rendered file has the settings' server_id in its line. */
  lemma IdLine(v: ConfigValues, order: seq<Key>, text: string, head: string)
    requires IsOrder(order) && Render(v, order) == Ok(text) && head == "\nserver_id="
    ensures Contains(text, head + Decimal(v.serverId) + "\n")
  {
    ReplacementsTotal(v);
    IdValue(v);
    IdInPasses(Fill(ProductionLayout(), map[]), order, Replacements(v), head, v.serverId, map[]);
  }

  lemma IdValue(v: ConfigValues)
    requires Rejection(v) == []
    ensures SERVER_ID in Replacements(v) && Replacements(v)[SERVER_ID] == Decimal(v.serverId)
  {
  }

  lemma IdInPasses(start: string, order: seq<Key>, values: map<Key, string>, head: string, id: nat, env: map<Key, string>)
    requires start == Fill(ProductionLayout(), env) && env == map[] && head == "\nserver_id="
    requires IsOrder(order) && Total(values) && values[SERVER_ID] == Decimal(id)
    ensures Contains(Passes(start, order, values), head + Decimal(id) + "\n")
  {
    ServerIdHole(start, head, env);
    ServerIdHead(head);
    DecimalPlain(id);
    LineInPasses(start, order, values, head, SERVER_ID, Decimal(id));
  }

  /** No carriage return, line feed or zero character. */
  predicate CleanPath(p: string) {
    forall i :: 0 <= i < |p| ==> p[i] as int != 13 && p[i] as int != 10 && p[i] as int != 0
  }

  lemma CleanMeaning(p: string)
    ensures IsConfigPath(p) <==> CleanPath(p)
  {
  }

  lemma FivePaths(v: ConfigValues)
    ensures (forall p :: p in Paths(v) ==> IsConfigPath(p)) <==>
            CleanPath(v.baseDir) && CleanPath(v.dataDir) && CleanPath(v.logDir) && CleanPath(v.binlogDir) && CleanPath(v.runDir)
  {
    var ps := Paths(v);
    CleanMeaning(v.baseDir);
    CleanMeaning(v.dataDir);
    CleanMeaning(v.logDir);
    CleanMeaning(v.binlogDir);
    CleanMeaning(v.runDir);
    assert ps[0] in ps && ps[1] in ps && ps[2] in ps && ps[3] in ps && ps[4] in ps;
  }

  lemma RenderedTexts(v: ConfigValues, order: seq<Key>)
    requires IsOrder(order)
    ensures Render(v, order).Ok? ==> Contains(Render(v, order).text, "\nserver_id=" + Decimal(v.serverId) + "\n")
    ensures Rejection(v) == [] && (forall p :: p in Paths(v) ==> !Contains(p, "{{")) ==> Render(v, order) == Ok(ConfigText(v))
  {
    if Render(v, order).Ok? {
      IdLine(v, order, Render(v, order).text, "\nserver_id=");
    }
    if Rejection(v) == [] && forall p :: p in Paths(v) ==> !Contains(p, "{{") {
      RenderedText(v, order);
    }
  }

  method PathsAreValid(v: ConfigValues) returns (ok: bool)
    ensures ok <==> forall p :: p in Paths(v) ==> IsConfigPath(p)
    ensures ok <==> CleanPath(v.baseDir) && CleanPath(v.dataDir) && CleanPath(v.logDir) && CleanPath(v.binlogDir) && CleanPath(v.runDir)
  {
    FivePaths(v);
    var paths := Paths(v);
    for i := 0 to |paths|
      invariant forall j :: 0 <= j < i ==> IsConfigPath(paths[j])
    {
      if !IsConfigPath(paths[i]) {
        return false;
      }
    }
    return true;
  }

  lemma RejectedRender(v: ConfigValues, order: seq<Key>, e: ConfigError)
    requires Rejection(v) == [e]
    ensures Render(v, order) == Err(e)
  {
  }

  /** The checks, in their order. */
  method Check(v: ConfigValues) returns (rejection: Option<ConfigError>)
    ensures Rejection(v) == if rejection.Some? then [rejection.value] else []
    ensures rejection == Some(BadPortOrServerId) <==> v.port < 1 || v.port > 65535 || v.serverId < 1
    ensures rejection == Some(BadMemoryOrConnections) <==>
            1 <= v.port <= 65535 && v.serverId >= 1 && (v.innodbBufferPoolBytes < 1 || v.maxConnections < 1)
    ensures rejection != Some(UnresolvedVariable)
    ensures rejection.None? <==> Rejection(v) == []
  {
    if v.port < 1 || v.port > 65535 || v.serverId <= 0 {
      return Some(BadPortOrServerId);
    }
    if v.innodbBufferPoolBytes <= 0 || v.maxConnections <= 0 {
      return Some(BadMemoryOrConnections);
    }
    var collationOk := SafeConfigAtom(v.collation);
    var longQueryTimeOk := SafeConfigAtom(v.longQueryTime);
    if !collationOk || !longQueryTimeOk {
      return Some(BadAtom);
    }
    var pathsOk := PathsAreValid(v);
    if !pathsOk {
      return Some(BadPath);
    }
    return None;
  }

  /** `order` is the order in which the language happens to visit the replacement map. */
  method RenderConfig(v: ConfigValues, order: seq<Key>) returns (r: Rendered)
    requires IsOrder(order)
    ensures r == Render(v, order)
    ensures r.Ok? ==> !Contains(r.text, "{{")
    ensures r.Ok? ==> Contains(r.text, "\nserver_id=" + Decimal(v.serverId) + "\n")
    ensures Rejection(v) == [] && (forall p :: p in Paths(v) ==> !Contains(p, "{{")) ==> r == Ok(ConfigText(v))
  {
    var rejection := Check(v);
    if rejection.Some? {
      RejectedRender(v, order, rejection.value);
      return Err(rejection.value);
    }
    r := RenderAccepted(v, order);
  }

  method RenderAccepted(v: ConfigValues, order: seq<Key>) returns (r: Rendered)
    requires Rejection(v) == [] && IsOrder(order)
    ensures r == Render(v, order) && (r.Ok? || r == Err(UnresolvedVariable))
    ensures r.Ok? ==> !Contains(r.text, "{{")
    ensures r.Ok? ==> Contains(r.text, "\nserver_id=" + Decimal(v.serverId) + "\n")
    ensures (forall p :: p in Paths(v) ==> !Contains(p, "{{")) ==> r == Ok(ConfigText(v))
  {
    ReplacementsTotal(v);
    var out := FillTemplate(Replacements(v), order);
    var unresolved := Search(out, "{{");
    RenderedTexts(v, order);
    if unresolved {
      return Err(UnresolvedVariable);
    }
    return Ok(out);
  }

  method FillTemplate(values: map<Key, string>, order: seq<Key>) returns (out: string)
    requires forall k :: k in order ==> k in values
    ensures out == Passes(Fill(ProductionLayout(), map[]), order, values)
  {
    var template := Fill(ProductionLayout(), map[]);
    out := template;
    for i := 0 to |order|
      invariant Passes(out, order[i..], values) == Passes(template, order, values)
    {
      assert order[i..][1..] == order[i + 1..];
      out := ReplaceAll(out, Placeholder(order[i]), values[order[i]]);
    }
  }

  lemma PlainWithoutBrace(s: string)
    requires forall i :: 0 <= i < |s| ==> s[i] != '{'
    ensures !Contains(s, "{{")
  {
    PlainTextHasNoBraces(s);
  }

  /** Validated numbers and atoms have no brace, so only the five paths can bring "{{" in. */
  lemma ReplacementsBraceFree(v: ConfigValues)
    requires Rejection(v) == []
    ensures BraceFree(Replacements(v)) <==> forall p :: p in Paths(v) ==> !Contains(p, "{{")
  {
    PlainWithoutBrace(Decimal(v.port));
    PlainWithoutBrace(Decimal(v.serverId));
    PlainWithoutBrace(Decimal(v.innodbBufferPoolBytes));
    PlainWithoutBrace(Decimal(v.maxConnections));
    PlainWithoutBrace(v.longQueryTime);
    PlainWithoutBrace(v.collation);
    var m := Replacements(v);
    var paths := Paths(v);
    if forall p :: p in paths ==> !Contains(p, "{{") {
      assert forall i :: 0 <= i < 5 ==> !Contains(paths[i], "{{");
      assert paths[0] == m[BASEDIR] && paths[1] == m[DATADIR] && paths[2] == m[LOGDIR]
          && paths[3] == m[BINLOGDIR] && paths[4] == m[RUNDIR];
    }
    if BraceFree(m) {
      assert !Contains(m[BASEDIR], "{{") && !Contains(m[DATADIR], "{{") && !Contains(m[LOGDIR], "{{")
          && !Contains(m[BINLOGDIR], "{{") && !Contains(m[RUNDIR], "{{");
    }
  }

  /** If no path contains "{{", every visiting order yields the same successful text: the
      simultaneous substitution of the production template. */
  lemma RenderIsOrderIndependent(v: ConfigValues, order: seq<Key>)
    requires Rejection(v) == [] && IsOrder(order)
    requires forall p :: p in Paths(v) ==> !Contains(p, "{{")
    ensures Render(v, order) == Ok(Fill(ProductionLayout(), Replacements(v)))
  {
    ReplacementsTotal(v);
    ReplacementsBraceFree(v);
    ProductionIsWellFormed();
    BraceFreeNoKey(Replacements(v));
    OrderIrrelevant(ProductionLayout(), order, Replacements(v));
    FilledBraceFree(ProductionLayout(), Replacements(v));
  }

  /** Accepted settings render successfully in every visiting order exactly when no path contains "{{". */
  lemma RenderAlwaysSucceedsIff(v: ConfigValues)
    requires Rejection(v) == []
    ensures (forall order | IsOrder(order) :: Render(v, order).Ok?)
       <==> (forall p :: p in Paths(v) ==> !Contains(p, "{{"))
  {
    var values := Replacements(v);
    var l := ProductionLayout();
    ReplacementsTotal(v);
    ReplacementsBraceFree(v);
    ProductionIsWellFormed();
    EveryOrderSucceeds(l, values);
    assert forall order :: IsOrder(order) ==> (Render(v, order).Ok? <==> Succeeds(l, order, values));
  }

  /** Whatever the paths are: accepted settings have one outcome in all orders if and only if no path
      contains "{{" or no order succeeds. Which orders succeed is settled in RenderReferences. */
  lemma OutcomeIsOrderIndependentIff(v: ConfigValues)
    requires Rejection(v) == []
    ensures (forall a, b | IsOrder(a) && IsOrder(b) :: Render(v, a) == Render(v, b))
       <==> (forall p :: p in Paths(v) ==> !Contains(p, "{{")) || (forall order | IsOrder(order) :: Render(v, order).Err?)
  {
    RenderAlwaysSucceedsIff(v);
    if forall p :: p in Paths(v) ==> !Contains(p, "{{") {
      forall a, b | IsOrder(a) && IsOrder(b)
        ensures Render(v, a) == Render(v, b)
      {
        RenderIsOrderIndependent(v, a);
        RenderIsOrderIndependent(v, b);
      }
    } else if forall order | IsOrder(order) :: Render(v, order).Err? {
      forall a, b | IsOrder(a) && IsOrder(b)
        ensures Render(v, a) == Render(v, b)
      {
        OnlyUnresolved(v, a);
        OnlyUnresolved(v, b);
      }
    } else {
      var bad :| IsOrder(bad) && !Render(v, bad).Ok?;
      var good :| IsOrder(good) && !Render(v, good).Err?;
      assert Render(v, bad) != Render(v, good);
    }
  }

  lemma OnlyUnresolved(v: ConfigValues, order: seq<Key>)
    requires Rejection(v) == [] && Render(v, order).Err?
    ensures Render(v, order) == Err(UnresolvedVariable)
  {
  }

  // ---------------------------------------------------------------------------
  // A path holding a placeholder can make the outcome depend on the visiting order
  // ---------------------------------------------------------------------------

  /** The absolute path "/{{PORT}}". */
  function BraceDir(): string {
    "/" + Placeholder(PORT)
  }

  /** The layout after the base directory has been filled with "/{{PORT}}". */
  function ExpandBaseDir(l: Layout): Layout {
    match l
    case End(_) => l
    case Hole(text, k, rest) =>
      if k == BASEDIR then Hole(text + "/", PORT, ExpandBaseDir(rest)) else Hole(text, k, ExpandBaseDir(rest))
  }

  lemma {:induction false} ExpandedLayout(l: Layout)
    requires WellFormed(l)
    ensures WellFormed(ExpandBaseDir(l))
    ensures l.text <= FirstText(ExpandBaseDir(l))
    ensures !HasHole(ExpandBaseDir(l), BASEDIR)
  {
    if l.Hole? {
      ExpandedLayout(l.rest);
    }
  }

  lemma {:induction false} ExpandedFill(l: Layout, dir: string, env: map<Key, string>, none: map<Key, string>)
    requires dir == "/" + Placeholder(PORT) && env == map[BASEDIR := dir] && none == map[]
    ensures Fill(l, env) == Fill(ExpandBaseDir(l), none)
  {
    if l.Hole? {
      ExpandedFill(l.rest, dir, env, none);
      if l.key == BASEDIR {
        assert l.text + dir == l.text + "/" + Placeholder(PORT);
      }
    }
  }

  /** The template itself: the placeholders by name in their lines. */
  lemma TemplateText(env: map<Key, string>)
    requires env == map[]
    ensures Fill(ProductionLayout(), env) ==
            "[mysqld]\nport=" + "{{PORT}}" + (
            "\nserver_id=" + "{{SERVER_ID}}" + PathTemplate())
  {
    HoleFrom(0, "[mysqld]\nport=", PORT, env);
    HoleFrom(1, "\nserver_id=", SERVER_ID, env);
    PathTemplateText(env);
    NumberNames();
  }

  function PathTemplate(): string {
    "\nbasedir=" + "{{BASEDIR}}" + (
    "\ndatadir=" + "{{DATADIR}}" + (
    "\nsocket=" + "{{RUNDIR}}" + (
    "/mysql.sock\npid-file=" + "{{RUNDIR}}" + (
    "/mysqld.pid\nlog_error=" + "{{LOGDIR}}" + LogTemplate()))))
  }

  lemma PathTemplateText(env: map<Key, string>)
    requires env == map[]
    ensures Fill(LayoutFrom(2), env) == PathTemplate()
  {
    HoleFrom(2, "\nbasedir=", BASEDIR, env);
    HoleFrom(3, "\ndatadir=", DATADIR, env);
    HoleFrom(4, "\nsocket=", RUNDIR, env);
    HoleFrom(5, "/mysql.sock\npid-file=", RUNDIR, env);
    HoleFrom(6, "/mysqld.pid\nlog_error=", LOGDIR, env);
    LogTemplateText(env);
    PathNames();
  }

  function LogTemplate(): string {
    "/error.log\n" + "slow_query_log=ON\n" + "slow_query_log_file=" + "{{LOGDIR}}" + (
    "/slow.log\n" + "long_query_time=" + "{{LONG_QUERY_TIME}}" + (
    "\ncharacter_set_" + "server=utf8mb4\n" + "collation_server=" + "{{COLLATION}}" + (
    "\nlog_bin=" + "{{BINLOGDIR}}" + LimitTemplate())))
  }

  function LimitTemplate(): string {
    "/mysql-bin\n" + "binlog_format=ROW\n" + "gtid_mode=ON\n" + "enforce_gtid_" + "consistency=ON\n"
    + "sync_binlog=1\n" + "innodb_flush_log_" + "at_trx_commit=1\n" + "innodb_buffer_" + "pool_size=" + "{{INNODB_BUFFER_POOL_SIZE}}" + (
    "\nmax_connections=" + "{{MAX_CONNECTIONS}}" + (
    "\n\n[client]\nport=" + "{{PORT}}" + (
    "\nsocket=" + "{{RUNDIR}}" + "/mysql.sock\n")))
  }

  lemma LogTemplateText(env: map<Key, string>)
    requires env == map[]
    ensures Fill(LayoutFrom(7), env) == LogTemplate()
  {
    HoleFrom(7, TextBefore(7), LOGDIR, env);
    HoleFrom(8, TextBefore(8), LONG_QUERY_TIME, env);
    HoleFrom(9, TextBefore(9), COLLATION, env);
    HoleFrom(10, "\nlog_bin=", BINLOGDIR, env);
    LimitTemplateText(env);
    PathNames();
    AtomNames();
  }

  lemma LimitTemplateText(env: map<Key, string>)
    requires env == map[]
    ensures Fill(LayoutFrom(11), env) == LimitTemplate()
  {
    HoleFrom(11, TextBefore(11), INNODB_BUFFER_POOL_SIZE, env);
    HoleFrom(12, "\nmax_connections=", MAX_CONNECTIONS, env);
    HoleFrom(13, "\n\n[client]\nport=", PORT, env);
    HoleFrom(14, "\nsocket=", RUNDIR, env);
    NumberNames();
    BufferName();
    PathNames();
    assert Fill(LayoutFrom(15), env) == "/mysql.sock\n";
  }

  lemma NumberNames()
    ensures Placeholder(PORT) == "{{PORT}}" && Placeholder(SERVER_ID) == "{{SERVER_ID}}"
    ensures Placeholder(MAX_CONNECTIONS) == "{{MAX_CONNECTIONS}}"
  {
  }

  lemma BufferName()
    ensures Placeholder(INNODB_BUFFER_POOL_SIZE) == "{{INNODB_BUFFER_POOL_SIZE}}"
  {
  }

  lemma AtomNames()
    ensures Placeholder(LONG_QUERY_TIME) == "{{LONG_QUERY_TIME}}" && Placeholder(COLLATION) == "{{COLLATION}}"
  {
  }

  lemma PathNames()
    ensures Placeholder(BASEDIR) == "{{BASEDIR}}" && Placeholder(DATADIR) == "{{DATADIR}}" && Placeholder(LOGDIR) == "{{LOGDIR}}"
    ensures Placeholder(BINLOGDIR) == "{{BINLOGDIR}}" && Placeholder(RUNDIR) == "{{RUNDIR}}"
  {
  }

  /** Two visiting orders of the same settings: one renders, the other reports an unresolved variable. */
  lemma RenderDependsOnOrder(v: ConfigValues, first: seq<Key>, last: seq<Key>)
    requires Rejection(v) == []
    requires v.baseDir == BraceDir()
    requires !Contains(v.dataDir, "{{") && !Contains(v.logDir, "{{") && !Contains(v.binlogDir, "{{") && !Contains(v.runDir, "{{")
    requires IsOrder(first) && |first| > 0 && first[0] == BASEDIR
    requires IsOrder(last) && |last| > 0 && last[|last| - 1] == BASEDIR
    ensures Render(v, first).Ok? && Render(v, last) == Err(UnresolvedVariable)
  {
    BaseDirLast(v, last);
    BaseDirEarly(v, first);
  }

  lemma BaseDirEarly(v: ConfigValues, first: seq<Key>)
    requires Rejection(v) == [] && v.baseDir == BraceDir()
    requires !Contains(v.dataDir, "{{") && !Contains(v.logDir, "{{") && !Contains(v.binlogDir, "{{") && !Contains(v.runDir, "{{")
    requires IsOrder(first) && |first| > 0 && first[0] == BASEDIR
    ensures Render(v, first).Ok?
  {
    ReplacementsTotal(v);
    ProductionIsWellFormed();
    BaseDirOthers(v);
    BaseDirFirst(ProductionLayout(), Replacements(v), first);
  }

  lemma BaseDirHasBraces(p: string)
    requires p == BraceDir()
    ensures Contains(p, "{{")
  {
    assert p[1] == '{' && p[2] == '{';
    BracesAt(p, 1);
  }

  lemma BaseDirLast(v: ConfigValues, last: seq<Key>)
    requires Rejection(v) == [] && v.baseDir == BraceDir()
    requires IsOrder(last) && |last| > 0 && last[|last| - 1] == BASEDIR
    ensures Render(v, last) == Err(UnresolvedVariable)
  {
    ReplacementsTotal(v);
    assert Replacements(v)[BASEDIR] == v.baseDir;
    BaseDirHasBraces(v.baseDir);
    FailsWhenLast(Replacements(v), last);
  }

  lemma FailsWhenLast(values: map<Key, string>, last: seq<Key>)
    requires Total(values) && IsOrder(last) && |last| > 0 && Contains(values[last[|last| - 1]], "{{")
    ensures Contains(Passes(Fill(ProductionLayout(), map[]), last, values), "{{")
  {
    ProductionIsWellFormed();
    LastValueFails(ProductionLayout(), last, values);
  }

  lemma BaseDirOthers(v: ConfigValues)
    requires Rejection(v) == []
    requires !Contains(v.dataDir, "{{") && !Contains(v.logDir, "{{") && !Contains(v.binlogDir, "{{") && !Contains(v.runDir, "{{")
    ensures BraceFree(Replacements(v) - {BASEDIR})
  {
    PlainWithoutBrace(Decimal(v.port));
    PlainWithoutBrace(Decimal(v.serverId));
    PlainWithoutBrace(Decimal(v.innodbBufferPoolBytes));
    PlainWithoutBrace(Decimal(v.maxConnections));
    PlainWithoutBrace(v.longQueryTime);
    PlainWithoutBrace(v.collation);
  }

  lemma OrderTail(order: seq<Key>)
    requires IsOrder(order) && |order| > 0
    ensures Distinct(order[1..]) && forall k: Key :: k in order[1..] <==> k != order[0]
  {
    forall k: Key | k != order[0]
      ensures k in order[1..]
    {
      assert k in order;
      var i :| 0 <= i < |order| && order[i] == k;
      assert order[1..][i - 1] == k;
    }
  }

  lemma BaseDirFirst(l: Layout, values: map<Key, string>, first: seq<Key>)
    requires WellFormed(l) && Total(values) && values[BASEDIR] == BraceDir()
    requires BraceFree(values - {BASEDIR})
    requires IsOrder(first) && |first| > 0 && first[0] == BASEDIR
    ensures !Contains(Passes(Fill(l, map[]), first, values), "{{")
  {
    ExpandedLayout(l);
    ExpandedFill(l, BraceDir(), map[BASEDIR := BraceDir()], map[]);
    FillStep(l, map[], BASEDIR, BraceDir());
    var start, next := Fill(l, map[]), Fill(ExpandBaseDir(l), map[]);
    assert ReplaceAll(start, Placeholder(BASEDIR), BraceDir()) == next;
    assert Passes(start, first, values) == Passes(next, first[1..], values);
    OrderTail(first);
    RemainingPasses(ExpandBaseDir(l), values, first[1..]);
  }

  lemma RemainingPasses(l: Layout, values: map<Key, string>, order: seq<Key>)
    requires WellFormed(l) && !HasHole(l, BASEDIR) && Total(values)
    requires BraceFree(values - {BASEDIR})
    requires Distinct(order) && forall k: Key :: k in order <==> k != BASEDIR
    ensures !Contains(Passes(Fill(l, map[]), order, values), "{{")
  {
    OthersHoldNoKey(values, order);
    assert Restrict(values, {}) == map[];
    PassesFill(l, {}, order, values);
    var env := Restrict(values, {} + set k | k in order);
    OthersBraceFree(values, order, env);
    FilledBraceFree(l, env);
  }

  lemma OthersHoldNoKey(values: map<Key, string>, order: seq<Key>)
    requires Total(values) && BraceFree(values - {BASEDIR}) && BASEDIR !in order
    ensures forall a, b: Key :: a in order ==> !Contains(values[a], Placeholder(b))
  {
    BraceFreeNoKey(values - {BASEDIR});
    assert forall a: Key :: a in order ==> (values - {BASEDIR})[a] == values[a];
  }

  lemma OthersBraceFree(values: map<Key, string>, order: seq<Key>, env: map<Key, string>)
    requires Total(values) && BraceFree(values - {BASEDIR}) && BASEDIR !in order
    requires env == Restrict(values, {} + set k | k in order)
    ensures BraceFree(env)
  {
    assert forall k :: k in env ==> env[k] == (values - {BASEDIR})[k];
  }
}
