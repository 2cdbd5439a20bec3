/** Rendering when paths refer to other variables: for which visiting orders it succeeds. */
module RenderReferences {
  import opened Text
  import opened Template
  import opened RenderConfig

  // ---------------------------------------------------------------------------
  // Values as layouts
  // ---------------------------------------------------------------------------

  /** Text in which no placeholder begins, whatever follows it. */
  predicate Calm(text: string) {
    forall i :: 0 <= i < |text| && text[i] == '{' ==> i + 1 < |text| && text[i + 1] != '{'
  }

  predicate CalmLayout(l: Layout) {
    Calm(l.text) && (l.Hole? ==> CalmLayout(l.rest))
  }

  function Show(l: Layout): string {
    Fill(l, map[])
  }

  function Holes(l: Layout): set<Key> {
    match l
    case End(_) => {}
    case Hole(_, k, rest) => {k} + Holes(rest)
  }

  function Prepend(text: string, l: Layout): Layout {
    l.(text := text + l.text)
  }

  function Join(v: Layout, rest: Layout): Layout {
    match v
    case End(text) => Prepend(text, rest)
    case Hole(text, k, more) => Hole(text, k, Join(more, rest))
  }

  /** Every hole of the key becomes the layout of its value. */
  function Expand(l: Layout, k: Key, v: Layout): Layout {
    match l
    case End(_) => l
    case Hole(text, h, rest) =>
      if h == k then Prepend(text, Join(v, Expand(rest, k, v))) else Hole(text, h, Expand(rest, k, v))
  }

  lemma CalmAppend(a: string, b: string)
    requires Calm(a) && Calm(b)
    ensures Calm(a + b)
  {
  }

  function AfterText(l: Layout, env: map<Key, string>): string {
    if l.End? then "" else (if l.key in env then env[l.key] else Placeholder(l.key)) + Fill(l.rest, env)
  }

  lemma TextFirst(l: Layout, env: map<Key, string>)
    ensures Fill(l, env) == l.text + AfterText(l, env)
  {
    if l.Hole? {
      Regroup(l.text, if l.key in env then env[l.key] else Placeholder(l.key), Fill(l.rest, env));
    }
  }

  lemma FillPrepend(text: string, l: Layout, env: map<Key, string>)
    ensures Fill(Prepend(text, l), env) == text + Fill(l, env)
  {
    TextFirst(l, env);
    TextFirst(Prepend(text, l), env);
    Regroup(text, l.text, AfterText(l, env));
  }

  lemma {:induction false} FillJoin(v: Layout, rest: Layout, env: map<Key, string>)
    ensures Fill(Join(v, rest), env) == Fill(v, env) + Fill(rest, env)
  {
    match v {
      case End(text) => FillPrepend(text, rest, env);
      case Hole(text, k, more) =>
        FillJoin(more, rest, env);
        Regroup(text + if k in env then env[k] else Placeholder(k), Fill(more, env), Fill(rest, env));
    }
  }

  /** Filling after expanding a hole fills the value's holes too. */
  lemma FillExpanded(l: Layout, k: Key, v: Layout, env: map<Key, string>)
    requires l.Hole?
    ensures Fill(Expand(l, k, v), env)
         == l.text + (if l.key == k then Fill(v, env) else if l.key in env then env[l.key] else Placeholder(l.key))
            + Fill(Expand(l.rest, k, v), env)
  {
    if l.key == k {
      var rest := Expand(l.rest, k, v);
      FillJoin(v, rest, env);
      FillPrepend(l.text, Join(v, rest), env);
      Regroup(l.text, Fill(v, env), Fill(rest, env));
    }
  }

  lemma PrependKeeps(text: string, l: Layout)
    ensures Holes(Prepend(text, l)) == Holes(l)
    ensures Calm(text) && CalmLayout(l) ==> CalmLayout(Prepend(text, l))
  {
    if Calm(text) && CalmLayout(l) {
      CalmAppend(text, l.text);
    }
  }

  lemma {:induction false} JoinKeeps(v: Layout, rest: Layout)
    ensures Holes(Join(v, rest)) == Holes(v) + Holes(rest)
    ensures CalmLayout(v) && CalmLayout(rest) ==> CalmLayout(Join(v, rest))
  {
    match v {
      case End(text) => PrependKeeps(text, rest);
      case Hole(_, _, more) => JoinKeeps(more, rest);
    }
  }

  lemma {:induction false} HolesExpand(l: Layout, k: Key, v: Layout)
    ensures Holes(Expand(l, k, v)) == Holes(l) - {k} + if k in Holes(l) then Holes(v) else {}
    ensures CalmLayout(l) && CalmLayout(v) ==> CalmLayout(Expand(l, k, v))
  {
    if l.Hole? {
      HolesExpand(l.rest, k, v);
      if l.key == k {
        JoinKeeps(v, Expand(l.rest, k, v));
        PrependKeeps(l.text, Join(v, Expand(l.rest, k, v)));
      }
    }
  }

  lemma CalmTextHoldsNone(text: string, more: string, k: Key, i: int)
    requires Calm(text) && OccursAt(text + more, Placeholder(k), i)
    ensures i >= |text|
  {
    PlaceholderAt(text + more, k, i);
  }

  lemma ReplaceInCalm(text: string, k: Key, v: string)
    requires Calm(text)
    ensures ReplaceAll(text, Placeholder(k), v) == text
  {
    forall i | OccursAt(text, Placeholder(k), i)
      ensures false
    {
      assert text + "" == text;
      CalmTextHoldsNone(text, "", k, i);
    }
    ReplaceAbsent(text, Placeholder(k), v);
  }

  lemma ReplaceAfterCalm(text: string, more: string, k: Key, v: string)
    requires Calm(text)
    ensures ReplaceAll(text + more, Placeholder(k), v) == text + ReplaceAll(more, Placeholder(k), v)
  {
    forall i | 0 <= i < |text| && OccursAt(text + more, Placeholder(k), i)
      ensures false
    {
      CalmTextHoldsNone(text, more, k, i);
    }
    ReplaceSplit(text, more, Placeholder(k), v);
    ReplaceInCalm(text, k, v);
  }

  lemma ReplaceFromHole(h: Key, tail: string, k: Key, v: string)
    ensures ReplaceAll(Placeholder(h) + tail, Placeholder(k), v)
         == (if h == k then v else Placeholder(h)) + ReplaceAll(tail, Placeholder(k), v)
  {
    forall i | 0 <= i < |Placeholder(h)| && OccursAt(Placeholder(h) + tail, Placeholder(k), i)
      ensures i + |Placeholder(k)| <= |Placeholder(h)|
    {
      assert OccursAt(Placeholder(h) + tail, Placeholder(h), 0);
      NoOverlap(Placeholder(h) + tail, h, k, 0, i);
    }
    ReplaceSplit(Placeholder(h), tail, Placeholder(k), v);
    if h == k {
      ReplaceSelf(k, v);
    } else {
      ReplaceOther(k, h, v);
    }
  }

  /** Text, a placeholder, then anything: replacement works part by part. */
  lemma ReplaceAtHole(text: string, h: Key, tail: string, k: Key, v: string)
    requires Calm(text)
    ensures ReplaceAll(text + Placeholder(h) + tail, Placeholder(k), v)
         == text + (if h == k then v else Placeholder(h)) + ReplaceAll(tail, Placeholder(k), v)
  {
    var mid := if h == k then v else Placeholder(h);
    Regroup(text, Placeholder(h), tail);
    ReplaceAfterCalm(text, Placeholder(h) + tail, k, v);
    ReplaceFromHole(h, tail, k, v);
    Regroup(text, mid, ReplaceAll(tail, Placeholder(k), v));
  }

  lemma Regroup(a: string, b: string, c: string)
    ensures a + b + c == a + (b + c)
  {
  }

  /** One pass expands exactly the holes of its key, even when the value brings in new ones. */
  lemma {:induction false} ExpandStep(l: Layout, k: Key, v: Layout)
    requires CalmLayout(l)
    ensures ReplaceAll(Show(l), Placeholder(k), Show(v)) == Show(Expand(l, k, v))
  {
    if l.End? {
      ReplaceInCalm(l.text, k, Show(v));
    } else {
      ExpandStep(l.rest, k, v);
      ReplaceAtHole(l.text, l.key, Show(l.rest), k, Show(v));
      FillExpanded(l, k, v, map[]);
    }
  }

  lemma BracesMean(text: string, i: int)
    requires OccursAt(text, "{{", i)
    ensures i + 1 < |text| && text[i] == '{' && text[i + 1] == '{'
  {
    assert text[i..i + 2][0] == text[i] && text[i..i + 2][1] == text[i + 1];
  }

  lemma CalmHasNoBraces(text: string)
    requires Calm(text)
    ensures !Contains(text, "{{")
  {
    forall i | OccursAt(text, "{{", i)
      ensures false
    {
      BracesMean(text, i);
    }
  }

  lemma HolesShow(l: Layout)
    requires CalmLayout(l)
    ensures Contains(Show(l), "{{") <==> Holes(l) != {}
  {
    match l {
      case End(text) => CalmHasNoBraces(text);
      case Hole(text, k, rest) =>
        assert Show(l)[|text|] == '{' && Show(l)[|text| + 1] == '{';
        BracesAt(Show(l), |text|);
        assert k in Holes(l);
    }
  }

  // ---------------------------------------------------------------------------
  // Orders that visit every variable before those its value refers to
  // ---------------------------------------------------------------------------

  ghost predicate AllCalm(reading: map<Key, Layout>) {
    forall k: Key :: k in reading && CalmLayout(reading[k])
  }

  /** Each variable's value refers only to variables visited later. */
  ghost predicate Forward(order: seq<Key>, reading: map<Key, Layout>)
    requires AllCalm(reading)
  {
    forall i, k :: 0 <= i < |order| && k in Holes(reading[order[i]]) ==> k in order[i + 1..]
  }

  ghost predicate ReadAs(values: map<Key, string>, reading: map<Key, Layout>) {
    AllCalm(reading) && forall k: Key :: k in values && values[k] == Show(reading[k])
  }

  lemma ForwardStep(order: seq<Key>, reading: map<Key, Layout>)
    requires AllCalm(reading) && order != []
    ensures Forward(order, reading) <==>
            (forall k :: k in Holes(reading[order[0]]) ==> k in order[1..]) && Forward(order[1..], reading)
  {
    var rest := order[1..];
    assert forall i :: 0 <= i < |rest| ==> rest[i] == order[i + 1] && rest[i + 1..] == order[i + 2..];
    if (forall k :: k in Holes(reading[order[0]]) ==> k in rest) && Forward(rest, reading) {
      forall i, k | 0 <= i < |order| && k in Holes(reading[order[i]])
        ensures k in order[i + 1..]
      {
        if i > 0 {
          assert k in Holes(reading[rest[i - 1]]);
        }
      }
    }
    if Forward(order, reading) {
      forall i, k | 0 <= i < |rest| && k in Holes(reading[rest[i]])
        ensures k in rest[i + 1..]
      {
        assert k in Holes(reading[order[i + 1]]);
      }
    }
  }

  /** From a text with a hole for every variable still to be visited. */
  lemma {:induction false} PassesIff(l: Layout, order: seq<Key>, values: map<Key, string>, reading: map<Key, Layout>)
    requires CalmLayout(l) && ReadAs(values, reading) && Distinct(order)
    requires forall k :: k in order ==> k in Holes(l)
    ensures !Contains(Passes(Show(l), order, values), "{{")
       <==> (forall k :: k in Holes(l) ==> k in order) && Forward(order, reading)
    decreases |order|
  {
    if order == [] {
      HolesShow(l);
    } else {
      var k := order[0];
      var l' := Expand(l, k, reading[k]);
      ExpandStep(l, k, reading[k]);
      HolesExpand(l, k, reading[k]);
      FirstVisited({}, order);
      assert forall x :: x in order[1..] ==> x in order && x != k;
      PassesIff(l', order[1..], values, reading);
      ForwardStep(order, reading);
      assert forall x :: x in order <==> x == k || x in order[1..];
      assert forall x :: x in Holes(l') <==> (x in Holes(l) && x != k) || x in Holes(reading[k]);
    }
  }

  /** Rendering in a given order succeeds if and only if every path refers only to variables that the
      order visits later. */
  lemma RendersIff(v: ConfigValues, order: seq<Key>, reading: map<Key, Layout>)
    requires Rejection(v) == [] && ReadAs(Replacements(v), reading) && IsOrder(order)
    ensures Render(v, order).Ok? <==> Forward(order, reading)
  {
    ReplacementsTotal(v);
    ProductionIsWellFormed();
    var l := ProductionLayout();
    WellFormedIsCalm(l);
    forall k: Key
      ensures k in Holes(l)
    {
      HoleListed(l, k);
    }
    PassesIff(l, order, Replacements(v), reading);
  }

  lemma {:induction false} WellFormedIsCalm(l: Layout)
    requires WellFormed(l)
    ensures CalmLayout(l)
  {
    assert forall i :: 0 <= i < |l.text| ==> l.text[i] != '{';
    if l.Hole? {
      WellFormedIsCalm(l.rest);
    }
  }

  lemma {:induction false} HoleListed(l: Layout, k: Key)
    ensures HasHole(l, k) <==> k in Holes(l)
  {
    if l.Hole? {
      HoleListed(l.rest, k);
    }
  }

  // ---------------------------------------------------------------------------
  // The text that successful orders agree on
  // ---------------------------------------------------------------------------

  /** Texts for the variables that fill each other's holes. */
  ghost predicate Solves(env: map<Key, string>, reading: map<Key, Layout>) {
    forall k: Key :: k in env && k in reading && env[k] == Fill(reading[k], env)
  }

  lemma {:induction false} FillAgrees(l: Layout, env: map<Key, string>, env': map<Key, string>)
    requires forall k :: k in Holes(l) ==> k in env && k in env' && env[k] == env'[k]
    ensures Fill(l, env) == Fill(l, env')
  {
    if l.Hole? {
      FillAgrees(l.rest, env, env');
    }
  }

  lemma {:induction false} Solve(order: seq<Key>, reading: map<Key, Layout>) returns (env: map<Key, string>)
    requires AllCalm(reading) && Distinct(order) && Forward(order, reading)
    ensures forall k :: k in env <==> k in order
    ensures forall k :: k in order ==> Holes(reading[k]) <= env.Keys && env[k] == Fill(reading[k], env)
  {
    if order == [] {
      return map[];
    }
    var k := order[0];
    FirstVisited({}, order);
    ForwardStep(order, reading);
    var later := Solve(order[1..], reading);
    env := later[k := Fill(reading[k], later)];
    forall j | j in order
      ensures Holes(reading[j]) <= env.Keys && env[j] == Fill(reading[j], env)
    {
      assert Holes(reading[j]) <= later.Keys;
      FillAgrees(reading[j], env, later);
    }
  }

  lemma {:induction false} ExpandKeepsFilling(l: Layout, k: Key, v: Layout, env: map<Key, string>)
    requires k in env && env[k] == Fill(v, env)
    ensures Fill(Expand(l, k, v), env) == Fill(l, env)
  {
    if l.Hole? {
      ExpandKeepsFilling(l.rest, k, v, env);
      FillExpanded(l, k, v, env);
    }
  }

  lemma NoHolesNoFilling(l: Layout, env: map<Key, string>)
    requires CalmLayout(l) && !Contains(Show(l), "{{")
    ensures Show(l) == Fill(l, env)
  {
    HolesShow(l);
    FillAgrees(l, map[], env);
  }

  lemma {:induction false} PassesSolve(l: Layout, order: seq<Key>, values: map<Key, string>, reading: map<Key, Layout>,
                                       env: map<Key, string>)
    requires CalmLayout(l) && ReadAs(values, reading) && Solves(env, reading)
    requires !Contains(Passes(Show(l), order, values), "{{")
    ensures Passes(Show(l), order, values) == Fill(l, env)
    decreases |order|
  {
    if order == [] {
      NoHolesNoFilling(l, env);
    } else {
      var k := order[0];
      ExpandStep(l, k, reading[k]);
      HolesExpand(l, k, reading[k]);
      ExpandKeepsFilling(l, k, reading[k], env);
      PassesSolve(Expand(l, k, reading[k]), order[1..], values, reading, env);
    }
  }

  /** All orders that succeed render the same text, that of the one system of texts the references demand. */
  lemma SuccessesAgree(v: ConfigValues, a: seq<Key>, b: seq<Key>, reading: map<Key, Layout>) returns (env: map<Key, string>)
    requires Rejection(v) == [] && ReadAs(Replacements(v), reading) && IsOrder(a) && IsOrder(b)
    requires Render(v, a).Ok? && Render(v, b).Ok?
    ensures Solves(env, reading)
    ensures Render(v, a) == Render(v, b) == Ok(Fill(ProductionLayout(), env))
  {
    RendersIff(v, a, reading);
    env := Solve(a, reading);
    ReplacementsTotal(v);
    ProductionIsWellFormed();
    WellFormedIsCalm(ProductionLayout());
    PassesSolve(ProductionLayout(), a, Replacements(v), reading, env);
    PassesSolve(ProductionLayout(), b, Replacements(v), reading, env);
  }

  // ---------------------------------------------------------------------------
  // Such an order exists unless the references form a cycle
  // ---------------------------------------------------------------------------

  /** Some variable of the set refers to none of it. */
  ghost predicate HasEnd(s: set<Key>, reading: map<Key, Layout>)
    requires AllCalm(reading)
  {
    exists k :: k in s && Holes(reading[k]) !! s
  }

  ghost predicate Acyclic(reading: map<Key, Layout>)
    requires AllCalm(reading)
  {
    forall s: set<Key> :: s != {} ==> HasEnd(s, reading)
  }

  /** The variable of the set that is visited last refers to none of it. */
  lemma {:induction false} LastVisited(order: seq<Key>, n: nat, s: set<Key>, reading: map<Key, Layout>)
    requires AllCalm(reading) && Forward(order, reading) && Distinct(order)
    requires n <= |order| && s != {} && forall k :: k in s ==> k in order[..n]
    ensures HasEnd(s, reading)
  {
    assert n > 0 by {
      var k :| k in s;
      assert k in order[..n];
    }
    var last := order[n - 1];
    if last in s {
      forall k | k in Holes(reading[last])
        ensures k !in s
      {
        assert k in order[n..];
      }
    } else {
      forall k | k in s
        ensures k in order[..n - 1]
      {
        assert order[..n] == order[..n - 1] + [last];
      }
      LastVisited(order, n - 1, s, reading);
    }
  }

  lemma ForwardIsAcyclic(order: seq<Key>, reading: map<Key, Layout>)
    requires AllCalm(reading) && IsOrder(order) && Forward(order, reading)
    ensures Acyclic(reading)
  {
    forall s: set<Key> | s != {}
      ensures HasEnd(s, reading)
    {
      assert order[..|order|] == order;
      LastVisited(order, |order|, s, reading);
    }
  }

  lemma PlacedNext(s: set<Key>, k: Key, placed: seq<Key>, reading: map<Key, Layout>)
    requires AllCalm(reading) && Distinct(placed) && Forward(placed, reading) && (forall x: Key :: x in s <==> x !in placed)
    requires k in s && Holes(reading[k]) !! s
    ensures Distinct([k] + placed) && Forward([k] + placed, reading)
    ensures forall x: Key :: x in s - {k} <==> x !in [k] + placed
  {
    var next := [k] + placed;
    assert next[1..] == placed;
    ForwardStep(next, reading);
    assert forall x: Key :: x in next <==> x == k || x in placed;
  }

  /** Put the variables of `s` before those already placed, always one next that refers to none left. */
  lemma {:induction false} Place(s: set<Key>, placed: seq<Key>, reading: map<Key, Layout>) returns (order: seq<Key>)
    requires AllCalm(reading) && Acyclic(reading) && Distinct(placed) && Forward(placed, reading)
    requires forall k: Key :: k in s <==> k !in placed
    ensures IsOrder(order) && Forward(order, reading)
    decreases s
  {
    if s == {} {
      return placed;
    }
    assert HasEnd(s, reading);
    var k :| k in s && Holes(reading[k]) !! s;
    var next := [k] + placed;
    PlacedNext(s, k, placed, reading);
    order := Place(s - {k}, next, reading);
  }

  lemma AcyclicHasForward(reading: map<Key, Layout>) returns (order: seq<Key>)
    requires AllCalm(reading) && Acyclic(reading)
    ensures IsOrder(order) && Forward(order, reading)
  {
    AllKeysOrder();
    var all := set k | k in AllKeys();
    order := Place(all, [], reading);
  }

  /** Rendering succeeds in some order if and only if the references among the variables have no cycle. */
  lemma SomeOrderRendersIff(v: ConfigValues, reading: map<Key, Layout>)
    requires Rejection(v) == [] && ReadAs(Replacements(v), reading)
    ensures (exists order :: IsOrder(order) && Render(v, order).Ok?) <==> Acyclic(reading)
  {
    if order :| IsOrder(order) && Render(v, order).Ok? {
      RendersIff(v, order, reading);
      ForwardIsAcyclic(order, reading);
    }
    if Acyclic(reading) {
      var order := AcyclicHasForward(reading);
      RendersIff(v, order, reading);
    }
  }

  /** So the outcome depends on the order exactly when there are references but no cycle. */
  lemma OneOutcomeIff(v: ConfigValues, reading: map<Key, Layout>)
    requires Rejection(v) == [] && ReadAs(Replacements(v), reading)
    ensures (forall a, b | IsOrder(a) && IsOrder(b) :: Render(v, a) == Render(v, b))
       <==> (forall k: Key :: Holes(reading[k]) == {}) || !Acyclic(reading)
  {
    OutcomeIsOrderIndependentIff(v);
    SomeOrderRendersIff(v, reading);
    ReplacementsBraceFree(v);
    forall k: Key
      ensures Contains(Replacements(v)[k], "{{") <==> Holes(reading[k]) != {}
    {
      HolesShow(reading[k]);
    }
    assert forall order :: IsOrder(order) ==> (Render(v, order).Err? <==> !Render(v, order).Ok?);
  }
}
