/** ORDER BY a text column, with a LIMIT. */
module TextOrder {
  import opened Rfc3339

  /** Keys in the order of their texts: all of them, or `limit` of the first ones. */
  ghost predicate IsByText(column: map<nat, string>, limit: nat, order: seq<nat>) {
    && |order| <= limit
    && (forall i :: 0 <= i < |order| ==> order[i] in column)
    && (forall i, j :: 0 <= i < j < |order| ==> order[i] != order[j] && !TextLess(column[order[j]], column[order[i]]))
    && (forall k :: k in column && k !in order ==>
          |order| == limit && forall i :: 0 <= i < |order| ==> !TextLess(column[k], column[order[i]]))
  }

  ghost predicate IsFirst(column: map<nat, string>, left: set<nat>, k: nat)
    requires left <= column.Keys
  {
    k in left && forall j :: j in left ==> !TextLess(column[j], column[k])
  }

  lemma {:induction false} FirstExists(column: map<nat, string>, left: set<nat>) returns (first: nat)
    requires left <= column.Keys && left != {}
    ensures IsFirst(column, left, first)
    decreases |left|
  {
    var some: nat :| some in left;
    var rest := left - {some};
    assert forall j :: j in left ==> j == some || j in rest;
    TextLessIrreflexive(column[some]);
    if rest == {} {
      first := some;
    } else {
      var other := FirstExists(column, rest);
      TextTotal(column[some], column[other]);
      if TextLess(column[other], column[some]) {
        first := other;
      } else {
        first := some;
        forall j | j in left
          ensures !TextLess(column[j], column[some])
        {
          if j in rest {
            TextTransitive(column[some], column[other], column[j]);
          }
        }
      }
    }
  }

  method ByText(column: map<nat, string>, limit: nat) returns (order: seq<nat>)
    ensures IsByText(column, limit, order)
  {
    var left := column.Keys;
    order := [];
    while left != {} && |order| < limit
      invariant |order| <= limit && left <= column.Keys
      invariant forall i :: 0 <= i < |order| ==> order[i] in column && order[i] !in left
      invariant forall i, j :: 0 <= i < j < |order| ==> order[i] != order[j] && !TextLess(column[order[j]], column[order[i]])
      invariant forall k :: k in column ==> k in left || k in order
      invariant forall i, k :: 0 <= i < |order| && k in left ==> !TextLess(column[k], column[order[i]])
      decreases |left|
    {
      ghost var some := FirstExists(column, left);
      var first :| first in left && forall j :: j in left ==> !TextLess(column[j], column[first]);
      order := order + [first];
      left := left - {first};
    }
  }

  /** When the texts compare as the keys do, the order by text is the order by key. */
  lemma ByTextIsByKey(column: map<nat, string>, limit: nat, order: seq<nat>)
    requires IsByText(column, limit, order)
    requires forall a, b :: a in column && b in column ==> (!TextLess(column[b], column[a]) <==> a <= b)
    ensures forall i, j :: 0 <= i < j < |order| ==> order[i] < order[j]
    ensures forall b :: b in column && b !in order ==> |order| == limit && forall i :: 0 <= i < |order| ==> order[i] < b
  {
    forall b, i | b in column && b !in order && 0 <= i < |order|
      ensures order[i] < b
    {
      assert order[i] in order;
    }
  }
}
