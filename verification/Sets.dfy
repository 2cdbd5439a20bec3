/** Facts about finite sets. */
module Sets {
  lemma SomeMember<T>(s: set<T>) returns (x: T)
    requires s != {}
    ensures x in s
  {
    x :| x in s;
  }

  lemma {:induction false} LeastExists(s: set<int>)
    requires s != {}
    ensures exists id :: id in s && forall j :: j in s ==> id <= j
    decreases |s|
  {
    var x := SomeMember(s);
    var rest := s - {x};
    assert forall j :: j in s ==> j == x || j in rest;
    if rest != {} {
      LeastExists(rest);
      var y :| y in rest && forall j :: j in rest ==> y <= j;
      var least := if x <= y then x else y;
      assert least in s && forall j :: j in s ==> least <= j;
    } else {
      assert x in s && forall j :: j in s ==> x <= j;
    }
  }

  lemma GreatestExists(s: set<int>)
    requires s != {}
    ensures exists id :: id in s && forall j :: j in s ==> j <= id
  {
    var negated := set j | j in s :: -j;
    var x := SomeMember(s);
    assert -x in negated;
    LeastExists(negated);
    var least :| least in negated && forall j :: j in negated ==> least <= j;
    assert -least in s;
    forall j | j in s
      ensures j <= -least
    {
      assert -j in negated;
    }
  }

  /** The members of `keys` in ascending order: all of them, or the `limit` least ones. */
  ghost predicate IsAscending(keys: set<int>, limit: nat, order: seq<int>) {
    && |order| <= limit
    && (forall i :: 0 <= i < |order| ==> order[i] in keys)
    && (forall i, j :: 0 <= i < j < |order| ==> order[i] < order[j])
    && (forall k :: k in keys && k !in order ==> |order| == limit && forall i :: 0 <= i < |order| ==> order[i] < k)
  }

  /** ORDER BY an integer key, with a LIMIT. */
  method Ascending(keys: set<int>, limit: nat) returns (order: seq<int>)
    ensures IsAscending(keys, limit, order)
  {
    var left := keys;
    order := [];
    while left != {} && |order| < limit
      invariant |order| <= limit && left <= keys
      invariant forall i :: 0 <= i < |order| ==> order[i] in keys
      invariant forall i, j :: 0 <= i < j < |order| ==> order[i] < order[j]
      invariant forall k :: k in keys ==> k in left || k in order
      invariant forall i, k :: 0 <= i < |order| && k in left ==> order[i] < k
      decreases |left|
    {
      LeastExists(left);
      var least :| least in left && forall j :: j in left ==> least <= j;
      order := order + [least];
      left := left - {least};
    }
  }

  /** Without a tighter limit than the number of keys, every key is listed. */
  lemma AscendingIsAll(keys: set<int>, order: seq<int>)
    requires IsAscending(keys, |keys|, order)
    ensures forall k :: k in keys ==> k in order
  {
    forall k | k in keys
      ensures k in order
    {
      if k !in order {
        Distinct(order, keys - {k});
      }
    }
  }

  /** Distinct members of a set are no more than the set has. */
  lemma {:induction false} Distinct(order: seq<int>, keys: set<int>)
    requires forall i :: 0 <= i < |order| ==> order[i] in keys
    requires forall i, j :: 0 <= i < j < |order| ==> order[i] < order[j]
    ensures |order| <= |keys|
    decreases |order|
  {
    if order != [] {
      var n := |order| - 1;
      Distinct(order[..n], keys - {order[n]});
    }
  }
}
