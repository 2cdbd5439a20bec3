/** A table written only by upserts holds the last write of each key. */
module Upserts {
  datatype Write<K, V> = Write(key: K, value: V) | Skip

  function Written<K, V>(m: map<K, V>, w: Write<K, V>): map<K, V> {
    match w
    case Write(k, v) => m[k := v]
    case Skip => m
  }

  function Table<K, V>(ws: seq<Write<K, V>>): map<K, V>
    decreases |ws|
  {
    if ws == [] then map[] else Written(Table(ws[..|ws| - 1]), ws[|ws| - 1])
  }

  lemma TwoWrites<K, V>(a: Write<K, V>, b: Write<K, V>)
    ensures Table([a, b]) == Written(Written(map[], a), b)
  {
    assert [a, b][..1] == [a] && [a][..0] == [];
    assert Table([a]) == Written(Table([]), a);
  }

  predicate Writes<K(==), V>(w: Write<K, V>, key: K) {
    w.Write? && w.key == key
  }

  predicate IsLast<K(==), V>(ws: seq<Write<K, V>>, i: int, key: K) {
    0 <= i < |ws| && Writes(ws[i], key) && forall j :: i < j < |ws| ==> !Writes(ws[j], key)
  }

  lemma {:induction false} LastWriteWins<K, V>(ws: seq<Write<K, V>>, key: K)
    ensures key in Table(ws) <==> exists i :: IsLast(ws, i, key)
    ensures forall i :: IsLast(ws, i, key) ==> key in Table(ws) && Table(ws)[key] == ws[i].value
    decreases |ws|
  {
    if ws != [] {
      var n := |ws| - 1;
      var past := ws[..n];
      LastWriteWins(past, key);
      if Writes(ws[n], key) {
        assert IsLast(ws, n, key);
      } else {
        forall i
          ensures IsLast(ws, i, key) <==> IsLast(past, i, key)
        {
          assert forall j :: 0 <= j < n ==> past[j] == ws[j];
        }
      }
    }
  }

  /** Among the writes of a key from position j on there is a last one. */
  lemma {:induction false} LastExists<K, V>(ws: seq<Write<K, V>>, j: int, key: K) returns (i: int)
    requires 0 <= j < |ws| && Writes(ws[j], key)
    ensures IsLast(ws, i, key) && j <= i
    decreases |ws| - j
  {
    if IsLast(ws, j, key) {
      i := j;
    } else {
      var k :| j < k < |ws| && Writes(ws[k], key);
      i := LastExists(ws, k, key);
    }
  }
}
