/** String operations of the server's standard library, on strings of one-byte characters:
    substring search, replace-all, trimming, ASCII lower-casing and decimal formatting. */
module Text {

  ghost predicate OccursAt(s: string, k: string, i: int) {
    0 <= i && i + |k| <= |s| && s[i..i + |k|] == k
  }

  ghost predicate Contains(s: string, k: string) {
    exists i :: OccursAt(s, k, i)
  }

  /** The executable search that `Contains` specifies. */
  method Search(s: string, k: string) returns (found: bool)
    ensures found <==> Contains(s, k)
  {
    var i := 0;
    found := false;
    while i + |k| <= |s|
      invariant 0 <= i
      invariant forall j :: OccursAt(s, k, j) ==> i <= j
      decreases |s| - i
    {
      if s[i..i + |k|] == k {
        assert OccursAt(s, k, i);
        return true;
      }
      i := i + 1;
    }
  }

  /** Leftmost, non-overlapping replacement of every occurrence of `k` by `v`. */
  function ReplaceAll(s: string, k: string, v: string): string
    requires k != ""
  {
    if s == "" then ""
    else if k <= s then v + ReplaceAll(s[|k|..], k, v)
    else [s[0]] + ReplaceAll(s[1..], k, v)
  }

  /** Number of occurrences `ReplaceAll` replaces. */
  function Count(s: string, k: string): nat
    requires k != ""
  {
    if s == "" then 0
    else if k <= s then 1 + Count(s[|k|..], k)
    else Count(s[1..], k)
  }

  lemma ContainsShift(s: string, n: nat, k: string)
    requires n <= |s|
    requires Contains(s[n..], k)
    ensures Contains(s, k)
  {
    var i :| OccursAt(s[n..], k, i);
    assert s[n + i..n + i + |k|] == s[n..][i..i + |k|];
    assert OccursAt(s, k, n + i);
  }

  lemma ContainsCons(s: string, k: string)
    requires s != ""
    requires Contains(s, k)
    ensures k <= s || Contains(s[1..], k)
  {
    var i :| OccursAt(s, k, i);
    if i > 0 {
      assert s[1..][i - 1..i - 1 + |k|] == s[i..i + |k|];
      assert OccursAt(s[1..], k, i - 1);
    }
  }

  /** Replacing a key that does not occur changes nothing. */
  lemma {:induction false} ReplaceAbsent(s: string, k: string, v: string)
    requires k != "" && !Contains(s, k)
    ensures ReplaceAll(s, k, v) == s && Count(s, k) == 0
  {
    if s != "" {
      if k <= s {
        assert OccursAt(s, k, 0);
      }
      if Contains(s[1..], k) {
        ContainsShift(s, 1, k);
      }
      ReplaceAbsent(s[1..], k, v);
    }
  }

  /** Replacement distributes over a seam that no occurrence straddles. */
  lemma {:induction false} ReplaceSplit(a: string, b: string, k: string, v: string)
    requires k != ""
    requires forall i :: 0 <= i < |a| && OccursAt(a + b, k, i) ==> i + |k| <= |a|
    ensures ReplaceAll(a + b, k, v) == ReplaceAll(a, k, v) + ReplaceAll(b, k, v)
    decreases |a|
  {
    if a == "" {
      assert a + b == b;
    } else if k <= a + b {
      assert OccursAt(a + b, k, 0);
      assert k <= a;
      var a' := a[|k|..];
      assert (a + b)[|k|..] == a' + b;
      forall i | 0 <= i < |a'| && OccursAt(a' + b, k, i)
        ensures i + |k| <= |a'|
      {
        assert (a + b)[i + |k|..i + |k| + |k|] == (a' + b)[i..i + |k|];
        assert OccursAt(a + b, k, i + |k|);
      }
      ReplaceSplit(a', b, k, v);
    } else {
      assert !(k <= a);
      var a' := a[1..];
      assert (a + b)[1..] == a' + b;
      forall i | 0 <= i < |a'| && OccursAt(a' + b, k, i)
        ensures i + |k| <= |a'|
      {
        assert (a + b)[i + 1..i + 1 + |k|] == (a' + b)[i..i + |k|];
        assert OccursAt(a + b, k, i + 1);
      }
      ReplaceSplit(a', b, k, v);
      assert (a + b)[0] == a[0];
    }
  }

  /** A key that occurs in `a + b` lies in `a`, lies in `b`, or straddles the seam. */
  lemma ContainsSplit(a: string, b: string, k: string)
    ensures Contains(a, k) ==> Contains(a + b, k)
    ensures Contains(b, k) ==> Contains(a + b, k)
    ensures Contains(a + b, k) ==>
              Contains(a, k) || Contains(b, k)
              || exists i :: OccursAt(a + b, k, i) && i < |a| < i + |k|
  {
    if Contains(a, k) {
      var i :| OccursAt(a, k, i);
      assert (a + b)[i..i + |k|] == a[i..i + |k|];
      assert OccursAt(a + b, k, i);
    }
    if Contains(b, k) {
      assert (a + b)[|a|..] == b;
      ContainsShift(a + b, |a|, k);
    }
    if Contains(a + b, k) {
      var i :| OccursAt(a + b, k, i);
      if i + |k| <= |a| {
        assert (a + b)[i..i + |k|] == a[i..i + |k|];
        assert OccursAt(a, k, i);
      } else if i >= |a| {
        assert (a + b)[i..i + |k|] == b[i - |a|..i - |a| + |k|];
        assert OccursAt(b, k, i - |a|);
      }
    }
  }

  lemma MulStep(n: int, d: int)
    ensures (1 + n) * d == d + n * d
  {
  }

  /** The length of a replacement is determined by the number of occurrences. */
  lemma {:induction false} ReplaceLength(s: string, k: string, v: string)
    requires k != ""
    ensures |ReplaceAll(s, k, v)| == |s| + Count(s, k) * (|v| - |k|)
  {
    if s == "" {
    } else if k <= s {
      ReplaceLength(s[|k|..], k, v);
      MulStep(Count(s[|k|..], k), |v| - |k|);
    } else {
      ReplaceLength(s[1..], k, v);
    }
  }

  predicate IsSpace(c: char) {
    c == ' ' || '\t' <= c <= '\r'
  }

  function TrimLeft(s: string): string {
    if s != "" && IsSpace(s[0]) then TrimLeft(s[1..]) else s
  }

  function TrimRight(s: string): string {
    if s != "" && IsSpace(s[|s| - 1]) then TrimRight(s[..|s| - 1]) else s
  }

  function TrimSpace(s: string): string {
    TrimRight(TrimLeft(s))
  }

  predicate Trimmed(s: string) {
    s == "" || (!IsSpace(s[0]) && !IsSpace(s[|s| - 1]))
  }

  lemma {:induction false} TrimLeftSuffix(s: string) returns (n: nat)
    ensures n <= |s| && TrimLeft(s) == s[n..]
    ensures TrimLeft(s) == "" || !IsSpace(TrimLeft(s)[0])
  {
    n := 0;
    if s != "" && IsSpace(s[0]) {
      var m := TrimLeftSuffix(s[1..]);
      n := m + 1;
      assert s[1..][m..] == s[n..];
    }
  }

  lemma {:induction false} TrimRightPrefix(s: string)
    ensures TrimRight(s) <= s
    ensures TrimRight(s) == "" || !IsSpace(TrimRight(s)[|TrimRight(s)| - 1])
  {
    if s != "" && IsSpace(s[|s| - 1]) {
      TrimRightPrefix(s[..|s| - 1]);
    }
  }

  /** Trimming yields a trimmed string that is a slice of the original; a trimmed string is a fixed point. */
  lemma TrimSlice(s: string) returns (n: nat)
    ensures n + |TrimSpace(s)| <= |s| && TrimSpace(s) == s[n..n + |TrimSpace(s)|]
    ensures Trimmed(TrimSpace(s))
    ensures Trimmed(s) ==> TrimSpace(s) == s
  {
    n := TrimLeftSuffix(s);
    TrimRightPrefix(TrimLeft(s));
    var t := TrimSpace(s);
    assert t == s[n..][..|t|];
    assert s[n..][..|t|] == s[n..n + |t|];
  }

  lemma SliceOfSlice(s: string, a: nat, b: nat, i: nat, j: nat)
    requires a <= b <= |s| && i <= j <= b - a
    ensures s[a..b][i..j] == s[a + i..a + j]
  {
    forall q | 0 <= q < j - i
      ensures s[a..b][i..j][q] == s[a + i..a + j][q]
    {
      assert s[a..b][i + q] == s[a + i + q];
    }
  }

  lemma TrimKeeps(s: string, k: string)
    requires Contains(TrimSpace(s), k)
    ensures Contains(s, k)
  {
    var n := TrimSlice(s);
    var t := TrimSpace(s);
    var i :| OccursAt(t, k, i);
    SliceOfSlice(s, n, n + |t|, i, i + |k|);
    assert OccursAt(s, k, n + i);
  }

  function LowerChar(c: char): char {
    if 'A' <= c <= 'Z' then c + ('a' - 'A') else c
  }

  function ToLower(s: string): (r: string)
    ensures |r| == |s|
    ensures forall i :: 0 <= i < |s| ==> r[i] == LowerChar(s[i])
  {
    if s == "" then "" else [LowerChar(s[0])] + ToLower(s[1..])
  }

  /** The six white-space characters by their codes. */
  predicate Blank(c: char) {
    c as int == 32 || 9 <= c as int <= 13
  }

  /** Trimming takes away all white space at both ends and nothing else. */
  lemma TrimMeaning(s: string) returns (n: nat)
    ensures n + |TrimSpace(s)| <= |s| && TrimSpace(s) == s[n..n + |TrimSpace(s)|]
    ensures forall i :: 0 <= i < n || n + |TrimSpace(s)| <= i < |s| ==> Blank(s[i])
    ensures TrimSpace(s) != "" ==> !Blank(s[n]) && !Blank(s[n + |TrimSpace(s)| - 1])
  {
    n := TrimLeftDropsSpaces(s);
    var l, t := TrimLeft(s), TrimSpace(s);
    var m := TrimLeftSuffix(s);
    TrimRightPrefix(l);
    TrimRightDropsSpaces(l);
    assert t == l[..|t|];
    forall i | n + |t| <= i < |s|
      ensures Blank(s[i])
    {
      assert IsSpace(l[i - n]);
    }
    if t != "" {
      assert t[0] == s[n] && t[|t| - 1] == s[n + |t| - 1] && l[0] == s[n];
    }
  }

  lemma {:induction false} TrimLeftDropsSpaces(s: string) returns (n: nat)
    ensures n <= |s| && TrimLeft(s) == s[n..] && forall i :: 0 <= i < n ==> IsSpace(s[i])
  {
    n := 0;
    if s != "" && IsSpace(s[0]) {
      var m := TrimLeftDropsSpaces(s[1..]);
      n := m + 1;
      assert s[1..][m..] == s[n..];
      assert forall i :: 1 <= i < n ==> s[i] == s[1..][i - 1];
    }
  }

  lemma {:induction false} TrimRightDropsSpaces(s: string)
    ensures TrimRight(s) <= s
    ensures forall i :: |TrimRight(s)| <= i < |s| ==> IsSpace(s[i])
  {
    if s != "" && IsSpace(s[|s| - 1]) {
      TrimRightDropsSpaces(s[..|s| - 1]);
    }
  }

  /** The same letter in the other case: 65 to 90 and 97 to 122. */
  predicate OtherCase(a: char, b: char) {
    65 <= a as int <= 90 && b as int == a as int + 32
  }

  predicate SameButCase(a: string, b: string) {
    |a| == |b| && forall i :: 0 <= i < |a| ==> a[i] == b[i] || OtherCase(a[i], b[i]) || OtherCase(b[i], a[i])
  }

  /** Lower-casing makes texts equal that differ in letter case only, and leaves text without capitals alone. */
  lemma LowerMeaning(a: string, b: string)
    ensures SameButCase(a, b) ==> ToLower(a) == ToLower(b)
    ensures (forall i :: 0 <= i < |a| ==> !(65 <= a[i] as int <= 90)) ==> ToLower(a) == a
  {
    if SameButCase(a, b) {
      forall i | 0 <= i < |a|
        ensures ToLower(a)[i] == ToLower(b)[i]
      {
        LowerOne(a[i], b[i]);
      }
    }
    if forall i :: 0 <= i < |a| ==> !(65 <= a[i] as int <= 90) {
      forall i | 0 <= i < |a|
        ensures ToLower(a)[i] == a[i]
      {
        LowerOne(a[i], a[i]);
      }
    }
  }

  lemma LowerOne(a: char, b: char)
    ensures a == b || OtherCase(a, b) || OtherCase(b, a) ==> LowerChar(a) == LowerChar(b)
    ensures !(65 <= a as int <= 90) ==> LowerChar(a) == a
  {
  }

  function Digit(d: int): char
    requires 0 <= d <= 9
  {
    '0' + d as char
  }

  predicate IsDigit(c: char) { '0' <= c <= '9' }

  predicate AllDigits(s: string) {
    forall i :: 0 <= i < |s| ==> IsDigit(s[i])
  }

  /** Decimal text of a non-negative integer, without leading zeros. */
  function Decimal(n: nat): (r: string)
    ensures r != "" && AllDigits(r)
  {
    if n < 10 then [Digit(n)] else Decimal(n / 10) + [Digit(n % 10)]
  }

  function DecimalValue(s: string): nat
    requires AllDigits(s)
  {
    if s == "" then 0
    else DecimalValue(s[..|s| - 1]) * 10 + (s[|s| - 1] as int - '0' as int)
  }

  /** Reading back a formatted number gives the number, so formatting is injective. */
  lemma {:induction false} DecimalInverse(n: nat)
    ensures DecimalValue(Decimal(n)) == n
  {
    var r := Decimal(n);
    if n < 10 {
      assert r[..|r| - 1] == "";
    } else {
      assert r[..|r| - 1] == Decimal(n / 10);
      DecimalInverse(n / 10);
    }
  }
}
