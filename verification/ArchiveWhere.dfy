/** The WHERE clause of an archive policy: which templates are accepted, and what replacing
    `:cutoff` by a quoted timestamp does to an accepted one. */
module ArchiveWhere {
  import opened Text

  const MAX_WHERE := 2048
  const CUTOFF := ":cutoff"

  function ForbiddenTokens(): seq<string> {
    [";", "--", "/*", "*/", "\0", "\n", "\r"]
  }

  /** Accepted text: non-empty and short enough after trimming, and free of the forbidden tokens. */
  ghost predicate SafeWhere(v: string) {
    var t := TrimSpace(v);
    t != "" && |t| <= MAX_WHERE && forall tok :: tok in ForbiddenTokens() ==> !Contains(ToLower(t), tok)
  }

  method CheckSafeWhere(v: string) returns (safe: bool)
    ensures safe <==> SafeWhere(v)
    ensures var t := TrimSpace(v);
            safe <==> t != "" && |t| <= 2048
                      && !Contains(t, ";") && !Contains(t, "--") && !Contains(t, "/*") && !Contains(t, "*/")
                      && !Contains(t, "\0") && !Contains(t, "\n") && !Contains(t, "\r")
  {
    SafeMeaning(v);
    var t := TrimSpace(v);
    if t == "" || |t| > MAX_WHERE {
      return false;
    }
    var lower := ToLower(t);
    var tokens := ForbiddenTokens();
    for i := 0 to |tokens|
      invariant forall j :: 0 <= j < i ==> !Contains(lower, tokens[j])
    {
      var found := Search(lower, tokens[i]);
      if found {
        assert tokens[i] in ForbiddenTokens();
        return false;
      }
    }
    return true;
  }

  /** The seven tokens by name; letter case is immaterial to them. */
  lemma SafeMeaning(v: string)
    ensures var t := TrimSpace(v);
            SafeWhere(v) <==> t != "" && |t| <= 2048
                              && !Contains(t, ";") && !Contains(t, "--") && !Contains(t, "/*") && !Contains(t, "*/")
                              && !Contains(t, "\0") && !Contains(t, "\n") && !Contains(t, "\r")
  {
    var t, ts := TrimSpace(v), ForbiddenTokens();
    forall tok | tok in ts
      ensures Contains(ToLower(t), tok) <==> Contains(t, tok)
    {
      TokenFacts(tok);
      LowerKeepsToken(t, tok);
    }
    assert ts[0] in ts && ts[1] in ts && ts[2] in ts && ts[3] in ts && ts[4] in ts && ts[5] in ts && ts[6] in ts;
  }

  /** The part of policy validation that concerns the clause. */
  ghost predicate Accepts(template: string, retentionDays: int) {
    SafeWhere(template) && (Contains(template, CUTOFF) ==> retentionDays > 0)
  }

  datatype Where = Ok(clause: string) | RetentionMissing | Unsafe

  function Quote(cutoff: string): string { "'" + cutoff + "'" }

  ghost function Materialize(template: string, retentionDays: int, cutoff: string): Where {
    var t := TrimSpace(template);
    if Contains(t, CUTOFF) && retentionDays <= 0 then RetentionMissing
    else
      var w := if Contains(t, CUTOFF) then ReplaceAll(t, CUTOFF, Quote(cutoff)) else t;
      if SafeWhere(w) then Ok(w) else Unsafe
  }

  method MaterializeWhere(template: string, retentionDays: int, cutoff: string) returns (w: Where)
    ensures w == Materialize(template, retentionDays, cutoff)
    ensures w == RetentionMissing <==> Contains(TrimSpace(template), ":cutoff") && retentionDays <= 0
    ensures w.Ok? ==>
              w.clause == if Contains(TrimSpace(template), ":cutoff") then ReplaceAll(TrimSpace(template), ":cutoff", "'" + cutoff + "'")
                          else TrimSpace(template)
  {
    var clause := TrimSpace(template);
    var uses := Search(clause, CUTOFF);
    if uses {
      if retentionDays <= 0 {
        return RetentionMissing;
      }
      clause := ReplaceAll(clause, CUTOFF, Quote(cutoff));
    }
    var safe := CheckSafeWhere(clause);
    if !safe {
      return Unsafe;
    }
    return Ok(clause);
  }

  predicate TimestampChar(c: char) {
    IsDigit(c) || c == '-' || c == ':' || c == ' '
  }

  /** What a formatted timestamp looks like, whatever its year: digits and separators, no two dashes in a row. */
  predicate TimestampLike(c: string) {
    && (forall i :: 0 <= i < |c| ==> TimestampChar(c[i]))
    && (forall i :: 0 <= i < |c| - 1 ==> !(c[i] == '-' && c[i + 1] == '-'))
  }

  // ---------------------------------------------------------------------------
  // A quoted replacement creates no token at a seam
  // ---------------------------------------------------------------------------

  predicate Quoted(v: string) {
    |v| >= 2 && v[0] == '\'' && v[|v| - 1] == '\''
  }

  /** A quote-free prefix of the output was already a prefix of the input. */
  lemma {:induction false} PrefixWithoutQuote(s: string, k: string, v: string, w: string)
    requires k != "" && Quoted(v) && '\'' !in w
    requires w <= ReplaceAll(s, k, v)
    ensures w <= s
    decreases |s|
  {
    if w != "" {
      var r := ReplaceAll(s, k, v);
      assert w[0] == r[0];
      var r' := ReplaceAll(s[1..], k, v);
      assert r == [s[0]] + r';
      assert w[1..] == r'[..|w| - 1] by {
        assert w == r[..|w|];
      }
      PrefixWithoutQuote(s[1..], k, v, w[1..]);
      assert w == [w[0]] + w[1..];
    }
  }

  /** Every quote-free token of the output was already in the input. */
  lemma {:induction false} NoNewToken(s: string, k: string, v: string, tok: string)
    requires k != "" && Quoted(v) && tok != "" && '\'' !in tok
    requires !Contains(v, tok)
    requires Contains(ReplaceAll(s, k, v), tok)
    ensures Contains(s, tok)
    decreases |s|
  {
    var r := ReplaceAll(s, k, v);
    assert s != "" by {
      var i :| OccursAt(r, tok, i);
    }
    if k <= s {
      var r' := ReplaceAll(s[|k|..], k, v);
      QuoteSeam(v, r', tok);
      NoNewToken(s[|k|..], k, v, tok);
      ContainsShift(s, |k|, tok);
    } else if tok <= r {
      PrefixWithoutQuote(s, k, v, tok);
      assert s[0..0 + |tok|] == tok;
      assert OccursAt(s, tok, 0);
    } else {
      ContainsCons(r, tok);
      assert r[1..] == ReplaceAll(s[1..], k, v);
      NoNewToken(s[1..], k, v, tok);
      ContainsShift(s, 1, tok);
    }
  }

  lemma TokenHolds(s: string, tok: string, i: int, x: int)
    requires OccursAt(s, tok, i) && i <= x < i + |tok|
    ensures s[x] in tok
  {
    assert s[i..i + |tok|][x - i] == s[x];
  }

  /** A quote-free token of `v + r` cannot straddle the closing quote. */
  lemma QuoteSeam(v: string, r: string, tok: string)
    requires Quoted(v) && tok != "" && '\'' !in tok && !Contains(v, tok)
    requires Contains(v + r, tok)
    ensures Contains(r, tok)
  {
    ContainsSplit(v, r, tok);
    forall i | OccursAt(v + r, tok, i) && i < |v| < i + |tok|
      ensures false
    {
      TokenHolds(v + r, tok, i, |v| - 1);
    }
  }

  /** After quoted replacement the key itself is gone. */
  lemma {:induction false} KeyGone(s: string, k: string, v: string)
    requires k != "" && Quoted(v) && '\'' !in k && !Contains(v, k)
    ensures !Contains(ReplaceAll(s, k, v), k)
    decreases |s|
  {
    var r := ReplaceAll(s, k, v);
    if Contains(r, k) {
      assert s != "" by {
        var i :| OccursAt(r, k, i);
      }
      if k <= s {
        KeyGone(s[|k|..], k, v);
        QuoteSeam(v, ReplaceAll(s[|k|..], k, v), k);
      } else {
        KeyGone(s[1..], k, v);
        assert r[1..] == ReplaceAll(s[1..], k, v);
        ContainsCons(r, k);
        PrefixWithoutQuote(s, k, v, k);
      }
    }
  }

  /** The ends of the output are the ends of the input or quotes. */
  lemma {:induction false} EndsKept(s: string, k: string, v: string)
    requires k != "" && Quoted(v) && s != ""
    ensures ReplaceAll(s, k, v) != ""
    ensures ReplaceAll(s, k, v)[0] in [s[0], '\'']
    ensures ReplaceAll(s, k, v)[|ReplaceAll(s, k, v)| - 1] in [s[|s| - 1], '\'']
    decreases |s|
  {
    if k <= s {
      if s[|k|..] != "" {
        EndsKept(s[|k|..], k, v);
      }
    } else if s[1..] != "" {
      EndsKept(s[1..], k, v);
    }
  }

  // ---------------------------------------------------------------------------
  // Lower-casing does not matter to tokens without letters
  // ---------------------------------------------------------------------------

  predicate Letterless(tok: string) {
    forall i :: 0 <= i < |tok| ==> !('A' <= tok[i] <= 'Z') && !('a' <= tok[i] <= 'z')
  }

  lemma LowerKeepsToken(s: string, tok: string)
    requires Letterless(tok)
    ensures Contains(ToLower(s), tok) <==> Contains(s, tok)
  {
    var l := ToLower(s);
    forall i | 0 <= i && i + |tok| <= |s|
      ensures OccursAt(l, tok, i) <==> OccursAt(s, tok, i)
    {
      if OccursAt(l, tok, i) {
        forall q | 0 <= q < |tok| ensures s[i..i + |tok|][q] == tok[q] {
          assert l[i..i + |tok|][q] == l[i + q] == LowerChar(s[i + q]);
        }
      }
      if OccursAt(s, tok, i) {
        forall q | 0 <= q < |tok| ensures l[i..i + |tok|][q] == tok[q] {
          assert s[i..i + |tok|][q] == s[i + q];
          assert l[i + q] == LowerChar(s[i + q]);
        }
      }
    }
    if Contains(l, tok) {
      var i :| OccursAt(l, tok, i);
      assert OccursAt(s, tok, i);
    }
    if Contains(s, tok) {
      var i :| OccursAt(s, tok, i);
      assert OccursAt(l, tok, i);
    }
  }

  lemma TokenFacts(tok: string)
    requires tok in ForbiddenTokens()
    ensures tok != "" && '\'' !in tok && Letterless(tok)
    ensures tok == "--" || exists i :: 0 <= i < |tok| && !TimestampChar(tok[i])
  {
    if tok == "--" {
    } else if tok == "*/" || tok == "/*" {
      assert !TimestampChar(tok[0]);
    } else {
      assert |tok| == 1 && !TimestampChar(tok[0]);
    }
  }

  lemma QuotedTimestampIsClean(cutoff: string, tok: string)
    requires TimestampLike(cutoff) && tok in ForbiddenTokens()
    ensures !Contains(Quote(cutoff), tok)
  {
    var v := Quote(cutoff);
    TokenFacts(tok);
    forall i | OccursAt(v, tok, i)
      ensures false
    {
      QuotedTokenAt(cutoff, tok, i);
    }
  }

  lemma QuotedTokenAt(cutoff: string, tok: string, i: int)
    requires TimestampLike(cutoff) && tok != "" && '\'' !in tok
    requires OccursAt(Quote(cutoff), tok, i)
    ensures 1 <= i && i + |tok| <= |cutoff| + 1
    ensures forall q :: 0 <= q < |tok| ==> tok[q] == cutoff[i - 1 + q] && TimestampChar(tok[q])
    ensures tok != "--"
  {
    var v := Quote(cutoff);
    forall q | 0 <= q < |tok|
      ensures tok[q] == v[i + q]
    {
      assert v[i..i + |tok|][q] == v[i + q];
    }
    assert tok[0] == v[i] && tok[|tok| - 1] == v[i + |tok| - 1];
    forall q | 0 <= q < |tok|
      ensures tok[q] == cutoff[i - 1 + q] && TimestampChar(tok[q])
    {
      assert v[i + q] == cutoff[i - 1 + q];
    }
    assert |tok| == 2 ==> tok[0] == cutoff[i - 1] && tok[1] == cutoff[i];
  }

  lemma QuotedTimestampHasNoKey(cutoff: string)
    requires TimestampLike(cutoff)
    ensures !Contains(Quote(cutoff), CUTOFF)
  {
    assert CUTOFF[1] == 'c';
    forall i | OccursAt(Quote(cutoff), CUTOFF, i)
      ensures false
    {
      QuotedTokenAt(cutoff, CUTOFF, i);
    }
  }

  lemma ReplacedIsTrimmed(t: string, cutoff: string)
    requires t != "" && Trimmed(t)
    ensures TrimSpace(ReplaceAll(t, CUTOFF, Quote(cutoff))) == ReplaceAll(t, CUTOFF, Quote(cutoff))
  {
    EndsKept(t, CUTOFF, Quote(cutoff));
    var n := TrimSlice(ReplaceAll(t, CUTOFF, Quote(cutoff)));
  }

  lemma ReplacedHasNoToken(t: string, cutoff: string, tok: string)
    requires TimestampLike(cutoff) && tok in ForbiddenTokens()
    requires !Contains(ToLower(t), tok)
    ensures !Contains(ToLower(ReplaceAll(t, CUTOFF, Quote(cutoff))), tok)
  {
    var r := ReplaceAll(t, CUTOFF, Quote(cutoff));
    TokenFacts(tok);
    LowerKeepsToken(t, tok);
    LowerKeepsToken(r, tok);
    QuotedTimestampIsClean(cutoff, tok);
    if Contains(r, tok) {
      NoNewToken(t, CUTOFF, Quote(cutoff), tok);
    }
  }

  /** How long the clause of an accepted template becomes. */
  function MaterializedLength(template: string, cutoff: string): int {
    var t := TrimSpace(template);
    |t| + Count(t, CUTOFF) * (|Quote(cutoff)| - |CUTOFF|)
  }

  /** For an accepted template, materialisation fails exactly when the result is too long;
      otherwise the clause is safe and no `:cutoff` is left. */
  lemma MaterializeAccepted(template: string, retentionDays: int, cutoff: string)
    requires Accepts(template, retentionDays) && TimestampLike(cutoff)
    ensures Materialize(template, retentionDays, cutoff).Ok? <==> MaterializedLength(template, cutoff) <= MAX_WHERE
    ensures Materialize(template, retentionDays, cutoff) != RetentionMissing
    ensures var w := Materialize(template, retentionDays, cutoff);
            w.Ok? ==> SafeWhere(w.clause) && !Contains(w.clause, CUTOFF)
  {
    var t := TrimSpace(template);
    var n := TrimSlice(template);
    if Contains(t, CUTOFF) {
      TrimKeeps(template, CUTOFF);
      ReplacedIsSafe(t, cutoff);
    } else {
      WithoutCutoff(template, retentionDays, cutoff);
    }
  }

  lemma WithoutCutoff(template: string, retentionDays: int, cutoff: string)
    requires SafeWhere(template) && !Contains(TrimSpace(template), CUTOFF)
    ensures MaterializedLength(template, cutoff) == |TrimSpace(template)| <= MAX_WHERE
    ensures Materialize(template, retentionDays, cutoff) == Ok(TrimSpace(template)) && SafeWhere(TrimSpace(template))
  {
    var t := TrimSpace(template);
    var n := TrimSlice(template);
    var m := TrimSlice(t);
    ReplaceAbsent(t, CUTOFF, Quote(cutoff));
  }

  lemma ReplacedIsSafe(t: string, cutoff: string)
    requires t != "" && Trimmed(t) && TimestampLike(cutoff)
    requires forall tok :: tok in ForbiddenTokens() ==> !Contains(ToLower(t), tok)
    ensures var r := ReplaceAll(t, CUTOFF, Quote(cutoff));
            && !Contains(r, CUTOFF)
            && |r| == |t| + Count(t, CUTOFF) * (|Quote(cutoff)| - |CUTOFF|)
            && (SafeWhere(r) <==> |r| <= MAX_WHERE)
  {
    var r := ReplaceAll(t, CUTOFF, Quote(cutoff));
    ReplaceLength(t, CUTOFF, Quote(cutoff));
    ReplacedIsTrimmed(t, cutoff);
    EndsKept(t, CUTOFF, Quote(cutoff));
    forall tok | tok in ForbiddenTokens()
      ensures !Contains(ToLower(r), tok)
    {
      ReplacedHasNoToken(t, cutoff, tok);
    }
    QuotedTimestampHasNoKey(cutoff);
    KeyGone(t, CUTOFF, Quote(cutoff));
  }
}
