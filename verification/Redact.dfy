/** Redaction of decoded JSON before it is stored or logged. */
module Redact {
  import opened Text

  /** Decoded JSON: objects, arrays, and everything else. */
  datatype Json = Object(fields: map<string, Json>) | Array(items: seq<Json>) | Scalar(text: string)

  const MASK := Scalar("***REDACTED***")

  function SensitiveFragments(): seq<string> {
    ["password", "passwd", "pwd", "secret", "token", "credential",
     "authorization", "api_key", "apikey", "private_key", "access_key",
     "secret_key", "bootstrap"]
  }

  ghost predicate Sensitive(key: string) {
    exists f :: f in SensitiveFragments() && Contains(ToLower(TrimSpace(key)), f)
  }

  method IsSensitiveKey(key: string) returns (sensitive: bool)
    ensures sensitive <==> Sensitive(key)
    ensures var k := ToLower(key);
            sensitive <==> Contains(k, "password") || Contains(k, "passwd") || Contains(k, "pwd") || Contains(k, "secret")
                           || Contains(k, "token") || Contains(k, "credential") || Contains(k, "authorization")
                           || Contains(k, "api_key") || Contains(k, "apikey") || Contains(k, "private_key")
                           || Contains(k, "access_key") || Contains(k, "secret_key") || Contains(k, "bootstrap")
  {
    SensitiveWords(key);
    var k := ToLower(TrimSpace(key));
    var fragments := SensitiveFragments();
    for i := 0 to |fragments|
      invariant forall j :: 0 <= j < i ==> !Contains(k, fragments[j])
    {
      var found := Search(k, fragments[i]);
      if found {
        assert fragments[i] in SensitiveFragments();
        return true;
      }
    }
    return false;
  }

  ghost function Redacted(v: Json): Json {
    match v
    case Object(fields) =>
      Object(map k | k in fields :: if Sensitive(k) then MASK else Redacted(fields[k]))
    case Array(items) =>
      Array(seq(|items|, i requires 0 <= i < |items| => Redacted(items[i])))
    case Scalar(_) => v
  }

  /** Copies the tree: objects and arrays into fresh ones, other values as they are. */
  method RedactValue(v: Json) returns (out: Json)
    ensures out == Redacted(v)
    decreases v, 1
  {
    match v {
      case Object(_) => out := RedactObject(v);
      case Array(_) => out := RedactArray(v);
      case Scalar(_) => out := v;
    }
  }

  /** Fills a fresh map, visiting the keys in no particular order. */
  method RedactObject(v: Json) returns (out: Json)
    requires v.Object?
    ensures out == Redacted(v)
    ensures out.Object? && out.fields.Keys == v.fields.Keys
    ensures forall k :: k in v.fields && Sensitive(k) ==> out.fields[k] == Scalar("***REDACTED***")
    decreases v, 0
  {
    var result: map<string, Json> := map[];
    var todo := v.fields.Keys;
    while todo != {}
      invariant todo <= v.fields.Keys
      invariant result.Keys == v.fields.Keys - todo
      invariant forall k :: k in result ==> result[k] == if Sensitive(k) then MASK else Redacted(v.fields[k])
      decreases |todo|
    {
      var k :| k in todo;
      var sensitive := IsSensitiveKey(k);
      if sensitive {
        result := result[k := MASK];
      } else {
        var value := RedactValue(v.fields[k]);
        result := result[k := value];
      }
      todo := todo - {k};
    }
    out := Object(result);
  }

  /** Fills a fresh sequence in order. */
  method RedactArray(v: Json) returns (out: Json)
    requires v.Array?
    ensures out == Redacted(v)
    decreases v, 0
  {
    var result: seq<Json> := [];
    for i := 0 to |v.items|
      invariant |result| == i
      invariant forall j :: 0 <= j < i ==> result[j] == Redacted(v.items[j])
    {
      var value := RedactValue(v.items[i]);
      result := result + [value];
    }
    out := Array(result);
  }

  // ---------------------------------------------------------------------------
  // What redaction promises
  // ---------------------------------------------------------------------------

  /** Equal except for what lies beneath sensitive keys: same key sets, lengths and other leaves. */
  ghost predicate SameOutsideSecrets(a: Json, b: Json) {
    match (a, b)
    case (Object(fa), Object(fb)) =>
      fa.Keys == fb.Keys && forall k :: k in fa && !Sensitive(k) ==> SameOutsideSecrets(fa[k], fb[k])
    case (Array(ia), Array(ib)) =>
      |ia| == |ib| && forall i :: 0 <= i < |ia| ==> SameOutsideSecrets(ia[i], ib[i])
    case (Scalar(sa), Scalar(sb)) => sa == sb
    case _ => false
  }

  /** Every sensitive key, at any depth not itself beneath one, holds the mask. */
  ghost predicate Masked(v: Json) {
    match v
    case Object(fields) =>
      forall k :: k in fields ==> if Sensitive(k) then fields[k] == MASK else Masked(fields[k])
    case Array(items) => forall i :: 0 <= i < |items| ==> Masked(items[i])
    case Scalar(_) => true
  }

  /** Redaction is the one masked tree that differs from the input only beneath sensitive keys. */
  lemma {:induction false} RedactedCharacterized(v: Json, r: Json)
    ensures r == Redacted(v) <==> SameOutsideSecrets(v, r) && Masked(r)
    decreases v
  {
    match (v, r) {
      case (Object(fv), Object(fr)) =>
        if fv.Keys == fr.Keys {
          forall k | k in fv && !Sensitive(k)
            ensures fr[k] == Redacted(fv[k]) <==> SameOutsideSecrets(fv[k], fr[k]) && Masked(fr[k])
          {
            RedactedCharacterized(fv[k], fr[k]);
          }
          var expected := map k | k in fv :: if Sensitive(k) then MASK else Redacted(fv[k]);
          assert fr == expected <==> forall k :: k in fv ==> fr[k] == expected[k];
        }
      case (Array(iv), Array(ir)) =>
        if |iv| == |ir| {
          forall i | 0 <= i < |iv|
            ensures ir[i] == Redacted(iv[i]) <==> SameOutsideSecrets(iv[i], ir[i]) && Masked(ir[i])
          {
            RedactedCharacterized(iv[i], ir[i]);
          }
          assert ir == Redacted(v).items <==> forall i :: 0 <= i < |iv| ==> ir[i] == Redacted(iv[i]);
        }
      case _ =>
    }
  }

  lemma {:induction false} SameIsTransitive(a: Json, b: Json, c: Json)
    requires SameOutsideSecrets(a, b) && SameOutsideSecrets(b, c)
    ensures SameOutsideSecrets(a, c)
    decreases a
  {
    match a {
      case Object(fa) =>
        forall k | k in fa && !Sensitive(k)
          ensures SameOutsideSecrets(fa[k], c.fields[k])
        {
          SameIsTransitive(fa[k], b.fields[k], c.fields[k]);
        }
      case Array(ia) =>
        forall i | 0 <= i < |ia|
          ensures SameOutsideSecrets(ia[i], c.items[i])
        {
          SameIsTransitive(ia[i], b.items[i], c.items[i]);
        }
      case Scalar(_) =>
    }
  }

  lemma {:induction false} SameIsSymmetric(a: Json, b: Json)
    requires SameOutsideSecrets(a, b)
    ensures SameOutsideSecrets(b, a)
    decreases a
  {
    match a {
      case Object(fa) =>
        forall k | k in fa && !Sensitive(k)
          ensures SameOutsideSecrets(b.fields[k], fa[k])
        {
          SameIsSymmetric(fa[k], b.fields[k]);
        }
      case Array(ia) =>
        forall i | 0 <= i < |ia|
          ensures SameOutsideSecrets(b.items[i], ia[i])
        {
          SameIsSymmetric(ia[i], b.items[i]);
        }
      case Scalar(_) =>
    }
  }

  /** Non-interference: two inputs redact to the same tree exactly when they differ only beneath sensitive keys. */
  lemma RedactionHidesExactlySecrets(a: Json, b: Json)
    ensures Redacted(a) == Redacted(b) <==> SameOutsideSecrets(a, b)
  {
    RedactedCharacterized(a, Redacted(a));
    RedactedCharacterized(b, Redacted(b));
    if SameOutsideSecrets(a, b) {
      SameIsSymmetric(a, b);
      SameIsTransitive(b, a, Redacted(a));
      RedactedCharacterized(b, Redacted(a));
    }
    if Redacted(a) == Redacted(b) {
      SameIsSymmetric(b, Redacted(b));
      SameIsTransitive(a, Redacted(a), b);
    }
  }

  /** Redacting twice is redacting once. */
  lemma RedactionIdempotent(v: Json)
    ensures Redacted(Redacted(v)) == Redacted(v)
  {
    RedactedCharacterized(v, Redacted(v));
    RedactionHidesExactlySecrets(v, Redacted(v));
  }

  // ---------------------------------------------------------------------------
  // Which keys are sensitive
  // ---------------------------------------------------------------------------

  /** Trimming never removes an occurrence of a token that neither starts nor ends with a space. */
  lemma TrimKeepsToken(s: string, tok: string)
    requires tok != "" && !IsSpace(tok[0]) && !IsSpace(tok[|tok| - 1])
    ensures Contains(TrimSpace(s), tok) <==> Contains(s, tok)
  {
    if Contains(TrimSpace(s), tok) {
      TrimKeeps(s, tok);
    }
    if Contains(s, tok) {
      var n := TrimLeftDropsSpaces(s);
      var l := TrimLeft(s);
      TrimRightDropsSpaces(l);
      var i :| OccursAt(s, tok, i);
      assert s[i..i + |tok|][0] == s[i] && s[i..i + |tok|][|tok| - 1] == s[i + |tok| - 1];
      assert n <= i;
      assert s[n..] == s[n..|s|];
      SliceOfSlice(s, n, |s|, i - n, i - n + |tok|);
      assert l[i - n + |tok| - 1] == s[i + |tok| - 1];
      var r := TrimRight(l);
      assert r == l[0..|r|];
      SliceOfSlice(l, 0, |r|, i - n, i - n + |tok|);
      assert OccursAt(r, tok, i - n);
    }
  }

  lemma LowerCommutesWithTrim(s: string)
    ensures ToLower(TrimSpace(s)) == TrimSpace(ToLower(s))
  {
    LowerTrimLeft(s);
    LowerTrimRight(TrimLeft(s));
  }

  lemma {:induction false} LowerTrimLeft(s: string)
    ensures ToLower(TrimLeft(s)) == TrimLeft(ToLower(s))
  {
    if s != "" && IsSpace(s[0]) {
      LowerTrimLeft(s[1..]);
      assert ToLower(s)[1..] == ToLower(s[1..]);
    }
  }

  lemma {:induction false} LowerTrimRight(s: string)
    ensures ToLower(TrimRight(s)) == TrimRight(ToLower(s))
  {
    if s != "" {
      var l := ToLower(s);
      assert l[|l| - 1] == LowerChar(s[|s| - 1]);
      if IsSpace(s[|s| - 1]) {
        LowerTrimRight(s[..|s| - 1]);
        assert l[..|l| - 1] == ToLower(s[..|s| - 1]);
      }
    }
  }

  lemma FragmentsHaveNoSpaces(f: string)
    requires f in SensitiveFragments()
    ensures f != "" && !IsSpace(f[0]) && !IsSpace(f[|f| - 1])
  {
  }

  /** The thirteen fragments by name, in any letter case. */
  lemma SensitiveWords(key: string)
    ensures var k := ToLower(key);
            Sensitive(key) <==> Contains(k, "password") || Contains(k, "passwd") || Contains(k, "pwd") || Contains(k, "secret")
                                || Contains(k, "token") || Contains(k, "credential") || Contains(k, "authorization")
                                || Contains(k, "api_key") || Contains(k, "apikey") || Contains(k, "private_key")
                                || Contains(k, "access_key") || Contains(k, "secret_key") || Contains(k, "bootstrap")
  {
    SensitiveIffFragmentInside(key);
    OneOfThirteen(SensitiveFragments(), ToLower(key), "password", "passwd", "pwd", "secret", "token", "credential",
                  "authorization", "api_key", "apikey", "private_key", "access_key", "secret_key", "bootstrap");
  }

  lemma OneOfThirteen(fs: seq<string>, t: string, a: string, b: string, c: string, d: string, e: string, f: string, g: string,
                      h: string, i: string, j: string, k: string, l: string, m: string)
    requires fs == [a, b, c, d, e, f, g, h, i, j, k, l, m]
    ensures (exists x :: x in fs && Contains(t, x)) <==>
            Contains(t, a) || Contains(t, b) || Contains(t, c) || Contains(t, d) || Contains(t, e) || Contains(t, f) || Contains(t, g)
            || Contains(t, h) || Contains(t, i) || Contains(t, j) || Contains(t, k) || Contains(t, l) || Contains(t, m)
  {
    assert forall x :: x in fs <==> x == a || x == b || x == c || x == d || x == e || x == f || x == g || x == h || x == i || x == j
                                    || x == k || x == l || x == m;
  }

  /** Letter case never matters. */
  lemma CaseIsImmaterial(a: string, b: string)
    requires SameButCase(a, b)
    ensures Sensitive(a) <==> Sensitive(b)
  {
    LowerMeaning(a, b);
    SensitiveIffFragmentInside(a);
    SensitiveIffFragmentInside(b);
  }

  /** A key is sensitive exactly when some fragment occurs in it in any letter case; trimming is immaterial. */
  lemma SensitiveIffFragmentInside(key: string)
    ensures Sensitive(key) <==> exists f :: f in SensitiveFragments() && Contains(ToLower(key), f)
  {
    LowerCommutesWithTrim(key);
    forall f | f in SensitiveFragments()
      ensures Contains(ToLower(TrimSpace(key)), f) <==> Contains(ToLower(key), f)
    {
      FragmentsHaveNoSpaces(f);
      TrimKeepsToken(ToLower(key), f);
    }
  }
}
