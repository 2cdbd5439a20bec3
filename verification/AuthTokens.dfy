/** Refresh-token rotation: the `refresh_tokens` table under interleaved refreshes. A token is
    identified with its hash; times are whole seconds. */
module AuthTokens {
  import opened Options
  import Rfc3339

  datatype Token = Token(userId: int, expiresAt: int, revokedAt: Option<int>)

  // ---------------------------------------------------------------------------
  // Statements
  // ---------------------------------------------------------------------------

  /** INSERT; the hash is unique. */
  function Stored(t: map<string, Token>, hash: string, userId: int, expiresAt: int): map<string, Token> {
    if hash in t then t else t[hash := Token(userId, expiresAt, None)]
  }

  /** What the SELECT of a consumption accepts. */
  predicate Usable(t: map<string, Token>, hash: string, now: int) {
    hash in t && t[hash].revokedAt.None? && t[hash].expiresAt > now
  }

  /** The UPDATE, guarded by the missing revocation time, affects a row. */
  predicate Unrevoked(t: map<string, Token>, hash: string) {
    hash in t && t[hash].revokedAt.None?
  }

  function Revoked(t: map<string, Token>, hash: string, now: int): map<string, Token> {
    if Unrevoked(t, hash) then t[hash := t[hash].(revokedAt := Some(now))] else t
  }

  /** The column comparison is textual; on formatted timestamps it is the comparison of the instants. */
  lemma ExpiryComparedAsText(expires: nat, now: nat)
    requires Rfc3339.InTextRange(expires) && Rfc3339.InTextRange(now)
    ensures Rfc3339.TextLess(Rfc3339.Stamp(now), Rfc3339.Stamp(expires)) <==> expires > now
  {
    Rfc3339.StampOrder(now, expires);
  }

  // ---------------------------------------------------------------------------
  // Interleaved logins and refreshes
  // ---------------------------------------------------------------------------

  /** One refresh request: between its SELECT and its UPDATE, and between consuming and storing. */
  datatype Session = Idle | Selected(hash: string, now: int) | Consumed(hash: string)

  /** The tokens that stem from one login, in the order they were issued. */
  datatype Chain = Chain(userId: int, hashes: seq<string>)

  /** `chains`, `chainOf` and `consumed` record what happened; no step reads them. */
  datatype System = System(
    tokens: map<string, Token>, sessions: map<nat, Session>,
    chains: seq<Chain>, chainOf: map<string, nat>, consumed: seq<string>)

  const INITIAL := System(map[], map[], [], map[], [])

  datatype Action =
    | Login(userId: int, hash: string, expiresAt: int)
    | Select(p: nat, hash: string, now: int)
    | Update(p: nat)
    | Issue(p: nat, hash: string, expiresAt: int)
    | GiveUp(p: nat)
    | Crash

  function At(s: System, p: nat): Session {
    if p in s.sessions then s.sessions[p] else Idle
  }

  predicate Enabled(s: System, a: Action) {
    match a
    case Login(_, _, _) => true
    case Select(p, hash, now) => At(s, p).Idle? && Usable(s.tokens, hash, now)
    case Update(p) => At(s, p).Selected?
    case Issue(p, _, _) => At(s, p).Consumed? && At(s, p).hash in s.tokens && At(s, p).hash in s.chainOf
                           && s.chainOf[At(s, p).hash] < |s.chains|
    case GiveUp(p) => !At(s, p).Idle?
    case Crash => true
  }

  function Apply(s: System, a: Action): System
    requires Enabled(s, a)
  {
    match a
    case Login(userId, hash, expiresAt) =>
      if hash in s.tokens then s
      else s.(tokens := Stored(s.tokens, hash, userId, expiresAt),
              chains := s.chains + [Chain(userId, [hash])], chainOf := s.chainOf[hash := |s.chains|])
    case Select(p, hash, now) => s.(sessions := s.sessions[p := Selected(hash, now)])
    case Update(p) =>
      var hash := At(s, p).hash;
      if Unrevoked(s.tokens, hash) then
        s.(tokens := Revoked(s.tokens, hash, At(s, p).now), sessions := s.sessions[p := Consumed(hash)],
           consumed := s.consumed + [hash])
      else s.(sessions := s.sessions[p := Idle])
    case Issue(p, hash, expiresAt) =>
      var spent := At(s, p).hash;
      var c := s.chainOf[spent];
      if hash in s.tokens then s.(sessions := s.sessions[p := Idle])
      else s.(tokens := Stored(s.tokens, hash, s.tokens[spent].userId, expiresAt), sessions := s.sessions[p := Idle],
              chains := s.chains[c := s.chains[c].(hashes := s.chains[c].hashes + [hash])], chainOf := s.chainOf[hash := c])
    case GiveUp(p) => s.(sessions := s.sessions[p := Idle])
    case Crash => s.(sessions := map[])
  }

  ghost predicate ValidRun(s: System, acts: seq<Action>)
    decreases |acts|
  {
    acts == [] || (Enabled(s, acts[0]) && ValidRun(Apply(s, acts[0]), acts[1..]))
  }

  ghost function After(s: System, acts: seq<Action>): System
    requires ValidRun(s, acts)
    decreases |acts|
  {
    if acts == [] then s else After(Apply(s, acts[0]), acts[1..])
  }

  // ---------------------------------------------------------------------------
  // Invariant
  // ---------------------------------------------------------------------------

  predicate NoDuplicates(log: seq<string>) {
    forall i, j :: 0 <= i < j < |log| ==> log[i] != log[j]
  }

  ghost predicate LogOk(s: System) {
    && NoDuplicates(s.consumed)
    && forall h :: h in s.consumed <==> h in s.tokens && s.tokens[h].revokedAt.Some?
  }

  predicate NeverLate(t: Token) {
    t.revokedAt.Some? ==> t.revokedAt.value < t.expiresAt
  }

  ghost predicate TimesOk(s: System) {
    && (forall h :: h in s.tokens ==> NeverLate(s.tokens[h]))
    && forall p :: At(s, p).Selected? ==> At(s, p).hash in s.tokens && At(s, p).now < s.tokens[At(s, p).hash].expiresAt
  }

  /** A chain holds distinct tokens of its user, and all but its last are revoked. */
  ghost predicate ChainOk(s: System, c: nat)
    requires c < |s.chains|
  {
    var hashes := s.chains[c].hashes;
    && hashes != [] && NoDuplicates(hashes)
    && (forall i :: 0 <= i < |hashes| ==> hashes[i] in s.tokens && s.tokens[hashes[i]].userId == s.chains[c].userId)
    && (forall i :: 0 <= i < |hashes| ==> hashes[i] in s.chainOf && s.chainOf[hashes[i]] == c)
    && forall i :: 0 <= i < |hashes| - 1 ==> hashes[i] in s.tokens && s.tokens[hashes[i]].revokedAt.Some?
  }

  ghost predicate ChainsOk(s: System) {
    && (forall c :: 0 <= c < |s.chains| ==> ChainOk(s, c))
    && s.chainOf.Keys == s.tokens.Keys
    && forall h :: h in s.chainOf ==> s.chainOf[h] < |s.chains| && h in s.chains[s.chainOf[h]].hashes
  }

  predicate IsTip(s: System, h: string) {
    && h in s.chainOf && s.chainOf[h] < |s.chains| && s.chains[s.chainOf[h]].hashes != []
    && s.chains[s.chainOf[h]].hashes[|s.chains[s.chainOf[h]].hashes| - 1] == h
  }

  /** A refresh that has consumed a token and not yet stored the next holds the revoked tip of a
      chain, and no two refreshes hold the same one. */
  ghost predicate FlightOk(s: System) {
    && (forall p :: At(s, p).Consumed? ==>
          IsTip(s, At(s, p).hash) && At(s, p).hash in s.tokens && s.tokens[At(s, p).hash].revokedAt.Some?)
    && forall p, q :: At(s, p).Consumed? && At(s, q).Consumed? && At(s, p).hash == At(s, q).hash ==> p == q
  }

  ghost predicate Inv(s: System) {
    LogOk(s) && TimesOk(s) && ChainsOk(s) && FlightOk(s)
  }

  lemma TipUnlessRevoked(s: System, h: string)
    requires ChainsOk(s) && Unrevoked(s.tokens, h)
    ensures IsTip(s, h)
  {
    var c := s.chainOf[h];
    assert ChainOk(s, c);
    var i :| 0 <= i < |s.chains[c].hashes| && s.chains[c].hashes[i] == h;
  }

  lemma LogKept(s: System, a: Action)
    requires Enabled(s, a) && LogOk(s)
    ensures LogOk(Apply(s, a))
  {
    var s' := Apply(s, a);
    if a.Update? && Unrevoked(s.tokens, At(s, a.p).hash) {
      var h := At(s, a.p).hash;
      assert s'.consumed == s.consumed + [h] && h !in s.consumed;
      assert forall k :: k in s'.consumed <==> k in s.consumed || k == h;
    }
  }

  lemma TimesKept(s: System, a: Action)
    requires Enabled(s, a) && TimesOk(s)
    ensures TimesOk(Apply(s, a))
  {
    var s' := Apply(s, a);
    forall p | At(s', p).Selected?
      ensures At(s', p).hash in s'.tokens && At(s', p).now < s'.tokens[At(s', p).hash].expiresAt
    {
      if !(a.Select? && a.p == p) {
        assert At(s, p) == At(s', p);
      }
    }
  }

  /** Revoking a token leaves every chain in order. */
  lemma RevokeKeepsChain(s: System, h: string, now: int, c: nat)
    requires c < |s.chains| && ChainOk(s, c) && h in s.tokens
    ensures ChainOk(s.(tokens := Revoked(s.tokens, h, now)), c)
  {
  }

  lemma ChainsSameTables(s: System, s': System)
    requires ChainsOk(s) && s'.tokens == s.tokens && s'.chains == s.chains && s'.chainOf == s.chainOf
    ensures ChainsOk(s')
  {
    forall c | 0 <= c < |s'.chains|
      ensures ChainOk(s', c)
    {
      assert ChainOk(s, c);
    }
  }

  lemma LoginKeepsChains(s: System, a: Action)
    requires Enabled(s, a) && a.Login? && a.hash !in s.tokens && ChainsOk(s)
    ensures ChainsOk(Apply(s, a))
  {
    var s' := Apply(s, a);
    forall c | 0 <= c < |s'.chains|
      ensures ChainOk(s', c)
    {
      if c < |s.chains| {
        assert ChainOk(s, c);
      }
    }
  }

  lemma IssueKeepsChains(s: System, a: Action)
    requires Enabled(s, a) && a.Issue? && a.hash !in s.tokens && ChainsOk(s) && FlightOk(s)
    ensures ChainsOk(Apply(s, a))
  {
    var s' := Apply(s, a);
    var spent := At(s, a.p).hash;
    var c := s.chainOf[spent];
    assert ChainOk(s, c);
    assert s'.chains[c].hashes == s.chains[c].hashes + [a.hash];
    forall d | 0 <= d < |s'.chains|
      ensures ChainOk(s', d)
    {
      assert ChainOk(s, d);
    }
    forall h | h in s'.chainOf
      ensures s'.chainOf[h] < |s'.chains| && h in s'.chains[s'.chainOf[h]].hashes
    {
      if h == a.hash {
        assert s'.chains[c].hashes[|s.chains[c].hashes|] == h;
      }
    }
  }

  lemma ChainsKept(s: System, a: Action)
    requires Enabled(s, a) && ChainsOk(s) && FlightOk(s)
    ensures ChainsOk(Apply(s, a))
  {
    var s' := Apply(s, a);
    if a.Login? && a.hash !in s.tokens {
      LoginKeepsChains(s, a);
    } else if a.Issue? && a.hash !in s.tokens {
      IssueKeepsChains(s, a);
    } else if a.Update? && Unrevoked(s.tokens, At(s, a.p).hash) {
      var t := s.(tokens := s'.tokens);
      forall c | 0 <= c < |s.chains|
        ensures ChainOk(t, c)
      {
        RevokeKeepsChain(s, At(s, a.p).hash, At(s, a.p).now, c);
      }
      ChainsSameTables(t, s');
    } else {
      ChainsSameTables(s, s');
    }
  }

  lemma TipKept(s: System, a: Action, h: string)
    requires Enabled(s, a) && ChainsOk(s) && FlightOk(s) && IsTip(s, h) && h in s.tokens
    requires a.Issue? ==> At(s, a.p).hash != h
    ensures IsTip(Apply(s, a), h)
  {
    if a.Issue? && a.hash !in s.tokens {
      assert IsTip(s, At(s, a.p).hash);
      assert s.chainOf[h] != s.chainOf[At(s, a.p).hash];
    }
  }

  lemma FlightKept(s: System, a: Action)
    requires Enabled(s, a) && ChainsOk(s) && FlightOk(s)
    ensures FlightOk(Apply(s, a))
  {
    var s' := Apply(s, a);
    var consumes := a.Update? && Unrevoked(s.tokens, At(s, a.p).hash);
    if consumes {
      TipUnlessRevoked(s, At(s, a.p).hash);
    }
    forall p | At(s', p).Consumed?
      ensures IsTip(s', At(s', p).hash) && At(s', p).hash in s'.tokens && s'.tokens[At(s', p).hash].revokedAt.Some?
    {
      if consumes && a.p == p {
        TipKept(s, a, At(s, p).hash);
      } else {
        assert At(s, p) == At(s', p);
        TipKept(s, a, At(s, p).hash);
      }
    }
    forall p, q | At(s', p).Consumed? && At(s', q).Consumed? && At(s', p).hash == At(s', q).hash
      ensures p == q
    {
      assert !(consumes && a.p == p) ==> At(s, p) == At(s', p);
      assert !(consumes && a.p == q) ==> At(s, q) == At(s', q);
    }
  }

  lemma {:induction false} RunKeeps(s: System, acts: seq<Action>)
    requires Inv(s) && ValidRun(s, acts)
    ensures Inv(After(s, acts))
    decreases |acts|
  {
    if acts != [] {
      LogKept(s, acts[0]);
      TimesKept(s, acts[0]);
      ChainsKept(s, acts[0]);
      FlightKept(s, acts[0]);
      RunKeeps(Apply(s, acts[0]), acts[1..]);
    }
  }

  // ---------------------------------------------------------------------------
  // What holds of every run
  // ---------------------------------------------------------------------------

  /** However the requests interleave and whatever crashes, no token is consumed twice, none is
      consumed at or after its expiry, and the revoked tokens are exactly the consumed ones. */
  lemma ConsumedAtMostOnce(acts: seq<Action>)
    requires ValidRun(INITIAL, acts)
    ensures var s := After(INITIAL, acts);
            && NoDuplicates(s.consumed)
            && (forall h :: h in s.consumed <==> h in s.tokens && s.tokens[h].revokedAt.Some?)
            && forall h :: h in s.tokens && s.tokens[h].revokedAt.Some? ==> s.tokens[h].revokedAt.value < s.tokens[h].expiresAt
  {
    RunKeeps(INITIAL, acts);
  }

  predicate InChain(s: System, h: string, c: nat) {
    h in s.tokens && h in s.chainOf && s.chainOf[h] == c
  }

  /** Request p has consumed a token of login c and not yet stored its successor. */
  predicate InFlight(s: System, p: nat, c: nat) {
    At(s, p).Consumed? && InChain(s, At(s, p).hash, c)
  }

  /** Each login has at most one usable token at any time, and none while one of its tokens has been
      consumed and its successor is not yet stored; two such refreshes belong to different logins. */
  lemma OneLiveTokenPerLogin(acts: seq<Action>, c: nat)
    requires ValidRun(INITIAL, acts)
    ensures var s := After(INITIAL, acts);
            && (forall g, h :: InChain(s, g, c) && InChain(s, h, c) && Unrevoked(s.tokens, g) && Unrevoked(s.tokens, h) ==> g == h)
            && (forall p, h :: InFlight(s, p, c) && InChain(s, h, c) ==> !Unrevoked(s.tokens, h))
            && (forall p, q :: InFlight(s, p, c) && InFlight(s, q, c) ==> p == q)
  {
    RunKeeps(INITIAL, acts);
    var s := After(INITIAL, acts);
    forall h | InChain(s, h, c) && Unrevoked(s.tokens, h)
      ensures IsTip(s, h)
    {
      TipUnlessRevoked(s, h);
    }
  }

  /** The tokens of a login form a chain of one user: each but the last has been consumed, and every
      token belongs to exactly one login. */
  lemma LoginIsAChain(acts: seq<Action>, c: nat)
    requires ValidRun(INITIAL, acts) && c < |After(INITIAL, acts).chains|
    ensures var s := After(INITIAL, acts);
            var chain := s.chains[c];
            && NoDuplicates(chain.hashes)
            && (forall i :: 0 <= i < |chain.hashes| ==> chain.hashes[i] in s.tokens && s.tokens[chain.hashes[i]].userId == chain.userId)
            && (forall i :: 0 <= i < |chain.hashes| - 1 ==> chain.hashes[i] in s.consumed)
            && forall h :: InChain(s, h, c) <==> h in chain.hashes
  {
    RunKeeps(INITIAL, acts);
    var s := After(INITIAL, acts);
    assert ChainOk(s, c);
  }

  /** A successful refresh, whatever runs between its steps: the SELECT found the token usable, the
      UPDATE revoked exactly it, and the INSERT added exactly one token for the same user. */
  lemma RefreshRotates(s: System, p: nat, hash: string, expiresAt: int)
    requires Inv(s) && At(s, p).Selected? && Unrevoked(s.tokens, At(s, p).hash) && hash !in s.tokens
    ensures var spent := At(s, p).hash;
            var s1 := Apply(s, Update(p));
            && At(s1, p) == Consumed(spent) && Enabled(s1, Issue(p, hash, expiresAt))
            && var s2 := Apply(s1, Issue(p, hash, expiresAt));
               && s2.tokens.Keys == s.tokens.Keys + {hash}
               && (forall h :: h in s.tokens && h != spent ==> s2.tokens[h] == s.tokens[h])
               && s.tokens[spent].revokedAt.None? && s2.tokens[spent].revokedAt.Some?
               && s2.tokens[hash] == Token(s.tokens[spent].userId, expiresAt, None)
               && s2.chainOf[hash] == s.chainOf[spent]
  {
  }

  /** Two requests that present one token: both may pass the SELECT, only the first UPDATE succeeds. */
  lemma SecondUpdateFails(s: System, p: nat, q: nat)
    requires Inv(s) && p != q && At(s, p).Selected? && At(s, q).Selected? && At(s, p).hash == At(s, q).hash
    ensures At(Apply(Apply(s, Update(p)), Update(q)), q) == Idle
    ensures Apply(Apply(s, Update(p)), Update(q)).tokens == Apply(s, Update(p)).tokens
  {
  }

  /** No usable token of login c exists and none is about to be stored. */
  ghost predicate Ended(s: System, c: nat) {
    (forall h :: InChain(s, h, c) ==> !Unrevoked(s.tokens, h)) && forall p :: !InFlight(s, p, c)
  }

  lemma StepKeepsEnded(s: System, a: Action, c: nat)
    requires Inv(s) && Enabled(s, a) && c < |s.chains| && Ended(s, c)
    ensures Ended(Apply(s, a), c)
  {
    var s' := Apply(s, a);
    if a.Issue? {
      assert !InFlight(s, a.p, c);
    }
    forall h | InChain(s', h, c)
      ensures !Unrevoked(s'.tokens, h)
    {
      assert InChain(s, h, c);
      assert !Unrevoked(s.tokens, h);
    }
    forall p
      ensures !InFlight(s', p, c)
    {
      assert !InFlight(s, p, c);
      assert At(s, p).Selected? && InChain(s, At(s, p).hash, c) ==> !Unrevoked(s.tokens, At(s, p).hash);
    }
  }

  /** A refresh that fails after consuming its token (the user is gone or disabled, or storing fails)
      ends the login for good: no later step gives it a usable token. */
  lemma {:induction false} EndedLoginStaysEnded(s: System, acts: seq<Action>, c: nat)
    requires Inv(s) && ValidRun(s, acts) && c < |s.chains| && Ended(s, c)
    ensures Ended(After(s, acts), c)
    decreases |acts|
  {
    if acts != [] {
      StepKeepsEnded(s, acts[0], c);
      RunKeeps(s, acts[..1]);
      assert acts[..1][1..] == [] && After(s, acts[..1]) == Apply(s, acts[0]);
      EndedLoginStaysEnded(Apply(s, acts[0]), acts[1..], c);
    }
  }

  lemma GivingUpEnds(s: System, p: nat, c: nat)
    requires Inv(s) && InFlight(s, p, c)
    ensures Ended(Apply(s, GiveUp(p)), c)
  {
    forall h | InChain(s, h, c) && Unrevoked(s.tokens, h)
      ensures h == At(s, p).hash
    {
      TipUnlessRevoked(s, h);
    }
    forall q | InFlight(Apply(s, GiveUp(p)), q, c)
      ensures q == p
    {
      assert At(s, q).Consumed?;
    }
  }
}
