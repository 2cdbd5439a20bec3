/** The authentication objects: the repository's users and tokens, and the service that logs in and
    refreshes. Password checking and token generation are inputs: the verdict of the hash comparison,
    and the new token's hash or nothing when the random source fails. */
module AuthService {
  import opened Options
  import opened Sets
  import opened Text
  import opened AuthTokens

  datatype User = User(username: string, status: string, lastLoginAt: Option<int>)

  datatype Reason = Disabled | InvalidCredentials | UserDisabled | TokenRequired | InvalidToken | NoUser | NoToken

  datatype Outcome = Issued(userId: int, hash: string, expiresAt: int) | Refused(reason: Reason)

  function NormalizeUsername(name: string): string {
    ToLower(TrimSpace(name))
  }

  /** Letter case and surrounding white space of a user name are immaterial, and a name without either is
      taken as it is. */
  lemma NameMeaning(a: string, b: string)
    ensures SameButCase(TrimSpace(a), TrimSpace(b)) ==> NormalizeUsername(a) == NormalizeUsername(b)
    ensures (forall i :: 0 <= i < |a| ==> !(65 <= a[i] as int <= 90)) && (a != "" ==> !Blank(a[0]) && !Blank(a[|a| - 1])) ==>
              NormalizeUsername(a) == a
  {
    LowerMeaning(TrimSpace(a), TrimSpace(b));
    if a != "" && !Blank(a[0]) && !Blank(a[|a| - 1]) {
      assert Trimmed(a);
    }
    var n := TrimSlice(a);
  }

  predicate IsUser(users: map<int, User>, id: int, username: string) {
    id in users && users[id].username == NormalizeUsername(username)
  }

  predicate IsActive(users: map<int, User>, id: int) {
    id in users && users[id].status == "active"
  }

  /** The unique column of the users table. */
  ghost predicate UniqueNames(users: map<int, User>) {
    forall a, b :: a in users && b in users && users[a].username == users[b].username ==> a == b
  }

  /** What issuing a pair comes to: it fails only when no fresh token is available. */
  function Issuing(tokens: map<string, Token>, userId: int, minted: Option<string>, expiresAt: int): Outcome {
    if minted.None? || minted.value in tokens then Refused(NoToken) else Issued(userId, minted.value, expiresAt)
  }

  class AuthRepo {
    var users: map<int, User>
    var tokens: map<string, Token>

    constructor (users: map<int, User>)
      ensures this.users == users && tokens == map[]
    {
      this.users, tokens := users, map[];
    }

    method GetUserByUsername(username: string) returns (found: Option<int>)
      ensures match found
              case Some(id) => IsUser(users, id, username)
              case None => forall id :: !IsUser(users, id, username)
    {
      var ids := set id | id in users && users[id].username == NormalizeUsername(username);
      if ids == {} {
        assert forall id :: IsUser(users, id, username) ==> id in ids;
        return None;
      }
      ghost var member := SomeMember(ids);
      var id :| id in ids;
      return Some(id);
    }

    method UpdateLastLogin(id: int, now: int)
      modifies this`users
      ensures users == if id in old(users) then old(users)[id := old(users)[id].(lastLoginAt := Some(now))] else old(users)
    {
      if id in users {
        users := users[id := users[id].(lastLoginAt := Some(now))];
      }
    }

    method StoreRefreshToken(userId: int, hash: string, expiresAt: int) returns (ok: bool)
      modifies this`tokens
      ensures tokens == Stored(old(tokens), hash, userId, expiresAt)
      ensures ok <==> hash !in old(tokens)
      ensures tokens == if ok then old(tokens)[hash := Token(userId, expiresAt, None)] else old(tokens)
    {
      ok := hash !in tokens;
      if ok {
        tokens := tokens[hash := Token(userId, expiresAt, None)];
      }
    }

    /** SELECT, then the guarded UPDATE, whose row count is checked. */
    method ConsumeRefreshToken(hash: string, now: int) returns (userId: Option<int>)
      modifies this`tokens
      ensures userId == if Usable(old(tokens), hash, now) then Some(old(tokens)[hash].userId) else None
      ensures tokens == if Usable(old(tokens), hash, now) then Revoked(old(tokens), hash, now) else old(tokens)
      ensures userId.Some? <==> hash in old(tokens) && old(tokens)[hash].revokedAt.None? && now < old(tokens)[hash].expiresAt
      ensures userId.Some? ==> userId.value == old(tokens)[hash].userId && tokens == old(tokens)[hash := old(tokens)[hash].(revokedAt := Some(now))]
    {
      if hash !in tokens || tokens[hash].revokedAt.Some? || tokens[hash].expiresAt <= now {
        return None;
      }
      var id := tokens[hash].userId;
      var affected := if tokens[hash].revokedAt.None? then 1 else 0;
      if affected != 1 {
        return None;
      }
      tokens := tokens[hash := tokens[hash].(revokedAt := Some(now))];
      return Some(id);
    }
  }

  class Service {
    const repo: AuthRepo
    const enabled: bool
    const refreshTtl: int

    constructor (repo: AuthRepo, enabled: bool, refreshTtl: int)
      ensures this.repo == repo && this.enabled == enabled
      ensures this.refreshTtl == if refreshTtl > 0 then refreshTtl else 604800
    {
      this.repo, this.enabled := repo, enabled;
      this.refreshTtl := if refreshTtl <= 0 then 7 * 24 * 3600 else refreshTtl;
    }

    method IssuePair(userId: int, minted: Option<string>, now: int) returns (r: Outcome)
      modifies repo`tokens
      ensures r == Issuing(old(repo.tokens), userId, minted, now + refreshTtl)
      ensures r == if minted.Some? && minted.value !in old(repo.tokens) then Issued(userId, minted.value, now + refreshTtl) else Refused(NoToken)
      ensures repo.tokens == if r.Issued? then Stored(old(repo.tokens), minted.value, userId, now + refreshTtl) else old(repo.tokens)
    {
      if minted.None? {
        return Refused(NoToken);
      }
      var ok := repo.StoreRefreshToken(userId, minted.value, now + refreshTtl);
      if !ok {
        return Refused(NoToken);
      }
      return Issued(userId, minted.value, now + refreshTtl);
    }

    /** A login touches no existing token, and adds one exactly when it succeeds. */
    method Login(username: string, passwordMatches: bool, minted: Option<string>, now: int) returns (r: Outcome)
      requires UniqueNames(repo.users)
      modifies repo
      ensures r.Issued? ==> IsUser(old(repo.users), r.userId, username)
      ensures r.Issued? <==> enabled && passwordMatches && minted.Some? && minted.value !in old(repo.tokens)
                             && exists id :: IsUser(old(repo.users), id, username) && IsActive(old(repo.users), id)
      ensures r.Issued? ==> repo.tokens.Keys == old(repo.tokens).Keys + {r.hash} && r.hash !in old(repo.tokens)
                            && repo.tokens[r.hash] == Token(r.userId, now + refreshTtl, None)
      ensures !r.Issued? ==> repo.tokens == old(repo.tokens)
      ensures forall h :: h in old(repo.tokens) ==> h in repo.tokens && repo.tokens[h] == old(repo.tokens)[h]
      ensures !enabled <==> r == Refused(Disabled)
      ensures r == Refused(UserDisabled) <==>
              enabled && exists id :: IsUser(old(repo.users), id, username) && !IsActive(old(repo.users), id)
      ensures r.Issued? ==> r.userId in old(repo.users) && old(repo.users)[r.userId].username == ToLower(TrimSpace(username))
                            && old(repo.users)[r.userId].status == "active"
      ensures r.Issued? ==> repo.users == old(repo.users)[r.userId := old(repo.users)[r.userId].(lastLoginAt := Some(now))]
      ensures r == Refused(InvalidCredentials) <==>
              enabled && !(exists id :: IsUser(old(repo.users), id, username) && (passwordMatches || !IsActive(old(repo.users), id)))
      ensures r.Refused? && r.reason != NoToken ==> repo.users == old(repo.users)
    {
      if !enabled {
        return Refused(Disabled);
      }
      var found := repo.GetUserByUsername(username);
      if found.None? {
        return Refused(InvalidCredentials);
      }
      var id := found.value;
      if repo.users[id].status != "active" {
        assert IsUser(repo.users, id, username) && !IsActive(repo.users, id);
        return Refused(UserDisabled);
      }
      if !passwordMatches {
        return Refused(InvalidCredentials);
      }
      repo.UpdateLastLogin(id, now);
      r := IssuePair(id, minted, now);
    }

    /** A refresh consumes the presented token exactly when it is usable, even if it then fails because
        the user is gone or disabled or no new token is available; it succeeds exactly when none of
        these is the case. */
    method Refresh(raw: string, minted: Option<string>, now: int, later: int) returns (r: Outcome)
      modifies repo`tokens
      ensures var accepted := enabled && TrimSpace(raw) != "" && Usable(old(repo.tokens), raw, now);
              && (r.Issued? <==>
                    accepted && IsActive(repo.users, old(repo.tokens)[raw].userId) && minted.Some? && minted.value !in old(repo.tokens))
              && (r.Issued? ==> r == Issued(old(repo.tokens)[raw].userId, minted.value, later + refreshTtl))
              && repo.tokens == (if r.Issued? then Stored(Revoked(old(repo.tokens), raw, now), r.hash, r.userId, r.expiresAt)
                                 else if accepted then Revoked(old(repo.tokens), raw, now)
                                 else old(repo.tokens))
      ensures !enabled <==> r == Refused(Disabled)
      ensures r == Refused(TokenRequired) <==> enabled && TrimSpace(raw) == ""
      ensures var known := enabled && TrimSpace(raw) != "" && Usable(old(repo.tokens), raw, now);
              && (r == Refused(NoUser) <==> known && old(repo.tokens)[raw].userId !in repo.users)
              && (r == Refused(UserDisabled) <==>
                    known && old(repo.tokens)[raw].userId in repo.users && repo.users[old(repo.tokens)[raw].userId].status != "active")
      ensures r == Refused(InvalidToken) <==> enabled && TrimSpace(raw) != "" && !Usable(old(repo.tokens), raw, now)
    {
      if !enabled {
        return Refused(Disabled);
      }
      if TrimSpace(raw) == "" {
        return Refused(TokenRequired);
      }
      var userId := repo.ConsumeRefreshToken(raw, now);
      if userId.None? {
        return Refused(InvalidToken);
      }
      var id := userId.value;
      if id !in repo.users {
        return Refused(NoUser);
      }
      if repo.users[id].status != "active" {
        return Refused(UserDisabled);
      }
      r := IssuePair(id, minted, later);
    }
  }

  /** A successful refresh is a run of the step system: its three steps taken one after another give
      the same table. */
  lemma RefreshIsARun(s: System, p: nat, raw: string, hash: string, now: int, expiresAt: int)
    requires Inv(s) && At(s, p).Idle? && Usable(s.tokens, raw, now) && hash !in s.tokens
    ensures var acts := [Select(p, raw, now), Update(p), Issue(p, hash, expiresAt)];
            && ValidRun(s, acts)
            && After(s, acts).tokens == Stored(Revoked(s.tokens, raw, now), hash, s.tokens[raw].userId, expiresAt)
            && After(s, acts).consumed == s.consumed + [raw]
  {
    var s1 := Apply(s, Select(p, raw, now));
    var s2 := Apply(s1, Update(p));
    var s3 := Apply(s2, Issue(p, hash, expiresAt));
    var r2 := [Issue(p, hash, expiresAt)];
    var r1 := [Update(p)] + r2;
    var r0 := [Select(p, raw, now)] + r1;
    assert r2[1..] == [] && r1[1..] == r2 && r0[1..] == r1;
    assert ValidRun(s2, r2) && After(s2, r2) == s3;
    assert ValidRun(s1, r1) && After(s1, r1) == s3;
    assert ValidRun(s, r0) && After(s, r0) == s3;
    assert r0 == [Select(p, raw, now), Update(p), Issue(p, hash, expiresAt)];
  }
}
