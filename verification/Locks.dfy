/** Lease locks: the `resource_locks` table, against the log of calls. Times are whole seconds, as the
    columns hold them. */
module Locks {
  import Rfc3339

  datatype Lock = Lock(owner: int, expiresAt: int, acquiredAt: int)

  /** `taskKnown` is the foreign key on the owner: its violation reads like a taken lock. */
  datatype Call =
    | Acquire(key: string, owner: int, leaseSeconds: int, now: int, taskKnown: bool)
    | Release(key: string, owner: int)

  predicate Free(t: map<string, Lock>, key: string, now: int) {
    key in t ==> t[key].expiresAt < now
  }

  predicate Granted(t: map<string, Lock>, c: Call) {
    c.Acquire? && Free(t, c.key, c.now) && c.taskKnown
  }

  function Applied(t: map<string, Lock>, c: Call): map<string, Lock> {
    match c
    case Acquire(key, owner, leaseSeconds, now, _) =>
      if Granted(t, c) then t[key := Lock(owner, now + leaseSeconds, now)] else t
    case Release(key, owner) => if key in t && t[key].owner == owner then t - {key} else t
  }

  function Replay(log: seq<Call>): map<string, Lock>
    decreases |log|
  {
    if log == [] then map[] else Applied(Replay(log[..|log| - 1]), log[|log| - 1])
  }

  /** Call i was granted, given the calls before it. */
  predicate GrantedAt(log: seq<Call>, i: int, key: string) {
    0 <= i < |log| && log[i].Acquire? && log[i].key == key && Granted(Replay(log[..i]), log[i])
  }

  predicate ReleasedAt(log: seq<Call>, k: int, key: string, owner: int) {
    0 <= k < |log| && log[k] == Release(key, owner)
  }

  /** The grant at i still stands: not released by its owner, and no later grant. */
  ghost predicate Stands(log: seq<Call>, i: int, key: string) {
    && GrantedAt(log, i, key)
    && forall k :: i < k < |log| ==> !ReleasedAt(log, k, key, log[i].owner) && !GrantedAt(log, k, key)
  }

  lemma Prefix(log: seq<Call>, n: nat, i: int, key: string)
    requires i < n <= |log|
    ensures GrantedAt(log[..n], i, key) <==> GrantedAt(log, i, key)
  {
    if 0 <= i {
      assert log[..n][..i] == log[..i];
    }
  }

  lemma StandsInPrefix(log: seq<Call>, i: int, key: string)
    requires log != [] && 0 <= i < |log| - 1
    ensures Stands(log, i, key) <==>
            Stands(log[..|log| - 1], i, key)
            && !ReleasedAt(log, |log| - 1, key, if log[i].Acquire? then log[i].owner else 0)
            && !GrantedAt(log, |log| - 1, key)
  {
    var n := |log| - 1;
    var past := log[..n];
    forall k | 0 <= k < n
      ensures GrantedAt(past, k, key) <==> GrantedAt(log, k, key)
      ensures past[k] == log[k]
    {
      Prefix(log, n, k, key);
    }
    if Stands(past, i, key) && !ReleasedAt(log, n, key, log[i].owner) && !GrantedAt(log, n, key) {
      forall k | i < k < |log|
        ensures !ReleasedAt(log, k, key, log[i].owner) && !GrantedAt(log, k, key)
      {
        if k < n {
          assert !ReleasedAt(past, k, key, log[i].owner);
        }
      }
    }
    if Stands(log, i, key) {
      forall k | i < k < n
        ensures !ReleasedAt(past, k, key, past[i].owner) && !GrantedAt(past, k, key)
      {
        assert !ReleasedAt(log, k, key, log[i].owner);
      }
    }
  }

  /** The table says who holds what: a row exists exactly when some grant still stands, and it is that
      grant's row. */
  lemma {:induction false} RowIsStandingGrant(log: seq<Call>, key: string)
    ensures key in Replay(log) <==> exists i :: Stands(log, i, key)
    ensures forall i :: Stands(log, i, key) ==>
              key in Replay(log) && Replay(log)[key] == Lock(log[i].owner, log[i].now + log[i].leaseSeconds, log[i].now)
    decreases |log|
  {
    if log != [] {
      var n := |log| - 1;
      var past := log[..n];
      RowIsStandingGrant(past, key);
      if GrantedAt(log, n, key) {
        assert Stands(log, n, key);
      }
      forall i
        ensures Stands(log, i, key) <==>
                if i == n then GrantedAt(log, n, key)
                else Stands(past, i, key) && log[n] != Release(key, past[i].owner) && !GrantedAt(log, n, key)
      {
        if 0 <= i < n {
          StandsInPrefix(log, i, key);
        }
      }
      if key in Replay(past) {
        var i :| Stands(past, i, key);
        assert Stands(log, i, key) <==> log[n] != Release(key, past[i].owner) && !GrantedAt(log, n, key);
      }
    }
  }

  /** Mutual exclusion: between two grants of one lock, the first owner has released it, or a grant
      (the second, or one in between) came strictly after the first lease ran out. */
  lemma {:induction false} GrantsExclude(log: seq<Call>, i: int, j: int, key: string)
    requires i < j && GrantedAt(log, i, key) && GrantedAt(log, j, key)
    ensures exists k :: i < k <= j && (ReleasedAt(log, k, key, log[i].owner)
              || (GrantedAt(log, k, key) && log[k].now > log[i].now + log[i].leaseSeconds))
    decreases j
  {
    var past := log[..j];
    RowIsStandingGrant(past, key);
    Prefix(log, j, i, key);
    if Stands(past, i, key) {
      assert GrantedAt(log, j, key) && log[j].now > log[i].now + log[i].leaseSeconds;
    } else {
      var k :| i < k < j && (ReleasedAt(past, k, key, past[i].owner) || GrantedAt(past, k, key));
      if ReleasedAt(past, k, key, past[i].owner) {
        assert ReleasedAt(log, k, key, log[i].owner);
      } else {
        Prefix(log, j, k, key);
        GrantsExclude(log, i, k, key);
      }
    }
  }

  /** Conversely a request by a known task is refused only while a grant stands whose lease runs. */
  lemma RefusedOnlyWhileHeld(log: seq<Call>, c: Call)
    requires c.Acquire? && c.taskKnown
    ensures !Granted(Replay(log), c) <==>
            exists i :: Stands(log, i, c.key) && c.now <= log[i].now + log[i].leaseSeconds
  {
    RowIsStandingGrant(log, c.key);
  }

  /** The column comparison is textual; on formatted timestamps it is the comparison of the instants. */
  lemma ExpiryComparedAsText(expires: nat, now: nat)
    requires Rfc3339.InTextRange(expires) && Rfc3339.InTextRange(now)
    ensures Rfc3339.TextLess(Rfc3339.Stamp(expires), Rfc3339.Stamp(now)) <==> expires < now
  {
    Rfc3339.StampOrder(expires, now);
  }

  class LockRepo {
    var locks: map<string, Lock>

    constructor ()
      ensures locks == map[]
    {
      locks := map[];
    }

    /** DELETE of an expired row and INSERT in one transaction; a refused INSERT undoes the DELETE. */
    method Acquire(key: string, owner: int, leaseSeconds: int, now: int, taskKnown: bool) returns (ok: bool)
      modifies this
      ensures locks == Applied(old(locks), Call.Acquire(key, owner, leaseSeconds, now, taskKnown))
      ensures ok <==> Granted(old(locks), Call.Acquire(key, owner, leaseSeconds, now, taskKnown))
      ensures ok <==> taskKnown && (key in old(locks) ==> old(locks)[key].expiresAt < now)
      ensures locks == if ok then old(locks)[key := Lock(owner, now + leaseSeconds, now)] else old(locks)
    {
      var before := locks;
      if key in locks && locks[key].expiresAt < now {
        locks := locks - {key};
      }
      if key in locks || !taskKnown {
        locks := before;
        return false;
      }
      locks := locks[key := Lock(owner, now + leaseSeconds, now)];
      assert locks == before[key := Lock(owner, now + leaseSeconds, now)];
      return true;
    }

    method Release(key: string, owner: int)
      modifies this
      ensures locks == Applied(old(locks), Call.Release(key, owner))
      ensures locks == if key in old(locks) && old(locks)[key].owner == owner then old(locks) - {key} else old(locks)
    {
      if key in locks && locks[key].owner == owner {
        locks := locks - {key};
      }
    }
  }
}
