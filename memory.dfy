/** The in-process lock driver: a map from lock key to expiry timestamp (milliseconds).
    It is the reference implementation of the pool's `lock`/`unlock` capability. */
module Memory {
  import opened Values

  /** The driver's `lru` map: key -> expiry timestamp. */
  type LockTable = map<string, int>

  /** `key` carries an active lock at time `now`. A stored expiry of 0 counts as no lock,
      because the driver tests the stored value for truthiness before comparing it with the clock. */
  predicate Held(lru: LockTable, key: string, now: int)
    // `ttl` is what `lru.get(key)` answers: the stored number, or `undefined`
    ensures Held(lru, key, now) <==>
      var ttl := if key in lru then Num(lru[key]) else Undefined;
      Truthy(ttl) && ttl.Num? && ttl.n > now
  {
    key in lru && lru[key] != 0 && lru[key] > now
  }

  /** What `lock` answers and the table it leaves behind. */
  datatype LockOutcome = LockOutcome(ok: bool, lru: LockTable)

  /** The effect of `lock(key, expires)` at time `now`: refused while the key is held,
      otherwise the key's expiry becomes `now + expires`. */
  function TryLock(lru: LockTable, key: string, expires: int, now: int): (r: LockOutcome)
    ensures r.ok <==> !Held(lru, key, now)
    ensures r.lru.Keys == lru.Keys + {key}
    ensures forall k | k in lru && k != key :: r.lru[k] == lru[k]
    ensures r.ok ==> r.lru[key] == now + expires
    ensures !r.ok ==> r.lru == lru
  {
    if Held(lru, key, now) then LockOutcome(false, lru)
    else LockOutcome(true, lru[key := now + expires])
  }

  /** An active lock at some time is active at every earlier time. */
  lemma HeldEarlier(lru: LockTable, key: string, now: int, earlier: int)
    requires earlier <= now && Held(lru, key, now)
    ensures Held(lru, key, earlier)
  {
  }

  /** Locking a key that has no entry succeeds and records `now + expires`. */
  lemma LockAbsentKey(lru: LockTable, key: string, expires: int, now: int)
    requires key !in lru
    ensures TryLock(lru, key, expires, now) == LockOutcome(true, lru[key := now + expires])
  {
  }

  /** Locking a key whose stored expiry is non-zero and later than `now` fails and changes nothing. */
  lemma LockActiveKey(lru: LockTable, key: string, expires: int, now: int)
    requires key in lru && lru[key] != 0 && lru[key] > now
    ensures TryLock(lru, key, expires, now) == LockOutcome(false, lru)
  {
  }

  /** Locking a key whose stored expiry is at most `now` (expired, including equal) overwrites it. */
  lemma LockExpiredKey(lru: LockTable, key: string, expires: int, now: int)
    requires key in lru && lru[key] <= now
    ensures TryLock(lru, key, expires, now) == LockOutcome(true, lru[key := now + expires])
  {
  }

  /** A stored expiry of 0 is treated like an absent entry, whatever the clock says. */
  lemma LockZeroExpiry(lru: LockTable, key: string, expires: int, now: int)
    requires key in lru && lru[key] == 0
    ensures TryLock(lru, key, expires, now) == LockOutcome(true, lru[key := now + expires])
  {
  }

  /** `lock` changes at most the entry of its own key. */
  lemma LockFrame(lru: LockTable, key: string, expires: int, now: int, other: string)
    requires other != key
    ensures var after := TryLock(lru, key, expires, now).lru;
      (other in after <==> other in lru) && (other in lru ==> after[other] == lru[other])
  {
  }

  /** Mutual exclusion: once `lock(key, expires)` with a positive lease has succeeded at
      a non-negative time, a second `lock` of the same key at the same time fails. */
  lemma MutualExclusion(lru: LockTable, key: string, expires: int, now: int, again: int)
    requires 0 < expires && 0 <= now
    requires TryLock(lru, key, expires, now).ok
    ensures !TryLock(TryLock(lru, key, expires, now).lru, key, again, now).ok
  {
  }

  /** The driver does not validate the lease: with `expires <= 0` a fresh lock does not exclude
      a second caller at the same instant, whatever the clock reads. */
  lemma NonPositiveLeaseDoesNotExclude(lru: LockTable, key: string, expires: int, now: int, again: int)
    requires expires <= 0
    requires TryLock(lru, key, expires, now).ok
    ensures TryLock(TryLock(lru, key, expires, now).lru, key, again, now).ok
  {
  }

  /** `unlock` then `lock` succeeds whatever expiry was stored before. */
  lemma LockAfterUnlock(lru: LockTable, key: string, expires: int, now: int)
    ensures TryLock(lru - {key}, key, expires, now) == LockOutcome(true, lru[key := now + expires])
  {
    assert (lru - {key})[key := now + expires] == lru[key := now + expires];
  }

  /** `unlock` is idempotent. */
  lemma UnlockIdempotent(lru: LockTable, key: string)
    ensures (lru - {key}) - {key} == lru - {key}
  {
  }

  /** A call the driver receives, with the clock reading of a `lock`. */
  datatype DriverCall = LockCall(key: string, expires: int, now: int) | UnlockCall(key: string)

  /** The table after the driver has served `calls` in order. */
  function Replay(lru: LockTable, calls: seq<DriverCall>): LockTable
    decreases |calls|
  {
    if calls == [] then lru
    else
      var next := match calls[0]
        case LockCall(k, e, t) => TryLock(lru, k, e, t).lru
        case UnlockCall(k) => lru - {k};
      Replay(next, calls[1..])
  }

  /** No call releases `key`, and every `lock` of `key` comes before `until`. */
  predicate Undisturbed(calls: seq<DriverCall>, key: string, until: int) {
    forall i | 0 <= i < |calls| ::
      match calls[i]
      case UnlockCall(k) => k != key
      case LockCall(k, _, t) => k != key || t < until
  }

  /** While nobody unlocks `key` and nobody tries it after the stored expiry, that expiry stays. */
  lemma {:induction false} ExpiryPersists(lru: LockTable, key: string, calls: seq<DriverCall>)
    requires key in lru && lru[key] != 0
    requires Undisturbed(calls, key, lru[key])
    ensures key in Replay(lru, calls) && Replay(lru, calls)[key] == lru[key]
    decreases |calls|
  {
    if calls != [] {
      var next := match calls[0]
        case LockCall(k, e, t) => TryLock(lru, k, e, t).lru
        case UnlockCall(k) => lru - {k};
      assert key in next && next[key] == lru[key] by {
        match calls[0]
        case UnlockCall(k) =>
          assert Undisturbed(calls, key, lru[key]) && 0 < |calls|;
        case LockCall(k, e, t) =>
          assert k != key || t < lru[key];
      }
      assert Undisturbed(calls[1..], key, next[key]) by {
        forall i | 0 <= i < |calls[1..]|
          ensures match calls[1..][i]
            case UnlockCall(k) => k != key
            case LockCall(k, _, t) => k != key || t < next[key]
        {
          assert calls[1..][i] == calls[i + 1];
        }
      }
      ExpiryPersists(next, key, calls[1..]);
    }
  }

  /** A lease taken with `lock(key, expires)` at time `now` (positive lease, non-negative clock)
      keeps the key locked for exactly `expires` milliseconds: after any calls that neither unlock
      the key nor try it after the lease ends, a `lock` at time `later` fails if and only if
      `later < now + expires`. */
  lemma LeaseHoldsUntilExpiry(lru: LockTable, key: string, expires: int, now: int,
                              calls: seq<DriverCall>, again: int, later: int)
    requires 0 < expires && 0 <= now
    requires TryLock(lru, key, expires, now).ok
    requires Undisturbed(calls, key, now + expires)
    ensures var table := Replay(TryLock(lru, key, expires, now).lru, calls);
      !TryLock(table, key, again, later).ok <==> later < now + expires
  {
    var taken := TryLock(lru, key, expires, now).lru;
    assert taken[key] == now + expires;
    ExpiryPersists(taken, key, calls);
  }

  /** The in-memory driver. */
  class MemoryDriver {
    var lru: LockTable

    constructor ()
      ensures lru == map[]
    {
      lru := map[];
    }

    /** Takes the lock on `key` for `expires` ms unless an unexpired entry exists. */
    method Lock(key: string, expires: int, now: int) returns (ok: bool)
      modifies this
      ensures LockOutcome(ok, lru) == TryLock(old(lru), key, expires, now)
    {
      var ttl := if key in lru then Some(lru[key]) else None;
      if ttl.Some? && ttl.value != 0 && ttl.value > now {
        return false;
      }
      lru := lru[key := now + expires];
      return true;
    }

    /** Removes any entry for `key`; always answers true. */
    method Unlock(key: string) returns (ok: bool)
      modifies this
      ensures ok && lru == old(lru) - {key}
    {
      lru := lru - {key};
      return true;
    }
  }
}
