/** The timed retry loop of `acquire`: scan, and while nothing is found and time remains
    before the deadline, sleep for at most one poll interval and scan again. */
module Polling {
  import opened Values
  import opened Memory
  import opened Scanning

  /** The longest sleep between two scans, in milliseconds (fixed in the pool, not configurable). */
  const PollInterval: int := 100

  /** The sleep after a failed scan when `remaining` ms are left before the deadline:
      `min(remaining, 100)`. */
  function Pause(remaining: int): (d: int)
    requires 0 < remaining
    ensures 0 < d <= PollInterval && d <= remaining
    ensures d == PollInterval || d == remaining
  {
    if remaining < PollInterval then remaining else PollInterval
  }

  /** The times at which a timed acquire that never finds anything scans, starting at `now`. */
  function Schedule(now: int, deadline: int): (s: seq<int>)
    requires now <= deadline
    ensures |s| > 0 && s[0] == now && s[|s| - 1] == deadline
    decreases deadline - now
  {
    if deadline - now <= 0 then [now]
    else [now] + Schedule(now + Pause(deadline - now), deadline)
  }

  /** The scan times start at `now`, end exactly at the deadline, never pass it, and number at
      most ceil((deadline - now) / 100) + 1. */
  lemma {:induction false} ScheduleBounds(now: int, deadline: int)
    requires now <= deadline
    ensures var s := Schedule(now, deadline);
      && |s| > 0 && s[0] == now && s[|s| - 1] == deadline
      && (forall i | 0 <= i < |s| :: now <= s[i] <= deadline)
      && |s| <= (deadline - now + PollInterval - 1) / PollInterval + 1
    decreases deadline - now
  {
    if deadline - now > 0 {
      var next := now + Pause(deadline - now);
      ScheduleBounds(next, deadline);
      var rest := Schedule(next, deadline);
      var s := Schedule(now, deadline);
      assert s == [now] + rest;
      forall i | 0 <= i < |s| ensures now <= s[i] <= deadline {
        if i > 0 {
          assert s[i] == rest[i - 1];
        }
      }
    }
  }

  /** Consecutive scan times are one poll interval apart, except for a possibly shorter last gap. */
  lemma {:induction false} ScheduleGaps(now: int, deadline: int)
    requires now <= deadline
    ensures var s := Schedule(now, deadline);
      && (forall i | 0 <= i < |s| - 1 :: s[i] < s[i + 1] <= s[i] + PollInterval)
      && (forall i | 0 <= i < |s| - 2 :: s[i + 1] == s[i] + PollInterval)
    decreases deadline - now
  {
    if deadline - now > 0 {
      var next := now + Pause(deadline - now);
      ScheduleGaps(next, deadline);
      ScheduleBounds(next, deadline);
      var rest := Schedule(next, deadline);
      var s := Schedule(now, deadline);
      assert s == [now] + rest;
      forall i | 0 <= i < |s| - 1 ensures s[i] < s[i + 1] <= s[i] + PollInterval {
        if i > 0 {
          assert s[i] == rest[i - 1] && s[i + 1] == rest[i];
        }
      }
      forall i | 0 <= i < |s| - 2 ensures s[i + 1] == s[i] + PollInterval {
        if i == 0 {
          assert |rest| > 1;
          assert next < deadline;
        } else {
          assert s[i] == rest[i - 1] && s[i + 1] == rest[i];
        }
      }
    }
  }

  /** What a timed acquire answers, the table it leaves behind, and the clock when it returns. */
  datatype PollOutcome = PollOutcome(found: Option<JsValue>, lru: LockTable, finish: int)

  /** Every scan order the random sort can hand out is a permutation of the indices. */
  ghost predicate AllAdmissible(c: Config, shuffled: nat -> seq<nat>) {
    forall k: nat :: Admissible(c, shuffled(k))
  }

  /** The timed loop from scan number `k` at time `now`: scan; return what was found; with no time
      left before `deadline` return nothing; otherwise sleep `Pause(deadline - now)` and go on. */
  function Poll(c: Config, lru: LockTable, shuffled: nat -> seq<nat>, k: nat, now: int, deadline: int): PollOutcome
    requires now <= deadline
    decreases deadline - now
  {
    var s := Scan(c, lru, ScanOrder(c, shuffled(k)), now);
    if s.found.Some? then PollOutcome(s.found, s.lru, now)
    else if deadline - now <= 0 then PollOutcome(None, s.lru, now)
    else Poll(c, s.lru, shuffled, k + 1, now + Pause(deadline - now), deadline)
  }

  /** A scan of admissible order comes back empty exactly when every truthy resource is held. */
  lemma AdmissibleScanFailsIffAllHeld(c: Config, lru: LockTable, shuffled: seq<nat>, now: int)
    requires Admissible(c, shuffled)
    ensures var s := Scan(c, lru, ScanOrder(c, shuffled), now);
      && (s.found.None? <==> AllHeld(c, lru, now))
      && (s.found.None? ==> s.lru == lru)
  {
    ScanFailsIffAllHeld(c, lru, ScanOrder(c, shuffled), now);
  }

  /** A timed acquire returns nothing exactly when every truthy resource is still held at the
      deadline; it then has changed nothing and returns at the deadline. It never returns after it. */
  lemma {:induction false} PollFailsIffAllHeldAtDeadline(c: Config, lru: LockTable, shuffled: nat -> seq<nat>,
                                                         k: nat, now: int, deadline: int)
    requires AllAdmissible(c, shuffled)
    requires now <= deadline
    ensures var p := Poll(c, lru, shuffled, k, now, deadline);
      && (p.found.None? <==> AllHeld(c, lru, deadline))
      && (p.found.None? ==> p.lru == lru && p.finish == deadline)
      && now <= p.finish <= deadline
    decreases deadline - now
  {
    assert Admissible(c, shuffled(k));
    AdmissibleScanFailsIffAllHeld(c, lru, shuffled(k), now);
    var s := Scan(c, lru, ScanOrder(c, shuffled(k)), now);
    if s.found.Some? {
      if AllHeld(c, lru, deadline) {
        AllHeldEarlier(c, lru, deadline, now);
      }
    } else if deadline - now > 0 {
      PollFailsIffAllHeldAtDeadline(c, lru, shuffled, k + 1, now + Pause(deadline - now), deadline);
    }
  }

  /** After a scan that finds nothing with time left, the timed loop goes on from the next
      scan time with the table unchanged, and the schedule from there is the rest of this one. */
  lemma PollAfterFailedScan(c: Config, lru: LockTable, shuffled: nat -> seq<nat>, k: nat, now: int, deadline: int)
    requires now < deadline && Scan(c, lru, ScanOrder(c, shuffled(k)), now).found.None?
    ensures var next := now + Pause(deadline - now);
      && Poll(c, lru, shuffled, k, now, deadline) == Poll(c, lru, shuffled, k + 1, next, deadline)
      && Schedule(now, deadline) == [now] + Schedule(next, deadline)
  {
    ScanReturnsTruthyResource(c, lru, ScanOrder(c, shuffled(k)), now);
  }

  /** A timed acquire starting with scan number `k`, whose scan times are `times`, returned `p`
      from scan number `i` (counted from `k`): at that scan time not every resource was held,
      the acquire returned then, and with what that scan, run on the untouched table, finds. */
  ghost predicate FoundAtScan(c: Config, lru: LockTable, shuffled: nat -> seq<nat>, k: nat,
                              times: seq<int>, i: nat, p: PollOutcome) {
    p.found.Some? ==>
      && i < |times|
      && times[i] == p.finish
      && !AllHeld(c, lru, times[i])
      && ScanOutcome(p.found, p.lru) == Scan(c, lru, ScanOrder(c, shuffled(k + i)), times[i])
  }

  /** When the first scan finds something, the timed loop returns its outcome at once. */
  lemma PollFoundAtFirstScan(c: Config, lru: LockTable, shuffled: nat -> seq<nat>, k: nat, now: int, deadline: int)
    requires now <= deadline && Scan(c, lru, ScanOrder(c, shuffled(k)), now).found.Some?
    ensures FoundAtScan(c, lru, shuffled, k, Schedule(now, deadline), 0, Poll(c, lru, shuffled, k, now, deadline))
  {
    ScanFoundNotAllHeld(c, lru, ScanOrder(c, shuffled(k)), now);
    assert Schedule(now, deadline)[0] == now;
  }

  /** The witness of a later scan, shifted by one failed scan in front of it. */
  lemma FoundOneScanLater(c: Config, lru: LockTable, shuffled: nat -> seq<nat>, k: nat, now: int,
                          rest: seq<int>, i: nat, p: PollOutcome)
    requires FoundAtScan(c, lru, shuffled, k + 1, rest, i, p)
    ensures FoundAtScan(c, lru, shuffled, k, [now] + rest, i + 1, p)
  {
    if p.found.Some? {
      assert ([now] + rest)[i + 1] == rest[i];
      assert k + (i + 1) == k + 1 + i;
    }
  }

  /** A timed acquire that finds a resource returns at one of its scan times (scan number `i`,
      counted from the first) with exactly what that scan, run on the untouched table, finds; at
      that time not every resource is held. */
  lemma {:induction false} PollFindsAtFirstFreeScan(c: Config, lru: LockTable, shuffled: nat -> seq<nat>,
                                                    k: nat, now: int, deadline: int)
    returns (i: nat)
    requires now <= deadline
    ensures FoundAtScan(c, lru, shuffled, k, Schedule(now, deadline), i, Poll(c, lru, shuffled, k, now, deadline))
    decreases deadline - now
  {
    var s := Scan(c, lru, ScanOrder(c, shuffled(k)), now);
    i := 0;
    if s.found.Some? {
      PollFoundAtFirstScan(c, lru, shuffled, k, now, deadline);
    } else if deadline - now > 0 {
      var next := now + Pause(deadline - now);
      PollAfterFailedScan(c, lru, shuffled, k, now, deadline);
      var i' := PollFindsAtFirstFreeScan(c, lru, shuffled, k + 1, next, deadline);
      FoundOneScanLater(c, lru, shuffled, k, now, Schedule(next, deadline), i', Poll(c, lru, shuffled, k + 1, next, deadline));
      i := i' + 1;
    }
  }

  /** Every scan time in `times` before `finish` found every truthy resource held. */
  ghost predicate HeldAtScansBefore(c: Config, lru: LockTable, times: seq<int>, finish: int) {
    forall h | 0 <= h < |times| && times[h] < finish :: AllHeld(c, lru, times[h])
  }

  /** One more failed scan in front keeps every scan before `finish` a failed one. */
  lemma HeldOneScanLater(c: Config, lru: LockTable, now: int, rest: seq<int>, finish: int)
    requires AllHeld(c, lru, now) && HeldAtScansBefore(c, lru, rest, finish)
    ensures HeldAtScansBefore(c, lru, [now] + rest, finish)
  {
    var times := [now] + rest;
    forall h | 0 <= h < |times| && times[h] < finish ensures AllHeld(c, lru, times[h]) {
      if h > 0 {
        assert times[h] == rest[h - 1];
      }
    }
  }

  /** No scan time lies before the first one. */
  lemma NothingBeforeFirstScan(c: Config, lru: LockTable, times: seq<int>, now: int)
    requires forall h | 0 <= h < |times| :: now <= times[h]
    ensures HeldAtScansBefore(c, lru, times, now)
  {
  }

  /** Every scan a timed acquire makes before the one it returns from finds every truthy
      resource held: the acquire returns from the first scan at which something is free. */
  lemma {:induction false} PollHeldAtEarlierScans(c: Config, lru: LockTable, shuffled: nat -> seq<nat>,
                                                  k: nat, now: int, deadline: int)
    requires AllAdmissible(c, shuffled)
    requires now <= deadline
    ensures HeldAtScansBefore(c, lru, Schedule(now, deadline), Poll(c, lru, shuffled, k, now, deadline).finish)
    decreases deadline - now
  {
    var s := Scan(c, lru, ScanOrder(c, shuffled(k)), now);
    if s.found.None? && deadline - now > 0 {
      assert Admissible(c, shuffled(k));
      AdmissibleScanFailsIffAllHeld(c, lru, shuffled(k), now);
      var next := now + Pause(deadline - now);
      PollAfterFailedScan(c, lru, shuffled, k, now, deadline);
      PollHeldAtEarlierScans(c, lru, shuffled, k + 1, next, deadline);
      HeldOneScanLater(c, lru, now, Schedule(next, deadline), Poll(c, lru, shuffled, k + 1, next, deadline).finish);
    } else {
      ScheduleBounds(now, deadline);
      assert Poll(c, lru, shuffled, k, now, deadline).finish == now;
      NothingBeforeFirstScan(c, lru, Schedule(now, deadline), now);
    }
  }
}
