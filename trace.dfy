/** The end-to-end scenario the repository's test runs against the in-memory driver:
    resources 1, 2 and 3, a lease of 1000 ms, keys from `toString`, no shuffling. */
module EndToEnd {
  import opened Values
  import opened Memory
  import opened Scanning
  import opened Polling
  import opened Pool

  function Digit(d: nat): char
    requires d < 10
  {
    "0123456789"[d]
  }

  /** The decimal digits of `n`. */
  function Decimal(n: nat): string
    decreases n
  {
    if n < 10 then [Digit(n)] else Decimal(n / 10) + [Digit(n % 10)]
  }

  /** `v.toString()`, the key the test derives from a resource. For `undefined` and `null`,
      where JavaScript throws instead, the strings stand in for that failure, which the model
      does not follow. */
  function ToString(v: JsValue): string {
    match v
    case Undefined => "undefined"
    case Null => "null"
    case Bool(b) => if b then "true" else "false"
    case Num(n) => if n < 0 then "-" + Decimal(-n) else Decimal(n)
    case Str(s) => s
    case Obj(_) => "[object Object]"
  }

  /** The test's pool configuration. */
  function TestConfig(): Config {
    Config([Num(1), Num(2), Num(3)], ToString, Fixed(1000), false)
  }

  /** No shuffling: the order oracle is never consulted. */
  function NoShuffle(k: nat): seq<nat> {
    []
  }

  /** In the test's pool, every resource is held at `now` exactly when every one of the three
      keys has a non-zero expiry later than `now`. */
  lemma TestAllHeld(lru: LockTable, now: int)
    ensures AllHeld(TestConfig(), lru, now) <==> Held(lru, "1", now) && Held(lru, "2", now) && Held(lru, "3", now)
  {
    var c := TestConfig();
    assert ToString(Num(1)) == "1" && ToString(Num(2)) == "2" && ToString(Num(3)) == "3";
    assert ResourceAt(c, 0) == Num(1) && ResourceAt(c, 1) == Num(2) && ResourceAt(c, 2) == Num(3);
    if Held(lru, "1", now) && Held(lru, "2", now) && Held(lru, "3", now) {
      forall i | 0 <= i < |c.resources| ensures !Free(c, lru, i, now) {
        assert i == 0 || i == 1 || i == 2;
      }
    } else if !Held(lru, "1", now) {
      assert Free(c, lru, 0, now);
    } else if !Held(lru, "2", now) {
      assert Free(c, lru, 1, now);
    } else {
      assert Free(c, lru, 2, now);
    }
  }

  /** An untimed scan of the test's pool takes the first of 1, 2, 3 whose key is not held. */
  lemma TestScan(lru: LockTable, now: int)
    ensures Scan(TestConfig(), lru, ScanOrder(TestConfig(), NoShuffle(0)), now) ==
      if !Held(lru, "1", now) then ScanOutcome(Some(Num(1)), lru["1" := now + 1000])
      else if !Held(lru, "2", now) then ScanOutcome(Some(Num(2)), lru["2" := now + 1000])
      else if !Held(lru, "3", now) then ScanOutcome(Some(Num(3)), lru["3" := now + 1000])
      else ScanOutcome(None, lru)
  {
    var c := TestConfig();
    assert ToString(Num(1)) == "1" && ToString(Num(2)) == "2" && ToString(Num(3)) == "3";
    var order := ScanOrder(c, NoShuffle(0));
    assert order == [0, 1, 2];
    assert order[1..] == [1, 2] && order[1..][1..] == [2] && order[1..][1..][1..] == [];
  }

  /** A timed acquire on the test's pool while all three keys hold the same expiry, equal to
      the deadline, finds resource 1 exactly at the deadline. */
  lemma TimedAcquireAtExpiry(lru: LockTable, start: int, deadline: int)
    requires 0 <= start < deadline
    requires lru == map["1" := deadline, "2" := deadline, "3" := deadline]
    ensures var p := Poll(TestConfig(), lru, NoShuffle, 0, start, deadline);
      p == PollOutcome(Some(Num(1)), lru["1" := deadline + 1000], deadline)
  {
    var c := TestConfig();
    var none := NoShuffle;
    assert AllAdmissible(c, none);
    var i := PollFindsAtFirstFreeScan(c, lru, none, 0, start, deadline);
    ScheduleBounds(start, deadline);
    var times := Schedule(start, deadline);
    TestAllHeld(lru, deadline);
    PollFailsIffAllHeldAtDeadline(c, lru, none, 0, start, deadline);
    var p := Poll(c, lru, none, 0, start, deadline);
    assert p.found.Some?;
    assert FoundAtScan(c, lru, none, 0, times, i, p);
    TestAllHeld(lru, times[i]);
    assert times[i] == deadline;
    TestScan(lru, deadline);
  }

  /** An untimed acquire on the test's pool at time `now`: the first of 1, 2, 3 whose key is
      not held, locked until `now + 1000`. */
  method AcquireNow(pool: ResourcePool, now: int) returns (r: Option<JsValue>)
    requires pool.config == TestConfig()
    modifies pool.driver
    ensures ScanOutcome(r, pool.driver.lru) ==
      var lru := old(pool.driver.lru);
      if !Held(lru, "1", now) then ScanOutcome(Some(Num(1)), lru["1" := now + 1000])
      else if !Held(lru, "2", now) then ScanOutcome(Some(Num(2)), lru["2" := now + 1000])
      else if !Held(lru, "3", now) then ScanOutcome(Some(Num(3)), lru["3" := now + 1000])
      else ScanOutcome(None, lru)
  {
    assert AllAdmissible(pool.config, NoShuffle);
    TestScan(pool.driver.lru, now);
    var t;
    r, t := pool.Acquire(None, now, NoShuffle);
  }

  /** A timed acquire from `start` on the test's pool while all three leases end at `deadline`:
      it returns resource 1 at the deadline, leased for another 1000 ms. */
  method AcquireUntilExpiry(pool: ResourcePool, start: int, deadline: int) returns (r: Option<JsValue>, t: int)
    requires pool.config == TestConfig()
    requires 0 <= start < deadline
    requires pool.driver.lru == map["1" := deadline, "2" := deadline, "3" := deadline]
    modifies pool.driver
    ensures r == Some(Num(1)) && t == deadline
    ensures pool.driver.lru == old(pool.driver.lru)["1" := deadline + 1000]
  {
    assert AllAdmissible(pool.config, NoShuffle);
    TimedAcquireAtExpiry(pool.driver.lru, start, deadline);
    r, t := pool.Acquire(Some(deadline - start), start, NoShuffle);
  }

  /** A timed acquire on the test's pool whose three keys stay held up to its deadline finds
      nothing, returns at the deadline and leaves the table as it was. */
  method AcquireWhileAllHeld(pool: ResourcePool, start: int, timeout: int) returns (r: Option<JsValue>, t: int)
    requires pool.config == TestConfig() && 0 < timeout
    requires Held(pool.driver.lru, "1", start + timeout) && Held(pool.driver.lru, "2", start + timeout)
    requires Held(pool.driver.lru, "3", start + timeout)
    modifies pool.driver
    ensures r == None && t == start + timeout && pool.driver.lru == old(pool.driver.lru)
  {
    assert AllAdmissible(pool.config, NoShuffle);
    TestAllHeld(pool.driver.lru, start + timeout);
    r, t := pool.Acquire(Some(timeout), start, NoShuffle);
  }

  /** The test's sequence of calls, with the clock made explicit: what each `acquire` returns,
      in order, and the driver's table at the end. */
  method TestScenario() returns (results: seq<Option<JsValue>>, table: LockTable)
    ensures results == [Some(Num(1)), Some(Num(2)), Some(Num(3)), None,
                        Some(Num(1)), Some(Num(2)), Some(Num(3)),
                        Some(Num(1)),
                        Some(Num(1)), Some(Num(1)),
                        Some(Num(2)), Some(Num(2))]
    ensures table == map["1" := 4000, "2" := 4000, "3" := 2000]
  {
    var driver := new MemoryDriver();
    var pool := new ResourcePool(driver, PoolOptions([Num(1), Num(2), Num(3)], ToString, Fixed(1000), Some(false)));
    assert pool.config == TestConfig();
    var first := FirstLeases(pool);
    var second := TakeOverExpired(pool);
    var third := WaitAcrossExpiry(pool);
    var fourth := ReleaseHandsBack(pool);
    var fifth := ReleaseSecond(pool);
    results := first + second + third + fourth + fifth;
    table := driver.lru;
  }

  /** From an empty table at time 0: three acquires hand out 1, 2 and 3; a 500 ms wait then
      finds nothing and returns at its deadline. */
  method FirstLeases(pool: ResourcePool) returns (results: seq<Option<JsValue>>)
    requires pool.config == TestConfig() && pool.driver.lru == map[]
    modifies pool.driver
    ensures results == [Some(Num(1)), Some(Num(2)), Some(Num(3)), None]
    ensures pool.driver.lru == map["1" := 1000, "2" := 1000, "3" := 1000]
  {
    var driver := pool.driver;
    var r1 := AcquireNow(pool, 0);
    assert r1 == Some(Num(1)) && driver.lru == map["1" := 1000];
    var r2 := AcquireNow(pool, 0);
    assert r2 == Some(Num(2)) && driver.lru == map["1" := 1000, "2" := 1000];
    var r3 := AcquireNow(pool, 0);
    assert r3 == Some(Num(3)) && driver.lru == map["1" := 1000, "2" := 1000, "3" := 1000];
    var r4, t := AcquireWhileAllHeld(pool, 0, 500);
    assert t == 500;
    results := [r1, r2, r3, r4];
  }

  /** The next 500 ms wait ends when the leases expire at 1000 and gets 1; the expired leases
      of 2 and 3 are taken over at once. */
  method TakeOverExpired(pool: ResourcePool) returns (results: seq<Option<JsValue>>)
    requires pool.config == TestConfig()
    requires pool.driver.lru == map["1" := 1000, "2" := 1000, "3" := 1000]
    modifies pool.driver
    ensures results == [Some(Num(1)), Some(Num(2)), Some(Num(3))]
    ensures pool.driver.lru == map["1" := 2000, "2" := 2000, "3" := 2000]
  {
    var driver := pool.driver;
    var r1, t := AcquireUntilExpiry(pool, 500, 1000);
    assert driver.lru == map["1" := 2000, "2" := 1000, "3" := 1000];
    var r2 := AcquireNow(pool, 1000);
    assert r2 == Some(Num(2)) && driver.lru == map["1" := 2000, "2" := 2000, "3" := 1000];
    var r3 := AcquireNow(pool, 1000);
    assert r3 == Some(Num(3)) && driver.lru == map["1" := 2000, "2" := 2000, "3" := 2000];
    results := [r1, r2, r3];
  }

  /** A 1000 ms wait started at 1000 spans the next expiry and gets 1 at 2000. */
  method WaitAcrossExpiry(pool: ResourcePool) returns (results: seq<Option<JsValue>>)
    requires pool.config == TestConfig()
    requires pool.driver.lru == map["1" := 2000, "2" := 2000, "3" := 2000]
    modifies pool.driver
    ensures results == [Some(Num(1))]
    ensures pool.driver.lru == map["1" := 3000, "2" := 2000, "3" := 2000]
  {
    var r, t := AcquireUntilExpiry(pool, 1000, 2000);
    results := [r];
  }

  /** After one more lease, at 3000, 1 is free again; releasing it makes it available at once
      although its new lease has not run out. */
  method ReleaseHandsBack(pool: ResourcePool) returns (results: seq<Option<JsValue>>)
    requires pool.config == TestConfig()
    requires pool.driver.lru == map["1" := 3000, "2" := 2000, "3" := 2000]
    modifies pool.driver
    ensures results == [Some(Num(1)), Some(Num(1))]
    ensures pool.driver.lru == map["1" := 4000, "2" := 2000, "3" := 2000]
  {
    var driver := pool.driver;
    var r1 := AcquireNow(pool, 3000);
    assert r1 == Some(Num(1)) && driver.lru == map["1" := 4000, "2" := 2000, "3" := 2000];
    var ok := pool.Release(Num(1));
    assert driver.lru == map["2" := 2000, "3" := 2000];
    var r2 := AcquireNow(pool, 3000);
    assert r2 == Some(Num(1));
    assert driver.lru == map["1" := 4000, "2" := 2000, "3" := 2000];
    results := [r1, r2];
  }

  /** With 1 leased again at 3000, the next acquire gets 2; once 2 is released, it is handed
      out again at once. */
  method ReleaseSecond(pool: ResourcePool) returns (results: seq<Option<JsValue>>)
    requires pool.config == TestConfig()
    requires pool.driver.lru == map["1" := 4000, "2" := 2000, "3" := 2000]
    modifies pool.driver
    ensures results == [Some(Num(2)), Some(Num(2))]
    ensures pool.driver.lru == map["1" := 4000, "2" := 4000, "3" := 2000]
  {
    var driver := pool.driver;
    var r1 := AcquireNow(pool, 3000);
    assert r1 == Some(Num(2)) && driver.lru == map["1" := 4000, "2" := 4000, "3" := 2000];
    var ok := pool.Release(Num(2));
    assert driver.lru == map["1" := 4000, "3" := 2000];
    var r2 := AcquireNow(pool, 3000);
    assert r2 == Some(Num(2));
    assert driver.lru == map["1" := 4000, "2" := 4000, "3" := 2000];
    results := [r1, r2];
  }
}
