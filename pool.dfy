/** The resource pool: a fixed array of resources handed out one at a time through a lock driver. */
module Pool {
  import opened Values
  import opened Memory
  import opened Scanning
  import opened Polling

  /** The options a pool is built from; `shuffle` may be left unset. */
  datatype PoolOptions = PoolOptions(
    resources: seq<JsValue>,
    key: JsValue -> string,
    expires: Expiry,
    shuffle: Option<bool>)

  class ResourcePool {
    const driver: MemoryDriver
    const config: Config

    /** Keeps the driver and the resources, derives keys and lease durations from the options,
        and shuffles unless told not to. */
    constructor (driver: MemoryDriver, options: PoolOptions)
      ensures this.driver == driver
      ensures config.resources == options.resources && config.key == options.key
      ensures config.expiry == options.expires
      ensures config.shuffle <==> options.shuffle != Some(false)
    {
      this.driver := driver;
      config := Config(options.resources, options.key, options.expires, options.shuffle.GetOr(true));
    }

    /** The number of resources the pool was built with; changes nothing. */
    method Size() returns (n: nat)
      ensures n == |config.resources|
    {
      n := |config.resources|;
    }

    /** Unlocks the key of `r`, whoever holds it, and passes on the driver's answer. */
    method Release(r: JsValue) returns (ok: bool)
      modifies driver
      ensures ok && driver.lru == old(driver.lru) - {config.key(r)}
    {
      var key := config.key(r);
      ok := driver.Unlock(key);
    }

    /** One scan at time `now`; `shuffled` is the order the random sort produced, used only when
        the pool shuffles. */
    method Find(shuffled: seq<nat>, now: int) returns (found: Option<JsValue>)
      modifies driver
      ensures ScanOutcome(found, driver.lru) == Scan(config, old(driver.lru), ScanOrder(config, shuffled), now)
    {
      var indices := Ascending(|config.resources|);
      if config.shuffle {
        indices := shuffled;
      }
      var j := 0;
      while j < |indices|
        invariant 0 <= j <= |indices|
        invariant Scan(config, old(driver.lru), indices, now) == Scan(config, driver.lru, indices[j..], now)
      {
        var resource := ResourceAt(config, indices[j]);
        if Truthy(resource) {
          var key := config.key(resource);
          var expires := ExpiresOf(config.expiry, resource);
          var ok := driver.Lock(key, expires, now);
          if ok {
            return Some(resource);
          }
        }
        assert indices[j..][1..] == indices[j + 1..];
        j := j + 1;
      }
      return None;
    }

    /** Acquire with an optional timeout, called at time `start`; `shuffled(k)` is the order of
        scan number `k`. Returns what was found and the clock when it returns. */
    method Acquire(timeout: Option<int>, start: int, shuffled: nat -> seq<nat>)
      returns (found: Option<JsValue>, finish: int)
      requires AllAdmissible(config, shuffled)
      modifies driver
      // no timeout, or 0: exactly one scan
      ensures (timeout.None? || timeout.value == 0) ==>
        && finish == start
        && ScanOutcome(found, driver.lru) == Scan(config, old(driver.lru), ScanOrder(config, shuffled(0)), start)
      // a negative timeout: no scan at all
      ensures (timeout.Some? && timeout.value < 0) ==>
        found.None? && driver.lru == old(driver.lru) && finish == start
      // a positive timeout: scans until a resource is found or the deadline is reached
      ensures (timeout.Some? && timeout.value > 0) ==>
        && PollOutcome(found, driver.lru, finish) == Poll(config, old(driver.lru), shuffled, 0, start, start + timeout.value)
        && start <= finish <= start + timeout.value
        && (found.None? <==> AllHeld(config, old(driver.lru), start + timeout.value))
        && (found.None? ==> finish == start + timeout.value && driver.lru == old(driver.lru))
    {
      if timeout.None? || timeout.value == 0 {
        found := Find(shuffled(0), start);
        finish := start;
        return;
      }
      var t := timeout.value;
      var deadline := start + t;
      var remaining := t;
      var now := start;
      var k: nat := 0;
      found := None;
      while remaining > 0
        invariant t < 0 ==> remaining == t && now == start && found.None? && driver.lru == old(driver.lru)
        invariant 0 < t ==> 0 < remaining && start <= now <= deadline
        invariant 0 < t ==>
          Poll(config, old(driver.lru), shuffled, 0, start, deadline) == Poll(config, driver.lru, shuffled, k, now, deadline)
        decreases deadline - now
      {
        found := Find(shuffled(k), now);
        if found.Some? {
          finish := now;
          PollFailsIffAllHeldAtDeadline(config, old(driver.lru), shuffled, 0, start, deadline);
          return;
        }
        remaining := deadline - now;
        if remaining <= 0 {
          break;
        }
        now := now + Pause(remaining);  // the sleep between two scans
        k := k + 1;
      }
      finish := now;
      if 0 < t {
        PollFailsIffAllHeldAtDeadline(config, old(driver.lru), shuffled, 0, start, deadline);
      }
    }
  }
}
