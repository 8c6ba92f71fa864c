# generic-resource-pool, modelled in Dafny

`generic-resource-pool` hands out the members of a fixed array of resources, one holder at a
time, through a pluggable lock driver. The pool maps each resource to a lock key and a lease
length. `acquire` scans the resources, ascending or in a shuffled order, and returns the first
one whose `lock(key, expires)` the driver grants. With a positive timeout it repeats the scan,
sleeping `min(remaining, 100)` ms between scans, until a scan succeeds or the deadline is
reached. `release` unlocks a resource's key, and `size` reports how many resources there are.
The in-memory driver `MemoryDriver` keeps a map from key to expiry timestamp. Its `lock`
succeeds unless the stored expiry is non-zero and still in the future. Its `unlock` deletes
the key.

The project has six files:

- `values.dfy`: JavaScript values and their truthiness. The pool skips falsy resources.
- `memory.dfy`: the driver as the specification function `TryLock`, the `MemoryDriver` class
  proved against it, and lemmas about locks, expiry and replays of driver calls.
- `scan.dfy`: one scan, the `find` closure, as the specification function `Scan` over a
  scan order, with lemmas about scan orders and about which resource a scan takes.
- `polling.dfy`: the timed retry loop as the specification function `Poll`, its sleep
  `Pause`, and its scan-time `Schedule`.
- `pool.dfy`: the `ResourcePool` class. Its `Find` and `Acquire` loops are proved equal to
  `Scan` and `Poll`.
- `trace.dfy`: the repository's end-to-end test against the in-memory driver. It replays the
  test's calls with resources 1, 2 and 3, 1000 ms leases, `toString` keys and no shuffling, with the clock
  written out.

Clock readings are explicit inputs. A scan takes no time, so the time moves only through
the sleeps of the timed loop and between the caller's calls. The random sort is an oracle:
`shuffled(k)` is the order of scan number `k`, and it must be a permutation of the indices.

## Model

| member | source | states |
|---|---|---|
| Values.Truthy | src/index.ts:51-53 | among the values modelled here, a value is falsy exactly when it is `undefined`, `null`, `false`, `0` or `""`; the pool skips such resources, and the driver applies the same test to a stored expiry (src/drivers/memory.ts:10) |
| Memory.Held | src/drivers/memory.ts:9-10 | a key is held at `now` exactly when what `lru.get(key)` answers is truthy and greater than `now` |
| Memory.TryLock | src/drivers/memory.ts:8-16 | `lock` succeeds exactly when the key is not held; afterwards the key has an entry, no other key is added or changed, a granted lock stores `now + expires`, and a refused one leaves the table as it was |
| Memory.HeldEarlier | src/drivers/memory.ts:9-12 | a key that is locked at some time was also locked at every earlier time |
| Memory.LockAbsentKey | src/drivers/memory.ts:8-15 | `lock` on a key with no entry succeeds and stores `now + expires` |
| Memory.LockActiveKey | src/drivers/memory.ts:9-12 | `lock` on a key whose stored expiry is non-zero and later than `now` fails and leaves the table unchanged |
| Memory.LockExpiredKey | src/drivers/memory.ts:9-15 | `lock` on a key whose stored expiry is at most `now`, equality included, succeeds and overwrites the expiry with `now + expires` |
| Memory.LockZeroExpiry | src/drivers/memory.ts:10 | a stored expiry of 0 counts as no lock at any clock reading |
| Memory.LockFrame | src/drivers/memory.ts:14 | `lock` changes neither the presence nor the value of any other key's entry |
| Memory.MutualExclusion | src/drivers/memory.ts:9-15 | after `lock(key, e)` succeeds with `e > 0` at a non-negative time, a second `lock` of that key at the same time fails |
| Memory.NonPositiveLeaseDoesNotExclude | src/drivers/memory.ts:9-15 | with `e <= 0` the lease is not checked, so at any clock reading a second `lock` at the same time succeeds too |
| Memory.LockAfterUnlock | src/drivers/memory.ts:8-21 | after `unlock(key)`, `lock(key, e)` succeeds whatever expiry was stored, and the table equals the old one with `key` set to `now + e` |
| Memory.UnlockIdempotent | src/drivers/memory.ts:18-21 | unlocking a key twice leaves the same table as unlocking it once |
| Memory.ExpiryPersists | src/drivers/memory.ts:8-21 | a stored non-zero expiry survives any sequence of driver calls that neither unlocks the key nor locks it at or after that expiry |
| Memory.LeaseHoldsUntilExpiry | src/drivers/memory.ts:8-21 | after a granted lease of `e > 0` ms at time `now`, and any calls that neither unlock the key nor retry it after the lease ends, a `lock` at `later` fails exactly when `later < now + e` |
| Memory.MemoryDriver.constructor | src/drivers/memory.ts:4-6 | a new driver has an empty table |
| Memory.MemoryDriver.Lock | src/drivers/memory.ts:8-16 | the answer and the new table are those of `TryLock` on the old table, which the lemmas above characterise |
| Memory.MemoryDriver.Unlock | src/drivers/memory.ts:18-21 | answers true, and the new table is the old one without the key |
| Scanning.ExpiresOf | src/index.ts:29-34 | the lease is the given number for every resource when a number was given, and otherwise the function's value at the resource |
| Scanning.ScanOrder | src/index.ts:44-47 | the order is the ascending indices without shuffling and the sorted permutation with it; for any order the random sort can produce it is a permutation of the indices |
| Scanning.Scan | src/index.ts:49-62 | a scan that returns null leaves the table as it was, and a returned resource is truthy; `ScanTakesFirstFree` ties it to `FirstFree` and `Take` |
| Scanning.Ascending | src/index.ts:44 | the index list has one entry per resource, and entry `i` is `i` |
| Scanning.AscendingCounts | src/index.ts:44 | each index below `n` occurs exactly once in the ascending index list, and no other value occurs |
| Scanning.IndexPermutationShape | src/index.ts:44-46 | a sorted rearrangement of the indices has length `n`, holds only indices below `n`, repeats none and misses none |
| Scanning.ScanOrderVisitsEachOnce | src/index.ts:44-49 | every scan order names each resource index exactly once, and without shuffling the order is 0, 1, ..., n-1 |
| Scanning.FirstFree | src/index.ts:49-60 | the result is the least position in the order whose resource is truthy and unlocked, or the order's length when there is none |
| Scanning.ScanTakesFirstFree | src/index.ts:49-62 | a scan returns the first takeable resource in its order and changes only that resource's entry; refused locks change nothing; with none takeable it returns null and leaves the table untouched |
| Scanning.ScanReturnsTruthyResource | src/index.ts:49-58 | a scan never returns a falsy resource; what it returns is a resource of the pool whose key was not held, now leased for its `expires` |
| Scanning.ScanFoundNotAllHeld | src/index.ts:49-58 | a scan in any order that returns something shows that some truthy resource was not held |
| Scanning.ScanFailsIffAllHeld | src/index.ts:44-62 | a scan over a permutation of the indices returns null exactly when every truthy resource's key is held, and then it has changed nothing |
| Scanning.AscendingScanTakesLowest | src/index.ts:44-60 | without shuffling, a scan takes the lowest-indexed takeable resource, or returns null when every truthy resource is held |
| Scanning.AscendingScanAfterTaken | src/index.ts:44-62 | without shuffling, in a pool of truthy resources with distinct keys and positive leases, when exactly the first `m` resources are held, a scan takes resource `m`, or returns null and changes nothing once all are taken |
| Scanning.SequentialAcquiresInOrder | src/index.ts:44-62 | without shuffling, in a pool of truthy resources with distinct keys and positive leases and with no key held at a non-negative time `now`, the first `n` acquires at `now` return the resources in index order, each once, and acquire `n + 1` returns null with the table unchanged |
| Scanning.EmptyPoolScan | src/index.ts:44-62 | with no resources the only scan order is empty, and the scan returns null without touching the driver |
| Polling.Pause | src/index.ts:84-86 | each sleep is `min(remaining, 100)`: positive, at most 100 ms and never past the deadline |
| Polling.Schedule | src/index.ts:72-86 | the scan times of a loop that never finds anything start at the call and end exactly at the deadline; `ScheduleBounds` and `ScheduleGaps` give the rest |
| Polling.Poll | src/index.ts:69-89 | the timed loop: scan, return what was found, return null when no time is left, otherwise sleep `Pause` and scan again; `PollFailsIffAllHeldAtDeadline`, `PollFindsAtFirstFreeScan` and `PollHeldAtEarlierScans` state what it returns and when |
| Polling.ScheduleBounds | src/index.ts:69-87 | the scan times start at the call, end exactly at the deadline, never pass it, and number at most ceil(timeout / 100) + 1 |
| Polling.ScheduleGaps | src/index.ts:78-86 | consecutive scan times are strictly increasing, 100 ms apart except for a possibly shorter last gap |
| Polling.PollFailsIffAllHeldAtDeadline | src/index.ts:69-89 | a timed acquire returns null exactly when every truthy resource is still held at the deadline; it then returns at the deadline with the table unchanged; it never returns after the deadline |
| Polling.PollFindsAtFirstFreeScan | src/index.ts:72-76 | a timed acquire that finds a resource returns at one of its scan times, at which not every resource was held, with exactly what that scan finds on the untouched table |
| Polling.PollHeldAtEarlierScans | src/index.ts:72-87 | every scan time before the one the acquire returns from found every truthy resource held |
| Pool.ResourcePool.constructor | src/index.ts:22-35 | keeps the driver, resources, key function and lease option; shuffles unless `shuffle` is explicitly false |
| Pool.ResourcePool.Size | src/index.ts:92-94 | returns the number of resources and changes nothing |
| Pool.ResourcePool.Release | src/index.ts:37-40 | unlocks the resource's derived key and passes on the driver's answer, true |
| Pool.ResourcePool.Find | src/index.ts:43-63 | the loop's answer and the new table are those of `Scan` in the pool's order |
| Pool.ResourcePool.Acquire | src/index.ts:42-90 | with no timeout or 0: one scan at the call; a negative timeout scans nothing and returns null; a positive one equals `Poll` up to `start + timeout`, returns within the deadline, and returns null only when everything is held at the deadline, then at the deadline with the table unchanged |
| EndToEnd.TestScenario | test/index.test.ts:39-88 | the test's twelve `acquire` calls on a fresh driver return 1, 2, 3, null, 1, 2, 3, 1, 1, 1, 2, 2, as the test expects, and the final table is stated |
| EndToEnd.TestScan | test/index.test.ts:48-55 | in the test's pool, an untimed acquire takes the first of 1, 2, 3 whose key is not held and leases it for 1000 ms |
| EndToEnd.TimedAcquireAtExpiry | test/index.test.ts:57-70 | when all three leases end at the deadline, a timed acquire gets 1 exactly at the deadline |
| EndToEnd.AcquireNow | test/index.test.ts:48-55 | `acquire()` on the test's pool returns the first free of 1, 2, 3 and records its lease |
| EndToEnd.AcquireUntilExpiry | test/index.test.ts:60-70 | a timed acquire whose deadline is the common expiry of all three leases returns 1 at that deadline |
| EndToEnd.AcquireWhileAllHeld | test/index.test.ts:57-58 | a timed acquire while all three stay held returns null at its deadline and changes nothing |
| EndToEnd.FirstLeases | test/index.test.ts:48-58 | from an empty table at time 0 the acquires return 1, 2, 3, then null after 500 ms; the results and the new table are stated |
| EndToEnd.TakeOverExpired | test/index.test.ts:60-67 | the next 500 ms wait gets 1 when the leases expire at 1000; 2 and 3 are then taken over at once |
| EndToEnd.WaitAcrossExpiry | test/index.test.ts:69-70 | a 1000 ms wait started at 1000 gets 1 at 2000 |
| EndToEnd.ReleaseHandsBack | test/index.test.ts:72-80 | at 3000, 1 is acquired; after `release(1)` it is acquired again at once |
| EndToEnd.ReleaseSecond | test/index.test.ts:82-88 | 2 is acquired, released and acquired again at once |

## Left out

- The Redis and DynamoDB drivers (`src/drivers/redis.ts`, `src/drivers/dynamodb.ts`) are not part of this model. They delegate to an external server.
- The `LockDriver` interface is not a separate abstraction. The pool holds a concrete `MemoryDriver`, so what the pool promises is proved for the in-memory driver only.
- Pool.ResourcePool.Size: the resource array is held as a value. The source keeps the caller's array by reference (src/index.ts:17, 24), so a later `push` or `splice` by the caller changes what `size` returns and what `acquire` scans. That aliasing and any later mutation of the array are not modelled, and the constructor and `Size` promise a fixed count.
- Promises, `await` and concurrent callers are not modelled. Calls run one after another, and cross-process exclusion belongs to the external drivers.
- Real time is not modelled. `Date.now()` is an explicit clock input, and a scan takes no time. The driver's two clock reads in `lock` are therefore one reading, and the loop's recomputed `remaining` after a failed scan is exactly `deadline - now`.
- `setTimeout` becomes an advance of the clock by `Pause(remaining)`. Timer jitter and late wake-ups are not modelled.
- `Math.random` is not modelled. `shuffled(k)` is any permutation of the indices, which is all a sort with any comparator can produce.
- Numbers are integers. `NaN`, `-0`, fractions and infinities for timeouts, leases, clock readings and resource values are not modelled, nor are BigInt resources such as the falsy `0n`.
- `key` and `expires` are total pure functions. A key or lease function that throws or rejects is not modelled. That includes the test's `toString` key on `undefined` or `null`.
- The `interval` option the test passes is ignored by the constructor, so it is absent here too. The sleep cap is the constant 100 ms.
- `expires` is not validated, as in the source. `NonPositiveLeaseDoesNotExclude` shows what a non-positive lease does.
