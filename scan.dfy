/** One scan of the pool: visit the resource indices in scan order and take the first
    resource whose lock the driver grants. */
module Scanning {
  import opened Values
  import opened Memory

  /** The lease duration: one constant for every resource, or a function of the resource. */
  datatype Expiry = Fixed(ms: int) | PerResource(f: JsValue -> int)

  /** The lease duration the pool asks for when locking `r`. */
  function ExpiresOf(e: Expiry, r: JsValue): (ms: int)
    ensures e.Fixed? ==> ms == e.ms
    ensures e.PerResource? ==> ms == e.f(r)
  {
    match e
    case Fixed(ms) => ms
    case PerResource(f) => f(r)
  }

  /** What a pool scans: its fixed resources, how it derives a key and a lease duration
      from a resource, and whether it shuffles the scan order. */
  datatype Config = Config(resources: seq<JsValue>, key: JsValue -> string, expiry: Expiry, shuffle: bool)

  /** The indices 0, 1, ..., n - 1, as the pool lists them before any shuffle. */
  function Ascending(n: nat): (s: seq<nat>)
    ensures |s| == n && forall i | 0 <= i < n :: s[i] == i
  {
    seq(n, i => i)
  }

  /** `p` is a rearrangement of the indices 0 .. n - 1 (what sorting them with any comparator yields). */
  predicate IsIndexPermutation(p: seq<nat>, n: nat) {
    multiset(p) == multiset(Ascending(n))
  }

  /** Every index of `order` names a resource. */
  predicate InRange(c: Config, order: seq<nat>) {
    forall j | 0 <= j < |order| :: order[j] < |c.resources|
  }

  /** A shuffled order the random sort may produce: with shuffling off any value will do,
      since it is not used. */
  predicate Admissible(c: Config, shuffled: seq<nat>) {
    !c.shuffle || IsIndexPermutation(shuffled, |c.resources|)
  }

  /** The order of one scan: ascending, or the permutation the random sort produced. */
  function ScanOrder(c: Config, shuffled: seq<nat>): (order: seq<nat>)
    ensures Admissible(c, shuffled) ==> IsIndexPermutation(order, |c.resources|)
    ensures c.shuffle ==> order == shuffled
    ensures !c.shuffle ==> |order| == |c.resources| && forall j | 0 <= j < |order| :: order[j] == j
  {
    if c.shuffle then shuffled else Ascending(|c.resources|)
  }

  /** Each index below `n` occurs exactly once in the ascending listing, and no other value does. */
  lemma {:induction false} AscendingCounts(n: nat, x: nat)
    ensures multiset(Ascending(n))[x] == if x < n then 1 else 0
  {
    if n > 0 {
      assert Ascending(n) == Ascending(n - 1) + [n - 1];
      AscendingCounts(n - 1, x);
    }
  }

  /** A value at two positions of a sequence counts at least twice in its multiset. */
  lemma RepeatedElementCount(p: seq<nat>, j: nat, k: nat)
    requires j < k < |p| && p[j] == p[k]
    ensures multiset(p)[p[j]] >= 2
  {
    var x := p[j];
    assert p == p[..j] + [x] + p[j + 1..k] + [x] + p[k + 1..];
  }

  /** A permutation of the indices holds every index below `n` exactly once and nothing else. */
  lemma IndexPermutationShape(p: seq<nat>, n: nat)
    requires IsIndexPermutation(p, n)
    ensures |p| == n
    ensures forall j | 0 <= j < |p| :: p[j] < n
    ensures forall j, k | 0 <= j < k < |p| :: p[j] != p[k]
    ensures forall x | 0 <= x < n :: x in p
  {
    assert |p| == |multiset(p)| == |multiset(Ascending(n))| == n;
    forall j | 0 <= j < |p| ensures p[j] < n {
      assert p[j] in multiset(p);
      AscendingCounts(n, p[j]);
    }
    forall j, k | 0 <= j < k < |p| ensures p[j] != p[k] {
      if p[j] == p[k] {
        RepeatedElementCount(p, j, k);
        AscendingCounts(n, p[j]);
        assert false;
      }
    }
    forall x | 0 <= x < n ensures x in p {
      AscendingCounts(n, x);
      assert x in multiset(p);
    }
  }

  /** Every scan visits each resource index exactly once: ascending without shuffle,
      the given permutation with it. */
  lemma ScanOrderVisitsEachOnce(c: Config, shuffled: seq<nat>)
    requires Admissible(c, shuffled)
    ensures var order := ScanOrder(c, shuffled);
      && InRange(c, order)
      && |order| == |c.resources|
      && (forall j, k | 0 <= j < k < |order| :: order[j] != order[k])
      && (forall x | 0 <= x < |c.resources| :: x in order)
      && (!c.shuffle ==> forall j | 0 <= j < |order| :: order[j] == j)
  {
    if c.shuffle {
      IndexPermutationShape(shuffled, |c.resources|);
    } else {
      var order := Ascending(|c.resources|);
      forall x | 0 <= x < |c.resources| ensures x in order {
        assert order[x] == x;
      }
    }
  }

  /** `resources[i]` as JavaScript reads it: `undefined` past the end. */
  function ResourceAt(c: Config, i: nat): JsValue {
    if i < |c.resources| then c.resources[i] else Undefined
  }

  /** The resource at index `i` can be taken at time `now`: it is truthy and its key is not held. */
  predicate Free(c: Config, lru: LockTable, i: nat, now: int) {
    Truthy(ResourceAt(c, i)) && !Held(lru, c.key(ResourceAt(c, i)), now)
  }

  /** Every truthy resource's key is held at time `now`. */
  predicate AllHeld(c: Config, lru: LockTable, now: int) {
    forall i | 0 <= i < |c.resources| :: !Free(c, lru, i, now)
  }

  /** Resources held at some time are all held at every earlier time. */
  lemma AllHeldEarlier(c: Config, lru: LockTable, now: int, earlier: int)
    requires earlier <= now && AllHeld(c, lru, now)
    ensures AllHeld(c, lru, earlier)
  {
    forall i | 0 <= i < |c.resources| ensures !Free(c, lru, i, earlier) {
      assert !Free(c, lru, i, now);
    }
  }

  /** What a scan answers and the table it leaves behind. */
  datatype ScanOutcome = ScanOutcome(found: Option<JsValue>, lru: LockTable)

  /** One scan at time `now`: skip falsy resources, try to lock each of the others with its
      key and lease, and stop at the first lock granted. */
  function Scan(c: Config, lru: LockTable, order: seq<nat>, now: int): (s: ScanOutcome)
    ensures s.found.None? ==> s.lru == lru
    ensures s.found.Some? ==> Truthy(s.found.value)
    decreases |order|
  {
    if order == [] then ScanOutcome(None, lru)
    else
      var r := ResourceAt(c, order[0]);
      if !Truthy(r) then Scan(c, lru, order[1..], now)
      else
        var attempt := TryLock(lru, c.key(r), ExpiresOf(c.expiry, r), now);
        if attempt.ok then ScanOutcome(Some(r), attempt.lru)
        else Scan(c, attempt.lru, order[1..], now)
  }

  /** The position in `order` of the first resource that can be taken, or `|order|` if none can. */
  function FirstFree(c: Config, lru: LockTable, order: seq<nat>, now: int): (j: nat)
    ensures j <= |order|
    ensures forall i | 0 <= i < j :: !Free(c, lru, order[i], now)
    ensures j < |order| ==> Free(c, lru, order[j], now)
    decreases |order|
  {
    if order == [] then 0
    else if Free(c, lru, order[0], now) then 0
    else 1 + FirstFree(c, lru, order[1..], now)
  }

  /** The outcome of taking the resource at index `i` at time `now`. */
  function Take(c: Config, lru: LockTable, i: nat, now: int): ScanOutcome {
    var r := ResourceAt(c, i);
    ScanOutcome(Some(r), lru[c.key(r) := now + ExpiresOf(c.expiry, r)])
  }

  /** First success wins: a scan takes the first resource in its order that can be taken and
      locks nothing after it; refused locks change nothing, so when none can be taken the table
      is untouched. */
  lemma {:induction false} ScanTakesFirstFree(c: Config, lru: LockTable, order: seq<nat>, now: int)
    ensures var j := FirstFree(c, lru, order, now);
      Scan(c, lru, order, now) == if j < |order| then Take(c, lru, order[j], now) else ScanOutcome(None, lru)
    decreases |order|
  {
    if order != [] {
      ScanTakesFirstFree(c, lru, order[1..], now);
    }
  }

  /** A scan never returns a falsy resource, returns only a resource of the pool, and
      changes only the entry of the key it took. */
  lemma ScanReturnsTruthyResource(c: Config, lru: LockTable, order: seq<nat>, now: int)
    ensures var s := Scan(c, lru, order, now);
      && (s.found.None? ==> s.lru == lru)
      && (s.found.Some? ==>
            && Truthy(s.found.value)
            && s.found.value in c.resources
            && !Held(lru, c.key(s.found.value), now)
            && s.lru == lru[c.key(s.found.value) := now + ExpiresOf(c.expiry, s.found.value)])
  {
    ScanTakesFirstFree(c, lru, order, now);
  }

  /** A scan over a permutation of the indices comes back empty exactly when every truthy
      resource's key is held. */
  lemma ScanFailsIffAllHeld(c: Config, lru: LockTable, order: seq<nat>, now: int)
    requires IsIndexPermutation(order, |c.resources|)
    ensures Scan(c, lru, order, now).found.None? <==> AllHeld(c, lru, now)
    ensures Scan(c, lru, order, now).found.None? ==> Scan(c, lru, order, now).lru == lru
  {
    IndexPermutationShape(order, |c.resources|);
    ScanTakesFirstFree(c, lru, order, now);
    var j := FirstFree(c, lru, order, now);
    if j == |order| {
      forall i | 0 <= i < |c.resources| ensures !Free(c, lru, i, now) {
        assert i in order;
        var k :| 0 <= k < |order| && order[k] == i;
      }
    }
  }

  /** A scan that finds something, in any order, shows that not every resource is held. */
  lemma ScanFoundNotAllHeld(c: Config, lru: LockTable, order: seq<nat>, now: int)
    requires Scan(c, lru, order, now).found.Some?
    ensures !AllHeld(c, lru, now)
  {
    ScanTakesFirstFree(c, lru, order, now);
    var j := FirstFree(c, lru, order, now);
    assert Free(c, lru, order[j], now);
  }

  /** Without shuffling, a scan takes the lowest-indexed resource that can be taken. */
  lemma AscendingScanTakesLowest(c: Config, lru: LockTable, now: int)
    ensures var s := Scan(c, lru, Ascending(|c.resources|), now);
      && (s.found.None? <==> AllHeld(c, lru, now))
      && (s.found.Some? ==> exists i | 0 <= i < |c.resources| ::
            && Free(c, lru, i, now)
            && (forall h | 0 <= h < i :: !Free(c, lru, h, now))
            && s == Take(c, lru, i, now))
  {
    var order := Ascending(|c.resources|);
    AscendingCounts(|c.resources|, 0);
    assert IsIndexPermutation(order, |c.resources|);
    ScanFailsIffAllHeld(c, lru, order, now);
    ScanTakesFirstFree(c, lru, order, now);
    var j := FirstFree(c, lru, order, now);
    if j < |order| {
      assert order[j] == j;
      forall h | 0 <= h < j ensures !Free(c, lru, h, now) {
        assert order[h] == h;
      }
    }
  }

  /** The table after `m` untimed acquires at time `now` without shuffling, one after another. */
  function AcquiredTimes(c: Config, lru: LockTable, now: int, m: nat): LockTable
    decreases m
  {
    if m == 0 then lru
    else Scan(c, AcquiredTimes(c, lru, now, m - 1), Ascending(|c.resources|), now).lru
  }

  /** The resources below index `m` are exactly the ones whose keys are held. */
  ghost predicate HeldBelow(c: Config, t: LockTable, now: int, m: nat) {
    forall i | 0 <= i < |c.resources| :: Held(t, c.key(c.resources[i]), now) <==> i < m
  }

  /** A pool in which every resource is truthy, the keys differ and every lease is positive. */
  ghost predicate DistinctLeasablePool(c: Config) {
    && (forall i | 0 <= i < |c.resources| :: Truthy(c.resources[i]))
    && (forall i | 0 <= i < |c.resources| :: ExpiresOf(c.expiry, c.resources[i]) > 0)
    && (forall i, j | 0 <= i < j < |c.resources| :: c.key(c.resources[i]) != c.key(c.resources[j]))
  }

  /** When the first `m` resources are taken and the rest are not, an ascending scan takes
      resource `m`, or finds nothing and changes nothing once all are taken. */
  lemma AscendingScanAfterTaken(c: Config, t: LockTable, now: int, m: nat)
    requires m <= |c.resources| && DistinctLeasablePool(c) && HeldBelow(c, t, now, m)
    ensures m < |c.resources| ==> Scan(c, t, Ascending(|c.resources|), now) == Take(c, t, m, now)
    ensures m == |c.resources| ==> Scan(c, t, Ascending(|c.resources|), now) == ScanOutcome(None, t)
  {
    var order := Ascending(|c.resources|);
    ScanTakesFirstFree(c, t, order, now);
    forall h | 0 <= h < m ensures !Free(c, t, order[h], now) {
      assert order[h] == h;
    }
    if m < |c.resources| {
      assert Free(c, t, order[m], now);
    }
  }

  /** Taking resource `m` with a positive lease at a non-negative time holds its key and no other. */
  lemma TakeExtendsHeld(c: Config, t: LockTable, now: int, m: nat)
    requires m < |c.resources| && 0 <= now && DistinctLeasablePool(c) && HeldBelow(c, t, now, m)
    ensures HeldBelow(c, Take(c, t, m, now).lru, now, m + 1)
  {
    var t' := Take(c, t, m, now).lru;
    var km := c.key(c.resources[m]);
    assert t'[km] == now + ExpiresOf(c.expiry, c.resources[m]);
    forall i | 0 <= i < |c.resources| ensures Held(t', c.key(c.resources[i]), now) <==> i < m + 1 {
      if i != m {
        assert c.key(c.resources[i]) != km;
      }
    }
  }

  /** Without shuffling, in a pool of truthy resources with distinct keys and positive leases, no
      key held at a non-negative time `now`: the first `n` acquires at `now` return the resources
      in order, each once, and the next one returns null and changes nothing. */
  lemma {:induction false} SequentialAcquiresInOrder(c: Config, lru: LockTable, now: int, m: nat)
    requires 0 <= now && DistinctLeasablePool(c) && HeldBelow(c, lru, now, 0)
    requires m <= |c.resources|
    ensures HeldBelow(c, AcquiredTimes(c, lru, now, m), now, m)
    ensures var t := AcquiredTimes(c, lru, now, m);
      var s := Scan(c, t, Ascending(|c.resources|), now);
      && (m < |c.resources| ==> s.found == Some(c.resources[m]))
      && (m == |c.resources| ==> s == ScanOutcome(None, t))
    decreases m
  {
    if m > 0 {
      SequentialAcquiresInOrder(c, lru, now, m - 1);
      var t := AcquiredTimes(c, lru, now, m - 1);
      AscendingScanAfterTaken(c, t, now, m - 1);
      TakeExtendsHeld(c, t, now, m - 1);
    }
    AscendingScanAfterTaken(c, AcquiredTimes(c, lru, now, m), now, m);
  }

  /** An empty pool scans nothing: the answer is empty and the driver is never asked. */
  lemma EmptyPoolScan(c: Config, lru: LockTable, order: seq<nat>, now: int)
    requires |c.resources| == 0 && IsIndexPermutation(order, 0)
    ensures order == [] && Scan(c, lru, order, now) == ScanOutcome(None, lru)
  {
    assert |order| == |multiset(order)| == 0;
  }
}
