/** The size-bucketed pool of reusable buffers. */
module Pool {
  import opened Media

  const BUCKET_SIZES: seq<nat> := [
    4 * 1024, 8 * 1024, 16 * 1024, 32 * 1024, 64 * 1024, 128 * 1024, 256 * 1024, 512 * 1024,
    1024 * 1024, 2 * 1024 * 1024, 4 * 1024 * 1024]
  const MAX_BUCKET_SIZE: nat := 4 * 1024 * 1024

  /** An allocation, by name, and its capacity. */
  datatype Alloc = Alloc(id: nat, capacity: nat)

  datatype Stats = Stats(hits: nat, misses: nat, recycled: nat, dropped: nat)

  type Buckets = b: seq<seq<Alloc>> | |b| == |BUCKET_SIZES| witness [[], [], [], [], [], [], [], [], [], [], []]

  datatype State = State(buckets: Buckets, maxPerBucket: nat, stats: Stats)

  lemma Doubling(i: nat)
    requires i < |BUCKET_SIZES| - 1
    ensures BUCKET_SIZES[i + 1] == 2 * BUCKET_SIZES[i]
  {
  }

  // ---- the two index searches ----

  /** The first bucket from `i` on that is at least `size`. */
  function FirstFrom(i: nat, size: nat): (r: nat)
    requires i < |BUCKET_SIZES| && size <= MAX_BUCKET_SIZE
    requires forall j :: 0 <= j < i ==> BUCKET_SIZES[j] < size
    ensures r < |BUCKET_SIZES| && BUCKET_SIZES[r] >= size
    ensures forall j :: 0 <= j < r ==> BUCKET_SIZES[j] < size
    decreases |BUCKET_SIZES| - i
  {
    if BUCKET_SIZES[i] >= size then i else FirstFrom(i + 1, size)
  }

  function BucketIndex(size: nat): (r: Option<nat>)
    ensures r.None? <==> size > MAX_BUCKET_SIZE
    ensures r.Some? ==> r.value < |BUCKET_SIZES| && BUCKET_SIZES[r.value] >= size
    ensures r.Some? ==> forall j :: 0 <= j < r.value ==> BUCKET_SIZES[j] < size
  {
    if size > MAX_BUCKET_SIZE then None else Some(FirstFrom(0, size))
  }

  /** The last bucket up to `i` that is at most `cap`. */
  function LastUpTo(i: nat, cap: nat): (r: nat)
    requires i < |BUCKET_SIZES| && cap >= BUCKET_SIZES[0]
    requires forall j :: i < j < |BUCKET_SIZES| ==> cap < BUCKET_SIZES[j]
    ensures r < |BUCKET_SIZES| && BUCKET_SIZES[r] <= cap
    ensures forall j :: r < j < |BUCKET_SIZES| ==> cap < BUCKET_SIZES[j]
  {
    if BUCKET_SIZES[i] <= cap then i else LastUpTo(i - 1, cap)
  }

  function RecycleIndex(cap: nat): (r: Option<nat>)
    ensures r.None? <==> cap > MAX_BUCKET_SIZE || cap < BUCKET_SIZES[0]
    ensures r.Some? ==> r.value < |BUCKET_SIZES| && BUCKET_SIZES[r.value] <= cap < 2 * BUCKET_SIZES[r.value]
  {
    if cap > MAX_BUCKET_SIZE || cap < BUCKET_SIZES[0] then None
    else
      var i := LastUpTo(|BUCKET_SIZES| - 1, cap);
      assert cap < 2 * BUCKET_SIZES[i] by {
        if i < |BUCKET_SIZES| - 1 { Doubling(i); }
      }
      Some(i)
  }

  // ---- the operations as functions ----

  function Empty(maxPerBucket: nat): State {
    State([[], [], [], [], [], [], [], [], [], [], []], maxPerBucket, Stats(0, 0, 0, 0))
  }

  /** A buffer for at least `size` bytes; `id` names the allocation if there has to be a new one. */
  function Acquire(p: State, size: nat, id: nat): (State, Alloc) {
    match BucketIndex(size)
    case None => (p.(stats := p.stats.(misses := p.stats.misses + 1)), Alloc(id, size))
    case Some(i) =>
      var bucket := p.buckets[i];
      if bucket == [] then
        (p.(stats := p.stats.(misses := p.stats.misses + 1)), Alloc(id, BUCKET_SIZES[i]))
      else
        (p.(buckets := p.buckets[i := bucket[..|bucket| - 1]], stats := p.stats.(hits := p.stats.hits + 1)),
         bucket[|bucket| - 1])
  }

  function Recycle(p: State, a: Alloc): State {
    match RecycleIndex(a.capacity)
    case None => p.(stats := p.stats.(dropped := p.stats.dropped + 1))
    case Some(i) =>
      if |p.buckets[i]| < p.maxPerBucket then
        p.(buckets := p.buckets[i := p.buckets[i] + [a]], stats := p.stats.(recycled := p.stats.recycled + 1))
      else
        p.(stats := p.stats.(dropped := p.stats.dropped + 1))
  }

  /** `n` new allocations of one capacity, named from `id` on. */
  function NewAllocs(id: nat, capacity: nat, n: nat): (made: seq<Alloc>)
    ensures |made| == n
    ensures forall k :: 0 <= k < n ==> made[k] == Alloc(id + k, capacity)
  {
    seq(n, k requires 0 <= k < n => Alloc(id + k, capacity))
  }

  function ReserveCount(p: State, i: nat, count: nat): nat
    requires i < |BUCKET_SIZES|
  {
    Min(count, SaturatingSub(p.maxPerBucket, |p.buckets[i]|))
  }

  function Reserve(p: State, size: nat, count: nat, id: nat): State {
    match BucketIndex(size)
    case None => p
    case Some(i) =>
      var n := ReserveCount(p, i, count);
      p.(buckets := p.buckets[i := p.buckets[i] + NewAllocs(id, BUCKET_SIZES[i], n)],
         stats := p.stats.(recycled := p.stats.recycled + n))
  }

  /** Nominal bytes held by the first `n` buckets. */
  function MemoryUpTo(b: Buckets, n: nat): nat
    requires n <= |BUCKET_SIZES|
  {
    if n == 0 then 0 else MemoryUpTo(b, n - 1) + |b[n - 1]| * BUCKET_SIZES[n - 1]
  }

  function MemoryUsed(b: Buckets): nat {
    MemoryUpTo(b, |BUCKET_SIZES|)
  }

  function CountUpTo(b: Buckets, n: nat): nat
    requires n <= |BUCKET_SIZES|
  {
    if n == 0 then 0 else CountUpTo(b, n - 1) + |b[n - 1]|
  }

  function PooledCount(b: Buckets): nat {
    CountUpTo(b, |BUCKET_SIZES|)
  }

  function Truncate(b: Buckets, max: nat): Buckets {
    seq(|BUCKET_SIZES|, i requires 0 <= i < |BUCKET_SIZES| => if |b[i]| > max then b[i][..max] else b[i])
  }

  /** Buffers leave bucket `i` from its end while the pool is over budget. */
  function DropFrom(b: Buckets, i: nat, budget: nat): Buckets
    requires i < |BUCKET_SIZES|
    decreases |b[i]|
  {
    if MemoryUsed(b) > budget && b[i] != [] then DropFrom(b[i := b[i][..|b[i]| - 1]], i, budget) else b
  }

  /** Buckets below `n`, largest first. */
  function Shed(b: Buckets, n: nat, budget: nat): Buckets
    requires n <= |BUCKET_SIZES|
    decreases n
  {
    if n == 0 then b
    else
      var b' := DropFrom(b, n - 1, budget);
      if MemoryUsed(b') <= budget then b' else Shed(b', n - 1, budget)
  }

  function ShrinkToBytes(p: State, budget: nat): State {
    p.(buckets := Shed(p.buckets, |BUCKET_SIZES|, budget))
  }

  function ShrinkTo(p: State, max: nat): State {
    p.(buckets := Truncate(p.buckets, max))
  }

  function Clear(p: State): State {
    p.(buckets := Empty(p.maxPerBucket).buckets)
  }

  // ---- the pool itself ----

  class BufferPool {
    var buckets: Buckets
    const maxPerBucket: nat
    var stats: Stats

    function Read(): State
      reads this
    {
      State(buckets, maxPerBucket, stats)
    }

    constructor (maxPerBucket: nat)
      ensures Read() == Empty(maxPerBucket)
    {
      this.maxPerBucket := maxPerBucket;
      buckets, stats := Empty(maxPerBucket).buckets, Stats(0, 0, 0, 0);
    }

    method AcquireBuffer(size: nat, id: nat) returns (a: Alloc)
      modifies this
      ensures (Read(), a) == Acquire(old(Read()), size, id)
    {
      match BucketIndex(size) {
        case Some(i) =>
          if buckets[i] != [] {
            a := buckets[i][|buckets[i]| - 1];
            buckets := buckets[i := buckets[i][..|buckets[i]| - 1]];
            stats := stats.(hits := stats.hits + 1);
          } else {
            stats := stats.(misses := stats.misses + 1);
            a := Alloc(id, BUCKET_SIZES[i]);
          }
        case None =>
          stats := stats.(misses := stats.misses + 1);
          a := Alloc(id, size);
      }
    }

    method RecycleBuffer(a: Alloc)
      modifies this
      ensures Read() == Recycle(old(Read()), a)
    {
      match RecycleIndex(a.capacity) {
        case None =>
          stats := stats.(dropped := stats.dropped + 1);
        case Some(i) =>
          if |buckets[i]| < maxPerBucket {
            buckets := buckets[i := buckets[i] + [a]];
            stats := stats.(recycled := stats.recycled + 1);
          } else {
            stats := stats.(dropped := stats.dropped + 1);
          }
      }
    }

    method ReserveBuffers(size: nat, count: nat, id: nat)
      modifies this
      ensures Read() == Reserve(old(Read()), size, count, id)
    {
      match BucketIndex(size) {
        case None => return;
        case Some(i) =>
          var room := SaturatingSub(maxPerBucket, |buckets[i]|);
          var n := Min(count, room);
          ghost var made := NewAllocs(id, BUCKET_SIZES[i], n);
          for k := 0 to n
            invariant buckets[i] == old(buckets)[i] + made[..k]
            invariant forall j :: 0 <= j < |buckets| && j != i ==> buckets[j] == old(buckets)[j]
            invariant stats == old(stats).(recycled := old(stats).recycled + k)
          {
            buckets := buckets[i := buckets[i] + [Alloc(id + k, BUCKET_SIZES[i])]];
            stats := stats.(recycled := stats.recycled + 1);
            assert made[..k + 1] == made[..k] + [made[k]];
          }
          assert made[..n] == made;
          assert buckets == old(buckets)[i := old(buckets)[i] + made];
      }
    }

    method Memory() returns (bytes: nat)
      ensures bytes == MemoryUsed(buckets)
    {
      bytes := 0;
      for i := 0 to |BUCKET_SIZES|
        invariant bytes == MemoryUpTo(buckets, i)
      {
        bytes := bytes + |buckets[i]| * BUCKET_SIZES[i];
      }
    }

    method ClearAll()
      modifies this
      ensures Read() == Clear(old(Read()))
    {
      for i := 0 to |BUCKET_SIZES|
        invariant stats == old(stats)
        invariant forall j :: 0 <= j < i ==> buckets[j] == []
      {
        buckets := buckets[i := []];
      }
      assert buckets == Empty(maxPerBucket).buckets;
    }

    method ShrinkBuckets(max: nat)
      modifies this
      ensures Read() == ShrinkTo(old(Read()), max)
    {
      for i := 0 to |BUCKET_SIZES|
        invariant stats == old(stats)
        invariant forall j :: 0 <= j < i ==> buckets[j] == Truncate(old(buckets), max)[j]
        invariant forall j :: i <= j < |BUCKET_SIZES| ==> buckets[j] == old(buckets)[j]
      {
        if |buckets[i]| > max {
          buckets := buckets[i := buckets[i][..max]];
        }
      }
      assert buckets == Truncate(old(buckets), max);
    }

    method ShrinkToBudget(budget: nat)
      modifies this
      ensures Read() == ShrinkToBytes(old(Read()), budget)
    {
      var n: nat := |BUCKET_SIZES|;
      while n > 0
        invariant n <= |BUCKET_SIZES| && stats == old(stats)
        invariant Shed(buckets, n, budget) == Shed(old(buckets), |BUCKET_SIZES|, budget)
      {
        var used := Memory();
        while used > budget
          invariant stats == old(stats) && used == MemoryUsed(buckets)
          invariant Shed(old(buckets), |BUCKET_SIZES|, budget) == ShedRest(DropFrom(buckets, n - 1, budget), n - 1, budget)
          decreases |buckets[n - 1]|, used
        {
          if buckets[n - 1] == [] {
            break;
          }
          buckets := buckets[n - 1 := buckets[n - 1][..|buckets[n - 1]| - 1]];
          used := Memory();
        }
        if used <= budget {
          return;
        }
        n := n - 1;
      }
    }
  }

  /** What `Shed` does after a bucket is dealt with. */
  function ShedRest(b: Buckets, n: nat, budget: nat): Buckets
    requires n <= |BUCKET_SIZES|
  {
    if MemoryUsed(b) <= budget then b else Shed(b, n, budget)
  }

  // ---- any use of the pool ----

  datatype Op =
    | DoAcquire(size: nat, id: nat) | DoRecycle(a: Alloc) | DoReserve(size: nat, count: nat, id: nat)
    | DoClear | DoShrinkTo(max: nat) | DoShrinkToBytes(budget: nat)

  /** The pool with the numbers of acquires, of buffers handed back, of buffers reserved, and of buffers
      given up by `clear` and the shrinking calls. */
  datatype Ledger = Ledger(pool: State, acquires: nat, returned: nat, reserved: nat, shed: int)

  function Do(p: State, op: Op): State {
    match op
    case DoAcquire(size, id) => Acquire(p, size, id).0
    case DoRecycle(a) => Recycle(p, a)
    case DoReserve(size, count, id) => Reserve(p, size, count, id)
    case DoClear => Clear(p)
    case DoShrinkTo(max) => ShrinkTo(p, max)
    case DoShrinkToBytes(budget) => ShrinkToBytes(p, budget)
  }

  function Apply(l: Ledger, op: Op): Ledger {
    var p := Do(l.pool, op);
    match op
    case DoAcquire(_, _) => l.(pool := p, acquires := l.acquires + 1)
    case DoRecycle(_) => l.(pool := p, returned := l.returned + 1)
    case DoReserve(size, count, _) =>
      var n := if BucketIndex(size).Some? then ReserveCount(l.pool, BucketIndex(size).value, count) else 0;
      l.(pool := p, reserved := l.reserved + n)
    case _ => l.(pool := p, shed := l.shed + PooledCount(l.pool.buckets) - PooledCount(p.buckets))
  }

  function ApplyAll(maxPerBucket: nat, ops: seq<Op>): Ledger {
    if ops == [] then Ledger(Empty(maxPerBucket), 0, 0, 0, 0)
    else Apply(ApplyAll(maxPerBucket, ops[..|ops| - 1]), ops[|ops| - 1])
  }

  /** At most `max` buffers, each at least `size`, not twice as large, and not above the largest bucket. */
  predicate SoundBucket(bucket: seq<Alloc>, size: nat, max: nat) {
    && |bucket| <= max
    && forall k :: 0 <= k < |bucket| ==> size <= bucket[k].capacity < 2 * size && bucket[k].capacity <= MAX_BUCKET_SIZE
  }

  /** Every buffer is at least as large as its bucket says and not twice as large, none is above the
      largest bucket, and no bucket is over its cap. */
  predicate Sound(p: State) {
    forall i :: 0 <= i < |BUCKET_SIZES| ==> SoundBucket(p.buckets[i], BUCKET_SIZES[i], p.maxPerBucket)
  }

  /** Each bucket of `b` is what its namesake in `a` starts with. */
  predicate Prefixes(b: Buckets, a: Buckets) {
    forall i :: 0 <= i < |BUCKET_SIZES| ==> b[i] <= a[i]
  }

  lemma {:induction false} DropFromPrefixes(b: Buckets, i: nat, budget: nat)
    requires i < |BUCKET_SIZES|
    ensures Prefixes(DropFrom(b, i, budget), b)
    ensures forall j :: 0 <= j < |BUCKET_SIZES| && j != i ==> DropFrom(b, i, budget)[j] == b[j]
    ensures MemoryUsed(DropFrom(b, i, budget)) <= budget || DropFrom(b, i, budget)[i] == []
    decreases |b[i]|
  {
    if MemoryUsed(b) > budget && b[i] != [] {
      DropFromPrefixes(b[i := b[i][..|b[i]| - 1]], i, budget);
    }
  }

  lemma {:induction false} ShedPrefixes(b: Buckets, n: nat, budget: nat)
    requires n <= |BUCKET_SIZES|
    ensures Prefixes(Shed(b, n, budget), b)
    decreases n
  {
    if n > 0 {
      DropFromPrefixes(b, n - 1, budget);
      ShedPrefixes(DropFrom(b, n - 1, budget), n - 1, budget);
    }
  }

  lemma PrefixesSound(p: State, b: Buckets)
    requires Sound(p) && Prefixes(b, p.buckets)
    ensures Sound(p.(buckets := b))
  {
  }

  lemma AcquireKeepsSound(p: State, size: nat, id: nat)
    requires Sound(p)
    ensures Sound(Acquire(p, size, id).0)
  {
  }

  lemma RecycleKeepsSound(p: State, a: Alloc)
    requires Sound(p)
    ensures Sound(Recycle(p, a))
  {
  }

  lemma ReserveKeepsSound(p: State, size: nat, count: nat, id: nat)
    requires Sound(p)
    ensures Sound(Reserve(p, size, count, id))
  {
  }

  lemma OpKeepsSound(l: Ledger, op: Op)
    requires Sound(l.pool)
    ensures Sound(Apply(l, op).pool)
  {
    match op
    case DoAcquire(size, id) => AcquireKeepsSound(l.pool, size, id);
    case DoRecycle(a) => RecycleKeepsSound(l.pool, a);
    case DoReserve(size, count, id) => ReserveKeepsSound(l.pool, size, count, id);
    case DoClear => PrefixesSound(l.pool, Clear(l.pool).buckets);
    case DoShrinkTo(max) => PrefixesSound(l.pool, Truncate(l.pool.buckets, max));
    case DoShrinkToBytes(budget) =>
      ShedPrefixes(l.pool.buckets, |BUCKET_SIZES|, budget);
      PrefixesSound(l.pool, ShrinkToBytes(l.pool, budget).buckets);
  }

  /** Whatever is done with the pool, with buffers of whatever capacity, it stays sound. */
  lemma {:induction false} AlwaysSound(maxPerBucket: nat, ops: seq<Op>)
    ensures Sound(ApplyAll(maxPerBucket, ops).pool)
  {
    if ops != [] {
      AlwaysSound(maxPerBucket, ops[..|ops| - 1]);
      OpKeepsSound(ApplyAll(maxPerBucket, ops[..|ops| - 1]), ops[|ops| - 1]);
    }
  }

  /** So the buffer handed out is always large enough, new or reused. */
  lemma AcquiredIsLargeEnough(maxPerBucket: nat, ops: seq<Op>, size: nat, id: nat)
    ensures Acquire(ApplyAll(maxPerBucket, ops).pool, size, id).1.capacity >= size
  {
    AlwaysSound(maxPerBucket, ops);
  }

  /** True bytes held by the first `n` buckets. */
  function CapacityOf(bucket: seq<Alloc>): nat {
    if bucket == [] then 0 else bucket[0].capacity + CapacityOf(bucket[1..])
  }

  function RetainedUpTo(b: Buckets, n: nat): nat
    requires n <= |BUCKET_SIZES|
  {
    if n == 0 then 0 else RetainedUpTo(b, n - 1) + CapacityOf(b[n - 1])
  }

  lemma {:induction false} BucketRetains(bucket: seq<Alloc>, size: nat)
    requires forall k :: 0 <= k < |bucket| ==> size <= bucket[k].capacity < 2 * size
    ensures |bucket| * size <= CapacityOf(bucket)
    ensures bucket != [] ==> CapacityOf(bucket) < 2 * (|bucket| * size)
  {
    if bucket != [] {
      BucketRetains(bucket[1..], size);
      assert |bucket| * size == (|bucket| - 1) * size + size;
    }
  }

  lemma {:induction false} RetainedBounds(p: State, n: nat)
    requires Sound(p) && n <= |BUCKET_SIZES|
    ensures MemoryUpTo(p.buckets, n) <= RetainedUpTo(p.buckets, n)
    ensures if CountUpTo(p.buckets, n) == 0 then RetainedUpTo(p.buckets, n) == 0
            else RetainedUpTo(p.buckets, n) < 2 * MemoryUpTo(p.buckets, n)
    ensures CountUpTo(p.buckets, n) == 0 ==> MemoryUpTo(p.buckets, n) == 0
  {
    if n > 0 {
      RetainedBounds(p, n - 1);
      BucketRetains(p.buckets[n - 1], BUCKET_SIZES[n - 1]);
    }
  }

  /** `memory_used` never overstates what the pool really holds, and understates it by less than half. */
  lemma MemoryUsedIsClose(maxPerBucket: nat, ops: seq<Op>)
    ensures var b := ApplyAll(maxPerBucket, ops).pool.buckets;
            && MemoryUsed(b) <= RetainedUpTo(b, |BUCKET_SIZES|)
            && (PooledCount(b) > 0 ==> RetainedUpTo(b, |BUCKET_SIZES|) < 2 * MemoryUsed(b))
  {
    AlwaysSound(maxPerBucket, ops);
    RetainedBounds(ApplyAll(maxPerBucket, ops).pool, |BUCKET_SIZES|);
  }

  // ---- the ledger ----

  lemma {:induction false} CountUpdate(b: Buckets, i: nat, bucket: seq<Alloc>, n: nat)
    requires i < |BUCKET_SIZES| && n <= |BUCKET_SIZES|
    ensures CountUpTo(b[i := bucket], n) == CountUpTo(b, n) + (if i < n then |bucket| - |b[i]| else 0)
  {
    if n > 0 { CountUpdate(b, i, bucket, n - 1); }
  }

  lemma {:induction false} MemoryUpdate(b: Buckets, i: nat, bucket: seq<Alloc>, n: nat)
    requires i < |BUCKET_SIZES| && n <= |BUCKET_SIZES|
    ensures MemoryUpTo(b[i := bucket], n)
         == MemoryUpTo(b, n) + (if i < n then (|bucket| - |b[i]|) * BUCKET_SIZES[i] else 0)
  {
    if n > 0 { MemoryUpdate(b, i, bucket, n - 1); }
  }

  lemma {:induction false} CountPrefixes(b: Buckets, a: Buckets, n: nat)
    requires Prefixes(b, a) && n <= |BUCKET_SIZES|
    ensures CountUpTo(b, n) <= CountUpTo(a, n)
  {
    if n > 0 { CountPrefixes(b, a, n - 1); }
  }

  predicate Balanced(l: Ledger) {
    && l.pool.stats.recycled == l.pool.stats.hits + PooledCount(l.pool.buckets) + l.shed
    && l.pool.stats.recycled + l.pool.stats.dropped == l.returned + l.reserved
    && l.pool.stats.hits + l.pool.stats.misses == l.acquires
    && l.shed >= 0
  }

  lemma OpKeepsBalanced(l: Ledger, op: Op)
    requires Balanced(l)
    ensures Balanced(Apply(l, op))
  {
    var b, n := l.pool.buckets, |BUCKET_SIZES|;
    match op
    case DoAcquire(size, id) =>
      if BucketIndex(size).Some? && b[BucketIndex(size).value] != [] {
        var i := BucketIndex(size).value;
        CountUpdate(b, i, b[i][..|b[i]| - 1], n);
      }
    case DoRecycle(a) =>
      if RecycleIndex(a.capacity).Some? {
        var i := RecycleIndex(a.capacity).value;
        CountUpdate(b, i, b[i] + [a], n);
      }
    case DoReserve(size, count, id) =>
      if BucketIndex(size).Some? {
        var i := BucketIndex(size).value;
        CountUpdate(b, i, b[i] + NewAllocs(id, BUCKET_SIZES[i], ReserveCount(l.pool, i, count)), n);
      }
    case DoClear => CountPrefixes(Clear(l.pool).buckets, b, n);
    case DoShrinkTo(max) => CountPrefixes(Truncate(b, max), b, n);
    case DoShrinkToBytes(budget) =>
      ShedPrefixes(b, n, budget);
      CountPrefixes(Shed(b, n, budget), b, n);
  }

  /** Every buffer ever accepted was handed out again as a hit, is still pooled or was given up; every
      buffer handed back was accepted or dropped; and every acquire was a hit or a miss. */
  lemma {:induction false} EveryBufferAccounted(maxPerBucket: nat, ops: seq<Op>)
    ensures Balanced(ApplyAll(maxPerBucket, ops))
  {
    if ops == [] {
      assert CountUpTo(Empty(maxPerBucket).buckets, |BUCKET_SIZES|) == 0 by { EmptyCount(maxPerBucket, |BUCKET_SIZES|); }
    } else {
      EveryBufferAccounted(maxPerBucket, ops[..|ops| - 1]);
      OpKeepsBalanced(ApplyAll(maxPerBucket, ops[..|ops| - 1]), ops[|ops| - 1]);
    }
  }

  lemma {:induction false} EmptyCount(maxPerBucket: nat, n: nat)
    requires n <= |BUCKET_SIZES|
    ensures CountUpTo(Empty(maxPerBucket).buckets, n) == 0
  {
    if n > 0 { EmptyCount(maxPerBucket, n - 1); }
  }

  /** A buffer just taken back is the next one handed out for a size of its bucket, and the pool is then
      as it was but for the statistics. */
  lemma RecycleThenAcquire(p: State, a: Alloc, size: nat, id: nat)
    requires BucketIndex(size).Some? && BucketIndex(size) == RecycleIndex(a.capacity)
    requires |p.buckets[BucketIndex(size).value]| < p.maxPerBucket
    ensures var (q, b) := Acquire(Recycle(p, a), size, id);
            b == a && q.buckets == p.buckets && q.stats.hits == p.stats.hits + 1 && q.stats.misses == p.stats.misses
  {
  }

  /** The smallest bucket size that serves `size`. */
  predicate ServingSize(size: nat, capacity: nat) {
    capacity in BUCKET_SIZES && capacity >= size && forall b :: b in BUCKET_SIZES && b >= size ==> capacity <= b
  }

  /** What an acquire does, by whether the request is too large, its bucket empty, or neither: a new buffer
      of exactly the requested size, a new one of exactly the serving bucket's size, or the buffer that was
      last put there. Only the last is a hit. */
  lemma AcquireServes(p: State, size: nat, id: nat)
    ensures var (q, a) := Acquire(p, size, id);
            var miss := size > MAX_BUCKET_SIZE || p.buckets[BucketIndex(size).value] == [];
            && q.maxPerBucket == p.maxPerBucket
            && q.stats == (if miss then p.stats.(misses := p.stats.misses + 1) else p.stats.(hits := p.stats.hits + 1))
            && (miss ==> q.buckets == p.buckets && a.id == id)
            && (size > MAX_BUCKET_SIZE ==> a.capacity == size)
            && (miss && size <= MAX_BUCKET_SIZE ==> ServingSize(size, a.capacity))
            && (!miss ==>
                  var i := BucketIndex(size).value;
                  && p.buckets[i] == q.buckets[i] + [a]
                  && forall j :: 0 <= j < |BUCKET_SIZES| && j != i ==> q.buckets[j] == p.buckets[j])
  {
    if size <= MAX_BUCKET_SIZE {
      var i := BucketIndex(size).value;
      forall b | b in BUCKET_SIZES && b >= size ensures BUCKET_SIZES[i] <= b {
        var j :| 0 <= j < |BUCKET_SIZES| && BUCKET_SIZES[j] == b;
        Ascending(i, j);
      }
    }
  }

  lemma Ascending(i: nat, j: nat)
    requires i < |BUCKET_SIZES| && j < |BUCKET_SIZES|
    ensures i < j ==> BUCKET_SIZES[i] < BUCKET_SIZES[j]
    ensures i > j ==> BUCKET_SIZES[i] > BUCKET_SIZES[j]
  {
  }

  /** A capacity belongs to one bucket only. */
  lemma FiledIn(capacity: nat, i: nat)
    requires i < |BUCKET_SIZES| && capacity <= MAX_BUCKET_SIZE
    requires BUCKET_SIZES[i] <= capacity < 2 * BUCKET_SIZES[i]
    ensures RecycleIndex(capacity) == Some(i)
  {
    Ascending(0, i);
  }

  /** What a sound pool hands out for a poolable size, new or not, belongs to the bucket that serves the
      size, and if anything may be pooled there is room for it. */
  lemma AcquiredBelongs(p: State, size: nat, id: nat)
    requires Sound(p) && size <= MAX_BUCKET_SIZE
    ensures var (q, a) := Acquire(p, size, id);
            && RecycleIndex(a.capacity) == BucketIndex(size)
            && a.capacity >= size
            && (p.maxPerBucket > 0 ==> |q.buckets[BucketIndex(size).value]| < p.maxPerBucket)
  {
    var i := BucketIndex(size).value;
    assert SoundBucket(p.buckets[i], BUCKET_SIZES[i], p.maxPerBucket);
    Ascending(i, |BUCKET_SIZES| - 1);
    FiledIn(Acquire(p, size, id).1.capacity, i);
  }

  /** Whatever a sound pool hands out for a poolable size, new or not, comes back to the bucket it serves:
      recycled and asked for again it is a hit, exactly unless nothing may be pooled at all. */
  lemma AcquiredComesBack(p: State, size: nat, id: nat, id': nat)
    requires Sound(p) && size <= MAX_BUCKET_SIZE
    ensures var (q, a) := Acquire(p, size, id);
            var (r, b) := Acquire(Recycle(q, a), size, id');
            && (p.maxPerBucket > 0 ==>
                  b == a && r.buckets == q.buckets && r.stats.hits == q.stats.hits + 1 && r.stats.misses == q.stats.misses)
            && (p.maxPerBucket == 0 ==>
                  b.id == id' && r.buckets == q.buckets && r.stats.hits == q.stats.hits && r.stats.misses == q.stats.misses + 1)
  {
    var (q, a) := Acquire(p, size, id);
    AcquiredBelongs(p, size, id);
    if p.maxPerBucket > 0 {
      RecycleThenAcquire(q, a, size, id');
    }
  }

  /** A buffer above the largest bucket or below the smallest is dropped, and counted as such. */
  lemma UnfitIsDropped(p: State, a: Alloc)
    requires a.capacity > MAX_BUCKET_SIZE || a.capacity < 4096
    ensures Recycle(p, a) == p.(stats := p.stats.(dropped := p.stats.dropped + 1))
  {
  }

  // ---- dropping by count ----

  /** `clear` leaves nothing and `shrink_to` the first `max` of each bucket; neither touches the statistics. */
  lemma ShrinksByCount(p: State, max: nat)
    ensures var q := Clear(p);
            && PooledCount(q.buckets) == 0 && MemoryUsed(q.buckets) == 0
            && q.stats == p.stats && q.maxPerBucket == p.maxPerBucket
    ensures var q := ShrinkTo(p, max);
            && q.stats == p.stats && q.maxPerBucket == p.maxPerBucket
            && forall i :: 0 <= i < |BUCKET_SIZES| ==>
                 q.buckets[i] <= p.buckets[i] && |q.buckets[i]| == Min(|p.buckets[i]|, max)
  {
    EmptyCount(p.maxPerBucket, |BUCKET_SIZES|);
    EmptyUses(Clear(p).buckets, |BUCKET_SIZES|);
  }

  // ---- pre-warming ----

  /** New buffers of exactly the serving bucket's size go behind those already there; all else stays. */
  lemma ReserveAppends(p: State, size: nat, count: nat, id: nat) returns (made: seq<Alloc>)
    ensures size > MAX_BUCKET_SIZE ==> Reserve(p, size, count, id) == p && made == []
    ensures size <= MAX_BUCKET_SIZE ==>
              var i, q := BucketIndex(size).value, Reserve(p, size, count, id);
              && q.buckets == p.buckets[i := p.buckets[i] + made]
              && |made| == (if |p.buckets[i]| >= p.maxPerBucket then 0
                            else if |p.buckets[i]| + count <= p.maxPerBucket then count
                            else p.maxPerBucket - |p.buckets[i]|)
              && (forall k :: 0 <= k < |made| ==> made[k].id == id + k && ServingSize(size, made[k].capacity))
              && q.stats == p.stats.(recycled := p.stats.recycled + |made|) && q.maxPerBucket == p.maxPerBucket
  {
    made := [];
    if size <= MAX_BUCKET_SIZE {
      var i := BucketIndex(size).value;
      AcquireServes(p.(buckets := p.buckets[i := []]), size, id);
      made := NewAllocs(id, BUCKET_SIZES[i], ReserveCount(p, i, count));
    }
  }

  /** Acquires of the given sizes, one after the other. */
  function AcquireEach(p: State, sizes: seq<nat>, id: nat): State {
    if sizes == [] then p
    else Acquire(AcquireEach(p, sizes[..|sizes| - 1], id), sizes[|sizes| - 1], id + |sizes|).0
  }

  lemma {:induction false} AcquiresDrain(p: State, sizes: seq<nat>, id: nat, i: nat)
    requires i < |BUCKET_SIZES|
    requires forall k :: 0 <= k < |sizes| ==> BucketIndex(sizes[k]) == Some(i)
    ensures var q := AcquireEach(p, sizes, id);
            var served := Min(|sizes|, |p.buckets[i]|);
            && |q.buckets[i]| == |p.buckets[i]| - served
            && q.stats.hits == p.stats.hits + served
            && q.stats.misses == p.stats.misses + |sizes| - served
  {
    if sizes != [] {
      AcquiresDrain(p, sizes[..|sizes| - 1], id, i);
    }
  }

  lemma ReservedCount(p: State, size: nat, count: nat, id: nat, i: nat)
    requires Sound(p) && BucketIndex(size) == Some(i)
    ensures var q := Reserve(p, size, count, id);
            && |q.buckets[i]| == Min(|p.buckets[i]| + count, p.maxPerBucket)
            && q.stats.hits == p.stats.hits && q.stats.misses == p.stats.misses
  {
  }

  /** `reserve` promises that the first `count` acquires of that size are hits. As many are as the
      bucket's cap allows, so the promise is kept exactly when `count` does not exceed the cap. */
  lemma ReserveMakesHits(p: State, size: nat, count: nat, id: nat, sizes: seq<nat>)
    requires Sound(p) && size <= MAX_BUCKET_SIZE && |sizes| == count
    requires forall k :: 0 <= k < |sizes| ==> BucketIndex(sizes[k]) == BucketIndex(size)
    ensures var q := AcquireEach(Reserve(p, size, count, id), sizes, id + count);
            && q.stats.hits == p.stats.hits + Min(count, p.maxPerBucket)
            && (q.stats.misses == p.stats.misses <==> count <= p.maxPerBucket)
  {
    var i := BucketIndex(size).value;
    ReservedCount(p, size, count, id, i);
    AcquiresDrain(Reserve(p, size, count, id), sizes, id + count, i);
  }

  // ---- shrinking to a budget ----

  /** `b` came from `a` by dropping buffers from the ends of buckets, larger buckets first, down to bucket `k`. */
  predicate LargestFirst(a: Buckets, b: Buckets, k: nat)
    requires k < |BUCKET_SIZES|
  {
    && (forall j :: k < j < |BUCKET_SIZES| ==> b[j] == [])
    && (forall j :: 0 <= j < k ==> b[j] == a[j])
    && b[k] <= a[k]
  }

  /** ... and no further than needed: with the last buffer dropped put back it would be over budget. */
  predicate NoFurther(a: Buckets, b: Buckets, k: nat, budget: nat)
    requires k < |BUCKET_SIZES|
  {
    b != a ==> |b[k]| < |a[k]| && MemoryUsed(b) + BUCKET_SIZES[k] > budget
  }

  lemma {:induction false} DropFromNoFurther(b: Buckets, i: nat, budget: nat)
    requires i < |BUCKET_SIZES|
    ensures var c := DropFrom(b, i, budget);
            |c[i]| < |b[i]| ==> MemoryUsed(c) + BUCKET_SIZES[i] > budget
    ensures |DropFrom(b, i, budget)[i]| == |b[i]| ==> DropFrom(b, i, budget) == b
    decreases |b[i]|
  {
    if MemoryUsed(b) > budget && b[i] != [] {
      var shorter := b[i := b[i][..|b[i]| - 1]];
      DropFromNoFurther(shorter, i, budget);
      DropFromPrefixes(shorter, i, budget);
      MemoryUpdate(b, i, shorter[i], |BUCKET_SIZES|);
    }
  }

  lemma {:induction false} EmptyUses(b: Buckets, n: nat)
    requires n <= |BUCKET_SIZES| && forall j :: 0 <= j < n ==> b[j] == []
    ensures MemoryUpTo(b, n) == 0
  {
    if n > 0 { EmptyUses(b, n - 1); }
  }

  lemma {:induction false} ShedLargestFirst(b: Buckets, n: nat, budget: nat) returns (k: nat)
    requires 0 < n <= |BUCKET_SIZES| && (forall j :: n <= j < |BUCKET_SIZES| ==> b[j] == [])
    ensures k < n
    ensures MemoryUsed(Shed(b, n, budget)) <= budget
    ensures LargestFirst(b, Shed(b, n, budget), k) && NoFurther(b, Shed(b, n, budget), k, budget)
    decreases n
  {
    var c := DropFrom(b, n - 1, budget);
    DropFromPrefixes(b, n - 1, budget);
    DropFromNoFurther(b, n - 1, budget);
    k := n - 1;
    if MemoryUsed(c) > budget {
      if n == 1 {
        EmptyUses(c, |BUCKET_SIZES|);
      } else {
        var m := ShedLargestFirst(c, n - 1, budget);
        if Shed(c, n - 1, budget) != c { k := m; }
      }
    }
  }

  /** Shrinking ends within the budget, takes the largest buffers first and no more than needed. */
  lemma ShrinksLargestFirst(p: State, budget: nat) returns (k: nat)
    ensures k < |BUCKET_SIZES|
    ensures var b := ShrinkToBytes(p, budget).buckets;
            && MemoryUsed(b) <= budget
            && LargestFirst(p.buckets, b, k)
            && NoFurther(p.buckets, b, k, budget)
  {
    k := ShedLargestFirst(p.buckets, |BUCKET_SIZES|, budget);
  }

  lemma {:induction false} MoreUsesMore(x: Buckets, y: Buckets, k: nat, n: nat)
    requires k < |BUCKET_SIZES| && n <= |BUCKET_SIZES|
    requires (forall j :: 0 <= j < |BUCKET_SIZES| ==> |x[j]| <= |y[j]|) && |x[k]| < |y[k]|
    ensures MemoryUpTo(x, n) + (if k < n then BUCKET_SIZES[k] else 0) <= MemoryUpTo(y, n)
  {
    if n > 0 {
      MoreUsesMore(x, y, k, n - 1);
      var more := |y[n - 1]| - |x[n - 1]|;
      assert |y[n - 1]| * BUCKET_SIZES[n - 1] == |x[n - 1]| * BUCKET_SIZES[n - 1] + more * BUCKET_SIZES[n - 1];
      assert more > 0 ==> more * BUCKET_SIZES[n - 1] >= BUCKET_SIZES[n - 1];
    }
  }

  /** Of two such outcomes neither can have gone further than the other. */
  lemma NotFurther(a: Buckets, b: Buckets, k: nat, c: Buckets, m: nat, budget: nat)
    requires k < |BUCKET_SIZES| && m < |BUCKET_SIZES| && MemoryUsed(c) <= budget
    requires LargestFirst(a, b, k) && NoFurther(a, b, k, budget) && LargestFirst(a, c, m)
    ensures b == a || k > m || (k == m && |b[k]| >= |c[k]|)
    ensures b == a || c != a
  {
    if b != a && (c == a || k < m || (k == m && |b[k]| < |c[k]|)) {
      MoreUsesMore(b, c, k, |BUCKET_SIZES|);
    }
  }

  /** Nothing else does: those properties leave one outcome. */
  lemma ShrinkIsDetermined(p: State, budget: nat, b: Buckets, k: nat)
    requires k < |BUCKET_SIZES| && MemoryUsed(b) <= budget
    requires LargestFirst(p.buckets, b, k) && NoFurther(p.buckets, b, k, budget)
    ensures b == ShrinkToBytes(p, budget).buckets
  {
    var c := ShrinkToBytes(p, budget).buckets;
    var m := ShrinksLargestFirst(p, budget);
    NotFurther(p.buckets, b, k, c, m, budget);
    NotFurther(p.buckets, c, m, b, k, budget);
    if b != p.buckets {
      assert b[k] == p.buckets[k][..|b[k]|] && c[k] == p.buckets[k][..|c[k]|];
    }
  }
}
