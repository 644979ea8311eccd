/** Who owns which allocation: the pool, the handles drawn from it and the frames frozen out of them,
    over one memory in which every handle could reach every byte. */
module Ownership {
  import opened Media
  import Pool

  const MAX_BUFFER_SIZE: nat := 256 * 1024 * 1024

  /** A guard, a growable writer (from the pool or not), a frozen frame or a slice of one, and a buffer
      in the hands of an outside caller. */
  datatype Handle =
    | Guard(a: Pool.Alloc)
    | Writer(a: Pool.Alloc, pooled: bool)
    | Frame(id: nat, start: nat, end: nat)
    | Loose(a: Pool.Alloc)
  {
    function Id(): nat {
      if Frame? then id else a.id
    }
  }

  /** `mem` is the memory, by allocation; names below `nextAlloc` and `nextHandle` have been given out. */
  datatype World = World(pool: Pool.State, mem: map<nat, seq<byte>>, nextAlloc: nat,
                         handles: map<nat, Handle>, nextHandle: nat)

  datatype Event =
    | AcquireGuard(size: nat) | AcquireLoose(size: nat) | WithPool(size: nat)
    | WithCapacity(capacity: nat) | OutsideAlloc(capacity: nat)
    | DropGuard(h: nat) | IntoInner(h: nat) | RecycleLoose(h: nat)
    | Write(h: nat, data: seq<byte>) | Extend(h: nat, data: seq<byte>, room: nat)
    | Freeze(h: nat) | FreezeZeroCopy(h: nat) | Slice(h: nat, start: nat, end: nat) | Drop(h: nat)
    | PoolReserve(size: nat, count: nat) | PoolClear | PoolShrinkTo(max: nat) | PoolShrinkToBytes(budget: nat)

  function Begin(maxPerBucket: nat): World {
    World(Pool.Empty(maxPerBucket), map[], 0, map[], 0)
  }

  function Add(w: World, h: Handle): World {
    w.(handles := w.handles[w.nextHandle := h], nextHandle := w.nextHandle + 1)
  }

  function Remove(w: World, h: nat): World {
    w.(handles := w.handles - {h})
  }

  function Put(w: World, id: nat, data: seq<byte>): World {
    w.(mem := w.mem[id := data])
  }

  /** `acquire`: the buffer comes back empty. */
  function Take(w: World, size: nat): (World, Pool.Alloc) {
    var (pool, a) := Pool.Acquire(w.pool, size, w.nextAlloc);
    (Put(w, a.id, []).(pool := pool, nextAlloc := w.nextAlloc + 1), a)
  }

  /** A new allocation outside the pool, with its contents. */
  function Allocate(w: World, data: seq<byte>): World {
    Put(w, w.nextAlloc, data).(nextAlloc := w.nextAlloc + 1)
  }

  function Give(w: World, a: Pool.Alloc): World {
    w.(pool := Pool.Recycle(w.pool, a))
  }

  /** A writer that is through: its scratch goes back to the pool it came from, if any. */
  function Retire(w: World, h: Handle): World
    requires h.Writer?
  {
    if h.pooled then Give(Put(w, h.a.id, []), h.a) else w
  }

  /** One call. Calls on handles that do not exist or are of another kind cannot be written in the
      source and change nothing here. */
  function Next(w: World, e: Event): World {
    match e
    case AcquireGuard(size) => var (w', a) := Take(w, size); Add(w', Guard(a))
    case AcquireLoose(size) => var (w', a) := Take(w, size); Add(w', Loose(a))
    case WithPool(size) => var (w', a) := Take(w, size); Add(w', Writer(a, true))
    case WithCapacity(c) => Add(Allocate(w, []), Writer(Pool.Alloc(w.nextAlloc, c), false))
    case OutsideAlloc(c) => Add(Allocate(w, []), Loose(Pool.Alloc(w.nextAlloc, c)))
    case DropGuard(h) =>
      if h in w.handles && w.handles[h].Guard? then
        var a := w.handles[h].a;
        Give(Put(Remove(w, h), a.id, []), a)
      else w
    case IntoInner(h) =>
      if h in w.handles && w.handles[h].Guard? then
        Add(Remove(w, h), Loose(w.handles[h].a))
      else w
    case RecycleLoose(h) =>
      if h in w.handles && w.handles[h].Loose? then Give(Remove(w, h), w.handles[h].a) else w
    case Write(h, data) =>
      if h in w.handles && (w.handles[h].Guard? || w.handles[h].Loose?) && |data| <= w.handles[h].a.capacity then
        Put(w, w.handles[h].a.id, data)
      else w
    case Extend(h, data, room) =>
      if h in w.handles && !w.handles[h].Frame? && w.handles[h].a.id in w.mem then
        var a := w.handles[h].a;
        var grown := w.mem[a.id] + data;
        if |grown| <= a.capacity then Put(w, a.id, grown)
        else
          // the handle moves to a larger allocation
          var moved := Pool.Alloc(w.nextAlloc, Max(room, |grown|));
          var w' := Allocate(w, grown);
          w'.(handles := w.handles[h := w.handles[h].(a := moved)])
      else w
    case Freeze(h) =>
      if h in w.handles && w.handles[h].Writer? && w.handles[h].a.id in w.mem then
        var data := w.mem[w.handles[h].a.id];
        var retired := Retire(Remove(w, h), w.handles[h]);
        if |data| <= MAX_BUFFER_SIZE then Add(Allocate(retired, data), Frame(w.nextAlloc, 0, |data|)) else retired
      else w
    case FreezeZeroCopy(h) =>
      if h in w.handles && w.handles[h].Writer? && w.handles[h].a.id in w.mem then
        var id := w.handles[h].a.id;
        if |w.mem[id]| <= MAX_BUFFER_SIZE then Add(Remove(w, h), Frame(id, 0, |w.mem[id]|)) else Remove(w, h)
      else w
    case Slice(h, start, end) =>
      if h in w.handles && w.handles[h].Frame? && start <= end <= w.handles[h].end - w.handles[h].start then
        var f := w.handles[h];
        Add(w, Frame(f.id, f.start + start, f.start + end))
      else w
    case Drop(h) => if h in w.handles && !w.handles[h].Guard? then Remove(w, h) else w
    case PoolReserve(size, count) =>
      w.(pool := Pool.Reserve(w.pool, size, count, w.nextAlloc), nextAlloc := w.nextAlloc + count)
    case PoolClear => w.(pool := Pool.Clear(w.pool))
    case PoolShrinkTo(max) => w.(pool := Pool.ShrinkTo(w.pool, max))
    case PoolShrinkToBytes(budget) => w.(pool := Pool.ShrinkToBytes(w.pool, budget))
  }

  function After(w: World, events: seq<Event>): World
    decreases events
  {
    if events == [] then w else After(Next(w, events[0]), events[1..])
  }

  // ---- the names of pooled allocations ----

  /** How often allocation `x` is filed in a bucket, in the first `n` buckets, in the pool. */
  function Filed(bucket: seq<Pool.Alloc>, x: nat): nat {
    if bucket == [] then 0
    else Filed(bucket[..|bucket| - 1], x) + if bucket[|bucket| - 1].id == x then 1 else 0
  }

  function PooledUpTo(b: Pool.Buckets, n: nat, x: nat): nat
    requires n <= |Pool.BUCKET_SIZES|
  {
    if n == 0 then 0 else PooledUpTo(b, n - 1, x) + Filed(b[n - 1], x)
  }

  function Pooled(p: Pool.State, x: nat): nat {
    PooledUpTo(p.buckets, |Pool.BUCKET_SIZES|, x)
  }

  lemma {:induction false} PooledUpdate(b: Pool.Buckets, i: nat, bucket: seq<Pool.Alloc>, n: nat, x: nat)
    requires i < |Pool.BUCKET_SIZES| && n <= |Pool.BUCKET_SIZES|
    ensures PooledUpTo(b[i := bucket], n, x)
         == PooledUpTo(b, n, x) + if i < n then Filed(bucket, x) - Filed(b[i], x) else 0
  {
    if n > 0 { PooledUpdate(b, i, bucket, n - 1, x); }
  }

  lemma {:induction false} FiledConcat(a: seq<Pool.Alloc>, b: seq<Pool.Alloc>, x: nat)
    ensures Filed(a + b, x) == Filed(a, x) + Filed(b, x)
  {
    if b == [] {
      assert a + b == a;
    } else {
      assert (a + b)[..|a + b| - 1] == a + b[..|b| - 1];
      FiledConcat(a, b[..|b| - 1], x);
    }
  }

  lemma {:induction false} PooledPrefixes(b: Pool.Buckets, a: Pool.Buckets, n: nat, x: nat)
    requires Pool.Prefixes(b, a) && n <= |Pool.BUCKET_SIZES|
    ensures PooledUpTo(b, n, x) <= PooledUpTo(a, n, x)
  {
    if n > 0 {
      PooledPrefixes(b, a, n - 1, x);
      FiledConcat(b[n - 1], a[n - 1][|b[n - 1]|..], x);
      assert a[n - 1] == b[n - 1] + a[n - 1][|b[n - 1]|..];
    }
  }

  /** What an acquire hands out is the new allocation, or is taken off the pool. */
  lemma AcquirePools(p: Pool.State, size: nat, id: nat, x: nat)
    ensures var (q, a) := Pool.Acquire(p, size, id);
            || (a.id == id && Pooled(q, x) == Pooled(p, x))
            || (Pooled(p, a.id) > 0 && Pooled(q, x) == Pooled(p, x) - if x == a.id then 1 else 0)
  {
    var i := Pool.BucketIndex(size);
    if i.Some? && p.buckets[i.value] != [] {
      var bucket := p.buckets[i.value];
      var front := bucket[..|bucket| - 1];
      PooledUpdate(p.buckets, i.value, front, |Pool.BUCKET_SIZES|, x);
      PooledUpdate(p.buckets, i.value, front, |Pool.BUCKET_SIZES|, bucket[|bucket| - 1].id);
    }
  }

  lemma RecyclePools(p: Pool.State, a: Pool.Alloc, x: nat)
    ensures Pooled(Pool.Recycle(p, a), x) <= Pooled(p, x) + if x == a.id then 1 else 0
  {
    var i := Pool.RecycleIndex(a.capacity);
    if i.Some? {
      var bucket := p.buckets[i.value];
      PooledUpdate(p.buckets, i.value, bucket + [a], |Pool.BUCKET_SIZES|, x);
      FiledConcat(bucket, [a], x);
      assert [a][..0] == [];
    }
  }

  lemma {:induction false} NewFiled(id: nat, capacity: nat, n: nat, x: nat)
    ensures Filed(Pool.NewAllocs(id, capacity, n), x) == if id <= x < id + n then 1 else 0
  {
    if n > 0 {
      NewFiled(id, capacity, n - 1, x);
      assert Pool.NewAllocs(id, capacity, n)[..n - 1] == Pool.NewAllocs(id, capacity, n - 1);
    }
  }

  lemma ReservePools(p: Pool.State, size: nat, count: nat, id: nat, x: nat)
    ensures Pooled(Pool.Reserve(p, size, count, id), x) <= Pooled(p, x) + if id <= x < id + count then 1 else 0
  {
    var i := Pool.BucketIndex(size);
    if i.Some? {
      var made := Pool.NewAllocs(id, Pool.BUCKET_SIZES[i.value], Pool.ReserveCount(p, i.value, count));
      PooledUpdate(p.buckets, i.value, p.buckets[i.value] + made, |Pool.BUCKET_SIZES|, x);
      FiledConcat(p.buckets[i.value], made, x);
      NewFiled(id, Pool.BUCKET_SIZES[i.value], |made|, x);
    }
  }

  // ---- one owner each ----

  /** No allocation is pooled twice. */
  ghost predicate PoolOwns(p: Pool.State, nextAlloc: nat) {
    forall x: nat :: Pooled(p, x) <= 1 && (Pooled(p, x) > 0 ==> x < nextAlloc)
  }

  /** A handle's allocation exists and is not in the pool; a frame lies within it. */
  predicate HandleOwns(w: World, x: Handle) {
    && x.Id() < w.nextAlloc
    && x.Id() in w.mem
    && Pooled(w.pool, x.Id()) == 0
    && (x.Frame? ==> x.start <= x.end <= |w.mem[x.id]|)
  }

  /** Every allocation is the pool's, or one handle's, or one or more frames'. */
  ghost predicate OneOwner(w: World) {
    && PoolOwns(w.pool, w.nextAlloc)
    && (forall h :: h in w.handles ==> h < w.nextHandle && HandleOwns(w, w.handles[h]))
    && (forall g, h :: g in w.handles && h in w.handles && g != h && w.handles[g].Id() == w.handles[h].Id() ==>
          w.handles[g].Frame? && w.handles[h].Frame?)
  }

  /** What a handle can read. */
  function Contents(w: World, h: nat): seq<byte>
    requires OneOwner(w) && h in w.handles
  {
    var x := w.handles[h];
    if x.Frame? then w.mem[x.id][x.start..x.end] else w.mem[x.a.id]
  }

  /** Allocation `id` belongs to nobody. */
  ghost predicate Free(w: World, id: nat) {
    Pooled(w.pool, id) == 0 && forall h :: h in w.handles ==> w.handles[h].Id() != id
  }

  /** `v` differs from `w` in memory only where no handle of `w` looks. */
  ghost predicate SameForHandles(w: World, v: World) {
    && v.handles == w.handles && v.nextHandle == w.nextHandle
    && (forall h :: h in w.handles && w.handles[h].Id() in w.mem ==>
          w.handles[h].Id() in v.mem && v.mem[w.handles[h].Id()] == w.mem[w.handles[h].Id()])
  }

  /** The handles own what they did if memory and pool changed away from them. */
  lemma StillOwns(w: World, v: World)
    requires OneOwner(w) && (forall h :: h in w.handles ==> w.handles[h].Id() in w.mem) && SameForHandles(w, v)
    requires PoolOwns(v.pool, v.nextAlloc) && v.nextAlloc >= w.nextAlloc
    requires forall h :: h in w.handles ==> Pooled(v.pool, w.handles[h].Id()) == 0
    ensures OneOwner(v)
  {
  }

  lemma TakeOwns(w: World, size: nat)
    requires OneOwner(w)
    ensures var (v, a) := Take(w, size);
            && OneOwner(v) && Free(v, a.id) && SameForHandles(w, v)
            && a.id < v.nextAlloc && a.id in v.mem && v.mem[a.id] == []
  {
    var (pool, a) := Pool.Acquire(w.pool, size, w.nextAlloc);
    var v := Take(w, size).0;
    forall x: nat | true
      ensures Pooled(pool, x) <= Pooled(w.pool, x) && (a.id == w.nextAlloc || Pooled(w.pool, a.id) > 0)
      ensures x == a.id ==> Pooled(pool, x) == 0
    {
      AcquirePools(w.pool, size, w.nextAlloc, x);
      assert Pooled(w.pool, x) <= 1;
    }
    forall h | h in w.handles ensures w.handles[h].Id() != a.id {
      assert HandleOwns(w, w.handles[h]);
      assert Pooled(pool, a.id) == 0;
    }
    StillOwns(w, v);
  }

  lemma AddOwns(w: World, x: Handle)
    requires OneOwner(w) && HandleOwns(w, x)
    requires forall h :: h in w.handles && w.handles[h].Id() == x.Id() ==> x.Frame? && w.handles[h].Frame?
    ensures OneOwner(Add(w, x))
  {
  }

  lemma RemoveOwns(w: World, h: nat)
    requires OneOwner(w) && h in w.handles
    ensures OneOwner(Remove(w, h))
    ensures !w.handles[h].Frame? ==> Free(Remove(w, h), w.handles[h].Id())
  {
  }

  /** Writing where no frame looks. */
  lemma PutOwns(w: World, id: nat, data: seq<byte>)
    requires OneOwner(w) && forall h :: h in w.handles && w.handles[h].Frame? ==> w.handles[h].id != id
    ensures OneOwner(Put(w, id, data))
  {
  }

  lemma AllocateOwns(w: World, data: seq<byte>)
    requires OneOwner(w)
    ensures var v := Allocate(w, data);
            OneOwner(v) && Free(v, w.nextAlloc) && SameForHandles(w, v)
  {
  }

  lemma GiveOwns(w: World, a: Pool.Alloc)
    requires OneOwner(w) && Free(w, a.id) && a.id < w.nextAlloc
    ensures OneOwner(Give(w, a)) && SameForHandles(w, Give(w, a))
  {
    var v := Give(w, a);
    forall x: nat | true
      ensures Pooled(v.pool, x) <= Pooled(w.pool, x) + if x == a.id then 1 else 0
    {
      RecyclePools(w.pool, a, x);
    }
    forall h | h in w.handles ensures Pooled(v.pool, w.handles[h].Id()) == 0 && w.handles[h].Id() in w.mem {
      assert HandleOwns(w, w.handles[h]);
    }
    StillOwns(w, v);
  }

  lemma ShrinkOwns(w: World, p: Pool.State)
    requires OneOwner(w) && Pool.Prefixes(p.buckets, w.pool.buckets)
    ensures OneOwner(w.(pool := p))
  {
    var v := w.(pool := p);
    forall x: nat | true ensures Pooled(p, x) <= Pooled(w.pool, x) {
      PooledPrefixes(p.buckets, w.pool.buckets, |Pool.BUCKET_SIZES|, x);
    }
    forall h | h in w.handles ensures Pooled(p, w.handles[h].Id()) == 0 && w.handles[h].Id() in w.mem {
      assert HandleOwns(w, w.handles[h]);
      assert Pooled(p, w.handles[h].Id()) <= Pooled(w.pool, w.handles[h].Id());
    }
    StillOwns(w, v);
  }

  lemma ReserveOwns(w: World, size: nat, count: nat)
    requires OneOwner(w)
    ensures OneOwner(Next(w, PoolReserve(size, count)))
  {
    var v := Next(w, PoolReserve(size, count));
    forall x: nat | true
      ensures Pooled(v.pool, x) <= Pooled(w.pool, x) + if w.nextAlloc <= x < w.nextAlloc + count then 1 else 0
    {
      ReservePools(w.pool, size, count, w.nextAlloc, x);
    }
    forall h | h in w.handles ensures Pooled(v.pool, w.handles[h].Id()) == 0 && w.handles[h].Id() in w.mem {
      assert HandleOwns(w, w.handles[h]);
    }
    forall x: nat | true ensures Pooled(v.pool, x) <= 1 && (Pooled(v.pool, x) > 0 ==> x < v.nextAlloc) {
      assert Pooled(w.pool, x) <= 1;
    }
    StillOwns(w, v);
  }

  /** A writer or guard leaves and its allocation is emptied and given to the pool. */
  lemma ReturnOwns(w: World, h: nat)
    requires OneOwner(w) && h in w.handles && !w.handles[h].Frame?
    ensures var a := w.handles[h].a;
            && OneOwner(Give(Put(Remove(w, h), a.id, []), a))
            && OneOwner(Give(Remove(w, h), a))
            && SameForHandles(Remove(w, h), Give(Put(Remove(w, h), a.id, []), a))
  {
    var a := w.handles[h].a;
    assert HandleOwns(w, w.handles[h]);
    RemoveOwns(w, h);
    var u := Remove(w, h);
    PutOwns(u, a.id, []);
    GiveOwns(u, a);
    GiveOwns(Put(u, a.id, []), a);
    forall g | g in u.handles ensures u.handles[g].Id() in u.mem {
      assert HandleOwns(u, u.handles[g]);
    }
  }

  lemma FreezeOwns(w: World, h: nat)
    requires OneOwner(w) && h in w.handles && w.handles[h].Writer?
    ensures OneOwner(Next(w, Freeze(h)))
    ensures SameForHandles(Remove(w, h), Retire(Remove(w, h), w.handles[h]))
  {
    assert HandleOwns(w, w.handles[h]);
    var data := w.mem[w.handles[h].a.id];
    ReturnOwns(w, h);
    RemoveOwns(w, h);
    var retired := Retire(Remove(w, h), w.handles[h]);
    forall g | g in Remove(w, h).handles ensures w.handles[g].Id() in w.mem {
      assert HandleOwns(w, w.handles[g]);
    }
    AllocateOwns(retired, data);
    AddOwns(Allocate(retired, data), Frame(w.nextAlloc, 0, |data|));
  }

  lemma FreezeZeroCopyOwns(w: World, h: nat)
    requires OneOwner(w) && h in w.handles && w.handles[h].Writer?
    ensures OneOwner(Next(w, FreezeZeroCopy(h)))
  {
  }

  lemma ExtendOwns(w: World, h: nat, data: seq<byte>, room: nat)
    requires OneOwner(w) && h in w.handles && !w.handles[h].Frame?
    ensures OneOwner(Next(w, Extend(h, data, room)))
  {
    assert HandleOwns(w, w.handles[h]);
    var grown := w.mem[w.handles[h].a.id] + data;
    if |grown| <= w.handles[h].a.capacity {
      PutOwns(w, w.handles[h].a.id, grown);
    } else {
      AllocateOwns(w, grown);
      var u := Allocate(w, grown);
      var v := Next(w, Extend(h, data, room));
      forall g | g in v.handles ensures HandleOwns(v, v.handles[g]) {
        assert HandleOwns(u, u.handles[g]);
      }
    }
  }

  lemma SliceOwns(w: World, h: nat, start: nat, end: nat)
    requires OneOwner(w) && h in w.handles && w.handles[h].Frame? && start <= end <= w.handles[h].end - w.handles[h].start
    ensures OneOwner(Next(w, Slice(h, start, end)))
  {
  }

  lemma IntoInnerOwns(w: World, h: nat)
    requires OneOwner(w) && h in w.handles && w.handles[h].Guard?
    ensures OneOwner(Next(w, IntoInner(h)))
  {
  }

  lemma DrawOwns(w: World, size: nat)
    requires OneOwner(w)
    ensures OneOwner(Next(w, AcquireGuard(size)))
    ensures OneOwner(Next(w, AcquireLoose(size)))
    ensures OneOwner(Next(w, WithPool(size)))
  {
    TakeOwns(w, size);
    var (v, a) := Take(w, size);
    AddOwns(v, Guard(a));
    AddOwns(v, Loose(a));
    AddOwns(v, Writer(a, true));
  }

  lemma NewOwns(w: World, capacity: nat)
    requires OneOwner(w)
    ensures OneOwner(Next(w, WithCapacity(capacity)))
    ensures OneOwner(Next(w, OutsideAlloc(capacity)))
  {
    AllocateOwns(w, []);
    var v, a := Allocate(w, []), Pool.Alloc(w.nextAlloc, capacity);
    AddOwns(v, Writer(a, false));
    AddOwns(v, Loose(a));
  }

  lemma PoolCallOwns(w: World, e: Event)
    requires OneOwner(w) && (e.PoolReserve? || e.PoolClear? || e.PoolShrinkTo? || e.PoolShrinkToBytes?)
    ensures OneOwner(Next(w, e))
  {
    match e
    case PoolReserve(size, count) => ReserveOwns(w, size, count);
    case PoolClear => ShrinkOwns(w, Pool.Clear(w.pool));
    case PoolShrinkTo(max) => ShrinkOwns(w, Pool.ShrinkTo(w.pool, max));
    case PoolShrinkToBytes(budget) =>
      Pool.ShedPrefixes(w.pool.buckets, |Pool.BUCKET_SIZES|, budget);
      ShrinkOwns(w, Pool.ShrinkToBytes(w.pool, budget));
  }

  lemma HandleCallOwns(w: World, e: Event, h: nat)
    requires OneOwner(w) && Subject(e) == Some(h) && h in w.handles
    ensures OneOwner(Next(w, e))
  {
    match e
    case DropGuard(_) => if w.handles[h].Guard? { ReturnOwns(w, h); }
    case IntoInner(_) => if w.handles[h].Guard? { IntoInnerOwns(w, h); }
    case RecycleLoose(_) => if w.handles[h].Loose? { ReturnOwns(w, h); }
    case Write(_, data) => if !w.handles[h].Frame? { PutOwns(w, w.handles[h].a.id, data); }
    case Extend(_, data, room) => if !w.handles[h].Frame? { ExtendOwns(w, h, data, room); }
    case Freeze(_) => if w.handles[h].Writer? { FreezeOwns(w, h); }
    case FreezeZeroCopy(_) => if w.handles[h].Writer? { FreezeZeroCopyOwns(w, h); }
    case Drop(_) => RemoveOwns(w, h);
  }

  lemma StepKeepsOwnership(w: World, e: Event)
    requires OneOwner(w)
    ensures OneOwner(Next(w, e))
  {
    match e
    case AcquireGuard(size) => DrawOwns(w, size);
    case AcquireLoose(size) => DrawOwns(w, size);
    case WithPool(size) => DrawOwns(w, size);
    case WithCapacity(c) => NewOwns(w, c);
    case OutsideAlloc(c) => NewOwns(w, c);
    case Slice(h, start, end) =>
      if h in w.handles && w.handles[h].Frame? && start <= end <= w.handles[h].end - w.handles[h].start {
        SliceOwns(w, h, start, end);
      }
    case PoolReserve(_, _) => PoolCallOwns(w, e);
    case PoolClear => PoolCallOwns(w, e);
    case PoolShrinkTo(_) => PoolCallOwns(w, e);
    case PoolShrinkToBytes(_) => PoolCallOwns(w, e);
    case _ => if Subject(e).value in w.handles { HandleCallOwns(w, e, Subject(e).value); }
  }

  /** Under any interleaving of calls every allocation has one owner. */
  lemma {:induction false} AlwaysOneOwner(w: World, events: seq<Event>)
    requires OneOwner(w)
    ensures OneOwner(After(w, events))
    decreases events
  {
    if events != [] {
      StepKeepsOwnership(w, events[0]);
      AlwaysOneOwner(Next(w, events[0]), events[1..]);
    }
  }

  lemma BeginOwns(maxPerBucket: nat)
    ensures OneOwner(Begin(maxPerBucket))
  {
    forall x: nat | true ensures Pooled(Pool.Empty(maxPerBucket), x) == 0 {
      EmptyPool(maxPerBucket, |Pool.BUCKET_SIZES|, x);
    }
  }

  lemma {:induction false} EmptyPool(maxPerBucket: nat, n: nat, x: nat)
    requires n <= |Pool.BUCKET_SIZES|
    ensures PooledUpTo(Pool.Empty(maxPerBucket).buckets, n, x) == 0
  {
    if n > 0 { EmptyPool(maxPerBucket, n - 1, x); }
  }

  // ---- isolation ----

  /** The handle a call works on, if any. */
  function Subject(e: Event): Option<nat> {
    match e
    case DropGuard(h) => Some(h)
    case IntoInner(h) => Some(h)
    case RecycleLoose(h) => Some(h)
    case Write(h, _) => Some(h)
    case Extend(h, _, _) => Some(h)
    case Freeze(h) => Some(h)
    case FreezeZeroCopy(h) => Some(h)
    case Drop(h) => Some(h)
    case _ => None
  }

  /** Calls add handles under new numbers only and take away no handle but their own. */
  lemma StepHandles(w: World, e: Event, g: nat)
    ensures w.nextHandle <= Next(w, e).nextHandle
    ensures g !in w.handles && g < w.nextHandle ==> g !in Next(w, e).handles
    ensures g in w.handles && g < w.nextHandle && Some(g) != Subject(e) ==>
              g in Next(w, e).handles && Next(w, e).handles[g] == w.handles[g]
  {
  }

  lemma HandleCallIsolates(w: World, e: Event, h: nat, g: nat)
    requires OneOwner(w) && Subject(e) == Some(h) && h in w.handles && g in w.handles && g != h
    ensures var id := w.handles[g].Id(); id in w.mem && id in Next(w, e).mem && Next(w, e).mem[id] == w.mem[id]
  {
  }

  lemma OtherCallIsolates(w: World, e: Event, g: nat)
    requires OneOwner(w) && g in w.handles && (Subject(e) == None || Subject(e).value !in w.handles)
    ensures var id := w.handles[g].Id(); id in w.mem && id in Next(w, e).mem && Next(w, e).mem[id] == w.mem[id]
  {
    assert HandleOwns(w, w.handles[g]);
    match e
    case AcquireGuard(size) => TakeOwns(w, size);
    case AcquireLoose(size) => TakeOwns(w, size);
    case WithPool(size) => TakeOwns(w, size);
    case WithCapacity(_) => AllocateOwns(w, []);
    case OutsideAlloc(_) => AllocateOwns(w, []);
    case _ =>
  }

  /** A call changes what its own handle reads, and nobody else's. */
  lemma StepIsolates(w: World, e: Event, g: nat)
    requires OneOwner(w) && g in w.handles && Some(g) != Subject(e)
    ensures OneOwner(Next(w, e)) && g in Next(w, e).handles
    ensures Next(w, e).handles[g] == w.handles[g]
    ensures Contents(Next(w, e), g) == Contents(w, g)
  {
    StepKeepsOwnership(w, e);
    StepHandles(w, e, g);
    if Subject(e).Some? && Subject(e).value in w.handles {
      HandleCallIsolates(w, e, Subject(e).value, g);
    } else {
      OtherCallIsolates(w, e, g);
    }
  }

  /** Handles are never given out twice: one that is gone stays gone. */
  lemma {:induction false} GoneStaysGone(w: World, events: seq<Event>, g: nat)
    requires g < w.nextHandle && g !in w.handles
    ensures g !in After(w, events).handles
    decreases events
  {
    if events != [] {
      StepHandles(w, events[0], g);
      GoneStaysGone(Next(w, events[0]), events[1..], g);
    }
  }

  /** A frozen frame reads the same bytes as long as it lives, whatever is done with the pool, with the
      writer it came from and with all other handles. */
  lemma {:induction false} FrozenNeverChanges(w: World, events: seq<Event>, g: nat)
    requires OneOwner(w) && g in w.handles && w.handles[g].Frame?
    requires g in After(w, events).handles
    ensures OneOwner(After(w, events))
    ensures After(w, events).handles[g] == w.handles[g]
    ensures Contents(After(w, events), g) == Contents(w, g)
    decreases events
  {
    AlwaysOneOwner(w, events);
    if events != [] {
      var w' := Next(w, events[0]);
      StepKeepsOwnership(w, events[0]);
      if g !in w'.handles {
        StepHandles(w, events[0], g);
        GoneStaysGone(w', events[1..], g);
      } else {
        StepKeepsFrame(w, events[0], g);
        FrozenNeverChanges(w', events[1..], g);
      }
    }
  }

  lemma StepKeepsFrame(w: World, e: Event, g: nat)
    requires OneOwner(w) && g in w.handles && w.handles[g].Frame? && g in Next(w, e).handles
    ensures OneOwner(Next(w, e)) && Next(w, e).handles[g] == w.handles[g]
    ensures Contents(Next(w, e), g) == Contents(w, g)
  {
    StepKeepsOwnership(w, e);
    if Subject(e) != Some(g) {
      StepIsolates(w, e, g);
    }
  }

  /** Both ways to freeze hand over exactly what was written, unless it is over the size limit; the
      writer is gone either way. */
  lemma FreezeDelivers(w: World, h: nat, zeroCopy: bool)
    requires OneOwner(w) && h in w.handles && w.handles[h].Writer?
    ensures var e := if zeroCopy then FreezeZeroCopy(h) else Freeze(h);
            var w' := Next(w, e);
            && OneOwner(w') && h !in w'.handles
            && (w.nextHandle in w'.handles <==> |Contents(w, h)| <= MAX_BUFFER_SIZE)
            && (w.nextHandle in w'.handles ==> w'.handles[w.nextHandle].Frame? && Contents(w', w.nextHandle) == Contents(w, h))
  {
    var e := if zeroCopy then FreezeZeroCopy(h) else Freeze(h);
    StepKeepsOwnership(w, e);
  }

  /** Two buffers that may be written to, of one kind. */
  predicate SameKind(x: Handle, y: Handle) {
    !x.Frame? && !y.Frame? && y == x.(a := y.a)
  }

  /** `extend` puts its bytes behind those already there, in place as long as they fit; otherwise the handle
      moves to a new allocation that holds them all. Nothing else about the handle changes. */
  lemma ExtendAppends(w: World, h: nat, data: seq<byte>, room: nat)
    requires OneOwner(w) && h in w.handles && !w.handles[h].Frame?
    ensures var w' := Next(w, Extend(h, data, room));
            && OneOwner(w') && h in w'.handles
            && Contents(w', h) == Contents(w, h) + data
            && SameKind(w.handles[h], w'.handles[h])
            && (|Contents(w, h) + data| <= w.handles[h].a.capacity ==> w'.handles[h].a == w.handles[h].a)
            && (|Contents(w, h) + data| > w.handles[h].a.capacity ==>
                  w'.handles[h].a.id == w.nextAlloc && w'.handles[h].a.capacity >= |Contents(w', h)|)
  {
    StepKeepsOwnership(w, Extend(h, data, room));
  }

  /** The bytes a call extends handle `h` by. */
  function Extension(e: Event, h: nat): seq<byte> {
    if e.Extend? && e.h == h then e.data else []
  }

  /** ... and those the calls in `events` extend it by, in order. */
  function Written(events: seq<Event>, h: nat): seq<byte> {
    if events == [] then [] else Extension(events[0], h) + Written(events[1..], h)
  }

  /** A handle that is only extended collects what it is extended by, in order, whatever else happens
      between. */
  lemma {:induction false} WriterCollects(w: World, events: seq<Event>, h: nat)
    requires OneOwner(w) && h in w.handles && !w.handles[h].Frame?
    requires forall k :: 0 <= k < |events| && Subject(events[k]) == Some(h) ==> events[k].Extend?
    ensures var w' := After(w, events);
            && OneOwner(w') && h in w'.handles
            && SameKind(w.handles[h], w'.handles[h])
            && Contents(w', h) == Contents(w, h) + Written(events, h)
    decreases events
  {
    if events == [] {
      assert Contents(w, h) + [] == Contents(w, h);
    } else {
      WriterStep(w, events[0], h);
      WriterCollects(Next(w, events[0]), events[1..], h);
      assert Written(events, h) == Extension(events[0], h) + Written(events[1..], h);
      Associates(Contents(w, h), Extension(events[0], h), Written(events[1..], h));
    }
  }

  lemma Associates<T>(a: seq<T>, b: seq<T>, c: seq<T>)
    ensures a + (b + c) == a + b + c
  {
  }

  lemma WriterStep(w: World, e: Event, h: nat)
    requires OneOwner(w) && h in w.handles && !w.handles[h].Frame?
    requires Subject(e) == Some(h) ==> e.Extend?
    ensures var w' := Next(w, e);
            && OneOwner(w') && h in w'.handles
            && SameKind(w.handles[h], w'.handles[h])
            && Contents(w', h) == Contents(w, h) + Extension(e, h)
  {
    if Subject(e) == Some(h) {
      ExtendAppends(w, h, e.data, e.room);
    } else {
      StepIsolates(w, e, h);
      assert Contents(w, h) + [] == Contents(w, h);
    }
  }

  /** So a writer that was empty freezes into exactly what it was extended by. */
  lemma FrozenIsWritten(w: World, events: seq<Event>, h: nat, zeroCopy: bool)
    requires OneOwner(w) && h in w.handles && w.handles[h].Writer? && Contents(w, h) == []
    requires forall k :: 0 <= k < |events| && Subject(events[k]) == Some(h) ==> events[k].Extend?
    ensures var u := After(w, events);
            var w' := Next(u, if zeroCopy then FreezeZeroCopy(h) else Freeze(h));
            && OneOwner(w') && h !in w'.handles
            && (u.nextHandle in w'.handles <==> |Written(events, h)| <= MAX_BUFFER_SIZE)
            && (u.nextHandle in w'.handles ==>
                  w'.handles[u.nextHandle].Frame? && Contents(w', u.nextHandle) == Written(events, h))
  {
    WriterCollects(w, events, h);
    FreezeDelivers(After(w, events), h, zeroCopy);
  }

  /** Calls that take a handle from the caller leave it with nobody. */
  lemma TakenIsGone(w: World, h: nat)
    requires OneOwner(w) && h in w.handles
    ensures w.handles[h].Guard? ==> h !in Next(w, DropGuard(h)).handles && h !in Next(w, IntoInner(h)).handles
    ensures w.handles[h].Loose? ==> h !in Next(w, RecycleLoose(h)).handles
    ensures w.handles[h].Writer? ==> h !in Next(w, Freeze(h)).handles && h !in Next(w, FreezeZeroCopy(h)).handles
    ensures !w.handles[h].Guard? ==> h !in Next(w, Drop(h)).handles
  {
    assert HandleOwns(w, w.handles[h]);
  }

  /** A slice of a frame reads that part of what the frame reads, and a slice of a slice likewise; outside
      the frame there is none. */
  lemma SliceReads(w: World, h: nat, start: nat, end: nat)
    requires OneOwner(w) && h in w.handles && w.handles[h].Frame?
    ensures !(start <= end <= |Contents(w, h)|) ==> Next(w, Slice(h, start, end)) == w
    ensures start <= end <= |Contents(w, h)| ==>
            var w' := Next(w, Slice(h, start, end));
            && OneOwner(w') && w.nextHandle in w'.handles && w'.handles[w.nextHandle].Frame?
            && w'.handles[w.nextHandle].id == w.handles[h].id
            && Contents(w', w.nextHandle) == Contents(w, h)[start..end]
            && w'.mem == w.mem && w'.pool == w.pool
  {
    StepKeepsOwnership(w, Slice(h, start, end));
  }

  /** Whoever holds a buffer reads what was last written to it, as far as it fits. */
  lemma WriteReplaces(w: World, h: nat, data: seq<byte>)
    requires OneOwner(w) && h in w.handles && (w.handles[h].Guard? || w.handles[h].Loose?)
    ensures var w' := Next(w, Write(h, data));
            && OneOwner(w') && w'.handles == w.handles && w'.pool == w.pool
            && Contents(w', h) == if |data| <= w.handles[h].a.capacity then data else Contents(w, h)
  {
    StepKeepsOwnership(w, Write(h, data));
  }

  /** Each way to draw a buffer adds one handle of its kind with what the pool hands out, empty; a writer
      made without a pool gets a new allocation of the capacity asked for. */
  lemma DrawnIsEmpty(w: World, size: nat, e: Event)
    requires OneOwner(w)
    requires e == AcquireGuard(size) || e == AcquireLoose(size) || e == WithPool(size) || e == WithCapacity(size)
    ensures var a := Pool.Acquire(w.pool, size, w.nextAlloc).1;
            var w' := Next(w, e);
            && OneOwner(w') && w.nextHandle in w'.handles && w'.nextHandle == w.nextHandle + 1
            && Contents(w', w.nextHandle) == []
            && w'.handles[w.nextHandle]
               == (match e
                   case AcquireGuard(_) => Guard(a)
                   case AcquireLoose(_) => Loose(a)
                   case WithPool(_) => Writer(a, true)
                   case WithCapacity(_) => Writer(Pool.Alloc(w.nextAlloc, size), false))
  {
    StepKeepsOwnership(w, e);
  }

  // ---- the pool beneath ----

  /** The calls on the pool that a call makes: draws acquire, and what comes back is recycled when a guard is
      dropped, when a pooled writer is frozen by copying, and when an outside caller hands a buffer in. */
  function PoolCalls(w: World, e: Event): seq<Pool.Op> {
    match e
    case AcquireGuard(size) => [Pool.DoAcquire(size, w.nextAlloc)]
    case AcquireLoose(size) => [Pool.DoAcquire(size, w.nextAlloc)]
    case WithPool(size) => [Pool.DoAcquire(size, w.nextAlloc)]
    case DropGuard(h) => if h in w.handles && w.handles[h].Guard? then [Pool.DoRecycle(w.handles[h].a)] else []
    case RecycleLoose(h) => if h in w.handles && w.handles[h].Loose? then [Pool.DoRecycle(w.handles[h].a)] else []
    case Freeze(h) =>
      if h in w.handles && w.handles[h].Writer? && w.handles[h].pooled then [Pool.DoRecycle(w.handles[h].a)] else []
    case PoolReserve(size, count) => [Pool.DoReserve(size, count, w.nextAlloc)]
    case PoolClear => [Pool.DoClear]
    case PoolShrinkTo(max) => [Pool.DoShrinkTo(max)]
    case PoolShrinkToBytes(budget) => [Pool.DoShrinkToBytes(budget)]
    case _ => []
  }

  function AllPoolCalls(w: World, events: seq<Event>): seq<Pool.Op>
    decreases events
  {
    if events == [] then [] else PoolCalls(w, events[0]) + AllPoolCalls(Next(w, events[0]), events[1..])
  }

  lemma StepCallsPool(w: World, e: Event)
    requires OneOwner(w)
    ensures var calls := PoolCalls(w, e);
            && |calls| <= 1
            && Next(w, e).pool == if calls == [] then w.pool else Pool.Do(w.pool, calls[0])
  {
    if e.Freeze? && e.h in w.handles { assert HandleOwns(w, w.handles[e.h]); }
  }

  lemma OneMoreCall(maxPerBucket: nat, ops: seq<Pool.Op>, calls: seq<Pool.Op>)
    requires |calls| <= 1
    ensures var p := Pool.ApplyAll(maxPerBucket, ops).pool;
            Pool.ApplyAll(maxPerBucket, ops + calls).pool == if calls == [] then p else Pool.Do(p, calls[0])
  {
    if calls == [] {
      assert ops + calls == ops;
    } else {
      assert (ops + calls)[..|ops|] == ops && (ops + calls)[|ops|] == calls[0];
    }
  }

  lemma {:induction false} RunCallsPool(w: World, events: seq<Event>, maxPerBucket: nat, ops: seq<Pool.Op>)
    requires OneOwner(w) && w.pool == Pool.ApplyAll(maxPerBucket, ops).pool
    ensures After(w, events).pool == Pool.ApplyAll(maxPerBucket, ops + AllPoolCalls(w, events)).pool
    decreases events
  {
    if events == [] {
      assert ops + [] == ops;
    } else {
      StepCallsPool(w, events[0]);
      OneMoreCall(maxPerBucket, ops, PoolCalls(w, events[0]));
      StepKeepsOwnership(w, events[0]);
      RunCallsPool(Next(w, events[0]), events[1..], maxPerBucket, ops + PoolCalls(w, events[0]));
      CallsStep(ops, w, events);
    }
  }

  lemma CallsStep(ops: seq<Pool.Op>, w: World, events: seq<Event>)
    requires events != []
    ensures ops + AllPoolCalls(w, events)
         == ops + PoolCalls(w, events[0]) + AllPoolCalls(Next(w, events[0]), events[1..])
  {
  }

  /** The pool beneath the handles is where these calls, in their order, take it, and so it is sound. */
  lemma PoolFollowsCalls(maxPerBucket: nat, events: seq<Event>)
    ensures var pool := After(Begin(maxPerBucket), events).pool;
            && pool == Pool.ApplyAll(maxPerBucket, AllPoolCalls(Begin(maxPerBucket), events)).pool
            && Pool.Sound(pool)
  {
    var w := Begin(maxPerBucket);
    BeginOwns(maxPerBucket);
    RunCallsPool(w, events, maxPerBucket, []);
    assert [] + AllPoolCalls(w, events) == AllPoolCalls(w, events);
    Pool.AlwaysSound(maxPerBucket, AllPoolCalls(w, events));
  }

  /** A buffer drawn from the pool is empty and shared with nobody. */
  lemma AcquiredIsFresh(w: World, size: nat)
    requires OneOwner(w)
    ensures var w' := Next(w, AcquireGuard(size));
            && OneOwner(w') && w.nextHandle in w'.handles
            && Contents(w', w.nextHandle) == []
            && Free(Remove(w', w.nextHandle), w'.handles[w.nextHandle].Id())
  {
    TakeOwns(w, size);
    StepKeepsOwnership(w, AcquireGuard(size));
    RemoveOwns(Next(w, AcquireGuard(size)), w.nextHandle);
  }

  /** After a copying freeze the scratch serves the next writer of its bucket, empty again, while the
      frozen frame keeps reading what had been written. */
  lemma ScratchIsReused(w: World, h: nat, size: nat)
    requires OneOwner(w) && h in w.handles && w.handles[h].Writer? && w.handles[h].pooled
    requires |Contents(w, h)| <= MAX_BUFFER_SIZE
    requires Pool.BucketIndex(size).Some? && Pool.BucketIndex(size) == Pool.RecycleIndex(w.handles[h].a.capacity)
    requires |w.pool.buckets[Pool.BucketIndex(size).value]| < w.pool.maxPerBucket
    ensures var w1 := Next(w, Freeze(h));
            var w2 := Next(w1, WithPool(size));
            && OneOwner(w2) && w.nextHandle in w2.handles && w1.nextHandle in w2.handles
            && w2.handles[w1.nextHandle] == Writer(w.handles[h].a, true)
            && Contents(w2, w1.nextHandle) == []
            && Contents(w2, w.nextHandle) == Contents(w, h)
            && w2.pool.buckets == w.pool.buckets
            && w2.pool.stats.hits == w.pool.stats.hits + 1
  {
    var w1 := Next(w, Freeze(h));
    FreezeDelivers(w, h, false);
    FreezeRecycles(w, h);
    StepIsolates(w1, WithPool(size), w.nextHandle);
    WithPoolTakes(w1, size);
    Pool.RecycleThenAcquire(w.pool, w.handles[h].a, size, w1.nextAlloc);
  }

  lemma FreezeRecycles(w: World, h: nat)
    requires OneOwner(w) && h in w.handles && w.handles[h].Writer? && w.handles[h].pooled
    requires |Contents(w, h)| <= MAX_BUFFER_SIZE
    ensures Next(w, Freeze(h)).pool == Pool.Recycle(w.pool, w.handles[h].a)
    ensures Next(w, Freeze(h)).nextHandle == w.nextHandle + 1
  {
  }

  lemma WithPoolTakes(w: World, size: nat)
    requires OneOwner(w)
    ensures var (pool, a) := Pool.Acquire(w.pool, size, w.nextAlloc);
            var v := Next(w, WithPool(size));
            && OneOwner(v) && w.nextHandle in v.handles
            && v.pool == pool && v.handles[w.nextHandle] == Writer(a, true) && Contents(v, w.nextHandle) == []
  {
    StepKeepsOwnership(w, WithPool(size));
  }

  /** A dropped guard's buffer serves the next guard of its bucket, empty again. */
  lemma GuardIsReused(w: World, h: nat, size: nat)
    requires OneOwner(w) && h in w.handles && w.handles[h].Guard?
    requires Pool.BucketIndex(size).Some? && Pool.BucketIndex(size) == Pool.RecycleIndex(w.handles[h].a.capacity)
    requires |w.pool.buckets[Pool.BucketIndex(size).value]| < w.pool.maxPerBucket
    ensures var w2 := Next(Next(w, DropGuard(h)), AcquireGuard(size));
            && OneOwner(w2) && w.nextHandle in w2.handles
            && w2.handles[w.nextHandle] == Guard(w.handles[h].a)
            && Contents(w2, w.nextHandle) == []
            && w2.pool.buckets == w.pool.buckets
  {
    var w1 := Next(w, DropGuard(h));
    StepKeepsOwnership(w, DropGuard(h));
    StepKeepsOwnership(w1, AcquireGuard(size));
    Pool.RecycleThenAcquire(w.pool, w.handles[h].a, size, w1.nextAlloc);
  }

  /** A buffer an outside caller hands in serves the next guard of its bucket, empty again. */
  lemma LooseIsReused(w: World, h: nat, size: nat)
    requires OneOwner(w) && h in w.handles && w.handles[h].Loose?
    requires Pool.BucketIndex(size).Some? && Pool.BucketIndex(size) == Pool.RecycleIndex(w.handles[h].a.capacity)
    requires |w.pool.buckets[Pool.BucketIndex(size).value]| < w.pool.maxPerBucket
    ensures var w2 := Next(Next(w, RecycleLoose(h)), AcquireGuard(size));
            && OneOwner(w2) && w.nextHandle in w2.handles
            && w2.handles[w.nextHandle] == Guard(w.handles[h].a)
            && Contents(w2, w.nextHandle) == []
            && w2.pool.buckets == w.pool.buckets
  {
    var w1 := Next(w, RecycleLoose(h));
    StepKeepsOwnership(w, RecycleLoose(h));
    StepKeepsOwnership(w1, AcquireGuard(size));
    Pool.RecycleThenAcquire(w.pool, w.handles[h].a, size, w1.nextAlloc);
  }

  /** The steady state of a pipeline: draw a writer, fill it up to the size asked for, freeze it by copying,
      draw again. The second writer has the first one's allocation, a hit, whatever the pool held before. */
  lemma ScratchComesBack(w: World, size: nat, data: seq<byte>, room: nat, w1: World, w2: World, w3: World, w4: World)
    requires OneOwner(w) && Pool.Sound(w.pool) && w.pool.maxPerBucket > 0
    requires |data| <= size <= Pool.MAX_BUCKET_SIZE
    requires w1 == Next(w, WithPool(size))
    requires w2 == Next(w1, Extend(w.nextHandle, data, room))
    requires w3 == Next(w2, Freeze(w.nextHandle))
    requires w4 == Next(w3, WithPool(size))
    ensures var h, frame, again := w.nextHandle, w2.nextHandle, w3.nextHandle;
            && h in w1.handles && OneOwner(w4) && frame in w4.handles && again in w4.handles
            && w4.handles[again] == w1.handles[h]
            && Contents(w4, again) == []
            && Contents(w4, frame) == data
            && w4.pool.stats.hits == w1.pool.stats.hits + 1
  {
    var h := w.nextHandle;
    Pool.AcquiredBelongs(w.pool, size, w.nextAlloc);
    DrawnIsEmpty(w, size, WithPool(size));
    ExtendAppends(w1, h, data, room);
    ExtendKeepsPool(w1, h, data, room);
    assert [] + data == data;
    ScratchIsReused(w2, h, size);
  }

  lemma ExtendKeepsPool(w: World, h: nat, data: seq<byte>, room: nat)
    ensures Next(w, Extend(h, data, room)).pool == w.pool
  {
  }

  /** Likewise a guard that is drawn, written and dropped. */
  lemma GuardComesBack(w: World, size: nat, data: seq<byte>, w1: World, w2: World, w3: World, w4: World)
    requires OneOwner(w) && Pool.Sound(w.pool) && w.pool.maxPerBucket > 0 && size <= Pool.MAX_BUCKET_SIZE
    requires w1 == Next(w, AcquireGuard(size))
    requires w2 == Next(w1, Write(w.nextHandle, data))
    requires w3 == Next(w2, DropGuard(w.nextHandle))
    requires w4 == Next(w3, AcquireGuard(size))
    ensures var h, again := w.nextHandle, w2.nextHandle;
            && h in w1.handles && OneOwner(w4) && again in w4.handles
            && w4.handles[again] == w1.handles[h]
            && Contents(w4, again) == []
            && w4.pool.buckets == w1.pool.buckets
  {
    Pool.AcquiredBelongs(w.pool, size, w.nextAlloc);
    DrawnIsEmpty(w, size, AcquireGuard(size));
    WriteReplaces(w1, w.nextHandle, data);
    GuardIsReused(w2, w.nextHandle, size);
  }

  /** A zero-copy freeze and taking a buffer out of its guard keep the allocation from the pool, with the
      bytes where they were. */
  lemma NothingComesBack(w: World, h: nat)
    requires OneOwner(w) && h in w.handles
    ensures w.handles[h].Writer? ==>
              Next(w, FreezeZeroCopy(h)).pool == w.pool && Next(w, FreezeZeroCopy(h)).mem == w.mem
    ensures w.handles[h].Guard? ==>
              var v := Next(w, IntoInner(h));
              v.pool == w.pool && v.mem == w.mem && h !in v.handles
              && w.nextHandle in v.handles && v.handles[w.nextHandle] == Loose(w.handles[h].a)
  {
  }
}
