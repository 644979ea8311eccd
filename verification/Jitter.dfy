/** The presentation-timestamp reorder buffer. */
module Jitter {
  import opened Media

  /** A buffered frame and its place in the order: by key, then by arrival. */
  datatype Keyed = Keyed(pts: i64, arrival: nat, frame: MediaBuffer)

  predicate Before(a: Keyed, b: Keyed) {
    a.pts < b.pts || (a.pts == b.pts && a.arrival < b.arrival)
  }

  datatype JitterPush = Buffered | Ready | TooLate | Full

  /** The priority queue, least first. */
  function Insert(heap: seq<Keyed>, k: Keyed): (r: seq<Keyed>)
    ensures |r| == |heap| + 1
  {
    if heap == [] || Before(k, heap[0]) then [k] + heap else [heap[0]] + Insert(heap[1..], k)
  }

  datatype Buffer = Buffer(target: nat, capacity: nat, heap: seq<Keyed>, arrivals: nat, last: Option<i64>,
                           droppedLate: nat, primed: bool) {

    /** The key of an arriving frame; without a timestamp, one more than the last released key. */
    function KeyOf(frame: MediaBuffer): i64 {
      if frame.HasPts() then frame.pts
      else Wrap64((if last.Some? then last.value else I64_MIN) + 1)
    }

    function Push(frame: MediaBuffer): (Buffer, JitterPush) {
      var key := KeyOf(frame);
      if last.Some? && key <= last.value then
        (this.(droppedLate := droppedLate + 1), TooLate)
      else if |heap| >= capacity then
        (this, Full)
      else
        var pushed := this.(arrivals := arrivals + 1, heap := Insert(heap, Keyed(key, arrivals + 1, frame)));
        if |pushed.heap| >= target then (pushed.(primed := true), Ready) else (pushed, JitterPush.Buffered)
    }

    function Pop(): (Buffer, Option<MediaBuffer>) {
      if (!primed && |heap| < capacity) || heap == [] then (this, None)
      else (this.(heap := heap[1..], last := Some(heap[0].pts)), Some(heap[0].frame))
    }

    function Flush(): (Buffer, seq<MediaBuffer>) {
      (this.(heap := [], last := if heap == [] then last else Some(heap[|heap| - 1].pts)), Frames(heap))
    }
  }

  function Frames(ks: seq<Keyed>): (fs: seq<MediaBuffer>)
    ensures |fs| == |ks|
    ensures forall i :: 0 <= i < |ks| ==> fs[i] == ks[i].frame
  {
    seq(|ks|, i requires 0 <= i < |ks| => ks[i].frame)
  }

  function New(target: nat, capacity: nat): Buffer {
    Buffer(Max(target, 1), Max(capacity, Max(target, 1)), [], 0, None, 0, false)
  }

  class JitterBuffer {
    const targetDepth: nat
    const capacity: nat
    var heap: seq<Keyed>
    var seqNo: nat
    var lastReleasedPts: Option<i64>
    var droppedLate: nat
    var primed: bool

    function State(): Buffer
      reads this
    {
      Buffer(targetDepth, capacity, heap, seqNo, lastReleasedPts, droppedLate, primed)
    }

    constructor (targetDepth: nat, capacity: nat)
      ensures State() == New(targetDepth, capacity)
    {
      var depth := Max(targetDepth, 1);
      this.targetDepth := depth;
      this.capacity := Max(capacity, depth);
      heap, seqNo, lastReleasedPts, droppedLate, primed := [], 0, None, 0, false;
    }

    method Push(frame: MediaBuffer) returns (r: JitterPush)
      modifies this
      ensures (State(), r) == old(State()).Push(frame)
    {
      var pts: i64;
      if frame.HasPts() {
        pts := frame.pts;
      } else {
        pts := Wrap64((match lastReleasedPts case Some(l) => l case None => I64_MIN) + 1);
      }
      if lastReleasedPts.Some? && pts <= lastReleasedPts.value {
        droppedLate := droppedLate + 1;
        return TooLate;
      }
      if |heap| >= capacity {
        return Full;
      }
      seqNo := seqNo + 1;
      heap := Insert(heap, Keyed(pts, seqNo, frame));
      if |heap| >= targetDepth {
        primed := true;
        return Ready;
      }
      return JitterPush.Buffered;
    }

    method Pop() returns (r: Option<MediaBuffer>)
      modifies this
      ensures (State(), r) == old(State()).Pop()
    {
      if !primed && |heap| < capacity {
        return None;
      }
      if heap == [] {
        return None;
      }
      r := Some(heap[0].frame);
      lastReleasedPts := Some(heap[0].pts);
      heap := heap[1..];
    }

    method Flush() returns (out: seq<MediaBuffer>)
      modifies this
      ensures (State(), out) == old(State()).Flush()
    {
      out := [];
      while heap != []
        invariant |heap| <= |old(heap)| && heap == old(heap)[|old(heap)| - |heap|..]
        invariant out == Frames(old(heap)[..|old(heap)| - |heap|])
        invariant lastReleasedPts
               == if |heap| == |old(heap)| then old(lastReleasedPts) else Some(old(heap)[|old(heap)| - |heap| - 1].pts)
        invariant seqNo == old(seqNo) && droppedLate == old(droppedLate) && primed == old(primed)
        decreases |heap|
      {
        lastReleasedPts := Some(heap[0].pts);
        out := out + [heap[0].frame];
        heap := heap[1..];
      }
      assert old(heap)[..|old(heap)|] == old(heap);
    }
  }

  // ---- any use of the buffer ----

  datatype Op = DoPush(frame: MediaBuffer) | DoPop | DoFlush

  /** A buffer with what has happened to it: every released frame with its key, what the calls returned, and
      how pushes ended. */
  datatype Log = Log(buffer: Buffer, released: seq<Keyed>, returned: seq<MediaBuffer>, pushes: nat, rejected: nat)

  function Apply(log: Log, op: Op): Log {
    var b := log.buffer;
    match op
    case DoPush(frame) =>
      var (b', r) := b.Push(frame);
      log.(buffer := b', pushes := log.pushes + 1, rejected := log.rejected + (if r == Full then 1 else 0))
    case DoPop =>
      var (b', r) := b.Pop();
      log.(buffer := b', released := log.released + (if r.Some? then [b.heap[0]] else []),
           returned := log.returned + (if r.Some? then [r.value] else []))
    case DoFlush =>
      var (b', out) := b.Flush();
      log.(buffer := b', released := log.released + b.heap, returned := log.returned + out)
  }

  function ApplyAll(target: nat, capacity: nat, ops: seq<Op>): Log {
    if ops == [] then Log(New(target, capacity), [], [], 0, 0)
    else Apply(ApplyAll(target, capacity, ops[..|ops| - 1]), ops[|ops| - 1])
  }

  predicate Increasing(ks: seq<Keyed>) {
    forall i, j :: 0 <= i < j < |ks| ==> Before(ks[i], ks[j])
  }

  /** What was released, followed by what is buffered. */
  function Line(log: Log): seq<Keyed> {
    log.released + log.buffer.heap
  }

  /** The whole line is strictly increasing, and the buffer remembers how far it has been released. */
  predicate Ordered(log: Log) {
    && Increasing(Line(log))
    && (forall i :: 0 <= i < |Line(log)| ==> Line(log)[i].arrival <= log.buffer.arrivals)
    && log.buffer.last == (if log.released == [] then None else Some(log.released[|log.released| - 1].pts))
  }

  /** The calls returned exactly the frames that left the line, in its order. */
  predicate Faithful(log: Log) {
    log.returned == Frames(log.released)
  }

  predicate Accounted(log: Log) {
    var b := log.buffer;
    && log.pushes == |log.released| + |b.heap| + b.droppedLate + log.rejected
    && 1 <= b.target <= b.capacity
    && |b.heap| <= b.capacity
    && (!b.primed ==> |b.heap| < b.target)
  }

  /** Frames without a timestamp stand in arrival order, and the key the next one gets is not below theirs. */
  predicate UntimedInOrder(line: seq<Keyed>, next: int) {
    && (forall i :: 0 <= i < |line| && !line[i].frame.HasPts() ==> line[i].pts <= next)
    && (forall i, j :: 0 <= i < j < |line| && !line[i].frame.HasPts() && !line[j].frame.HasPts() ==>
          line[i].arrival < line[j].arrival)
  }

  function NextUntimedKey(b: Buffer): int {
    (if b.last.Some? then b.last.value else I64_MIN) + 1
  }

  /** The place `Insert` puts a new arrival in. */
  lemma {:induction false} InsertAt(heap: seq<Keyed>, k: Keyed) returns (p: nat)
    requires Increasing(heap)
    requires forall i :: 0 <= i < |heap| ==> heap[i].arrival < k.arrival
    ensures p <= |heap| && Insert(heap, k) == heap[..p] + [k] + heap[p..]
    ensures forall i :: 0 <= i < p ==> heap[i].pts <= k.pts
    ensures forall i :: p <= i < |heap| ==> k.pts < heap[i].pts
  {
    if heap == [] || Before(k, heap[0]) {
      p := 0;
    } else {
      var q := InsertAt(heap[1..], k);
      p := q + 1;
      assert heap[..p] == [heap[0]] + heap[1..][..q];
      assert heap[p..] == heap[1..][q..];
    }
  }

  lemma {:induction false} InsertSkips(released: seq<Keyed>, heap: seq<Keyed>, k: Keyed)
    requires forall i :: 0 <= i < |released| ==> released[i].pts <= k.pts && released[i].arrival < k.arrival
    ensures Insert(released + heap, k) == released + Insert(heap, k)
  {
    if released == [] {
      assert released + heap == heap;
    } else {
      assert (released + heap)[1..] == released[1..] + heap;
      InsertSkips(released[1..], heap, k);
    }
  }

  lemma InsertInLine(released: seq<Keyed>, heap: seq<Keyed>, k: Keyed) returns (m: nat)
    requires Increasing(released + heap)
    requires forall i :: 0 <= i < |released + heap| ==> (released + heap)[i].arrival < k.arrival
    requires released != [] ==> released[|released| - 1].pts < k.pts
    ensures |released| <= m <= |released + heap|
    ensures released + Insert(heap, k) == (released + heap)[..m] + [k] + (released + heap)[m..]
    ensures forall i :: 0 <= i < m ==> (released + heap)[i].pts <= k.pts
    ensures forall i :: m <= i < |released + heap| ==> k.pts < (released + heap)[i].pts
  {
    var line, r := released + heap, |released|;
    m := InsertAt(line, k);
    forall i | 0 <= i < r ensures released[i].pts <= k.pts && released[i].arrival < k.arrival {
      assert released[i] == line[i];
      if i < r - 1 { assert Before(line[i], line[r - 1]); }
    }
    InsertSkips(released, heap, k);
    assert r > 0 ==> line[r - 1].pts <= k.pts;
  }

  lemma TailIncreasing(released: seq<Keyed>, heap: seq<Keyed>)
    requires Increasing(released + heap)
    ensures Increasing(heap)
  {
    forall i, j | 0 <= i < j < |heap| ensures Before(heap[i], heap[j]) {
      assert heap[i] == (released + heap)[|released| + i] && heap[j] == (released + heap)[|released| + j];
    }
  }

  /** An accepted frame is inserted into the line, behind all that was released. */
  lemma PushOnLine(log: Log, frame: MediaBuffer) returns (m: nat)
    requires Ordered(log)
    requires log.buffer.Push(frame).1.Ready? || log.buffer.Push(frame).1.Buffered?
    ensures var k := Keyed(log.buffer.KeyOf(frame), log.buffer.arrivals + 1, frame);
            && |log.released| <= m <= |Line(log)|
            && Line(Apply(log, DoPush(frame))) == Line(log)[..m] + [k] + Line(log)[m..]
            && (forall i :: 0 <= i < m ==> Line(log)[i].pts <= k.pts)
            && (forall i :: m <= i < |Line(log)| ==> k.pts < Line(log)[i].pts)
  {
    var b := log.buffer;
    m := InsertInLine(log.released, b.heap, Keyed(b.KeyOf(frame), b.arrivals + 1, frame));
  }

  lemma InsertKeepsIncreasing(line: seq<Keyed>, k: Keyed, m: nat)
    requires Increasing(line) && m <= |line|
    requires forall i :: 0 <= i < m ==> Before(line[i], k)
    requires forall i :: m <= i < |line| ==> Before(k, line[i])
    ensures Increasing(line[..m] + [k] + line[m..])
  {
  }

  lemma PushKeepsOrdered(log: Log, frame: MediaBuffer)
    requires Ordered(log)
    ensures Ordered(Apply(log, DoPush(frame)))
  {
    var r := log.buffer.Push(frame).1;
    if r.Ready? || r.Buffered? {
      var m := PushOnLine(log, frame);
      InsertKeepsIncreasing(Line(log), Keyed(log.buffer.KeyOf(frame), log.buffer.arrivals + 1, frame), m);
    }
  }

  /** Popping and flushing move the boundary, not the line. */
  lemma ReleaseKeepsLine(log: Log, op: Op)
    requires op.DoPop? || op.DoFlush?
    ensures Line(Apply(log, op)) == Line(log)
  {
  }

  lemma ReleaseKeepsOrdered(log: Log, op: Op)
    requires Ordered(log) && (op.DoPop? || op.DoFlush?)
    ensures Ordered(Apply(log, op))
  {
    ReleaseKeepsLine(log, op);
  }

  lemma {:induction false} AlwaysOrdered(target: nat, capacity: nat, ops: seq<Op>)
    ensures Ordered(ApplyAll(target, capacity, ops))
  {
    if ops != [] {
      var log, op := ApplyAll(target, capacity, ops[..|ops| - 1]), ops[|ops| - 1];
      AlwaysOrdered(target, capacity, ops[..|ops| - 1]);
      match op
      case DoPush(frame) => PushKeepsOrdered(log, frame);
      case _ => ReleaseKeepsOrdered(log, op);
    }
  }

  /** Frames come out in strictly increasing (key, arrival) order, never before one already out. */
  lemma ReleasedInOrder(target: nat, capacity: nat, ops: seq<Op>)
    ensures Increasing(ApplyAll(target, capacity, ops).released)
  {
    AlwaysOrdered(target, capacity, ops);
    var log := ApplyAll(target, capacity, ops);
    assert forall i :: 0 <= i < |log.released| ==> log.released[i] == Line(log)[i];
  }

  lemma ApplyKeepsFaithful(log: Log, op: Op)
    requires Faithful(log)
    ensures Faithful(Apply(log, op))
  {
  }

  /** What `pop` and `flush` returned, put together, is what was released. */
  lemma {:induction false} ReturnedIsReleased(target: nat, capacity: nat, ops: seq<Op>)
    ensures Faithful(ApplyAll(target, capacity, ops))
  {
    if ops != [] {
      ReturnedIsReleased(target, capacity, ops[..|ops| - 1]);
      ApplyKeepsFaithful(ApplyAll(target, capacity, ops[..|ops| - 1]), ops[|ops| - 1]);
    }
  }

  /** Every push is released, still buffered, counted late or rejected, and never more than `capacity`
      frames are buffered. */
  lemma {:induction false} EveryPushAccounted(target: nat, capacity: nat, ops: seq<Op>)
    ensures Accounted(ApplyAll(target, capacity, ops))
  {
    if ops != [] {
      EveryPushAccounted(target, capacity, ops[..|ops| - 1]);
    }
  }

  /** At some time so far as many frames were buffered as the target asks for. */
  predicate HasReached(target: nat, capacity: nat, ops: seq<Op>) {
    || |ApplyAll(target, capacity, ops).buffer.heap| >= Max(target, 1)
    || (ops != [] && HasReached(target, capacity, ops[..|ops| - 1]))
  }

  /** The limits are those asked for, raised to be usable, and the gate is open from the moment the target
      is first reached, also when the buffer has run empty or was flushed since. */
  lemma {:induction false} OpensOnce(target: nat, capacity: nat, ops: seq<Op>)
    ensures var b := ApplyAll(target, capacity, ops).buffer;
            && b.target == Max(target, 1) && b.capacity == Max(capacity, Max(target, 1))
            && (b.primed <==> HasReached(target, capacity, ops))
  {
    if ops != [] {
      OpensOnce(target, capacity, ops[..|ops| - 1]);
      EveryPushAccounted(target, capacity, ops);
    }
  }

  /** `pop` returns nothing exactly when the target has never been reached or the buffer is empty: a full
      buffer is always primed, so it never has to release before priming. */
  lemma PopReturnsNothing(target: nat, capacity: nat, ops: seq<Op>)
    ensures var b := ApplyAll(target, capacity, ops).buffer;
            && (b.Pop().1 == None <==> !b.primed || b.heap == [])
            && (b.Pop().1 == None <==> !HasReached(target, capacity, ops) || b.heap == [])
            && (|b.heap| >= b.capacity ==> b.primed)
  {
    EveryPushAccounted(target, capacity, ops);
    OpensOnce(target, capacity, ops);
  }

  /** The key a frame gets, told from what has been released. */
  predicate IsKey(log: Log, frame: MediaBuffer, key: i64) {
    if frame.HasPts() then key == frame.pts
    else if log.released == [] then key == I64_MIN + 1
    else key == Wrap64(log.released[|log.released| - 1].pts + 1)
  }

  /** How a push ends, told from what was asked for and what has happened: late exactly when a frame with
      this key or a greater one is out, full exactly when it is not late and the capacity is used up, and
      otherwise ready exactly when the target is then reached. Late and rejected frames change nothing
      but the count of late ones. */
  lemma PushEnds(target: nat, capacity: nat, ops: seq<Op>, log: Log, frame: MediaBuffer, key: i64)
    requires log == ApplyAll(target, capacity, ops) && IsKey(log, frame, key)
    ensures var (b, b', r) := (log.buffer, log.buffer.Push(frame).0, log.buffer.Push(frame).1);
            && (r == TooLate <==> exists i :: 0 <= i < |log.released| && key <= log.released[i].pts)
            && (r == Full <==> r != TooLate && |b.heap| == Max(capacity, Max(target, 1)))
            && (r == Ready <==> r != TooLate && r != Full && |b.heap| + 1 >= Max(target, 1))
            && (r == TooLate ==> b' == b.(droppedLate := b.droppedLate + 1))
            && (r == Full ==> b' == b)
  {
    AlwaysOrdered(target, capacity, ops);
    EveryPushAccounted(target, capacity, ops);
    OpensOnce(target, capacity, ops);
    LateBehindLast(log, key);
  }

  /** An accepted frame takes its place behind equal and lower keys and ahead of greater ones. */
  lemma PushPlaces(log: Log, frame: MediaBuffer, key: i64) returns (p: nat)
    requires Ordered(log) && IsKey(log, frame, key)
    requires log.buffer.Push(frame).1 != TooLate && log.buffer.Push(frame).1 != Full
    ensures var (b, b') := (log.buffer, log.buffer.Push(frame).0);
            && p <= |b.heap|
            && b'.heap == b.heap[..p] + [Keyed(key, b.arrivals + 1, frame)] + b.heap[p..]
            && (forall i :: 0 <= i < p ==> b.heap[i].pts <= key)
            && (forall i :: p <= i < |b.heap| ==> key < b.heap[i].pts)
            && b'.arrivals == b.arrivals + 1 && b'.last == b.last && b'.droppedLate == b.droppedLate
  {
    AcceptedIsInserted(log.buffer, frame);
    p := PlaceInHeap(log, Keyed(key, log.buffer.arrivals + 1, frame));
  }

  lemma AcceptedIsInserted(b: Buffer, frame: MediaBuffer)
    requires b.Push(frame).1 != TooLate && b.Push(frame).1 != Full
    ensures var b' := b.Push(frame).0;
            && b'.heap == Insert(b.heap, Keyed(b.KeyOf(frame), b.arrivals + 1, frame))
            && b'.arrivals == b.arrivals + 1 && b'.last == b.last && b'.droppedLate == b.droppedLate
  {
  }

  lemma PlaceInHeap(log: Log, k: Keyed) returns (p: nat)
    requires Ordered(log) && k.arrival == log.buffer.arrivals + 1
    ensures var heap := log.buffer.heap;
            && p <= |heap| && Insert(heap, k) == heap[..p] + [k] + heap[p..]
            && (forall i :: 0 <= i < p ==> heap[i].pts <= k.pts)
            && (forall i :: p <= i < |heap| ==> k.pts < heap[i].pts)
  {
    var heap := log.buffer.heap;
    TailIncreasing(log.released, heap);
    forall i | 0 <= i < |heap| ensures heap[i].arrival < k.arrival {
      assert heap[i] == Line(log)[|log.released| + i];
    }
    p := InsertAt(heap, k);
  }

  /** The last released key is the greatest. */
  lemma LateBehindLast(log: Log, key: i64)
    requires Ordered(log)
    ensures log.buffer.last.Some? && key <= log.buffer.last.value
            <==> exists i :: 0 <= i < |log.released| && key <= log.released[i].pts
  {
    var last := |log.released| - 1;
    forall i | 0 <= i < last ensures log.released[i].pts <= log.released[last].pts {
      assert Before(Line(log)[i], Line(log)[last]);
      assert Line(log)[i] == log.released[i] && Line(log)[last] == log.released[last];
    }
  }

  // ---- frames without a timestamp ----

  /** Unless the last released key is the greatest there is, such a frame is never late. */
  lemma UntimedIsLate(b: Buffer, frame: MediaBuffer)
    requires !frame.HasPts()
    ensures b.Push(frame).1 == TooLate <==> b.last == Some(I64_MAX)
  {
  }

  /** It goes behind everything buffered exactly when nothing buffered has a key above the one it gets. */
  lemma UntimedGoesLast(target: nat, capacity: nat, ops: seq<Op>, b: Buffer, frame: MediaBuffer)
    requires b == ApplyAll(target, capacity, ops).buffer
    requires !frame.HasPts() && b.last != Some(I64_MAX) && |b.heap| < b.capacity
    ensures b.Push(frame).0.heap == b.heap + [Keyed(b.KeyOf(frame), b.arrivals + 1, frame)]
            <==> forall i :: 0 <= i < |b.heap| ==> b.heap[i].pts <= b.KeyOf(frame)
  {
    AlwaysOrdered(target, capacity, ops);
    UntimedIsLate(b, frame);
    GoesLast(ApplyAll(target, capacity, ops), frame);
  }

  lemma GoesLast(log: Log, frame: MediaBuffer)
    requires Ordered(log) && log.buffer.Push(frame).1 != TooLate && |log.buffer.heap| < log.buffer.capacity
    ensures var b := log.buffer;
            b.Push(frame).0.heap == b.heap + [Keyed(b.KeyOf(frame), b.arrivals + 1, frame)]
            <==> forall i :: 0 <= i < |b.heap| ==> b.heap[i].pts <= b.KeyOf(frame)
  {
    var b := log.buffer;
    TailIncreasing(log.released, b.heap);
    forall i | 0 <= i < |b.heap| ensures b.heap[i].arrival < b.arrivals + 1 {
      assert b.heap[i] == Line(log)[|log.released| + i];
    }
    InsertedLast(b.heap, Keyed(b.KeyOf(frame), b.arrivals + 1, frame));
  }

  lemma InsertedLast(heap: seq<Keyed>, k: Keyed)
    requires Increasing(heap)
    requires forall i :: 0 <= i < |heap| ==> heap[i].arrival < k.arrival
    ensures Insert(heap, k) == heap + [k] <==> forall i :: 0 <= i < |heap| ==> heap[i].pts <= k.pts
  {
    var p := InsertAt(heap, k);
    if p < |heap| {
      assert (heap + [k])[p] == heap[p];
    }
  }

  /** The comment on `push` promises that a frame without timestamp comes after everything seen so far;
      here it overtakes a frame that arrived before it. */
  lemma UntimedOvertakes()
    ensures var early := MediaBuffer(10, [], []);
            var untimed := MediaBuffer(I64_MIN, [], []);
            var b := ApplyAll(2, 4, [DoPush(early), DoPush(untimed)]).buffer;
            b.Pop().1 == Some(untimed)
  {
    var early := MediaBuffer(10, [], []);
    var untimed := MediaBuffer(I64_MIN, [], []);
    var ops := [DoPush(early), DoPush(untimed)];
    assert ops[..1] == [DoPush(early)] && ops[..1][..0] == [];
    var b0 := New(2, 4);
    var b1 := b0.Push(early).0;
    assert b1.heap == [Keyed(10, 1, early)];
    var b2 := b1.Push(untimed).0;
    assert b2.heap == [Keyed(I64_MIN + 1, 2, untimed), Keyed(10, 1, early)];
    assert ApplyAll(2, 4, ops[..1]).buffer == b1;
  }

  /** Among themselves, frames without a timestamp do come out in arrival order, whatever happens between. */
  lemma {:induction false} UntimedKeepArrivalOrder(target: nat, capacity: nat, ops: seq<Op>)
    ensures var log := ApplyAll(target, capacity, ops);
            UntimedInOrder(Line(log), NextUntimedKey(log.buffer))
  {
    if ops != [] {
      var log, op := ApplyAll(target, capacity, ops[..|ops| - 1]), ops[|ops| - 1];
      UntimedKeepArrivalOrder(target, capacity, ops[..|ops| - 1]);
      AlwaysOrdered(target, capacity, ops[..|ops| - 1]);
      match op
      case DoPush(frame) => PushKeepsUntimed(log, frame);
      case _ =>
        ReleaseKeepsLine(log, op);
        ReleaseRaisesKey(log, op);
    }
  }

  lemma ReleaseRaisesKey(log: Log, op: Op)
    requires Ordered(log) && (op.DoPop? || op.DoFlush?)
    ensures NextUntimedKey(log.buffer) <= NextUntimedKey(Apply(log, op).buffer)
  {
    ReleaseKeepsOrdered(log, op);
    var before, after := |log.released|, |Apply(log, op).released|;
    if 0 < before < after {
      ReleaseKeepsLine(log, op);
      assert Before(Line(log)[before - 1], Line(log)[after - 1]);
      assert Line(log)[before - 1] == log.released[before - 1];
      assert Line(log)[after - 1] == Apply(log, op).released[after - 1];
    }
  }

  lemma PushKeepsUntimed(log: Log, frame: MediaBuffer)
    requires Ordered(log) && UntimedInOrder(Line(log), NextUntimedKey(log.buffer))
    ensures var log' := Apply(log, DoPush(frame));
            UntimedInOrder(Line(log'), NextUntimedKey(log'.buffer))
  {
    UntimedKey(log.buffer, frame);
    var r := log.buffer.Push(frame).1;
    if r.Ready? || r.Buffered? {
      AcceptedKeepsUntimed(log, frame, NextUntimedKey(log.buffer));
    } else {
      assert Line(Apply(log, DoPush(frame))) == Line(log);
    }
  }

  lemma AcceptedKeepsUntimed(log: Log, frame: MediaBuffer, next: int)
    requires Ordered(log) && UntimedInOrder(Line(log), next)
    requires log.buffer.Push(frame).1.Ready? || log.buffer.Push(frame).1.Buffered?
    requires !frame.HasPts() ==> log.buffer.KeyOf(frame) == next
    ensures UntimedInOrder(Line(Apply(log, DoPush(frame))), next)
  {
    var m := PushOnLine(log, frame);
    InsertKeepsUntimed(Line(log), Keyed(log.buffer.KeyOf(frame), log.buffer.arrivals + 1, frame), m, next);
  }

  lemma UntimedKey(b: Buffer, frame: MediaBuffer)
    ensures !frame.HasPts() && b.Push(frame).1 != TooLate ==> b.KeyOf(frame) == NextUntimedKey(b)
    ensures b.Push(frame).0.last == b.last
  {
  }

  lemma InsertKeepsUntimed(line: seq<Keyed>, k: Keyed, m: nat, next: int)
    requires UntimedInOrder(line, next) && m <= |line|
    requires forall i :: 0 <= i < |line| ==> line[i].arrival < k.arrival
    requires forall i :: m <= i < |line| ==> k.pts < line[i].pts
    requires !k.frame.HasPts() ==> k.pts == next
    ensures UntimedInOrder(line[..m] + [k] + line[m..], next)
  {
  }
}
