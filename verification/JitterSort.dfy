/** The reorder buffer in its intended use: push each frame, pop once whenever told `Ready`, and
    flush at the end. It sorts, up to frames that come too late, and says exactly which those are. */
module JitterSort {
  import opened Media
  import opened Jitter

  // ---- the reference ----

  /** How many frames have a timestamp of at least `p`. */
  function AtLeast(frames: seq<MediaBuffer>, p: int): nat {
    if frames == [] then 0
    else AtLeast(frames[..|frames| - 1], p) + (if frames[|frames| - 1].pts >= p then 1 else 0)
  }

  /** The frames with timestamp `p`, in order. */
  function OfPts(frames: seq<MediaBuffer>, p: int): seq<MediaBuffer> {
    if frames == [] then []
    else OfPts(frames[..|frames| - 1], p) + (if frames[|frames| - 1].pts == p then [frames[|frames| - 1]] else [])
  }

  predicate SortedByPts(frames: seq<MediaBuffer>) {
    forall i, j :: 0 <= i < j < |frames| ==> frames[i].pts <= frames[j].pts
  }

  /** `out` is sorted and, for each timestamp, has the frames of `frames` in their own order. */
  ghost predicate IsStableSort(out: seq<MediaBuffer>, frames: seq<MediaBuffer>) {
    SortedByPts(out) && forall p: int :: OfPts(out, p) == OfPts(frames, p)
  }

  /** The frames in time: those with fewer than `depth` kept frames before them that are not earlier. */
  function InTime(frames: seq<MediaBuffer>, depth: nat): seq<MediaBuffer> {
    if frames == [] then []
    else
      var kept, f := InTime(frames[..|frames| - 1], depth), frames[|frames| - 1];
      if AtLeast(kept, f.pts) < depth then kept + [f] else kept
  }

  // ---- the protocol ----

  /** `log` is the buffer with everything released so far, `late` and `full` how many pushes ended so. */
  datatype Session = Session(log: Log, late: nat, full: nat)

  function Offer(s: Session, frame: MediaBuffer): Session {
    var r := s.log.buffer.Push(frame).1;
    var pushed := Apply(s.log, DoPush(frame));
    match r
    case Ready => s.(log := Apply(pushed, DoPop))
    case Buffered => s.(log := pushed)
    case TooLate => Session(pushed, s.late + 1, s.full)
    case Full => Session(pushed, s.late, s.full + 1)
  }

  function OfferAll(target: nat, capacity: nat, frames: seq<MediaBuffer>): Session {
    if frames == [] then Session(Log(New(target, capacity), [], [], 0, 0), 0, 0)
    else Offer(OfferAll(target, capacity, frames[..|frames| - 1]), frames[|frames| - 1])
  }

  /** All that the calls of the session returned, and then the final flush. */
  function Output(s: Session): seq<MediaBuffer> {
    Apply(s.log, DoFlush).returned
  }

  // ---- counting along the line ----

  lemma {:induction false} AtLeastConcat(a: seq<MediaBuffer>, b: seq<MediaBuffer>, p: int)
    ensures AtLeast(a + b, p) == AtLeast(a, p) + AtLeast(b, p)
  {
    if b == [] {
      assert a + b == a;
    } else {
      assert (a + b)[..|a + b| - 1] == a + b[..|b| - 1];
      AtLeastConcat(a, b[..|b| - 1], p);
    }
  }

  lemma {:induction false} OfPtsConcat(a: seq<MediaBuffer>, b: seq<MediaBuffer>, p: int)
    ensures OfPts(a + b, p) == OfPts(a, p) + OfPts(b, p)
  {
    if b == [] {
      assert a + b == a;
    } else {
      assert (a + b)[..|a + b| - 1] == a + b[..|b| - 1];
      OfPtsConcat(a, b[..|b| - 1], p);
    }
  }

  lemma {:induction false} NoneOfPts(frames: seq<MediaBuffer>, p: int)
    requires forall i :: 0 <= i < |frames| ==> frames[i].pts != p
    ensures OfPts(frames, p) == []
  {
    if frames != [] { NoneOfPts(frames[..|frames| - 1], p); }
  }

  lemma {:induction false} AllAtLeast(frames: seq<MediaBuffer>, p: int)
    requires forall i :: 0 <= i < |frames| ==> frames[i].pts >= p
    ensures AtLeast(frames, p) == |frames|
  {
    if frames != [] { AllAtLeast(frames[..|frames| - 1], p); }
  }

  lemma {:induction false} NoneAtLeast(frames: seq<MediaBuffer>, p: int)
    requires forall i :: 0 <= i < |frames| ==> frames[i].pts < p
    ensures AtLeast(frames, p) == 0
  {
    if frames != [] { NoneAtLeast(frames[..|frames| - 1], p); }
  }

  lemma {:induction false} AtLeastBound(frames: seq<MediaBuffer>, p: int)
    ensures AtLeast(frames, p) <= |frames|
  {
    if frames != [] { AtLeastBound(frames[..|frames| - 1], p); }
  }

  /** Inserting `f` before the frames that are all later than it. */
  lemma InsertCounts(front: seq<MediaBuffer>, f: MediaBuffer, back: seq<MediaBuffer>, p: int)
    requires forall i :: 0 <= i < |back| ==> f.pts < back[i].pts
    ensures AtLeast(front + [f] + back, p) == AtLeast(front + back, p) + (if f.pts >= p then 1 else 0)
    ensures OfPts(front + [f] + back, p) == OfPts(front + back, p) + (if f.pts == p then [f] else [])
  {
    AtLeastConcat(front + [f], back, p);
    AtLeastConcat(front, [f], p);
    AtLeastConcat(front, back, p);
    OfPtsConcat(front + [f], back, p);
    OfPtsConcat(front, [f], p);
    OfPtsConcat(front, back, p);
    assert [f][..0] == [];
    if p == f.pts {
      NoneOfPts(back, p);
    }
  }

  // ---- what a session keeps ----

  predicate KeysArePts(ks: seq<Keyed>) {
    forall i :: 0 <= i < |ks| ==> ks[i].pts == ks[i].frame.pts
  }

  /** Keys are the frames' own timestamps, and the line holds exactly the kept frames. */
  ghost predicate Holds(log: Log, kept: seq<MediaBuffer>) {
    var line := Frames(Line(log));
    && KeysArePts(Line(log))
    && |line| == |kept|
    && (forall p: int :: AtLeast(line, p) == AtLeast(kept, p))
    && (forall p: int :: OfPts(line, p) == OfPts(kept, p))
  }

  /** Between two pushes fewer than `target` frames are buffered, and once releasing has begun just one fewer. */
  predicate Steady(log: Log) {
    var b := log.buffer;
    && 1 <= b.target <= b.capacity
    && |b.heap| < b.target
    && (log.released != [] ==> |b.heap| == b.target - 1)
  }

  /** Of a sorted list cut in two, with `depth - 1` frames behind the cut if any are before it: `depth`
      frames are not earlier than `p` exactly when the last one before the cut is not. */
  lemma CountAtCut(out: seq<MediaBuffer>, heap: seq<MediaBuffer>, p: int, depth: nat)
    requires SortedByPts(out + heap) && |heap| < depth
    requires out != [] ==> |heap| == depth - 1
    ensures out != [] && p <= out[|out| - 1].pts <==> AtLeast(out + heap, p) >= depth
  {
    var all, last := out + heap, |out| - 1;
    AtLeastConcat(out, heap, p);
    AtLeastBound(heap, p);
    if out != [] {
      assert forall i :: 0 <= i < |heap| ==> heap[i] == all[|out| + i];
      if p <= out[last].pts {
        assert forall i :: 0 <= i < |heap| ==> all[last].pts <= heap[i].pts;
        AllAtLeast(heap, p);
      } else {
        assert forall i :: 0 <= i < last ==> all[i].pts <= all[last].pts && all[i] == out[i];
        NoneAtLeast(out, p);
      }
    }
  }

  lemma LineSorted(log: Log, kept: seq<MediaBuffer>)
    requires Ordered(log) && Holds(log, kept)
    ensures SortedByPts(Frames(log.released) + Frames(log.buffer.heap))
    ensures Frames(Line(log)) == Frames(log.released) + Frames(log.buffer.heap)
    ensures log.buffer.last == if log.released == [] then None else Some(Frames(log.released)[|log.released| - 1].pts)
  {
    assert Frames(Line(log)) == Frames(log.released) + Frames(log.buffer.heap);
    forall i, j | 0 <= i < j < |Line(log)| ensures Frames(Line(log))[i].pts <= Frames(Line(log))[j].pts {
      assert Before(Line(log)[i], Line(log)[j]);
    }
    if log.released != [] {
      var last := |log.released| - 1;
      assert Line(log)[last] == log.released[last];
    }
  }

  /** A push is late exactly when `target` kept frames are not earlier than it; it is never rejected. */
  lemma LateExactly(log: Log, kept: seq<MediaBuffer>, frame: MediaBuffer)
    requires Ordered(log) && Holds(log, kept) && Steady(log) && frame.HasPts()
    ensures log.buffer.Push(frame).1 == TooLate <==> AtLeast(kept, frame.pts) >= log.buffer.target
    ensures log.buffer.Push(frame).1 != Full
  {
    LineSorted(log, kept);
    CountAtCut(Frames(log.released), Frames(log.buffer.heap), frame.pts, log.buffer.target);
  }

  /** An accepted push adds its frame to what the line holds. */
  lemma PushHolds(log: Log, kept: seq<MediaBuffer>, frame: MediaBuffer)
    requires Ordered(log) && Holds(log, kept) && frame.HasPts()
    requires log.buffer.Push(frame).1.Ready? || log.buffer.Push(frame).1.Buffered?
    ensures Holds(Apply(log, DoPush(frame)), kept + [frame])
  {
    var m := PushOnLine(log, frame);
    var log' := Apply(log, DoPush(frame));
    SplicedFrames(Line(log), Keyed(frame.pts, log.buffer.arrivals + 1, frame), m);
    InsertSame(Frames(Line(log)), m, frame, kept);
  }

  lemma SplicedFrames(line: seq<Keyed>, k: Keyed, m: nat)
    requires m <= |line| && KeysArePts(line) && k.pts == k.frame.pts
    ensures KeysArePts(line[..m] + [k] + line[m..])
    ensures Frames(line[..m] + [k] + line[m..]) == Frames(line)[..m] + [k.frame] + Frames(line)[m..]
  {
  }

  /** Inserting before later frames and appending at the end are the same to counts and to each timestamp. */
  lemma InsertSame(line: seq<MediaBuffer>, m: nat, f: MediaBuffer, kept: seq<MediaBuffer>)
    requires m <= |line| && forall i :: m <= i < |line| ==> f.pts < line[i].pts
    requires forall p: int :: AtLeast(line, p) == AtLeast(kept, p)
    requires forall p: int :: OfPts(line, p) == OfPts(kept, p)
    ensures forall p: int :: AtLeast(line[..m] + [f] + line[m..], p) == AtLeast(kept + [f], p)
    ensures forall p: int :: OfPts(line[..m] + [f] + line[m..], p) == OfPts(kept + [f], p)
  {
    var line' := line[..m] + [f] + line[m..];
    forall p: int
      ensures AtLeast(line', p) == AtLeast(kept + [f], p)
      ensures OfPts(line', p) == OfPts(kept + [f], p)
    {
      assert line == line[..m] + line[m..];
      InsertCounts(line[..m], f, line[m..], p);
      assert (kept + [f])[..|kept|] == kept;
    }
  }

  ghost predicate SessionInv(s: Session, kept: seq<MediaBuffer>, target: nat, offered: nat) {
    && Ordered(s.log)
    && Holds(s.log, kept)
    && Steady(s.log)
    && s.log.buffer.target == Max(target, 1)
    && s.full == 0
    && s.late + |kept| == offered
  }

  lemma OfferKeeps(s: Session, kept: seq<MediaBuffer>, target: nat, offered: nat, frame: MediaBuffer)
    requires SessionInv(s, kept, target, offered) && frame.HasPts()
    ensures var kept' := if AtLeast(kept, frame.pts) < Max(target, 1) then kept + [frame] else kept;
            SessionInv(Offer(s, frame), kept', target, offered + 1)
  {
    LateExactly(s.log, kept, frame);
    PushKeepsOrdered(s.log, frame);
    var r := s.log.buffer.Push(frame).1;
    var pushed := Apply(s.log, DoPush(frame));
    if r == TooLate {
      assert Line(pushed) == Line(s.log);
    } else {
      PushHolds(s.log, kept, frame);
      if r == Ready {
        ReleaseKeepsOrdered(pushed, DoPop);
        ReleaseKeepsLine(pushed, DoPop);
      }
    }
  }

  lemma {:induction false} OfferAllKeeps(target: nat, capacity: nat, frames: seq<MediaBuffer>)
    requires forall i :: 0 <= i < |frames| ==> frames[i].HasPts()
    ensures SessionInv(OfferAll(target, capacity, frames), InTime(frames, Max(target, 1)), target, |frames|)
  {
    if frames != [] {
      var front := frames[..|frames| - 1];
      OfferAllKeeps(target, capacity, front);
      OfferKeeps(OfferAll(target, capacity, front), InTime(front, Max(target, 1)), target, |front|, frames[|frames| - 1]);
    }
  }

  /** Popping and flushing return what they release. */
  lemma {:induction false} OfferAllReturns(target: nat, capacity: nat, frames: seq<MediaBuffer>)
    ensures Faithful(OfferAll(target, capacity, frames).log)
  {
    if frames != [] {
      var s, frame := OfferAll(target, capacity, frames[..|frames| - 1]), frames[|frames| - 1];
      OfferAllReturns(target, capacity, frames[..|frames| - 1]);
      ApplyKeepsFaithful(s.log, DoPush(frame));
      ApplyKeepsFaithful(Apply(s.log, DoPush(frame)), DoPop);
    }
  }

  // ---- the theorem ----

  lemma FlushSorts(s: Session, kept: seq<MediaBuffer>)
    requires Ordered(s.log) && Faithful(s.log) && Holds(s.log, kept)
    ensures IsStableSort(Output(s), kept)
  {
    ApplyKeepsFaithful(s.log, DoFlush);
    LineSorted(s.log, kept);
    assert Output(s) == Frames(Line(s.log));
  }

  /** Whatever order frames with timestamps arrive in: none is rejected, the late ones are exactly those
      out of time, and the output is the stable sort by timestamp of all the others. */
  lemma SortsWhatIsInTime(target: nat, capacity: nat, frames: seq<MediaBuffer>)
    requires forall i :: 0 <= i < |frames| ==> frames[i].HasPts()
    ensures var s := OfferAll(target, capacity, frames);
            var kept := InTime(frames, Max(target, 1));
            && s.full == 0
            && s.late == |frames| - |kept|
            && IsStableSort(Output(s), kept)
  {
    OfferAllKeeps(target, capacity, frames);
    OfferAllReturns(target, capacity, frames);
    FlushSorts(OfferAll(target, capacity, frames), InTime(frames, Max(target, 1)));
  }

  lemma {:induction false} InTimeLength(frames: seq<MediaBuffer>, depth: nat)
    ensures |InTime(frames, depth)| <= |frames|
    ensures |InTime(frames, depth)| == |frames| <==> InTime(frames, depth) == frames
  {
    if frames != [] {
      var last := |frames| - 1;
      InTimeLength(frames[..last], depth);
      assert frames == frames[..last] + [frames[last]];
    }
  }

  /** Each frame has fewer than `depth` frames before it that are not earlier. */
  predicate EarlyEnough(frames: seq<MediaBuffer>, depth: nat) {
    forall k :: 0 <= k < |frames| ==> AtLeast(frames[..k], frames[k].pts) < depth
  }

  lemma EarlyEnoughLast(frames: seq<MediaBuffer>, depth: nat)
    requires frames != []
    ensures var last := |frames| - 1;
            EarlyEnough(frames, depth)
            <==> EarlyEnough(frames[..last], depth) && AtLeast(frames[..last], frames[last].pts) < depth
  {
    var last := |frames| - 1;
    var front := frames[..last];
    assert forall k :: 0 <= k < last ==> front[..k] == frames[..k] && front[k] == frames[k];
  }

  lemma {:induction false} AllInTime(frames: seq<MediaBuffer>, depth: nat)
    ensures |InTime(frames, depth)| == |frames| <==> EarlyEnough(frames, depth)
  {
    if frames != [] {
      var front := frames[..|frames| - 1];
      EarlyEnoughLast(frames, depth);
      AllInTime(front, depth);
      InTimeLength(front, depth);
    }
  }

  /** No frame is late if and only if each has fewer than `target` earlier arrivals that are not before
      it in time, and in that case the output is the stable sort of everything offered. */
  lemma SortingTheorem(target: nat, capacity: nat, frames: seq<MediaBuffer>)
    requires forall i :: 0 <= i < |frames| ==> frames[i].HasPts()
    ensures var s := OfferAll(target, capacity, frames);
            && s.full == 0
            && (s.late == 0 <==> EarlyEnough(frames, Max(target, 1)))
            && (s.late == 0 ==> IsStableSort(Output(s), frames))
  {
    SortsWhatIsInTime(target, capacity, frames);
    AllInTime(frames, Max(target, 1));
    InTimeLength(frames, Max(target, 1));
  }
}
