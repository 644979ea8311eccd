/** The sequential executor: one frame at a time through all stages, giving up on the first error. */
module Pipeline {
  import opened Media
  import opened Metrics
  import opened Chain

  /** One stage worked through a list of frames, up to the first failed call. */
  datatype Pass<S> = Pass(state: S, meter: Snapshot, result: Result<seq<MediaBuffer>>)

  function RunPass<S>(stage: Stage<S>, start: S, meter: Snapshot, frames: seq<MediaBuffer>): Pass<S> {
    if frames == [] then Pass(start, meter, Ok([]))
    else
      var last := |frames| - 1;
      var p := RunPass(stage, start, meter, frames[..last]);
      if p.result.Err? then p
      else
        var reply := stage(p.state, frames[last]);
        var metered := p.meter.RecordIn(frames[last].Len());
        match reply.result
        case Err(e) => Pass(reply.next, metered, Err(e))
        case Ok(made) => Pass(reply.next, metered.RecordOut(|made|, Bytes(made)), Ok(p.result.value + made))
  }

  /** The pipeline's whole mutable state after some work, and what the work returned. */
  datatype Progress<S> = Progress(states: seq<S>, meters: seq<Snapshot>, result: Result<seq<MediaBuffer>>)

  /** The list `current` carried through the given stages, stopping where nothing is left to carry. */
  function RunFrom<S>(stages: seq<Stage<S>>, states: seq<S>, meters: seq<Snapshot>, current: seq<MediaBuffer>): (p: Progress<S>)
    requires |states| == |meters| == |stages|
    ensures |p.states| == |p.meters| == |stages|
  {
    if stages == [] then Progress([], [], Ok(current))
    else
      var p := RunPass(stages[0], states[0], meters[0], current);
      if p.result.Err? || p.result.value == [] then
        Progress([p.state] + states[1..], [p.meter] + meters[1..], p.result)
      else
        var rest := RunFrom(stages[1..], states[1..], meters[1..], p.result.value);
        Progress([p.state] + rest.states, [p.meter] + rest.meters, rest.result)
  }

  /** A batch of frames, one after the other, up to the first one that fails. */
  function RunBatch<S>(stages: seq<Stage<S>>, states: seq<S>, meters: seq<Snapshot>, frames: seq<MediaBuffer>): (p: Progress<S>)
    requires |states| == |meters| == |stages| > 0
    ensures |p.states| == |p.meters| == |stages|
  {
    if frames == [] then Progress(states, meters, Ok([]))
    else
      var last := |frames| - 1;
      var p := RunBatch(stages, states, meters, frames[..last]);
      if p.result.Err? then p
      else
        var q := RunFrom(stages, p.states, p.meters, [frames[last]]);
        if q.result.Err? then q else q.(result := Ok(p.result.value + q.result.value))
  }

  class Pipeline<S> {
    const stages: seq<Stage<S>>
    const metrics: seq<StageMetrics>
    var states: seq<S>
    var frameCount: nat

    ghost predicate Valid()
      reads this
    {
      && |states| == |metrics| == |stages|
      && forall i, j :: 0 <= i < j < |metrics| ==> metrics[i] != metrics[j]
    }

    constructor (stages: seq<Stage<S>>, states: seq<S>)
      requires |states| == |stages|
      ensures Valid() && this.stages == stages && this.states == states && frameCount == 0
      ensures Meters() == seq(|stages|, _ => ZERO)
      ensures forall i :: 0 <= i < |metrics| ==> fresh(metrics[i])
    {
      var counters: seq<StageMetrics> := [];
      for i := 0 to |stages|
        invariant |counters| == i
        invariant forall j :: 0 <= j < i ==> fresh(counters[j]) && counters[j].Read() == ZERO
        invariant forall j, k :: 0 <= j < k < i ==> counters[j] != counters[k]
      {
        var m := new StageMetrics();
        counters := counters + [m];
      }
      this.stages, this.states, metrics, frameCount := stages, states, counters, 0;
    }

    function Meters(): (m: seq<Snapshot>)
      reads metrics
      ensures |m| == |metrics|
    {
      seq(|metrics|, i requires 0 <= i < |metrics| reads metrics => metrics[i].Read())
    }

    /** The inner loop: every frame of `current` through stage `idx`. */
    method RunStageOver(idx: nat, current: seq<MediaBuffer>) returns (r: Result<seq<MediaBuffer>>)
      requires Valid() && idx < |stages|
      modifies this`states, metrics
      ensures Valid()
      ensures var p := RunPass(stages[idx], old(states)[idx], old(Meters())[idx], current);
              && r == p.result
              && states == old(states)[idx := p.state]
              && Meters() == old(Meters())[idx := p.meter]
    {
      var next := [];
      ghost var start, meter := states[idx], metrics[idx].Read();
      ghost var done := RunPass(stages[idx], start, meter, []);
      for k := 0 to |current|
        invariant Valid()
        invariant done == RunPass(stages[idx], start, meter, current[..k]) && done.result == Ok(next)
        invariant states == old(states)[idx := done.state] && metrics[idx].Read() == done.meter
        invariant forall j :: 0 <= j < |metrics| && j != idx ==> metrics[j].Read() == old(metrics[j].Read())
      {
        RunPassNext(stages[idx], start, meter, current, k);
        done := RunPass(stages[idx], start, meter, current[..k + 1]);
        metrics[idx].RecordIn(current[k].Len());
        var reply := stages[idx](states[idx], current[k]);
        states := states[idx := reply.next];
        match reply.result {
          case Err(e) =>
            RunPassStopsAtError(stages[idx], start, meter, current, k + 1);
            assert Meters() == old(Meters())[idx := done.meter];
            return Err(e);
          case Ok(made) =>
            metrics[idx].RecordOut(|made|, Bytes(made));
            next := next + made;
        }
      }
      assert current[..|current|] == current;
      assert Meters() == old(Meters())[idx := done.meter];
      r := Ok(next);
    }

    method Process(buf: MediaBuffer) returns (r: Result<seq<MediaBuffer>>)
      requires Valid()
      modifies this`states, this`frameCount, metrics
      ensures Valid()
      ensures stages == [] ==>
                r == Err(EmptyPipeline)
                && states == old(states) && Meters() == old(Meters()) && frameCount == old(frameCount)
      ensures stages != [] ==>
                Progress(states, Meters(), r) == RunFrom(stages, old(states), old(Meters()), [buf])
                && frameCount == old(frameCount) + 1
    {
      if stages == [] {
        return Err(EmptyPipeline);
      }
      var current := [buf];
      ghost var st, me := states, Meters();
      ghost var whole := RunOn(stages, st, me, 0, current);
      RunOnIsFrom(stages, st, me, current);
      frameCount := frameCount + 1;
      assert Meters() == me;
      for idx := 0 to |stages|
        invariant Valid()
        invariant frameCount == old(frameCount) + 1
        invariant states == st && Meters() == me
        invariant whole == RunOn(stages, st, me, idx, current)
      {
        var out := RunStageOver(idx, current);
        st, me := states, Meters();
        if out.Err? || out.value == [] {
          assert Progress(st, me, out) == whole;
          return out;
        }
        current := out.value;
      }
      assert Progress(st, me, Ok(current)) == whole;
      r := Ok(current);
    }

    method ProcessBatch(bufs: seq<MediaBuffer>) returns (r: Result<seq<MediaBuffer>>)
      requires Valid()
      modifies this`states, this`frameCount, metrics
      ensures Valid()
      ensures stages == [] ==>
                r == (if bufs == [] then Ok([]) else Err(EmptyPipeline))
                && states == old(states) && Meters() == old(Meters()) && frameCount == old(frameCount)
      ensures stages != [] ==>
                && Progress(states, Meters(), r) == RunBatch(stages, old(states), old(Meters()), bufs)
                && old(frameCount) <= frameCount <= old(frameCount) + |bufs|
                && (r.Ok? ==> frameCount == old(frameCount) + |bufs|)
                && (r.Err? ==>
                      var tried := frameCount - old(frameCount);
                      && tried > 0
                      && RunBatch(stages, old(states), old(Meters()), bufs[..tried - 1]).result.Ok?
                      && RunBatch(stages, old(states), old(Meters()), bufs[..tried]).result.Err?)
    {
      if stages == [] {
        if bufs == [] {
          return Ok([]);
        }
        r := Process(bufs[0]);
        return;
      }
      var out := [];
      for k := 0 to |bufs|
        invariant Valid()
        invariant frameCount == old(frameCount) + k
        invariant Progress(states, Meters(), Ok(out)) == RunBatch(stages, old(states), old(Meters()), bufs[..k])
      {
        assert bufs[..k + 1][..k] == bufs[..k];
        var one := Process(bufs[k]);
        match one {
          case Err(e) =>
            RunBatchStopsAtError(stages, old(states), old(Meters()), bufs, k + 1);
            return Err(e);
          case Ok(frames) =>
            out := out + frames;
        }
      }
      assert bufs[..|bufs|] == bufs;
      r := Ok(out);
    }
  }

  /** The builder refuses a pipeline without stages. */
  method Build<S>(stages: seq<Stage<S>>, states: seq<S>) returns (r: Result<Pipeline<S>>)
    requires |states| == |stages|
    ensures stages == [] ==> r == Err(EmptyPipeline)
    ensures stages != [] ==>
              && r.Ok? && fresh(r.value) && r.value.Valid()
              && r.value.stages == stages && r.value.states == states
              && r.value.Meters() == seq(|stages|, _ => ZERO)
  {
    if stages == [] {
      return Err(EmptyPipeline);
    }
    var p := new Pipeline(stages, states);
    return Ok(p);
  }

  /** The outer loop from stage `idx` on, over all states and counters. */
  function RunOn<S>(stages: seq<Stage<S>>, states: seq<S>, meters: seq<Snapshot>, idx: nat, current: seq<MediaBuffer>): Progress<S>
    requires |states| == |meters| == |stages| && idx <= |stages|
    decreases |stages| - idx
  {
    if idx == |stages| then Progress(states, meters, Ok(current))
    else
      var p := RunPass(stages[idx], states[idx], meters[idx], current);
      var states', meters' := states[idx := p.state], meters[idx := p.meter];
      if p.result.Err? || p.result.value == [] then Progress(states', meters', p.result)
      else RunOn(stages, states', meters', idx + 1, p.result.value)
  }

  lemma RunOnIsFrom<S>(stages: seq<Stage<S>>, states: seq<S>, meters: seq<Snapshot>, current: seq<MediaBuffer>)
    requires |states| == |meters| == |stages|
    ensures RunOn(stages, states, meters, 0, current) == RunFrom(stages, states, meters, current)
  {
    RunOnIsResume(stages, states, meters, 0, current);
    ResumeStart(stages, states, meters, current);
  }

  lemma {:induction false} RunOnIsResume<S>(stages: seq<Stage<S>>, states: seq<S>, meters: seq<Snapshot>, idx: nat, current: seq<MediaBuffer>)
    requires |states| == |meters| == |stages| && idx <= |stages|
    ensures RunOn(stages, states, meters, idx, current) == Resume(stages, states, meters, idx, current)
    decreases |stages| - idx
  {
    if idx == |stages| {
      ResumeEnd(stages, states, meters, current);
    } else {
      ResumeStep(stages, states, meters, idx, current);
      var p := RunPass(stages[idx], states[idx], meters[idx], current);
      if p.result.Ok? && p.result.value != [] {
        RunOnIsResume(stages, states[idx := p.state], meters[idx := p.meter], idx + 1, p.result.value);
      }
    }
  }

  /** A run of the outer loop that has reached stage `idx`, carried on to its end. */
  function Resume<S>(stages: seq<Stage<S>>, states: seq<S>, meters: seq<Snapshot>, idx: nat, current: seq<MediaBuffer>): Progress<S>
    requires |states| == |meters| == |stages| && idx <= |stages|
  {
    var rest := RunFrom(stages[idx..], states[idx..], meters[idx..], current);
    Progress(states[..idx] + rest.states, meters[..idx] + rest.meters, rest.result)
  }

  lemma ResumeStep<S>(stages: seq<Stage<S>>, states: seq<S>, meters: seq<Snapshot>, idx: nat, current: seq<MediaBuffer>)
    requires |states| == |meters| == |stages| && idx < |stages|
    ensures var p := RunPass(stages[idx], states[idx], meters[idx], current);
            var states', meters' := states[idx := p.state], meters[idx := p.meter];
            Resume(stages, states, meters, idx, current)
            == if p.result.Err? || p.result.value == [] then Progress(states', meters', p.result)
               else Resume(stages, states', meters', idx + 1, p.result.value)
  {
    var p := RunPass(stages[idx], states[idx], meters[idx], current);
    assert stages[idx..][1..] == stages[idx + 1..];
    var rest := RunFrom(stages[idx + 1..], states[idx + 1..], meters[idx + 1..],
                        if p.result.Ok? then p.result.value else []);
    Splice(states, idx, p.state, rest.states);
    Splice(meters, idx, p.meter, rest.meters);
  }

  lemma Splice<T>(xs: seq<T>, i: nat, x: T, rest: seq<T>)
    requires i < |xs|
    ensures xs[i := x] == xs[..i] + ([x] + xs[i + 1..])
    ensures xs[i := x][i + 1..] == xs[i..][1..] == xs[i + 1..]
    ensures xs[..i] + ([x] + rest) == xs[i := x][..i + 1] + rest
  {
  }

  lemma ResumeStart<S>(stages: seq<Stage<S>>, states: seq<S>, meters: seq<Snapshot>, current: seq<MediaBuffer>)
    requires |states| == |meters| == |stages|
    ensures Resume(stages, states, meters, 0, current) == RunFrom(stages, states, meters, current)
  {
    assert stages[0..] == stages && states[0..] == states && meters[0..] == meters;
  }

  lemma ResumeEnd<S>(stages: seq<Stage<S>>, states: seq<S>, meters: seq<Snapshot>, current: seq<MediaBuffer>)
    requires |states| == |meters| == |stages|
    ensures Resume(stages, states, meters, |stages|, current) == Progress(states, meters, Ok(current))
  {
    assert states[..|stages|] + [] == states;
    assert meters[..|stages|] + [] == meters;
  }

  lemma RunPassNext<S>(stage: Stage<S>, start: S, meter: Snapshot, frames: seq<MediaBuffer>, k: nat)
    requires k < |frames| && RunPass(stage, start, meter, frames[..k]).result.Ok?
    ensures var p := RunPass(stage, start, meter, frames[..k]);
            var reply := stage(p.state, frames[k]);
            var metered := p.meter.RecordIn(frames[k].Len());
            RunPass(stage, start, meter, frames[..k + 1])
            == match reply.result
               case Err(e) => Pass(reply.next, metered, Err(e))
               case Ok(made) => Pass(reply.next, metered.RecordOut(|made|, Bytes(made)), Ok(p.result.value + made))
  {
    assert frames[..k + 1][..k] == frames[..k];
  }

  lemma {:induction false} RunPassStopsAtError<S>(stage: Stage<S>, start: S, meter: Snapshot, frames: seq<MediaBuffer>, k: nat)
    requires k <= |frames| && RunPass(stage, start, meter, frames[..k]).result.Err?
    ensures RunPass(stage, start, meter, frames) == RunPass(stage, start, meter, frames[..k])
  {
    if k == |frames| {
      assert frames[..k] == frames;
    } else {
      assert frames[..|frames| - 1][..k] == frames[..k];
      RunPassStopsAtError(stage, start, meter, frames[..|frames| - 1], k);
    }
  }

  lemma {:induction false} RunBatchStopsAtError<S>(stages: seq<Stage<S>>, states: seq<S>, meters: seq<Snapshot>,
                                                   frames: seq<MediaBuffer>, k: nat)
    requires |states| == |meters| == |stages| > 0
    requires k <= |frames| && RunBatch(stages, states, meters, frames[..k]).result.Err?
    ensures RunBatch(stages, states, meters, frames) == RunBatch(stages, states, meters, frames[..k])
  {
    if k == |frames| {
      assert frames[..k] == frames;
    } else {
      assert frames[..|frames| - 1][..k] == frames[..k];
      RunBatchStopsAtError(stages, states, meters, frames[..|frames| - 1], k);
    }
  }

  // ---- what the executor computes ----

  /** A stage's counters after it met `frames`, told from the frames alone. */
  function MeterAfter<S>(meter: Snapshot, frames: seq<MediaBuffer>, r: StageRun<S>): Snapshot {
    Snapshot(meter.framesIn + |frames|, meter.framesOut + |r.emitted|, meter.framesDropped + r.empties,
             meter.bytesIn + Bytes(frames), meter.bytesOut + Bytes(r.emitted))
  }

  function MetersAfter<S>(stages: seq<Stage<S>>, states: seq<S>, verdicts: seq<seq<bool>>, meters: seq<Snapshot>,
                          frames: seq<MediaBuffer>): (m: seq<Snapshot>)
    requires |states| == |verdicts| == |meters| == |stages|
    ensures |m| == |stages|
  {
    if stages == [] then []
    else
      var r := RunStage(stages[0], states[0], frames, verdicts[0]);
      [MeterAfter(meters[0], frames, r)]
      + MetersAfter(stages[1..], states[1..], verdicts[1..], meters[1..], r.emitted)
  }

  lemma {:induction false} PassIsRunStage<S>(stage: Stage<S>, start: S, meter: Snapshot, frames: seq<MediaBuffer>)
    ensures var p := RunPass(stage, start, meter, frames);
            var r := RunStage(stage, start, frames, []);
            && (p.result.Ok? <==> r.errors == 0)
            && (p.result.Ok? ==> p == Pass(r.state, MeterAfter(meter, frames, r), Ok(r.emitted)))
  {
    if frames != [] {
      var front := frames[..|frames| - 1];
      PassIsRunStage(stage, start, meter, front);
      var r := RunStage(stage, start, front, []);
      var reply := stage(r.state, frames[|frames| - 1]);
      if reply.result.Ok? {
        BytesConcat(r.emitted, reply.result.value);
      }
    }
  }

  lemma {:induction false} MetersAfterNothing<S>(stages: seq<Stage<S>>, states: seq<S>, meters: seq<Snapshot>)
    requires |states| == |meters| == |stages|
    ensures MetersAfter(stages, states, AdmitAll(|stages|), meters, []) == meters
  {
    if stages != [] {
      assert AdmitAll(|stages|)[1..] == AdmitAll(|stages[1..]|);
      MetersAfterNothing(stages[1..], states[1..], meters[1..]);
    }
  }

  /** Carrying one list through the stages succeeds exactly when no call fails, and then it is the chain. */
  lemma {:induction false} FromIsChain<S>(stages: seq<Stage<S>>, states: seq<S>, meters: seq<Snapshot>, current: seq<MediaBuffer>)
    requires |states| == |meters| == |stages|
    ensures var p := RunFrom(stages, states, meters, current);
            var all := AdmitAll(|stages|);
            var c := RunChain(stages, states, all, current);
            && (p.result.Ok? <==> c.errors == 0)
            && (p.result.Ok? ==> p == Progress(c.states, MetersAfter(stages, states, all, meters, current), Ok(c.out)))
  {
    if stages != [] {
      assert AdmitAll(|stages|)[1..] == AdmitAll(|stages[1..]|);
      PassIsRunStage(stages[0], states[0], meters[0], current);
      var p := RunPass(stages[0], states[0], meters[0], current);
      if p.result.Ok? {
        FromIsChain(stages[1..], states[1..], meters[1..], p.result.value);
        RunChainNothing(stages[1..], states[1..]);
        MetersAfterNothing(stages[1..], states[1..], meters[1..]);
      }
    }
  }

  lemma {:induction false} MetersAfterConcat<S>(stages: seq<Stage<S>>, states: seq<S>, meters: seq<Snapshot>,
                                                a: seq<MediaBuffer>, b: seq<MediaBuffer>)
    requires |states| == |meters| == |stages|
    ensures var all := AdmitAll(|stages|);
            MetersAfter(stages, states, all, meters, a + b)
            == MetersAfter(stages, RunChain(stages, states, all, a).states, all,
                           MetersAfter(stages, states, all, meters, a), b)
  {
    if stages != [] {
      assert AdmitAll(|stages|)[1..] == AdmitAll(|stages[1..]|);
      var first := RunStage(stages[0], states[0], a, []);
      var second := RunStage(stages[0], first.state, b, []);
      RunStageConcat(stages[0], states[0], a, b);
      BytesConcat(a, b);
      BytesConcat(first.emitted, second.emitted);
      assert MeterAfter(meters[0], a + b, RunStage(stages[0], states[0], a + b, []))
          == MeterAfter(MeterAfter(meters[0], a, first), b, second);
      MetersAfterConcat(stages[1..], states[1..], meters[1..], first.emitted, second.emitted);
    }
  }

  /** A batch succeeds exactly when the chain meets no failed call; then output, stage states and
      counters are all the chain's, although frames went through one at a time. */
  lemma {:induction false} BatchIsChain<S>(stages: seq<Stage<S>>, states: seq<S>, meters: seq<Snapshot>, frames: seq<MediaBuffer>)
    requires |states| == |meters| == |stages| > 0
    ensures var p := RunBatch(stages, states, meters, frames);
            var all := AdmitAll(|stages|);
            var c := RunChain(stages, states, all, frames);
            && (p.result.Ok? <==> c.errors == 0)
            && (p.result.Ok? ==> p == Progress(c.states, MetersAfter(stages, states, all, meters, frames), Ok(c.out)))
  {
    if frames == [] {
      RunChainNothing(stages, states);
      MetersAfterNothing(stages, states, meters);
    } else {
      var front, last := frames[..|frames| - 1], [frames[|frames| - 1]];
      assert frames == front + last;
      BatchIsChain(stages, states, meters, front);
      RunChainConcat(stages, states, front, last);
      var p := RunBatch(stages, states, meters, front);
      if p.result.Ok? {
        MetersAfterConcat(stages, states, meters, front, last);
        FromIsChain(stages, p.states, p.meters, last);
      }
    }
  }

  // ---- what a failure leaves behind ----

  /** A pass fails at the first call that does: up to there it is the stage's run, then the failed call's
      state stays, its frame counts as received and as nothing else, and its error is returned. */
  lemma {:induction false} PassFails<S>(stage: Stage<S>, start: S, meter: Snapshot, frames: seq<MediaBuffer>) returns (k: nat)
    requires RunPass(stage, start, meter, frames).result.Err?
    ensures k < |frames|
    ensures var done := RunStage(stage, start, frames[..k], []);
            var reply := stage(done.state, frames[k]);
            var before := MeterAfter(meter, frames[..k], done);
            && done.errors == 0 && reply.result.Err?
            && RunPass(stage, start, meter, frames)
               == Pass(reply.next,
                       before.(framesIn := before.framesIn + 1, bytesIn := before.bytesIn + |frames[k].data|),
                       Err(reply.result.error))
  {
    var last := |frames| - 1;
    var front := frames[..last];
    if RunPass(stage, start, meter, front).result.Err? {
      k := PassFails(stage, start, meter, front);
      assert front[..k] == frames[..k];
    } else {
      k := last;
      PassIsRunStage(stage, start, meter, front);
    }
  }

  /** Carrying a list through the stages fails at the first stage that does: those before it ran as the
      chain of themselves, those after it keep states and counters. */
  lemma {:induction false} FromFails<S>(stages: seq<Stage<S>>, states: seq<S>, meters: seq<Snapshot>, current: seq<MediaBuffer>)
    returns (i: nat)
    requires |states| == |meters| == |stages|
    requires RunFrom(stages, states, meters, current).result.Err?
    ensures i < |stages|
    ensures var all := AdmitAll(i);
            var done := RunChain(stages[..i], states[..i], all, current);
            var p := RunPass(stages[i], states[i], meters[i], done.out);
            && done.errors == 0 && p.result.Err?
            && RunFrom(stages, states, meters, current)
               == Progress(done.states + [p.state] + states[i + 1..],
                           MetersAfter(stages[..i], states[..i], all, meters[..i], current) + [p.meter] + meters[i + 1..],
                           p.result)
  {
    PassIsRunStage(stages[0], states[0], meters[0], current);
    var p := RunPass(stages[0], states[0], meters[0], current);
    if p.result.Err? {
      i := 0;
    } else {
      var j := FromFails(stages[1..], states[1..], meters[1..], p.result.value);
      i := j + 1;
      FirstOfChain(stages[..i], states[..i], meters[..i], current);
      assert stages[..i][1..] == stages[1..][..j] && states[..i][1..] == states[1..][..j] && meters[..i][1..] == meters[1..][..j];
      var done := RunChain(stages[1..][..j], states[1..][..j], AdmitAll(j), p.result.value);
      var counted := MetersAfter(stages[1..][..j], states[1..][..j], AdmitAll(j), meters[1..][..j], p.result.value);
      var last := RunPass(stages[i], states[i], meters[i], done.out);
      Join(p.state, done.states, last.state, states, i);
      Join(p.meter, counted, last.meter, meters, i);
    }
  }

  lemma FirstOfChain<S>(stages: seq<Stage<S>>, states: seq<S>, meters: seq<Snapshot>, current: seq<MediaBuffer>)
    requires |states| == |meters| == |stages| > 0
    ensures var r := RunStage(stages[0], states[0], current, []);
            var all, less := AdmitAll(|stages|), AdmitAll(|stages| - 1);
            var rest := RunChain(stages[1..], states[1..], less, r.emitted);
            && RunChain(stages, states, all, current)
               == ChainRun([r.state] + rest.states, rest.out, r.errors + rest.errors)
            && MetersAfter(stages, states, all, meters, current)
               == [MeterAfter(meters[0], current, r)] + MetersAfter(stages[1..], states[1..], less, meters[1..], r.emitted)
  {
    assert AdmitAll(|stages|)[1..] == AdmitAll(|stages| - 1);
  }

  lemma Join<T>(x: T, done: seq<T>, y: T, xs: seq<T>, i: nat)
    requires 0 < i < |xs|
    ensures [x] + (done + [y] + xs[1..][i..]) == ([x] + done) + [y] + xs[i + 1..]
  {
  }

  /** A batch fails at the first frame that does; what that frame left behind is what the batch leaves. */
  lemma {:induction false} BatchFails<S>(stages: seq<Stage<S>>, states: seq<S>, meters: seq<Snapshot>, frames: seq<MediaBuffer>)
    returns (k: nat)
    requires |states| == |meters| == |stages| > 0
    requires RunBatch(stages, states, meters, frames).result.Err?
    ensures k < |frames|
    ensures var all := AdmitAll(|stages|);
            var done := RunChain(stages, states, all, frames[..k]);
            var p := RunFrom(stages, done.states, MetersAfter(stages, states, all, meters, frames[..k]), [frames[k]]);
            && done.errors == 0 && p.result.Err?
            && RunBatch(stages, states, meters, frames) == p
  {
    var last := |frames| - 1;
    var front := frames[..last];
    if RunBatch(stages, states, meters, front).result.Err? {
      k := BatchFails(stages, states, meters, front);
      assert front[..k] == frames[..k];
    } else {
      k := last;
      BatchIsChain(stages, states, meters, front);
    }
  }

  // ---- the ledger between neighbouring stages ----

  /** No stage was entered by more frames, or bytes, than its predecessor emitted. */
  predicate Ledger(meters: seq<Snapshot>) {
    |meters| >= 2 ==>
      && meters[0].framesOut >= meters[1].framesIn
      && meters[0].bytesOut >= meters[1].bytesIn
      && Ledger(meters[1..])
  }

  predicate ExactLedger(meters: seq<Snapshot>) {
    |meters| >= 2 ==>
      && meters[0].framesOut == meters[1].framesIn
      && meters[0].bytesOut == meters[1].bytesIn
      && ExactLedger(meters[1..])
  }

  lemma {:induction false} PassMeter<S>(stage: Stage<S>, start: S, meter: Snapshot, frames: seq<MediaBuffer>)
    ensures var p := RunPass(stage, start, meter, frames);
            && p.meter.framesIn <= meter.framesIn + |frames|
            && p.meter.bytesIn <= meter.bytesIn + Bytes(frames)
            && p.meter.framesOut >= meter.framesOut
            && p.meter.bytesOut >= meter.bytesOut
  {
    if frames != [] {
      PassMeter(stage, start, meter, frames[..|frames| - 1]);
    }
  }

  lemma {:induction false} FromKeepsLedger<S>(stages: seq<Stage<S>>, states: seq<S>, meters: seq<Snapshot>, current: seq<MediaBuffer>)
    requires |states| == |meters| == |stages|
    requires Ledger(meters)
    ensures var p := RunFrom(stages, states, meters, current);
            && Ledger(p.meters)
            && (stages != [] ==> p.meters[0].framesIn <= meters[0].framesIn + |current|
                                 && p.meters[0].bytesIn <= meters[0].bytesIn + Bytes(current))
            && (ExactLedger(meters) && p.result.Ok? ==>
                  ExactLedger(p.meters)
                  && (stages != [] ==> p.meters[0].framesIn == meters[0].framesIn + |current|
                                       && p.meters[0].bytesIn == meters[0].bytesIn + Bytes(current)))
  {
    if stages != [] {
      PassMeter(stages[0], states[0], meters[0], current);
      PassIsRunStage(stages[0], states[0], meters[0], current);
      var p := RunPass(stages[0], states[0], meters[0], current);
      var tail := meters[1..];
      if p.result.Ok? && p.result.value != [] {
        FromKeepsLedger(stages[1..], states[1..], tail, p.result.value);
      }
    }
  }

  /** A batch keeps the ledger whatever fails, and keeps it exact unless something fails. */
  lemma {:induction false} BatchKeepsLedger<S>(stages: seq<Stage<S>>, states: seq<S>, meters: seq<Snapshot>, frames: seq<MediaBuffer>)
    requires |states| == |meters| == |stages| > 0
    requires Ledger(meters)
    ensures var p := RunBatch(stages, states, meters, frames);
            && Ledger(p.meters)
            && (ExactLedger(meters) && p.result.Ok? ==> ExactLedger(p.meters))
  {
    if frames != [] {
      BatchKeepsLedger(stages, states, meters, frames[..|frames| - 1]);
      var p := RunBatch(stages, states, meters, frames[..|frames| - 1]);
      if p.result.Ok? {
        FromKeepsLedger(stages, p.states, p.meters, [frames[|frames| - 1]]);
      }
    }
  }
}
