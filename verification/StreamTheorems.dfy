/** What the streaming executor promises over whole runs. */
module StreamTheorems {
  import opened Media
  import opened Metrics
  import opened Chain
  import opened Pipeline
  import opened Stream
  import opened StreamFlow
  import opened StreamProgress

  // ---- the output ----

  lemma FinalChannels<S>(job: Job<S>, s: State<S>)
    requires Inv(job, s) && Final(job, s)
    ensures forall c :: 0 <= c <= |job.stages| ==> s.channels[c].queue == [] && s.channels[c].Log() == s.channels[c].taken
  {
  }

  /** At the end each stage has handled all it was sent, and all it emitted was received. */
  lemma FinalStage<S>(job: Job<S>, s: State<S>, i: nat)
    requires Inv(job, s) && Final(job, s) && i < |job.stages|
    ensures var r := RunStage(job.stages[i], job.states[i], s.channels[i].taken, s.verdicts[i]);
            && s.channels[i + 1].taken == r.emitted
            && s.states[i] == r.state
            && s.meters[i] == MeterAfter(job.meters[i], s.channels[i].taken, r)
            && |s.verdicts[i]| == |s.channels[i].taken|
  {
    FinalChannels(job, s);
    assert StageFlow(job, s, i);
    assert s.tasks[i].Done?;
    assert Handled(job, s, i) == s.channels[i].taken;
    assert s.channels[i + 1].Log() + [] == s.channels[i + 1].Log();
  }

  lemma {:induction false} FinalFrom<S>(job: Job<S>, s: State<S>, i: nat)
    requires Inv(job, s) && Final(job, s) && i <= |job.stages|
    ensures RunChain(job.stages[i..], job.states[i..], s.verdicts[i..], s.channels[i].taken).out == s.output
    ensures RunChain(job.stages[i..], job.states[i..], s.verdicts[i..], s.channels[i].taken).states == s.states[i..]
    ensures MetersAfter(job.stages[i..], job.states[i..], s.verdicts[i..], job.meters[i..], s.channels[i].taken) == s.meters[i..]
    decreases |job.stages| - i
  {
    if i < |job.stages| {
      FinalFrom(job, s, i + 1);
      FinalStage(job, s, i);
      assert job.stages[i..][1..] == job.stages[i + 1..];
      assert job.states[i..][1..] == job.states[i + 1..];
      assert job.meters[i..][1..] == job.meters[i + 1..];
      assert s.verdicts[i..][1..] == s.verdicts[i + 1..];
      assert s.states[i..] == [s.states[i]] + s.states[i + 1..];
      assert s.meters[i..] == [s.meters[i]] + s.meters[i + 1..];
    }
  }

  /** The frames that entered the first stage, in the order they did. */
  function Fed<S>(s: State<S>): seq<MediaBuffer>
    requires s.channels != []
  {
    s.channels[0].Log()
  }

  /** Every frame of the sources was fed once, each stage reached one verdict per frame it received, and
      output, stage states and counters are those of the chain under these verdicts. */
  ghost predicate IsChainOf<S>(job: Job<S>, s: State<S>)
    requires Shaped(job, s)
  {
    var chain := RunChain(job.stages, job.states, s.verdicts, Fed(s));
    && Interleaves(Fed(s), s.origins, job.sources)
    && (forall i :: 0 <= i < |job.stages| ==> |s.verdicts[i]| == |s.channels[i].taken|)
    && chain.out == s.output
    && chain.states == s.states
    && MetersAfter(job.stages, job.states, s.verdicts, job.meters, Fed(s)) == s.meters
  }

  lemma FinalIsChain<S>(job: Job<S>, s: State<S>)
    requires Inv(job, s) && Final(job, s)
    ensures IsChainOf(job, s)
  {
    FinalChannels(job, s);
    FinalFrom(job, s, 0);
    forall i: nat | i < |job.stages| ensures |s.verdicts[i]| == |s.channels[i].taken| {
      FinalStage(job, s, i);
    }
    assert job.stages[0..] == job.stages && job.states[0..] == job.states && job.meters[0..] == job.meters;
    assert s.verdicts[0..] == s.verdicts && s.states[0..] == s.states && s.meters[0..] == s.meters;
    forall j | 0 <= j < |job.sources| ensures Project(Fed(s), s.origins, j) == job.sources[j] {
      assert Project(Fed(s), s.origins, j) + s.feeders[j].Rest() == job.sources[j];
    }
  }

  /** Every complete run, under any schedule and any policy, interleaves the sources and puts the
      result through the chain, where the frames the policy shed or a stage failed on contribute
      nothing. Output, stage states and counters are all determined by that. */
  lemma CompleteRunIsChain<S>(job: Job<S>, run: seq<Event>)
    requires job.WellFormed() && Completes(job, run)
    ensures IsChainOf(job, After(job, Start(job), run))
    ensures forall c :: 0 <= c <= |job.stages| ==> After(job, Start(job), run).channels[c].queue == []
  {
    Reached(job, run);
    FinalChannels(job, After(job, Start(job), run));
    FinalIsChain(job, After(job, Start(job), run));
  }

  /** Schedules do not matter: complete runs that mux the sources in the same order, under policies
      that reached the same verdicts, agree on everything they leave behind and are equally long. */
  lemma ScheduleIndependence<S>(job: Job<S>, run1: seq<Event>, s1: State<S>, run2: seq<Event>, s2: State<S>)
    requires job.WellFormed() && Completes(job, run1) && Completes(job, run2)
    requires s1 == After(job, Start(job), run1) && s2 == After(job, Start(job), run2)
    requires s1.origins == s2.origins && s1.verdicts == s2.verdicts
    ensures s1 == s2 && |run1| == |run2|
  {
    Reached(job, run1);
    Reached(job, run2);
    FinalsAgree(job, s1, s2);
    StepsOfRun(job, run1);
    StepsOfRun(job, run2);
  }

  lemma FinalsAgree<S>(job: Job<S>, s1: State<S>, s2: State<S>)
    requires Inv(job, s1) && Final(job, s1) && Inv(job, s2) && Final(job, s2)
    requires s1.origins == s2.origins && s1.verdicts == s2.verdicts
    ensures s1 == s2
  {
    FinalIsChain(job, s1);
    FinalIsChain(job, s2);
    SameProjections(Fed(s1), Fed(s2), s1.origins);
    SameChannels(job, s1, s2, |job.stages|);
    assert s1.feeders == s2.feeders && s1.tasks == s2.tasks && s1.channels == s2.channels;
  }

  /** A merged list is determined by where its frames came from and by the sources. */
  lemma {:induction false} SameProjections(a: seq<MediaBuffer>, b: seq<MediaBuffer>, origins: seq<nat>)
    requires |a| == |b| == |origins|
    requires forall k :: 0 <= k < |origins| ==> Project(a, origins, origins[k]) == Project(b, origins, origins[k])
    ensures a == b
  {
    if a != [] {
      var last := |a| - 1;
      var o := origins[last];
      var pa, pb := Project(a[..last], origins[..last], o), Project(b[..last], origins[..last], o);
      assert pa + [a[last]] == Project(a, origins, o) == Project(b, origins, o) == pb + [b[last]];
      assert pa == (pa + [a[last]])[..|pa|] && pb == (pb + [b[last]])[..|pb|];
      forall k | 0 <= k < last
        ensures Project(a[..last], origins[..last], origins[k]) == Project(b[..last], origins[..last], origins[k])
      {
        var q := origins[k];
        assert Project(a, origins, q) == Project(b, origins, q);
        if q != o {
          var qa, qb := Project(a[..last], origins[..last], q), Project(b[..last], origins[..last], q);
          assert qa == qa + [] && qb == qb + [];
        }
      }
      SameProjections(a[..last], b[..last], origins[..last]);
      assert a == a[..last] + [a[last]] && b == b[..last] + [b[last]];
    }
  }

  lemma {:induction false} SameChannels<S>(job: Job<S>, s1: State<S>, s2: State<S>, c: nat)
    requires Inv(job, s1) && Final(job, s1) && Inv(job, s2) && Final(job, s2)
    requires Fed(s1) == Fed(s2) && s1.verdicts == s2.verdicts && c <= |job.stages|
    ensures forall b :: 0 <= b <= c ==> s1.channels[b] == s2.channels[b]
  {
    FinalChannels(job, s1);
    FinalChannels(job, s2);
    if c > 0 {
      SameChannels(job, s1, s2, c - 1);
      FinalStage(job, s1, c - 1);
      FinalStage(job, s2, c - 1);
    }
  }

  // ---- agreement with the sequential executor ----

  predicate NoneShed(verdicts: seq<seq<bool>>) {
    forall i, k :: 0 <= i < |verdicts| && 0 <= k < |verdicts[i]| ==> verdicts[i][k]
  }

  lemma StepShedsNothing<S>(job: Job<S>, s: State<S>, e: Event)
    requires Shaped(job, s) && Enabled(job, s, e) && NoneShed(s.verdicts)
    requires e.Work? ==> e.decision != ShedLoad
    ensures NoneShed(Next(job, s, e).verdicts)
  {
  }

  lemma {:induction false} NothingShed<S>(job: Job<S>, s: State<S>, run: seq<Event>)
    requires Shaped(job, s) && Legal(job, s, run) && NeverSheds(run) && NoneShed(s.verdicts)
    ensures NoneShed(After(job, s, run).verdicts)
    decreases run
  {
    if run != [] {
      StepShedsNothing(job, s, run[0]);
      NothingShed(job, Next(job, s, run[0]), run[1..]);
    }
  }

  /** Unless the policy sheds, the sequential executor accepts the muxed frames exactly when no stage
      call of the streaming run failed, and then both return the same frames in the same order and
      leave the same stage states and counters behind. Whatever fails, what the sequential executor
      returns for the frames before it is where the stream's output begins. */
  lemma AgreesWithSequential<S>(job: Job<S>, run: seq<Event>)
    requires job.WellFormed() && Completes(job, run) && NeverSheds(run)
    ensures var s := After(job, Start(job), run);
            var batch := RunBatch(job.stages, job.states, job.meters, Fed(s));
            && Interleaves(Fed(s), s.origins, job.sources)
            && (batch.result.Ok? <==> RunChain(job.stages, job.states, s.verdicts, Fed(s)).errors == 0)
            && (batch.result.Ok? ==> batch == Progress(s.states, s.meters, Ok(s.output)))
            && (forall k :: 0 <= k <= |Fed(s)| ==>
                  var front := RunBatch(job.stages, job.states, job.meters, Fed(s)[..k]);
                  front.result.Ok? ==> front.result.value <= s.output)
  {
    var s := After(job, Start(job), run);
    CompleteRunIsChain(job, run);
    NothingShed(job, Start(job), run);
    forall k | 0 <= k <= |Fed(s)| && RunBatch(job.stages, job.states, job.meters, Fed(s)[..k]).result.Ok?
      ensures RunBatch(job.stages, job.states, job.meters, Fed(s)[..k]).result.value
              <= RunChain(job.stages, job.states, AdmitAll(|job.stages|), Fed(s)).out
    {
      assert Fed(s) == Fed(s)[..k] + Fed(s)[k..];
      BatchBegins(job.stages, job.states, job.meters, Fed(s)[..k], Fed(s)[k..]);
    }
    RunChainAllAdmitted(job.stages, job.states, s.verdicts, Fed(s));
    MetersAllAdmitted(job.stages, job.states, s.verdicts, job.meters, Fed(s));
    BatchIsChain(job.stages, job.states, job.meters, Fed(s));
  }

  /** What a batch returns is where the chain's output for more frames begins. */
  lemma BatchBegins<S>(stages: seq<Stage<S>>, states: seq<S>, meters: seq<Snapshot>, a: seq<MediaBuffer>, b: seq<MediaBuffer>)
    requires |states| == |meters| == |stages| > 0
    requires RunBatch(stages, states, meters, a).result.Ok?
    ensures RunBatch(stages, states, meters, a).result.value <= RunChain(stages, states, AdmitAll(|stages|), a + b).out
  {
    BatchIsChain(stages, states, meters, a);
    RunChainConcat(stages, states, a, b);
  }

  lemma {:induction false} MetersAllAdmitted<S>(stages: seq<Stage<S>>, states: seq<S>, verdicts: seq<seq<bool>>,
                                                meters: seq<Snapshot>, frames: seq<MediaBuffer>)
    requires |states| == |verdicts| == |meters| == |stages|
    requires forall i, k :: 0 <= i < |verdicts| && 0 <= k < |verdicts[i]| ==> verdicts[i][k]
    ensures MetersAfter(stages, states, verdicts, meters, frames)
         == MetersAfter(stages, states, AdmitAll(|stages|), meters, frames)
  {
    if stages != [] {
      assert AdmitAll(|stages|)[1..] == AdmitAll(|stages[1..]|);
      SameVerdicts(stages[0], states[0], frames, verdicts[0], []);
      MetersAllAdmitted(stages[1..], states[1..], verdicts[1..], meters[1..],
                        RunStage(stages[0], states[0], frames, verdicts[0]).emitted);
    }
  }

  /** With one source the muxed frames are the source itself, whatever the schedule. */
  lemma OneSourceAgreesWithSequential<S>(job: Job<S>, run: seq<Event>)
    requires job.WellFormed() && |job.sources| == 1 && Completes(job, run) && NeverSheds(run)
    ensures var s := After(job, Start(job), run);
            var batch := RunBatch(job.stages, job.states, job.meters, job.sources[0]);
            && (batch.result.Ok? <==> RunChain(job.stages, job.states, s.verdicts, job.sources[0]).errors == 0)
            && (batch.result.Ok? ==> batch == Progress(s.states, s.meters, Ok(s.output)))
  {
    var s := After(job, Start(job), run);
    AgreesWithSequential(job, run);
    ProjectAll(Fed(s), s.origins);
  }

  /** No call of any stage reports an error. */
  ghost predicate NeverFail<S(!new)>(stages: seq<Stage<S>>) {
    forall i, state, frame :: 0 <= i < |stages| ==> stages[i](state, frame).result.Ok?
  }

  lemma {:induction false} NoFailedCalls<S(!new)>(stage: Stage<S>, start: S, frames: seq<MediaBuffer>, verdicts: seq<bool>)
    requires forall state, frame :: stage(state, frame).result.Ok?
    ensures RunStage(stage, start, frames, verdicts).errors == 0
  {
    if frames != [] { NoFailedCalls(stage, start, frames[..|frames| - 1], verdicts); }
  }

  lemma {:induction false} NoFailedChain<S(!new)>(stages: seq<Stage<S>>, states: seq<S>, verdicts: seq<seq<bool>>,
                                                  frames: seq<MediaBuffer>)
    requires |states| == |verdicts| == |stages| && NeverFail(stages)
    ensures RunChain(stages, states, verdicts, frames).errors == 0
  {
    if stages != [] {
      NoFailedCalls(stages[0], states[0], frames, verdicts[0]);
      NoFailedChain(stages[1..], states[1..], verdicts[1..], RunStage(stages[0], states[0], frames, verdicts[0]).emitted);
    }
  }

  /** With stages that never fail and a policy that never sheds the executors agree outright. */
  lemma InfallibleStagesAgree<S(!new)>(job: Job<S>, run: seq<Event>)
    requires job.WellFormed() && Completes(job, run) && NeverSheds(run) && NeverFail(job.stages)
    ensures var s := After(job, Start(job), run);
            && RunBatch(job.stages, job.states, job.meters, Fed(s)) == Progress(s.states, s.meters, Ok(s.output))
            && (|job.sources| == 1 ==> Fed(s) == job.sources[0])
  {
    var s := After(job, Start(job), run);
    AgreesWithSequential(job, run);
    NoFailedChain(job.stages, job.states, s.verdicts, Fed(s));
    if |job.sources| == 1 { ProjectAll(Fed(s), s.origins); }
  }

  lemma {:induction false} ProjectAll(merged: seq<MediaBuffer>, origins: seq<nat>)
    requires |merged| == |origins| && forall k :: 0 <= k < |origins| ==> origins[k] == 0
    ensures Project(merged, origins, 0) == merged
  {
    if merged != [] {
      ProjectAll(merged[..|merged| - 1], origins[..|merged| - 1]);
    }
  }

  // ---- the ledger ----

  /** In every reachable state what stage `i` emitted is what stage `i + 1` received, what waits between
      them and what stage `i` still has to send; bytes likewise. */
  lemma LedgerBetween<S>(job: Job<S>, run: seq<Event>, i: nat)
    requires job.WellFormed() && Legal(job, Start(job), run) && i + 1 < |job.stages|
    ensures var s := After(job, Start(job), run);
            var waiting := s.channels[i + 1].queue + s.tasks[i].Pending();
            && s.meters[i].framesOut - job.meters[i].framesOut
               == s.meters[i + 1].framesIn - job.meters[i + 1].framesIn + |waiting|
            && s.meters[i].bytesOut - job.meters[i].bytesOut
               == s.meters[i + 1].bytesIn - job.meters[i + 1].bytesIn + Bytes(waiting)
            && (Final(job, s) ==> waiting == [])
  {
    Reached(job, run);
    NeighboursAdd(job, After(job, Start(job), run), i);
  }

  lemma NeighboursAdd<S>(job: Job<S>, s: State<S>, i: nat)
    requires Inv(job, s) && i + 1 < |job.stages|
    ensures var waiting := s.channels[i + 1].queue + s.tasks[i].Pending();
            && s.meters[i].framesOut - job.meters[i].framesOut
               == s.meters[i + 1].framesIn - job.meters[i + 1].framesIn + |waiting|
            && s.meters[i].bytesOut - job.meters[i].bytesOut
               == s.meters[i + 1].bytesIn - job.meters[i + 1].bytesIn + Bytes(waiting)
            && (Final(job, s) ==> waiting == [])
  {
    assert StageFlow(job, s, i) && StageFlow(job, s, i + 1);
    var waiting := s.channels[i + 1].queue + s.tasks[i].Pending();
    assert Did(job, s, i).emitted == s.channels[i + 1].taken + waiting;
    BytesConcat(s.channels[i + 1].taken, waiting);
    if Final(job, s) {
      FinalChannels(job, s);
    }
  }

  /** At the near end: what entered the first stage, what waits before it and what the feeders still
      have is what the sources gave. */
  lemma LedgerAtSources<S>(job: Job<S>, run: seq<Event>)
    requires job.WellFormed() && Legal(job, Start(job), run)
    ensures var s := After(job, Start(job), run);
            && s.meters[0].framesIn - job.meters[0].framesIn + |s.channels[0].queue| + Total(Rests(s)) == Total(job.sources)
            && (Final(job, s) ==> s.meters[0].framesIn == job.meters[0].framesIn + Total(job.sources))
  {
    Reached(job, run);
    SourcesAdd(job, After(job, Start(job), run));
  }

  lemma SourcesAdd<S>(job: Job<S>, s: State<S>)
    requires Inv(job, s)
    ensures s.meters[0].framesIn - job.meters[0].framesIn + |s.channels[0].queue| + Total(Rests(s)) == Total(job.sources)
    ensures Final(job, s) ==> s.meters[0].framesIn == job.meters[0].framesIn + Total(job.sources)
  {
    assert StageFlow(job, s, 0);
    SplitTotal(Fed(s), s.origins, job.sources, Rests(s));
    if Final(job, s) {
      FinalChannels(job, s);
      NoRests(Rests(s));
    }
  }

  /** At the far end: what left the last stage is the output and what is still on its way there. */
  lemma LedgerAtOutput<S>(job: Job<S>, run: seq<Event>)
    requires job.WellFormed() && Legal(job, Start(job), run)
    ensures var s := After(job, Start(job), run);
            var n := |job.stages|;
            && s.meters[n - 1].framesOut - job.meters[n - 1].framesOut
               == |s.output| + |s.channels[n].queue| + |s.tasks[n - 1].Pending()|
            && (Final(job, s) ==> s.meters[n - 1].framesOut == job.meters[n - 1].framesOut + |s.output|)
  {
    var s := After(job, Start(job), run);
    Reached(job, run);
    assert StageFlow(job, s, |job.stages| - 1);
    if Final(job, s) {
      FinalChannels(job, s);
    }
  }

  function Rests<S>(s: State<S>): (r: seq<seq<MediaBuffer>>)
    ensures |r| == |s.feeders|
  {
    seq(|s.feeders|, j requires 0 <= j < |s.feeders| => s.feeders[j].Rest())
  }

  lemma {:induction false} NoRests(rests: seq<seq<MediaBuffer>>)
    requires forall j :: 0 <= j < |rests| ==> rests[j] == []
    ensures Total(rests) == 0
  {
    if rests != [] { NoRests(rests[1..]); }
  }

  // ---- the load a policy sees ----

  /** Every handled frame is accounted for by what it emitted or by a drop; nothing is counted twice
      unless a call emitted more than one frame. */
  lemma {:induction false} HandledAreCounted<S>(stage: Stage<S>, start: S, frames: seq<MediaBuffer>, verdicts: seq<bool>)
    ensures var r := RunStage(stage, start, frames, verdicts);
            && |r.emitted| + r.empties >= |frames|
            && (|r.emitted| + r.empties == |frames| <==> r.widest <= 1)
  {
    if frames != [] {
      HandledAreCounted(stage, start, frames[..|frames| - 1], verdicts);
    }
  }

  /** Whenever a stage is about to ask the policy, the in-flight depth it reports is 1 if none of its
      calls in this run has emitted more than one frame, and 0 otherwise, whatever waits in its queue.
      So it is the length of the queue exactly when that happens to be this number. */
  lemma LoadAtDecision<S>(job: Job<S>, run: seq<Event>, i: nat, latencyMs: real)
    requires job.WellFormed() && Legal(job, Start(job), run) && i < |job.stages|
    requires job.meters[i].framesIn <= job.meters[i].framesOut + job.meters[i].framesDropped
    requires After(job, Start(job), run).tasks[i].Holding?
    ensures var s := After(job, Start(job), run);
            var load := s.meters[i].ToLoad(job.capacity, latencyMs);
            && load.queueDepth <= 1
            && load.dropped == job.meters[i].framesDropped + Did(job, s, i).empties
            && (job.meters[i].framesIn == job.meters[i].framesOut + job.meters[i].framesDropped ==>
                  && (load.queueDepth == 1 <==> Did(job, s, i).widest <= 1)
                  && (load.queueDepth == |s.channels[i].queue| <==>
                        |s.channels[i].queue| == if Did(job, s, i).widest <= 1 then 1 else 0))
  {
    var s := After(job, Start(job), run);
    Reached(job, run);
    assert StageFlow(job, s, i);
    HandledAreCounted(job.stages[i], job.states[i], Handled(job, s, i), s.verdicts[i]);
  }

  /** A complete run leaves every stage's counters fit for the next one. */
  lemma CountersStayBalanced<S>(job: Job<S>, run: seq<Event>, i: nat)
    requires job.WellFormed() && Completes(job, run) && i < |job.stages|
    requires job.meters[i].framesIn <= job.meters[i].framesOut + job.meters[i].framesDropped
    ensures var m := After(job, Start(job), run).meters[i]; m.framesIn <= m.framesOut + m.framesDropped
  {
    var s := After(job, Start(job), run);
    Reached(job, run);
    FinalStage(job, s, i);
    HandledAreCounted(job.stages[i], job.states[i], s.channels[i].taken, s.verdicts[i]);
  }

  /** The bytes stage `i` is through with, and those it has emitted, in this run and before. */
  function BytesThrough<S>(job: Job<S>, s: State<S>, i: nat): nat
    requires Shaped(job, s) && i < |job.stages|
  {
    job.meters[i].bytesIn + Bytes(Handled(job, s, i))
  }

  function BytesEmitted<S>(job: Job<S>, s: State<S>, i: nat): nat
    requires Shaped(job, s) && i < |job.stages|
  {
    job.meters[i].bytesOut + Bytes(Did(job, s, i).emitted)
  }

  lemma BytesSoFar<S>(job: Job<S>, s: State<S>, i: nat)
    requires Inv(job, s) && i < |job.stages|
    ensures s.meters[i].bytesIn == BytesThrough(job, s, i) + Bytes(s.tasks[i].Held())
    ensures s.meters[i].bytesIn == job.meters[i].bytesIn + Bytes(s.channels[i].taken)
    ensures s.meters[i].bytesOut == BytesEmitted(job, s, i)
  {
    assert StageFlow(job, s, i);
    BytesConcat(Handled(job, s, i), s.tasks[i].Held());
  }

  lemma GapIsHeld(handled: nat, emitted: nat, held: nat)
    ensures SaturatingSub(handled + held, emitted) == held <==> handled == emitted || (held == 0 && handled <= emitted)
  {
  }

  lemma ReportedBytes<S>(job: Job<S>, s: State<S>, i: nat, latencyMs: real)
    requires Inv(job, s) && i < |job.stages|
    ensures var reported := s.meters[i].ToLoad(job.capacity, latencyMs).memoryBytes;
            var held := Bytes(s.tasks[i].Held());
            && reported == SaturatingSub(job.meters[i].bytesIn + Bytes(s.channels[i].taken), BytesEmitted(job, s, i))
            && (reported == held <==>
                  || BytesThrough(job, s, i) == BytesEmitted(job, s, i)
                  || (held == 0 && BytesThrough(job, s, i) <= BytesEmitted(job, s, i)))
    ensures job.meters[i].bytesIn == job.meters[i].bytesOut && Did(job, s, i).emitted == [] ==>
              s.meters[i].ToLoad(job.capacity, latencyMs).memoryBytes == Bytes(s.channels[i].taken)
  {
    BytesSoFar(job, s, i);
    GapIsHeld(BytesThrough(job, s, i), BytesEmitted(job, s, i), Bytes(s.tasks[i].Held()));
  }

  /** What is reported as retained is all the bytes that came in less all that went out. That is the frame
      the stage holds, if any, exactly when it emitted as many bytes as it was through with; or, holding
      none, at least as many. The bytes of a dropped frame are never given back, so a stage that lost
      every frame still reports all of them. */
  lemma DroppedBytesStay<S>(job: Job<S>, run: seq<Event>, s: State<S>, i: nat, latencyMs: real)
    requires job.WellFormed() && Legal(job, Start(job), run) && s == After(job, Start(job), run)
    requires i < |job.stages|
    ensures var reported := s.meters[i].ToLoad(job.capacity, latencyMs).memoryBytes;
            var held := Bytes(s.tasks[i].Held());
            && reported == SaturatingSub(job.meters[i].bytesIn + Bytes(s.channels[i].taken), BytesEmitted(job, s, i))
            && (reported == held <==>
                  || BytesThrough(job, s, i) == BytesEmitted(job, s, i)
                  || (held == 0 && BytesThrough(job, s, i) <= BytesEmitted(job, s, i)))
    ensures job.meters[i].bytesIn == job.meters[i].bytesOut && Did(job, s, i).emitted == [] ==>
              s.meters[i].ToLoad(job.capacity, latencyMs).memoryBytes == Bytes(s.channels[i].taken)
  {
    Reached(job, run);
    ReportedBytes(job, s, i, latencyMs);
  }

  // ---- backpressure ----

  /** A sender waits exactly while the channel before it holds as many frames as its capacity; nothing
      else ever keeps a feeder or a stage from sending. */
  lemma OnlyFullBlocks<S>(job: Job<S>, run: seq<Event>, s: State<S>)
    requires job.WellFormed() && Legal(job, Start(job), run) && s == After(job, Start(job), run)
    ensures forall j :: 0 <= j < |s.feeders| && s.feeders[j].Rest() != [] ==>
              (Enabled(job, s, Feed(j)) <==> |s.channels[0].queue| != job.capacity)
    ensures forall i :: 0 <= i < |s.tasks| && s.tasks[i].Pending() != [] ==>
              (Enabled(job, s, Send(i)) <==> |s.channels[i + 1].queue| != job.capacity)
  {
    Reached(job, run);
    forall j: nat | j < |s.feeders| && s.feeders[j].Rest() != []
      ensures Enabled(job, s, Feed(j)) <==> |s.channels[0].queue| != job.capacity
    {
      FeedWaits(job, s, j);
    }
    forall i: nat | i < |s.tasks| && s.tasks[i].Pending() != []
      ensures Enabled(job, s, Send(i)) <==> |s.channels[i + 1].queue| != job.capacity
    {
      SendWaits(job, s, i);
    }
  }

  lemma FeedWaits<S>(job: Job<S>, s: State<S>, j: nat)
    requires Inv(job, s) && j < |s.feeders| && s.feeders[j].Rest() != []
    ensures Enabled(job, s, Feed(j)) <==> |s.channels[0].queue| != job.capacity
  {
    if Enabled(job, s, FeedFails(j)) { NobodyFails(job, s, FeedFails(j)); }
  }

  lemma SendWaits<S>(job: Job<S>, s: State<S>, i: nat)
    requires Inv(job, s) && i < |s.tasks| && s.tasks[i].Pending() != []
    ensures Enabled(job, s, Send(i)) <==> |s.channels[i + 1].queue| != job.capacity
  {
    if Enabled(job, s, SendFails(i)) { NobodyFails(job, s, SendFails(i)); }
  }

  /** A channel does take as many frames as its capacity before anyone receives. */
  lemma {:induction false} QueueFills<S>(job: Job<S>, j: nat, k: nat) returns (run: seq<Event>)
    requires job.WellFormed() && j < |job.sources| && k <= |job.sources[j]| && k <= job.capacity
    ensures Legal(job, Start(job), run)
    ensures var s := After(job, Start(job), run);
            s == Start(job).(feeders := s.feeders, channels := s.channels, origins := s.origins)
            && s.channels[0] == Channel([], job.sources[j][..k])
            && s.feeders[j] == Feeding(job.sources[j][k..])
  {
    if k == 0 {
      run := [];
    } else {
      var front := QueueFills(job, j, k - 1);
      var s := After(job, Start(job), front);
      Extend(job, Start(job), front, Feed(j));
      run := front + [Feed(j)];
    }
  }

  // ---- memory ----

  /** No call of any stage emits more than `k` frames. */
  ghost predicate FanOutAtMost<S(!new)>(job: Job<S>, k: nat) {
    forall i, state, frame :: 0 <= i < |job.stages| && job.stages[i](state, frame).result.Ok? ==>
      |job.stages[i](state, frame).result.value| <= k
  }

  lemma {:induction false} PendingAtMost<S(!new)>(job: Job<S>, s: State<S>, run: seq<Event>, k: nat)
    requires Shaped(job, s) && Legal(job, s, run) && FanOutAtMost(job, k)
    requires forall i :: 0 <= i < |s.tasks| ==> |s.tasks[i].Pending()| <= k
    ensures forall i :: 0 <= i < |job.stages| ==> |After(job, s, run).tasks[i].Pending()| <= k
    decreases run
  {
    if run != [] {
      StepPendingAtMost(job, s, run[0], k);
      PendingAtMost(job, Next(job, s, run[0]), run[1..], k);
    }
  }

  lemma StepPendingAtMost<S(!new)>(job: Job<S>, s: State<S>, e: Event, k: nat)
    requires Shaped(job, s) && Enabled(job, s, e) && FanOutAtMost(job, k)
    requires forall i :: 0 <= i < |s.tasks| ==> |s.tasks[i].Pending()| <= k
    ensures forall i :: 0 <= i < |job.stages| ==> |Next(job, s, e).tasks[i].Pending()| <= k
  {
  }

  /** Frames inside the pipeline: waiting in the channels up to number `c`, and with the stages before. */
  function Inside<S>(job: Job<S>, s: State<S>, c: nat): nat
    requires Shaped(job, s) && c <= |job.stages|
  {
    if c == 0 then |s.channels[0].queue|
    else Inside(job, s, c - 1) + |s.tasks[c - 1].Pending()| + |s.tasks[c - 1].Held()| + |s.channels[c].queue|
  }

  lemma {:induction false} InsideAtMost<S>(job: Job<S>, s: State<S>, c: nat, k: nat)
    requires Shaped(job, s) && Bounded(job, s) && c <= |job.stages|
    requires forall i :: 0 <= i < |job.stages| ==> |s.tasks[i].Pending()| <= k
    ensures Inside(job, s, c) <= (c + 1) * job.capacity + c * Max(1, k)
  {
    if c > 0 {
      InsideAtMost(job, s, c - 1, k);
      assert |s.tasks[c - 1].Pending()| + |s.tasks[c - 1].Held()| <= Max(1, k);
      OneMore(c, job.capacity, Max(1, k));
    }
  }

  lemma OneMore(c: int, capacity: int, m: int)
    ensures (c + 1) * capacity + c * m == (c * capacity + (c - 1) * m) + (capacity + m)
  {
  }

  /** The buffering budget holds in every reachable state, channel by channel and in total. */
  lemma MemoryBound<S(!new)>(job: Job<S>, run: seq<Event>, k: nat)
    requires job.WellFormed() && Legal(job, Start(job), run) && FanOutAtMost(job, k)
    ensures var s := After(job, Start(job), run);
            var n := |job.stages|;
            && (forall c :: 0 <= c <= n ==> |s.channels[c].queue| <= job.capacity)
            && Inside(job, s, n) <= (n + 1) * job.capacity + n * Max(1, k)
  {
    Reached(job, run);
    PendingAtMost(job, Start(job), run, k);
    InsideAtMost(job, After(job, Start(job), run), |job.stages|, k);
  }
}
