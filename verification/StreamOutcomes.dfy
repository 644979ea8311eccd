/** The converse: everything the theorems leave open can happen. Any interleaving of the sources and
    any verdicts of the policy are those of some complete run. */
module StreamOutcomes {
  import opened Media
  import opened Metrics
  import opened Chain
  import opened Pipeline
  import opened Stream
  import opened StreamFlow
  import opened StreamProgress
  import opened StreamTheorems

  /** A mux order and verdicts to be reached, and the frames in that order. */
  datatype Goal = Goal(merged: seq<MediaBuffer>, origins: seq<nat>, verdicts: seq<seq<bool>>)

  predicate Possible<S>(job: Job<S>, goal: Goal) {
    Interleaves(goal.merged, goal.origins, job.sources) && |goal.verdicts| == |job.stages|
  }

  /** So far the run has fed and decided as wanted. */
  predicate OnTrack<S>(job: Job<S>, s: State<S>, goal: Goal)
    requires Shaped(job, s) && |goal.verdicts| == |job.stages|
  {
    && s.origins <= goal.origins
    && forall i, k :: 0 <= i < |job.stages| && 0 <= k < |s.verdicts[i]| ==> s.verdicts[i][k] == Admitted(goal.verdicts[i], k)
  }

  function Count(origins: seq<nat>, j: nat): nat {
    if origins == [] then 0
    else Count(origins[..|origins| - 1], j) + Bit(origins[|origins| - 1] == j)
  }

  lemma {:induction false} ProjectLength(merged: seq<MediaBuffer>, origins: seq<nat>, j: nat)
    requires |merged| == |origins|
    ensures |Project(merged, origins, j)| == Count(origins, j)
  {
    if merged != [] { ProjectLength(merged[..|merged| - 1], origins[..|merged| - 1], j); }
  }

  /** A proper prefix misses at least its next element. */
  lemma {:induction false} CountNext(origins: seq<nat>, k: nat)
    requires k < |origins|
    ensures Count(origins[..k], origins[k]) < Count(origins, origins[k])
    ensures forall j :: Count(origins[..k], j) <= Count(origins, j)
  {
    var last := |origins| - 1;
    if k < last {
      CountNext(origins[..last], k);
      assert origins[..last][..k] == origins[..k];
    }
  }

  /** The next wanted frame is still with its feeder. */
  lemma NextIsThere<S>(job: Job<S>, s: State<S>, goal: Goal)
    requires Inv(job, s) && Possible(job, goal) && OnTrack(job, s, goal) && |s.origins| < |goal.origins|
    ensures var j := goal.origins[|s.origins|];
            && j < |s.feeders| && s.feeders[j].Rest() != [] && !ReceiverGone(job, s, 0)
  {
    var k := |s.origins|;
    var j := goal.origins[k];
    CountNext(goal.origins, k);
    ProjectLength(goal.merged, goal.origins, j);
    ProjectLength(Fed(s), s.origins, j);
    assert s.origins == goal.origins[..k];
    assert Project(Fed(s), s.origins, j) + s.feeders[j].Rest() == job.sources[j] == Project(goal.merged, goal.origins, j);
  }

  /** Once all wanted frames are fed, all frames are. */
  lemma NothingElseToFeed<S>(job: Job<S>, s: State<S>, goal: Goal)
    requires Inv(job, s) && Possible(job, goal) && OnTrack(job, s, goal)
    ensures |s.origins| == |goal.origins| <==> forall j :: 0 <= j < |s.feeders| ==> s.feeders[j].Rest() == []
  {
    var none: seq<seq<MediaBuffer>> := seq(|job.sources|, _ => []);
    SplitTotal(Fed(s), s.origins, job.sources, Rests(s));
    forall j | 0 <= j < |job.sources| ensures Project(goal.merged, goal.origins, j) + none[j] == job.sources[j] {
    }
    SplitTotal(goal.merged, goal.origins, job.sources, none);
    NoRests(none);
    TotalZero(Rests(s));
  }

  lemma {:induction false} TotalZero(rests: seq<seq<MediaBuffer>>)
    ensures Total(rests) == 0 <==> forall j :: 0 <= j < |rests| ==> rests[j] == []
  {
    if rests != [] { TotalZero(rests[1..]); }
  }

  /** A step that keeps on track. */
  function Steer<S>(job: Job<S>, s: State<S>, goal: Goal): (e: Event)
    requires Inv(job, s) && !Final(job, s) && Possible(job, goal) && OnTrack(job, s, goal)
    ensures Enabled(job, s, e)
    ensures e.Feed? ==> |s.origins| < |goal.origins| && e.j == goal.origins[|s.origins|]
    ensures e.Work? ==> e.i < |job.stages| && (e.decision != ShedLoad <==> Admitted(goal.verdicts[e.i], |s.verdicts[e.i]|))
  {
    if |s.origins| < |goal.origins| && HasRoom(job, s, 0) then
      NextIsThere(job, s, goal);
      Feed(goal.origins[|s.origins|])
    else
      NothingElseToFeed(job, s, goal);
      var e := SomeStep(job, s);
      if e.Work? then Work(e.i, if Admitted(goal.verdicts[e.i], |s.verdicts[e.i]|) then Proceed else ShedLoad) else e
  }

  lemma StaysOnTrack<S>(job: Job<S>, s: State<S>, goal: Goal, e: Event)
    requires Shaped(job, s) && Enabled(job, s, e) && |goal.verdicts| == |job.stages| && OnTrack(job, s, goal)
    requires e.Feed? ==> |s.origins| < |goal.origins| && e.j == goal.origins[|s.origins|]
    requires e.Work? ==> (e.decision != ShedLoad <==> Admitted(goal.verdicts[e.i], |s.verdicts[e.i]|))
    ensures OnTrack(job, Next(job, s, e), goal)
  {
  }

  lemma {:induction false} Complete<S>(job: Job<S>, goal: Goal, run: seq<Event>) returns (full: seq<Event>)
    requires job.WellFormed() && Possible(job, goal)
    requires Legal(job, Start(job), run) && OnTrack(job, After(job, Start(job), run), goal)
    ensures Completes(job, full) && OnTrack(job, After(job, Start(job), full), goal)
    decreases Bound(job) - |run|
  {
    var s := After(job, Start(job), run);
    Reached(job, run);
    if Final(job, s) {
      full := run;
    } else {
      var e := Steer(job, s, goal);
      StaysOnTrack(job, s, goal, e);
      Extend(job, Start(job), run, e);
      RunsAreBounded(job, run + [e]);
      full := Complete(job, goal, run + [e]);
    }
  }

  /** Verdicts asked for beyond the frames a stage receives make no difference. */
  lemma {:induction false} SameUnder<S>(job: Job<S>, s: State<S>, verdicts: seq<seq<bool>>, i: nat)
    requires Inv(job, s) && Final(job, s) && |verdicts| == |job.stages| && i <= |job.stages|
    requires forall c, k :: 0 <= c < |job.stages| && 0 <= k < |s.verdicts[c]| ==> s.verdicts[c][k] == Admitted(verdicts[c], k)
    ensures RunChain(job.stages[i..], job.states[i..], verdicts[i..], s.channels[i].taken)
         == RunChain(job.stages[i..], job.states[i..], s.verdicts[i..], s.channels[i].taken)
    ensures MetersAfter(job.stages[i..], job.states[i..], verdicts[i..], job.meters[i..], s.channels[i].taken)
         == MetersAfter(job.stages[i..], job.states[i..], s.verdicts[i..], job.meters[i..], s.channels[i].taken)
    decreases |job.stages| - i
  {
    if i < |job.stages| {
      SameUnder(job, s, verdicts, i + 1);
      FinalStage(job, s, i);
      SameVerdicts(job.stages[i], job.states[i], s.channels[i].taken, s.verdicts[i], verdicts[i]);
      assert job.stages[i..][1..] == job.stages[i + 1..];
      assert job.states[i..][1..] == job.states[i + 1..];
      assert job.meters[i..][1..] == job.meters[i + 1..];
      assert verdicts[i..][1..] == verdicts[i + 1..];
      assert s.verdicts[i..][1..] == s.verdicts[i + 1..];
    }
  }

  lemma GoalReached<S>(job: Job<S>, s: State<S>, goal: Goal)
    requires Inv(job, s) && Final(job, s) && Possible(job, goal) && OnTrack(job, s, goal)
    ensures s.origins == goal.origins && Fed(s) == goal.merged
    ensures RunChain(job.stages, job.states, goal.verdicts, goal.merged)
         == RunChain(job.stages, job.states, s.verdicts, Fed(s))
    ensures MetersAfter(job.stages, job.states, goal.verdicts, job.meters, goal.merged)
         == MetersAfter(job.stages, job.states, s.verdicts, job.meters, Fed(s))
  {
    NothingElseToFeed(job, s, goal);
    assert forall j :: 0 <= j < |s.feeders| ==> s.feeders[j].Rest() == [];
    assert s.origins == goal.origins;
    FinalIsChain(job, s);
    forall k | 0 <= k < |goal.origins|
      ensures Project(Fed(s), goal.origins, goal.origins[k]) == Project(goal.merged, goal.origins, goal.origins[k])
    {
      var j := goal.origins[k];
      assert j < |job.sources|;
      assert Project(Fed(s), s.origins, j) == job.sources[j];
    }
    SameProjections(Fed(s), goal.merged, goal.origins);
    FinalChannels(job, s);
    SameUnder(job, s, goal.verdicts, 0);
    assert job.stages[0..] == job.stages && job.states[0..] == job.states && job.meters[0..] == job.meters;
    assert goal.verdicts[0..] == goal.verdicts && s.verdicts[0..] == s.verdicts;
  }

  /** For every interleaving of the sources and every list of verdicts there is a complete run that fed the
      frames in this order, reached these verdicts on all frames that got to a stage, and left output, states
      and counters of the chain of exactly that. With `CompleteRunIsChain` this says precisely what can come out. */
  lemma EveryOutcomeHappens<S>(job: Job<S>, goal: Goal) returns (run: seq<Event>)
    requires job.WellFormed() && Possible(job, goal)
    ensures Completes(job, run)
    ensures var s := After(job, Start(job), run);
            var chain := RunChain(job.stages, job.states, goal.verdicts, goal.merged);
            && s.origins == goal.origins && Fed(s) == goal.merged
            && (forall i, k :: 0 <= i < |job.stages| && 0 <= k < |s.channels[i].taken| ==>
                  k < |s.verdicts[i]| && s.verdicts[i][k] == Admitted(goal.verdicts[i], k))
            && s.output == chain.out
            && s.states == chain.states
            && s.meters == MetersAfter(job.stages, job.states, goal.verdicts, job.meters, goal.merged)
  {
    run := Complete(job, goal, []);
    Reached(job, run);
    CompleteRunIsChain(job, run);
    GoalReached(job, After(job, Start(job), run), goal);
  }
}
