/** `run_to_vec` as a loop over single steps, with the scheduler and the policy as parameters. */
module StreamRun {
  import opened Media
  import opened Metrics
  import opened Chain
  import opened Stream
  import opened StreamFlow
  import opened StreamProgress
  import opened StreamTheorems

  /** Builds a job; an empty pipeline is refused, a capacity of zero is raised to one, and all counters are new. */
  function Build<S>(stages: seq<Stage<S>>, capacity: nat, states: seq<S>, sources: seq<seq<MediaBuffer>>): (r: Result<Job<S>>)
    requires |stages| == |states|
    ensures stages == [] ==> r == Err(EmptyPipeline)
    ensures stages != [] ==>
              && r.Ok? && r.value.WellFormed()
              && r.value.stages == stages && r.value.states == states && r.value.sources == sources
              && (forall i :: 0 <= i < |stages| ==> r.value.meters[i] == ZERO)
              && (capacity == 0 ==> r.value.capacity == 1) && (capacity > 0 ==> r.value.capacity == capacity)
  {
    if stages == [] then Err(EmptyPipeline)
    else Ok(Job(stages, Max(capacity, 1), states, seq(|stages|, _ => ZERO), sources))
  }

  /** Runs the job under any scheduler and policy: `schedule` proposes the next step from what has
      happened so far; a step that cannot be taken is replaced by one that can. The loop ends, and the
      result is the chain of the interleaved sources. */
  method RunToVec<S>(job: Job<S>, schedule: (seq<Event>, State<S>) -> Event)
    returns (r: Result<seq<MediaBuffer>>, end: State<S>, run: seq<Event>)
    requires |job.stages| == |job.states| == |job.meters| && job.capacity >= 1
    ensures job.stages == [] <==> r == Err(EmptyPipeline)
    ensures job.stages != [] ==>
              && Completes(job, run)
              && end == After(job, Start(job), run)
              && IsChainOf(job, end)
              && r == Ok(end.output)
              && |run| <= Bound(job)
  {
    end, run := Start(job), [];
    if job.stages == [] {
      return Err(EmptyPipeline), end, run;
    }
    StartInv(job);
    while !Final(job, end)
      invariant Inv(job, end) && Legal(job, Start(job), run) && end == After(job, Start(job), run)
      decreases Bound(job) - |run|
    {
      var e := schedule(run, end);
      if !Enabled(job, end, e) {
        e := SomeStep(job, end);
      }
      Extend(job, Start(job), run, e);
      KeepsInv(job, end, e);
      end, run := Next(job, end, e), run + [e];
      RunsAreBounded(job, run);
    }
    CompleteRunIsChain(job, run);
    RunsAreBounded(job, run);
    r := Ok(end.output);
  }
}
