/** The streaming executor neither blocks nor runs for ever. */
module StreamProgress {
  import opened Media
  import opened Metrics
  import opened Chain
  import opened Stream
  import opened StreamFlow

  // ---- no deadlock ----

  function LiveFeeder(feeders: seq<Feeder>): (j: nat)
    requires exists k :: 0 <= k < |feeders| && feeders[k].Feeding?
    ensures j < |feeders| && feeders[j].Feeding?
  {
    if feeders[0].Feeding? then 0 else
      assert exists k :: 0 <= k < |feeders[1..]| && feeders[1..][k].Feeding? by {
        var k :| 0 <= k < |feeders| && feeders[k].Feeding?;
        assert feeders[1..][k - 1].Feeding?;
      }
      1 + LiveFeeder(feeders[1..])
  }

  /** Channel `c` is open, has room and a receiver: some step upstream of it can be taken. */
  function StepBefore<S>(job: Job<S>, s: State<S>, c: nat): (e: Event)
    requires Shaped(job, s) && c <= |job.stages|
    requires HasRoom(job, s, c) && !Closed(job, s, c) && !ReceiverGone(job, s, c)
    ensures Enabled(job, s, e)
    ensures e.Feed? && c > 0 ==> s.channels[0].queue == []
  {
    if c == 0 then
      var j := LiveFeeder(s.feeders);
      if s.feeders[j].rest == [] then FeederEnds(j) else Feed(j)
    else
      var i := c - 1;
      match s.tasks[i]
      case Holding(_) => Work(i, Proceed)
      case Active(pending) =>
        if pending != [] then Send(i)
        else if s.channels[i].queue != [] then Receive(i)
        else if Closed(job, s, i) then Close(i)
        else StepBefore(job, s, i)
  }

  /** Once the drain loop has seen the end of its channel, every task has ended. */
  lemma {:induction false} ReturnedIsFinal<S>(job: Job<S>, s: State<S>)
    requires Inv(job, s) && s.returned
    ensures Final(job, s)
  {
    AllEndedBefore(job, s, |job.stages|);
  }

  lemma {:induction false} AllEndedBefore<S>(job: Job<S>, s: State<S>, c: nat)
    requires Inv(job, s) && c <= |job.stages| && ReceiverGone(job, s, c)
    ensures forall j :: 0 <= j < |s.feeders| ==> s.feeders[j].Finished?
    ensures forall i :: 0 <= i < c ==> s.tasks[i].Done?
  {
    assert Closed(job, s, c);
    if c > 0 {
      AllEndedBefore(job, s, c - 1);
    }
  }

  /** Whatever has happened, a run that is not over can go on. */
  function SomeStep<S>(job: Job<S>, s: State<S>): (e: Event)
    requires Inv(job, s) && !Final(job, s)
    ensures Enabled(job, s, e)
    ensures e.Feed? ==> s.channels[0].queue == []
  {
    var n := |job.stages|;
    assert !s.returned by { if s.returned { ReturnedIsFinal(job, s); } }
    if s.channels[n].queue != [] then Drain
    else if Closed(job, s, n) then Return
    else StepBefore(job, s, n)
  }

  lemma {:induction false} Extend<S>(job: Job<S>, s: State<S>, run: seq<Event>, e: Event)
    requires Shaped(job, s) && Legal(job, s, run) && Enabled(job, After(job, s, run), e)
    ensures Legal(job, s, run + [e]) && After(job, s, run + [e]) == Next(job, After(job, s, run), e)
    decreases run
  {
    if run == [] {
      assert run + [e] == [e];
    } else {
      assert (run + [e])[1..] == run[1..] + [e];
      Extend(job, Next(job, s, run[0]), run[1..], e);
    }
  }

  // ---- every step is counted ----

  function Bit(b: bool): nat {
    if b then 1 else 0
  }

  function FinishedCount(feeders: seq<Feeder>): nat {
    if feeders == [] then 0
    else FinishedCount(feeders[..|feeders| - 1]) + Bit(feeders[|feeders| - 1].Finished?)
  }

  /** Receives, handlings, sends and close of one stage. */
  function StageWork<S>(s: State<S>, i: nat): nat
    requires i < |s.tasks| == |s.verdicts| && i + 1 < |s.channels|
  {
    |s.channels[i].taken| + |s.verdicts[i]| + |s.channels[i + 1].Log()| + Bit(s.tasks[i].Done?)
  }

  function StageSteps<S>(job: Job<S>, s: State<S>, m: nat): nat
    requires Shaped(job, s) && m <= |job.stages|
  {
    if m == 0 then 0 else StageSteps(job, s, m - 1) + StageWork(s, m - 1)
  }

  function Steps<S>(job: Job<S>, s: State<S>): nat
    requires Shaped(job, s)
  {
    |s.channels[0].Log()| + FinishedCount(s.feeders) + StageSteps(job, s, |job.stages|)
    + |s.channels[|job.stages|].taken| + Bit(s.returned)
  }

  lemma {:induction false} ReplaceFeeder(feeders: seq<Feeder>, j: nat, f: Feeder)
    requires j < |feeders| && feeders[j].Feeding?
    ensures FinishedCount(feeders[j := f]) == FinishedCount(feeders) + Bit(f.Finished?)
  {
    var last := |feeders| - 1;
    if j == last {
      assert feeders[j := f][..last] == feeders[..last];
    } else {
      assert feeders[j := f][..last] == feeders[..last][j := f];
      ReplaceFeeder(feeders[..last], j, f);
    }
  }

  lemma {:induction false} StageStepsGrow<S>(job: Job<S>, s: State<S>, e: Event, m: nat)
    requires Shaped(job, s) && Enabled(job, s, e) && m <= |job.stages|
    requires !e.FeedFails? && !e.SendFails?
    ensures var ofStage := e.Receive? || e.Work? || e.Send? || e.Close?;
            StageSteps(job, Next(job, s, e), m) == StageSteps(job, s, m) + Bit(ofStage && e.i < m)
  {
    if m > 0 {
      StageStepsGrow(job, s, e, m - 1);
      OneStageGrows(job, s, e, m - 1);
    }
  }

  lemma OneStageGrows<S>(job: Job<S>, s: State<S>, e: Event, i: nat)
    requires Shaped(job, s) && Enabled(job, s, e) && i < |job.stages|
    requires !e.FeedFails? && !e.SendFails?
    ensures var t := Next(job, s, e);
            var ofStage := e.Receive? || e.Work? || e.Send? || e.Close?;
            StageWork(t, i) == StageWork(s, i) + Bit(ofStage && e.i == i)
  {
    if e.Work? { WorkGrows(job, s, e.i, e.decision, i); }
  }

  lemma WorkGrows<S>(job: Job<S>, s: State<S>, k: nat, d: Decision, i: nat)
    requires Shaped(job, s) && Enabled(job, s, Work(k, d)) && i < |job.stages|
    ensures StageWork(Next(job, s, Work(k, d)), i) == StageWork(s, i) + Bit(k == i)
  {
  }

  lemma StepIsCounted<S>(job: Job<S>, s: State<S>, e: Event)
    requires Inv(job, s) && Enabled(job, s, e)
    ensures Steps(job, Next(job, s, e)) == Steps(job, s) + 1
  {
    NobodyFails(job, s, e);
    StageStepsGrow(job, s, e, |job.stages|);
    EndsGrow(job, s, e);
  }

  /** The steps that belong to no stage. */
  lemma EndsGrow<S>(job: Job<S>, s: State<S>, e: Event)
    requires Shaped(job, s) && Enabled(job, s, e) && !e.FeedFails? && !e.SendFails?
    ensures var t, n := Next(job, s, e), |job.stages|;
            |t.channels[0].Log()| + FinishedCount(t.feeders) + |t.channels[n].taken| + Bit(t.returned)
            == |s.channels[0].Log()| + FinishedCount(s.feeders) + |s.channels[n].taken| + Bit(s.returned)
               + Bit(e.Feed? || e.FeederEnds? || e.Drain? || e.Return?)
  {
    if e.Feed? || e.FeederEnds? {
      ReplaceFeeder(s.feeders, e.j, Next(job, s, e).feeders[e.j]);
    }
  }

  lemma {:induction false} NothingDoneYet<S>(job: Job<S>, m: nat, k: nat)
    requires job.WellFormed() && m <= |job.stages| && k <= |job.sources|
    ensures StageSteps(job, Start(job), m) == 0
    ensures FinishedCount(Start(job).feeders[..k]) == 0
    decreases m + k
  {
    if m > 0 { NothingDoneYet(job, m - 1, k); }
    if k > 0 {
      NothingDoneYet(job, m, k - 1);
      assert Start(job).feeders[..k][..k - 1] == Start(job).feeders[..k - 1];
    }
  }

  lemma {:induction false} RunIsCounted<S>(job: Job<S>, s: State<S>, run: seq<Event>)
    requires Inv(job, s) && Legal(job, s, run)
    ensures Steps(job, After(job, s, run)) == Steps(job, s) + |run|
    decreases run
  {
    if run != [] {
      StepIsCounted(job, s, run[0]);
      KeepsInv(job, s, run[0]);
      RunIsCounted(job, Next(job, s, run[0]), run[1..]);
    }
  }

  lemma Reached<S>(job: Job<S>, run: seq<Event>)
    requires job.WellFormed() && Legal(job, Start(job), run)
    ensures Inv(job, After(job, Start(job), run))
  {
    StartInv(job);
    RunKeepsInv(job, Start(job), run);
  }

  /** The counted steps of a reachable state are the steps of the run that led there. */
  lemma StepsOfRun<S>(job: Job<S>, run: seq<Event>)
    requires job.WellFormed() && Legal(job, Start(job), run)
    ensures Steps(job, After(job, Start(job), run)) == |run|
  {
    StartInv(job);
    NoStepYet(job);
    RunIsCounted(job, Start(job), run);
  }

  lemma NoStepYet<S>(job: Job<S>)
    requires job.WellFormed()
    ensures Steps(job, Start(job)) == 0
  {
    NothingDoneYet(job, |job.stages|, |job.sources|);
    assert Start(job).feeders[..|job.sources|] == Start(job).feeders;
  }

  /** No run of any job gets stuck before its end, and no send ever meets a closed channel. */
  lemma NoDeadlock<S>(job: Job<S>, run: seq<Event>)
    requires job.WellFormed() && Legal(job, Start(job), run)
    ensures var s := After(job, Start(job), run);
            && (Final(job, s) <==> !exists e :: Enabled(job, s, e))
            && (forall j :: !Enabled(job, s, FeedFails(j)))
            && (forall i :: !Enabled(job, s, SendFails(i)))
  {
    Reached(job, run);
    var s := After(job, Start(job), run);
    if !Final(job, s) {
      assert Enabled(job, s, SomeStep(job, s));
    } else {
      forall e ensures !Enabled(job, s, e) {
      }
    }
    forall j ensures !Enabled(job, s, FeedFails(j)) {
      if Enabled(job, s, FeedFails(j)) { NobodyFails(job, s, FeedFails(j)); }
    }
    forall i ensures !Enabled(job, s, SendFails(i)) {
      if Enabled(job, s, SendFails(i)) { NobodyFails(job, s, SendFails(i)); }
    }
  }

  // ---- and there are only so many ----

  /** All lists over `alphabet` of length at most `n`. */
  function Lists<T>(alphabet: set<T>, n: nat): (ls: set<seq<T>>) {
    if n == 0 then {[]}
    else Lists(alphabet, n - 1) + set w, x | w in Lists(alphabet, n - 1) && x in alphabet :: w + [x]
  }

  lemma {:induction false} InLists<T>(alphabet: set<T>, n: nat, w: seq<T>)
    requires |w| <= n && forall k :: 0 <= k < |w| ==> w[k] in alphabet
    ensures w in Lists(alphabet, n)
  {
    if n > 0 {
      if |w| < n {
        InLists(alphabet, n - 1, w);
      } else {
        var front := w[..|w| - 1];
        InLists(alphabet, n - 1, front);
        assert w == front + [w[|w| - 1]];
      }
    }
  }

  lemma {:induction false} OfLists<T>(alphabet: set<T>, n: nat, w: seq<T>)
    requires w in Lists(alphabet, n)
    ensures |w| <= n && forall k :: 0 <= k < |w| ==> w[k] in alphabet
  {
    if n > 0 && w !in Lists(alphabet, n - 1) {
      var v, x :| v in Lists(alphabet, n - 1) && x in alphabet && w == v + [x];
      OfLists(alphabet, n - 1, v);
    } else if n > 0 {
      OfLists(alphabet, n - 1, w);
    }
  }

  function Total(sources: seq<seq<MediaBuffer>>): nat {
    if sources == [] then 0 else |sources[0]| + Total(sources[1..])
  }

  function Alphabet(sources: seq<seq<MediaBuffer>>): set<MediaBuffer> {
    set j, k | 0 <= j < |sources| && 0 <= k < |sources[j]| :: sources[j][k]
  }

  function Prefixes(e: seq<MediaBuffer>): set<seq<MediaBuffer>> {
    {e} + if e == [] then {} else Prefixes(e[..|e| - 1])
  }

  lemma {:induction false} InPrefixes(e: seq<MediaBuffer>, x: seq<MediaBuffer>)
    ensures x in Prefixes(e) <==> x <= e
  {
    if e != [] {
      InPrefixes(e[..|e| - 1], x);
      assert x <= e[..|e| - 1] ==> x <= e;
      assert x <= e && x != e ==> x <= e[..|e| - 1];
    }
  }

  /** All that a stage may emit on `x` or a part of it, over all verdicts. */
  function Emissions<S>(stage: Stage<S>, start: S, x: seq<MediaBuffer>): set<seq<MediaBuffer>> {
    set v, y | v in Lists({false, true}, |x|) && y in Prefixes(RunStage(stage, start, x, v).emitted) :: y
  }

  function EmissionsOfAny<S>(stage: Stage<S>, start: S, inputs: set<seq<MediaBuffer>>): set<seq<MediaBuffer>> {
    set x, y | x in inputs && y in Emissions(stage, start, x) :: y
  }

  /** All that channel `c` can ever have carried, over all interleavings and all policy decisions. */
  function Expected<S>(job: Job<S>, c: nat): set<seq<MediaBuffer>>
    requires job.WellFormed() && c <= |job.stages|
  {
    if c == 0 then Lists(Alphabet(job.sources), Total(job.sources))
    else EmissionsOfAny(job.stages[c - 1], job.states[c - 1], Expected(job, c - 1))
  }

  lemma PrefixExpected<S>(job: Job<S>, c: nat, x: seq<MediaBuffer>, k: nat)
    requires job.WellFormed() && c <= |job.stages| && x in Expected(job, c) && k <= |x|
    ensures x[..k] in Expected(job, c)
  {
    if c == 0 {
      OfLists(Alphabet(job.sources), Total(job.sources), x);
      InLists(Alphabet(job.sources), Total(job.sources), x[..k]);
    } else {
      var stage, start := job.stages[c - 1], job.states[c - 1];
      var y :| y in Expected(job, c - 1) && x in Emissions(stage, start, y);
      var v :| v in Lists({false, true}, |y|) && x in Prefixes(RunStage(stage, start, y, v).emitted);
      InPrefixes(RunStage(stage, start, y, v).emitted, x);
      InPrefixes(RunStage(stage, start, y, v).emitted, x[..k]);
      assert x[..k] in Emissions(stage, start, y);
    }
  }

  lemma {:induction false} LogExpected<S>(job: Job<S>, s: State<S>, c: nat)
    requires Inv(job, s) && c <= |job.stages|
    ensures s.channels[c].Log() in Expected(job, c)
  {
    var log := s.channels[c].Log();
    if c == 0 {
      FedFromSources(job, s);
      InLists(Alphabet(job.sources), Total(job.sources), log);
    } else {
      var i := c - 1;
      assert StageFlow(job, s, i);
      LogExpected(job, s, i);
      var x := Handled(job, s, i);
      assert x == s.channels[i].Log()[..|x|];
      PrefixExpected(job, i, s.channels[i].Log(), |x|);
      forall k | 0 <= k < |s.verdicts[i]| ensures s.verdicts[i][k] in {false, true} {
        if s.verdicts[i][k] {}
      }
      InLists({false, true}, |x|, s.verdicts[i]);
      InPrefixes(Did(job, s, i).emitted, log);
      assert log in Emissions(job.stages[i], job.states[i], x);
    }
  }

  lemma FedFromSources<S>(job: Job<S>, s: State<S>)
    requires Inv(job, s)
    ensures var fed := s.channels[0].Log();
            && |fed| <= Total(job.sources)
            && forall k :: 0 <= k < |fed| ==> fed[k] in Alphabet(job.sources)
  {
    var fed := s.channels[0].Log();
    var rests := seq(|s.feeders|, j requires 0 <= j < |s.feeders| => s.feeders[j].Rest());
    SplitTotal(fed, s.origins, job.sources, rests);
    forall k | 0 <= k < |fed| ensures fed[k] in Alphabet(job.sources) {
      var j := s.origins[k];
      var m := ProjectHas(fed, s.origins, k);
      assert Project(fed, s.origins, j) + s.feeders[j].Rest() == job.sources[j];
      assert job.sources[j][m] == fed[k];
    }
  }

  /** Frame `k` is found in the projection on its own source. */
  lemma {:induction false} ProjectHas(merged: seq<MediaBuffer>, origins: seq<nat>, k: nat) returns (m: nat)
    requires |merged| == |origins| && k < |merged|
    ensures m < |Project(merged, origins, origins[k])| && Project(merged, origins, origins[k])[m] == merged[k]
  {
    var last := |merged| - 1;
    if k == last {
      m := |Project(merged[..last], origins[..last], origins[k])|;
    } else {
      m := ProjectHas(merged[..last], origins[..last], k);
    }
  }

  /** The projections partition the merged list. */
  lemma {:induction false} SplitTotal(merged: seq<MediaBuffer>, origins: seq<nat>, sources: seq<seq<MediaBuffer>>,
                                      rests: seq<seq<MediaBuffer>>)
    requires |merged| == |origins| && |rests| == |sources|
    requires forall k :: 0 <= k < |origins| ==> origins[k] < |sources|
    requires forall j :: 0 <= j < |sources| ==> Project(merged, origins, j) + rests[j] == sources[j]
    ensures Total(sources) == |merged| + Total(rests)
  {
    if merged == [] {
      assert forall j :: 0 <= j < |sources| ==> Project(merged, origins, j) == [] && [] + rests[j] == rests[j];
      assert sources == rests;
    } else {
      var last := |merged| - 1;
      var o, f := origins[last], merged[last];
      var more := rests[o := [f] + rests[o]];
      forall j | 0 <= j < |sources| ensures Project(merged[..last], origins[..last], j) + more[j] == sources[j] {
        assert Project(merged, origins, j) + rests[j] == sources[j];
      }
      SplitTotal(merged[..last], origins[..last], sources, more);
      TotalUpdate(rests, o, more[o]);
    }
  }

  lemma {:induction false} TotalUpdate(sources: seq<seq<MediaBuffer>>, j: nat, x: seq<MediaBuffer>)
    requires j < |sources|
    ensures Total(sources[j := x]) == Total(sources) - |sources[j]| + |x|
  {
    if j == 0 {
      assert sources[j := x][1..] == sources[1..];
    } else {
      assert sources[j := x][1..] == sources[1..][j - 1 := x];
      TotalUpdate(sources[1..], j - 1, x);
    }
  }

  ghost function Longest(lists: set<seq<MediaBuffer>>): (n: nat)
    ensures forall x :: x in lists ==> |x| <= n
  {
    if lists == {} then 0
    else
      var x :| x in lists;
      Max(|x|, Longest(lists - {x}))
  }

  /** The most each channel can carry. */
  ghost function Caps<S>(job: Job<S>): (caps: seq<nat>)
    requires job.WellFormed()
    ensures |caps| == |job.stages| + 1
    ensures forall c :: 0 <= c <= |job.stages| ==> caps[c] == Longest(Expected(job, c))
  {
    seq(|job.stages| + 1, c requires 0 <= c <= |job.stages| => Longest(Expected(job, c)))
  }

  function StageBound(caps: seq<nat>, m: nat): nat
    requires m < |caps|
  {
    if m == 0 then 0 else StageBound(caps, m - 1) + 2 * caps[m - 1] + caps[m] + 1
  }

  /** A number of steps fixed by the job alone, before any scheduling or policy decision is made. */
  ghost function Bound<S>(job: Job<S>): nat
    requires job.WellFormed()
  {
    var caps, n := Caps(job), |job.stages|;
    caps[0] + |job.sources| + StageBound(caps, n) + caps[n] + 1
  }

  lemma {:induction false} FinishedAtMost(feeders: seq<Feeder>)
    ensures FinishedCount(feeders) <= |feeders|
  {
    if feeders != [] { FinishedAtMost(feeders[..|feeders| - 1]); }
  }

  /** No channel has carried more than its cap, and no stage has handled more than it received. */
  ghost predicate WithinCaps<S>(job: Job<S>, s: State<S>, caps: seq<nat>)
    requires Shaped(job, s) && |caps| == |job.stages| + 1
  {
    && (forall c :: 0 <= c <= |job.stages| ==> |s.channels[c].Log()| <= caps[c])
    && (forall i :: 0 <= i < |job.stages| ==> |s.verdicts[i]| <= |s.channels[i].taken|)
  }

  lemma {:induction false} StageStepsBound<S>(job: Job<S>, s: State<S>, caps: seq<nat>, m: nat)
    requires Shaped(job, s) && |caps| == |job.stages| + 1 && m <= |job.stages|
    requires WithinCaps(job, s, caps)
    ensures StageSteps(job, s, m) <= StageBound(caps, m)
  {
    if m > 0 {
      StageStepsBound(job, s, caps, m - 1);
      assert |s.verdicts[m - 1]| <= |s.channels[m - 1].taken| <= |s.channels[m - 1].Log()| <= caps[m - 1];
    }
  }

  lemma ReachableWithinCaps<S>(job: Job<S>, s: State<S>)
    requires Inv(job, s)
    ensures WithinCaps(job, s, Caps(job))
  {
    forall c: nat | c <= |job.stages| ensures |s.channels[c].Log()| <= Caps(job)[c] {
      LogExpected(job, s, c);
    }
    forall i: nat | i < |job.stages| ensures |s.verdicts[i]| <= |s.channels[i].taken| {
      HandledAtMost(job, s, i);
    }
  }

  lemma HandledAtMost<S>(job: Job<S>, s: State<S>, i: nat)
    requires Shaped(job, s) && i < |job.stages| && StageFlow(job, s, i)
    ensures |s.verdicts[i]| <= |s.channels[i].taken|
  {
  }

  lemma StepsBound<S>(job: Job<S>, s: State<S>)
    requires Inv(job, s)
    ensures Steps(job, s) <= Bound(job)
  {
    ReachableWithinCaps(job, s);
    FinishedAtMost(s.feeders);
    StageStepsBound(job, s, Caps(job), |job.stages|);
  }

  /** Every run of a job, under every schedule and every policy, has at most `Bound(job)` steps. */
  lemma RunsAreBounded<S>(job: Job<S>, run: seq<Event>)
    requires job.WellFormed() && Legal(job, Start(job), run)
    ensures |run| <= Bound(job)
  {
    Reached(job, run);
    StepsOfRun(job, run);
    StepsBound(job, After(job, Start(job), run));
  }
}
