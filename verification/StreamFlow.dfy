/** What every reachable state of the streaming executor looks like. */
module StreamFlow {
  import opened Media
  import opened Metrics
  import opened Chain
  import opened Stream

  // ---- muxing ----

  /** The frames of `merged` that came from source `j`, in order. */
  function Project(merged: seq<MediaBuffer>, origins: seq<nat>, j: nat): seq<MediaBuffer>
    requires |merged| == |origins|
  {
    if merged == [] then []
    else
      var last := |merged| - 1;
      Project(merged[..last], origins[..last], j) + (if origins[last] == j then [merged[last]] else [])
  }

  /** `merged` is an interleaving of the sources: every frame comes from one of them, and each
      source's frames are all there in their own order. */
  predicate Interleaves(merged: seq<MediaBuffer>, origins: seq<nat>, sources: seq<seq<MediaBuffer>>) {
    && |merged| == |origins|
    && (forall k :: 0 <= k < |origins| ==> origins[k] < |sources|)
    && (forall j :: 0 <= j < |sources| ==> Project(merged, origins, j) == sources[j])
  }

  /** What has been fed so far, continued by what each feeder still has, is the source. */
  predicate Muxed<S>(job: Job<S>, s: State<S>)
    requires Shaped(job, s)
  {
    var fed := s.channels[0].Log();
    && |fed| == |s.origins|
    && (forall k :: 0 <= k < |s.origins| ==> s.origins[k] < |job.sources|)
    && (forall j :: 0 <= j < |job.sources| ==> Project(fed, s.origins, j) + s.feeders[j].Rest() == job.sources[j])
  }

  // ---- one stage ----

  /** The frames stage `i` is through with: all it received but the one it may hold. */
  function Handled<S>(job: Job<S>, s: State<S>, i: nat): seq<MediaBuffer>
    requires Shaped(job, s) && i < |job.stages|
  {
    var taken := s.channels[i].taken;
    if s.tasks[i].Holding? && taken != [] then taken[..|taken| - 1] else taken
  }

  /** All that stage `i` did so far. */
  function Did<S>(job: Job<S>, s: State<S>, i: nat): StageRun<S>
    requires Shaped(job, s) && i < |job.stages|
  {
    RunStage(job.stages[i], job.states[i], Handled(job, s, i), s.verdicts[i])
  }

  /** Stage `i` has handled a prefix of what was sent to it, and all it emitted is in the next
      channel's log or still pending; its state and counters are those of that work. */
  ghost predicate StageFlow<S>(job: Job<S>, s: State<S>, i: nat)
    requires Shaped(job, s) && i < |job.stages|
  {
    var did := Did(job, s, i);
    && s.channels[i].taken == Handled(job, s, i) + s.tasks[i].Held()
    && |s.verdicts[i]| == |Handled(job, s, i)|
    && s.states[i] == did.state
    && s.channels[i + 1].Log() + s.tasks[i].Pending() == did.emitted
    && s.meters[i] == Snapshot(
         job.meters[i].framesIn + |s.channels[i].taken|,
         job.meters[i].framesOut + |did.emitted|,
         job.meters[i].framesDropped + did.empties,
         job.meters[i].bytesIn + Bytes(s.channels[i].taken),
         job.meters[i].bytesOut + Bytes(did.emitted))
  }

  ghost predicate Flow<S>(job: Job<S>, s: State<S>)
    requires Shaped(job, s)
  {
    && (forall i :: 0 <= i < |job.stages| ==> StageFlow(job, s, i))
    && s.output == s.channels[|job.stages|].taken
  }

  // ---- shutdown and capacity ----

  predicate Bounded<S>(job: Job<S>, s: State<S>)
    requires Shaped(job, s)
  {
    forall c :: 0 <= c < |s.channels| ==> |s.channels[c].queue| <= job.capacity
  }

  /** A receiver leaves only when nothing can come any more. */
  predicate Orderly<S>(job: Job<S>, s: State<S>)
    requires Shaped(job, s)
  {
    forall c :: 0 <= c <= |job.stages| && ReceiverGone(job, s, c) ==> Closed(job, s, c) && s.channels[c].queue == []
  }

  ghost predicate Inv<S>(job: Job<S>, s: State<S>) {
    Shaped(job, s) && Muxed(job, s) && Flow(job, s) && Bounded(job, s) && Orderly(job, s)
  }

  lemma StartInv<S>(job: Job<S>)
    requires job.WellFormed()
    ensures Inv(job, Start(job))
  {
  }

  // ---- each event keeps them ----

  lemma NobodyFails<S>(job: Job<S>, s: State<S>, e: Event)
    requires Inv(job, s) && Enabled(job, s, e)
    ensures !e.FeedFails? && !e.SendFails?
  {
  }

  lemma KeepsMuxed<S>(job: Job<S>, s: State<S>, e: Event)
    requires Shaped(job, s) && Muxed(job, s) && Enabled(job, s, e) && !e.FeedFails?
    ensures Muxed(job, Next(job, s, e))
  {
    if e.Feed? {
      FeedKeepsMuxed(job, s, e.j);
    } else {
      var t := Next(job, s, e);
      assert t.channels[0].Log() == s.channels[0].Log();
      assert t.origins == s.origins;
      assert forall k :: 0 <= k < |job.sources| ==> t.feeders[k].Rest() == s.feeders[k].Rest();
    }
  }

  lemma FeedKeepsMuxed<S>(job: Job<S>, s: State<S>, j: nat)
    requires Shaped(job, s) && Muxed(job, s) && Enabled(job, s, Feed(j))
    ensures Muxed(job, Next(job, s, Feed(j)))
  {
    var t := Next(job, s, Feed(j));
    var fed, f := s.channels[0].Log(), s.feeders[j].rest[0];
    var fed' := t.channels[0].Log();
    assert fed' == fed + [f];
    assert fed'[..|fed|] == fed && t.origins[..|fed|] == s.origins;
    forall k | 0 <= k < |job.sources|
      ensures Project(fed', t.origins, k) + t.feeders[k].Rest() == job.sources[k]
    {
      assert Project(fed, s.origins, k) + s.feeders[k].Rest() == job.sources[k];
      if k == j {
        assert [f] + s.feeders[j].rest[1..] == s.feeders[j].rest;
      }
    }
  }

  lemma KeepsBounded<S>(job: Job<S>, s: State<S>, e: Event)
    requires Shaped(job, s) && Bounded(job, s) && Enabled(job, s, e)
    ensures Bounded(job, Next(job, s, e))
  {
  }

  lemma KeepsOrderly<S>(job: Job<S>, s: State<S>, e: Event)
    requires Shaped(job, s) && Orderly(job, s) && Enabled(job, s, e)
    requires !e.FeedFails? && !e.SendFails?
    ensures Orderly(job, Next(job, s, e))
  {
    var t := Next(job, s, e);
    forall c: nat | c <= |job.stages| && ReceiverGone(job, t, c)
      ensures Closed(job, t, c) && t.channels[c].queue == []
    {
      StaysClosed(job, s, e, c);
      if ReceiverGone(job, s, c) {
        assert Closed(job, s, c);
      }
    }
  }

  /** A closed channel stays closed. */
  lemma StaysClosed<S>(job: Job<S>, s: State<S>, e: Event, c: nat)
    requires Shaped(job, s) && Enabled(job, s, e) && c <= |job.stages|
    ensures Closed(job, s, c) ==> Closed(job, Next(job, s, e), c)
  {
  }

  lemma KeepsFlow<S>(job: Job<S>, s: State<S>, e: Event)
    requires Shaped(job, s) && Flow(job, s) && Enabled(job, s, e) && !e.SendFails?
    ensures Flow(job, Next(job, s, e))
  {
    forall i: nat | i < |job.stages| ensures StageFlow(job, Next(job, s, e), i) {
      StageKeepsFlow(job, s, e, i);
    }
    KeepsOutput(job, s, e);
  }

  lemma KeepsOutput<S>(job: Job<S>, s: State<S>, e: Event)
    requires Shaped(job, s) && Enabled(job, s, e)
    requires s.output == s.channels[|job.stages|].taken
    ensures Next(job, s, e).output == Next(job, s, e).channels[|job.stages|].taken
  {
  }

  lemma StageKeepsFlow<S>(job: Job<S>, s: State<S>, e: Event, i: nat)
    requires Shaped(job, s) && Enabled(job, s, e) && !e.SendFails? && i < |job.stages| && StageFlow(job, s, i)
    ensures StageFlow(job, Next(job, s, e), i)
  {
    if e == Receive(i) {
      ReceiveKeepsFlow(job, s, i);
    } else if e == Send(i) {
      SendKeepsFlow(job, s, i);
    } else if e.Work? && e.i == i {
      WorkKeepsFlow(job, s, i, e.decision);
    } else {
      ElsewhereKeepsView(job, s, e, i);
      Untouched(job, s, Next(job, s, e), i);
    }
  }

  /** What stage `i` is concerned with, in two states. */
  ghost predicate SameView<S>(job: Job<S>, s: State<S>, t: State<S>, i: nat)
    requires Shaped(job, s) && Shaped(job, t) && i < |job.stages|
  {
    && t.channels[i].taken == s.channels[i].taken
    && t.channels[i + 1].Log() == s.channels[i + 1].Log()
    && t.tasks[i].Pending() == s.tasks[i].Pending()
    && t.tasks[i].Held() == s.tasks[i].Held()
    && t.states[i] == s.states[i]
    && t.meters[i] == s.meters[i]
    && t.verdicts[i] == s.verdicts[i]
  }

  lemma ElsewhereKeepsView<S>(job: Job<S>, s: State<S>, e: Event, i: nat)
    requires Shaped(job, s) && Enabled(job, s, e) && !e.SendFails? && i < |job.stages|
    requires e != Receive(i) && e != Send(i) && !(e.Work? && e.i == i)
    ensures SameView(job, s, Next(job, s, e), i)
  {
    var t := Next(job, s, e);
    match e
    case Drain => assert t.channels[|job.stages|].Log() == s.channels[|job.stages|].Log();
    case Receive(k) => assert t.channels[k].Log() == s.channels[k].Log();
    case Work(k, d) => HandlingElsewhere(job, s, k, d, i);
    case _ =>
  }

  lemma HandlingElsewhere<S>(job: Job<S>, s: State<S>, k: nat, d: Decision, i: nat)
    requires Shaped(job, s) && k < |job.stages| && s.tasks[k].Holding? && i < |job.stages| && i != k
    ensures SameView(job, s, Handle(job, s, k, d), i)
  {
  }

  /** Whatever does not change what `StageFlow` looks at. */
  lemma Untouched<S>(job: Job<S>, s: State<S>, t: State<S>, i: nat)
    requires Shaped(job, s) && Shaped(job, t) && i < |job.stages| && StageFlow(job, s, i)
    requires SameView(job, s, t, i)
    ensures StageFlow(job, t, i)
  {
  }

  lemma ReceiveKeepsFlow<S>(job: Job<S>, s: State<S>, i: nat)
    requires Shaped(job, s) && Enabled(job, s, Receive(i)) && StageFlow(job, s, i)
    ensures StageFlow(job, Next(job, s, Receive(i)), i)
  {
    var t := Next(job, s, Receive(i));
    var taken, taken' := s.channels[i].taken, t.channels[i].taken;
    assert taken'[..|taken'| - 1] == taken;
    assert Handled(job, t, i) == Handled(job, s, i);
  }

  lemma SendKeepsFlow<S>(job: Job<S>, s: State<S>, i: nat)
    requires Shaped(job, s) && Enabled(job, s, Send(i)) && StageFlow(job, s, i)
    ensures StageFlow(job, Next(job, s, Send(i)), i)
  {
    var t := Next(job, s, Send(i));
    assert t.channels[i + 1].Log() + t.tasks[i].Pending() == s.channels[i + 1].Log() + s.tasks[i].Pending();
    assert Handled(job, t, i) == Handled(job, s, i);
  }

  lemma WorkKeepsFlow<S>(job: Job<S>, s: State<S>, i: nat, d: Decision)
    requires Shaped(job, s) && Enabled(job, s, Work(i, d)) && StageFlow(job, s, i)
    ensures StageFlow(job, Next(job, s, Work(i, d)), i)
  {
    var was := Did(job, s, i);
    HandleIsMeet(job, s, i, d, was);
    WorkMeets(job, s, i, d);
    assert s.channels[i + 1].Log() + [] == s.channels[i + 1].Log();
  }

  /** The work done grows by exactly the held frame and its verdict. */
  lemma WorkMeets<S>(job: Job<S>, s: State<S>, i: nat, d: Decision)
    requires Shaped(job, s) && Enabled(job, s, Work(i, d)) && StageFlow(job, s, i)
    ensures var t := Next(job, s, Work(i, d));
            && t.tasks[i].Active?
            && t.channels == s.channels
            && Handled(job, t, i) == s.channels[i].taken
            && |t.verdicts[i]| == |s.channels[i].taken|
            && Did(job, t, i) == Meet(job.stages[i], Did(job, s, i), s.tasks[i].frame, d != ShedLoad)
  {
    var taken := s.channels[i].taken;
    var before := Handled(job, s, i);
    assert taken == before + [s.tasks[i].frame];
    assert taken[..|taken| - 1] == before;
    SameVerdicts(job.stages[i], job.states[i], before, s.verdicts[i], s.verdicts[i] + [d != ShedLoad]);
  }

  /** One handled frame moves state, emission and counters as `Meet` says. */
  lemma HandleIsMeet<S>(job: Job<S>, s: State<S>, i: nat, d: Decision, was: StageRun<S>)
    requires Shaped(job, s) && i < |job.stages| && s.tasks[i].Holding? && s.states[i] == was.state
    ensures var t := Handle(job, s, i, d);
            var now := Meet(job.stages[i], was, s.tasks[i].frame, d != ShedLoad);
            && t.channels == s.channels
            && t.tasks[i].Active?
            && t.states[i] == now.state
            && was.emitted + t.tasks[i].pending == now.emitted
            && t.meters[i].framesIn == s.meters[i].framesIn
            && t.meters[i].bytesIn == s.meters[i].bytesIn
            && t.meters[i].framesOut + |was.emitted| == s.meters[i].framesOut + |now.emitted|
            && t.meters[i].framesDropped + was.empties == s.meters[i].framesDropped + now.empties
            && t.meters[i].bytesOut + Bytes(was.emitted) == s.meters[i].bytesOut + Bytes(now.emitted)
  {
    if d != ShedLoad {
      var reply := job.stages[i](s.states[i], s.tasks[i].frame);
      if reply.result.Ok? {
        BytesConcat(was.emitted, reply.result.value);
      }
    }
  }

  lemma KeepsInv<S>(job: Job<S>, s: State<S>, e: Event)
    requires Inv(job, s) && Enabled(job, s, e)
    ensures Inv(job, Next(job, s, e))
  {
    NobodyFails(job, s, e);
    KeepsMuxed(job, s, e);
    KeepsFlow(job, s, e);
    KeepsBounded(job, s, e);
    KeepsOrderly(job, s, e);
  }

  /** Every state of every run is as described. */
  lemma {:induction false} RunKeepsInv<S>(job: Job<S>, s: State<S>, run: seq<Event>)
    requires Inv(job, s) && Legal(job, s, run)
    ensures Inv(job, After(job, s, run))
    decreases run
  {
    if run != [] {
      KeepsInv(job, s, run[0]);
      RunKeepsInv(job, Next(job, s, run[0]), run[1..]);
    }
  }
}
