/** Short runs that show what the load numbers of a stage do not mean. */
module StreamInstances {
  import opened Media
  import opened Metrics
  import opened Chain
  import opened Stream
  import opened StreamProgress

  /** Hands every frame on. */
  function Forward(state: int, frame: MediaBuffer): Reply<int> {
    Reply(state, Ok([frame]))
  }

  function Frame(): MediaBuffer {
    MediaBuffer(0, [7], [])
  }

  /** One such stage behind a queue of two, and a source of three frames of one byte. */
  function Three(): (job: Job<int>)
    ensures job.WellFormed()
  {
    Job([Forward], 2, [0], [ZERO], [[Frame(), Frame(), Frame()]])
  }

  function Frames(n: nat): (f: seq<MediaBuffer>)
    ensures |f| == n
  {
    seq(n, _ => Frame())
  }

  /** `rest` frames with the feeder, `waiting` in the queue. */
  predicate At(s: State<int>, rest: nat, waiting: nat, task: Task, meter: Snapshot) {
    && Shaped(Three(), s)
    && s.feeders[0] == Feeding(Frames(rest))
    && s.channels[0].queue == Frames(waiting)
    && s.tasks[0] == task
    && s.meters[0] == meter
  }

  lemma FeedOne(s: State<int>, rest: nat, waiting: nat, task: Task, meter: Snapshot)
    requires At(s, rest, waiting, task, meter) && rest > 0 && waiting < 2 && !task.Done?
    ensures Enabled(Three(), s, Feed(0))
    ensures At(Next(Three(), s, Feed(0)), rest - 1, waiting + 1, task, meter)
  {
    assert Frames(rest)[1..] == Frames(rest - 1);
    assert Frames(waiting) + [Frame()] == Frames(waiting + 1);
  }

  lemma ReceiveOne(s: State<int>, rest: nat, waiting: nat, meter: Snapshot)
    requires At(s, rest, waiting, Active([]), meter) && waiting > 0
    ensures Enabled(Three(), s, Receive(0))
    ensures At(Next(Three(), s, Receive(0)), rest, waiting - 1, Holding(Frame()), meter.RecordIn(1))
  {
    assert Frames(waiting)[1..] == Frames(waiting - 1);
  }

  lemma ShedOne(s: State<int>, rest: nat, waiting: nat, meter: Snapshot)
    requires At(s, rest, waiting, Holding(Frame()), meter)
    ensures Enabled(Three(), s, Work(0, ShedLoad))
    ensures At(Next(Three(), s, Work(0, ShedLoad)), rest, waiting, Active([]), meter.RecordOut(0, 0))
  {
  }

  /** One more step of a run. */
  lemma Then(run: seq<Event>, s: State<int>, e: Event) returns (run': seq<Event>, t: State<int>)
    requires Legal(Three(), Start(Three()), run) && s == After(Three(), Start(Three()), run)
    requires Enabled(Three(), s, e)
    ensures run' == run + [e] && Legal(Three(), Start(Three()), run')
    ensures t == Next(Three(), s, e) == After(Three(), Start(Three()), run')
  {
    Extend(Three(), Start(Three()), run, e);
    run', t := run + [e], Next(Three(), s, e);
  }

  /** The first frame is fed and received. */
  lemma FirstIsHeld() returns (run: seq<Event>, s: State<int>)
    ensures run == [Feed(0), Receive(0)]
    ensures Legal(Three(), Start(Three()), run) && s == After(Three(), Start(Three()), run)
    ensures At(s, 2, 0, Holding(Frame()), Snapshot(1, 0, 0, 1, 0))
  {
    run, s := [], Start(Three());
    assert [Frame(), Frame(), Frame()] == Frames(3);
    FeedOne(s, 3, 0, Active([]), ZERO);
    run, s := Then(run, s, Feed(0));
    ReceiveOne(s, 2, 1, ZERO);
    run, s := Then(run, s, Receive(0));
  }

  /** Two frames wait in the stage's queue, and at its policy decision the reported depth is 1. */
  lemma QueueIsNotSeen() returns (run: seq<Event>, s: State<int>)
    ensures run == [Feed(0), Receive(0), Feed(0), Feed(0)]
    ensures Legal(Three(), Start(Three()), run) && s == After(Three(), Start(Three()), run)
    ensures s.tasks[0] == Holding(Frame()) && |s.channels[0].queue| == 2
    ensures forall latencyMs :: s.meters[0].ToLoad(Three().capacity, latencyMs).queueDepth == 1
  {
    var m := Snapshot(1, 0, 0, 1, 0);
    run, s := FirstIsHeld();
    FeedOne(s, 2, 0, Holding(Frame()), m);
    run, s := Then(run, s, Feed(0));
    FeedOne(s, 1, 1, Holding(Frame()), m);
    run, s := Then(run, s, Feed(0));
  }

  /** One frame was shed, the stage holds another one of one byte, and is told that it retains two. */
  lemma ShedBytesStay() returns (run: seq<Event>, s: State<int>)
    ensures run == [Feed(0), Receive(0), Work(0, ShedLoad), Feed(0), Receive(0)]
    ensures Legal(Three(), Start(Three()), run) && s == After(Three(), Start(Three()), run)
    ensures s.tasks[0] == Holding(Frame()) && Frame().Len() == 1
    ensures forall latencyMs :: s.meters[0].ToLoad(Three().capacity, latencyMs).memoryBytes == 2
  {
    run, s := FirstIsHeld();
    ShedOne(s, 2, 0, Snapshot(1, 0, 0, 1, 0));
    run, s := Then(run, s, Work(0, ShedLoad));
    FeedOne(s, 2, 0, Active([]), Snapshot(1, 0, 1, 1, 0));
    run, s := Then(run, s, Feed(0));
    ReceiveOne(s, 1, 1, Snapshot(1, 0, 1, 1, 0));
    run, s := Then(run, s, Receive(0));
  }
}
