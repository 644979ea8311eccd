/** The streaming executor as a transition system: one concurrent loop per stage, one feeder per
    source, bounded channels between them, and the caller draining the last channel. A run is any
    interleaving of their steps. */
module Stream {
  import opened Media
  import opened Metrics
  import opened Chain

  /** What a run starts from: the pipeline, the states and counters its stages have so far, and the sources. */
  datatype Job<!S> = Job(stages: seq<Stage<S>>, capacity: nat, states: seq<S>, meters: seq<Snapshot>,
                         sources: seq<seq<MediaBuffer>>) {

    /** The builder refuses an empty pipeline and raises the capacity to one. */
    predicate WellFormed() {
      |stages| == |states| == |meters| && stages != [] && capacity >= 1
    }
  }

  /** `taken` is what the receiver has got so far, `queue` what is waiting in the channel. */
  datatype Channel = Channel(taken: seq<MediaBuffer>, queue: seq<MediaBuffer>) {

    /** Everything ever sent. */
    function Log(): seq<MediaBuffer> {
      taken + queue
    }

    function Push(f: MediaBuffer): Channel {
      this.(queue := queue + [f])
    }

    function Pop(): Channel
      requires queue != []
    {
      Channel(taken + [queue[0]], queue[1..])
    }
  }

  datatype Feeder = Feeding(rest: seq<MediaBuffer>) | Finished {
    function Rest(): seq<MediaBuffer> {
      if Feeding? then rest else []
    }
  }

  /** A stage task sends what it still owes and then receives; holds a frame it has counted but not
      yet handled; or has left its loop. */
  datatype Task = Active(pending: seq<MediaBuffer>) | Holding(frame: MediaBuffer) | Done {
    function Pending(): seq<MediaBuffer> {
      if Active? then pending else []
    }
    function Held(): seq<MediaBuffer> {
      if Holding? then [frame] else []
    }
  }

  /** `origins` records which source each frame fed so far came from, `verdicts` which frames each
      stage's policy let through; nothing in the executor reads them. */
  datatype State<S> = State(
    feeders: seq<Feeder>, channels: seq<Channel>, tasks: seq<Task>, states: seq<S>, meters: seq<Snapshot>,
    output: seq<MediaBuffer>, returned: bool, origins: seq<nat>, verdicts: seq<seq<bool>>)

  datatype Event =
    | Feed(j: nat) | FeedFails(j: nat) | FeederEnds(j: nat)
    | Receive(i: nat) | Work(i: nat, decision: Decision) | Send(i: nat) | SendFails(i: nat) | Close(i: nat)
    | Drain | Return

  function Start<S>(job: Job<S>): State<S> {
    State(seq(|job.sources|, j requires 0 <= j < |job.sources| => Feeding(job.sources[j])),
          seq(|job.stages| + 1, _ => Channel([], [])),
          seq(|job.stages|, _ => Active([])),
          job.states, job.meters, [], false, [], seq(|job.stages|, _ => []))
  }

  predicate Shaped<S>(job: Job<S>, s: State<S>) {
    && job.WellFormed()
    && |s.feeders| == |job.sources|
    && |s.channels| == |job.stages| + 1
    && |s.tasks| == |s.states| == |s.meters| == |s.verdicts| == |job.stages|
  }

  /** Channel `c` has no sender left: all feeders ended, or the stage before it did. */
  predicate Closed<S>(job: Job<S>, s: State<S>, c: nat)
    requires Shaped(job, s) && c <= |job.stages|
  {
    if c == 0 then forall j :: 0 <= j < |s.feeders| ==> s.feeders[j].Finished? else s.tasks[c - 1].Done?
  }

  predicate ReceiverGone<S>(job: Job<S>, s: State<S>, c: nat)
    requires Shaped(job, s) && c <= |job.stages|
  {
    if c == |job.stages| then s.returned else s.tasks[c].Done?
  }

  predicate HasRoom<S>(job: Job<S>, s: State<S>, c: nat)
    requires Shaped(job, s) && c <= |job.stages|
  {
    |s.channels[c].queue| < job.capacity
  }

  predicate Enabled<S>(job: Job<S>, s: State<S>, e: Event)
    requires Shaped(job, s)
  {
    var n := |job.stages|;
    match e
    case Feed(j) =>
      j < |s.feeders| && s.feeders[j].Rest() != [] && !ReceiverGone(job, s, 0) && HasRoom(job, s, 0)
    case FeedFails(j) => j < |s.feeders| && s.feeders[j].Rest() != [] && ReceiverGone(job, s, 0)
    case FeederEnds(j) => j < |s.feeders| && s.feeders[j] == Feeding([])
    case Receive(i) => i < n && s.tasks[i] == Active([]) && s.channels[i].queue != []
    case Work(i, _) => i < n && s.tasks[i].Holding?
    case Send(i) => i < n && s.tasks[i].Pending() != [] && !ReceiverGone(job, s, i + 1) && HasRoom(job, s, i + 1)
    case SendFails(i) => i < n && s.tasks[i].Pending() != [] && ReceiverGone(job, s, i + 1)
    case Close(i) => i < n && s.tasks[i] == Active([]) && s.channels[i].queue == [] && Closed(job, s, i)
    case Drain => !s.returned && s.channels[n].queue != []
    case Return => !s.returned && s.channels[n].queue == [] && Closed(job, s, n)
  }

  /** Stage `i` handles the frame it holds. `Pause` only delays: the frame is then processed. */
  function Handle<S>(job: Job<S>, s: State<S>, i: nat, decision: Decision): State<S>
    requires Shaped(job, s) && i < |job.stages| && s.tasks[i].Holding?
  {
    var admitted := decision != ShedLoad;
    var noted := s.(verdicts := s.verdicts[i := s.verdicts[i] + [admitted]]);
    if !admitted then
      noted.(tasks := s.tasks[i := Active([])], meters := s.meters[i := s.meters[i].RecordOut(0, 0)])
    else
      var reply := job.stages[i](s.states[i], s.tasks[i].frame);
      var moved := noted.(states := s.states[i := reply.next]);
      match reply.result
      case Err(_) =>
        moved.(tasks := s.tasks[i := Active([])], meters := s.meters[i := s.meters[i].RecordOut(0, 0)])
      case Ok(made) =>
        moved.(tasks := s.tasks[i := Active(made)],
               meters := s.meters[i := s.meters[i].RecordOut(|made|, Bytes(made))])
  }

  function Next<S>(job: Job<S>, s: State<S>, e: Event): (t: State<S>)
    requires Shaped(job, s) && Enabled(job, s, e)
    ensures Shaped(job, t)
  {
    var n := |job.stages|;
    match e
    case Feed(j) =>
      var rest := s.feeders[j].rest;
      s.(feeders := s.feeders[j := Feeding(rest[1..])],
         channels := s.channels[0 := s.channels[0].Push(rest[0])],
         origins := s.origins + [j])
    case FeedFails(j) => s.(feeders := s.feeders[j := Finished])
    case FeederEnds(j) => s.(feeders := s.feeders[j := Finished])
    case Receive(i) =>
      var frame := s.channels[i].queue[0];
      s.(channels := s.channels[i := s.channels[i].Pop()],
         tasks := s.tasks[i := Holding(frame)],
         meters := s.meters[i := s.meters[i].RecordIn(frame.Len())])
    case Work(i, decision) => Handle(job, s, i, decision)
    case Send(i) =>
      var pending := s.tasks[i].pending;
      s.(tasks := s.tasks[i := Active(pending[1..])],
         channels := s.channels[i + 1 := s.channels[i + 1].Push(pending[0])])
    case SendFails(i) => s.(tasks := s.tasks[i := Done])
    case Close(i) => s.(tasks := s.tasks[i := Done])
    case Drain =>
      s.(channels := s.channels[n := s.channels[n].Pop()], output := s.output + [s.channels[n].queue[0]])
    case Return => s.(returned := true)
  }

  /** `run` can be taken, step by step, from `s`. */
  predicate Legal<S>(job: Job<S>, s: State<S>, run: seq<Event>)
    requires Shaped(job, s)
    decreases run
  {
    run != [] ==> Enabled(job, s, run[0]) && Legal(job, Next(job, s, run[0]), run[1..])
  }

  function After<S>(job: Job<S>, s: State<S>, run: seq<Event>): (t: State<S>)
    requires Shaped(job, s) && Legal(job, s, run)
    ensures Shaped(job, t)
    decreases run
  {
    if run == [] then s else After(job, Next(job, s, run[0]), run[1..])
  }

  /** The drain loop is over and every feeder and stage task has ended, so `run_to_vec` returns. */
  predicate Final<S>(job: Job<S>, s: State<S>)
    requires Shaped(job, s)
  {
    && s.returned
    && (forall j :: 0 <= j < |s.feeders| ==> s.feeders[j].Finished?)
    && (forall i :: 0 <= i < |s.tasks| ==> s.tasks[i].Done?)
  }

  /** A complete run of the job. */
  predicate Completes<S>(job: Job<S>, run: seq<Event>)
    requires job.WellFormed()
  {
    Legal(job, Start(job), run) && Final(job, After(job, Start(job), run))
  }

  /** No policy decision in the run shed a frame. */
  predicate NeverSheds(run: seq<Event>) {
    forall k :: 0 <= k < |run| && run[k].Work? ==> run[k].decision != ShedLoad
  }
}
