/** The sliding-window bitrate estimate and the ready-made real-time policy. */
module Realtime {
  import opened Media
  import opened Metrics
  import opened Stream
  import opened StreamFlow
  import opened StreamTheorems

  // ---- BitrateEstimator ----

  type Sample = (real, nat)

  function Sum(samples: seq<Sample>): nat {
    if samples == [] then 0 else samples[0].1 + Sum(samples[1..])
  }

  /** Samples leave at the front while they are older than `cutoff`. */
  function Evict(samples: seq<Sample>, cutoff: real): seq<Sample> {
    if samples != [] && samples[0].0 < cutoff then Evict(samples[1..], cutoff) else samples
  }

  /** The first sample not older stays, and all behind it, older or not. */
  lemma {:induction false} EvictsOldPrefix(samples: seq<Sample>, cutoff: real) returns (n: nat)
    ensures n <= |samples| && Evict(samples, cutoff) == samples[n..]
    ensures forall i :: 0 <= i < n ==> samples[i].0 < cutoff
    ensures n < |samples| ==> samples[n].0 >= cutoff
  {
    if samples != [] && samples[0].0 < cutoff {
      var m := EvictsOldPrefix(samples[1..], cutoff);
      n := m + 1;
    } else {
      n := 0;
    }
  }

  function RealMax(a: real, b: real): real {
    if a >= b then a else b
  }

  class BitrateEstimator {
    const windowSecs: real
    var samples: seq<Sample>
    var bytesInWindow: nat

    /** The running total is the sum of the window, and no sample is further behind the newest than
        the window is long. */
    predicate Valid()
      reads this
    {
      && windowSecs >= 0.001
      && bytesInWindow == Sum(samples)
      && (samples != [] ==> samples[0].0 >= samples[|samples| - 1].0 - windowSecs)
    }

    constructor (windowSecs: real)
      ensures Valid() && samples == []
      ensures this.windowSecs == RealMax(windowSecs, 0.001)
    {
      this.windowSecs := RealMax(windowSecs, 0.001);
      samples, bytesInWindow := [], 0;
    }

    /** Total, too: taking a sample's bytes off the total never goes below zero. */
    method Sample(tSecs: real, bytes: nat)
      requires Valid()
      modifies this
      ensures Valid()
      ensures samples == Evict(old(samples) + [(tSecs, bytes)], tSecs - windowSecs)
    {
      samples := samples + [(tSecs, bytes)];
      SumAppend(old(samples), (tSecs, bytes));
      bytesInWindow := bytesInWindow + bytes;
      var cutoff := tSecs - windowSecs;
      ghost var all := samples;
      while samples != [] && samples[0].0 < cutoff
        invariant samples != [] && samples[|samples| - 1] == (tSecs, bytes)
        invariant bytesInWindow == Sum(samples)
        invariant Evict(samples, cutoff) == Evict(all, cutoff)
        decreases |samples|
      {
        bytesInWindow := bytesInWindow - samples[0].1;
        samples := samples[1..];
      }
    }

    /** From the oldest sample held to the newest. */
    function Spanned(): real
      reads this
    {
      if samples == [] then 0.0 else samples[|samples| - 1].0 - samples[0].0
    }

    /** The code's divisor is the spanned time or the window, whichever is longer; the spanned time
        never is, so the estimate divides by the whole window from the first sample on. That is the rate
        over the spanned time only when the samples span the window, or have no bytes. */
    method BitsPerSec() returns (r: real)
      requires Valid()
      ensures r == if samples == [] then 0.0 else (bytesInWindow * 8) as real / windowSecs
      ensures Spanned() > 0.0 ==>
                (r == (bytesInWindow * 8) as real / Spanned() <==> Spanned() == windowSecs || bytesInWindow == 0)
    {
      if samples == [] {
        return 0.0;
      }
      var newest := samples[|samples| - 1].0;
      var oldest := samples[0].0;
      var span := RealMax(RealMax(newest - oldest, windowSecs), 0.000001);
      r := (bytesInWindow * 8) as real / span;
      if Spanned() > 0.0 { SameQuotient((bytesInWindow * 8) as real, windowSecs, Spanned()); }
    }
  }

  lemma SameQuotient(a: real, b: real, c: real)
    requires b > 0.0 && c > 0.0
    ensures a / b == a / c <==> a == 0.0 || b == c
  {
    assert (a / b) * b == a && (a / c) * c == a;
    if a / b == a / c {
      assert (a / b) * (b - c) == 0.0;
    }
  }

  /** Two samples half a second apart in a window of a second: the estimate is not taken over the spanned time. */
  method HalfFilledWindow() returns (r: real)
    ensures r == 1600.0 && r != (100 + 100) as real * 8.0 / (0.5 - 0.0)
  {
    var b := new BitrateEstimator(1.0);
    b.Sample(0.0, 100);
    assert b.samples == [(0.0, 100)];
    b.Sample(0.5, 100);
    assert b.samples == [(0.0, 100), (0.5, 100)];
    assert Sum(b.samples[1..]) == 100;
    r := b.BitsPerSec();
  }

  lemma {:induction false} SumAppend(samples: seq<Sample>, x: Sample)
    ensures Sum(samples + [x]) == Sum(samples) + x.1
  {
    if samples == [] {
      assert [x][1..] == [];
    } else {
      assert (samples + [x])[1..] == samples[1..] + [x];
      SumAppend(samples[1..], x);
    }
  }

  /** What the estimator holds after samples `xs`. */
  function SampleAll(window: real, xs: seq<Sample>): seq<Sample> {
    if xs == [] then []
    else
      var last := |xs| - 1;
      Evict(SampleAll(window, xs[..last]) + [xs[last]], xs[last].0 - window)
  }

  /** The samples not older than `cutoff`. */
  function Recent(xs: seq<Sample>, cutoff: real): seq<Sample> {
    if xs == [] then []
    else
      var last := |xs| - 1;
      Recent(xs[..last], cutoff) + (if xs[last].0 >= cutoff then [xs[last]] else [])
  }

  predicate NonDecreasing(xs: seq<Sample>) {
    forall i, j :: 0 <= i < j < |xs| ==> xs[i].0 <= xs[j].0
  }

  lemma {:induction false} AllRecent(xs: seq<Sample>, cutoff: real)
    requires forall i :: 0 <= i < |xs| ==> xs[i].0 >= cutoff
    ensures Recent(xs, cutoff) == xs
  {
    if xs != [] { AllRecent(xs[..|xs| - 1], cutoff); }
  }

  lemma {:induction false} RecentDropsFirst(xs: seq<Sample>, cutoff: real)
    requires xs != [] && xs[0].0 < cutoff
    ensures Recent(xs, cutoff) == Recent(xs[1..], cutoff)
  {
    if |xs| > 1 {
      assert xs[..|xs| - 1][1..] == xs[1..][..|xs| - 2];
      RecentDropsFirst(xs[..|xs| - 1], cutoff);
    } else {
      assert xs[..0] == [] && xs[1..] == [];
    }
  }

  lemma {:induction false} EvictIsRecent(xs: seq<Sample>, cutoff: real)
    requires NonDecreasing(xs)
    ensures Evict(xs, cutoff) == Recent(xs, cutoff)
  {
    if xs != [] {
      if xs[0].0 < cutoff {
        EvictIsRecent(xs[1..], cutoff);
        RecentDropsFirst(xs, cutoff);
      } else {
        AllRecent(xs, cutoff);
      }
    }
  }

  lemma {:induction false} RecentTwice(xs: seq<Sample>, early: real, late: real)
    requires early <= late
    ensures Recent(Recent(xs, early), late) == Recent(xs, late)
  {
    if xs != [] {
      var last := |xs| - 1;
      RecentTwice(xs[..last], early, late);
      var front := Recent(xs[..last], early);
      if xs[last].0 >= early {
        assert (front + [xs[last]])[..|front|] == front;
      } else {
        assert front + [] == front;
      }
    }
  }

  lemma {:induction false} RecentKeepsOrder(xs: seq<Sample>, cutoff: real)
    requires NonDecreasing(xs)
    ensures NonDecreasing(Recent(xs, cutoff))
    ensures forall i :: 0 <= i < |Recent(xs, cutoff)| ==> Recent(xs, cutoff)[i] in xs
  {
    if xs != [] {
      RecentKeepsOrder(xs[..|xs| - 1], cutoff);
    }
  }

  /** One more sample, and the window moves on to it. */
  lemma SlideWindow(xs: seq<Sample>, x: Sample, early: real, late: real)
    requires NonDecreasing(xs) && (forall i :: 0 <= i < |xs| ==> xs[i].0 <= x.0)
    requires early <= late <= x.0
    ensures Evict(Recent(xs, early) + [x], late) == Recent(xs, late) + [x]
  {
    var held := Recent(xs, early);
    RecentKeepsOrder(xs, early);
    EvictIsRecent(held + [x], late);
    assert (held + [x])[..|held|] == held;
    RecentTwice(xs, early, late);
  }

  /** With the monotonic clock the caller is asked for, the window holds exactly the samples ever
      recorded that are not older than the newest by more than its length. */
  lemma {:induction false} WindowIsExact(window: real, xs: seq<Sample>)
    requires NonDecreasing(xs) && xs != [] && window >= 0.001
    ensures SampleAll(window, xs) == Recent(xs, xs[|xs| - 1].0 - window)
  {
    var last := |xs| - 1;
    var front, x := xs[..last], xs[last];
    var cutoff := x.0 - window;
    if front == [] {
      assert SampleAll(window, front) + [x] == [x];
    } else {
      var early := front[last - 1].0 - window;
      WindowIsExact(window, front);
      SlideWindow(front, x, early, cutoff);
    }
  }

  // ---- RealtimePolicy ----

  datatype RealtimePolicy = RealtimePolicy(maxLatencyMs: real, shedQueueRatio: real) {
    function Decide(load: LoadMetrics): Decision {
      if load.latencyMs > maxLatencyMs || load.QueueDepthRatio() > shedQueueRatio then ShedLoad else Proceed
    }
  }

  function NewPolicy(maxLatencyMs: real, shedQueueRatio: real): (p: RealtimePolicy)
    ensures p.maxLatencyMs == maxLatencyMs
    ensures 0.0 <= p.shedQueueRatio <= 1.0
    ensures shedQueueRatio <= 0.0 ==> p.shedQueueRatio == 0.0
    ensures shedQueueRatio >= 1.0 ==> p.shedQueueRatio == 1.0
    ensures 0.0 <= shedQueueRatio <= 1.0 ==> p.shedQueueRatio == shedQueueRatio
  {
    RealtimePolicy(maxLatencyMs,
                   if shedQueueRatio < 0.0 then 0.0 else if shedQueueRatio > 1.0 then 1.0 else shedQueueRatio)
  }

  /** In a streaming run the policy's queue trigger does not see the queue: at every decision it sheds on
      account of latency, or else exactly when one frame alone exceeds the ratio of the capacity and the
      stage has not yet emitted two frames for one. */
  lemma ShedsRegardlessOfQueue<S>(job: Job<S>, run: seq<Event>, i: nat, latencyMs: real, policy: RealtimePolicy)
    requires job.WellFormed() && Legal(job, Start(job), run) && i < |job.stages|
    requires job.meters[i].framesIn == job.meters[i].framesOut + job.meters[i].framesDropped
    requires After(job, Start(job), run).tasks[i].Holding?
    requires 0.0 <= policy.shedQueueRatio <= 1.0
    ensures var s := After(job, Start(job), run);
            policy.Decide(s.meters[i].ToLoad(job.capacity, latencyMs)) == ShedLoad
            <==> || latencyMs > policy.maxLatencyMs
                 || (Did(job, s, i).widest <= 1 && 1.0 / Min(job.capacity, U32_MAX) as real > policy.shedQueueRatio)
  {
    LoadAtDecision(job, run, i, latencyMs);
  }

  lemma AtMostHalf(load: LoadMetrics)
    requires load.queueDepth <= 1 && load.queueCapacity >= 2
    ensures load.QueueDepthRatio() <= 0.5
  {
  }

  /** With the default ratio of 0.9 and room for two frames the queue never makes it shed. */
  lemma DefaultRatioNeverSheds<S>(job: Job<S>, run: seq<Event>, i: nat, latencyMs: real, policy: RealtimePolicy)
    requires job.WellFormed() && Legal(job, Start(job), run) && i < |job.stages|
    requires job.meters[i].framesIn <= job.meters[i].framesOut + job.meters[i].framesDropped
    requires After(job, Start(job), run).tasks[i].Holding?
    requires policy.shedQueueRatio == 0.9 && latencyMs <= policy.maxLatencyMs && job.capacity >= 2
    ensures policy.Decide(After(job, Start(job), run).meters[i].ToLoad(job.capacity, latencyMs)) == Proceed
  {
    LoadAtDecision(job, run, i, latencyMs);
    var load := After(job, Start(job), run).meters[i].ToLoad(job.capacity, latencyMs);
    AtMostHalf(load);
  }
}
