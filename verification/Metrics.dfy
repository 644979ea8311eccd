/** Per-stage counters and the load snapshot a backpressure policy reads. */
module Metrics {
  import opened Media

  /** One readout of a stage's counters. */
  datatype Snapshot = Snapshot(framesIn: nat, framesOut: nat, framesDropped: nat, bytesIn: nat, bytesOut: nat) {

    function RecordIn(bytes: nat): Snapshot {
      this.(framesIn := framesIn + 1, bytesIn := bytesIn + bytes)
    }

    /** `count` frames left the stage; none at all means the frame was dropped. */
    function RecordOut(count: nat, bytes: nat): Snapshot {
      if count == 0 then this.(framesDropped := framesDropped + 1)
      else this.(framesOut := framesOut + count, bytesOut := bytesOut + bytes)
    }

    /** The generic load numbers, with the caller's queue capacity filled in. */
    function ToLoad(capacity: nat, latencyMs: real): LoadMetrics {
      LoadMetrics(
        Min(SaturatingSub(SaturatingSub(framesIn, framesOut), framesDropped), U32_MAX),
        Min(capacity, U32_MAX),
        SaturatingSub(bytesIn, bytesOut),
        latencyMs,
        framesDropped)
    }
  }

  const ZERO := Snapshot(0, 0, 0, 0, 0)

  datatype LoadMetrics = LoadMetrics(
    queueDepth: nat, queueCapacity: nat, memoryBytes: nat, latencyMs: real, dropped: nat) {

    function QueueDepthRatio(): (r: real)
      ensures 0.0 <= r <= 1.0
      ensures r * queueCapacity as real == Min(queueDepth, queueCapacity) as real
      ensures queueCapacity == 0 ==> r == 0.0
    {
      if queueCapacity == 0 then 0.0
      else if queueDepth >= queueCapacity then 1.0
      else queueDepth as real / queueCapacity as real
    }
  }

  /** The depth makes up the difference between what came in and what is accounted for, as far as 32 bits can. */
  lemma DepthFillsTheGap(s: Snapshot, capacity: nat, latencyMs: real)
    ensures var load := s.ToLoad(capacity, latencyMs);
            var accounted := s.framesOut + s.framesDropped;
            && (accounted <= s.framesIn <= accounted + U32_MAX ==> load.queueDepth + accounted == s.framesIn)
            && (s.framesIn > accounted + U32_MAX ==> load.queueDepth == U32_MAX)
            && (s.framesIn <= accounted ==> load.queueDepth == 0)
            && (capacity <= U32_MAX ==> load.queueCapacity == capacity)
            && (capacity > U32_MAX ==> load.queueCapacity == U32_MAX)
  {
  }

  datatype Decision = Proceed | Pause | ShedLoad

  /** The live counters of one stage, updated in place as the pipeline runs. */
  class StageMetrics {
    var framesIn: nat
    var framesOut: nat
    var framesDropped: nat
    var bytesIn: nat
    var bytesOut: nat

    constructor ()
      ensures Read() == ZERO
    {
      framesIn, framesOut, framesDropped, bytesIn, bytesOut := 0, 0, 0, 0, 0;
    }

    function Read(): Snapshot
      reads this
    {
      Snapshot(framesIn, framesOut, framesDropped, bytesIn, bytesOut)
    }

    method RecordIn(bytes: nat)
      modifies this
      ensures Read() == old(Read()).RecordIn(bytes)
    {
      framesIn := framesIn + 1;
      bytesIn := bytesIn + bytes;
    }

    method RecordOut(count: nat, bytes: nat)
      modifies this
      ensures Read() == old(Read()).RecordOut(count, bytes)
      ensures count == 0 ==> Read() == old(Read()).(framesDropped := old(framesDropped) + 1)
      ensures count > 0 ==> Read() == old(Read()).(framesOut := old(framesOut) + count, bytesOut := old(bytesOut) + bytes)
    {
      if count == 0 {
        framesDropped := framesDropped + 1;
      } else {
        framesOut := framesOut + count;
        bytesOut := bytesOut + bytes;
      }
    }

    method Reset()
      modifies this
      ensures Read() == ZERO
    {
      framesIn, framesOut, framesDropped, bytesIn, bytesOut := 0, 0, 0, 0, 0;
    }
  }
}
