/** Audio/video clocks: a master, the streams that follow it, and how far apart they are. */
module Sync {
  import opened Media
  import opened Timebase

  const MAX_DRIFT_MS := 40

  /** A stream timestamp and a master timestamp, each in its own timebase. */
  datatype Clocks = Clocks(stream: Timebase, last: i64, master: Timebase, current: i64) {

    /** Timebases the source can divide by. */
    predicate Usable() {
      stream.den > 0 && master.num > 0 && master.den > 0
    }

    predicate Initialized() {
      last != I64_MIN && current != I64_MIN
    }

    /** The difference in milliseconds, with every 64-bit operation of the source. */
    function Drift(): Result<i64>
      requires Usable()
    {
      if !Initialized() then Err(ClockUninitialized)
      else
        var delta := Wrap64(Rescale(stream, last, master) - current);
        Ok(Wrap64(TruncDiv(Wrap64(Wrap64(delta * master.num) * 1000), master.den)))
    }

    /** The stream's timestamp in master ticks, less the master's. */
    function Delta(): int
      requires Usable()
    {
      Scaled(stream, last, master) - current
    }

    /** The difference in seconds over the master's denominator, as if 64 bits held it. */
    function Ticks(): int
      requires Usable() && Initialized()
    {
      (Rescale(stream, last, master) - current) * master.num
    }

    /** The clocks for which the drift is the one number that has no absolute value. */
    predicate Extreme()
      requires Usable()
    {
      Initialized() && master.den == 1 && Ticks() % 0x2000_0000_0000_0000 == 0x1000_0000_0000_0000
    }

    /** None of those operations overflows. */
    predicate InRange()
      requires Usable()
    {
      && Initialized()
      && I64_MIN <= Scaled(stream, last, master) <= I64_MAX
      && I64_MIN <= Delta() <= I64_MAX
      && I64_MIN <= Delta() * master.num <= I64_MAX
      && I64_MIN <= Delta() * master.num * 1000 <= I64_MAX
    }

    /** The exact difference in time, in milliseconds times both denominators. */
    function Exact(): int {
      1000 * (last * stream.num * master.den - current * master.num * stream.den)
    }

    /** One millisecond, and one master tick, in the same measure. */
    function Millisecond(): int {
      stream.den * master.den
    }

    function Tick(): int {
      1000 * (master.num * stream.den)
    }
  }

  /** `i64::abs`, which leaves the least value as it is. */
  function Abs(x: i64): i64 {
    if x < 0 then Wrap64(0 - x) else x
  }

  predicate InSync(drift: Result<i64>) {
    drift.Ok? && Abs(drift.value) <= MAX_DRIFT_MS
  }

  predicate ShouldSkip(drift: Result<i64>) {
    drift.Ok? && drift.value < -MAX_DRIFT_MS
  }

  function Wait(drift: Result<i64>): Option<i64> {
    if drift.Ok? && drift.value > 0 then Some(drift.value) else None
  }

  class MasterClock {
    const timebase: Timebase
    var currentPts: i64

    constructor (timebase: Timebase)
      ensures this.timebase == timebase && currentPts == I64_MIN
    {
      this.timebase := timebase;
      currentPts := I64_MIN;
    }

    method Init(pts: i64)
      modifies this
      ensures currentPts == pts
    {
      currentPts := pts;
    }

    /** An invalid timestamp changes nothing, so a running clock never becomes uninitialised. */
    method Update(pts: i64)
      modifies this
      ensures currentPts == if pts == I64_MIN then old(currentPts) else pts
    {
      if pts != I64_MIN {
        currentPts := pts;
      }
    }
  }

  class StreamClock {
    const master: MasterClock
    const timebase: Timebase
    var lastPts: i64

    constructor (master: MasterClock, timebase: Timebase)
      ensures this.master == master && this.timebase == timebase && lastPts == I64_MIN
    {
      this.master, this.timebase := master, timebase;
      lastPts := I64_MIN;
    }

    function Read(): Clocks
      reads this, master
    {
      Clocks(timebase, lastPts, master.timebase, master.currentPts)
    }

    method Update(pts: i64)
      modifies this
      ensures lastPts == if pts == I64_MIN then old(lastPts) else pts
      ensures Read() == old(Read()).(last := lastPts)
    {
      if pts != I64_MIN {
        lastPts := pts;
      }
    }

    method DriftMs() returns (r: Result<i64>)
      requires Read().Usable()
      ensures r == Read().Drift()
    {
      if master.currentPts == I64_MIN {
        return Err(ClockUninitialized);
      }
      var streamPts := lastPts;
      if streamPts == I64_MIN {
        return Err(ClockUninitialized);
      }
      var rescaled := Rescale(timebase, streamPts, master.timebase);
      var delta := Wrap64(rescaled - master.currentPts);
      var scaled := Wrap64(Wrap64(delta * master.timebase.num) * 1000);
      r := Ok(Wrap64(TruncDiv(scaled, master.timebase.den)));
    }
  }

  // ---- accuracy ----

  lemma QuotientFits(a: i64, d: int)
    requires d > 0
    ensures I64_MIN <= TruncDiv(a, d) <= I64_MAX
  {
  }

  /** Without overflow the drift is one quotient. */
  lemma DriftIsQuotient(c: Clocks)
    requires c.Usable() && c.InRange()
    ensures c.Drift() == Ok(TruncDiv(c.Delta() * c.master.num * 1000, c.master.den))
  {
    QuotientFits(c.Delta() * c.master.num * 1000, c.master.den);
  }

  /** The drift is within one millisecond and one master tick of the exact difference in time. */
  lemma DriftAccuracy(c: Clocks)
    requires c.Usable() && c.InRange()
    ensures c.Drift().Ok?
    ensures -(c.Millisecond() + c.Tick()) < c.Drift().value * c.Millisecond() - c.Exact() < c.Millisecond() + c.Tick()
  {
    DriftIsQuotient(c);
    var sd, md, mn := c.stream.den, c.master.den, c.master.num;
    var r := Scaled(c.stream, c.last, c.master);
    var x := c.last * c.stream.num * md;
    MulPositive(sd, mn);
    TruncBounds(x, Product(sd, mn));
    var y := c.Delta() * mn * 1000;
    TruncBounds(y, md);
    Combine(c.Drift().value, y, md, sd, r, x, mn, c.current);
  }

  lemma Combine(drift: int, y: int, md: int, sd: int, r: int, x: int, mn: int, current: int)
    requires md > 0 && sd > 0 && mn > 0
    requires -md < drift * md - y < md
    requires -(sd * mn) < r * (sd * mn) - x < sd * mn
    requires y == (r - current) * mn * 1000
    ensures var exact := 1000 * (x - current * mn * sd);
            var margin := sd * md + 1000 * (mn * sd);
            -margin < drift * (sd * md) - exact < margin
  {
    var e := drift * md - y;
    Spread(e, md, sd);
    assert e * sd == drift * (sd * md) - y * sd by {
      assert (drift * md) * sd == drift * (sd * md);
      assert (drift * md - y) * sd == (drift * md) * sd - y * sd;
    }
    assert y * sd == 1000 * (r * (sd * mn)) - 1000 * (current * mn * sd) by {
      Expand(r, current, mn, sd);
    }
    assert sd * mn == mn * sd;
  }

  lemma Spread(e: int, md: int, sd: int)
    requires -md < e < md && sd > 0
    ensures -(sd * md) < e * sd < sd * md
  {
    MulMono(e, md - 1, sd);
    MulMono(-md + 1, e, sd);
    Distribute(md, -1, sd);
    Distribute(-md, 1, sd);
    NegProduct(md, sd);
  }

  lemma Expand(r: int, current: int, mn: int, sd: int)
    ensures ((r - current) * mn * 1000) * sd == 1000 * (r * (sd * mn)) - 1000 * (current * mn * sd)
  {
    assert (r - current) * mn == r * mn - current * mn;
    assert (r * mn) * sd == r * (sd * mn);
    assert (r * mn - current * mn) * sd == (r * mn) * sd - (current * mn) * sd;
    assert ((r - current) * mn * 1000) * sd == 1000 * (((r - current) * mn) * sd);
  }

  /** A later stream timestamp never lowers the drift, a later master timestamp never raises it. */
  lemma DriftMonotone(c: Clocks, c': Clocks)
    requires c.Usable() && c.InRange() && c'.Usable() && c'.InRange()
    requires c.stream == c'.stream && c.master == c'.master && c.last <= c'.last && c.current >= c'.current
    ensures c.Drift().value <= c'.Drift().value
  {
    DriftIsQuotient(c);
    DriftIsQuotient(c');
    ScaledMono(c.stream, c.last, c'.last, c.master);
    MulMono(c.Delta(), c'.Delta(), c.master.num);
    TruncMono(c.Delta() * c.master.num * 1000, c'.Delta() * c.master.num * 1000, c.master.den);
  }

  // ---- the decisions ----

  /** Wrapping after each operation is wrapping once. */
  lemma WrapOfWrap(x: int, y: int, m: int)
    requires (x - y) % TWO_64 == 0
    ensures (x * m - y * m) % TWO_64 == 0
    ensures Wrap64(x * m) == Wrap64(y * m)
  {
    var k := (x - y) / TWO_64;
    assert x - y == k * TWO_64;
    assert x * m - y * m == (k * m) * TWO_64 by {
      assert (x - y) * m == x * m - y * m;
      assert (k * TWO_64) * m == (k * m) * TWO_64;
    }
    Congruent(x * m, y * m, k * m);
  }

  lemma Congruent(a: int, b: int, k: int)
    requires a - b == k * TWO_64
    ensures (a - b) % TWO_64 == 0
    ensures Wrap64(a) == Wrap64(b)
  {
  }

  lemma DriftWrapsOnce(c: Clocks)
    requires c.Usable() && c.Initialized()
    ensures c.Drift() == Ok(Wrap64(TruncDiv(Wrap64(c.Ticks() * 1000), c.master.den)))
  {
    var delta := Rescale(c.stream, c.last, c.master) - c.current;
    WrapOfWrap(Wrap64(delta), delta, c.master.num);
    WrapOfWrap(Wrap64(c.Ticks()), c.Ticks(), 1000);
  }

  /** 1000 is eight times 125, and 125 has an inverse modulo 2^61, which is odd. */
  lemma WrapsToLeast(x: int)
    ensures Wrap64(x * 1000) == I64_MIN <==> x % 0x2000_0000_0000_0000 == 0x1000_0000_0000_0000
  {
    if Wrap64(x * 1000) == I64_MIN {
      var j := (x * 1000 - I64_MIN) / TWO_64;
      assert x * 125 == 0x2000_0000_0000_0000 * j - 0x1000_0000_0000_0000;
      assert 125 * 2066035336255469781 == 1 + 112 * 0x2000_0000_0000_0000;
      Modulo61(x, 1033017668127734890 + 2066035336255469781 * (j - 1) - 112 * x);
    } else if x % 0x2000_0000_0000_0000 == 0x1000_0000_0000_0000 {
      var j := x / 0x2000_0000_0000_0000;
      assert x == j * 0x2000_0000_0000_0000 + 0x1000_0000_0000_0000;
      Congruent(x * 1000, I64_MIN, 125 * j + 63);
    }
  }

  lemma Modulo61(x: int, k: int)
    requires x == 0x1000_0000_0000_0000 + k * 0x2000_0000_0000_0000
    ensures x % 0x2000_0000_0000_0000 == 0x1000_0000_0000_0000
  {
  }

  /** The drift is the least 64-bit number exactly for the extreme clocks. */
  lemma LeastDrift(c: Clocks)
    requires c.Usable()
    ensures c.Drift() == Ok(I64_MIN) <==> c.Extreme()
  {
    if c.Initialized() {
      DriftWrapsOnce(c);
      LeastWrapped(c.Ticks(), c.master.den);
    }
  }

  lemma LeastWrapped(x: int, den: int)
    requires den > 0
    ensures Wrap64(TruncDiv(Wrap64(x * 1000), den)) == I64_MIN
            <==> den == 1 && x % 0x2000_0000_0000_0000 == 0x1000_0000_0000_0000
  {
    WrapsToLeast(x);
    LeastQuotient(Wrap64(x * 1000), den);
    QuotientFits(Wrap64(x * 1000), den);
  }

  /** Without overflow no clocks are extreme. */
  lemma TooSmallForExtreme(c: Clocks)
    requires c.Usable() && c.InRange()
    ensures !c.Extreme()
  {
    var x := c.Ticks();
    assert x == c.Delta() * c.master.num;
    assert -0x1000_0000_0000_0000 < x < 0x1000_0000_0000_0000;
  }

  lemma LeastQuotient(a: int, d: int)
    requires d > 0 && I64_MIN <= a <= I64_MAX
    ensures TruncDiv(a, d) == I64_MIN <==> a == I64_MIN && d == 1
  {
    TruncBounds(a, d);
    TowardZero(a, d);
    if a < 0 { TowardZero(-a, d); }
  }

  /** With initialised clocks exactly one holds: skip, in sync, or more than the limit ahead. The first two
      hold together for the extreme clocks and no others, so never without overflow. */
  lemma DecisionsPartition(c: Clocks)
    requires c.Usable()
    ensures c.Initialized() <==> c.Drift().Ok?
    ensures !c.Initialized() ==> c.Drift() == Err(ClockUninitialized) && !InSync(c.Drift()) && !ShouldSkip(c.Drift()) && Wait(c.Drift()) == None
    ensures c.Initialized() ==>
              var d := c.Drift();
              var ahead := d.value > MAX_DRIFT_MS;
              && (ShouldSkip(d) || InSync(d) || ahead)
              && (ShouldSkip(d) && InSync(d) <==> c.Extreme())
              && !(ShouldSkip(d) && ahead) && !(InSync(d) && ahead)
              && (ShouldSkip(d) <==> d.value < -40) && (ahead <==> d.value > 40)
              && (Wait(d).Some? <==> d.value > 0) && (d.value > 0 ==> Wait(d) == Some(d.value))
              && (ShouldSkip(d) ==> Wait(d) == None)
    ensures c.InRange() ==> !(ShouldSkip(c.Drift()) && InSync(c.Drift()))
  {
    LeastDrift(c);
    if c.Initialized() {
      Trichotomy(c.Drift().value);
      if c.InRange() { TooSmallForExtreme(c); }
    }
  }

  /** Clocks that count as in sync and to be skipped at once: a second per tick, and the stream 2^60 ticks ahead. */
  lemma SkipsInSync()
    ensures var c := Clocks(Timebase(1, 1), 0x1000_0000_0000_0000, Timebase(1, 1), 0);
            c.Usable() && c.Extreme() && c.Drift() == Ok(I64_MIN) && ShouldSkip(c.Drift()) && InSync(c.Drift())
  {
    var c := Clocks(Timebase(1, 1), 0x1000_0000_0000_0000, Timebase(1, 1), 0);
    assert c.Ticks() == 0x1000_0000_0000_0000;
    LeastDrift(c);
  }

  lemma Trichotomy(d: i64)
    ensures var r := Ok(d);
            && (ShouldSkip(r) || InSync(r) || d > MAX_DRIFT_MS)
            && (ShouldSkip(r) && InSync(r) <==> d == I64_MIN)
            && !(InSync(r) && d > MAX_DRIFT_MS)
  {
  }

  /** The decisions are right about the exact difference wherever it is further from the limit than one
      millisecond and one master tick. */
  lemma DecisionsAreRight(c: Clocks)
    requires c.Usable() && c.InRange()
    ensures c.Exact() <= -(41 * c.Millisecond()) - c.Tick() ==> ShouldSkip(c.Drift()) && !InSync(c.Drift())
    ensures c.Exact() >= -(40 * c.Millisecond()) + c.Tick() ==> !ShouldSkip(c.Drift())
    ensures -(40 * c.Millisecond()) + c.Tick() <= c.Exact() <= 40 * c.Millisecond() - c.Tick() ==> InSync(c.Drift())
    ensures c.Exact() >= 41 * c.Millisecond() + c.Tick() ==> !InSync(c.Drift())
  {
    DriftAccuracy(c);
    MulPositive(c.stream.den, c.master.den);
    var d, exact, ms, tick := c.Drift(), c.Exact(), c.Millisecond(), c.Tick();
    Thresholds(d.value, exact, ms, tick);
    LeastDrift(c);
    TooSmallForExtreme(c);
    Trichotomy(d.value);
  }

  /** Likewise the wait: it is given when the stream is exactly at least one millisecond and one tick ahead,
      it is then within that margin of the exact difference, and none is given from one tick behind. */
  lemma WaitIsRight(c: Clocks)
    requires c.Usable() && c.InRange()
    ensures c.Exact() >= c.Millisecond() + c.Tick() ==> Wait(c.Drift()).Some?
    ensures c.Exact() <= -c.Tick() ==> Wait(c.Drift()) == None
    ensures Wait(c.Drift()).Some? ==>
              && Wait(c.Drift()).value > 0
              && -(c.Millisecond() + c.Tick()) < Wait(c.Drift()).value * c.Millisecond() - c.Exact() < c.Millisecond() + c.Tick()
  {
    DriftAccuracy(c);
    MulPositive(c.stream.den, c.master.den);
    NearZero(c.Drift().value, c.Exact(), c.Millisecond(), c.Tick());
  }

  lemma NearZero(d: int, exact: int, ms: int, tick: int)
    requires ms > 0 && -(ms + tick) < d * ms - exact < ms + tick
    ensures exact >= ms + tick ==> d > 0
    ensures exact <= -tick ==> d <= 0
  {
  }

  lemma Thresholds(d: int, exact: int, ms: int, tick: int)
    requires ms > 0 && -(ms + tick) < d * ms - exact < ms + tick
    ensures exact <= -(41 * ms) - tick ==> d < -40
    ensures exact >= -(40 * ms) + tick ==> d >= -40
    ensures exact <= 40 * ms - tick ==> d <= 40
    ensures exact >= 41 * ms + tick ==> d > 40
  {
  }
}
