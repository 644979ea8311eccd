/** Timestamps, and moving them between timebases with the source's truncating 128-bit division. */
module Timebase {
  import opened Media

  type u32 = x: int | 0 <= x <= U32_MAX

  /** Ticks of `num / den` seconds. */
  datatype Timebase = Timebase(num: u32, den: u32)

  /** Division that rounds toward zero. */
  function TruncDiv(a: int, b: int): int
    requires b > 0
  {
    if a >= 0 then a / b else -((-a) / b)
  }

  /** The quotient before it is cast to 64 bits. */
  function Scaled(from: Timebase, ts: int, to: Timebase): int
    requires from.den > 0 && to.num > 0
  {
    TruncDiv(ts * from.num * to.den, Product(from.den, to.num))
  }

  function Product(a: int, b: int): (r: int)
    ensures a > 0 && b > 0 ==> r > 0
  {
    MulPositive(a, b);
    a * b
  }

  lemma MulPositive(a: int, b: int)
    ensures a > 0 && b > 0 ==> a * b > 0
  {
  }

  /** The source divides by `den * target.num` and would panic on zero. */
  function Rescale(from: Timebase, ts: i64, to: Timebase): i64
    requires from.den > 0 && to.num > 0
  {
    if ts == I64_MIN then I64_MIN else Wrap64(Scaled(from, ts, to))
  }

  /** The result survives the cast and is not mistaken for "no timestamp". */
  predicate Fits(from: Timebase, ts: i64, to: Timebase)
    requires from.den > 0 && to.num > 0
  {
    ts != I64_MIN && I64_MIN < Scaled(from, ts, to) <= I64_MAX
  }

  // ---- truncating division ----

  lemma MulMono(a: int, b: int, m: int)
    requires a <= b && m >= 0
    ensures a * m <= b * m
  {
  }

  lemma MulCancel(a: int, b: int, m: int)
    requires a * m < b * m && m > 0
    ensures a < b
  {
  }

  lemma NegProduct(a: int, b: int)
    ensures (-a) * b == -(a * b)
  {
  }

  /** A quotient is the number toward zero that is less than one divisor short. */
  lemma TruncBounds(a: int, b: int)
    requires b > 0
    ensures a >= 0 ==> 0 <= TruncDiv(a, b) && TruncDiv(a, b) * b <= a < TruncDiv(a, b) * b + b
    ensures a <= 0 ==> 0 >= TruncDiv(a, b) && TruncDiv(a, b) * b >= a > TruncDiv(a, b) * b - b
  {
  }

  /** And the only one. */
  lemma TruncUnique(a: int, b: int, q: int)
    requires b > 0
    requires a >= 0 ==> q * b <= a < q * b + b
    requires a < 0 ==> q * b >= a > q * b - b
    ensures TruncDiv(a, b) == q
  {
    TruncBounds(a, b);
    var t := TruncDiv(a, b);
    if a >= 0 { Between(t, q, a, b); } else { Between(-t, -q, -a, b); }
  }

  lemma Between(t: int, q: int, a: int, b: int)
    requires b > 0 && t * b <= a < t * b + b && q * b <= a < q * b + b
    ensures t == q
  {
    assert (t + 1) * b == t * b + b && (q + 1) * b == q * b + b;
    MulCancel(t, q + 1, b);
    MulCancel(q, t + 1, b);
  }

  lemma TruncMono(a: int, a': int, b: int)
    requires b > 0 && a <= a'
    ensures TruncDiv(a, b) <= TruncDiv(a', b)
  {
    TruncBounds(a, b);
    TruncBounds(a', b);
    var t, t' := TruncDiv(a, b), TruncDiv(a', b);
    if t > t' {
      assert (t' + 1) * b == t' * b + b;
      MulMono(t' + 1, t, b);
    }
  }

  lemma TruncScale(a: int, b: int, m: int)
    requires b > 0 && m > 0
    ensures Product(b, m) > 0 && TruncDiv(a * m, Product(b, m)) == TruncDiv(a, b)
  {
    TruncBounds(a, b);
    var t := TruncDiv(a, b);
    Widen(t, b, m);
    if a >= 0 {
      MulMono(0, a, m);
      MulMono(t * b, a, m);
      MulMono(a + 1, t * b + b, m);
      Distribute(a, 1, m);
    } else {
      MulMono(a, -1, m);
      MulMono(a, t * b, m);
      MulMono(t * b - b, a - 1, m);
      Distribute(a, -1, m);
    }
    TruncUnique(a * m, Product(b, m), t);
  }

  /** Dividing twice is dividing by the product. */
  lemma TruncNested(a: int, b: int, k: int)
    requires b > 0 && k > 0
    ensures Product(b, k) > 0 && TruncDiv(TruncDiv(a, b), k) == TruncDiv(a, Product(b, k))
  {
    var t := TruncDiv(a, b);
    var u := TruncDiv(t, k);
    TruncBounds(a, b);
    TruncBounds(t, k);
    Widen(u, k, b);
    if a >= 0 {
      MulMono(u * k, t, b);
      MulMono(t + 1, u * k + k, b);
      Distribute(t, 1, b);
    } else {
      MulMono(t, u * k, b);
      MulMono(u * k - k, t - 1, b);
      Distribute(t, -1, b);
    }
    TruncUnique(a, Product(b, k), u);
  }

  lemma Distribute(x: int, y: int, m: int)
    ensures (x + y) * m == x * m + y * m
  {
  }

  lemma Widen(u: int, k: int, b: int)
    ensures u * (b * k) == (u * k) * b
    ensures (u * k + k) * b == (u * k) * b + b * k
    ensures (u * k - k) * b == (u * k) * b - b * k
  {
  }

  // ---- rescaling ----

  /** Every intermediate product and quotient fits into 128 bits, for every timestamp and timebase. */
  lemma NoOverflow128(from: Timebase, ts: i64, to: Timebase)
    ensures -I128_BOUND <= ts * from.num < I128_BOUND
    ensures -I128_BOUND <= ts * from.num * to.den < I128_BOUND
    ensures 0 <= from.den * to.num < I128_BOUND
  {
    var n, d := from.num, to.den;
    MulMono(ts, I64_MAX, n);
    MulMono(I64_MIN, ts, n);
    MulMono(n, U32_MAX, I64_MAX + 1);
    assert -(I64_MAX + 1) * U32_MAX <= ts * n <= (I64_MAX + 1) * U32_MAX;
    MulMono(ts * n, (I64_MAX + 1) * U32_MAX, d);
    MulMono(-(I64_MAX + 1) * U32_MAX, ts * n, d);
    MulMono(d, U32_MAX, (I64_MAX + 1) * U32_MAX);
    MulMono(from.den, U32_MAX, to.num);
    MulMono(to.num, U32_MAX, U32_MAX);
    MulMono(0, from.den, to.num);
  }

  lemma ScaledMono(from: Timebase, ts: int, ts': int, to: Timebase)
    requires from.den > 0 && to.num > 0 && ts <= ts'
    ensures Scaled(from, ts, to) <= Scaled(from, ts', to)
  {
    MulMono(ts, ts', from.num);
    MulMono(ts * from.num, ts' * from.num, to.den);
    TruncMono(ts * from.num * to.den, ts' * from.num * to.den, Product(from.den, to.num));
  }

  lemma ScaledOdd(from: Timebase, ts: int, to: Timebase)
    requires from.den > 0 && to.num > 0
    ensures Scaled(from, -ts, to) == -Scaled(from, ts, to)
  {
    NegProduct(ts, from.num);
    NegProduct(ts * from.num, to.den);
  }

  /** The greatest timestamp survives the cast. */
  predicate NeverWraps(from: Timebase, to: Timebase)
    requires from.den > 0 && to.num > 0
  {
    Scaled(from, I64_MAX, to) <= I64_MAX
  }

  /** Then so does every other. */
  lemma AllFit(from: Timebase, to: Timebase)
    requires from.den > 0 && to.num > 0
    ensures (forall ts: i64 :: ts != I64_MIN ==> Fits(from, ts, to)) <==> NeverWraps(from, to)
  {
    if NeverWraps(from, to) {
      forall ts: i64 | ts != I64_MIN ensures Fits(from, ts, to) {
        WithinGreatest(from, ts, to);
      }
    } else {
      assert !Fits(from, I64_MAX, to);
    }
  }

  lemma WithinGreatest(from: Timebase, ts: i64, to: Timebase)
    requires from.den > 0 && to.num > 0 && ts != I64_MIN
    ensures -Scaled(from, I64_MAX, to) <= Scaled(from, ts, to) <= Scaled(from, I64_MAX, to)
  {
    ScaledMono(from, ts, I64_MAX, to);
    ScaledMono(from, -I64_MAX, ts, to);
    ScaledOdd(from, I64_MAX, to);
  }

  /** Where quotients reach `bound`: the bound divided by the ratio of the ticks, rounded up. */
  function FirstReaching(from: Timebase, to: Timebase, bound: nat): int {
    var p, q := from.num * to.den, from.den * to.num;
    if p <= 0 then 0 else (bound * q + p - 1) / p
  }

  /** One tick raises a quotient by less than what 64 bits can tell apart. */
  lemma ReachedInOneStep(from: Timebase, to: Timebase, bound: nat)
    requires from.den > 0 && to.num > 0 && 0 < bound <= Scaled(from, I64_MAX, to)
    ensures var t := FirstReaching(from, to, bound);
            && 0 < t <= I64_MAX
            && Scaled(from, t - 1, to) < bound <= Scaled(from, t, to)
            && Scaled(from, t, to) < Scaled(from, t - 1, to) + TWO_64
  {
    Ratio(from, to);
    FirstMultiple(from.num * to.den, Product(from.den, to.num), bound);
  }

  lemma FirstMultiple(p: int, q: int, bound: nat)
    requires 0 <= p < TWO_64 && q > 0 && 0 < bound <= TruncDiv(I64_MAX * p, q)
    ensures p > 0
    ensures var t := (bound * q + p - 1) / p;
            && 0 < t <= I64_MAX
            && TruncDiv((t - 1) * p, q) < bound <= TruncDiv(t * p, q)
            && TruncDiv(t * p, q) < TruncDiv((t - 1) * p, q) + TWO_64
  {
    SomeRatio(I64_MAX, p, q);
    RoundUp(bound, p, q);
    var t := (bound * q + p - 1) / p;
    Reaches(I64_MAX * p, q, bound);
    MulCancel(t - 1, I64_MAX, p);
    MulMono(0, t - 1, p);
    Reaches(t * p, q, bound);
    Reaches((t - 1) * p, q, bound);
    Distribute(t - 1, 1, p);
    StepAtMost((t - 1) * p, p, q);
  }

  /** A quotient's dividend is the timestamp times the ratio's numerator, which 64 bits hold. */
  lemma Ratio(from: Timebase, to: Timebase)
    requires from.den > 0 && to.num > 0
    ensures var p := from.num * to.den;
            && 0 <= p < TWO_64
            && forall ts: int :: Scaled(from, ts, to) == TruncDiv(ts * p, Product(from.den, to.num))
  {
    MulMono(from.num, U32_MAX, to.den);
    MulMono(to.den, U32_MAX, U32_MAX);
    MulMono(0, from.num, to.den);
    forall ts: int ensures Scaled(from, ts, to) == TruncDiv(ts * (from.num * to.den), Product(from.den, to.num)) {
      Regrouped(ts, from.num, to.den);
    }
  }

  lemma SomeRatio(x: int, p: int, q: int)
    requires p >= 0 && q > 0 && TruncDiv(x * p, q) > 0
    ensures p > 0
  {
  }

  lemma Regrouped(x: int, a: int, b: int)
    ensures x * a * b == x * (a * b)
  {
  }

  lemma RoundUp(bound: nat, p: int, q: int)
    requires p > 0 && q > 0 && bound > 0
    ensures var t := (bound * q + p - 1) / p; t > 0 && (t - 1) * p < bound * q <= t * p
  {
    var a := bound * q + p - 1;
    var t := a / p;
    MulMono(1, bound, q);
    assert a == t * p + a % p;
    Distribute(t, -1, p);
    if t <= 0 { MulMono(t, 0, p); }
  }

  lemma Reaches(a: int, q: int, bound: nat)
    requires a >= 0 && q > 0
    ensures TruncDiv(a, q) >= bound <==> a >= bound * q
  {
    TruncBounds(a, q);
    var t := TruncDiv(a, q);
    Distribute(t, 1, q);
    if t >= bound { MulMono(bound, t, q); } else { MulMono(t + 1, bound, q); }
  }

  lemma StepAtMost(a: int, p: int, q: int)
    requires a >= 0 && p >= 0 && q > 0
    ensures TruncDiv(a + p, q) <= TruncDiv(a, q) + p
  {
    TruncBounds(a, q);
    var t := TruncDiv(a, q);
    MulMono(1, q, p);
    Distribute(t, 1 + p, q);
    Distribute(1, p, q);
    Reaches(a + p, q, t + 1 + p);
  }

  /** Later stays later among timestamps whose results fit; for all timestamps it does exactly when
      the greatest one fits. Otherwise the first that does not falls below its predecessor. */
  lemma RescaleMono(from: Timebase, to: Timebase)
    requires from.den > 0 && to.num > 0
    ensures forall a: i64, b: i64 :: a <= b && Fits(from, a, to) && Fits(from, b, to) ==>
              Rescale(from, a, to) <= Rescale(from, b, to)
    ensures (forall a: i64, b: i64 :: I64_MIN < a <= b ==> Rescale(from, a, to) <= Rescale(from, b, to))
            <==> NeverWraps(from, to)
  {
    forall a: i64, b: i64 | a <= b && Fits(from, a, to) && Fits(from, b, to)
      ensures Rescale(from, a, to) <= Rescale(from, b, to)
    {
      ScaledMono(from, a, b, to);
    }
    AllFit(from, to);
    if !NeverWraps(from, to) {
      ReachedInOneStep(from, to, TWO_63);
      var t: i64 := FirstReaching(from, to, TWO_63);
      ScaledMono(from, 0, t - 1, to);
      WrapsOnce(Scaled(from, t, to));
      assert Rescale(from, t, to) < Rescale(from, t - 1, to);
    }
  }

  lemma WrapsOnce(y: int)
    requires TWO_63 <= y < TWO_63 + TWO_64
    ensures Wrap64(y) == y - TWO_64
  {
  }

  /** The tick of `via` goes `k` times into the tick of `to`. */
  ghost predicate GoesInto(via: Timebase, to: Timebase, k: int) {
    && via.num > 0 && via.den > 0 && to.num > 0 && to.den > 0
    && k > 0 && to.num * via.den == k * (via.num * to.den)
  }

  /** No timestamp in `from` reaches one tick of the target, and none is cast to "no timestamp" on the way. */
  predicate BelowOneTick(from: Timebase, via: Timebase, k: int)
    requires from.den > 0 && via.num > 0
  {
    Scaled(from, I64_MAX, via) < k && Scaled(from, FirstReaching(from, via, TWO_63), via) != TWO_63
  }

  /** Going through a timebase whose tick divides the target's tick evenly is going there directly, for
      every timestamp that fits on the way. It is so for all timestamps exactly when all of them fit, or
      both ticks are the same, or both ways give zero throughout. */
  lemma PathIndependence(from: Timebase, via: Timebase, to: Timebase, k: int)
    requires from.den > 0 && GoesInto(via, to, k)
    ensures forall ts: i64 :: Fits(from, ts, via) ==>
              && Fits(from, ts, to)
              && Fits(via, Rescale(from, ts, via), to)
              && Rescale(via, Rescale(from, ts, via), to) == Rescale(from, ts, to)
    ensures (forall ts: i64 :: ts != I64_MIN ==> Rescale(via, Rescale(from, ts, via), to) == Rescale(from, ts, to))
            <==> NeverWraps(from, via) || k == 1 || BelowOneTick(from, via, k)
  {
    forall ts: i64 | Fits(from, ts, via)
      ensures Fits(from, ts, to) && Fits(via, Rescale(from, ts, via), to)
      ensures Rescale(via, Rescale(from, ts, via), to) == Rescale(from, ts, to)
    {
      BothWays(from, via, to, k, ts);
      SecondHop(Scaled(from, ts, via), via, to, k);
      TowardZero(Scaled(from, ts, via), k);
    }
    AllFit(from, via);
    if NeverWraps(from, via) {
    } else if k == 1 || BelowOneTick(from, via, k) {
      forall ts: i64 | ts != I64_MIN
        ensures Rescale(via, Rescale(from, ts, via), to) == Rescale(from, ts, to)
      {
        BothWays(from, via, to, k, ts);
        if k > 1 { ZeroBothWays(from, via, to, k, ts); }
      }
    } else {
      WaysPart(from, via, to, k);
    }
  }

  /** The two ways in terms of the first quotient. */
  function Indirect(r: int, k: int): i64
    requires k > 0
  {
    if Wrap64(r) == I64_MIN then I64_MIN else Wrap64(TruncDiv(Wrap64(r), k))
  }

  lemma BothWays(from: Timebase, via: Timebase, to: Timebase, k: int, ts: i64)
    requires from.den > 0 && GoesInto(via, to, k) && ts != I64_MIN
    ensures Rescale(from, ts, to) == Wrap64(TruncDiv(Scaled(from, ts, via), k))
    ensures Scaled(from, ts, to) == TruncDiv(Scaled(from, ts, via), k)
    ensures Rescale(via, Rescale(from, ts, via), to) == Indirect(Scaled(from, ts, via), k)
  {
    SecondHop(Rescale(from, ts, via), via, to, k);
    TruncNested(ts * from.num * via.den, Product(from.den, via.num), k);
    DirectWay(ts * from.num, from.den, via, to, k);
  }

  lemma TowardZero(a: int, k: int)
    requires k > 0
    ensures a >= 0 ==> 0 <= TruncDiv(a, k) <= a
    ensures a <= 0 ==> a <= TruncDiv(a, k) <= 0
    ensures -k < a < k ==> TruncDiv(a, k) == 0
    ensures a >= k ==> TruncDiv(a, k) >= 1
    ensures 2 <= k && a >= 0 ==> TruncDiv(a, k) <= a / 2
  {
    TruncBounds(a, k);
    var t := TruncDiv(a, k);
    if t > 0 { MulMono(1, k, t); }
    if t < 0 { MulMono(1, k, -t); NegProduct(t, k); }
    if t > 0 && k >= 2 { MulMono(2, k, t); }
    if t >= 1 { MulMono(1, t, k); }
    if t <= -1 { MulMono(t, -1, k); }
  }

  /** `k` is less than what 64 bits can tell apart. */
  lemma FactorBelow(via: Timebase, to: Timebase, k: int)
    requires GoesInto(via, to, k)
    ensures k < TWO_64
  {
    MulPositive(via.num, to.den);
    MulMono(1, via.num * to.den, k);
    MulMono(to.num, U32_MAX, via.den);
    MulMono(via.den, U32_MAX, U32_MAX);
  }

  lemma ZeroBothWays(from: Timebase, via: Timebase, to: Timebase, k: int, ts: i64)
    requires from.den > 0 && GoesInto(via, to, k) && ts != I64_MIN
    requires !NeverWraps(from, via) && BelowOneTick(from, via, k)
    ensures var r := Scaled(from, ts, via); Indirect(r, k) == 0 == Wrap64(TruncDiv(r, k))
  {
    var r := Scaled(from, ts, via);
    FactorBelow(via, to, k);
    WithinGreatest(from, ts, via);
    ReachedInOneStep(from, via, TWO_63);
    var t := FirstReaching(from, via, TWO_63);
    ScaledOdd(from, ts, via);
    var size := if ts >= 0 then ts else -ts;
    ScaledMono(from, 0, size, via);
    if size >= t { ScaledMono(from, t, size, via); } else { ScaledMono(from, size, t - 1, via); }
    assert r != TWO_63 && r != -TWO_63;
    TowardZero(r, k);
    TowardZero(Wrap64(r), k);
  }

  /** Otherwise the ways part: at the first quotient that does not fit, or at the first that reaches `k`. */
  lemma WaysPart(from: Timebase, via: Timebase, to: Timebase, k: int)
    requires from.den > 0 && GoesInto(via, to, k)
    requires !NeverWraps(from, via) && k > 1 && !BelowOneTick(from, via, k)
    ensures exists ts: i64 :: ts != I64_MIN && Rescale(via, Rescale(from, ts, via), to) != Rescale(from, ts, to)
  {
    FactorBelow(via, to, k);
    ReachedInOneStep(from, via, TWO_63);
    var t: i64 := FirstReaching(from, via, TWO_63);
    var r := Scaled(from, t, via);
    BothWays(from, via, to, k, t);
    if r == TWO_63 || k <= r {
      PartAtFirst(r, k);
    } else {
      ReachedInOneStep(from, via, k);
      var u: i64 := FirstReaching(from, via, k);
      BothWays(from, via, to, k, u);
      PartAtFactor(Scaled(from, u, via), k);
    }
  }

  lemma PartAtFirst(r: int, k: int)
    requires 2 <= k < TWO_64 && TWO_63 <= r < TWO_63 + TWO_64 && (r == TWO_63 || k <= r)
    ensures Indirect(r, k) != Wrap64(TruncDiv(r, k))
  {
    WrapsOnce(r);
    TowardZero(r, k);
    var w := r - TWO_64;
    TowardZero(w, k);
    if w >= 0 {
      TruncBounds(w, k);
      Distribute(TruncDiv(w, k), 1, k);
      Reaches(r, k, TruncDiv(w, k) + 1);
    } else {
      TowardZero(-w, k);
    }
  }

  lemma PartAtFactor(r: int, k: int)
    requires TWO_63 < k <= r < k + TWO_64 && k < TWO_64
    ensures Indirect(r, k) != Wrap64(TruncDiv(r, k))
  {
    TowardZero(r, k);
    Reaches(r, k, 3);
    TowardZero(Wrap64(r), k);
  }

  /** The second hop divides by `k`. */
  lemma SecondHop(r: int, via: Timebase, to: Timebase, k: int)
    requires via.num > 0 && via.den > 0 && to.num > 0 && to.den > 0 && k > 0
    requires to.num * via.den == k * (via.num * to.den)
    ensures Scaled(via, r, to) == TruncDiv(r, k)
  {
    var m := Product(via.num, to.den);
    assert r * via.num * to.den == r * m;
    assert Product(via.den, to.num) == Product(k, m);
    TruncScale(r, k, m);
  }

  /** The direct way, over a divisor that shows both hops. */
  lemma DirectWay(x: int, b: int, via: Timebase, to: Timebase, k: int)
    requires b > 0 && via.num > 0 && via.den > 0 && to.num > 0 && to.den > 0 && k > 0
    requires to.num * via.den == k * (via.num * to.den)
    ensures Product(b, via.num) > 0 && Product(b, to.num) > 0 && Product(Product(b, via.num), k) > 0
    ensures TruncDiv(x * to.den, Product(b, to.num)) == TruncDiv(x * via.den, Product(Product(b, via.num), k))
  {
    var c, d, e, f := via.num, via.den, to.num, to.den;
    TruncScale(x * f, Product(b, e), d);
    TruncScale(x * d, Product(Product(b, c), k), f);
    Swap(x, f, d);
    Regroup(b, c, d, e, f, k);
  }

  lemma Swap(x: int, f: int, d: int)
    ensures (x * f) * d == (x * d) * f
  {
  }

  lemma Regroup(b: int, c: int, d: int, e: int, f: int, k: int)
    requires e * d == k * (c * f)
    ensures (b * e) * d == ((b * c) * k) * f
  {
  }

  /** What a conversion there and back may lose: at most one tick, toward zero. */
  predicate Near(ts: int, back: int) {
    && (ts >= 0 ==> ts - 1 <= back <= ts && 0 <= back)
    && (ts <= 0 ==> ts <= back <= ts + 1 && back <= 0)
  }

  /** There and back through a timebase with ticks no longer than the own ones: what is lost is at most
      one tick, toward zero, exactly when the timestamp fits on the way, or is a single tick that does not
      fit and is not cast to "no timestamp" either: that one comes back as zero. Nothing is lost exactly
      when the timestamp fits and is a whole number of the finer ticks. */
  lemma RoundTrip(from: Timebase, via: Timebase, ts: i64)
    requires from.num > 0 && from.den > 0 && via.num > 0 && via.den > 0
    requires via.num * from.den <= from.num * via.den
    ensures var y := Scaled(from, ts, via);
            var back := Rescale(via, Rescale(from, ts, via), from);
            && (ts == I64_MIN ==> back == ts)
            && (ts != I64_MIN ==>
                  && (Near(ts, back) <==> Fits(from, ts, via) || (-1 <= ts <= 1 && !(-TWO_63 <= y <= TWO_63)))
                  && (back == ts <==> Fits(from, ts, via) && (ts * from.num * via.den) % (from.den * via.num) == 0))
  {
    if ts != I64_MIN {
      var p, q := from.num * via.den, from.den * via.num;
      MulPositive(from.num, via.den);
      MulPositive(from.den, via.num);
      assert via.num * from.den == q && via.den * from.num == p;
      Ratio(from, via);
      Regrouped(ts, from.num, via.den);
      var y := Scaled(from, ts, via);
      Ratio(via, from);
      assert Scaled(via, Wrap64(y), from) == TruncDiv(Wrap64(y) * q, p);
      BackThrough(ts, p, q);
    }
  }

  /** So it is for every timestamp exactly when the greatest one fits. */
  lemma RoundTripAlways(from: Timebase, via: Timebase)
    requires from.num > 0 && from.den > 0 && via.num > 0 && via.den > 0
    requires via.num * from.den <= from.num * via.den
    ensures (forall ts: i64 :: Near(ts, Rescale(via, Rescale(from, ts, via), from))) <==> NeverWraps(from, via)
  {
    AllFit(from, via);
    forall ts: i64
      ensures NeverWraps(from, via) ==> Near(ts, Rescale(via, Rescale(from, ts, via), from))
    {
      RoundTrip(from, via, ts);
    }
    RoundTrip(from, via, I64_MAX);
    WithinGreatest(from, 0, via);
  }

  /** About three million years after zero, seconds no longer fit into 90 kHz: order is lost, and so is the
      way back and the agreement with the direct way to milliseconds. Nothing is lost the other way round. */
  lemma SecondsWrap()
    ensures var second, milli, video := Timebase(1, 1), Timebase(1, 1000), Timebase(1, 90000);
            var ts := 102481911520608;
            && Rescale(second, ts, video) == 9223372036854720000
            && Rescale(second, ts + 1, video) == -9223372036854741616
            && !Near(ts + 1, Rescale(video, Rescale(second, ts + 1, video), second))
            && GoesInto(video, milli, 90)
            && Rescale(video, Rescale(second, ts + 1, video), milli) != Rescale(second, ts + 1, milli)
            && !NeverWraps(second, video) && NeverWraps(video, second)
  {
  }

  /** The second half of the round trip, from what is left of the first. */
  function Back(y: int, p: int, q: int): i64
    requires p > 0
  {
    if Wrap64(y) == I64_MIN then I64_MIN else Wrap64(TruncDiv(Wrap64(y) * q, p))
  }

  lemma BackThrough(x: i64, p: int, q: int)
    requires TWO_64 > p >= q > 0 && x != I64_MIN
    ensures var y := TruncDiv(x * p, q);
            && (Near(x, Back(y, p, q)) <==> -TWO_63 < y < TWO_63 || (-1 <= x <= 1 && !(-TWO_63 <= y <= TWO_63)))
            && (Back(y, p, q) == x <==> -TWO_63 < y < TWO_63 && (x * p) % q == 0)
  {
    var y := TruncDiv(x * p, q);
    if -TWO_63 < y < TWO_63 {
      Shrinks(y, p, q);
      ThereAndBack(x, p, q);
    } else {
      SignOfQuotient(x, p, q);
      if x > 0 {
        LostOnTheWay(x, p, q);
      } else {
        var m: int := -x;
        NegProduct(x, p);
        LostOnTheWay(m, p, q);
        BackOdd(y, p, q);
      }
    }
  }

  lemma SignOfQuotient(x: int, p: int, q: int)
    requires p > 0 && q > 0
    ensures x >= 0 ==> TruncDiv(x * p, q) >= 0
    ensures x <= 0 ==> TruncDiv(x * p, q) <= 0
  {
    if x >= 0 { MulMono(0, x, p); } else { MulMono(x, 0, p); }
    TruncBounds(x * p, q);
  }

  lemma Shrinks(w: int, p: int, q: int)
    requires p >= q > 0
    ensures w >= 0 ==> 0 <= TruncDiv(w * q, p) <= w
    ensures w <= 0 ==> w <= TruncDiv(w * q, p) <= 0
  {
    TruncBounds(w * q, p);
    var z := TruncDiv(w * q, p);
    if w >= 0 {
      MulMono(0, w, q);
      MulMono(q, p, w);
      if z > w { MulMono(w + 1, z, p); Distribute(w, 1, p); }
    } else {
      MulMono(w, 0, q);
      MulMono(q, p, -w);
      NegProduct(w, q);
      NegProduct(w, p);
      if z < w { MulMono(z, w - 1, p); Distribute(w, -1, p); }
    }
  }

  lemma BackOdd(y: int, p: int, q: int)
    requires p >= q > 0
    ensures Wrap64(y) == I64_MIN ==> Back(y, p, q) == Back(-y, p, q) == I64_MIN
    ensures Wrap64(y) != I64_MIN ==> Back(y, p, q) + Back(-y, p, q) == 0
  {
    var w: int := Wrap64(y);
    WrapOdd(y);
    if w != I64_MIN {
      NegProduct(w, q);
      Shrinks(w, p, q);
      Shrinks(-w, p, q);
      assert TruncDiv((-w) * q, p) == -TruncDiv(w * q, p);
    }
  }

  lemma WrapOdd(y: int)
    ensures Wrap64(y) == I64_MIN ==> Wrap64(-y) == I64_MIN
    ensures Wrap64(y) != I64_MIN ==> Wrap64(y) + Wrap64(-y) == 0
  {
  }

  /** A timestamp that does not fit comes back too small by more than a tick, unless it is a single one. */
  lemma LostOnTheWay(x: int, p: int, q: int)
    requires TWO_64 > p >= q > 0 && 0 < x <= I64_MAX
    requires TruncDiv(x * p, q) >= TWO_63
    ensures var y := TruncDiv(x * p, q);
            && Back(y, p, q) != x
            && (Near(x, Back(y, p, q)) <==> x == 1 && y > TWO_63)
  {
    if x == 1 {
      OneTickLost(p, q);
    } else {
      MoreThanATickLost(x, p, q);
    }
  }

  lemma OneTickLost(p: int, q: int)
    requires TWO_64 > p >= q > 0 && TruncDiv(p, q) >= TWO_63
    ensures Back(TruncDiv(p, q), p, q) == if TruncDiv(p, q) == TWO_63 then I64_MIN else 0
  {
    var y := TruncDiv(p, q);
    var w := y - TWO_64;
    TruncBounds(p, q);
    TowardZero(p, q);
    WrapsOnce(y);
    if y > TWO_63 {
      MulMono(-w, y - 1, q);
      Distribute(y, -1, q);
      NegProduct(w, q);
      MulMono(w, 0, q);
      TowardZero(w * q, p);
    }
  }

  lemma MoreThanATickLost(x: int, p: int, q: int)
    requires TWO_64 > p >= q > 0 && 1 < x <= I64_MAX && TruncDiv(x * p, q) >= TWO_63
    ensures Back(TruncDiv(x * p, q), p, q) < x - 1
  {
    var y := TruncDiv(x * p, q);
    var w := Wrap64(y);
    Shrinks(w, p, q);
    if w >= 0 {
      TruncBounds(x * p, q);
      MulMono(w, y - TWO_64, q);
      Distribute(y, -TWO_64, q);
      MulMono(1, q, TWO_64);
      Distribute(x, -1, p);
      MulMono(0, w, q);
      Reaches(w * q, p, x - 1);
    }
  }

  lemma ThereAndBack(x: int, p: int, q: int)
    requires p >= q > 0
    ensures var y := TruncDiv(x * p, q);
            var z := TruncDiv(y * q, p);
            && (x >= 0 ==> x - 1 <= z <= x && 0 <= z)
            && (x <= 0 ==> x <= z <= x + 1 && z <= 0)
            && (z == x <==> (x * p) % q == 0)
  {
    var y := TruncDiv(x * p, q);
    var z := TruncDiv(y * q, p);
    if x >= 0 { MulMono(0, x, p); } else { MulMono(x, 0, p); }
    TruncBounds(x * p, q);
    if y >= 0 { MulMono(0, y, q); }
    if y <= 0 { MulMono(y, 0, q); }
    TruncBounds(y * q, p);
    if x >= 0 {
      WithinOne(x, z, p, y * q, q);
    } else {
      NegProduct(x, p);
      NegProduct(z, p);
      WithinOne(-x, -z, p, -(y * q), q);
    }
    Divides(x * p, q, y);
  }

  /** `z` ticks of length `p` approximate `m`, which approximates `x` ticks from below. */
  lemma WithinOne(x: int, z: int, p: int, m: int, q: int)
    requires p >= q > 0 && x >= 0 && z >= 0
    requires z * p <= m < z * p + p && m <= x * p < m + q
    ensures x - 1 <= z <= x
    ensures z == x <==> m == x * p
  {
    Distribute(x, -1, p);
    Distribute(x, 1, p);
    Distribute(z, 1, p);
    if z > x { MulMono(x + 1, z, p); }
    if z < x { MulMono(z + 1, x, p); }
    if z < x - 1 { MulMono(z + 1, x - 1, p); }
  }

  lemma Divides(a: int, q: int, y: int)
    requires q > 0 && (a >= 0 ==> y * q <= a < y * q + q) && (a <= 0 ==> y * q >= a > y * q - q)
    ensures a % q == 0 <==> y * q == a
  {
    var t := a / q;
    assert a == t * q + a % q;
    assert (t - y) * q == t * q - y * q;
    if a % q == 0 {
      assert (t - y) * q == a - y * q;
      if t > y { MulMono(1, t - y, q); }
      if t < y { MulMono(t - y, -1, q); }
    } else if y * q == a {
      if t >= y + 1 { MulMono(1, t - y, q); }
      if t <= y - 1 { MulMono(t - y, -1, q); }
    }
  }
}
