/**
 How `random(range)` spreads the 2^53 numerators over [0, range), with the product
 rounded as a double.
 */
module RandomRange {
  import opened Arithmetic
  import opened Doubles
  import opened Mwc
  import opened Uheprng

  /** The numerators for which random(range) is v. */
  ghost function Hits(range: nat, v: int): set<int>
  {
    set k: int | 0 <= k < TWO53 && RandomValue(range, k) == v
  }

  /** The least numerator whose exact product with range reaches v. */
  function Ceil(range: nat, v: nat): nat
    requires 0 < range
  {
    (v * TWO53 + range - 1) / range
  }

  /** Whether rounding lifts the numerator just below Ceil(range, v) up to v: its product
      with range misses v * 2^53 by less than half the spacing of the doubles there, or
      by half of it where a tie rounds up. */
  predicate Lifted(range: nat, v: nat)
    requires 0 < range
  {
    0 < Ceil(range, v) &&
    var x := range * (Ceil(range, v) - 1);
    var u, d := Ulp(x), v * TWO53 - x;
    2 * d < u || (2 * d == u && x / u % 2 == 1)
  }

  /** The least numerator for which random(range) reaches v. */
  function First(range: nat, v: nat): nat
    requires 0 < range
  {
    if Lifted(range, v) then Ceil(range, v) - 1 else Ceil(range, v)
  }

  lemma CeilBounds(range: nat, v: nat)
    requires 0 < range
    ensures v * TWO53 <= range * Ceil(range, v) < v * TWO53 + range
  {
    CeilDiv(v * TWO53, range);
  }

  lemma CeilDiv(x: nat, d: nat)
    requires 0 < d
    ensures x <= d * ((x + d - 1) / d) < x + d
  {
    DivMod(x + d - 1, d);
  }

  lemma MulLess(d: nat, a: int, b: int)
    requires d * a < d * b
    ensures a < b
  {
    if b <= a { MulMono(b, a, d); }
  }

  lemma FloorOf(x: int, v: int)
    ensures x / TWO53 >= v <==> x >= v * TWO53
  {
  }

  /** From Ceil on the value is at least v. */
  lemma AboveCeil(range: nat, v: nat, k: nat)
    requires 0 < range && v <= TWO53 && Ceil(range, v) <= k
    ensures RandomValue(range, k) >= v
  {
    CeilBounds(range, v);
    MulMono(Ceil(range, v), k, range);
    Pow2At53();
    FlPow2(v, 53, v * TWO53);
    FlMonotone(v * TWO53, range * k);
    FloorOf(Fl(range * k), v);
  }

  lemma Pow2At53()
    ensures Pow2(53) == TWO53
  {
    Pow2Twice(3, 8);
    Pow2Twice(6, 64);
    Pow2Twice(12, 4096);
    Pow2Twice(24, 0x100_0000);
    Pow2Sum(48, 5);
  }

  lemma Pow2Twice(e: nat, p: nat)
    requires Pow2(e) == p
    ensures Pow2(2 * e) == p * p
  {
    Pow2Sum(e, e);
  }

  lemma MulDouble(a: int, b: int)
    ensures (2 * a) * b == 2 * (a * b)
  {
  }

  lemma {:induction false} Pow2Sum(d: nat, e: nat)
    ensures Pow2(d) * Pow2(e) == Pow2(d + e)
  {
    if d > 0 {
      Pow2Sum(d - 1, e);
      MulDouble(Pow2(d - 1), Pow2(e));
    }
  }

  /** Rounding cannot lift a product by range or more. */
  lemma BelowCeil(range: nat, v: nat, k: nat)
    requires 0 < range && v <= range && range * k <= v * TWO53 - range
    ensures RandomValue(range, k) < v
  {
    var x := range * k;
    RoundToNear(x, Ulp(x));
    MulMono(v, range, TWO53);
    FloorOf(Fl(x), v);
  }

  /** The spacing of the doubles is a power of two, and divides 2^53 if it is no larger. */
  lemma {:induction false} UlpDivides(x: nat) returns (e: nat)
    ensures Ulp(x) == Pow2(e)
    ensures e <= 53 ==> Ulp(x) * Pow2(53 - e) == TWO53
  {
    if x < TWO53 {
      e := 0;
    } else {
      e := UlpDivides(x / 2);
      e := e + 1;
    }
    if e <= 53 {
      Pow2Sum(e, 53 - e);
      Pow2At53();
    }
  }

  lemma {:induction false} Pow2Grows(d: nat, e: nat)
    requires d <= e
    ensures Pow2(d) <= Pow2(e)
  {
    if d < e { Pow2Grows(d, e - 1); }
  }

  lemma SpacingExponent(x: nat, e: nat)
    requires x < TWO53 * TWO53 && Ulp(x) == Pow2(e)
    ensures e <= 53
  {
    MulLess(TWO52, Ulp(x), 2 * TWO53);
    Pow2At53();
    if e > 53 { Pow2Grows(54, e); }
  }

  /** Below v * 2^53 the spacing divides it. */
  lemma MultipleOfSpacing(x: nat, v: nat) returns (w: nat)
    requires x < v * TWO53 <= TWO53 * TWO53
    ensures v * TWO53 == w * Ulp(x)
  {
    var e := UlpDivides(x);
    SpacingExponent(x, e);
    w := v * Pow2(53 - e);
    MulSwap(v, Ulp(x), Pow2(53 - e));
  }

  lemma MulSwap(a: int, b: int, c: int)
    ensures a * (b * c) == (a * c) * b
  {
  }

  /** A number below a multiple of the spacing is rounded up to it exactly if it is nearer
      to it than to the multiple below, or a tie goes there. */
  lemma RoundsUpTo(x: nat, u: nat, w: nat)
    requires 1 <= u && x < w * u
    ensures var d := w * u - x;
      RoundTo(x, u) >= w * u <==> 2 * d < u || (2 * d == u && x / u % 2 == 1)
  {
    DivMod(x, u);
    if w <= x / u { MulMono(w, x / u, u); }
    RoundGap(u, x / u, x % u, w);
  }

  lemma RoundGap(u: nat, q: nat, r: nat, w: nat)
    requires r < u && q < w
    ensures var d := w * u - q * u - r;
      (if 2 * r < u || (2 * r == u && q % 2 == 0) then q * u else (q + 1) * u) >= w * u
      <==> 2 * d < u || (2 * d == u && q % 2 == 1)
  {
    StepOf(q, u);
    if w > q + 1 {
      StepOf(q + 1, u);
      MulMono(q + 2, w, u);
    }
  }

  /** Lifted says, arithmetically, that the value just below Ceil reaches v. */
  lemma LiftedReaches(range: nat, v: nat)
    requires 0 < range <= TWO53 && v <= range
    ensures Lifted(range, v) <==> 0 < Ceil(range, v) && RandomValue(range, Ceil(range, v) - 1) >= v
  {
    if 0 < Ceil(range, v) {
      var x := range * (Ceil(range, v) - 1);
      CeilBounds(range, v);
      MulSub(range, Ceil(range, v), 1);
      MulMono(v, TWO53, TWO53);
      var w := MultipleOfSpacing(x, v);
      RoundsUpTo(x, Ulp(x), w);
      FloorOf(Fl(x), v);
    }
  }

  /** random(range) reaches v exactly from First(range, v) on. */
  lemma Threshold(range: nat, v: nat, k: nat)
    requires 0 < range <= TWO53 && v <= range
    ensures RandomValue(range, k) >= v <==> First(range, v) <= k
  {
    LiftedReaches(range, v);
    ThresholdAt(range, v, k, Ceil(range, v), First(range, v));
  }

  lemma ThresholdAt(range: nat, v: nat, k: nat, m: nat, first: nat)
    requires 0 < range <= TWO53 && v <= range && m == Ceil(range, v)
    requires first == if 0 < m && RandomValue(range, m - 1) >= v then m - 1 else m
    ensures RandomValue(range, k) >= v <==> first <= k
  {
    if m <= k {
      AboveCeil(range, v, k);
    } else if k + 1 < m {
      BelowBoth(range, v, k);
    }
  }

  lemma BelowBoth(range: nat, v: nat, k: nat)
    requires 0 < range && v <= range && k + 1 < Ceil(range, v)
    ensures RandomValue(range, k) < v
  {
    CeilBounds(range, v);
    MulMono(k + 2, Ceil(range, v), range);
    assert range * (k + 2) == range * k + 2 * range;
    BelowCeil(range, v, k);
  }

  /** Doubles or not, random(range) is below range for every range up to 2^53. */
  lemma RandomBelowRange(range: nat, k: nat)
    requires 0 < range <= TWO53 && k < TWO53
    ensures 0 <= RandomValue(range, k) < range
  {
    MulMono(k + 1, TWO53, range);
    assert range * (k + 1) == range * k + range;
    BelowCeil(range, range, k);
  }

  // ---------- ranges beyond 2^53 ----------

  /** Doubling commutes with rounding. */
  lemma FlScale(x: nat)
    ensures Fl(2 * x) == 2 * Fl(x)
  {
    var u := Ulp(x);
    if x < TWO53 {
      FlExact(x);
      FlDouble(x);
    } else {
      assert (2 * x) / 2 == x;
      assert Ulp(2 * x) == 2 * u;
      RoundToScale(x, u);
    }
  }

  lemma RoundToScale(x: nat, u: nat)
    requires 1 <= u
    ensures RoundTo(2 * x, 2 * u) == 2 * RoundTo(x, u)
  {
    DivMod(x, u);
    var q, r := x / u, x % u;
    assert 2 * x == q * (2 * u) + 2 * r;
    QuotientOf(2 * x, q, 2 * r, 2 * u);
    assert q * (2 * u) == 2 * (q * u) && (q + 1) * (2 * u) == 2 * ((q + 1) * u);
  }

  lemma {:induction false} FlScalePow2(x: nat, e: nat)
    ensures Fl(x * Pow2(e)) == Fl(x) * Pow2(e)
  {
    if e > 0 {
      var k := e - 1;
      FlScalePow2(x, k);
      FlScale(x * Pow2(k));
      MulTwice(x, Pow2(k));
      MulTwice(Fl(x), Pow2(k));
    }
  }

  lemma MulTwice(x: int, p: int)
    ensures x * (2 * p) == 2 * (x * p)
  {
  }

  /** A whole double beyond 2^53 is a 53-bit number times a power of two. */
  lemma Significand(range: nat) returns (m: nat, e: nat)
    requires 0 < range && Fl(range) == range
    ensures range == m * Pow2(e) && 0 < m <= TWO53
  {
    var u := Ulp(range);
    e := UlpDivides(range);
    RoundToFixed(range, u);
    DivMod(range, u);
    QuotientBounds(range, u, 0, TWO53);
    m := range / u;
  }

  /** Whatever whole double the range is, the value is below it. */
  lemma RandomBelowAnyRange(range: nat, k: nat)
    requires 0 < range && Fl(range) == range && k < TWO53
    ensures 0 <= RandomValue(range, k) < range
  {
    var m, e := Significand(range);
    RandomBelowRange(m, k);
    ScaledProduct(range, m, e, k);
    var scaled := Fl(m * k) * Pow2(e);
    assert RandomValue(range, k) == scaled / TWO53;
    BelowScaled(Fl(m * k), m, Pow2(e));
  }

  lemma ScaledProduct(range: nat, m: nat, e: nat, k: nat)
    requires range == m * Pow2(e)
    ensures Fl(range * k) == Fl(m * k) * Pow2(e)
  {
    ProductRegrouped(m, Pow2(e), k);
    FlScalePow2(m * k, e);
  }

  lemma ProductRegrouped(m: nat, p: nat, k: nat)
    ensures (m * p) * k == (m * k) * p
  {
  }

  lemma BelowScaled(y: nat, m: nat, p: nat)
    requires y / TWO53 < m && 1 <= p
    ensures (y * p) / TWO53 < m * p
  {
    FloorOf(y, m);
    MulMono(y + 1, m * TWO53, p);
    assert (m * TWO53) * p == (m * p) * TWO53;
    assert (y + 1) * p == y * p + p;
    FloorOf(y * p, m * p);
  }

  /** The values of the first n numerators. */
  ghost function Values(range: nat, n: nat): set<int>
  {
    if n == 0 then {} else Values(range, n - 1) + {RandomValue(range, n - 1)}
  }

  lemma {:induction false} ValuesCount(range: nat, n: nat)
    ensures |Values(range, n)| <= n
    ensures forall k :: 0 <= k < n ==> RandomValue(range, k) in Values(range, n)
  {
    if n > 0 { ValuesCount(range, n - 1); }
  }

  lemma {:induction false} AllBelow(s: set<int>, n: nat)
    requires forall v :: 0 <= v < n ==> v in s
    ensures n <= |s|
  {
    if n > 0 {
      var t := s - {n - 1};
      forall v | 0 <= v < n - 1 ensures v in t {
        assert v in s;
      }
      AllBelow(t, n - 1);
    }
  }

  /** Beyond 2^53 the numerators do not suffice: some value below the range is never
      given. */
  lemma SomeNeverGiven(range: nat) returns (v: nat)
    requires TWO53 < range
    ensures v < range && Hits(range, v) == {}
  {
    ValuesCount(range, TWO53);
    if forall v :: 0 <= v < range ==> v in Values(range, TWO53) {
      AllBelow(Values(range, TWO53), range);
      assert false;
    }
    v :| 0 <= v < range && v !in Values(range, TWO53);
  }

  // ---------- how often a value is given ----------

  lemma {:induction false} IntervalSize(s: set<int>, lo: int, hi: int)
    requires lo <= hi && forall k :: k in s <==> lo <= k < hi
    ensures |s| == hi - lo
    decreases hi - lo
  {
    if lo == hi {
      assert s == {};
    } else {
      IntervalSize(s - {lo}, lo + 1, hi);
    }
  }

  lemma FirstUpTo(range: nat, v: nat)
    requires 0 < range && v <= range
    ensures First(range, v) <= TWO53
  {
    CeilUpTo(range, v);
  }

  lemma FirstOrdered(range: nat, v: nat)
    requires 0 < range <= TWO53 && v < range
    ensures First(range, v) <= First(range, v + 1)
  {
    Threshold(range, v + 1, First(range, v + 1));
    Threshold(range, v, First(range, v + 1));
  }

  /** The number of numerators that give v. */
  lemma HitCount(range: nat, v: nat)
    requires 0 < range <= TWO53 && v < range
    ensures |Hits(range, v)| == First(range, v + 1) - First(range, v)
  {
    FirstOrdered(range, v);
    FirstUpTo(range, v + 1);
    forall k ensures k in Hits(range, v) <==> First(range, v) <= k < First(range, v + 1) {
      if 0 <= k < TWO53 {
        Threshold(range, v, k);
        Threshold(range, v + 1, k);
      }
    }
    IntervalSize(Hits(range, v), First(range, v), First(range, v + 1));
  }

  /** Every value is hit a fair number of times, give or take less than two. */
  lemma NearlyFair(range: nat, v: nat)
    requires 0 < range <= TWO53 && v < range
    ensures TWO53 - 2 * range < range * |Hits(range, v)| < TWO53 + 2 * range
  {
    HitCount(range, v);
    FirstTimes(range, v);
    FirstTimes(range, v + 1);
    MulSub(range, First(range, v + 1), First(range, v));
  }

  lemma MulSub(d: int, a: int, b: int)
    ensures d * (a - b) == d * a - d * b
  {
  }

  lemma FirstTimes(range: nat, v: nat)
    requires 0 < range
    ensures v * TWO53 - range <= range * First(range, v) < v * TWO53 + range
  {
    CeilBounds(range, v);
    MulSub(range, Ceil(range, v), 1);
  }

  /** The fair counts: 2^53 / range rounded down or up. */
  predicate Fair(range: nat, count: nat)
    requires 0 < range
  {
    TWO53 - range < range * count < TWO53 + range
  }

  /** The count in exact arithmetic is always fair. */
  lemma ExactlyFair(range: nat, v: nat)
    requires 0 < range
    ensures Ceil(range, v) <= Ceil(range, v + 1)
    ensures Fair(range, Ceil(range, v + 1) - Ceil(range, v))
  {
    CeilBounds(range, v);
    CeilBounds(range, v + 1);
    var a, b := Ceil(range, v), Ceil(range, v + 1);
    if b < a { MulMono(b + 1, a, range); }
    MulSub(range, b, -1);
    MulSub(range, b, a);
  }

  /** In doubles a value is hit fairly unless exactly one end of its interval is
      lifted and the exact count is already at that end of the fair counts. */
  lemma FairExactlyWhen(range: nat, v: nat)
    requires 0 < range <= TWO53 && v < range
    ensures var exact := Ceil(range, v + 1) - Ceil(range, v);
      Fair(range, |Hits(range, v)|) <==>
        (Lifted(range, v) == Lifted(range, v + 1)) ||
        (Lifted(range, v) && range * exact < TWO53) ||
        (Lifted(range, v + 1) && range * exact > TWO53)
  {
    HitCount(range, v);
    ExactlyFair(range, v);
    var exact := Ceil(range, v + 1) - Ceil(range, v);
    MulSub(range, exact, 1);
    MulSub(range, exact, -1);
  }

  /** For a power of two the product is exact and every value is equally likely. */
  lemma PowerOfTwoIsUniform(range: nat, e: nat, v: nat)
    requires range == Pow2(e) && e <= 53 && v < range
    ensures range * |Hits(range, v)| == TWO53
  {
    var q := Pow2(53 - e);
    Pow2Sum(e, 53 - e);
    Pow2At53();
    DivisorBound(range, q, TWO53);
    HitCount(range, v);
    PowerOfTwoFirst(range, e, v, q);
    PowerOfTwoFirst(range, e, v + 1, q);
    StepOf(v, q);
  }

  lemma PowerOfTwoFirst(range: nat, e: nat, v: nat, q: nat)
    requires range == Pow2(e) <= TWO53 && v <= range && TWO53 == range * q
    ensures First(range, v) == v * q
  {
    PowerOfTwoNotLifted(range, e, v);
    CeilOfMultiple(range, v, q);
  }

  lemma DivisorBound(d: nat, q: nat, m: nat)
    requires 1 <= q && d * q == m
    ensures d <= m
  {
    MulMono(1, q, d);
  }

  lemma StepOf(v: int, q: int)
    ensures (v + 1) * q - v * q == q
  {
  }

  lemma PowerOfTwoNotLifted(range: nat, e: nat, v: nat)
    requires range == Pow2(e) <= TWO53 && v <= range
    ensures !Lifted(range, v)
  {
    LiftedReaches(range, v);
    if 0 < Ceil(range, v) { JustBelow(range, e, v, Ceil(range, v) - 1); }
  }

  lemma JustBelow(range: nat, e: nat, v: nat, k: nat)
    requires range == Pow2(e) <= TWO53 && v <= range && k + 1 == Ceil(range, v)
    ensures RandomValue(range, k) < v
  {
    BelowProduct(range, v, k);
    CeilUpTo(range, v);
    ExactProduct(range, e, k);
    FloorOf(range * k, v);
  }

  lemma BelowProduct(range: nat, v: nat, k: nat)
    requires 0 < range && k + 1 == Ceil(range, v)
    ensures range * k < v * TWO53
  {
    CeilBounds(range, v);
    MulSub(range, k + 1, 1);
  }

  lemma ExactProduct(range: nat, e: nat, k: nat)
    requires range == Pow2(e) && k <= TWO53
    ensures RandomValue(range, k) == range * k / TWO53
  {
    FlPow2(k, e, range * k);
  }

  lemma CeilUpTo(range: nat, v: nat)
    requires 0 < range && v <= range
    ensures Ceil(range, v) <= TWO53
  {
    CeilBounds(range, v);
    MulMono(v, range, TWO53);
    assert range * (TWO53 + 1) == range * TWO53 + range;
    MulLess(range, Ceil(range, v), TWO53 + 1);
  }

  lemma CeilOfMultiple(range: nat, v: nat, q: nat)
    requires 0 < range && TWO53 == range * q
    ensures Ceil(range, v) == v * q
  {
    assert v * (range * q) == (v * q) * range;
    QuotientOf(v * TWO53 + range - 1, v * q, range - 1, range);
  }

  /** In doubles `random` is not exactly fair: of the 2^53 numerators, one too few
      gives 8 out of 10. */
  lemma EightOutOfTen()
    ensures |Hits(10, 8)| == TWO53 / 10 - 1
    ensures !Fair(10, |Hits(10, 8)|)
  {
    HitCount(10, 8);
    assert Ceil(10, 8) == 7205759403792794 && Ceil(10, 9) == 8106479329266893;
    SpacingBelowEight();
    SpacingBelowNine();
    assert !Lifted(10, 8) && Lifted(10, 9);
  }

  lemma SpacingBelowEight()
    ensures Ulp(72057594037927930) == 8
  {
    var x: nat := 72057594037927930;
    assert Ulp(x / 8) == 1 && Ulp(x / 4) == 2 && Ulp(x / 2) == 4;
  }

  lemma SpacingBelowNine()
    ensures Ulp(81064793292668920) == 16
  {
    var y: nat := 81064793292668920;
    assert Ulp(y / 16) == 1 && Ulp(y / 8) == 2 && Ulp(y / 4) == 4 && Ulp(y / 2) == 8;
  }

  /** The stream of draws repeats after period draws. */
  predicate IsPeriod(st: State, period: nat)
    requires |st.ring| == ORDER
  {
    1 <= period < MODULUS && Run(st, period) == st
  }

  /** Draw n of a run from st, from powers of the multiplier alone. */
  function ClosedForm(st: State, n: nat): int
  {
    (Pow(LAG_MULTIPLIER, n + ORDER) * StateValue(st)) % MODULUS % BASE
  }

  /** What a run from st is like after n draws: live, about to move, in its closed form, and
      in a state that recurs. */
  ghost predicate GoesOn(st: State, n: nat)
    requires |st.ring| == ORDER
  {
    && Live(Run(st, n)) && Run(st, n + 1) != Run(st, n)
    && Draw(Run(st, n)) == ClosedForm(st, n)
    && exists period :: IsPeriod(Run(st, n), period)
  }

  /** Everything a seeded generator will ever do: it stays live, it never stands still, it
      follows the closed form, and every state it reaches recurs. */
  lemma SeededRun<N>(core: MashCore<N>, seed: JsString, n: nat)
    ensures GoesOn(SeededState(core, seed), n)
  {
    var st := SeededState(core, seed);
    CarryOneIsLive(st.ring);
    LiveGoesOn(st, n);
  }

  lemma LiveGoesOn(st: State, n: nat)
    requires Live(st)
    ensures GoesOn(st, n)
  {
    RunLive(st, n);
    FixedPoints(Run(st, n));
    DrawClosedForm(st, n);
    Recurs(Run(st, n));
    var period :| 1 <= period < MODULUS && Run(Run(st, n), period) == Run(st, n);
    assert IsPeriod(Run(st, n), period);
  }
}
