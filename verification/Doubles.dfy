/**
 JavaScript's number arithmetic, as far as the generator needs it: IEEE 754
 binary64 with a 53-bit significand and rounding to nearest, ties to even.

 A double is modelled by an integer, namely the double multiplied by a fixed
 power of two chosen by the caller.  Multiplying by a power of two commutes with
 rounding, so one function, Fl, serves every scale.  Overflow and subnormals are
 out of reach of the generator and are not modelled.
 */
module Doubles {
  import opened Arithmetic

  const TWO52 := 0x10_0000_0000_0000
  const TWO53 := 0x20_0000_0000_0000

  /** The spacing of the doubles around x. */
  function Ulp(x: nat): (u: nat)
    ensures 1 <= u
    ensures x < u * TWO53
    ensures u == 1 || u * TWO52 <= x
  {
    if x < TWO53 then 1 else 2 * Ulp(x / 2)
  }

  /** The multiple of u that is nearest to x, an even multiple in a tie. */
  function RoundTo(x: nat, u: nat): nat
    requires 1 <= u
  {
    Nearest(x / u, x % u, u)
  }

  /** The one of two neighbouring multiples of u that q * u + r is rounded to. */
  function Nearest(q: nat, r: nat, u: nat): nat
  {
    if 2 * r < u || (2 * r == u && q % 2 == 0) then q * u else (q + 1) * u
  }

  /** Rounding of a (scaled) real result to the nearest double. */
  function Fl(x: int): int
  {
    if x < 0 then 0 - RoundTo(-x, Ulp(-x)) else RoundTo(x, Ulp(x))
  }

  /** The effect of `x | 0` on a whole number: keep 32 bits, read them as signed. */
  function ToInt32(x: int): (r: int)
    ensures 0 <= x < 0x8000_0000 ==> r == x
  {
    var m := x % 0x1_0000_0000;
    if m < 0x8000_0000 then m else m - 0x1_0000_0000
  }

  /** Rounding moves a number by at most half the spacing. */
  lemma RoundToNear(x: nat, u: int)
    requires 1 <= u
    ensures -u <= 2 * (RoundTo(x, u) - x) <= u
  {
    DivMod(x, u);
    assert (x / u + 1) * u == (x / u) * u + u;
  }

  /** The result is a multiple of the spacing, as near as any, and in a tie the even one. */
  lemma FlIsNearest(x: nat) returns (u: int, q: int, k: nat)
    ensures u == Pow2(k) && x < TWO53 * u && (u == 1 || TWO52 * u <= x)
    ensures Fl(x) == q * u && -u <= 2 * (Fl(x) - x) <= u
    ensures 2 * (Fl(x) - x) == u || 2 * (Fl(x) - x) == -u ==> q % 2 == 0
  {
    k := UlpIsPower(x);
    u := Ulp(x);
    DivMod(x, u);
    var p, r := x / u, x % u;
    q := NearestIs(p, r, u, p * u);
    assert Fl(x) == Nearest(p, r, u);
  }

  lemma NearestIs(p: nat, r: nat, u: nat, below: nat) returns (q: nat)
    requires r < u && below == p * u
    ensures Nearest(p, r, u) == q * u
    ensures (q == p && q * u == below && 2 * r <= u) || (q == p + 1 && q * u == below + u && 2 * r >= u)
    ensures 2 * r == u ==> q % 2 == 0
  {
    q := if 2 * r < u || (2 * r == u && p % 2 == 0) then p else p + 1;
    assert (p + 1) * u == below + u;
  }

  lemma {:induction false} UlpIsPower(x: nat) returns (k: nat)
    ensures Ulp(x) == Pow2(k)
  {
    k := 0;
    if x >= TWO53 {
      k := UlpIsPower(x / 2);
      k := k + 1;
    }
  }

  lemma NearestMonotone(p: nat, r: nat, q: nat, s: nat, u: nat)
    requires r < u && s < u && p * u + r <= q * u + s
    ensures Nearest(p, r, u) <= Nearest(q, s, u)
  {
    if q < p {
      MulMono(q + 1, p, u);
    } else if p < q {
      MulMono(p + 1, q, u);
    }
  }

  /** Every whole number of at most 53 bits is a double: no rounding happens. */
  lemma FlExact(x: int)
    requires -TWO53 <= x <= TWO53
    ensures Fl(x) == x
  {
    var m := if x < 0 then -x else x;
    if m == TWO53 {
      assert Ulp(m / 2) == 1;
    }
  }

  lemma UlpMonotone(x: nat, y: nat)
    requires x <= y
    ensures Ulp(x) == Ulp(y) || 2 * Ulp(x) <= Ulp(y)
  {
    if TWO53 <= x {
      UlpMonotone(x / 2, y / 2);
    }
  }

  /** Rounding preserves order. */
  lemma FlMonotone(x: nat, y: nat)
    requires x <= y
    ensures Fl(x) <= Fl(y)
  {
    var u, w := Ulp(x), Ulp(y);
    UlpMonotone(x, y);
    if u == w {
      DivMod(x, u);
      DivMod(y, u);
      NearestMonotone(x / u, x % u, y / u, y % u, u);
    } else {
      RoundedAtMost(x, u);
      RoundedAtLeast(y, w);
      MulMono(2 * u, w, TWO52);
    }
  }

  lemma RoundedAtMost(x: nat, u: nat)
    requires 1 <= u && x < u * TWO53
    ensures RoundTo(x, u) <= TWO53 * u
  {
    QuotientBounds(x, u, 0, TWO53);
    MulMono(x / u + 1, TWO53, u);
    MulMono(x / u, x / u + 1, u);
  }

  lemma RoundedAtLeast(y: nat, w: nat)
    requires 1 <= w && TWO52 * w <= y
    ensures TWO52 * w <= RoundTo(y, w)
  {
    DivMod(y, w);
    if y / w < TWO52 { MulMono(y / w + 1, TWO52, w); }
    MulMono(TWO52, y / w, w);
    MulMono(y / w, y / w + 1, w);
  }

  /** Rounding to multiples of u keeps exactly the multiples of u. */
  lemma RoundToFixed(x: nat, u: nat)
    requires 1 <= u
    ensures RoundTo(x, u) == x <==> x % u == 0
  {
    DivMod(x, u);
    assert (x / u + 1) * u == (x / u) * u + u;
  }

  /** Doubling a double gives a double. */
  lemma FlDouble(x: nat)
    requires Fl(x) == x
    ensures Fl(2 * x) == 2 * x
  {
    if 2 * x < TWO53 {
      FlExact(2 * x);
    } else {
      var u := Ulp(x);
      assert (2 * x) / 2 == x;
      assert Ulp(2 * x) == 2 * u;
      RoundToFixed(x, u);
      DivMod(x, u);
      var q := x / u;
      assert 2 * x == q * (2 * u) + 0;
      QuotientOf(2 * x, q, 0, 2 * u);
      RoundToFixed(2 * x, 2 * u);
    }
  }

  /** A 53-bit number times a power of two is a double. */
  lemma {:induction false} FlPow2(x: nat, k: nat, y: nat)
    requires x <= TWO53 && y == x * Pow2(k)
    ensures Fl(y) == y
  {
    if k == 0 {
      FlExact(x);
    } else {
      var half := x * Pow2(k - 1);
      assert y == 2 * half by { assert Pow2(k) == 2 * Pow2(k - 1); }
      FlPow2(x, k - 1, half);
      FlDouble(half);
    }
  }
}
