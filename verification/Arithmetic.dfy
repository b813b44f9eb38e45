/** Division with remainder, and powers of two. */
module Arithmetic {

  lemma DivMod(x: nat, u: nat)
    requires 1 <= u
    ensures x == (x / u) * u + x % u && 0 <= x % u < u
  {
  }

  lemma MulMono(a: int, b: int, u: nat)
    requires a <= b
    ensures a * u <= b * u
  {
  }

  lemma QuotientOf(x: nat, q: nat, r: nat, u: nat)
    requires 1 <= u && x == q * u + r && r < u
    ensures x / u == q && x % u == r
  {
    DivMod(x, u);
    var d := x / u - q;
    assert d * u == r - x % u;
    if d >= 1 { MulMono(1, d, u); } else if d <= -1 { MulMono(d, -1, u); }
  }

  lemma QuotientBounds(x: nat, u: nat, lo: nat, hi: nat)
    requires 1 <= u && lo * u <= x < hi * u
    ensures lo <= x / u < hi
  {
    DivMod(x, u);
    if x / u < lo { MulMono(x / u + 1, lo, u); }
    if x / u >= hi { MulMono(hi, x / u, u); }
  }

  function Pow2(k: nat): (r: nat)
    ensures 1 <= r
  {
    if k == 0 then 1 else 2 * Pow2(k - 1)
  }
}
