/**
 The mathematics of the lag-48 multiply-with-carry recurrence, on values.

 A state is a ring of ORDER digits in base 2^32, oldest first, and a carry.  Read
 as a number X with the carry as the top digit, one step multiplies X by
 LAG_MULTIPLIER modulo MODULUS: the circular buffer is a Lehmer generator.
 */
module Mwc {

  const MULTIPLIER: int := 1768863
  const BASE: int := 0x1_0000_0000
  const ORDER: int := 48

  datatype State = State(ring: seq<int>, carry: int)

  ghost predicate Digits(ds: seq<int>)
  {
    forall i :: 0 <= i < |ds| ==> 0 <= ds[i] < BASE
  }

  /** The states the buffer and the carry can represent. */
  ghost predicate InRange(st: State)
  {
    |st.ring| == ORDER && Digits(st.ring) && 0 <= st.carry < MULTIPLIER
  }

  /** One draw: the oldest digit leaves, a new digit enters, the carry changes. */
  function Next(st: State): State
    requires |st.ring| == ORDER
  {
    var t := MULTIPLIER * st.ring[0] + st.carry;
    State(st.ring[1..] + [t % BASE], t / BASE)
  }

  /** The digit a draw produces. */
  function Draw(st: State): int
    requires |st.ring| == ORDER
  {
    Next(st).ring[ORDER - 1]
  }

  /** The draw undone. */
  function Prev(st: State): State
    requires |st.ring| == ORDER
  {
    var t := st.carry * BASE + st.ring[ORDER - 1];
    State([t / MULTIPLIER] + st.ring[..ORDER - 1], t % MULTIPLIER)
  }

  /** The state after n draws. */
  function Run(st: State, n: nat): (r: State)
    requires |st.ring| == ORDER
    ensures |r.ring| == ORDER
  {
    if n == 0 then st else Next(Run(st, n - 1))
  }

  // ---------- numbers ----------

  function Pow(b: int, n: nat): int
  {
    if n == 0 then 1 else b * Pow(b, n - 1)
  }

  /** The number with the given digits, least significant first. */
  function Value(ds: seq<int>): int
  {
    if ds == [] then 0 else ds[0] + BASE * Value(ds[1..])
  }

  /** The number X a state stands for. */
  function StateValue(st: State): int
  {
    Value(st.ring + [st.carry])
  }

  const MODULUS: int := MULTIPLIER * Pow(BASE, ORDER) - 1
  const LAG_MULTIPLIER: int := MULTIPLIER * Pow(BASE, ORDER - 1)

  /** In range, and neither all zeros nor all maximal. */
  ghost predicate Live(st: State)
  {
    InRange(st) && 0 < StateValue(st) < MODULUS
  }

  lemma {:induction false} PowPositive(n: nat)
    ensures 1 <= Pow(BASE, n)
  {
    if n > 0 { PowPositive(n - 1); }
  }

  /** A digit appended is worth its place. */
  lemma {:induction false} ValueSnoc(ds: seq<int>, x: int)
    ensures Value(ds + [x]) == Value(ds) + x * Pow(BASE, |ds|)
  {
    if ds == [] {
      assert ds + [x] == [x];
    } else {
      assert (ds + [x])[1..] == ds[1..] + [x];
      ValueSnoc(ds[1..], x);
      var p := Pow(BASE, |ds| - 1);
      assert x * (BASE * p) == BASE * (x * p);
    }
  }

  lemma {:induction false} ValueBound(ds: seq<int>)
    requires Digits(ds)
    ensures 0 <= Value(ds) < Pow(BASE, |ds|)
  {
    if ds != [] {
      ValueBound(ds[1..]);
    }
  }

  /** Different digits make different numbers. */
  lemma {:induction false} ValueInjective(d: seq<int>, e: seq<int>)
    requires |d| == |e| && Digits(d) && Digits(e)
    requires Value(d) == Value(e)
    ensures d == e
  {
    if d != [] {
      var m, n := Value(d[1..]), Value(e[1..]);
      assert d[0] - e[0] == BASE * (n - m);
      ValueInjective(d[1..], e[1..]);
      assert d == [d[0]] + d[1..] && e == [e[0]] + e[1..];
    }
  }

  // ---------- one step ----------

  /** The sizes involved in a step: the product fits 53 bits, so a double holds it
      exactly, and the new digit and carry are in range again. */
  lemma StepInRange(st: State)
    requires InRange(st)
    ensures 0 <= MULTIPLIER * st.ring[0] + st.carry < MULTIPLIER * BASE < 0x20_0000_0000_0000
    ensures InRange(Next(st))
  {
    var t := MULTIPLIER * st.ring[0] + st.carry;
    assert 0 <= st.ring[0] <= BASE - 1;
    assert 0 <= t < MULTIPLIER * BASE;
    assert 0 <= t / BASE < MULTIPLIER;
  }

  /** A step, as arithmetic on X: BASE * X' == X + x0 * MODULUS. */
  lemma StepIsModular(st: State)
    requires |st.ring| == ORDER
    ensures BASE * StateValue(Next(st)) == StateValue(st) + st.ring[0] * MODULUS
  {
    var x0, c, rest := st.ring[0], st.carry, st.ring[1..];
    var t := MULTIPLIER * x0 + c;
    var p := Pow(BASE, ORDER - 1);
    var v := Value(rest);
    assert (st.ring + [c])[1..] == rest + [c];
    ValueSnoc(rest, c);
    ValueSnoc(rest, t % BASE);
    ValueSnoc(rest + [t % BASE], t / BASE);
    assert Pow(BASE, ORDER) == BASE * p;
    assert StateValue(Next(st)) == v + (t % BASE) * p + (t / BASE) * (BASE * p);
    StepAlgebra(x0, c, t, v, p);
  }

  lemma StepAlgebra(x0: int, c: int, t: int, v: int, p: int)
    requires t == MULTIPLIER * x0 + c
    ensures BASE * (v + (t % BASE) * p + (t / BASE) * (BASE * p)) ==
      (x0 + BASE * (v + c * p)) + x0 * (MULTIPLIER * (BASE * p) - 1)
  {
    Distribute(t % BASE, t / BASE, p);
    assert t == t % BASE + (t / BASE) * BASE;
    ProductOfSum(x0, c, p);
    assert x0 * (MULTIPLIER * (BASE * p)) == BASE * (MULTIPLIER * (x0 * p));
  }

  lemma ProductOfSum(x0: int, c: int, p: int)
    ensures (MULTIPLIER * x0 + c) * p == MULTIPLIER * (x0 * p) + c * p
  {
  }

  lemma Distribute(lo: int, hi: int, p: int)
    ensures lo * p + hi * (BASE * p) == (lo + hi * BASE) * p
  {
  }

  /** A draw keeps a live state live: neither fixed point is ever entered. */
  lemma StepLive(st: State)
    requires Live(st)
    ensures Live(Next(st))
  {
    StepInRange(st);
    StepIsModular(st);
    var x0 := st.ring[0];
    assert 0 <= x0 <= BASE - 1;
    MulUpTo(x0, BASE - 1, MODULUS);
  }

  lemma MulUpTo(x: int, hi: int, m: int)
    requires 0 <= x <= hi && 0 <= m
    ensures 0 <= x * m <= hi * m
  {
  }

  /** The two excluded values are exactly the fixed points of the step. */
  lemma FixedPoints(st: State)
    requires InRange(st)
    ensures 0 <= StateValue(st) <= MODULUS
    ensures Next(st) == st <==> StateValue(st) == 0 || StateValue(st) == MODULUS
  {
    ValueBounds(st);
    StepIsModular(st);
    StepInRange(st);
    var x, x0 := StateValue(st), st.ring[0];
    if Next(st) == st {
      FixedDigits(st);
      if x0 == BASE - 1 {
        assert (BASE - 1) * x == (BASE - 1) * MODULUS;
      }
    } else if x == 0 || x == MODULUS {
      LowestDigit(st);
      assert StateValue(Next(st)) == x;
      StateInjective(st, Next(st));
      assert false;
    }
  }

  lemma ValueBounds(st: State)
    requires InRange(st)
    ensures 0 <= StateValue(st) <= MODULUS
  {
    ValueBound(st.ring);
    ValueSnoc(st.ring, st.carry);
    MulUpTo(st.carry, MULTIPLIER - 1, Pow(BASE, ORDER));
  }

  /** The oldest digit is X modulo BASE. */
  lemma LowestDigit(st: State)
    requires InRange(st)
    ensures StateValue(st) % BASE == st.ring[0]
    ensures StateValue(st) == MODULUS ==> st.ring[0] == BASE - 1
  {
    var ds := st.ring + [st.carry];
    LowDigit(ds[0], Value(ds[1..]));
    var p := Pow(BASE, ORDER - 1);
    LowDigit(BASE - 1, MULTIPLIER * p - 1);
    assert Pow(BASE, ORDER) == BASE * p;
  }

  lemma LowDigit(x: int, y: int)
    requires 0 <= x < BASE
    ensures (x + BASE * y) % BASE == x
  {
  }

  /** A state the step does not change has a constant ring of extreme digits. */
  lemma FixedDigits(st: State)
    requires InRange(st) && Next(st) == st
    ensures st.ring[0] == 0 || st.ring[0] == BASE - 1
  {
    var x := st.ring[0];
    ConstantRing(st, ORDER - 1);
    assert st.ring[ORDER - 1] == x;
    var t := MULTIPLIER * x + st.carry;
    assert t % BASE == x && t / BASE == st.carry;
    assert t == BASE * st.carry + x;
    assert (MULTIPLIER - 1) * x == (BASE - 1) * st.carry;
    // MULTIPLIER - 1 and BASE - 1 have no common factor, so BASE - 1 divides x
    CoprimeStep(x, st.carry);
  }

  lemma {:induction false} ConstantRing(st: State, i: nat)
    requires InRange(st) && Next(st) == st && i < ORDER
    ensures st.ring[i] == st.ring[0]
  {
    if i > 0 {
      ConstantRing(st, i - 1);
      assert Next(st).ring[i - 1] == st.ring[i];
    }
  }

  lemma CoprimeStep(x: int, c: int)
    requires 0 <= x < BASE
    requires (MULTIPLIER - 1) * x == (BASE - 1) * c
    ensures x == 0 || x == BASE - 1
  {
    // Bezout coefficients of MULTIPLIER - 1 and BASE - 1
    assert x == (BASE - 1) * (-886932592 * c +365279 * x);
  }

  lemma StateInjective(st: State, su: State)
    requires InRange(st) && InRange(su)
    requires StateValue(st) == StateValue(su)
    ensures st == su
  {
    ValueInjective(st.ring + [st.carry], su.ring + [su.carry]);
    assert st.ring == (st.ring + [st.carry])[..ORDER];
    assert su.ring == (su.ring + [su.carry])[..ORDER];
    assert st.carry == (st.ring + [st.carry])[ORDER];
    assert su.carry == (su.ring + [su.carry])[ORDER];
  }

  /** The draw and its undoing are inverse to each other: no state is lost, no two
      states are merged. */
  lemma PrevUndoesNext(st: State)
    requires InRange(st)
    ensures Prev(Next(st)) == st
  {
    StepInRange(st);
    var t := MULTIPLIER * st.ring[0] + st.carry;
    assert (t / BASE) * BASE + t % BASE == t;
    assert t / MULTIPLIER == st.ring[0] && t % MULTIPLIER == st.carry;
    assert [st.ring[0]] + st.ring[1..] == st.ring;
    assert (st.ring[1..] + [t % BASE])[..ORDER - 1] == st.ring[1..];
  }

  lemma NextUndoesPrev(st: State)
    requires InRange(st)
    ensures InRange(Prev(st)) && Next(Prev(st)) == st
  {
    var last := st.ring[ORDER - 1];
    var t := st.carry * BASE + last;
    assert 0 <= t < MULTIPLIER * BASE;
    assert 0 <= t / MULTIPLIER < BASE;
    assert MULTIPLIER * (t / MULTIPLIER) + t % MULTIPLIER == t;
    assert t / BASE == st.carry && t % BASE == last;
    assert ([t / MULTIPLIER] + st.ring[..ORDER - 1])[1..] == st.ring[..ORDER - 1];
    assert st.ring[..ORDER - 1] + [last] == st.ring;
  }

  // ---------- whole runs ----------

  /** The invariant of every run: all states reached from a live state are live. */
  lemma {:induction false} RunLive(st: State, n: nat)
    requires Live(st)
    ensures Live(Run(st, n))
  {
    if n > 0 {
      RunLive(st, n - 1);
      StepLive(Run(st, n - 1));
    }
  }

  lemma {:induction false} RunPlus(st: State, m: nat, n: nat)
    requires |st.ring| == ORDER
    ensures Run(Run(st, m), n) == Run(st, m + n)
  {
    if n > 0 {
      RunPlus(st, m, n - 1);
    }
  }

  lemma ModUnique(x: int, y: int, k: int, m: int)
    requires 0 <= x < m && y == x + k * m
    ensures y % m == x
  {
    var q, r := y / m, y % m;
    assert y == q * m + r;
    assert (q - k) * m == x - r;
    if q - k >= 1 { MulUpTo(1, q - k, m); } else if q - k <= -1 { MulUpTo(1, k - q, m); }
  }

  /** One draw is one Lehmer step: X' == LAG_MULTIPLIER * X modulo MODULUS. */
  lemma StepIsLehmer(st: State)
    requires Live(st)
    ensures StateValue(Next(st)) == (LAG_MULTIPLIER * StateValue(st)) % MODULUS
  {
    StepIsModular(st);
    StepLive(st);
    LehmerAlgebra(StateValue(st), StateValue(Next(st)), st.ring[0], LAG_MULTIPLIER, MODULUS);
  }

  lemma LehmerAlgebra(x: int, y: int, d: int, g: int, m: int)
    requires BASE * g == m + 1 && BASE * y == x + d * m && 0 <= y < m
    ensures y == (g * x) % m
  {
    assert g * (BASE * y) == g * x + (g * d) * m;
    assert g * (BASE * y) == y * m + y;
    assert g * x == y + (y - g * d) * m;
    ModUnique(y, g * x, y - g * d, m);
  }

  /** The circular buffer is a Lehmer generator: n draws multiply X by the n-th
      power of LAG_MULTIPLIER modulo MODULUS. */
  lemma {:induction false} RunIsLehmer(st: State, n: nat)
    requires Live(st)
    ensures StateValue(Run(st, n)) == (Pow(LAG_MULTIPLIER, n) * StateValue(st)) % MODULUS
  {
    var x := StateValue(st);
    if n == 0 {
      ModUnique(x, x, 0, MODULUS);
    } else {
      RunIsLehmer(st, n - 1);
      RunLive(st, n - 1);
      StepIsLehmer(Run(st, n - 1));
      MulModRight(LAG_MULTIPLIER, Pow(LAG_MULTIPLIER, n - 1), x, MODULUS);
    }
  }

  lemma MulModRight(g: int, p: int, x: int, m: int)
    requires 0 < m
    ensures (g * ((p * x) % m)) % m == ((g * p) * x) % m
  {
    var y := p * x;
    var r, k := (g * (y % m)) % m, (g * (y % m)) / m;
    var q := y / m;
    assert g * (q * m + y % m) == (g * q) * m + g * (y % m);
    assert y == q * m + y % m;
    assert (g * p) * x == g * y;
    assert g * y == r + (k + g * q) * m;
    ModUnique(r, g * y, k + g * q, m);
  }

  /** A digit produced by draw n is the oldest digit ORDER draws later. */
  lemma {:induction false} DigitMoves(st: State, k: nat)
    requires |st.ring| == ORDER && k < ORDER
    ensures Run(Next(st), k).ring[ORDER - 1 - k] == Draw(st)
  {
    if k > 0 {
      DigitMoves(st, k - 1);
      var before := Run(Next(st), k - 1);
      assert Next(before).ring[ORDER - 1 - k] == before.ring[ORDER - k];
    }
  }

  /** The closed form of the whole output stream: draw n is the residue modulo BASE
      of a power of LAG_MULTIPLIER times the seed value, modulo MODULUS. */
  lemma DrawClosedForm(st: State, n: nat)
    requires Live(st)
    ensures Draw(Run(st, n)) == (Pow(LAG_MULTIPLIER, n + ORDER) * StateValue(st)) % MODULUS % BASE
  {
    var su := Run(st, n);
    RunLive(st, n);
    DigitMoves(su, ORDER - 1);
    RunPlus(su, 1, ORDER - 1);
    assert Run(su, 1) == Next(Run(su, 0));
    RunPlus(st, n, ORDER);
    RunLive(st, n + ORDER);
    LowestDigit(Run(st, n + ORDER));
    RunIsLehmer(st, n + ORDER);
  }

  // ---------- periodicity ----------

  /** Going back along two equal states of a run leads to the start. */
  lemma {:induction false} RunCancels(st: State, i: nat, j: nat)
    requires Live(st) && i <= j && Run(st, i) == Run(st, j)
    ensures Run(st, j - i) == st
  {
    if i > 0 {
      var k, l := i - 1, j - 1;
      BackOne(st, k, l);
      RunCancels(st, k, l);
    }
  }

  lemma BackOne(st: State, k: nat, l: nat)
    requires Live(st) && Next(Run(st, k)) == Next(Run(st, l))
    ensures Run(st, k) == Run(st, l)
  {
    RunLive(st, k);
    RunLive(st, l);
    PrevUndoesNext(Run(st, k));
    PrevUndoesNext(Run(st, l));
  }

  ghost function ValuesUpTo(st: State, n: nat): set<int>
    requires |st.ring| == ORDER
  {
    if n == 0 then {} else ValuesUpTo(st, n - 1) + {StateValue(Run(st, n - 1))}
  }

  lemma {:induction false} ValuesUpToMembers(st: State, n: nat, x: int)
    requires |st.ring| == ORDER && x in ValuesUpTo(st, n)
    ensures exists i :: 0 <= i < n && StateValue(Run(st, i)) == x
  {
    if x != StateValue(Run(st, n - 1)) {
      ValuesUpToMembers(st, n - 1, x);
    }
  }

  /** Up to the first repetition every draw adds a new value. */
  lemma {:induction false} DistinctValues(st: State, n: nat)
    requires Live(st)
    requires forall k :: 1 <= k < n ==> Run(st, k) != st
    ensures |ValuesUpTo(st, n)| == n
  {
    if n > 0 {
      DistinctValues(st, n - 1);
      if StateValue(Run(st, n - 1)) in ValuesUpTo(st, n - 1) {
        var k := RepeatedValue(st, n - 1);
        assert false;
      }
    }
  }

  lemma RepeatedValue(st: State, n: nat) returns (k: nat)
    requires Live(st) && StateValue(Run(st, n)) in ValuesUpTo(st, n)
    ensures 1 <= k <= n && Run(st, k) == st
  {
    ValuesUpToMembers(st, n, StateValue(Run(st, n)));
    var i :| 0 <= i < n && StateValue(Run(st, i)) == StateValue(Run(st, n));
    RunLive(st, i);
    RunLive(st, n);
    StateInjective(Run(st, i), Run(st, n));
    RunCancels(st, i, n);
    k := n - i;
  }

  lemma {:induction false} BoundedSet(s: set<int>, n: nat)
    requires 0 < n && forall x :: x in s ==> 0 < x < n
    ensures |s| < n
  {
    if n == 1 {
      assert forall x :: x !in s;
    } else {
      BoundedSet(s - {n - 1}, n - 1);
    }
  }

  lemma {:induction false} ValuesInModulus(st: State, n: nat)
    requires Live(st)
    ensures forall x :: x in ValuesUpTo(st, n) ==> 0 < x < MODULUS
  {
    if n > 0 {
      ValuesInModulus(st, n - 1);
      RunLive(st, n - 1);
    }
  }

  /** Every live state recurs within MODULUS - 1 draws, so the stream of draws is
      purely periodic: it has no lead-in from which it never returns. */
  lemma Recurs(st: State)
    requires Live(st)
    ensures exists n :: 1 <= n < MODULUS && Run(st, n) == st
  {
    if forall k :: 1 <= k < MODULUS ==> Run(st, k) != st {
      DistinctValues(st, MODULUS);
      ValuesInModulus(st, MODULUS);
      BoundedSet(ValuesUpTo(st, MODULUS), MODULUS);
      assert false;
    }
  }
}
