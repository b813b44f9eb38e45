/**
 The UHEPRNG generator object: hashing a seed into the 48 slots, drawing, and the
 integers and hexadecimal strings made from draws.

 Every 32-bit fraction of the program is stored here multiplied by 2^32.  All
 arithmetic on doubles goes through Fl, so that the absence of rounding is proved
 and not assumed.
 */
module Uheprng {
  import opened Arithmetic
  import opened Doubles
  import opened Mwc
  import opened Results

  /** A 32-bit word, standing for the fraction word / 2^32. */
  type Word = x: int | 0 <= x < BASE

  /** A JavaScript string: its 16-bit code units.  A character outside the basic plane
      is two of them. */
  type CodeUnit = k: int | 0 <= k < 0x1_0000
  type JsString = seq<CodeUnit>

  const SPACE: JsString := [0x20]

  /** The Mash hash: its fixed start state, the absorption of one code unit, and the
      32-bit output.  The floating-point body of absorption stays abstract. */
  datatype MashCore<!N> = MashCore(init: N, absorb: (N, CodeUnit) -> N, output: N -> Word)

  /** What mash is called with: nothing, a string or a number. */
  datatype Datum = Nothing | Text(text: JsString) | Code(code: nat)
  {
    predicate Truthy() {
      match this
      case Nothing => false
      case Text(t) => t != []
      case Code(k) => k != 0
    }

    function ToText(): JsString {
      match this
      case Nothing => []
      case Text(t) => t
      case Code(k) => Decimal(k)
    }
  }

  function Decimal(k: nat): JsString
  {
    var digit := [k % 10 + 0x30];
    if k < 10 then digit else Decimal(k / 10) + digit
  }

  function AbsorbAll<N>(core: MashCore<N>, n: N, text: JsString): N
  {
    if text == [] then n
    else core.absorb(AbsorbAll(core, n, text[..|text| - 1]), text[|text| - 1])
  }

  /** One call of mash: falsy data resets the hash and yields undefined. */
  function MashOnce<N>(core: MashCore<N>, n: N, d: Datum): (N, Option<Word>)
  {
    if d.Truthy() then
      var m := AbsorbAll(core, n, d.ToText());
      (m, Some(core.output(m)))
    else (core.init, None)
  }

  /** What is falsy: nothing, the empty string, and 0; it gives nothing and resets the hash. */
  lemma FalsyData<N>(core: MashCore<N>, n: N, d: Datum)
    ensures MashOnce(core, n, d).1.None? <==> d == Nothing || d == Text([]) || d == Code(0)
    ensures MashOnce(core, n, d).1.None? ==> MashOnce(core, n, d).0 == core.init
  {
  }

  // ---------- the seed string ----------

  /** The characters matched by \s. */
  predicate IsSpace(k: CodeUnit)
  {
    9 <= k <= 13 || k == 0x20 || k == 0xa0 || k == 0x1680 || 0x2000 <= k <= 0x200a ||
    k == 0x2028 || k == 0x2029 || k == 0x202f || k == 0x205f || k == 0x3000 || k == 0xfeff
  }

  predicate IsControl(k: CodeUnit) { k <= 0x1f }

  function TrimLeft(s: JsString): JsString
  {
    if s != [] && IsSpace(s[0]) then TrimLeft(s[1..]) else s
  }

  function TrimRight(s: JsString): JsString
  {
    if s != [] && IsSpace(s[|s| - 1]) then TrimRight(s[..|s| - 1]) else s
  }

  function DropControls(s: JsString): JsString
  {
    if s == [] then [] else (if IsControl(s[0]) then [] else [s[0]]) + DropControls(s[1..])
  }

  /** The first space that follows a newline is dropped. */
  function DropSpaceAfterNewline(s: JsString): JsString
  {
    if |s| < 2 then s
    else if s[0] == 0x0a && s[1] == 0x20 then [s[0]] + s[2..]
    else [s[0]] + DropSpaceAfterNewline(s[1..])
  }

  function CleanString(s: JsString): JsString
  {
    DropSpaceAfterNewline(DropControls(TrimRight(TrimLeft(s))))
  }

  /** A cleaned string holds no control character, so no character code is 0; the
      last of the three replacements never finds anything to replace. */
  lemma CleanStringHasNoControls(s: JsString)
    ensures forall i :: 0 <= i < |CleanString(s)| ==> !IsControl(CleanString(s)[i])
    ensures CleanString(s) == DropControls(TrimRight(TrimLeft(s)))
  {
    var t := TrimRight(TrimLeft(s));
    DropControlsSound(t);
    NoNewlineNoChange(DropControls(t));
  }

  /** Trimming leaves the part between the first and the last character that is no space. */
  lemma {:induction false} TrimmedIsMiddle(s: JsString) returns (i: nat, j: nat)
    ensures i <= j <= |s| && TrimRight(TrimLeft(s)) == s[i..j]
    ensures forall k :: 0 <= k < i || j <= k < |s| ==> IsSpace(s[k])
    ensures i < j ==> !IsSpace(s[i]) && !IsSpace(s[j - 1])
  {
    i := TrimLeftIs(s);
    j := TrimRightIs(s[i..]);
    assert s[i..][..j] == s[i..i + j];
    j := i + j;
    forall k | j <= k < |s| ensures IsSpace(s[k]) {
      assert s[k] == s[i..][k - i];
    }
  }

  lemma {:induction false} TrimLeftIs(s: JsString) returns (i: nat)
    ensures i <= |s| && TrimLeft(s) == s[i..]
    ensures forall k :: 0 <= k < i ==> IsSpace(s[k])
    ensures i < |s| ==> !IsSpace(s[i])
  {
    i := 0;
    if s != [] && IsSpace(s[0]) {
      i := TrimLeftIs(s[1..]);
      forall k | 0 <= k < i + 1 ensures IsSpace(s[k]) {
        assert k > 0 ==> s[k] == s[1..][k - 1];
      }
      i := i + 1;
    }
  }

  lemma {:induction false} TrimRightIs(s: JsString) returns (j: nat)
    ensures j <= |s| && TrimRight(s) == s[..j]
    ensures forall k :: j <= k < |s| ==> IsSpace(s[k])
    ensures j > 0 ==> !IsSpace(s[j - 1])
  {
    j := |s|;
    if s != [] && IsSpace(s[|s| - 1]) {
      j := TrimRightIs(s[..|s| - 1]);
    }
  }

  /** Dropping control characters goes part by part. */
  lemma {:induction false} DropControlsConcat(a: JsString, b: JsString)
    ensures DropControls(a + b) == DropControls(a) + DropControls(b)
  {
    if a == [] {
      assert a + b == b;
    } else {
      var kept := if IsControl(a[0]) then [] else [a[0]];
      DropControlsConcat(a[1..], b);
      assert (a + b)[1..] == a[1..] + b;
      assert kept + (DropControls(a[1..]) + DropControls(b)) == kept + DropControls(a[1..]) + DropControls(b);
    }
  }

  /** Of one character, it leaves exactly those from 0x20 on. */
  lemma DropControlsOne(k: CodeUnit)
    ensures DropControls([k]) == if k < 0x20 then [] else [k]
  {
    assert [k][1..] == [];
  }

  lemma {:induction false} DropControlsSound(s: JsString)
    ensures forall i :: 0 <= i < |DropControls(s)| ==> !IsControl(DropControls(s)[i])
  {
    if s != [] { DropControlsSound(s[1..]); }
  }

  lemma {:induction false} NoNewlineNoChange(s: JsString)
    requires forall i :: 0 <= i < |s| ==> !IsControl(s[i])
    ensures DropSpaceAfterNewline(s) == s
  {
    if |s| >= 2 {
      assert !IsControl(s[0]);
      NoNewlineNoChange(s[1..]);
      assert s == [s[0]] + s[1..];
    }
  }

  // ---------- hashing a string into the slots ----------

  /** The subtraction of two fractions, wrapped into [0, 1). */
  function SubWord(x: int, y: int): int
  {
    if x - y < 0 then x - y + BASE else x - y
  }

  /** Filling the first j slots with mash(" "). */
  function Fill<N>(core: MashCore<N>, n: N, j: nat): (r: (N, seq<int>))
    ensures |r.1| == j && Digits(r.1)
  {
    if j == 0 then (n, [])
    else
      var (m, slots) := Fill(core, n, j - 1);
      var m' := AbsorbAll(core, m, SPACE);
      (m', slots + [core.output(m')])
  }

  /** Subtracting mash(k) from the first j slots, the hash evolving from slot to slot. */
  function MixSlots<N>(core: MashCore<N>, n: N, slots: seq<int>, k: nat, j: nat): (r: (N, seq<int>))
    requires j <= |slots| && Digits(slots)
    ensures |r.1| == |slots| && Digits(r.1)
  {
    if j == 0 then (n, slots)
    else
      var (m, mixed) := MixSlots(core, n, slots, k, j - 1);
      var m' := AbsorbAll(core, m, Decimal(k));
      (m', mixed[j - 1 := SubWord(mixed[j - 1], core.output(m'))])
  }

  /** Mixing in the first i characters of text. */
  function MixText<N>(core: MashCore<N>, n: N, slots: seq<int>, text: JsString, i: nat): (r: (N, seq<int>))
    requires i <= |text| && Digits(slots)
    ensures |r.1| == |slots| && Digits(r.1)
  {
    if i == 0 then (n, slots)
    else
      var (m, mixed) := MixText(core, n, slots, text, i - 1);
      MixSlots(core, m, mixed, text[i - 1], |mixed|)
  }

  /** The hash state and the slots after seeding with a string: a function of the
      string alone. */
  function Seeded<N>(core: MashCore<N>, seed: JsString): (r: (N, seq<int>))
    ensures |r.1| == ORDER && Digits(r.1)
  {
    var (n, slots) := Fill(core, core.init, ORDER);
    var text := CleanString(seed);
    MixText(core, MashOnce(core, n, Text(text)).0, slots, text, |text|)
  }

  /** The draws after seeding with a string. */
  function SeededState<N>(core: MashCore<N>, seed: JsString): (st: State)
    ensures |st.ring| == ORDER
  {
    State(Seeded(core, seed).1, 1)
  }

  /** A carry of 1 keeps clear of both fixed points, whatever the slots hold. */
  lemma CarryOneIsLive(slots: seq<int>)
    requires |slots| == ORDER && Digits(slots)
    ensures Live(State(slots, 1))
  {
    ValueBound(slots);
    ValueSnoc(slots, 1);
    PowPositive(ORDER);
  }

  // ---------- the circular buffer ----------

  /** The slot the next draw uses. */
  function Slot(p: int): int
  {
    if p + 1 >= ORDER then 0 else p + 1
  }

  /** The buffer read from its oldest slot on. */
  function Ring(s: seq<int>, p: int): seq<int>
    requires |s| == ORDER && 0 <= p <= ORDER
  {
    s[Slot(p)..] + s[..Slot(p)]
  }

  /** Overwriting the oldest slot in place rotates the ring by one. */
  lemma RingStep(s: seq<int>, p: int, x: int)
    requires |s| == ORDER && 0 <= p <= ORDER
    ensures Ring(s, p)[0] == s[Slot(p)]
    ensures Ring(s[Slot(p) := x], Slot(p)) == Ring(s, p)[1..] + [x]
  {
    var q := Slot(p);
    var u := s[q := x];
    assert u[..q] == s[..q];
    if q + 1 < ORDER {
      assert u[q + 1..] == s[q + 1..];
      assert u[..q + 1] == s[..q] + [x];
    } else {
      assert u == s[..q] + [x];
    }
  }

  // ---------- numbers made from draws ----------

  /** Two draws make a 53-bit numerator. */
  function Numerator(st: State): int
    requires |st.ring| == ORDER
  {
    Draw(st) * 0x20_0000 + Draw(Next(st)) / 0x800
  }

  /** It is the top 53 bits of the two draws put together. */
  lemma NumeratorIsTopBits(st: State)
    requires InRange(st)
    ensures Numerator(st) == (Draw(st) * BASE + Draw(Next(st))) / 0x800
  {
    StepInRange(st);
    DrawBound(Next(st));
  }

  /** floor(range * (numerator / 2^53)), the product rounded as a double. */
  function RandomValue(range: nat, numerator: nat): int
  {
    Fl(range * numerator) / TWO53
  }

  lemma DrawBound(st: State)
    requires InRange(st)
    ensures 0 <= Draw(st) < BASE
  {
    StepInRange(st);
  }

  lemma NumeratorBound(st: State)
    requires InRange(st)
    ensures 0 <= Numerator(st) < TWO53
  {
    StepInRange(st);
    DrawBound(st);
    DrawBound(Next(st));
  }

  /** For range 16 the product is exact and the result is the top four bits of the
      first draw. */
  lemma HexDigitIsTopBits(st: State)
    requires InRange(st)
    ensures RandomValue(16, Numerator(st)) == Draw(st) / 0x1000_0000
    ensures 0 <= Draw(st) / 0x1000_0000 < 16
  {
    NumeratorBound(st);
    DrawBound(st);
    StepInRange(st);
    DrawBound(Next(st));
    assert Pow2(4) == 16 by { assert Pow2(1) == 2 && Pow2(2) == 4; }
    FlPow2(Numerator(st), 4, 16 * Numerator(st));
  }

  const HEX := "0123456789abcdef"

  /** The hexadecimal digit made of the top four bits of draw 2 * i. */
  predicate IsTopDigit(st: State, i: nat, digit: char)
    requires |st.ring| == ORDER
  {
    var top := Draw(Run(st, 2 * i)) / 0x1000_0000;
    0 <= top < 16 && digit == HEX[top]
  }

  lemma TwoMore(st: State, k: nat)
    requires |st.ring| == ORDER
    ensures Run(st, 2 * (k + 1)) == Next(Next(Run(st, 2 * k)))
  {
    assert Run(st, 2 * k + 2) == Next(Run(st, 2 * k + 1));
  }

  /** Stands for a slot that holds no number. */
  const UNDEFINED := -1

  class Generator<N> {
    const core: MashCore<N>
    const s: array<int>
    var c: int
    var p: int
    var n: N

    ghost predicate Valid()
      reads this, s
    {
      s.Length == ORDER && 0 <= p <= ORDER && Live(State(Ring(s[..], p), c))
    }

    /** The buffer from its oldest slot, and the carry. */
    ghost function Contents(): (st: State)
      requires Valid()
      reads this, s
      ensures |st.ring| == ORDER && Live(st)
    {
      State(Ring(s[..], p), c)
    }

    /** A generator without a seed: the slots are hashes of 48 random numbers.  The
        number 0 is falsy, its hash is undefined, and it resets the hash state; a
        generator all of whose numbers are truthy is live, and no other one is. */
    constructor (core: MashCore<N>, noise: seq<Datum>)
      requires |noise| == ORDER
      ensures fresh(s) && this.core == core
      ensures Valid() <==> forall i :: 0 <= i < ORDER ==> noise[i].Truthy()
    {
      this.core := core;
      this.n := core.init;
      this.s := new int[ORDER](_ => 0);
      this.c := 1;
      this.p := ORDER;
      new;
      for i := 0 to ORDER
        invariant c == 1 && p == ORDER
        invariant forall k :: 0 <= k < i ==> if noise[k].Truthy() then 0 <= s[k] < BASE else s[k] == UNDEFINED
      {
        var x := Mash(noise[i]);
        s[i] := if x.Some? then x.value else UNDEFINED;
      }
      assert Ring(s[..], p) == s[..];
      if forall i :: 0 <= i < ORDER ==> noise[i].Truthy() {
        CarryOneIsLive(s[..]);
      } else {
        var i :| 0 <= i < ORDER && !noise[i].Truthy();
        assert s[..][i] == UNDEFINED;
      }
    }

    method Mash(d: Datum) returns (r: Option<Word>)
      modifies this`n
      ensures (n, r) == MashOnce(core, old(n), d)
    {
      if d.Truthy() {
        var data := d.ToText();
        var i := 0;
        while i < |data|
          invariant 0 <= i <= |data|
          invariant n == AbsorbAll(core, old(n), data[..i])
        {
          assert data[..i + 1][..i] == data[..i];
          n := core.absorb(n, data[i]);
          i := i + 1;
        }
        assert data[..i] == data;
        r := Some(core.output(n));
      } else {
        n := core.init;
        r := None;
      }
    }

    method InitState()
      requires s.Length == ORDER
      modifies this, s
      ensures (n, s[..]) == Fill(core, core.init, ORDER) && c == 1 && p == ORDER
    {
      var _ := Mash(Nothing);
      for i := 0 to ORDER
        invariant (n, s[..i]) == Fill(core, core.init, i)
      {
        var x := Mash(Text(SPACE));
        s[i] := x.value;
        assert s[..i + 1] == s[..i] + [s[i]];
      }
      assert s[..ORDER] == s[..];
      c := 1;
      p := ORDER;
    }

    /** Mixing one character code into every slot. */
    method MixCode(k: nat)
      requires s.Length == ORDER && Digits(s[..]) && k != 0
      modifies this`n, s
      ensures (n, s[..]) == MixSlots(core, old(n), old(s[..]), k, ORDER)
    {
      ghost var slots := s[..];
      for j := 0 to ORDER
        invariant (n, s[..]) == MixSlots(core, old(n), slots, k, j)
      {
        ghost var before := s[..];
        assert Digits(before);
        var m := Mash(Code(k));
        FlExact(s[j] - m.value);
        s[j] := Fl(s[j] - m.value);
        if s[j] < 0 {
          FlExact(s[j] + BASE);
          s[j] := Fl(s[j] + BASE);
        }
        assert s[..] == before[j := SubWord(before[j], m.value)];
      }
    }

    method HashString(inStr: JsString)
      requires s.Length == ORDER && Digits(s[..])
      modifies this`n, s
      ensures var text := CleanString(inStr);
              (n, s[..]) == MixText(core, MashOnce(core, old(n), Text(text)).0, old(s[..]), text, |text|)
    {
      var text := CleanString(inStr);
      CleanStringHasNoControls(inStr);
      var _ := Mash(Text(text));
      ghost var m, slots := n, s[..];
      for i := 0 to |text|
        invariant (n, s[..]) == MixText(core, m, slots, text, i)
      {
        assert !IsControl(text[i]);
        MixCode(text[i]);
      }
    }

    /** Seeding erases history: hash state, slots, carry and phase are functions of
        the seed string, whatever the generator held before. */
    method Seed(seed: JsString)
      requires s.Length == ORDER
      modifies this, s
      ensures Valid() && Contents() == SeededState(core, seed) && n == Seeded(core, seed).0
      ensures (n, s[..]) == Seeded(core, seed) && c == 1 && p == ORDER
    {
      InitState();
      HashString(seed);
      assert Ring(s[..], p) == s[..];
      CarryOneIsLive(s[..]);
    }

    /** One draw.  No operation on doubles rounds, and `t | 0` is the floor of t. */
    method RawPrng() returns (x: int)
      requires Valid()
      modifies this`p, this`c, s
      ensures Valid() && Contents() == Next(old(Contents())) && x == Draw(old(Contents()))
    {
      ghost var st, before, phase := Contents(), s[..], p;
      StepInRange(st);
      StepLive(st);
      p := p + 1;
      if p >= ORDER {
        p := 0;
      }
      assert p == Slot(phase);
      RingStep(before, phase, Draw(st));
      assert s[p] == st.ring[0];
      FlExact(MULTIPLIER * s[p]);
      FlExact(c);
      FlExact(MULTIPLIER * s[p] + c);
      var t := Fl(Fl(MULTIPLIER * s[p]) + Fl(c));
      c := ToInt32(t / BASE);
      assert c == t / BASE;
      FlExact(t - c * BASE);
      s[p] := Fl(t - c * BASE);
      assert s[p] == t % BASE;
      x := s[p];
      assert s[..] == before[p := x];
    }

    /** An integer below range, from two draws.  The range is a whole number that a double
        holds. */
    method Random(range: nat) returns (v: int)
      requires Valid()
      requires Fl(range) == range
      modifies this`p, this`c, s
      ensures Valid() && Contents() == Next(Next(old(Contents())))
      ensures v == RandomValue(range, Numerator(old(Contents())))
    {
      ghost var st := Contents();
      NumeratorBound(st);
      DrawBound(st);
      StepInRange(st);
      DrawBound(Next(st));
      var first := RawPrng();
      var second := RawPrng();
      // in units of 2^-32, then of 2^-53
      FlExact(second * 0x20_0000);
      var low := ToInt32(Fl(second * 0x20_0000) / BASE);
      assert low == second / 0x800;
      FlExact(first * 0x20_0000 + low);
      v := Fl(range * Fl(first * 0x20_0000 + low)) / TWO53;
    }

    /** 2 * bytes hexadecimal digits, each the top four bits of every other draw. */
    method RandomBytes(bytes: nat) returns (hex: string)
      requires Valid()
      modifies this`p, this`c, s
      ensures Valid() && Contents() == Run(old(Contents()), 4 * bytes)
      ensures |hex| == 2 * bytes
      ensures forall i :: 0 <= i < 2 * bytes ==> IsTopDigit(old(Contents()), i, hex[i])
    {
      ghost var st := Contents();
      hex := "";
      for k := 0 to 2 * bytes
        invariant Valid() && Contents() == Run(st, 2 * k) && |hex| == k
        invariant forall i :: 0 <= i < k ==> IsTopDigit(st, i, hex[i])
      {
        TwoMore(st, k);
        var digit := RandomHexDigit();
        hex := hex + [digit];
      }
    }

    /** One hexadecimal digit, from two draws. */
    method RandomHexDigit() returns (digit: char)
      requires Valid()
      modifies this`p, this`c, s
      ensures Valid() && Contents() == Next(Next(old(Contents())))
      ensures IsTopDigit(old(Contents()), 0, digit)
    {
      HexDigitIsTopBits(Contents());
      FlExact(16);
      var v := Random(16);
      digit := HEX[v];
    }
  }
}
