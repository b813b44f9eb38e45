/**
 What seeding computes, in terms of one flat text the hash goes through: 48 spaces, the
 cleaned seed, and then each of its character codes 48 times in decimal.
 */
module Seeding {
  import opened Arithmetic
  import opened Mwc
  import opened Uheprng

  // ---------- the flat text ----------

  function Repeat(t: JsString, n: nat): JsString
  {
    if n == 0 then [] else Repeat(t, n - 1) + t
  }

  /** The flat text before the codes of character i. */
  function Before(text: JsString, i: nat): JsString
    requires i <= |text|
  {
    if i == 0 then Repeat(SPACE, ORDER) + text else Before(text, i - 1) + Repeat(Decimal(text[i - 1]), ORDER)
  }

  function FlatText(text: JsString): JsString
  {
    Before(text, |text|)
  }

  // ---------- the hash along the text ----------

  /** The state of the hash that has absorbed a text from its start. */
  function After<N>(core: MashCore<N>, t: JsString): N
  {
    AbsorbAll(core, core.init, t)
  }

  /** What the hash gives after a text. */
  function Hash<N>(core: MashCore<N>, t: JsString): Word
  {
    core.output(After(core, t))
  }

  /** The text absorbed when character i is mixed into slot j. */
  function Place(text: JsString, i: nat, j: nat): JsString
    requires i < |text|
  {
    Before(text, i) + Repeat(Decimal(text[i]), j + 1)
  }

  /** What the hash gives at character i for slot j. */
  type Places = (nat, nat) -> int

  function PlacesOf<N>(core: MashCore<N>, text: JsString): Places
  {
    (i: nat, j: nat) => if i < |text| then Hash(core, Place(text, i, j)) else 0
  }

  /** What slot j loses to the first i characters. */
  function Removed(places: Places, j: nat, i: nat): int
  {
    if i == 0 then 0 else Removed(places, j, i - 1) + places(i - 1, j)
  }

  // ---------- decimal texts ----------

  /** The number decimal digits spell. */
  function ReadDecimal(t: JsString): int
  {
    if t == [] then 0 else 10 * ReadDecimal(t[..|t| - 1]) + t[|t| - 1] as int - 0x30
  }

  /** A code is absorbed as its decimal digits, without leading zeros. */
  lemma {:induction false} DecimalReads(k: nat)
    ensures Decimal(k) != [] && ReadDecimal(Decimal(k)) == k
    ensures forall i :: 0 <= i < |Decimal(k)| ==> 0x30 <= Decimal(k)[i] <= 0x39
    ensures k > 0 ==> Decimal(k)[0] != 0x30
  {
    var t := Decimal(k);
    if k >= 10 {
      DecimalReads(k / 10);
      assert t[..|t| - 1] == Decimal(k / 10);
    } else {
      assert t[..0] == [];
    }
  }

  // ---------- absorbing ----------

  lemma AbsorbOne<N>(core: MashCore<N>, n: N, k: CodeUnit)
    ensures AbsorbAll(core, n, [k]) == core.absorb(n, k)
  {
    assert [k][..0] == [];
    assert AbsorbAll(core, n, []) == n;
  }

  /** Texts are absorbed one after the other, from left to right. */
  lemma {:induction false} AbsorbConcat<N>(core: MashCore<N>, n: N, a: JsString, b: JsString)
    ensures AbsorbAll(core, n, a + b) == AbsorbAll(core, AbsorbAll(core, n, a), b)
  {
    if b == [] {
      assert a + b == a;
    } else {
      var k := |b| - 1;
      AbsorbConcat(core, n, a, b[..k]);
      assert (a + b)[..|a + b| - 1] == a + b[..k];
    }
  }

  // ---------- the same, state by state ----------

  /** A code absorbed c times. */
  function Copies<N>(core: MashCore<N>, n: N, code: JsString, c: nat): N
  {
    if c == 0 then n else AbsorbAll(core, Copies(core, n, code, c - 1), code)
  }

  lemma OneMoreCopy<N>(core: MashCore<N>, before: JsString, so: JsString, code: JsString, l: nat, c: nat)
    requires c == l + 1 && so == before + Repeat(code, l)
    ensures AbsorbAll(core, After(core, so), code) == After(core, before + Repeat(code, c))
  {
    AbsorbConcat(core, core.init, so, code);
    assert before + Repeat(code, c) == so + code;
  }

  lemma {:induction false} CopiesAbsorbed<N>(core: MashCore<N>, before: JsString, code: JsString, c: nat)
    ensures Copies(core, After(core, before), code, c) == After(core, before + Repeat(code, c))
  {
    if c == 0 {
      assert before + Repeat(code, 0) == before;
    } else {
      CopiesAbsorbed(core, before, code, c - 1);
      OneMoreCopy(core, before, before + Repeat(code, c - 1), code, c - 1, c);
    }
  }

  /** The state before the codes of character i. */
  function StateBefore<N>(core: MashCore<N>, n: N, text: JsString, i: nat): N
    requires i <= |text|
  {
    if i == 0 then n else Copies(core, StateBefore(core, n, text, i - 1), Decimal(text[i - 1]), ORDER)
  }

  lemma {:induction false} StateBeforeAbsorbed<N>(core: MashCore<N>, n: N, text: JsString, i: nat)
    requires i <= |text| && n == After(core, Before(text, 0))
    ensures StateBefore(core, n, text, i) == After(core, Before(text, i))
  {
    if i > 0 {
      StateBeforeAbsorbed(core, n, text, i - 1);
      CopiesAbsorbed(core, Before(text, i - 1), Decimal(text[i - 1]), ORDER);
    }
  }

  /** What the hash gives after j + 1 copies of a code. */
  function Given<N>(core: MashCore<N>, n: N, code: JsString, j: nat): Word
  {
    core.output(Copies(core, n, code, j + 1))
  }

  /** Character i, from the state before it. */
  ghost predicate RowGiven<N(!new)>(core: MashCore<N>, n: N, text: JsString, places: Places, i: nat)
    requires i < |text|
  {
    forall j: nat :: places(i, j) == Given(core, StateBefore(core, n, text, i), Decimal(text[i]), j)
  }

  lemma PlacesGiven<N(!new)>(core: MashCore<N>, n: N, text: JsString, places: Places, i: nat)
    requires i < |text| && n == After(core, Before(text, 0)) && places == PlacesOf(core, text)
    ensures RowGiven(core, n, text, places, i)
  {
    StateBeforeAbsorbed(core, n, text, i);
    forall j: nat ensures places(i, j) == Given(core, StateBefore(core, n, text, i), Decimal(text[i]), j) {
      PlaceGiven(core, Before(text, i), Decimal(text[i]), j);
    }
  }

  lemma PlaceGiven<N>(core: MashCore<N>, before: JsString, code: JsString, j: nat)
    ensures Given(core, After(core, before), code, j) == Hash(core, before + Repeat(code, j + 1))
  {
    CopiesAbsorbed(core, before, code, j + 1);
  }

  // ---------- the slots ----------

  /** Subtraction of fractions: a word, congruent to the difference. */
  lemma SubWordCongruent(x: int, y: int)
    requires 0 <= x < BASE && 0 <= y < BASE
    ensures SubWord(x, y) == (x - y) % BASE && 0 <= SubWord(x, y) < BASE
  {
  }

  lemma {:induction false} FillGives<N>(core: MashCore<N>, n: N, j: nat)
    ensures Fill(core, n, j).0 == Copies(core, n, SPACE, j)
    ensures forall i :: 0 <= i < j ==> Fill(core, n, j).1[i] == Given(core, n, SPACE, i)
  {
    if j > 0 { FillGives(core, n, j - 1); }
  }

  /** The first j slots have lost their entries of the row, the others are as before. */
  ghost predicate Mixed(slots: seq<int>, row: nat -> int, j: nat, mixed: seq<int>)
  {
    |mixed| == |slots| && forall i: nat :: i < |slots| ==> mixed[i] == if i < j then (slots[i] - row(i)) % BASE else slots[i]
  }

  lemma MixedStep(slots: seq<int>, row: nat -> int, l: nat, j: nat, mixed: seq<int>)
    requires Digits(slots) && j == l + 1 <= |slots| && 0 <= row(l) < BASE && Mixed(slots, row, l, mixed)
    ensures Mixed(slots, row, j, mixed[l := SubWord(mixed[l], row(l))])
  {
    SubWordCongruent(mixed[l], row(l));
  }

  /** One code in the first j slots. */
  lemma {:induction false} MixSlotsMixes<N>(core: MashCore<N>, n: N, slots: seq<int>, k: nat, code: JsString, j: nat, row: nat -> int)
    requires j <= |slots| && Digits(slots) && code == Decimal(k)
    requires forall i: nat :: row(i) == Given(core, n, code, i)
    ensures MixSlots(core, n, slots, k, j).0 == Copies(core, n, code, j)
    ensures Mixed(slots, row, j, MixSlots(core, n, slots, k, j).1)
  {
    if j > 0 {
      var l := j - 1;
      MixSlotsMixes(core, n, slots, k, code, l, row);
      assert row(l) == Given(core, n, code, l);
      MixedStep(slots, row, l, j, MixSlots(core, n, slots, k, l).1);
    }
  }

  /** Each slot is congruent to what it was minus the sum at its places. */
  ghost predicate Lost(slots: seq<int>, places: Places, i: nat, mixed: seq<int>)
  {
    |mixed| == |slots| && forall j: nat :: j < |slots| ==> mixed[j] == (slots[j] - Removed(places, j, i)) % BASE
  }

  lemma LostStep(slots: seq<int>, places: Places, k: nat, i: nat, row: nat -> int, mixed: seq<int>, next: seq<int>)
    requires i == k + 1 && Lost(slots, places, k, mixed) && Mixed(mixed, row, |slots|, next)
    requires forall j: nat :: row(j) == places(k, j)
    ensures Lost(slots, places, i, next)
  {
    forall j: nat | j < |slots| ensures next[j] == (slots[j] - Removed(places, j, i)) % BASE {
      ModSub(slots[j] - Removed(places, j, k), row(j));
    }
  }

  lemma ModSub(x: int, h: int)
    ensures (x % BASE - h) % BASE == (x - h) % BASE
  {
  }

  lemma {:induction false} MixTextLost<N(!new)>(core: MashCore<N>, n: N, slots: seq<int>, text: JsString, i: nat, places: Places)
    requires i <= |text| && Digits(slots) && |slots| == ORDER
    requires forall k: nat :: k < |text| ==> RowGiven(core, n, text, places, k)
    ensures MixText(core, n, slots, text, i).0 == StateBefore(core, n, text, i)
    ensures Lost(slots, places, i, MixText(core, n, slots, text, i).1)
  {
    if i > 0 {
      var k := i - 1;
      MixTextLost(core, n, slots, text, k, places);
      var (m, mixed) := MixText(core, n, slots, text, k);
      var row := (j: nat) => places(k, j);
      assert RowGiven(core, n, text, places, k);
      MixSlotsMixes(core, m, mixed, text[k], Decimal(text[k]), ORDER, row);
      LostStep(slots, places, k, i, row, mixed, MixSlots(core, m, mixed, text[k], ORDER).1);
    }
  }

  // ---------- seeding ----------

  /** Slot by slot, by the flat text: the word congruent, modulo 2^32, to what the hash
      gives after j + 1 spaces minus all that it gives at the slot's places. */
  ghost predicate SlotsAreFlat<N(!new)>(core: MashCore<N>, places: Places, i: nat, slots: seq<int>)
  {
    |slots| == ORDER && forall j: nat :: j < ORDER ==>
      slots[j] == (Hash(core, Repeat(SPACE, j + 1)) - Removed(places, j, i)) % BASE
  }

  lemma FillAbsorbed<N>(core: MashCore<N>, n: N, j: nat)
    requires n == core.init
    ensures Copies(core, n, SPACE, j) == After(core, Repeat(SPACE, j))
  {
    CopiesAbsorbed(core, [], SPACE, j);
    assert [] + Repeat(SPACE, j) == Repeat(SPACE, j);
  }

  lemma SlotFilled<N(!new)>(core: MashCore<N>, slots: seq<int>, j: nat)
    requires slots == Fill(core, core.init, ORDER).1 && j < ORDER
    ensures slots[j] == Hash(core, Repeat(SPACE, j + 1))
  {
    FillGives(core, core.init, ORDER);
    FillAbsorbed(core, core.init, j + 1);
  }

  /** Seeding, from the filled slots and the state after the text. */
  ghost predicate Starts<N(!new)>(core: MashCore<N>, text: JsString, n: N, slots: seq<int>)
  {
    n == After(core, Before(text, 0)) && |slots| == ORDER && Digits(slots) && slots == Fill(core, core.init, ORDER).1
  }

  lemma TextMixed<N(!new)>(core: MashCore<N>, text: JsString, n: N, slots: seq<int>)
    requires Starts(core, text, n, slots)
    ensures MixText(core, n, slots, text, |text|).0 == After(core, FlatText(text))
    ensures Lost(slots, PlacesOf(core, text), |text|, MixText(core, n, slots, text, |text|).1)
  {
    var places := PlacesOf(core, text);
    forall k: nat | k < |text| ensures RowGiven(core, n, text, places, k) {
      PlacesGiven(core, n, text, places, k);
    }
    MixTextLost(core, n, slots, text, |text|, places);
    StateBeforeAbsorbed(core, n, text, |text|);
  }

  lemma FilledStart<N(!new)>(core: MashCore<N>, text: JsString)
    ensures var (m, slots) := Fill(core, core.init, ORDER); Starts(core, text, AbsorbAll(core, m, text), slots)
  {
    FillGives(core, core.init, ORDER);
    FillAbsorbed(core, core.init, ORDER);
    AbsorbConcat(core, core.init, Repeat(SPACE, ORDER), text);
  }

  lemma LostIsFlat<N(!new)>(core: MashCore<N>, slots: seq<int>, places: Places, i: nat, mixed: seq<int>)
    requires slots == Fill(core, core.init, ORDER).1 && Lost(slots, places, i, mixed)
    ensures SlotsAreFlat(core, places, i, mixed)
  {
    forall j: nat | j < ORDER ensures mixed[j] == (Hash(core, Repeat(SPACE, j + 1)) - Removed(places, j, i)) % BASE {
      SlotFilled(core, slots, j);
    }
  }

  /** Seeding, in terms of the flat text: with a cleaned seed that is not empty, the hash
      ends having absorbed the flat text, and every slot is as the flat text says. */
  lemma SeedingIs<N(!new)>(core: MashCore<N>, seed: JsString)
    requires CleanString(seed) != []
    ensures Seeded(core, seed).0 == After(core, FlatText(CleanString(seed)))
    ensures var text := CleanString(seed); SlotsAreFlat(core, PlacesOf(core, text), |text|, Seeded(core, seed).1)
  {
    var text := CleanString(seed);
    var (m, slots) := Fill(core, core.init, ORDER);
    var n := AbsorbAll(core, m, text);
    FilledStart(core, text);
    TextMixed(core, text, n, slots);
    LostIsFlat(core, slots, PlacesOf(core, text), |text|, MixText(core, n, slots, text, |text|).1);
  }

  /** A seed of blanks is falsy once cleaned: the hash is reset, and the slots stay as
      they were filled. */
  lemma BlankSeeding<N(!new)>(core: MashCore<N>, seed: JsString)
    requires CleanString(seed) == []
    ensures Seeded(core, seed).0 == core.init
    ensures forall j :: 0 <= j < ORDER ==> Seeded(core, seed).1[j] == Hash(core, Repeat(SPACE, j + 1))
  {
    forall j | 0 <= j < ORDER ensures Seeded(core, seed).1[j] == Hash(core, Repeat(SPACE, j + 1)) {
      SlotFilled(core, Seeded(core, seed).1, j);
    }
  }
}
