/** Hexadecimal texts as lists of digits, and numbers written in them. */
module Hex {

  type Digit = x: int | 0 <= x < 16
  type Text = seq<Digit>
  type Word = t: seq<Digit> | |t| == 64 witness seq(64, _ => 0)

  /** A hash of the bytes a text spells, with 32-byte results, such as keccak256. */
  type Hash = Text -> Word

  ghost predicate Collision(h: Hash, x: Text, y: Text)
  {
    x != y && h(x) == h(y)
  }

  function Power(k: nat): (p: nat)
    ensures 1 <= p
  {
    if k == 0 then 1 else 16 * Power(k - 1)
  }

  function Zeros(k: nat): (t: Text)
    ensures |t| == k
  {
    seq(k, _ => 0)
  }

  /** The number a text spells. */
  function Number(t: Text): nat
  {
    if t == [] then 0 else Number(t[..|t| - 1]) * 16 + t[|t| - 1]
  }

  /** The k low digits of n, most significant first. */
  function Digits(n: nat, k: nat): (t: Text)
    ensures |t| == k
  {
    if k == 0 then [] else Digits(n / 16, k - 1) + [n % 16]
  }

  /** The digits of n without leading zeros, one 0 for 0. */
  function Minimal(n: nat): (t: Text)
    ensures 1 <= |t|
  {
    if n < 16 then [n] else Minimal(n / 16) + [n % 16]
  }

  /** BigNumber's toHexString without 0x: an even number of digits. */
  function ToHexString(n: nat): Text
  {
    if |Minimal(n)| % 2 == 0 then Minimal(n) else [0] + Minimal(n)
  }

  /** JavaScript's toString of a number, read as hexadecimal digits. */
  function Decimal(n: nat): (t: Text)
    ensures 1 <= |t|
  {
    if n < 10 then [n] else Decimal(n / 10) + [n % 10]
  }

  /** padStart(64, "0"). */
  function Pad(t: Text): Text
  {
    if |t| >= 64 then t else Zeros(64 - |t|) + t
  }

  lemma {:induction false} ZerosNumber(k: nat, t: Text)
    ensures Number(Zeros(k) + t) == Number(t)
    decreases |t|, k
  {
    var s := Zeros(k) + t;
    if t != [] {
      assert s[..|s| - 1] == Zeros(k) + t[..|t| - 1];
      ZerosNumber(k, t[..|t| - 1]);
    } else if k > 0 {
      assert s == Zeros(k) && s[..k - 1] == Zeros(k - 1) + [];
      ZerosNumber(k - 1, []);
    }
  }

  lemma {:induction false} DigitsNumber(n: nat, k: nat)
    requires n < Power(k)
    ensures Number(Digits(n, k)) == n
  {
    if k > 0 {
      DigitsNumber(n / 16, k - 1);
      assert Digits(n, k)[..k - 1] == Digits(n / 16, k - 1);
    }
  }

  lemma {:induction false} NumberDigits(t: Text)
    ensures Number(t) < Power(|t|) && Digits(Number(t), |t|) == t
  {
    if t != [] {
      var k := |t| - 1;
      NumberDigits(t[..k]);
      assert t == t[..k] + [t[k]];
    }
  }

  lemma {:induction false} MinimalNumber(n: nat)
    ensures Number(Minimal(n)) == n
  {
    if n >= 16 {
      MinimalNumber(n / 16);
      assert Minimal(n)[..|Minimal(n)| - 1] == Minimal(n / 16);
    } else {
      assert [n][..0] == [];
    }
  }

  lemma {:induction false} MinimalLength(n: nat, k: nat)
    requires n < Power(k) && 1 <= k
    ensures |Minimal(n)| <= k
  {
    if n >= 16 {
      MinimalLength(n / 16, k - 1);
    }
  }

  /** Padding keeps the number; a padded text of at most 64 digits is the 64-digit text
      of its number. */
  lemma PadIsDigits(t: Text)
    requires |t| <= 64
    ensures Number(t) < Power(64) && Pad(t) == Digits(Number(t), 64)
  {
    ZerosNumber(64 - |t|, t);
    NumberDigits(Pad(t));
    if |t| == 64 { NumberDigits(t); }
  }

  /** A 256-bit number, as toHexString writes it and padStart pads it. */
  lemma PadHexString(n: nat)
    requires n < Power(64)
    ensures Pad(ToHexString(n)) == Digits(n, 64)
  {
    HexStringNumber(n);
    PadIsDigits(ToHexString(n));
  }

  lemma HexStringNumber(n: nat)
    requires n < Power(64)
    ensures Number(ToHexString(n)) == n && |ToHexString(n)| <= 64
  {
    MinimalNumber(n);
    MinimalLength(n, 64);
    EvenDigits(Minimal(n));
  }

  /** A leading zero changes no number, and makes an odd number of digits even. */
  lemma EvenDigits(t: Text)
    requires |t| <= 64
    ensures var u := if |t| % 2 == 0 then t else [0] + t; Number(u) == Number(t) && |u| <= 64
  {
    ZerosNumber(1, t);
    assert [0] + t == Zeros(1) + t;
  }

  /** The number decimal digits spell. */
  function ReadDecimal(t: Text): nat
  {
    if t == [] then 0 else 10 * ReadDecimal(t[..|t| - 1]) + t[|t| - 1]
  }

  /** toString writes decimal digits, without leading zeros. */
  lemma {:induction false} DecimalReads(n: nat)
    ensures ReadDecimal(Decimal(n)) == n
    ensures forall i :: 0 <= i < |Decimal(n)| ==> Decimal(n)[i] < 10
    ensures n > 0 ==> Decimal(n)[0] != 0
  {
    var t := Decimal(n);
    if n >= 10 {
      DecimalReads(n / 10);
      assert t[..|t| - 1] == Decimal(n / 10);
    } else {
      assert t[..0] == [];
    }
  }

  lemma DecimalLength(n: nat)
    requires n < 1000
    ensures |Decimal(n)| <= 3
  {
    assert n >= 10 ==> |Decimal(n)| == |Decimal(n / 10)| + 1;
    assert n >= 100 ==> |Decimal(n / 10)| == |Decimal(n / 10 / 10)| + 1;
  }

  /** Decimal digits read as hexadecimal: the same number below 10, a larger one from 10
      on. */
  lemma {:induction false} DecimalReread(n: nat)
    ensures Number(Decimal(n)) >= n
    ensures Number(Decimal(n)) == n <==> n < 10
  {
    if n >= 10 {
      DecimalReread(n / 10);
      assert Decimal(n)[..|Decimal(n)| - 1] == Decimal(n / 10);
    } else {
      assert [n][..0] == [];
    }
  }

  /** Different numbers stay different when reread. */
  lemma {:induction false} DecimalInjective(m: nat, n: nat)
    requires Number(Decimal(m)) == Number(Decimal(n))
    ensures m == n
  {
    DecimalStep(m);
    DecimalStep(n);
    DecimalReread(m);
    DecimalReread(n);
    if m >= 10 && n >= 10 {
      DecimalInjective(m / 10, n / 10);
    }
  }

  lemma DecimalStep(n: nat)
    ensures n >= 10 ==> Number(Decimal(n)) == 16 * Number(Decimal(n / 10)) + n % 10
  {
    if n >= 10 {
      assert Decimal(n)[..|Decimal(n)| - 1] == Decimal(n / 10);
    }
  }

  // ---------- texts made of 64-digit parts ----------

  /** `parts.join("")`. */
  function Join(parts: seq<Text>): Text
  {
    if parts == [] then [] else parts[0] + Join(parts[1..])
  }

  predicate AllWords(parts: seq<Text>)
  {
    forall i :: 0 <= i < |parts| ==> |parts[i]| == 64
  }

  lemma {:induction false} JoinLength(parts: seq<Text>)
    requires AllWords(parts)
    ensures |Join(parts)| == 64 * |parts|
  {
    if parts != [] { JoinLength(parts[1..]); }
  }

  /** Part k of 64-digit parts is at its place in the joined text. */
  lemma {:induction false} JoinAt(parts: seq<Text>, k: nat, from: nat, to: nat)
    requires AllWords(parts) && k < |parts| && from == 64 * k && to == from + 64
    ensures |Join(parts)| == 64 * |parts| && Join(parts)[from..to] == parts[k]
  {
    JoinLength(parts);
    if k > 0 {
      var rest := Join(parts[1..]);
      JoinAt(parts[1..], k - 1, from - 64, to - 64);
      assert Join(parts)[from..to] == rest[from - 64..to - 64];
    } else {
      assert Join(parts)[..64] == parts[0];
    }
  }

  /** Joined 64-digit parts can be told apart again. */
  lemma {:induction false} JoinInjective(a: seq<Text>, b: seq<Text>)
    requires AllWords(a) && AllWords(b) && Join(a) == Join(b)
    ensures a == b
  {
    JoinLength(a);
    JoinLength(b);
    if a != [] {
      assert Join(a)[..64] == a[0] && Join(b)[..64] == b[0];
      assert Join(a)[64..] == Join(a[1..]) && Join(b)[64..] == Join(b[1..]);
      JoinInjective(a[1..], b[1..]);
      assert a == [a[0]] + a[1..] && b == [b[0]] + b[1..];
    }
  }
}
