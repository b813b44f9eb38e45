/** Byte strings: 32-byte words, their order, and the encoding of token ids. */
module Bytes {

  type Byte = x: int | 0 <= x < 256
  type Text = seq<Byte>
  type Word = b: seq<Byte> | |b| == 32 witness seq(32, _ => 0)

  /** A hash function with 32-byte results, such as keccak256. */
  type Hash = Text -> Word

  /** Two different texts with the same hash. */
  ghost predicate Collision(h: Hash, x: Text, y: Text)
  {
    x != y && h(x) == h(y)
  }

  // ---------- the order of Buffer.compare ----------

  predicate Less(a: Text, b: Text)
  {
    if b == [] then false
    else if a == [] then true
    else a[0] < b[0] || (a[0] == b[0] && Less(a[1..], b[1..]))
  }

  lemma {:induction false} LessTotal(a: Text, b: Text)
    ensures (if Less(a, b) then 1 else 0) + (if Less(b, a) then 1 else 0) + (if a == b then 1 else 0) == 1
  {
    if a != [] && b != [] {
      LessTotal(a[1..], b[1..]);
      assert a == [a[0]] + a[1..] && b == [b[0]] + b[1..];
    }
  }

  lemma {:induction false} LessTransitive(a: Text, b: Text, c: Text)
    requires Less(a, b) && Less(b, c)
    ensures Less(a, c)
  {
    if a != [] && a[0] == b[0] == c[0] {
      LessTransitive(a[1..], b[1..], c[1..]);
    }
  }

  // ---------- token ids as words ----------

  function Power256(n: nat): (p: nat)
    ensures 1 <= p
  {
    if n == 0 then 1 else 256 * Power256(n - 1)
  }

  /** An ERC-721 token id, a 256-bit number. */
  type TokenId = x: nat | x < Power256(32) witness 0

  /** The n low bytes of x, most significant first. */
  function ToBytes(x: nat, n: nat): (r: Text)
    ensures |r| == n
  {
    if n == 0 then [] else ToBytes(x / 256, n - 1) + [x % 256]
  }

  function FromBytes(b: Text): nat
  {
    if b == [] then 0 else FromBytes(b[..|b| - 1]) * 256 + b[|b| - 1]
  }

  lemma {:induction false} RoundTrip(x: nat, n: nat)
    requires x < Power256(n)
    ensures FromBytes(ToBytes(x, n)) == x
  {
    if n > 0 {
      RoundTrip(x / 256, n - 1);
      var b := ToBytes(x, n);
      assert b[..n - 1] == ToBytes(x / 256, n - 1);
    }
  }

  /** The first byte weighs most. */
  lemma {:induction false} FromBytesCons(k: Byte, t: Text)
    ensures FromBytes([k] + t) == k * Power256(|t|) + FromBytes(t)
  {
    if t == [] {
      assert [k] + t == [k] && [k][..0] == [];
    } else {
      var l := |t| - 1;
      FromBytesCons(k, t[..l]);
      assert ([k] + t)[..l + 1] == [k] + t[..l];
      assert k * Power256(l) * 256 == k * Power256(l + 1);
    }
  }

  /** Texts of one length are ordered as the numbers they spell. */
  lemma {:induction false} LessIsNumeric(a: Text, b: Text)
    requires |a| == |b|
    ensures Less(a, b) <==> FromBytes(a) < FromBytes(b)
  {
    if a != [] {
      var p := Power256(|a| - 1);
      LessIsNumeric(a[1..], b[1..]);
      FromBytesBound(a[1..]);
      FromBytesBound(b[1..]);
      assert FromBytes(a) == a[0] * p + FromBytes(a[1..]) by {
        FromBytesCons(a[0], a[1..]);
        assert a == [a[0]] + a[1..];
      }
      assert FromBytes(b) == b[0] * p + FromBytes(b[1..]) by {
        FromBytesCons(b[0], b[1..]);
        assert b == [b[0]] + b[1..];
      }
      WeighsMore(a[0], b[0], p);
      WeighsMore(b[0], a[0], p);
    }
  }

  lemma WeighsMore(x: nat, y: nat, p: nat)
    ensures x < y ==> x * p + p <= y * p
  {
    if x < y { assert (x + 1) * p <= y * p; }
  }

  /** The leaf of a token id. */
  function Leaf(id: TokenId): Word
  {
    ToBytes(id, 32)
  }

  /** The token id of a leaf. */
  function Unleaf(w: Word): TokenId
  {
    FromBytesBound(w);
    FromBytes(w)
  }

  lemma {:induction false} FromBytesBound(b: Text)
    ensures FromBytes(b) < Power256(|b|)
  {
    if b != [] { FromBytesBound(b[..|b| - 1]); }
  }

  lemma LeafRoundTrip(id: TokenId)
    ensures Unleaf(Leaf(id)) == id
  {
    RoundTrip(id, 32);
  }

  lemma LeafInjective(a: TokenId, b: TokenId)
    requires Leaf(a) == Leaf(b)
    ensures a == b
  {
    LeafRoundTrip(a);
    LeafRoundTrip(b);
  }
}
