/**
 The Merkle tree over a list of token ids, the proofs it hands out, and the
 on-chain verifier those proofs are made for.
 */
module Merkle {
  import opened Bytes
  import opened Results
  import opened Arithmetic
  import opened Sequences

  // ---------- hashing ----------

  /** Two nodes in ascending order, one after the other. */
  function SortedPair(a: Word, b: Word): (r: Text)
    ensures |r| == 64
  {
    if Less(b, a) then b + a else a + b
  }

  /** The parent of a node and its sibling; a node without a sibling is promoted. */
  function CombinedHash(h: Hash, first: Word, second: Option<Word>): Word
  {
    match second
    case None => first
    case Some(s) => h(SortedPair(first, s))
  }

  lemma SortedPairCommutes(a: Word, b: Word)
    ensures SortedPair(a, b) == SortedPair(b, a)
  {
    LessTotal(a, b);
  }

  /** The sorted pair determines its two members. */
  lemma SortedPairInjective(a: Word, b: Word, c: Word, d: Word)
    requires SortedPair(a, b) == SortedPair(c, d)
    ensures (a == c && b == d) || (a == d && b == c)
  {
    var p, q := SortedPair(a, b), SortedPair(c, d);
    assert p[..32] == (if Less(b, a) then b else a) && p[32..] == (if Less(b, a) then a else b);
    assert q[..32] == (if Less(d, c) then d else c) && q[32..] == (if Less(d, c) then c else d);
  }

  /** The pair holds the numerically smaller word first. */
  lemma SortedPairIsNumeric(a: Word, b: Word)
    ensures SortedPair(a, b) == if FromBytes(a) <= FromBytes(b) then a + b else b + a
  {
    LessIsNumeric(b, a);
  }

  // ---------- layers ----------

  function At(layer: seq<Word>, i: nat): Option<Word>
  {
    if i < |layer| then Some(layer[i]) else None
  }

  function LeafLayer(h: Hash, elements: seq<Word>): (r: seq<Word>)
    ensures |r| == |elements|
  {
    seq(|elements|, i requires 0 <= i < |elements| => h(elements[i]))
  }

  function NextLayer(h: Hash, layer: seq<Word>): (r: seq<Word>)
    ensures |r| == (|layer| + 1) / 2
  {
    seq((|layer| + 1) / 2, i requires 0 <= i < (|layer| + 1) / 2 => Parent(h, layer, i))
  }

  /** The parent of the nodes 2 * i and 2 * i + 1. */
  function Parent(h: Hash, layer: seq<Word>, i: nat): Word
    requires i < (|layer| + 1) / 2
  {
    CombinedHash(h, layer[2 * i], At(layer, 2 * i + 1))
  }

  /** A node's parent is made from the node and its sibling, whichever side it is on. */
  lemma ParentOfNode(h: Hash, layer: seq<Word>, idx: nat)
    requires idx < |layer|
    ensures Parent(h, layer, idx / 2) == CombinedHash(h, layer[idx], At(layer, SiblingIndex(idx)))
  {
    if idx % 2 == 1 {
      SortedPairCommutes(layer[idx], layer[idx - 1]);
    }
  }

  /** A layer and all layers above it. */
  function LayersFrom(h: Hash, layer: seq<Word>): (r: seq<seq<Word>>)
    ensures r != [] && r[0] == layer
    decreases |layer|
  {
    if |layer| <= 1 then [layer] else [layer] + LayersFrom(h, NextLayer(h, layer))
  }

  /** The single node at the top. */
  function RootFrom(h: Hash, layer: seq<Word>): Word
    requires layer != []
    decreases |layer|
  {
    if |layer| == 1 then layer[0] else RootFrom(h, NextLayer(h, layer))
  }

  method GetNextLayer(h: Hash, elements: seq<Word>) returns (layer: seq<Word>)
    ensures layer == NextLayer(h, elements)
  {
    layer := [];
    for idx := 0 to |elements|
      invariant |layer| == (idx + 1) / 2
      invariant forall i :: 0 <= i < |layer| ==> layer[i] == NextLayer(h, elements)[i]
    {
      if idx % 2 == 0 {
        layer := layer + [CombinedHash(h, elements[idx], At(elements, idx + 1))];
      }
    }
  }

  method GetLayers(h: Hash, elements: seq<Word>) returns (r: Result<seq<seq<Word>>>)
    ensures r.Failure? <==> elements == []
    ensures r.Success? ==> r.value == LayersFrom(h, LeafLayer(h, elements))
  {
    if elements == [] {
      return Failure("empty tree");
    }
    var leaves := LeafLayer(h, elements);
    var layers := [leaves];
    while |layers[|layers| - 1]| > 1
      invariant layers != [] && layers[|layers| - 1] != []
      invariant LayersFrom(h, leaves) == layers[..|layers| - 1] + LayersFrom(h, layers[|layers| - 1])
      decreases |layers[|layers| - 1]|
    {
      ghost var below := layers;
      ghost var last := layers[|layers| - 1];
      var next := GetNextLayer(h, layers[|layers| - 1]);
      layers := layers + [next];
      assert layers[..|layers| - 1] == below[..|below| - 1] + [last];
    }
    r := Success(layers);
  }

  /** The last layer holds the root alone. */
  lemma {:induction false} LastLayerIsRoot(h: Hash, layer: seq<Word>)
    requires layer != []
    ensures var layers := LayersFrom(h, layer); layers[|layers| - 1] == [RootFrom(h, layer)]
    decreases |layer|
  {
    if |layer| > 1 {
      LastLayerIsRoot(h, NextLayer(h, layer));
    }
  }

  // ---------- proofs ----------

  function SiblingIndex(idx: nat): nat
  {
    if idx % 2 == 0 then idx + 1 else idx - 1
  }

  /** The siblings on the way up from position idx; a missing sibling is left out. */
  function ProofFrom(layers: seq<seq<Word>>, idx: nat): seq<Word>
  {
    if layers == [] then []
    else
      (match At(layers[0], SiblingIndex(idx)) case Some(s) => [s] case None => [])
      + ProofFrom(layers[1..], idx / 2)
  }

  method GetHexProof(el: Word, index: map<Word, nat>, layers: seq<seq<Word>>) returns (r: Result<seq<Word>>)
    ensures r.Failure? <==> el !in index
    ensures r.Success? ==> r.value == ProofFrom(layers, index[el])
  {
    if el !in index {
      return Failure("Element does not exist in Merkle tree");
    }
    var idx := index[el];
    var proof := [];
    for i := 0 to |layers|
      invariant proof + ProofFrom(layers[i..], idx) == ProofFrom(layers, index[el])
    {
      var layer := layers[i];
      var pairIdx := if idx % 2 == 0 then idx + 1 else idx - 1;
      var pairElement := if pairIdx < |layer| then Some(layer[pairIdx]) else None;
      ProofStep(layers, i, idx, proof);
      if pairElement.Some? {
        proof := proof + [pairElement.value];
      }
      idx := idx / 2;
    }
    assert proof + ProofFrom(layers[|layers|..], idx) == proof;
    r := Success(proof);
  }

  lemma ProofStep(layers: seq<seq<Word>>, i: nat, idx: nat, proof: seq<Word>)
    requires i < |layers|
    ensures proof + ProofFrom(layers[i..], idx) ==
      (match At(layers[i], SiblingIndex(idx)) case Some(s) => proof + [s] case None => proof)
      + ProofFrom(layers[i + 1..], idx / 2)
  {
    var rest := ProofFrom(layers[i + 1..], idx / 2);
    ProofHead(layers, layers[i..], i, idx);
    match At(layers[i], SiblingIndex(idx)) {
      case None => Regroup(proof, [], rest);
      case Some(s) => Regroup(proof, [s], rest);
    }
  }

  lemma ProofHead(layers: seq<seq<Word>>, from: seq<seq<Word>>, i: nat, idx: nat)
    requires i < |layers| && from == layers[i..]
    ensures ProofFrom(from, idx) ==
      (match At(layers[i], SiblingIndex(idx)) case Some(s) => [s] case None => []) + ProofFrom(layers[i + 1..], idx / 2)
  {
    assert from[0] == layers[i] && from[1..] == layers[i + 1..];
  }

  lemma Regroup(a: seq<Word>, b: seq<Word>, c: seq<Word>)
    ensures a + (b + c) == (a + b) + c
    ensures b == [] ==> a + b == a
  {
  }

  // ---------- the verifier ----------

  /** The hash of a node and a proof element, the smaller one first. */
  function HashPair(h: Hash, node: Word, other: Word): Word
  {
    h(SortedPair(node, other))
  }

  /** The hash reached from a node by a list of proof elements. */
  function Fold(h: Hash, node: Word, proof: seq<Word>): Word
  {
    if proof == [] then node
    else HashPair(h, Fold(h, node, proof[..|proof| - 1]), proof[|proof| - 1])
  }

  predicate Verifies(h: Hash, leaf: Word, root: Word, proof: seq<Word>)
  {
    Fold(h, h(leaf), proof) == root
  }

  /** The verifier's loop over the proof, with its 64 bytes of scratch space. */
  method VerifyProof(h: Hash, leaf: Word, root: Word, proof: seq<Word>) returns (isValid: bool)
    ensures isValid <==> Verifies(h, leaf, root, proof)
  {
    var computedHash := h(leaf);
    for i := 0 to |proof|
      invariant computedHash == Fold(h, h(leaf), proof[..i])
    {
      var loadedData := proof[i];
      var low: Text, high: Text := computedHash, loadedData;
      if Less(loadedData, computedHash) {
        low, high := loadedData, computedHash;
      }
      assert proof[..i + 1][..i] == proof[..i];
      computedHash := h(low + high);
    }
    assert proof[..|proof|] == proof;
    isValid := computedHash == root;
  }

  /** The verifier hashes the numerically smaller word first. */
  lemma HashPairIsNumeric(h: Hash, node: Word, other: Word)
    ensures HashPair(h, node, other) == if FromBytes(node) <= FromBytes(other) then h(node + other) else h(other + node)
  {
    SortedPairIsNumeric(node, other);
  }

  lemma {:induction false} FoldCons(h: Hash, node: Word, p: Word, ps: seq<Word>)
    ensures Fold(h, node, [p] + ps) == Fold(h, HashPair(h, node, p), ps)
    decreases |ps|
  {
    if ps == [] {
      assert [p] + ps == [p];
      assert [p][..0] == [];
    } else {
      var k := |ps| - 1;
      FoldCons(h, node, p, ps[..k]);
      assert ([p] + ps)[..k + 1] == [p] + ps[..k];
    }
  }

  // ---------- completeness ----------

  /** From every node of every layer its proof leads to the root. */
  lemma {:induction false} ProofReachesRoot(h: Hash, layer: seq<Word>, idx: nat)
    requires idx < |layer|
    ensures Fold(h, layer[idx], ProofFrom(LayersFrom(h, layer), idx)) == RootFrom(h, layer)
    decreases |layer|
  {
    var layers := LayersFrom(h, layer);
    if |layer| == 1 {
      assert layers[1..] == [];
    } else {
      var next := NextLayer(h, layer);
      assert layers[1..] == LayersFrom(h, next);
      var rest := ProofFrom(layers[1..], idx / 2);
      ProofReachesRoot(h, next, idx / 2);
      ParentOfNode(h, layer, idx);
      match At(layer, SiblingIndex(idx)) {
        case None =>
          assert [] + rest == rest;
        case Some(s) =>
          FoldCons(h, layer[idx], s, rest);
      }
    }
  }

  // ---------- soundness ----------

  /** The layer d steps above the leaves. */
  function Level(h: Hash, elements: seq<Word>, d: nat): seq<Word>
  {
    if d == 0 then LeafLayer(h, elements) else NextLayer(h, Level(h, elements, d - 1))
  }

  /** The text whose hash a prover shows when folding proof from the leaf el. */
  function Shown(h: Hash, el: Word, proof: seq<Word>): Text
  {
    if proof == [] then el
    else SortedPair(Fold(h, h(el), proof[..|proof| - 1]), proof[|proof| - 1])
  }

  lemma ShownHash(h: Hash, el: Word, proof: seq<Word>)
    ensures h(Shown(h, el, proof)) == Fold(h, h(el), proof)
  {
  }

  /** Whoever reaches a node of the tree from h(el) holds an element of the tree, or
      a collision of h, which this lemma finds. */
  lemma {:induction false} NodeSound(h: Hash, elements: seq<Word>, d: nat, i: nat, el: Word, proof: seq<Word>)
    returns (x: Text, y: Text)
    requires i < |Level(h, elements, d)| && Fold(h, h(el), proof) == Level(h, elements, d)[i]
    ensures el in elements || Collision(h, x, y)
    decreases d, |proof|
  {
    ShownHash(h, el, proof);
    x := Shown(h, el, proof);
    if d == 0 {
      y := elements[i];
    } else {
      var below := Level(h, elements, d - 1);
      assert Level(h, elements, d)[i] == Parent(h, below, i);
      match At(below, 2 * i + 1) {
        case None =>
          x, y := NodeSound(h, elements, d - 1, 2 * i, el, proof);
        case Some(s) =>
          y := SortedPair(below[2 * i], s);
          if x == y {
            x, y := PairSound(h, elements, d - 1, i, el, proof);
          }
      }
    }
  }

  lemma {:induction false} PairSound(h: Hash, elements: seq<Word>, d: nat, i: nat, el: Word, proof: seq<Word>)
    returns (x: Text, y: Text)
    requires 2 * i + 1 < |Level(h, elements, d)|
    requires Shown(h, el, proof) == SortedPair(Level(h, elements, d)[2 * i], Level(h, elements, d)[2 * i + 1])
    ensures el in elements || Collision(h, x, y)
    decreases d, |proof|, 1
  {
    var level := Level(h, elements, d);
    var k := |proof| - 1;
    SortedPairInjective(Fold(h, h(el), proof[..k]), proof[k], level[2 * i], level[2 * i + 1]);
    if Fold(h, h(el), proof[..k]) == level[2 * i] {
      x, y := NodeSound(h, elements, d, 2 * i, el, proof[..k]);
    } else {
      x, y := NodeSound(h, elements, d, 2 * i + 1, el, proof[..k]);
    }
  }

  /** The number of layers above a layer of n nodes. */
  function Height(n: nat): nat
  {
    if n <= 1 then 0 else 1 + Height((n + 1) / 2)
  }

  lemma {:induction false} RootIsTopLevel(h: Hash, elements: seq<Word>, d: nat)
    requires Level(h, elements, d) != []
    ensures Level(h, elements, d + Height(|Level(h, elements, d)|)) == [RootFrom(h, Level(h, elements, d))]
    decreases |Level(h, elements, d)|
  {
    var layer := Level(h, elements, d);
    if |layer| > 1 {
      assert Level(h, elements, d + 1) == NextLayer(h, layer);
      RootIsTopLevel(h, elements, d + 1);
    }
  }

  /** Soundness: a 32-byte leaf that verifies against the root of a tree, with any
      proof of any length, is one of its elements, or h has a collision. */
  lemma Soundness(h: Hash, elements: seq<Word>, leaf: Word, proof: seq<Word>) returns (x: Text, y: Text)
    requires elements != []
    requires Verifies(h, leaf, RootFrom(h, LeafLayer(h, elements)), proof)
    ensures leaf in elements || Collision(h, x, y)
  {
    RootIsTopLevel(h, elements, 0);
    x, y := NodeSound(h, elements, Height(|elements|), 0, leaf, proof);
  }

  /** The root over one, two and three elements, written out. */
  lemma SmallRoots(h: Hash, a: Word, b: Word, c: Word)
    ensures RootFrom(h, LeafLayer(h, [a])) == h(a)
    ensures RootFrom(h, LeafLayer(h, [a, b])) == h(SortedPair(h(a), h(b)))
    ensures RootFrom(h, LeafLayer(h, [a, b, c])) == h(SortedPair(h(SortedPair(h(a), h(b))), h(c)))
  {
    assert LeafLayer(h, [a]) == [h(a)];
    RootOfTwo(h, LeafLayer(h, [a, b]));
    var three := LeafLayer(h, [a, b, c]);
    assert NextLayer(h, three) == [h(SortedPair(h(a), h(b))), h(c)];
    RootOfTwo(h, NextLayer(h, three));
  }

  lemma RootOfTwo(h: Hash, layer: seq<Word>)
    requires |layer| == 2
    ensures RootFrom(h, layer) == h(SortedPair(layer[0], layer[1]))
  {
    assert NextLayer(h, layer) == [Parent(h, layer, 0)];
  }

  // ---------- lengths of proofs ----------

  /** Height is the logarithm to base 2, rounded up. */
  lemma {:induction false} HeightIsCeilLog2(n: nat)
    requires 1 <= n
    ensures n <= Pow2(Height(n))
    ensures Height(n) > 0 ==> Pow2(Height(n) - 1) < n
  {
    if n > 1 {
      HeightIsCeilLog2((n + 1) / 2);
    }
  }

  lemma {:induction false} LayerCount(h: Hash, layer: seq<Word>)
    requires layer != []
    ensures |LayersFrom(h, layer)| == Height(|layer|) + 1
    decreases |layer|
  {
    if |layer| > 1 { LayerCount(h, NextLayer(h, layer)); }
  }

  /** No proof is longer than the tree is high, and the first element's is as long. */
  lemma {:induction false} ProofLength(h: Hash, layer: seq<Word>, idx: nat)
    requires idx < |layer|
    ensures |ProofFrom(LayersFrom(h, layer), idx)| <= Height(|layer|)
    ensures idx == 0 ==> |ProofFrom(LayersFrom(h, layer), idx)| == Height(|layer|)
    decreases |layer|
  {
    var layers := LayersFrom(h, layer);
    if |layer| == 1 {
      assert layers[1..] == [];
    } else {
      assert layers[1..] == LayersFrom(h, NextLayer(h, layer));
      ProofLength(h, NextLayer(h, layer), idx / 2);
    }
  }

  // ---------- sorted, distinct elements ----------

  predicate StrictlyAscending(s: seq<Word>)
  {
    forall i, j :: 0 <= i < j < |s| ==> Less(s[i], s[j])
  }

  predicate LessWord(a: Word, b: Word)
  {
    Less(a, b)
  }

  /** What sorting with Buffer.compare returns. */
  function Sort(s: seq<Word>): seq<Word>
  {
    SortBy(LessWord, s)
  }

  lemma LessIsOrdering()
    ensures Ordering(LessWord)
  {
    forall a: Word, b: Word | LessWord(a, b) ensures !LessWord(b, a) {
      LessTotal(a, b);
    }
    forall a: Word, b: Word, c: Word | !LessWord(b, a) && LessWord(b, c) ensures LessWord(a, c) {
      LessTotal(a, b);
      if Less(a, b) { LessTransitive(a, b, c); }
    }
  }

  lemma SortSorts(s: seq<Word>)
    ensures Ascending(LessWord, Sort(s))
    ensures forall x :: x in Sort(s) <==> x in s
  {
    LessIsOrdering();
    SortBySorts(LessWord, s);
  }

  /** Keeping the elements that differ from their predecessor. */
  function DropRepeats(s: seq<Word>): seq<Word>
  {
    if s == [] then []
    else
      var k := |s| - 1;
      DropRepeats(s[..k]) + (if k == 0 || s[k - 1] != s[k] then [s[k]] else [])
  }

  lemma {:induction false} DropRepeatsStrict(s: seq<Word>)
    requires Ascending(LessWord, s)
    ensures StrictlyAscending(DropRepeats(s))
    ensures forall x :: x in DropRepeats(s) <==> x in s
  {
    if s != [] {
      var k := |s| - 1;
      var t := DropRepeats(s[..k]);
      DropRepeatsStrict(s[..k]);
      assert s == s[..k] + [s[k]];
      if k == 0 || s[k - 1] != s[k] {
        forall i | 0 <= i < |t| ensures Less(t[i], s[k]) {
          assert t[i] in s[..k];
          var j :| 0 <= j < k && s[j] == t[i];
          LessTotal(s[j], s[k]);
          LessTotal(s[k - 1], s[k]);
          LessTotal(s[j], s[k - 1]);
        }
      } else {
        assert s[k - 1] in s[..k];
      }
    }
  }

  /** The leaves of the tree: encoded, sorted, without repeats. */
  function Elements(ids: seq<TokenId>): seq<Word>
  {
    DropRepeats(Sort(Leaves(ids)))
  }

  function Leaves(ids: seq<TokenId>): seq<Word>
  {
    seq(|ids|, i requires 0 <= i < |ids| => Leaf(ids[i]))
  }

  lemma ElementsOf(ids: seq<TokenId>)
    ensures StrictlyAscending(Elements(ids))
    ensures forall id: TokenId :: Leaf(id) in Elements(ids) <==> id in ids
    ensures forall w :: w in Elements(ids) ==> exists id :: id in ids && w == Leaf(id)
    ensures Elements(ids) == [] <==> ids == []
  {
    var raw := Leaves(ids);
    SortSorts(raw);
    DropRepeatsStrict(Sort(raw));
    LeavesOf(ids);
    if ids != [] { assert Leaf(ids[0]) in Elements(ids) by { assert ids[0] in ids; } }
    if Elements(ids) != [] { assert Elements(ids)[0] in Elements(ids); }
  }

  /** The ids of the elements are in ascending order. */
  lemma ElementsIncrease(ids: seq<TokenId>, i: nat, j: nat)
    requires i < j < |Elements(ids)|
    ensures Unleaf(Elements(ids)[i]) < Unleaf(Elements(ids)[j])
  {
    ElementsOf(ids);
    LessIsNumeric(Elements(ids)[i], Elements(ids)[j]);
  }

  lemma LeavesOf(ids: seq<TokenId>)
    ensures forall id: TokenId :: Leaf(id) in Leaves(ids) <==> id in ids
    ensures forall w :: w in Leaves(ids) ==> exists id :: id in ids && w == Leaf(id)
  {
    var raw := Leaves(ids);
    forall w | w in raw ensures exists id :: id in ids && w == Leaf(id) {
      var i :| 0 <= i < |raw| && raw[i] == w;
      assert ids[i] in ids;
    }
    forall id: TokenId ensures Leaf(id) in raw <==> id in ids {
      if id in ids {
        var i :| 0 <= i < |ids| && ids[i] == id;
        assert raw[i] == Leaf(id);
      }
      if Leaf(id) in raw {
        var i :| 0 <= i < |raw| && raw[i] == Leaf(id);
        LeafInjective(id, ids[i]);
      }
    }
  }

  /** A strictly ascending list is determined by its members. */
  lemma {:induction false} StrictUnique(s: seq<Word>, t: seq<Word>)
    requires StrictlyAscending(s) && StrictlyAscending(t)
    requires forall x :: x in s <==> x in t
    ensures s == t
  {
    if s == [] {
      if t != [] {
        HeadIsMember(t);
        assert false;
      }
    } else {
      assert s[0] in s && s[0] in t;
      assert t[0] in t && t[0] in s;
      if s[0] != t[0] {
        LessTotal(s[0], t[0]);
        assert false;
      }
      TailMembers(s);
      TailMembers(t);
      StrictUnique(s[1..], t[1..]);
      assert s == [s[0]] + s[1..] && t == [t[0]] + t[1..];
    }
  }

  lemma HeadIsMember(t: seq<Word>)
    requires t != []
    ensures t[0] in t
  {
  }

  lemma TailMembers(s: seq<Word>)
    requires s != [] && StrictlyAscending(s)
    ensures forall x :: x in s[1..] <==> x in s && x != s[0]
  {
    forall x | x in s[1..] ensures x != s[0] {
      var i :| 0 <= i < |s| - 1 && s[1..][i] == x;
      LessTotal(s[0], s[i + 1]);
    }
    assert s == [s[0]] + s[1..];
  }

  // ---------- the tree ----------

  datatype Tree = Tree(root: Word, proofs: map<TokenId, seq<Word>>, maxProofLength: nat)

  /** The ids of the elements, in their order. */
  function IdsOf(elements: seq<Word>): seq<TokenId>
  {
    seq(|elements|, k requires 0 <= k < |elements| => Unleaf(elements[k]))
  }

  /** The proofs of the first n elements, in their order. */
  function ProofsOf(layers: seq<seq<Word>>, n: nat): seq<seq<Word>>
  {
    seq(n, k requires 0 <= k < n => ProofFrom(layers, k))
  }

  /** m holds values[k] under keys[k] and no other key. */
  ghost predicate Pairs<K, V>(m: map<K, V>, keys: seq<K>, values: seq<V>)
    requires |keys| == |values|
  {
    && (forall d :: d in m ==> d in keys)
    && (forall k :: 0 <= k < |keys| ==> keys[k] in m && m[keys[k]] == values[k])
  }

  /** m is the length of the longest of the proofs, 0 if there are none. */
  ghost predicate IsLongest<V>(proofs: seq<seq<V>>, m: nat)
  {
    && (forall k :: 0 <= k < |proofs| ==> |proofs[k]| <= m)
    && (proofs == [] ==> m == 0)
    && (proofs != [] ==> exists k :: 0 <= k < |proofs| && |proofs[k]| == m)
  }

  lemma PairsStep<K, V>(m: map<K, V>, keys: seq<K>, values: seq<V>, k: K, v: V)
    requires |keys| == |values| && Pairs(m, keys, values) && k !in keys
    ensures Pairs(m[k := v], keys + [k], values + [v])
  {
  }

  lemma IsLongestStep<V>(proofs: seq<seq<V>>, m: nat, proof: seq<V>)
    requires IsLongest(proofs, m)
    ensures IsLongest(proofs + [proof], if m < |proof| then |proof| else m)
  {
    var all := proofs + [proof];
    if m < |proof| || proofs == [] {
      assert all[|proofs|] == proof;
    } else {
      var k :| 0 <= k < |proofs| && |proofs[k]| == m;
      assert all[k] == proofs[k];
    }
  }

  /** The tree over the given elements: what merkleTree returns. */
  ghost predicate IsTreeOver(h: Hash, elements: seq<Word>, tree: Tree)
    requires elements != []
  {
    var leaves := LeafLayer(h, elements);
    && tree.root == RootFrom(h, leaves)
    && Pairs(tree.proofs, IdsOf(elements), ProofsOf(LayersFrom(h, leaves), |elements|))
    && tree.maxProofLength == Height(|elements|)
  }

  lemma LeafUnleafElement(ids: seq<TokenId>, w: Word)
    requires w in Elements(ids)
    ensures Leaf(Unleaf(w)) == w
  {
    ElementsOf(ids);
    var id :| id in ids && w == Leaf(id);
    LeafRoundTrip(id);
  }

  method PositionIndex(elements: seq<Word>) returns (index: map<Word, nat>)
    requires StrictlyAscending(elements)
    ensures forall k :: 0 <= k < |elements| ==> elements[k] in index && index[elements[k]] == k
  {
    index := map[];
    for i := 0 to |elements|
      invariant forall k :: 0 <= k < i ==> elements[k] in index && index[elements[k]] == k
    {
      forall k | 0 <= k < i ensures elements[k] != elements[i] {
        LessTotal(elements[k], elements[i]);
      }
      index := index[elements[i] := i];
    }
  }

  /** proofs and m after the first n entries of ids and all. */
  ghost predicate Collected<K, V>(proofs: map<K, seq<V>>, m: nat, ids: seq<K>, all: seq<seq<V>>, n: nat)
    requires n <= |ids| == |all|
  {
    Pairs(proofs, ids[..n], all[..n]) && IsLongest(all[..n], m)
  }

  lemma CollectedStep<K, V>(proofs: map<K, seq<V>>, m: nat, ids: seq<K>, all: seq<seq<V>>, n: nat, id: K, proof: seq<V>)
    requires n < |ids| == |all| && Distinct(ids) && Collected(proofs, m, ids, all, n)
    requires id == ids[n] && proof == all[n]
    ensures Collected(proofs[id := proof], if m < |proof| then |proof| else m, ids, all, n + 1)
  {
    assert ids[..n + 1] == ids[..n] + [id];
    assert all[..n + 1] == all[..n] + [proof];
    PairsStep(proofs, ids[..n], all[..n], id, proof);
    IsLongestStep(all[..n], m, proof);
  }

  method CollectProofs(elements: seq<Word>, index: map<Word, nat>, layers: seq<seq<Word>>)
    returns (proofs: map<TokenId, seq<Word>>, maxProofLength: nat)
    requires forall k :: 0 <= k < |elements| ==> elements[k] in index && index[elements[k]] == k
    requires Distinct(IdsOf(elements))
    ensures Pairs(proofs, IdsOf(elements), ProofsOf(layers, |elements|))
    ensures IsLongest(ProofsOf(layers, |elements|), maxProofLength)
  {
    proofs, maxProofLength := map[], 0;
    ghost var ids, all := IdsOf(elements), ProofsOf(layers, |elements|);
    for i := 0 to |elements|
      invariant Collected(proofs, maxProofLength, ids, all, i)
    {
      var r := GetHexProof(elements[i], index, layers);
      var id, proof := Unleaf(elements[i]), r.value;
      CollectedStep(proofs, maxProofLength, ids, all, i, id, proof);
      proofs := proofs[id := proof];
      if maxProofLength < |proof| {
        maxProofLength := |proof|;
      }
    }
    assert ids[..|elements|] == ids && all[..|elements|] == all;
  }

  lemma UnleafDistinct(ids: seq<TokenId>)
    ensures Distinct(IdsOf(Elements(ids)))
  {
    var elements := Elements(ids);
    ElementsOf(ids);
    forall j, k | 0 <= j < k < |elements| ensures Unleaf(elements[j]) != Unleaf(elements[k]) {
      LeafUnleafElement(ids, elements[j]);
      LeafUnleafElement(ids, elements[k]);
      LessTotal(elements[j], elements[k]);
    }
  }

  lemma LongestIsHeight(h: Hash, layer: seq<Word>, m: nat)
    requires layer != [] && IsLongest(ProofsOf(LayersFrom(h, layer), |layer|), m)
    ensures m == Height(|layer|)
  {
    var proofs := ProofsOf(LayersFrom(h, layer), |layer|);
    ProofLength(h, layer, 0);
    assert |proofs[0]| == Height(|layer|);
    var k :| 0 <= k < |proofs| && |proofs[k]| == m;
    ProofLength(h, layer, k);
  }

  method MerkleTree(h: Hash, tokenIds: seq<TokenId>) returns (r: Result<Tree>)
    ensures r.Failure? <==> tokenIds == []
    ensures r.Success? ==> Elements(tokenIds) != [] && IsTreeOver(h, Elements(tokenIds), r.value)
  {
    var elements := Elements(tokenIds);
    ElementsOf(tokenIds);
    var index := PositionIndex(elements);
    var layers :- GetLayers(h, elements);
    LastLayerIsRoot(h, LeafLayer(h, elements));
    var root := layers[|layers| - 1][0];
    UnleafDistinct(tokenIds);
    var proofs, maxProofLength := CollectProofs(elements, index, layers);
    LongestIsHeight(h, LeafLayer(h, elements), maxProofLength);
    r := Success(Tree(root, proofs, maxProofLength));
  }

  // ---------- what the tree promises ----------

  lemma ElementAt(elements: seq<Word>, w: Word) returns (i: nat)
    requires w in elements
    ensures i < |elements| && elements[i] == w
  {
    i :| i < |elements| && elements[i] == w;
  }

  /** Completeness: every id of the list, and nothing else, has a proof, and its proof
      verifies against the root. */
  lemma Completeness(h: Hash, ids: seq<TokenId>, tree: Tree, id: TokenId)
    requires Elements(ids) != [] && IsTreeOver(h, Elements(ids), tree)
    ensures id in tree.proofs <==> id in ids
    ensures id in ids ==> Verifies(h, Leaf(id), tree.root, tree.proofs[id])
  {
    var elements := Elements(ids);
    ElementsOf(ids);
    LeafRoundTrip(id);
    if id in ids {
      var i := ElementAt(elements, Leaf(id));
      assert IdsOf(elements)[i] == id;
      ProofReachesRoot(h, LeafLayer(h, elements), i);
    }
    if id in tree.proofs {
      var k :| 0 <= k < |elements| && IdsOf(elements)[k] == id;
      LeafUnleafElement(ids, elements[k]);
    }
  }

  /** Soundness for ids: an id that verifies, by any proof, is in the list, or the
      proof reveals a collision of the hash. */
  lemma OnlyMembersVerify(h: Hash, ids: seq<TokenId>, tree: Tree, id: TokenId, proof: seq<Word>)
    returns (x: Text, y: Text)
    requires Elements(ids) != [] && IsTreeOver(h, Elements(ids), tree)
    requires Verifies(h, Leaf(id), tree.root, proof)
    ensures id in ids || Collision(h, x, y)
  {
    ElementsOf(ids);
    x, y := Soundness(h, Elements(ids), Leaf(id), proof);
  }

  /** The tree is a function of the set of ids: order and repeats do not matter. */
  lemma DependsOnSetOnly(h: Hash, ids: seq<TokenId>, jds: seq<TokenId>, t: Tree, u: Tree)
    requires forall id: TokenId :: id in ids <==> id in jds
    requires Elements(ids) != [] && IsTreeOver(h, Elements(ids), t)
    requires Elements(jds) != [] && IsTreeOver(h, Elements(jds), u)
    ensures t == u
  {
    ElementsOf(ids);
    ElementsOf(jds);
    forall w ensures w in Elements(ids) <==> w in Elements(jds) {
      if w in Elements(ids) { var id :| id in ids && w == Leaf(id); }
      if w in Elements(jds) { var id :| id in jds && w == Leaf(id); }
    }
    StrictUnique(Elements(ids), Elements(jds));
    SamePairs(t.proofs, u.proofs, IdsOf(Elements(ids)), ProofsOf(LayersFrom(h, LeafLayer(h, Elements(ids))), |Elements(ids)|));
  }

  lemma SamePairs<K, V>(m: map<K, V>, n: map<K, V>, keys: seq<K>, values: seq<V>)
    requires |keys| == |values| && Pairs(m, keys, values) && Pairs(n, keys, values)
    ensures m == n
  {
    forall d | d in m ensures d in n && m[d] == n[d] {
      var k :| 0 <= k < |keys| && keys[k] == d;
    }
    forall d | d in n ensures d in m {
      var k :| 0 <= k < |keys| && keys[k] == d;
    }
  }

  /** maxProofLength is the logarithm to base 2 of the number of distinct ids, rounded
      up, and the proof of the smallest id is that long. */
  lemma MaxProofLengthIsLog(h: Hash, elements: seq<Word>, tree: Tree)
    requires elements != [] && IsTreeOver(h, elements, tree)
    ensures |elements| <= Pow2(tree.maxProofLength)
    ensures tree.maxProofLength > 0 ==> Pow2(tree.maxProofLength - 1) < |elements|
    ensures Unleaf(elements[0]) in tree.proofs
    ensures |tree.proofs[Unleaf(elements[0])]| == tree.maxProofLength
  {
    HeightIsCeilLog2(|elements|);
    ProofLength(h, LeafLayer(h, elements), 0);
    assert IdsOf(elements)[0] == Unleaf(elements[0]);
  }
}
