/** Lists without repeats, and the filters the scripts use on lists. */
module Sequences {

  ghost predicate Distinct<T>(s: seq<T>)
  {
    forall j, k :: 0 <= j < k < |s| ==> s[j] != s[k]
  }

  ghost predicate Disjoint<T>(s: seq<T>, t: seq<T>)
  {
    forall x :: x in s ==> x !in t
  }

  /** The elements of s that are in t, in their order. */
  function Within<T(==, !new)>(s: seq<T>, t: seq<T>): (r: seq<T>)
    ensures forall x :: x in r <==> x in s && x in t
  {
    if s == [] then [] else (if s[0] in t then [s[0]] else []) + Within(s[1..], t)
  }

  /** The elements of s that are not in t, in their order. */
  function Without<T(==, !new)>(s: seq<T>, t: seq<T>): (r: seq<T>)
    ensures forall x :: x in r <==> x in s && x !in t
  {
    if s == [] then [] else (if s[0] !in t then [s[0]] else []) + Without(s[1..], t)
  }

  /** Both go part by part, so they keep the order. */
  lemma {:induction false} WithinConcat<T(!new)>(a: seq<T>, b: seq<T>, t: seq<T>)
    ensures Within(a + b, t) == Within(a, t) + Within(b, t)
  {
    if a == [] {
      assert a + b == b;
    } else {
      WithinConcat(a[1..], b, t);
      FiltersHead(a + b, a[1..] + b, a[0], t);
      Associate(if a[0] in t then [a[0]] else [], Within(a[1..], t), Within(b, t));
    }
  }

  lemma {:induction false} WithoutConcat<T(!new)>(a: seq<T>, b: seq<T>, t: seq<T>)
    ensures Without(a + b, t) == Without(a, t) + Without(b, t)
  {
    if a == [] {
      assert a + b == b;
    } else {
      WithoutConcat(a[1..], b, t);
      FiltersHead(a + b, a[1..] + b, a[0], t);
      Associate(if a[0] !in t then [a[0]] else [], Without(a[1..], t), Without(b, t));
    }
  }

  lemma FiltersHead<T(!new)>(s: seq<T>, rest: seq<T>, x: T, t: seq<T>)
    requires s == [x] + rest
    ensures Within(s, t) == (if x in t then [x] else []) + Within(rest, t)
    ensures Without(s, t) == (if x !in t then [x] else []) + Without(rest, t)
  {
    assert s[1..] == rest;
  }

  lemma Associate<T>(a: seq<T>, b: seq<T>, c: seq<T>)
    ensures a + (b + c) == a + b + c
  {
  }

  /** Of a single element, one of them keeps it and the other one drops it. */
  lemma FiltersOne<T(!new)>(x: T, t: seq<T>)
    ensures Within([x], t) == (if x in t then [x] else []) && Without([x], t) == if x in t then [] else [x]
  {
    assert [x][1..] == [];
  }

  function ToSet<T(!new)>(s: seq<T>): set<T>
  {
    set x | x in s
  }

  lemma DistinctTail<T>(s: seq<T>)
    requires s != []
    ensures Distinct(s) <==> s[0] !in s[1..] && Distinct(s[1..])
  {
    if Distinct(s) {
      assert forall k :: 0 <= k < |s| - 1 ==> s[1..][k] == s[k + 1];
    }
    if s[0] !in s[1..] && Distinct(s[1..]) {
      forall j, k | 0 <= j < k < |s| ensures s[j] != s[k] {
        assert s[k] == s[1..][k - 1];
        if j > 0 { assert s[j] == s[1..][j - 1]; }
      }
    }
  }

  /** A list is free of repeats exactly if both parts of a split are. */
  lemma {:induction false} DistinctSplit<T(!new)>(s: seq<T>, t: seq<T>)
    ensures Distinct(s) <==> Distinct(Within(s, t)) && Distinct(Without(s, t))
  {
    if s != [] {
      var within, without := Within(s[1..], t), Without(s[1..], t);
      DistinctSplit(s[1..], t);
      DistinctTail(s);
      if s[0] in t {
        DistinctTail([s[0]] + within);
        assert ([s[0]] + within)[1..] == within;
        assert Within(s, t) == [s[0]] + within && Without(s, t) == [] + without == without;
      } else {
        DistinctTail([s[0]] + without);
        assert ([s[0]] + without)[1..] == without;
        assert Without(s, t) == [s[0]] + without && Within(s, t) == [] + within == within;
      }
    }
  }

  /** A concatenation is free of repeats exactly if both lists are and share nothing. */
  lemma {:induction false} DistinctConcat<T>(s: seq<T>, t: seq<T>)
    ensures Distinct(s + t) <==> Distinct(s) && Distinct(t) && Disjoint(s, t)
  {
    if s == [] {
      assert s + t == t;
    } else {
      assert (s + t)[1..] == s[1..] + t;
      DistinctTail(s + t);
      DistinctTail(s);
      DistinctConcat(s[1..], t);
      assert s == [s[0]] + s[1..];
    }
  }

  /** Pieces of the given size, the last one possibly shorter. */
  function Chunk<T>(s: seq<T>, size: nat): seq<seq<T>>
    decreases |s|
  {
    if s == [] || size == 0 then []
    else if |s| <= size then [s]
    else [s[..size]] + Chunk(s[size..], size)
  }

  function Concat<T>(chunks: seq<seq<T>>): seq<T>
  {
    if chunks == [] then [] else chunks[0] + Concat(chunks[1..])
  }

  /** The concatenation of the chunks is the list, no chunk is empty or too long, and all
      but the last have the full size. */
  lemma {:induction false} ChunksConcatenate<T>(s: seq<T>, size: nat)
    requires 1 <= size
    ensures Concat(Chunk(s, size)) == s
    ensures forall i :: 0 <= i < |Chunk(s, size)| ==> 1 <= |Chunk(s, size)[i]| <= size
    ensures forall i :: 0 <= i < |Chunk(s, size)| - 1 ==> |Chunk(s, size)[i]| == size
    decreases |s|
  {
    if |s| > size {
      ChunksConcatenate(s[size..], size);
      assert s == s[..size] + s[size..];
      assert Chunk(s, size)[1..] == Chunk(s[size..], size);
    } else if s != [] {
      assert Chunk(s, size)[1..] == [];
    }
  }

  lemma {:induction false} ConcatAppend<T>(chunks: seq<seq<T>>, last: seq<T>)
    ensures Concat(chunks + [last]) == Concat(chunks) + last
  {
    if chunks == [] {
      assert (chunks + [last])[1..] == [];
    } else {
      assert (chunks + [last])[1..] == chunks[1..] + [last];
      ConcatAppend(chunks[1..], last);
    }
  }

  // ---------- insertion sort ----------

  function InsertBy<T>(less: (T, T) -> bool, x: T, s: seq<T>): seq<T>
  {
    if s == [] || !less(s[0], x) then [x] + s else [s[0]] + InsertBy(less, x, s[1..])
  }

  /** What sorting by a comparison returns. */
  function SortBy<T>(less: (T, T) -> bool, s: seq<T>): seq<T>
  {
    if s == [] then [] else InsertBy(less, s[0], SortBy(less, s[1..]))
  }

  /** No element is less than an earlier one. */
  ghost predicate Ascending<T>(less: (T, T) -> bool, s: seq<T>)
  {
    forall i, j :: 0 <= i < j < |s| ==> !less(s[j], s[i])
  }

  /** A comparison to sort by: asymmetric, and elements that are not comparable compare
      alike with all others. */
  ghost predicate Ordering<T(!new)>(less: (T, T) -> bool)
  {
    && (forall a, b :: less(a, b) ==> !less(b, a))
    && (forall a, b, c :: !less(b, a) && less(b, c) ==> less(a, c))
  }

  lemma {:induction false} InsertByMembers<T>(less: (T, T) -> bool, x: T, s: seq<T>)
    ensures forall y :: y in InsertBy(less, x, s) <==> y == x || y in s
    ensures Distinct(s) && x !in s ==> Distinct(InsertBy(less, x, s))
  {
    if s != [] && less(s[0], x) {
      var t := InsertBy(less, x, s[1..]);
      InsertByMembers(less, x, s[1..]);
      assert s == [s[0]] + s[1..];
      assert ([s[0]] + t)[1..] == t;
      DistinctTail([s[0]] + t);
      DistinctTail(s);
    } else {
      assert ([x] + s)[1..] == s;
      DistinctTail([x] + s);
    }
  }

  lemma {:induction false} InsertBySorts<T(!new)>(less: (T, T) -> bool, x: T, s: seq<T>)
    requires Ordering(less) && Ascending(less, s)
    ensures Ascending(less, InsertBy(less, x, s))
  {
    if s != [] && less(s[0], x) {
      var t := InsertBy(less, x, s[1..]);
      assert s == [s[0]] + s[1..];
      InsertBySorts(less, x, s[1..]);
      InsertByMembers(less, x, s[1..]);
      AscendingCons(less, s[0], t, s[1..], x);
    } else {
      forall j | 0 <= j < |s| ensures !less(s[j], x) {
        if j > 0 { assert !less(s[j], s[0]); }
      }
    }
  }

  lemma AscendingCons<T>(less: (T, T) -> bool, h: T, t: seq<T>, rest: seq<T>, x: T)
    requires Ascending(less, t) && Ascending(less, [h] + rest) && !less(x, h)
    requires forall y :: y in t ==> y == x || y in rest
    ensures Ascending(less, [h] + t)
  {
    forall j | 0 <= j < |t| ensures !less(t[j], h) {
      assert t[j] in t;
      if t[j] != x {
        var k :| 0 <= k < |rest| && rest[k] == t[j];
        assert ([h] + rest)[k + 1] == t[j] && ([h] + rest)[0] == h;
      }
    }
  }

  /** Sorting gives an ascending list of the same members, and repeats nothing. */
  lemma {:induction false} SortBySorts<T(!new)>(less: (T, T) -> bool, s: seq<T>)
    requires Ordering(less)
    ensures Ascending(less, SortBy(less, s))
    ensures forall y :: y in SortBy(less, s) <==> y in s
    ensures Distinct(s) ==> Distinct(SortBy(less, s))
  {
    if s != [] {
      assert s == [s[0]] + s[1..];
      SortBySorts(less, s[1..]);
      InsertBySorts(less, s[0], SortBy(less, s[1..]));
      InsertByMembers(less, s[0], SortBy(less, s[1..]));
      DistinctTail(s);
    }
  }
}
