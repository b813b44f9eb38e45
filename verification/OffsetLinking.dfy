/**
 Linking at recorded offsets on bytecode with placeholders: which placeholders are filled,
 and with what.
 */
module OffsetLinking {
  import opened Results
  import opened Linker
  import opened Placeholders

  // ---------- filling placeholders ----------

  /** What each placeholder is to be filled with, if anything. */
  type Filling = string -> Option<string>

  ghost predicate DigitsOk(fill: Filling)
  {
    forall name :: fill(name).Some? ==> |fill(name).value| == 40 && Plain(fill(name).value)
  }

  function FillToken(fill: Filling, t: Token): Token
  {
    match t
    case Code(_) => t
    case Hole(n) => match fill(n) case None => t case Some(digits) => Code(digits)
  }

  function FillAll(fill: Filling, ts: seq<Token>): (r: seq<Token>)
    ensures |r| == |ts|
  {
    seq(|ts|, i requires 0 <= i < |ts| => FillToken(fill, ts[i]))
  }

  /** The bytecode with only the placeholders at the positions in `done` filled. */
  function Partial(fill: Filling, ts: seq<Token>, done: set<nat>): (r: seq<Token>)
    ensures |r| == |ts|
  {
    seq(|ts|, i requires 0 <= i < |ts| => if i in done then FillToken(fill, ts[i]) else ts[i])
  }

  /** The fixup covers exactly the i-th token. */
  predicate FixupOf(ts: seq<Token>, fixup: Fixup, i: nat)
  {
    i < |ts| && 2 + fixup.start * 2 == |Render(ts[..i])| && fixup.length == 20
  }

  lemma TokenLength(fill: Filling, t: Token)
    requires DigitsOk(fill) && TokenOk(t)
    ensures |FillToken(fill, t).Text()| == |t.Text()| >= 1
    ensures t.Hole? ==> |t.Text()| == 40
  {
  }

  lemma {:induction false} PartialLength(fill: Filling, ts: seq<Token>, done: set<nat>, i: nat)
    requires DigitsOk(fill) && TokensOk(ts) && i <= |ts|
    ensures |Render(Partial(fill, ts, done)[..i])| == |Render(ts[..i])|
  {
    if i > 0 {
      var p := Partial(fill, ts, done);
      PartialLength(fill, ts, done, i - 1);
      TokenLength(fill, ts[i - 1]);
      SamePrefixLength(ts, p, i - 1);
    }
  }

  lemma SamePrefixLength(ts: seq<Token>, us: seq<Token>, i: nat)
    requires i < |ts| && i < |us| && |Render(ts[..i])| == |Render(us[..i])| && |ts[i].Text()| == |us[i].Text()|
    ensures |Render(ts[..i + 1])| == |Render(us[..i + 1])|
  {
    RenderPrefix(ts, i);
    RenderPrefix(us, i);
  }

  lemma RenderPrefix(ts: seq<Token>, i: nat)
    requires i < |ts|
    ensures |Render(ts[..i + 1])| == |Render(ts[..i])| + |ts[i].Text()|
  {
    assert ts[..i + 1] == ts[..i] + [ts[i]];
    RenderConcat(ts[..i], [ts[i]]);
    assert Render([ts[i]]) == ts[i].Text() + "";
  }

  lemma RenderAround(ts: seq<Token>, i: nat)
    requires i < |ts|
    ensures Render(ts) == Render(ts[..i]) + ts[i].Text() + Render(ts[i + 1..])
  {
    assert ts == ts[..i] + ts[i..];
    RenderConcat(ts[..i], ts[i..]);
    assert ts[i..][1..] == ts[i + 1..];
    assert Render(ts[i..]) == ts[i].Text() + Render(ts[i + 1..]);
  }

  /** Splicing exactly over a token of 40 characters replaces the token. */
  lemma SpliceToken(ts: seq<Token>, fixup: Fixup, i: nat, addr: string)
    requires FixupOf(ts, fixup, i) && |ts[i].Text()| == 40 && |addr| == 42
    ensures Splice(Render(ts), fixup, addr) == Render(ts[i := Code(Tail(addr, 2))])
  {
    var us := ts[i := Code(Tail(addr, 2))];
    RenderAround(ts, i);
    RenderAround(us, i);
    assert us[..i] == ts[..i] && us[i + 1..] == ts[i + 1..];
    SpliceAround(Render(ts[..i]), ts[i].Text(), Render(ts[i + 1..]), fixup, addr);
  }

  lemma SpliceAround(a: string, b: string, c: string, fixup: Fixup, addr: string)
    requires |a| == 2 + fixup.start * 2 && |b| == 40 && fixup.length == 20
    ensures Splice(a + b + c, fixup, addr) == a + Tail(addr, 2) + c
  {
    var s := a + b + c;
    assert Head(s, |a|) == a;
    assert Tail(s, |a| + 40) == c;
  }

  lemma SplicePartial(fill: Filling, ts: seq<Token>, done: set<nat>, fixup: Fixup, i: nat, addr: string)
    requires DigitsOk(fill) && TokensOk(ts) && FixupOf(ts, fixup, i)
    requires ts[i].Hole? && fill(ts[i].name) == Some(Tail(addr, 2)) && |addr| == 42
    ensures Splice(Render(Partial(fill, ts, done)), fixup, addr) == Render(Partial(fill, ts, done + {i}))
  {
    var p := Partial(fill, ts, done);
    PartialLength(fill, ts, done, i);
    TokenLength(fill, ts[i]);
    SpliceToken(p, fixup, i, addr);
    PartialUpdate(fill, ts, done, i);
  }

  lemma PartialUpdate(fill: Filling, ts: seq<Token>, done: set<nat>, i: nat)
    requires i < |ts|
    ensures Partial(fill, ts, done)[i := FillToken(fill, ts[i])] == Partial(fill, ts, done + {i})
  {
  }

  lemma {:induction false} PositionsGrow(ts: seq<Token>, i: nat, j: nat)
    requires TokensOk(ts) && i < j <= |ts|
    ensures |Render(ts[..i])| < |Render(ts[..j])|
  {
    RenderPrefix(ts, j - 1);
    assert TokenOk(ts[j - 1]);
    if i < j - 1 { PositionsGrow(ts, i, j - 1); }
  }

  /** A fixup covers at most one token. */
  lemma FixupUnique(ts: seq<Token>, fixup: Fixup, i: nat, j: nat)
    requires TokensOk(ts) && FixupOf(ts, fixup, i) && FixupOf(ts, fixup, j)
    ensures i == j
  {
    if i < j { PositionsGrow(ts, i, j); } else if j < i { PositionsGrow(ts, j, i); }
  }

  // ---------- references ----------

  /** The name in the placeholder of a library: the encoding of file and name. */
  function PlaceholderName(keccak: NameHash, ref: Reference): string
  {
    EncodedName(keccak, ref.file + ":" + ref.libName)
  }

  /** All fixups lie on placeholders with this name. */
  ghost predicate FixupsOk(ts: seq<Token>, fixups: seq<Fixup>, name: string)
  {
    forall fixup :: fixup in fixups ==> FixupOn(ts, fixup, name)
  }

  ghost predicate FixupOn(ts: seq<Token>, fixup: Fixup, name: string)
  {
    exists i: nat :: FixupOf(ts, fixup, i) && ts[i] == Hole(name)
  }

  /** The i-th token is a placeholder of the reference and recorded there. */
  ghost predicate RecordedIn(keccak: NameHash, ts: seq<Token>, ref: Reference, i: nat)
  {
    exists fixup :: fixup in ref.fixups && FixupOf(ts, fixup, i) && ts[i] == Hole(PlaceholderName(keccak, ref))
  }

  /** Bytecode as compilers write it: every fixup lies on a placeholder of its library,
      every placeholder is recorded, and different libraries have different placeholders. */
  ghost predicate Compiled(keccak: NameHash, ts: seq<Token>, refs: seq<Reference>)
  {
    && TokensOk(ts)
    && (forall ref :: ref in refs ==> FixupsOk(ts, ref.fixups, PlaceholderName(keccak, ref)))
    && (forall i: nat :: i < |ts| && ts[i].Hole? ==> Recorded(keccak, ts, refs, i))
    && NamesApart(keccak, refs)
  }

  ghost predicate Recorded(keccak: NameHash, ts: seq<Token>, refs: seq<Reference>, i: nat)
  {
    exists ref :: ref in refs && RecordedIn(keccak, ts, ref, i)
  }

  ghost predicate NamesApart(keccak: NameHash, refs: seq<Reference>)
  {
    forall r, s :: 0 <= r < s < |refs| ==> PlaceholderName(keccak, refs[r]) != PlaceholderName(keccak, refs[s])
  }

  ghost predicate AddressesOk(libraries: seq<Library>)
  {
    forall i :: 0 <= i < |libraries| ==> AddressOk(libraries[i].address)
  }

  lemma {:induction false} LookupAddress(libraries: seq<Library>, name: string)
    requires AddressesOk(libraries) && Lookup(libraries, name).Some?
    ensures AddressOk(Lookup(libraries, name).value)
  {
    if libraries[0].name != name { LookupAddress(libraries[1..], name); }
  }

  /** What splicing finds for a reference. */
  function Found(libraries: seq<Library>, ref: Reference): Option<string>
  {
    match Lookup(libraries, ref.libName) case None => None case Some(addr) => Some(Tail(addr, 2))
  }

  /** What splicing fills a placeholder with: what it finds for its reference. */
  function Spliced(keccak: NameHash, refs: seq<Reference>, libraries: seq<Library>, name: string): Option<string>
  {
    if refs == [] then None
    else if PlaceholderName(keccak, refs[0]) == name then Found(libraries, refs[0])
    else Spliced(keccak, refs[1..], libraries, name)
  }

  lemma {:induction false} SplicedDigits(keccak: NameHash, refs: seq<Reference>, libraries: seq<Library>, name: string)
    requires AddressesOk(libraries) && Spliced(keccak, refs, libraries, name).Some?
    ensures var digits := Spliced(keccak, refs, libraries, name).value; |digits| == 40 && Plain(digits)
  {
    if PlaceholderName(keccak, refs[0]) == name {
      LookupAddress(libraries, refs[0].libName);
    } else {
      SplicedDigits(keccak, refs[1..], libraries, name);
    }
  }

  lemma {:induction false} SplicedOfReference(keccak: NameHash, refs: seq<Reference>, libraries: seq<Library>, ref: Reference)
    requires ref in refs && NamesApart(keccak, refs)
    ensures Spliced(keccak, refs, libraries, PlaceholderName(keccak, ref)) == Found(libraries, ref)
  {
    if refs[0] != ref {
      assert refs == [refs[0]] + refs[1..];
      var s :| 0 <= s < |refs| && refs[s] == ref;
      assert PlaceholderName(keccak, refs[0]) != PlaceholderName(keccak, refs[s]);
      SplicedOfReference(keccak, refs[1..], libraries, ref);
    }
  }

  // ---------- splicing fills ----------

  lemma {:induction false} FixupsPartial(fill: Filling, ts: seq<Token>, done: set<nat>, fixups: seq<Fixup>, name: string, addr: string)
    returns (after: set<nat>)
    requires DigitsOk(fill) && TokensOk(ts) && FixupsOk(ts, fixups, name)
    requires fill(name) == Some(Tail(addr, 2)) && |addr| == 42
    ensures done <= after
    ensures SpliceFixups(Render(Partial(fill, ts, done)), fixups, addr) == Render(Partial(fill, ts, after))
    ensures forall fixup :: fixup in fixups ==> FixupIn(ts, fixup, after)
    decreases |fixups|
  {
    if fixups == [] {
      after := done;
    } else {
      assert fixups[0] in fixups && fixups == [fixups[0]] + fixups[1..];
      assert FixupOn(ts, fixups[0], name);
      var i: nat :| FixupOf(ts, fixups[0], i) && ts[i] == Hole(name);
      SplicePartial(fill, ts, done, fixups[0], i, addr);
      after := FixupsPartial(fill, ts, done + {i}, fixups[1..], name, addr);
      assert FixupIn(ts, fixups[0], after);
    }
  }

  /** The token the fixup covers is among those done. */
  ghost predicate FixupIn(ts: seq<Token>, fixup: Fixup, done: set<nat>)
  {
    exists i: nat :: FixupOf(ts, fixup, i) && i in done
  }

  lemma OneReference(keccak: NameHash, libraries: seq<Library>, fill: Filling, ts: seq<Token>, done: set<nat>, ref: Reference)
    returns (after: set<nat>)
    requires AddressesOk(libraries) && DigitsOk(fill) && TokensOk(ts)
    requires FixupsOk(ts, ref.fixups, PlaceholderName(keccak, ref)) && fill(PlaceholderName(keccak, ref)) == Found(libraries, ref)
    ensures done <= after
    ensures SpliceReference(Render(Partial(fill, ts, done)), ref, libraries) == Render(Partial(fill, ts, after))
    ensures forall i: nat :: RecordedIn(keccak, ts, ref, i) && FillToken(fill, ts[i]) != ts[i] ==> i in after
  {
    var name := PlaceholderName(keccak, ref);
    match Lookup(libraries, ref.libName) {
      case None => after := done;
      case Some(addr) =>
        LookupAddress(libraries, ref.libName);
        after := FixupsPartial(fill, ts, done, ref.fixups, name, addr);
        forall i: nat | RecordedIn(keccak, ts, ref, i) ensures i in after {
          var fixup :| fixup in ref.fixups && FixupOf(ts, fixup, i);
          assert FixupIn(ts, fixup, after);
          var k: nat :| FixupOf(ts, fixup, k) && k in after;
          FixupUnique(ts, fixup, i, k);
        }
    }
  }

  lemma {:induction false} ReferencesPartial(keccak: NameHash, libraries: seq<Library>, fill: Filling, ts: seq<Token>, done: set<nat>,
                                             refs: seq<Reference>)
    returns (after: set<nat>)
    requires AddressesOk(libraries) && DigitsOk(fill) && TokensOk(ts)
    requires forall ref :: ref in refs ==> FixupsOk(ts, ref.fixups, PlaceholderName(keccak, ref))
    requires forall ref :: ref in refs ==> fill(PlaceholderName(keccak, ref)) == Found(libraries, ref)
    ensures done <= after
    ensures SpliceReferences(Render(Partial(fill, ts, done)), refs, libraries) == Render(Partial(fill, ts, after))
    ensures forall ref, i: nat :: ref in refs && RecordedIn(keccak, ts, ref, i) && FillToken(fill, ts[i]) != ts[i] ==> i in after
    decreases |refs|
  {
    if refs == [] {
      after := done;
    } else {
      assert refs[0] in refs && refs == [refs[0]] + refs[1..];
      assert forall ref :: ref in refs[1..] ==> ref in refs;
      var middle := OneReference(keccak, libraries, fill, ts, done, refs[0]);
      after := ReferencesPartial(keccak, libraries, fill, ts, middle, refs[1..]);
    }
  }

  /** Splicing fills: on compiled bytecode, whatever was filled before and in whatever order
      the references come, all placeholders of supplied libraries end up filled and
      nothing else changes.  With done = {} this is linking, with more it is linking
      again. */
  lemma SplicedFills(keccak: NameHash, libraries: seq<Library>, ts: seq<Token>, done: set<nat>, refs: seq<Reference>)
    requires AddressesOk(libraries) && Compiled(keccak, ts, refs)
    ensures var fill := name => Spliced(keccak, refs, libraries, name);
      SpliceReferences(Render(Partial(fill, ts, done)), refs, libraries) == Render(FillAll(fill, ts))
  {
    var fill := name => Spliced(keccak, refs, libraries, name);
    SplicingDigitsOk(keccak, libraries, refs, fill);
    forall ref | ref in refs ensures fill(PlaceholderName(keccak, ref)) == Found(libraries, ref) {
      SplicedOfReference(keccak, refs, libraries, ref);
    }
    var after := ReferencesPartial(keccak, libraries, fill, ts, done, refs);
    AllFilled(keccak, fill, ts, after, refs);
  }

  lemma SplicingDigitsOk(keccak: NameHash, libraries: seq<Library>, refs: seq<Reference>, fill: Filling)
    requires AddressesOk(libraries) && forall name :: fill(name) == Spliced(keccak, refs, libraries, name)
    ensures DigitsOk(fill)
  {
    forall name | fill(name).Some? ensures |fill(name).value| == 40 && Plain(fill(name).value) {
      SplicedDigits(keccak, refs, libraries, name);
    }
  }

  lemma AllFilled(keccak: NameHash, fill: Filling, ts: seq<Token>, after: set<nat>, refs: seq<Reference>)
    requires Compiled(keccak, ts, refs)
    requires forall ref, i: nat :: ref in refs && RecordedIn(keccak, ts, ref, i) && FillToken(fill, ts[i]) != ts[i] ==> i in after
    ensures Partial(fill, ts, after) == FillAll(fill, ts)
  {
    forall i: nat | i < |ts| ensures Partial(fill, ts, after)[i] == FillAll(fill, ts)[i] {
      if ts[i].Hole? {
        assert Recorded(keccak, ts, refs, i);
        var ref :| ref in refs && RecordedIn(keccak, ts, ref, i);
      }
    }
  }

  lemma NoneDone(fill: Filling, ts: seq<Token>)
    ensures Partial(fill, ts, {}) == ts
  {
  }

  lemma {:induction false} FilledLength(fill: Filling, ts: seq<Token>)
    requires DigitsOk(fill) && TokensOk(ts)
    ensures |Render(FillAll(fill, ts))| == |Render(ts)|
  {
    if ts != [] {
      FilledLength(fill, ts[1..]);
      assert FillAll(fill, ts)[1..] == FillAll(fill, ts[1..]);
      TokenLength(fill, ts[0]);
    }
  }
}
