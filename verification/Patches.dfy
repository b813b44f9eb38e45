/**
 Linking at recorded offsets, on any bytecode: what is written where, and what is not
 touched.
 */
module Patches {
  import opened Linker

  /** Digits to be written at a position of the bytecode. */
  datatype Patch = Patch(at: nat, digits: string)

  function PatchOf(fixup: Fixup, addr: string): Patch
  {
    Patch(2 + fixup.start * 2, Tail(addr, 2))
  }

  function FixupPatches(fixups: seq<Fixup>, addr: string): seq<Patch>
  {
    if fixups == [] then [] else [PatchOf(fixups[0], addr)] + FixupPatches(fixups[1..], addr)
  }

  /** The patches of all fixups of supplied libraries. */
  function Patches(refs: seq<Reference>, libraries: seq<Library>): seq<Patch>
  {
    if refs == [] then []
    else
      (match Lookup(libraries, refs[0].libName) case None => [] case Some(addr) => FixupPatches(refs[0].fixups, addr))
      + Patches(refs[1..], libraries)
  }

  /** The address is as long as the fixup, and the fixup lies inside the bytecode. */
  predicate Fits(fixup: Fixup, addr: string, length: nat)
  {
    |Tail(addr, 2)| == fixup.length * 2 && 2 + (fixup.start + fixup.length) * 2 <= length
  }

  ghost predicate AllFit(refs: seq<Reference>, libraries: seq<Library>, length: nat)
  {
    forall ref :: ref in refs ==> RefFits(ref, libraries, length)
  }

  /** Nothing is asked of the fixups of a library that is not supplied. */
  ghost predicate RefFits(ref: Reference, libraries: seq<Library>, length: nat)
  {
    match Lookup(libraries, ref.libName)
    case None => true
    case Some(addr) => forall fixup :: fixup in ref.fixups ==> Fits(fixup, addr, length)
  }

  predicate Covers(p: Patch, k: int)
  {
    p.at <= k < p.at + |p.digits|
  }

  /** No position belongs to two different patches. */
  ghost predicate PatchesApart(ps: seq<Patch>)
  {
    forall p, q, k :: p in ps && q in ps && Covers(p, k) && Covers(q, k) ==> p == q
  }

  /** t has the digits of p in their place. */
  ghost predicate Holds(t: string, p: Patch)
  {
    p.at + |p.digits| <= |t| && forall k :: Covers(p, k) ==> t[k] == p.digits[k - p.at]
  }

  ghost predicate Untouched(ps: seq<Patch>, k: int)
  {
    forall p :: p in ps ==> !Covers(p, k)
  }

  /** t is s with every patch written and every other character as it was. */
  ghost predicate Written(s: string, ps: seq<Patch>, t: string)
  {
    && |t| == |s|
    && (forall p :: p in ps ==> Holds(t, p))
    && (forall k :: 0 <= k < |s| && Untouched(ps, k) ==> t[k] == s[k])
  }

  // ---------- splicing writes the patches ----------

  function Write(s: string, p: Patch): string
    requires p.at + |p.digits| <= |s|
  {
    s[..p.at] + p.digits + s[p.at + |p.digits|..]
  }

  ghost predicate Inside(ps: seq<Patch>, length: nat)
  {
    forall p :: p in ps ==> p.at + |p.digits| <= length
  }

  function WriteAll(s: string, ps: seq<Patch>): string
    requires Inside(ps, |s|)
    decreases |ps|
  {
    if ps == [] then s
    else
      assert ps[0] in ps;
      assert forall p :: p in ps[1..] ==> p in ps;
      WriteAll(Write(s, ps[0]), ps[1..])
  }

  lemma {:induction false} WriteAllConcat(s: string, ps: seq<Patch>, qs: seq<Patch>)
    requires Inside(ps, |s|) && Inside(qs, |s|)
    ensures |WriteAll(s, ps)| == |s| && Inside(ps + qs, |s|)
    ensures WriteAll(s, ps + qs) == WriteAll(WriteAll(s, ps), qs)
    decreases |ps|
  {
    if ps == [] {
      assert ps + qs == qs;
    } else {
      assert (ps + qs)[1..] == ps[1..] + qs && ps[0] in ps;
      assert forall p :: p in ps[1..] ==> p in ps;
      WriteAllConcat(Write(s, ps[0]), ps[1..], qs);
    }
  }

  lemma {:induction false} FixupsWrite(s: string, fixups: seq<Fixup>, addr: string)
    requires forall fixup :: fixup in fixups ==> Fits(fixup, addr, |s|)
    ensures Inside(FixupPatches(fixups, addr), |s|)
    ensures SpliceFixups(s, fixups, addr) == WriteAll(s, FixupPatches(fixups, addr))
    decreases |fixups|
  {
    if fixups != [] {
      var p, ps := PatchOf(fixups[0], addr), FixupPatches(fixups, addr);
      assert Fits(fixups[0], addr, |s|);
      assert Splice(s, fixups[0], addr) == Write(s, p);
      assert forall fixup :: fixup in fixups[1..] ==> fixup in fixups;
      FixupsWrite(Write(s, p), fixups[1..], addr);
      assert ps[1..] == FixupPatches(fixups[1..], addr) && ps[0] == p;
    }
  }

  lemma {:induction false} ReferencesWrite(s: string, refs: seq<Reference>, libraries: seq<Library>)
    requires AllFit(refs, libraries, |s|)
    ensures Inside(Patches(refs, libraries), |s|)
    ensures SpliceReferences(s, refs, libraries) == WriteAll(s, Patches(refs, libraries))
    decreases |refs|
  {
    if refs != [] {
      assert RefFits(refs[0], libraries, |s|);
      assert forall ref :: ref in refs[1..] ==> ref in refs;
      match Lookup(libraries, refs[0].libName) {
        case None =>
          ReferencesWrite(s, refs[1..], libraries);
          assert Patches(refs, libraries) == Patches(refs[1..], libraries);
        case Some(addr) =>
          var ps := FixupPatches(refs[0].fixups, addr);
          FixupsWrite(s, refs[0].fixups, addr);
          WriteAllConcat(s, ps, []);
          ReferencesWrite(WriteAll(s, ps), refs[1..], libraries);
          WriteAllConcat(s, ps, Patches(refs[1..], libraries));
      }
    }
  }

  /** Writing disjoint patches one after the other leaves all of them in place. */
  lemma {:induction false} WriteAllWritten(s: string, ps: seq<Patch>)
    requires Inside(ps, |s|) && PatchesApart(ps)
    ensures Written(s, ps, WriteAll(s, ps))
    decreases |ps|
  {
    if ps != [] {
      var p, rest := ps[0], ps[1..];
      assert p in ps && ps == [p] + rest;
      var s', t := Write(s, p), WriteAll(s, ps);
      WriteAllWritten(s', rest);
      if p !in rest {
        forall k | Covers(p, k) ensures t[k] == p.digits[k - p.at] {
          assert Untouched(rest, k);
        }
      }
      forall k | 0 <= k < |s| && Untouched(ps, k) ensures t[k] == s[k] {
        assert Untouched(rest, k) && !Covers(p, k);
      }
    }
  }

  // ---------- what the patches determine ----------

  ghost predicate SamePatches(ps: seq<Patch>, qs: seq<Patch>)
  {
    forall p :: p in ps <==> p in qs
  }

  /** The written text is determined by the text and the set of patches. */
  lemma WrittenUnique(s: string, ps: seq<Patch>, qs: seq<Patch>, t: string, u: string)
    requires Written(s, ps, t) && Written(s, qs, u) && SamePatches(ps, qs)
    ensures t == u
  {
    forall k | 0 <= k < |s| ensures t[k] == u[k] {
      if Untouched(ps, k) {
        assert Untouched(qs, k);
      } else {
        var p :| p in ps && Covers(p, k);
        assert Holds(t, p) && Holds(u, p);
      }
    }
  }

  /** Writing the same patches again changes nothing. */
  lemma WrittenAgain(s: string, ps: seq<Patch>, t: string)
    requires Written(s, ps, t)
    ensures Written(t, ps, t)
  {
  }

  /** The frame of linking at offsets, on any bytecode.  With fixups of supplied libraries
      that are in range, as long as the addresses, and disjoint: the length is kept,
      each of these fixups holds its library's address, every other character is
      unchanged, and linking again changes nothing. */
  lemma LinkingFrame(bytecode: string, refs: seq<Reference>, libraries: seq<Library>)
    requires AllFit(refs, libraries, |bytecode|) && PatchesApart(Patches(refs, libraries))
    ensures var linked := SpliceReferences(bytecode, refs, libraries);
      && Written(bytecode, Patches(refs, libraries), linked)
      && SpliceReferences(linked, refs, libraries) == linked
  {
    var linked := SpliceReferences(bytecode, refs, libraries);
    ReferencesWrite(bytecode, refs, libraries);
    WriteAllWritten(bytecode, Patches(refs, libraries));
    ReferencesWrite(linked, refs, libraries);
    WriteAllWritten(linked, Patches(refs, libraries));
    WrittenAgain(bytecode, Patches(refs, libraries), linked);
    WrittenUnique(linked, Patches(refs, libraries), Patches(refs, libraries), linked, SpliceReferences(linked, refs, libraries));
  }

  lemma {:induction false} FixupPatchMember(p: Patch, fixups: seq<Fixup>, addr: string)
    ensures p in FixupPatches(fixups, addr) <==> exists fixup :: fixup in fixups && p == PatchOf(fixup, addr)
  {
    if fixups != [] {
      FixupPatchMember(p, fixups[1..], addr);
      assert fixups == [fixups[0]] + fixups[1..];
    }
  }

  /** p writes the address of ref's library, if supplied, at one of its fixups. */
  ghost predicate PatchFor(p: Patch, ref: Reference, libraries: seq<Library>)
  {
    match Lookup(libraries, ref.libName)
    case None => false
    case Some(addr) => exists fixup :: fixup in ref.fixups && p == PatchOf(fixup, addr)
  }

  /** The patches are exactly the recorded fixups of supplied libraries with their
      addresses. */
  lemma {:induction false} PatchMember(p: Patch, refs: seq<Reference>, libraries: seq<Library>)
    ensures p in Patches(refs, libraries) <==> exists ref :: ref in refs && PatchFor(p, ref, libraries)
  {
    if refs != [] {
      PatchMember(p, refs[1..], libraries);
      assert refs == [refs[0]] + refs[1..];
      var found := Lookup(libraries, refs[0].libName);
      if found.Some? {
        FixupPatchMember(p, refs[0].fixups, found.value);
      }
      assert p in Patches(refs, libraries) <==> PatchFor(p, refs[0], libraries) || p in Patches(refs[1..], libraries);
    }
  }

  /** A library's fixup is recorded somewhere among the references. */
  ghost predicate Records(refs: seq<Reference>, libName: string, fixup: Fixup)
  {
    exists ref :: ref in refs && ref.libName == libName && fixup in ref.fixups
  }

  lemma PatchRecorded(p: Patch, refs: seq<Reference>, libraries: seq<Library>)
    ensures p in Patches(refs, libraries) <==> exists libName, fixup :: Records(refs, libName, fixup) && Writes(p, libName, fixup, libraries)
  {
    PatchMember(p, refs, libraries);
    if p in Patches(refs, libraries) {
      var ref :| ref in refs && PatchFor(p, ref, libraries);
      var fixup :| fixup in ref.fixups && p == PatchOf(fixup, Lookup(libraries, ref.libName).value);
      assert Records(refs, ref.libName, fixup) && Writes(p, ref.libName, fixup, libraries);
    }
    if libName, fixup :| Records(refs, libName, fixup) && Writes(p, libName, fixup, libraries) {
      var ref :| ref in refs && ref.libName == libName && fixup in ref.fixups;
      assert PatchFor(p, ref, libraries);
    }
  }

  predicate Writes(p: Patch, libName: string, fixup: Fixup, libraries: seq<Library>)
  {
    Lookup(libraries, libName).Some? && p == PatchOf(fixup, Lookup(libraries, libName).value)
  }

  /** No order matters: neither that of the references, nor that of the fixups inside a
      reference, nor that of the libraries. */
  lemma OrderIrrelevant(bytecode: string, refs: seq<Reference>, libraries: seq<Library>,
                        refs': seq<Reference>, libraries': seq<Library>)
    requires AllFit(refs, libraries, |bytecode|) && PatchesApart(Patches(refs, libraries))
    requires forall libName, fixup :: Records(refs, libName, fixup) <==> Records(refs', libName, fixup)
    requires forall name :: Lookup(libraries, name) == Lookup(libraries', name)
    ensures SpliceReferences(bytecode, refs, libraries) == SpliceReferences(bytecode, refs', libraries')
  {
    var ps, qs := Patches(refs, libraries), Patches(refs', libraries');
    forall p ensures p in ps <==> p in qs {
      SamePatch(p, refs, libraries, refs', libraries');
    }
    forall ref | ref in refs' ensures RefFits(ref, libraries', |bytecode|) {
      OtherFits(ref, refs, libraries, refs', libraries', |bytecode|);
    }
    LinkingFrame(bytecode, refs, libraries);
    LinkingFrame(bytecode, refs', libraries');
    WrittenUnique(bytecode, ps, qs, SpliceReferences(bytecode, refs, libraries), SpliceReferences(bytecode, refs', libraries'));
  }

  lemma SamePatch(p: Patch, refs: seq<Reference>, libraries: seq<Library>, refs': seq<Reference>, libraries': seq<Library>)
    requires forall libName, fixup :: Records(refs, libName, fixup) <==> Records(refs', libName, fixup)
    requires forall name :: Lookup(libraries, name) == Lookup(libraries', name)
    ensures p in Patches(refs, libraries) <==> p in Patches(refs', libraries')
  {
    PatchRecorded(p, refs, libraries);
    PatchRecorded(p, refs', libraries');
    assert forall libName, fixup :: Writes(p, libName, fixup, libraries) <==> Writes(p, libName, fixup, libraries');
  }

  lemma OtherFits(ref: Reference, refs: seq<Reference>, libraries: seq<Library>, refs': seq<Reference>, libraries': seq<Library>, length: nat)
    requires AllFit(refs, libraries, length) && ref in refs'
    requires forall libName, fixup :: Records(refs, libName, fixup) <==> Records(refs', libName, fixup)
    requires forall name :: Lookup(libraries, name) == Lookup(libraries', name)
    ensures RefFits(ref, libraries', length)
  {
    if Lookup(libraries', ref.libName).Some? {
      forall fixup | fixup in ref.fixups ensures Fits(fixup, Lookup(libraries', ref.libName).value, length) {
        assert Records(refs', ref.libName, fixup);
        assert Records(refs, ref.libName, fixup);
        var other :| other in refs && other.libName == ref.libName && fixup in other.fixups;
        assert RefFits(other, libraries, length);
      }
    }
  }
}
