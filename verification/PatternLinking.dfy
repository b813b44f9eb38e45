/**
 Linking by pattern on bytecode with placeholders: one library, all libraries, and what
 becomes of placeholders that touch.
 */
module PatternLinking {
  import opened Results
  import opened Linker
  import opened Placeholders

  // ---------- one library on bytecode with placeholders ----------

  /** Bytecode as the compiler leaves it: all placeholders whole. */
  function Whole(ts: seq<Token>): (ps: seq<Piece>)
    ensures |ps| == |ts|
  {
    seq(|ts|, i requires 0 <= i < |ts| => WholePiece(ts[i]))
  }

  function WholePiece(t: Token): Piece
  {
    match t
    case Code(s) => Solid(s)
    case Hole(n) => Mark(n, true, true)
  }

  lemma {:induction false} ShowWhole(ts: seq<Token>)
    requires TokensOk(ts)
    ensures Show(Whole(ts)) == Render(ts) && PiecesOk(Whole(ts))
  {
    if ts != [] {
      ShowWhole(ts[1..]);
      assert Whole(ts)[1..] == Whole(ts[1..]);
      assert TokenOk(ts[0]);
      HoleText(ts[0]);
    }
  }

  lemma HoleText(t: Token)
    ensures WholePiece(t).Text() == t.Text()
  {
    if t.Hole? {
      assert "__" + ("$" + t.name + "$" + "__") == "__$" + t.name + "$__";
    }
  }

  /** A placeholder of the named library touches another placeholder. */
  ghost predicate Touching(ts: seq<Token>, name: string)
  {
    exists i :: TouchAt(ts, name, i)
  }

  predicate TouchAt(ts: seq<Token>, name: string, i: int)
  {
    0 < i < |ts| && ts[i - 1].Hole? && ts[i].Hole? && (ts[i - 1].name == name || ts[i].name == name)
  }

  lemma {:induction false} TouchedWhole(ts: seq<Token>, name: string)
    ensures Touched(Whole(ts), name) <==> Touching(ts, name)
    ensures HasHit(Whole(ts), name) <==> Hole(name) in ts
  {
    if ts != [] {
      var rest := ts[1..];
      TouchedWhole(rest, name);
      assert Whole(ts)[1..] == Whole(rest);
      assert ts == [ts[0]] + rest;
      if i :| TouchAt(ts, name, i) && i > 1 {
        assert TouchAt(rest, name, i - 1);
      }
      if i :| TouchAt(rest, name, i) {
        assert TouchAt(ts, name, i + 1);
      }
      if Touched(Whole(ts), name) && !Touched(Whole(rest), name) {
        assert TouchAt(ts, name, 1);
      }
    }
  }

  /** Where no placeholder of the library touches another one, tearing is filling. */
  lemma {:induction false} TearFills(ts: seq<Token>, name: string, address: string)
    requires !Touched(Whole(ts), name)
    ensures Tear(Whole(ts), name, address) == Whole(Fill(ts, name, address))
  {
    if ts != [] {
      var rest := ts[1..];
      assert Whole(ts)[1..] == Whole(rest);
      TearFills(rest, name, address);
      assert Fill(ts, name, address)[1..] == Fill(rest, name, address);
      assert Whole(Fill(ts, name, address)) ==
        [WholePiece(Fill(ts, name, address)[0])] + Whole(Fill(rest, name, address));
    }
  }

  /** Replacing the pattern of a library whose placeholders touch no other fills exactly
      its placeholders; the pattern occurs exactly if there is one. */
  lemma ReplaceFills(ts: seq<Token>, name: string, address: string)
    requires TokensOk(ts) && |name| == 34 && address != "" && Plain(address)
    ensures !Touching(ts, name) ==> ReplaceAll(Render(ts), name, address) == Render(Fill(ts, name, address))
    ensures Occurs(Render(ts), name) <==> Hole(name) in ts
  {
    ShowWhole(ts);
    TouchedWhole(ts, name);
    ReplaceTears(Whole(ts), name, address);
    if !Touching(ts, name) {
      TearFills(ts, name, address);
      FillOk(ts, name, address);
      ShowWhole(Fill(ts, name, address));
    }
  }

  lemma FillOk(ts: seq<Token>, name: string, address: string)
    requires TokensOk(ts) && address != "" && Plain(address)
    ensures TokensOk(Fill(ts, name, address))
  {
  }

  // ---------- all libraries ----------

  /** Addresses as 0x and 40 digits; encoded names of 34 digits, all different. */
  ghost predicate LibrariesOk(keccak: NameHash, libraries: seq<Library>)
  {
    && (forall i :: 0 <= i < |libraries| ==> LibraryOk(keccak, libraries[i]))
    && (forall i, j :: 0 <= i < j < |libraries| ==>
          EncodedName(keccak, libraries[i].name) != EncodedName(keccak, libraries[j].name))
  }

  predicate LibraryOk(keccak: NameHash, lib: Library)
  {
    && AddressOk(lib.address)
    && |EncodedName(keccak, lib.name)| == 34 && Plain(EncodedName(keccak, lib.name))
  }

  /** The digits of the address for an encoded name. */
  function Resolved(keccak: NameHash, libraries: seq<Library>, name: string): Option<string>
  {
    if libraries == [] then None
    else if EncodedName(keccak, libraries[0].name) == name then Some(Tail(libraries[0].address, 2))
    else Resolved(keccak, libraries[1..], name)
  }

  function ResolveToken(keccak: NameHash, libraries: seq<Library>, t: Token): Token
  {
    match t
    case Code(_) => t
    case Hole(n) => match Resolved(keccak, libraries, n) case None => t case Some(a) => Code(a)
  }

  /** Every placeholder of a supplied library filled, everything else as it was. */
  function Resolve(keccak: NameHash, libraries: seq<Library>, ts: seq<Token>): (r: seq<Token>)
    ensures |r| == |ts|
  {
    seq(|ts|, i requires 0 <= i < |ts| => ResolveToken(keccak, libraries, ts[i]))
  }

  lemma {:induction false} ResolvedAddress(keccak: NameHash, libraries: seq<Library>, name: string)
    requires LibrariesOk(keccak, libraries) && Resolved(keccak, libraries, name).Some?
    ensures |Resolved(keccak, libraries, name).value| == 40 && Plain(Resolved(keccak, libraries, name).value)
  {
    if EncodedName(keccak, libraries[0].name) != name {
      LibrariesTail(keccak, libraries);
      ResolvedAddress(keccak, libraries[1..], name);
    }
  }

  lemma LibrariesTail(keccak: NameHash, libraries: seq<Library>)
    requires libraries != [] && LibrariesOk(keccak, libraries)
    ensures LibrariesOk(keccak, libraries[1..]) && LibraryOk(keccak, libraries[0])
    ensures Resolved(keccak, libraries[1..], EncodedName(keccak, libraries[0].name)).None?
  {
    forall i | 0 <= i < |libraries[1..]|
      ensures EncodedName(keccak, libraries[1..][i].name) != EncodedName(keccak, libraries[0].name)
    {
      assert libraries[1..][i] == libraries[i + 1];
    }
    NotResolved(keccak, libraries[1..], EncodedName(keccak, libraries[0].name));
  }

  lemma {:induction false} NotResolved(keccak: NameHash, libraries: seq<Library>, name: string)
    requires forall i :: 0 <= i < |libraries| ==> EncodedName(keccak, libraries[i].name) != name
    ensures Resolved(keccak, libraries, name).None?
  {
    if libraries != [] { NotResolved(keccak, libraries[1..], name); }
  }

  /** Filling one library and resolving the others is resolving all. */
  lemma FillThenResolve(keccak: NameHash, libraries: seq<Library>, ts: seq<Token>)
    requires libraries != [] && LibrariesOk(keccak, libraries)
    ensures Resolve(keccak, libraries[1..], Fill(ts, EncodedName(keccak, libraries[0].name), Tail(libraries[0].address, 2)))
         == Resolve(keccak, libraries, ts)
  {
    LibrariesTail(keccak, libraries);
  }

  /** Every library has a placeholder in the bytecode. */
  ghost predicate AllUsed(keccak: NameHash, libraries: seq<Library>, ts: seq<Token>)
  {
    forall i :: 0 <= i < |libraries| ==> Hole(EncodedName(keccak, libraries[i].name)) in ts
  }

  lemma AllUsedStep(keccak: NameHash, libraries: seq<Library>, ts: seq<Token>, address: string)
    requires libraries != [] && LibrariesOk(keccak, libraries)
    ensures var name := EncodedName(keccak, libraries[0].name);
      AllUsed(keccak, libraries, ts) <==> Hole(name) in ts && AllUsed(keccak, libraries[1..], Fill(ts, name, address))
  {
    var name := EncodedName(keccak, libraries[0].name);
    var filled := Fill(ts, name, address);
    forall other: string | other != name ensures Hole(other) in ts <==> Hole(other) in filled {
      if Hole(other) in ts { var k :| 0 <= k < |ts| && ts[k] == Hole(other); assert filled[k] == Hole(other); }
    }
    forall i | 0 < i < |libraries| ensures EncodedName(keccak, libraries[i].name) != name {
    }
    if AllUsed(keccak, libraries[1..], filled) && Hole(name) in ts {
      forall i | 0 <= i < |libraries| ensures Hole(EncodedName(keccak, libraries[i].name)) in ts {
        if i > 0 { assert libraries[i] == libraries[1..][i - 1]; }
      }
    }
  }

  /** No placeholder of a supplied library touches another placeholder. */
  ghost predicate Separated(keccak: NameHash, libraries: seq<Library>, ts: seq<Token>)
  {
    forall i: nat :: 0 < i < |ts| ==> Apart(keccak, libraries, ts[i - 1], ts[i])
  }

  predicate Apart(keccak: NameHash, libraries: seq<Library>, t: Token, u: Token)
  {
    t.Hole? && u.Hole? ==> Resolved(keccak, libraries, t.name).None? && Resolved(keccak, libraries, u.name).None?
  }

  lemma SeparatedStep(keccak: NameHash, libraries: seq<Library>, ts: seq<Token>, address: string)
    requires libraries != [] && LibrariesOk(keccak, libraries)
    ensures var name := EncodedName(keccak, libraries[0].name);
      Separated(keccak, libraries, ts) <==>
        !Touching(ts, name) && Separated(keccak, libraries[1..], Fill(ts, name, address))
  {
    var name := EncodedName(keccak, libraries[0].name);
    var filled := Fill(ts, name, address);
    LibrariesTail(keccak, libraries);
    if Separated(keccak, libraries, ts) {
      forall i ensures !TouchAt(ts, name, i) {
        assert 0 < i < |ts| ==> Apart(keccak, libraries, ts[i - 1], ts[i]);
      }
      forall i: nat | 0 < i < |filled| ensures Apart(keccak, libraries[1..], filled[i - 1], filled[i]) {
        assert Apart(keccak, libraries, ts[i - 1], ts[i]);
      }
    }
    if !Touching(ts, name) && Separated(keccak, libraries[1..], filled) {
      forall i: nat | 0 < i < |ts| ensures Apart(keccak, libraries, ts[i - 1], ts[i]) {
        assert !TouchAt(ts, name, i);
        assert Apart(keccak, libraries[1..], filled[i - 1], filled[i]);
      }
    }
  }

  /** Linking by pattern never lengthens bytecode. */
  lemma {:induction false} RawLinkedLength(keccak: NameHash, libraries: seq<Library>, ps: seq<Piece>)
    requires LibrariesOk(keccak, libraries) && PiecesOk(ps)
    ensures var r := RawLinked(keccak, Show(ps), libraries); r.Success? ==> |r.value| <= |Show(ps)|
    decreases |libraries|
  {
    if libraries != [] {
      var name, address := EncodedName(keccak, libraries[0].name), Tail(libraries[0].address, 2);
      LibrariesTail(keccak, libraries);
      AddressDigits(keccak, libraries[0]);
      ReplaceTears(ps, name, address);
      TearLength(ps, name, address);
      TearOk(ps, name, address);
      RawLinkedLength(keccak, libraries[1..], Tear(ps, name, address));
    }
  }

  lemma AddressDigits(keccak: NameHash, lib: Library)
    requires LibraryOk(keccak, lib)
    ensures DropPrefix(lib.address) == Tail(lib.address, 2)
    ensures |Tail(lib.address, 2)| == 40 && Plain(Tail(lib.address, 2))
  {
  }

  /** A library whose placeholder touches another one shortens the bytecode for good. */
  lemma TouchingShortens(keccak: NameHash, libraries: seq<Library>, ts: seq<Token>)
    requires libraries != [] && LibrariesOk(keccak, libraries) && TokensOk(ts)
    requires Touching(ts, EncodedName(keccak, libraries[0].name))
    ensures var r := RawLinked(keccak, Render(ts), libraries); r.Success? ==> |r.value| < |Render(ts)|
  {
    var name, address := EncodedName(keccak, libraries[0].name), Tail(libraries[0].address, 2);
    var torn := Tear(Whole(ts), name, address);
    LibrariesTail(keccak, libraries);
    AddressDigits(keccak, libraries[0]);
    ShowWhole(ts);
    TouchedWhole(ts, name);
    ReplaceTears(Whole(ts), name, address);
    TearLength(Whole(ts), name, address);
    TearOk(Whole(ts), name, address);
    RawLinkedLength(keccak, libraries[1..], torn);
  }

  /** Where no placeholder of the first library touches another one, linking it is filling
      it. */
  lemma FirstLibrary(keccak: NameHash, libraries: seq<Library>, ts: seq<Token>)
    requires libraries != [] && LibrariesOk(keccak, libraries) && TokensOk(ts)
    requires !Touching(ts, EncodedName(keccak, libraries[0].name))
    ensures var filled := Fill(ts, EncodedName(keccak, libraries[0].name), Tail(libraries[0].address, 2));
      && TokensOk(filled) && |Render(filled)| == |Render(ts)|
      && RawLinked(keccak, Render(ts), libraries) ==
         if Hole(EncodedName(keccak, libraries[0].name)) in ts then RawLinked(keccak, Render(filled), libraries[1..])
         else Failure(libraries[0].name)
  {
    var name, address := EncodedName(keccak, libraries[0].name), Tail(libraries[0].address, 2);
    LibrariesTail(keccak, libraries);
    AddressDigits(keccak, libraries[0]);
    ReplaceFills(ts, name, address);
    FillOk(ts, name, address);
    FillLength(ts, name, address);
  }

  lemma {:induction false} FillLength(ts: seq<Token>, name: string, address: string)
    requires TokensOk(ts) && |address| == 40
    ensures |Render(Fill(ts, name, address))| == |Render(ts)|
  {
    if ts != [] {
      FillLength(ts[1..], name, address);
      assert Fill(ts, name, address)[1..] == Fill(ts[1..], name, address);
      assert TokenOk(ts[0]);
    }
  }

  /** When linking by pattern does its work: it succeeds at the original length exactly if
      every library is used and no placeholder of a supplied library touches another
      one; then it fills every placeholder of the libraries. */
  lemma {:induction false} RawLinkedExactly(keccak: NameHash, libraries: seq<Library>, ts: seq<Token>)
    requires LibrariesOk(keccak, libraries) && TokensOk(ts)
    ensures var r := RawLinked(keccak, Render(ts), libraries);
      && (r.Success? && |r.value| == |Render(ts)| <==> AllUsed(keccak, libraries, ts) && Separated(keccak, libraries, ts))
      && (AllUsed(keccak, libraries, ts) && Separated(keccak, libraries, ts) ==>
            r == Success(Render(Resolve(keccak, libraries, ts))))
      && (Separated(keccak, libraries, ts) && r.Success? ==> AllUsed(keccak, libraries, ts))
    decreases |libraries|
  {
    if libraries == [] {
      NothingToResolve(keccak, ts);
    } else {
      var name, address := EncodedName(keccak, libraries[0].name), Tail(libraries[0].address, 2);
      var filled := Fill(ts, name, address);
      SeparatedStep(keccak, libraries, ts, address);
      if Touching(ts, name) {
        TouchingShortens(keccak, libraries, ts);
      } else {
        LibrariesTail(keccak, libraries);
        FirstLibrary(keccak, libraries, ts);
        FillThenResolve(keccak, libraries, ts);
        AllUsedStep(keccak, libraries, ts, address);
        RawLinkedExactly(keccak, libraries[1..], filled);
      }
    }
  }

  lemma NothingToResolve(keccak: NameHash, ts: seq<Token>)
    ensures Resolve(keccak, [], ts) == ts
  {
  }

  lemma {:induction false} ResolvedMember(keccak: NameHash, libraries: seq<Library>, lib: Library)
    requires LibrariesOk(keccak, libraries) && lib in libraries
    ensures Resolved(keccak, libraries, EncodedName(keccak, lib.name)) == Some(Tail(lib.address, 2))
  {
    LibrariesTail(keccak, libraries);
    if libraries[0] != lib {
      assert libraries == [libraries[0]] + libraries[1..];
      var i :| 0 <= i < |libraries| && libraries[i] == lib;
      assert EncodedName(keccak, libraries[0].name) != EncodedName(keccak, libraries[i].name);
      ResolvedMember(keccak, libraries[1..], lib);
    }
  }

  lemma ResolvedReordered(keccak: NameHash, libraries: seq<Library>, others: seq<Library>, name: string)
    requires LibrariesOk(keccak, libraries) && LibrariesOk(keccak, others)
    requires forall lib :: lib in libraries <==> lib in others
    ensures Resolved(keccak, libraries, name) == Resolved(keccak, others, name)
  {
    if lib :| lib in libraries && EncodedName(keccak, lib.name) == name {
      ResolvedMember(keccak, libraries, lib);
      ResolvedMember(keccak, others, lib);
    } else {
      NotResolved(keccak, libraries, name);
      NotResolved(keccak, others, name);
    }
  }

  /** Where placeholders are apart the order of the libraries does not matter, for whether
      linking by pattern succeeds, nor for the text it gives. */
  lemma LibrariesReordered(keccak: NameHash, libraries: seq<Library>, others: seq<Library>, ts: seq<Token>)
    requires LibrariesOk(keccak, libraries) && LibrariesOk(keccak, others) && TokensOk(ts)
    requires Separated(keccak, libraries, ts)
    requires forall lib :: lib in libraries <==> lib in others
    ensures RawLinked(keccak, Render(ts), libraries).Success? <==> RawLinked(keccak, Render(ts), others).Success?
    ensures RawLinked(keccak, Render(ts), libraries).Success? ==>
      RawLinked(keccak, Render(ts), libraries) == RawLinked(keccak, Render(ts), others)
  {
    SeparatedReordered(keccak, libraries, others, ts);
    RawLinkedExactly(keccak, libraries, ts);
    RawLinkedExactly(keccak, others, ts);
    if AllUsed(keccak, libraries, ts) { UsedReordered(keccak, libraries, others, ts); }
    if AllUsed(keccak, others, ts) { UsedReordered(keccak, others, libraries, ts); }
    ResolveReordered(keccak, libraries, others, ts);
  }

  lemma SeparatedReordered(keccak: NameHash, libraries: seq<Library>, others: seq<Library>, ts: seq<Token>)
    requires LibrariesOk(keccak, libraries) && LibrariesOk(keccak, others) && Separated(keccak, libraries, ts)
    requires forall lib :: lib in libraries <==> lib in others
    ensures Separated(keccak, others, ts)
  {
    forall i: nat | 0 < i < |ts| ensures Apart(keccak, others, ts[i - 1], ts[i]) {
      assert Apart(keccak, libraries, ts[i - 1], ts[i]);
      if ts[i - 1].Hole? && ts[i].Hole? {
        ResolvedReordered(keccak, libraries, others, ts[i - 1].name);
        ResolvedReordered(keccak, libraries, others, ts[i].name);
      }
    }
  }

  lemma ResolveReordered(keccak: NameHash, libraries: seq<Library>, others: seq<Library>, ts: seq<Token>)
    requires LibrariesOk(keccak, libraries) && LibrariesOk(keccak, others)
    requires forall lib :: lib in libraries <==> lib in others
    ensures Resolve(keccak, libraries, ts) == Resolve(keccak, others, ts)
  {
    forall i | 0 <= i < |ts| ensures ResolveToken(keccak, libraries, ts[i]) == ResolveToken(keccak, others, ts[i]) {
      if ts[i].Hole? { ResolvedReordered(keccak, libraries, others, ts[i].name); }
    }
  }

  lemma UsedReordered(keccak: NameHash, libraries: seq<Library>, others: seq<Library>, ts: seq<Token>)
    requires AllUsed(keccak, libraries, ts) && forall lib :: lib in others ==> lib in libraries
    ensures AllUsed(keccak, others, ts)
  {
    forall i | 0 <= i < |others| ensures Hole(EncodedName(keccak, others[i].name)) in ts {
      assert others[i] in libraries;
      var j :| 0 <= j < |libraries| && libraries[j] == others[i];
    }
  }

  // ---------- touching placeholders ----------

  /** Two libraries with different encoded names, the first linked first. */
  ghost predicate TwoLibraries(keccak: NameHash, first: Library, second: Library, a: string, b: string)
  {
    LibrariesOk(keccak, [first, second]) && EncodedName(keccak, first.name) == a && EncodedName(keccak, second.name) == b
  }

  /** Linking by pattern, one library at a time, on placeholders that may be torn. */
  lemma LinkOne(keccak: NameHash, lib: Library, ps: seq<Piece>)
    requires LibraryOk(keccak, lib) && PiecesOk(ps)
    ensures var name, torn := EncodedName(keccak, lib.name), Tear(ps, EncodedName(keccak, lib.name), Tail(lib.address, 2));
      && PiecesOk(torn)
      && LinkRawLibrary(keccak, Show(ps), lib) == if HasHit(ps, name) then Success(Show(torn)) else Failure(lib.name)
  {
    AddressDigits(keccak, lib);
    ReplaceTears(ps, EncodedName(keccak, lib.name), Tail(lib.address, 2));
    TearOk(ps, EncodedName(keccak, lib.name), Tail(lib.address, 2));
  }

  lemma LinkTwo(keccak: NameHash, first: Library, second: Library, ps: seq<Piece>)
    requires LibraryOk(keccak, first) && LibraryOk(keccak, second) && PiecesOk(ps)
    ensures var a, b := EncodedName(keccak, first.name), EncodedName(keccak, second.name);
      var torn := Tear(ps, a, Tail(first.address, 2));
      RawLinked(keccak, Show(ps), [first, second]) ==
        if !HasHit(ps, a) then Failure(first.name)
        else if !HasHit(torn, b) then Failure(second.name)
        else Success(Show(Tear(torn, b, Tail(second.address, 2))))
  {
    LinkOne(keccak, first, ps);
    LinkOne(keccak, second, Tear(ps, EncodedName(keccak, first.name), Tail(first.address, 2)));
    RawLinkedTwo(keccak, Show(ps), first, second);
  }

  lemma RawLinkedTwo(keccak: NameHash, bytecode: string, first: Library, second: Library)
    ensures RawLinked(keccak, bytecode, [first, second]) ==
      match LinkRawLibrary(keccak, bytecode, first)
      case Failure(m) => Failure(m)
      case Success(linked) => LinkRawLibrary(keccak, linked, second)
  {
    var one := LinkRawLibrary(keccak, bytecode, first);
    assert [first, second][1..] == [second] && [second][1..] == [];
    if one.Success? {
      assert RawLinked(keccak, one.value, [second]) == LinkRawLibrary(keccak, one.value, second);
    }
  }

  /** Of two touching placeholders alone the first one's match takes the underscores of the
      second with it, and linking the second library fails. */
  lemma TouchingFails(keccak: NameHash, first: Library, second: Library, a: string, b: string)
    requires TwoLibraries(keccak, first, second, a, b)
    ensures RawLinked(keccak, Render([Hole(a), Hole(b)]), [first, second]) == Failure(second.name)
  {
    var ts, ps := [Hole(a), Hole(b)], [Mark(a, true, true), Mark(b, true, true)];
    TwoNames(keccak, first, second, a, b);
    assert Whole(ts) == ps;
    ShowWhole(ts);
    LinkTwo(keccak, first, second, ps);
    TearPair(a, b, Tail(first.address, 2), []);
    assert ps == [Mark(a, true, true), Mark(b, true, true)] + [];
  }

  /** If the second library has another placeholder elsewhere, linking by pattern succeeds
      all the same, and leaves the torn placeholder in the bytecode. */
  lemma TouchingCorrupts(keccak: NameHash, first: Library, second: Library, a: string, b: string)
    requires TwoLibraries(keccak, first, second, a, b)
    ensures var ts := [Hole(a), Hole(b), Code("00"), Hole(b)];
      RawLinked(keccak, Render(ts), [first, second]) ==
        Success(Tail(first.address, 2) + ("$" + b + "$__" + ("00" + Tail(second.address, 2))))
  {
    var ts, rest := [Hole(a), Hole(b), Code("00"), Hole(b)], [Solid("00"), Mark(b, true, true)];
    var ps := [Mark(a, true, true), Mark(b, true, true)] + rest;
    TwoNames(keccak, first, second, a, b);
    assert Whole(ts) == ps;
    ShowWhole(ts);
    LinkTwo(keccak, first, second, ps);
    TearPair(a, b, Tail(first.address, 2), rest);
    TearRest(a, b, Tail(first.address, 2), Tail(second.address, 2));
  }

  lemma TwoNames(keccak: NameHash, first: Library, second: Library, a: string, b: string)
    requires TwoLibraries(keccak, first, second, a, b)
    ensures LibraryOk(keccak, first) && LibraryOk(keccak, second)
    ensures a != b && TokensOk([Hole(a), Hole(b)]) && TokensOk([Hole(a), Hole(b), Code("00"), Hole(b)])
  {
    assert [first, second][0] == first && [first, second][1] == second;
  }

  lemma TearPair(a: string, b: string, address: string, rest: seq<Piece>)
    requires a != b && !StartsMark(rest)
    ensures Tear([Mark(a, true, true), Mark(b, true, true)] + rest, a, address) ==
      [Solid(address), Mark(b, false, true)] + Tear(rest, a, address)
    ensures HasHit([Mark(a, true, true), Mark(b, true, true)] + rest, a)
    ensures HasHit([Solid(address), Mark(b, false, true)] + Tear(rest, a, address), b) <==> HasHit(Tear(rest, a, address), b)
  {
    var ps := [Mark(a, true, true), Mark(b, true, true)] + rest;
    assert ps[1..] == [Mark(b, true, true)] + rest;
    assert TearLeft(ps[1..]) == [Mark(b, false, true)] + rest;
    assert TearLeft(ps[1..])[1..] == rest;
    var t := [Solid(address), Mark(b, false, true)] + Tear(rest, a, address);
    assert t[1..] == [Mark(b, false, true)] + Tear(rest, a, address) && t[1..][1..] == Tear(rest, a, address);
  }

  lemma TearRest(a: string, b: string, first: string, second: string)
    requires a != b
    ensures var rest := [Solid("00"), Mark(b, true, true)];
      var torn := [Solid(first), Mark(b, false, true)] + Tear(rest, a, first);
      && HasHit(torn, b)
      && Show(Tear(torn, b, second)) == first + ("$" + b + "$__" + ("00" + second))
  {
    var rest := [Solid("00"), Mark(b, true, true)];
    assert rest[1..] == [Mark(b, true, true)] && [Mark(b, true, true)][1..] == [];
    assert Tear([Mark(b, true, true)], a, first) == [Mark(b, true, true)];
    assert Tear(rest, a, first) == rest;
    var torn := [Solid(first), Mark(b, false, true)] + rest;
    assert torn[1..] == [Mark(b, false, true)] + rest && torn[1..][1..] == rest;
    assert HasHit([Mark(b, true, true)], b);
    assert HasHit(rest, b);
    assert HasHit(torn[1..], b);
    assert Tear([Mark(b, true, true)], b, second) == [Solid(second)];
    assert Tear(rest, b, second) == [Solid("00"), Solid(second)];
    var linked := [Solid(first), Mark(b, false, true), Solid("00"), Solid(second)];
    assert Tear(torn, b, second) == linked;
    ShowFour(first, b, second);
  }

  lemma ShowFour(first: string, b: string, second: string)
    ensures Show([Solid(first), Mark(b, false, true), Solid("00"), Solid(second)]) == first + ("$" + b + "$__" + ("00" + second))
  {
    ShowPieces(Solid(first), Mark(b, false, true), Solid("00"), Solid(second));
    RightEdgeOnly(b);
  }

  lemma ShowPieces(p: Piece, q: Piece, r: Piece, s: Piece)
    ensures Show([p, q, r, s]) == p.Text() + (q.Text() + (r.Text() + s.Text()))
  {
    ShowTwo(r, s);
    ShowCons(q, [r, s]);
    assert [q] + [r, s] == [q, r, s];
    ShowCons(p, [q, r, s]);
    assert [p] + [q, r, s] == [p, q, r, s];
  }

  lemma ShowTwo(r: Piece, s: Piece)
    ensures Show([r, s]) == r.Text() + s.Text()
  {
    ShowCons(r, [s]);
    ShowCons(s, []);
    assert [r] + [s] == [r, s] && [s] + [] == [s];
  }

  lemma RightEdgeOnly(b: string)
    ensures Mark(b, false, true).Text() == "$" + b + "$__"
  {
    var middle := "$" + b + "$";
    assert "" + (middle + "__") == middle + "__";
  }
}
