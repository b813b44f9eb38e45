/**
 When linking by pattern and linking at recorded offsets give the same bytecode.
 */
module LinkerAgreement {
  import opened Results
  import opened Linker
  import opened Placeholders
  import opened PatternLinking
  import opened OffsetLinking

  /** The two linkers see the same library behind a reference: splicing looks up the bare
      name in `given`, the pattern compares the encoded keys of `libraries` with the
      encoding of file and name. */
  predicate Agrees(keccak: NameHash, libraries: seq<Library>, given: seq<Library>, ref: Reference)
  {
    Found(given, ref) == Resolved(keccak, libraries, PlaceholderName(keccak, ref))
  }

  ghost predicate AllAgree(keccak: NameHash, libraries: seq<Library>, given: seq<Library>, refs: seq<Reference>)
  {
    forall ref :: ref in refs && ref.fixups != [] ==> Agrees(keccak, libraries, given, ref)
  }

  ghost predicate SameText(keccak: NameHash, libraries: seq<Library>, given: seq<Library>, ts: seq<Token>, refs: seq<Reference>)
  {
    RawLinked(keccak, Render(ts), libraries) == Success(SpliceReferences(Render(ts), refs, given))
  }

  /** Exactly when the two linkers agree on compiled bytecode, each with its own libraries
      object: every library of the pattern linker is used, none of their placeholders
      touches another one, and for every reference with fixups both linkers find the same
      address, or both none. */
  lemma LinkersAgree(keccak: NameHash, libraries: seq<Library>, given: seq<Library>, ts: seq<Token>, refs: seq<Reference>)
    requires LibrariesOk(keccak, libraries) && AddressesOk(given) && Compiled(keccak, ts, refs)
    ensures SameText(keccak, libraries, given, ts, refs) <==>
      AllUsed(keccak, libraries, ts) && Separated(keccak, libraries, ts) && AllAgree(keccak, libraries, given, refs)
  {
    var fill := name => Spliced(keccak, refs, given, name);
    SplicingDigitsOk(keccak, given, refs, fill);
    SplicedFills(keccak, given, ts, {}, refs);
    NoneDone(fill, ts);
    FilledLength(fill, ts);
    RawLinkedExactly(keccak, libraries, ts);
    if AllUsed(keccak, libraries, ts) && Separated(keccak, libraries, ts) {
      SameFilling(keccak, libraries, given, ts, refs, fill);
    }
  }

  /** The two fillings give the same text exactly if they agree on every reference. */
  lemma SameFilling(keccak: NameHash, libraries: seq<Library>, given: seq<Library>, ts: seq<Token>, refs: seq<Reference>, fill: Filling)
    requires LibrariesOk(keccak, libraries) && AddressesOk(given) && Compiled(keccak, ts, refs) && DigitsOk(fill)
    requires forall name :: fill(name) == Spliced(keccak, refs, given, name)
    ensures Render(Resolve(keccak, libraries, ts)) == Render(FillAll(fill, ts)) <==> AllAgree(keccak, libraries, given, refs)
  {
    if AllAgree(keccak, libraries, given, refs) {
      AgreeingTokens(keccak, libraries, given, ts, refs, fill);
    }
    if Render(Resolve(keccak, libraries, ts)) == Render(FillAll(fill, ts)) {
      forall ref | ref in refs && ref.fixups != [] ensures Agrees(keccak, libraries, given, ref) {
        SplicedOfReference(keccak, refs, given, ref);
        AgreesAt(keccak, libraries, ts, fill, ref);
      }
    }
  }

  lemma AgreeingTokens(keccak: NameHash, libraries: seq<Library>, given: seq<Library>, ts: seq<Token>, refs: seq<Reference>, fill: Filling)
    requires Compiled(keccak, ts, refs) && AllAgree(keccak, libraries, given, refs)
    requires forall name :: fill(name) == Spliced(keccak, refs, given, name)
    ensures Resolve(keccak, libraries, ts) == FillAll(fill, ts)
  {
    forall i: nat | i < |ts| ensures ResolveToken(keccak, libraries, ts[i]) == FillToken(fill, ts[i]) {
      if ts[i].Hole? {
        AgreeingHole(keccak, libraries, given, ts, refs, i);
      }
    }
  }

  lemma AgreeingHole(keccak: NameHash, libraries: seq<Library>, given: seq<Library>, ts: seq<Token>, refs: seq<Reference>, i: nat)
    requires i < |ts| && ts[i].Hole? && Recorded(keccak, ts, refs, i) && NamesApart(keccak, refs)
    requires AllAgree(keccak, libraries, given, refs)
    ensures Resolved(keccak, libraries, ts[i].name) == Spliced(keccak, refs, given, ts[i].name)
  {
    var ref :| ref in refs && RecordedIn(keccak, ts, ref, i);
    SplicedOfReference(keccak, refs, given, ref);
    assert Agrees(keccak, libraries, given, ref);
  }

  lemma ResolvedLength(keccak: NameHash, libraries: seq<Library>, t: Token)
    requires LibrariesOk(keccak, libraries) && TokenOk(t)
    ensures |ResolveToken(keccak, libraries, t).Text()| == |t.Text()|
  {
    if t.Hole? && Resolved(keccak, libraries, t.name).Some? {
      ResolvedAddress(keccak, libraries, t.name);
    }
  }

  /** Texts of tokens of the same lengths are equal token by token. */
  lemma {:induction false} SameTokenTexts(ts: seq<Token>, us: seq<Token>, i: nat)
    requires i < |ts| == |us| && Render(ts) == Render(us)
    requires forall k :: 0 <= k < |ts| ==> |ts[k].Text()| == |us[k].Text()|
    ensures ts[i].Text() == us[i].Text()
  {
    var n := |ts[0].Text()|;
    assert Render(ts)[..n] == ts[0].Text() && Render(us)[..n] == us[0].Text();
    if i > 0 {
      assert Render(ts)[n..] == Render(ts[1..]) && Render(us)[n..] == Render(us[1..]);
      SameTokenTexts(ts[1..], us[1..], i - 1);
    }
  }

  /** If the texts are equal, the fillings agree at each placeholder: digits differ from a
      placeholder's underscore. */
  lemma AgreesAt(keccak: NameHash, libraries: seq<Library>, ts: seq<Token>, fill: Filling, ref: Reference)
    requires LibrariesOk(keccak, libraries) && TokensOk(ts) && DigitsOk(fill)
    requires ref.fixups != [] && FixupsOk(ts, ref.fixups, PlaceholderName(keccak, ref))
    requires Render(Resolve(keccak, libraries, ts)) == Render(FillAll(fill, ts))
    ensures fill(PlaceholderName(keccak, ref)) == Resolved(keccak, libraries, PlaceholderName(keccak, ref))
  {
    assert ref.fixups[0] in ref.fixups;
    assert FixupOn(ts, ref.fixups[0], PlaceholderName(keccak, ref));
    var i: nat :| FixupOf(ts, ref.fixups[0], i) && ts[i] == Hole(PlaceholderName(keccak, ref));
    var a, b := Resolve(keccak, libraries, ts), FillAll(fill, ts);
    forall k | 0 <= k < |ts| ensures |a[k].Text()| == |b[k].Text()| {
      ResolvedLength(keccak, libraries, ts[k]);
      TokenLength(fill, ts[k]);
    }
    SameTokenTexts(a, b, i);
    if Resolved(keccak, libraries, ts[i].name).Some? { ResolvedAddress(keccak, libraries, ts[i].name); }
    DigitsOrHole(ts[i].name, Resolved(keccak, libraries, ts[i].name), fill(ts[i].name));
  }

  function FilledText(name: string, digits: Option<string>): string
  {
    match digits case None => Hole(name).Text() case Some(d) => d
  }

  lemma DigitsOrHole(name: string, a: Option<string>, b: Option<string>)
    requires a.Some? ==> |a.value| == 40 && Plain(a.value)
    requires b.Some? ==> |b.value| == 40 && Plain(b.value)
    requires FilledText(name, a) == FilledText(name, b)
    ensures a == b
  {
    assert Hole(name).Text()[0] == '_';
  }

  // ---------- one libraries object for both ----------

  /** With one libraries object for both linkers, and any library at all, they never agree
      on compiled bytecode, unless a bare library name hashes like a qualified one: the
      pattern expects keys of the form file:Name where splicing expects bare names. */
  lemma NeverAgree(keccak: NameHash, libraries: seq<Library>, ts: seq<Token>, refs: seq<Reference>)
    requires LibrariesOk(keccak, libraries) && Compiled(keccak, ts, refs) && libraries != []
    requires SameText(keccak, libraries, libraries, ts, refs)
    ensures exists ref, other :: ref in refs && other in refs && HashesAlike(keccak, ref, other)
  {
    LinkersAgree(keccak, libraries, libraries, ts, refs);
    var ref := UsedReference(keccak, libraries, ts, refs, 0);
    ResolvedMember(keccak, libraries, libraries[0]);
    assert Agrees(keccak, libraries, libraries, ref);
    var k := LookupIndex(libraries, ref.libName);
    var other := UsedReference(keccak, libraries, ts, refs, k);
    assert HashesAlike(keccak, ref, other);
  }

  /** The bare name of one library and the qualified name of one have the same encoding. */
  predicate HashesAlike(keccak: NameHash, ref: Reference, other: Reference)
  {
    EncodedName(keccak, ref.libName) == PlaceholderName(keccak, other)
  }

  lemma UsedReference(keccak: NameHash, libraries: seq<Library>, ts: seq<Token>, refs: seq<Reference>, k: nat) returns (ref: Reference)
    requires Compiled(keccak, ts, refs) && AllUsed(keccak, libraries, ts) && k < |libraries|
    ensures ref in refs && ref.fixups != [] && PlaceholderName(keccak, ref) == EncodedName(keccak, libraries[k].name)
  {
    var hole := Hole(EncodedName(keccak, libraries[k].name));
    assert hole in ts;
    var i: nat :| i < |ts| && ts[i] == hole;
    assert Recorded(keccak, ts, refs, i);
    ref := RecordedReference(keccak, ts, refs, i);
  }

  lemma RecordedReference(keccak: NameHash, ts: seq<Token>, refs: seq<Reference>, i: nat) returns (ref: Reference)
    requires i < |ts| && Recorded(keccak, ts, refs, i)
    ensures ref in refs && ref.fixups != [] && ts[i] == Hole(PlaceholderName(keccak, ref))
  {
    ref :| ref in refs && RecordedIn(keccak, ts, ref, i);
    var fixup :| fixup in ref.fixups && FixupOf(ts, fixup, i);
  }

  lemma {:induction false} LookupIndex(libraries: seq<Library>, name: string) returns (k: nat)
    requires Lookup(libraries, name).Some?
    ensures k < |libraries| && libraries[k].name == name && Lookup(libraries, name).value == libraries[k].address
  {
    if libraries[0].name == name {
      k := 0;
    } else {
      k := LookupIndex(libraries[1..], name);
      k := k + 1;
    }
  }

  /** Bytecode with one placeholder, of the library `name` in `file`, and its record. */
  function OneHole(n: string): seq<Token>
  {
    [Code("0x6000"), Hole(n)]
  }

  function OneRecord(file: string, name: string): seq<Reference>
  {
    [Reference(file, name, [Fixup(2, 20)])]
  }

  lemma OneHoleCompiled(keccak: NameHash, file: string, name: string, n: string)
    requires n == EncodedName(keccak, file + ":" + name) && |n| == 34 && Plain(n)
    ensures Compiled(keccak, OneHole(n), OneRecord(file, name))
    ensures Render(OneHole(n)) == "0x6000" + Hole(n).Text()
  {
    var ts, refs := OneHole(n), OneRecord(file, name);
    var ref, fixup := refs[0], refs[0].fixups[0];
    assert ts[..1] == [Code("0x6000")];
    RenderOne(Code("0x6000"));
    assert FixupOf(ts, fixup, 1) && ts[1] == Hole(PlaceholderName(keccak, ref));
    assert FixupOn(ts, fixup, PlaceholderName(keccak, ref));
    assert RecordedIn(keccak, ts, ref, 1) && ref in refs;
    assert Recorded(keccak, ts, refs, 1);
    RenderTwo(ts[0], ts[1]);
  }

  lemma RenderOne(t: Token)
    ensures Render([t]) == t.Text()
  {
    assert [t][1..] == [];
    assert t.Text() + "" == t.Text();
  }

  lemma RenderTwo(t: Token, u: Token)
    ensures Render([t, u]) == t.Text() + u.Text()
  {
    assert [t, u][1..] == [u];
    RenderOne(u);
  }

  /** With the qualified name as key the pattern fills the placeholder, and splicing, which
      looks the bare name up, changes nothing. */
  lemma QualifiedKey(keccak: NameHash, file: string, name: string, n: string, address: string)
    requires n == EncodedName(keccak, file + ":" + name) && |n| == 34 && Plain(n) && AddressOk(address)
    ensures var libraries := [Library(file + ":" + name, address)];
      && RawLinked(keccak, Render(OneHole(n)), libraries) == Success("0x6000" + Tail(address, 2))
      && SpliceReferences(Render(OneHole(n)), OneRecord(file, name), libraries) == Render(OneHole(n))
  {
    var libraries := [Library(file + ":" + name, address)];
    OneHoleCompiled(keccak, file, name, n);
    OneLibraryLinked(keccak, libraries[0], n);
    assert |file + ":" + name| > |name|;
    assert libraries[1..] == [];
    assert Lookup(libraries, name) == None;
    SplicedOne(Render(OneHole(n)), file, name, libraries);
  }

  /** With the bare name as key splicing fills the placeholder, and the pattern, which
      hashes the key, does not find it. */
  lemma BareKey(keccak: NameHash, file: string, name: string, n: string, address: string)
    requires n == EncodedName(keccak, file + ":" + name) && |n| == 34 && Plain(n) && AddressOk(address)
    requires |EncodedName(keccak, name)| == 34 && Plain(EncodedName(keccak, name)) && EncodedName(keccak, name) != n
    ensures var libraries := [Library(name, address)];
      && RawLinked(keccak, Render(OneHole(n)), libraries) == Failure(name)
      && SpliceReferences(Render(OneHole(n)), OneRecord(file, name), libraries) == "0x6000" + Tail(address, 2)
  {
    var libraries := [Library(name, address)];
    OneHoleCompiled(keccak, file, name, n);
    ReplaceFills(OneHole(n), EncodedName(keccak, name), Tail(address, 2));
    assert !Occurs(Render(OneHole(n)), EncodedName(keccak, name));
    assert Lookup(libraries, name) == Some(address);
    SplicedOne(Render(OneHole(n)), file, name, libraries);
    SpliceAround("0x6000", Hole(n).Text(), "", Fixup(2, 20), address);
    assert "0x6000" + Hole(n).Text() + "" == Render(OneHole(n));
    assert "0x6000" + Tail(address, 2) + "" == "0x6000" + Tail(address, 2);
  }

  lemma SplicedOne(bytecode: string, file: string, name: string, libraries: seq<Library>)
    ensures SpliceReferences(bytecode, OneRecord(file, name), libraries) ==
      match Lookup(libraries, name) case None => bytecode case Some(addr) => Splice(bytecode, Fixup(2, 20), addr)
  {
    var refs := OneRecord(file, name);
    assert refs[1..] == [];
    var fixups := [Fixup(2, 20)];
    assert fixups[1..] == [];
    match Lookup(libraries, name) {
      case None =>
      case Some(addr) =>
        var linked := Splice(bytecode, fixups[0], addr);
        assert SpliceFixups(linked, fixups[1..], addr) == linked;
        assert SpliceFixups(bytecode, fixups, addr) == linked;
    }
  }

  lemma OneLibraryLinked(keccak: NameHash, lib: Library, n: string)
    requires n == EncodedName(keccak, lib.name) && |n| == 34 && Plain(n) && AddressOk(lib.address)
    ensures RawLinked(keccak, Render(OneHole(n)), [lib]) == Success("0x6000" + Tail(lib.address, 2))
  {
    var ts, libraries := OneHole(n), [lib];
    RawLinkedExactly(keccak, libraries, ts);
    assert ts[1] in ts;
    var filled := [Code("0x6000"), Code(Tail(lib.address, 2))];
    assert Resolve(keccak, libraries, ts) == filled;
    RenderTwo(filled[0], filled[1]);
  }

  // ---------- the object the tool passes: bare names made from qualified ones ----------

  /** The part of a key after its last colon. */
  function BareName(key: string): string
  {
    if ':' in key then BareName(key[1..]) else key
  }

  /** `object[name] = address`. */
  function Put(libraries: seq<Library>, name: string, address: string): seq<Library>
  {
    if libraries == [] then [Library(name, address)]
    else if libraries[0].name == name then [Library(name, address)] + libraries[1..]
    else [libraries[0]] + Put(libraries[1..], name, address)
  }

  /** Every key replaced by its bare name; of equal bare names the last one counts. */
  function Normalize(libraries: seq<Library>): seq<Library>
  {
    if libraries == [] then []
    else
      var last := libraries[|libraries| - 1];
      Put(Normalize(libraries[..|libraries| - 1]), BareName(last.name), last.address)
  }

  lemma {:induction false} LookupPut(libraries: seq<Library>, name: string, address: string, other: string)
    ensures Lookup(Put(libraries, name, address), other) == if other == name then Some(address) else Lookup(libraries, other)
    ensures AddressesOk(libraries) && AddressOk(address) ==> AddressesOk(Put(libraries, name, address))
  {
    var put := Put(libraries, name, address);
    if libraries != [] {
      if libraries[0].name == name {
        assert put[1..] == libraries[1..];
      } else {
        LookupPut(libraries[1..], name, address, other);
        assert put[1..] == Put(libraries[1..], name, address);
      }
    }
  }

  lemma {:induction false} NormalizedAddresses(libraries: seq<Library>)
    requires AddressesOk(libraries)
    ensures AddressesOk(Normalize(libraries))
  {
    if libraries != [] {
      var k := |libraries| - 1;
      NormalizedAddresses(libraries[..k]);
      LookupPut(Normalize(libraries[..k]), BareName(libraries[k].name), libraries[k].address, "");
    }
  }

  /** The last library with a bare name is the one found under it. */
  lemma {:induction false} LookupNormalized(libraries: seq<Library>, name: string)
    ensures match Lookup(Normalize(libraries), name)
      case None => forall i :: 0 <= i < |libraries| ==> BareName(libraries[i].name) != name
      case Some(address) => exists i :: LastNamed(libraries, name, i) && libraries[i].address == address
  {
    if libraries != [] {
      var k := |libraries| - 1;
      var rest := libraries[..k];
      LookupNormalized(rest, name);
      LookupPut(Normalize(rest), BareName(libraries[k].name), libraries[k].address, name);
      if BareName(libraries[k].name) == name {
        assert LastNamed(libraries, name, k);
      } else if Lookup(Normalize(rest), name).Some? {
        var i :| LastNamed(rest, name, i) && rest[i].address == Lookup(Normalize(rest), name).value;
        assert LastNamed(libraries, name, i);
      }
    }
  }

  predicate LastNamed(libraries: seq<Library>, name: string, i: int)
  {
    && 0 <= i < |libraries| && BareName(libraries[i].name) == name
    && forall j :: i < j < |libraries| ==> BareName(libraries[j].name) != name
  }

  lemma {:induction false} BareOfQualified(file: string, name: string)
    requires ':' !in name
    ensures BareName(file + ":" + name) == name
  {
    var key := file + ":" + name;
    assert key[|file|] == ':';
    if file == "" {
      assert key[1..] == name;
    } else {
      assert key[1..] == file[1..] + ":" + name;
      BareOfQualified(file[1..], name);
    }
  }

  /** The libraries are meant for these references: a library with a reference's bare name
      is the one from the reference's file, and different names have different
      encodings. */
  ghost predicate MeantFor(keccak: NameHash, libraries: seq<Library>, refs: seq<Reference>)
  {
    forall lib, ref :: lib in libraries && ref in refs && ref.fixups != [] ==> NamesMatch(keccak, lib, ref)
  }

  predicate NamesMatch(keccak: NameHash, lib: Library, ref: Reference)
  {
    && ':' !in ref.libName
    && (BareName(lib.name) == ref.libName ==> lib.name == ref.file + ":" + ref.libName)
    && (EncodedName(keccak, lib.name) == PlaceholderName(keccak, ref) ==> lib.name == ref.file + ":" + ref.libName)
  }

  lemma NormalizedAgrees(keccak: NameHash, libraries: seq<Library>, ref: Reference)
    requires LibrariesOk(keccak, libraries) && forall lib :: lib in libraries ==> NamesMatch(keccak, lib, ref)
    ensures Agrees(keccak, libraries, Normalize(libraries), ref)
  {
    LookupNormalized(libraries, ref.libName);
    var found := Lookup(Normalize(libraries), ref.libName);
    if found.Some? {
      var i :| LastNamed(libraries, ref.libName, i) && libraries[i].address == found.value;
      assert libraries[i] in libraries && NamesMatch(keccak, libraries[i], ref);
      ResolvedMember(keccak, libraries, libraries[i]);
    } else {
      forall i | 0 <= i < |libraries| ensures EncodedName(keccak, libraries[i].name) != PlaceholderName(keccak, ref) {
        assert libraries[i] in libraries && NamesMatch(keccak, libraries[i], ref);
        if libraries[i].name == ref.file + ":" + ref.libName { BareOfQualified(ref.file, ref.libName); }
      }
      NotResolved(keccak, libraries, PlaceholderName(keccak, ref));
    }
  }

  /** The two linkers do the same task when each gets its own form of the libraries: on
      compiled bytecode, linking by pattern with qualified names and linking at the
      offsets with the bare names made from them give the same text if and only if every
      library is used and no placeholder of a library touches another one. */
  lemma NormalizedAgree(keccak: NameHash, libraries: seq<Library>, ts: seq<Token>, refs: seq<Reference>)
    requires LibrariesOk(keccak, libraries) && Compiled(keccak, ts, refs)
    requires MeantFor(keccak, libraries, refs)
    ensures SameText(keccak, libraries, Normalize(libraries), ts, refs) <==>
      AllUsed(keccak, libraries, ts) && Separated(keccak, libraries, ts)
  {
    NormalizedAddresses(libraries);
    forall ref | ref in refs && ref.fixups != [] ensures Agrees(keccak, libraries, Normalize(libraries), ref) {
      assert forall lib :: lib in libraries ==> NamesMatch(keccak, lib, ref);
      NormalizedAgrees(keccak, libraries, ref);
    }
    LinkersAgree(keccak, libraries, Normalize(libraries), ts, refs);
  }
}
