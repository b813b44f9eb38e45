/**
 Linking libraries into bytecode: splicing addresses in at recorded offsets, and
 replacing textual placeholders by pattern.
 */
module Linker {
  import opened Results

  datatype Fixup = Fixup(start: nat, length: nat)

  /** A library, by source file and name, with the places where its address goes. */
  datatype Reference = Reference(file: string, libName: string, fixups: seq<Fixup>)

  /** The entries of a libraries object, in their order. */
  datatype Library = Library(name: string, address: string)

  function Lookup(libraries: seq<Library>, name: string): Option<string>
  {
    if libraries == [] then None
    else if libraries[0].name == name then Some(libraries[0].address)
    else Lookup(libraries[1..], name)
  }

  // ---------- splicing at offsets ----------

  function Head(s: string, n: nat): string
  {
    if |s| <= n then s else s[..n]
  }

  function Tail(s: string, n: nat): string
  {
    if |s| <= n then "" else s[n..]
  }

  /** Putting an address in place of the hexadecimal digits of a fixup. */
  function Splice(bytecode: string, fixup: Fixup, addr: string): string
  {
    Head(bytecode, 2 + fixup.start * 2) + Tail(addr, 2) + Tail(bytecode, 2 + (fixup.start + fixup.length) * 2)
  }

  function SpliceFixups(bytecode: string, fixups: seq<Fixup>, addr: string): string
    decreases |fixups|
  {
    if fixups == [] then bytecode else SpliceFixups(Splice(bytecode, fixups[0], addr), fixups[1..], addr)
  }

  /** All references in order; those of libraries not supplied are skipped. */
  function SpliceReferences(bytecode: string, refs: seq<Reference>, libraries: seq<Library>): string
    decreases |refs|
  {
    if refs == [] then bytecode
    else SpliceReferences(SpliceReference(bytecode, refs[0], libraries), refs[1..], libraries)
  }

  function SpliceReference(bytecode: string, ref: Reference, libraries: seq<Library>): string
  {
    match Lookup(libraries, ref.libName)
    case None => bytecode
    case Some(addr) => SpliceFixups(bytecode, ref.fixups, addr)
  }

  // ---------- replacing by pattern ----------

  /** The number of underscores at the start of a text. */
  function Underscores(s: string): (n: nat)
    ensures n <= |s|
  {
    if s != "" && s[0] == '_' then 1 + Underscores(s[1..]) else 0
  }

  predicate StartsWith(s: string, t: string)
  {
    |t| <= |s| && s[..|t|] == t
  }

  /** The length of a match, at the start of s, of one or more underscores, the name
      between dollar signs, and one or more underscores; 0 if there is none.  Both runs
      are matched whole: the first must end at the dollar sign, the second is greedy. */
  function MatchLength(s: string, name: string): (n: nat)
    ensures n <= |s|
  {
    var k := Underscores(s);
    var middle := "$" + name + "$";
    if k == 0 || !StartsWith(s[k..], middle) then 0
    else
      var m := Underscores(s[k + |middle|..]);
      if m == 0 then 0 else k + |middle| + m
  }

  /** n underscores from position i on. */
  predicate UnderscoresAt(s: string, i: nat, n: nat)
  {
    i + n <= |s| && forall j :: i <= j < i + n ==> s[j] == '_'
  }

  /** The parts of a match at the start of a text: k underscores, the name between dollar
      signs, and then m underscores, all that are there. */
  predicate Matches(s: string, name: string, k: nat, m: nat)
  {
    var from := k + |name| + 2;
    && 1 <= k && 1 <= m && UnderscoresAt(s, 0, k) && UnderscoresAt(s, from, m)
    && s[k] == '$' && s[k + 1..from - 1] == name && s[from - 1] == '$'
    && (from + m < |s| ==> s[from + m] != '_')
  }

  lemma {:induction false} UnderscoresAre(s: string)
    ensures UnderscoresAt(s, 0, Underscores(s)) && (Underscores(s) < |s| ==> s[Underscores(s)] != '_')
  {
    if s != "" && s[0] == '_' { UnderscoresAre(s[1..]); }
  }

  lemma MiddleAt(s: string, k: nat, name: string, middle: string)
    requires k <= |s| && middle == "$" + name + "$"
    ensures StartsWith(s[k..], middle) <==>
      k + |name| + 2 <= |s| && s[k] == '$' && s[k + 1..k + |name| + 1] == name && s[k + |name| + 1] == '$'
  {
    var from := k + |name| + 2;
    if from <= |s| {
      var t := s[k..from];
      assert s[k..][..|middle|] == t;
      if s[k] == '$' && s[k + 1..from - 1] == name && s[from - 1] == '$' {
        assert t == [s[k]] + s[k + 1..from - 1] + [s[from - 1]];
      }
      if t == middle {
        assert t[0] == '$' && t[1..|name| + 1] == name && t[|name| + 1] == '$';
        forall i | 0 <= i < |name| ensures s[k + 1..from - 1][i] == name[i] {
          assert t[1..|name| + 1][i] == t[i + 1] == s[k + 1 + i];
        }
      }
    }
  }

  /** The length is that of a match, if there is one. */
  lemma MatchLengthIs(s: string, name: string)
    ensures MatchLength(s, name) == 0 <==> forall k: nat, m: nat :: !Matches(s, name, k, m)
    ensures forall k: nat, m: nat :: Matches(s, name, k, m) ==> MatchLength(s, name) == k + |name| + 2 + m
  {
    var k, middle := Underscores(s), "$" + name + "$";
    UnderscoresAre(s);
    MiddleAt(s, k, name, middle);
    if k > 0 && StartsWith(s[k..], middle) {
      var rest := s[k + |middle|..];
      UnderscoresAre(rest);
      MatchFound(s, name, k, rest);
      assert Underscores(rest) >= 1 ==> Matches(s, name, k, Underscores(rest));
    }
    OnlyRun(s, name);
  }

  lemma OnlyRun(s: string, name: string)
    ensures forall i: nat, m: nat :: Matches(s, name, i, m) ==> i == Underscores(s)
  {
    UnderscoresAre(s);
    forall i: nat, m: nat | Matches(s, name, i, m) ensures i == Underscores(s) {
      RunLength(s, i, Underscores(s));
    }
  }

  /** With the first run and the name found, the second run decides. */
  lemma MatchFound(s: string, name: string, k: nat, rest: string)
    requires 1 <= k && UnderscoresAt(s, 0, k) && k + |name| + 2 <= |s| && rest == s[k + |name| + 2..]
    requires s[k] == '$' && s[k + 1..k + |name| + 1] == name && s[k + |name| + 1] == '$'
    requires UnderscoresAt(rest, 0, Underscores(rest)) && (Underscores(rest) < |rest| ==> rest[Underscores(rest)] != '_')
    ensures forall m: nat :: Matches(s, name, k, m) <==> m == Underscores(rest) && 1 <= m
  {
    var from := k + |name| + 2;
    forall m: nat ensures Matches(s, name, k, m) <==> m == Underscores(rest) && 1 <= m {
      if Matches(s, name, k, m) {
        assert UnderscoresAt(rest, 0, m) by {
          forall j | 0 <= j < m ensures rest[j] == '_' { assert rest[j] == s[from + j]; }
        }
        if m < |rest| { assert rest[m] == s[from + m]; }
        RunLength(rest, m, Underscores(rest));
      }
      if m == Underscores(rest) && 1 <= m {
        forall j | from <= j < from + m ensures s[j] == '_' { assert s[j] == rest[j - from]; }
      }
    }
  }

  lemma RunLength(s: string, m: nat, k: nat)
    requires UnderscoresAt(s, 0, m) && (m < |s| ==> s[m] != '_')
    requires UnderscoresAt(s, 0, k) && (k < |s| ==> s[k] != '_')
    ensures m == k
  {
  }

  /** Whether the pattern matches anywhere. */
  predicate Occurs(s: string, name: string)
  {
    s != "" && (MatchLength(s, name) > 0 || Occurs(s[1..], name))
  }

  /** It does exactly if it matches at some position. */
  lemma {:induction false} OccursSomewhere(s: string, name: string)
    ensures Occurs(s, name) <==> exists i :: 0 <= i < |s| && MatchLength(s[i..], name) > 0
  {
    if s != "" {
      OccursSomewhere(s[1..], name);
      assert s[0..] == s;
      if i :| 0 <= i < |s| - 1 && MatchLength(s[1..][i..], name) > 0 {
        assert s[1..][i..] == s[i + 1..];
      }
      if i :| 0 < i < |s| && MatchLength(s[i..], name) > 0 {
        assert s[1..][i - 1..] == s[i..];
      }
    }
  }

  /** Every match replaced, from left to right. */
  function ReplaceAll(s: string, name: string, address: string): string
    decreases |s|
  {
    if s == "" then ""
    else if MatchLength(s, name) > 0 then address + ReplaceAll(s[MatchLength(s, name)..], name, address)
    else [s[0]] + ReplaceAll(s[1..], name, address)
  }

  /** A hash of names, as 0x and hexadecimal digits. */
  type NameHash = string -> string

  function EncodedName(keccak: NameHash, libraryName: string): string
  {
    if libraryName != "" && libraryName[0] == '$' && libraryName[|libraryName| - 1] == '$' then
      if |libraryName| == 1 then "" else libraryName[1..|libraryName| - 1]
    else Tail(Head(keccak(libraryName), 36), 2)
  }

  /** A name between dollar signs is taken as it is; of any other name the characters 2 to
      35 of its hash are taken. */
  lemma EncodedNameIs(keccak: NameHash, name: string)
    ensures EncodedName(keccak, "$" + name + "$") == name
    ensures (name == "" || name[0] != '$' || name[|name| - 1] != '$') && |keccak(name)| >= 36 ==>
      |EncodedName(keccak, name)| == 34 && forall i :: 0 <= i < 34 ==> EncodedName(keccak, name)[i] == keccak(name)[i + 2]
  {
    var quoted := "$" + name + "$";
    assert quoted[1..|quoted| - 1] == name;
  }

  /** `replace("0x", "")`: the first occurrence is dropped. */
  function DropPrefix(s: string): string
  {
    if |s| < 2 then s
    else if s[0] == '0' && s[1] == 'x' then s[2..]
    else [s[0]] + DropPrefix(s[1..])
  }

  predicate PrefixAt(s: string, i: nat)
  {
    i + 1 < |s| && s[i] == '0' && s[i + 1] == 'x'
  }

  /** The first 0x is dropped, wherever it stands. */
  lemma {:induction false} DropPrefixFirst(s: string, i: nat)
    requires PrefixAt(s, i) && forall k: nat :: k < i ==> !PrefixAt(s, k)
    ensures DropPrefix(s) == s[..i] + s[i + 2..]
  {
    if i > 0 {
      assert !PrefixAt(s, 0);
      forall k: nat | k < i - 1 ensures !PrefixAt(s[1..], k) {
        assert !PrefixAt(s, k + 1);
      }
      DropPrefixFirst(s[1..], i - 1);
      assert s[..i] == [s[0]] + s[1..][..i - 1];
    }
  }

  function LinkRawLibrary(keccak: NameHash, bytecode: string, lib: Library): Result<string>
  {
    var name := EncodedName(keccak, lib.name);
    if !Occurs(bytecode, name) then Failure(lib.name)
    else Success(ReplaceAll(bytecode, name, DropPrefix(lib.address)))
  }

  /** One library after the other; the first that cannot be linked ends it. */
  function RawLinked(keccak: NameHash, bytecode: string, libraries: seq<Library>): Result<string>
    decreases |libraries|
  {
    if libraries == [] then Success(bytecode)
    else
      match LinkRawLibrary(keccak, bytecode, libraries[0])
      case Failure(m) => Failure(m)
      case Success(b) => RawLinked(keccak, b, libraries[1..])
  }

  method LinkRawLibraries(keccak: NameHash, bytecode: string, libraries: seq<Library>) returns (r: Result<string>)
    ensures r == RawLinked(keccak, bytecode, libraries)
  {
    var linked := bytecode;
    for i := 0 to |libraries|
      invariant RawLinked(keccak, linked, libraries[i..]) == RawLinked(keccak, bytecode, libraries)
    {
      assert libraries[i..][1..] == libraries[i + 1..];
      linked :- LinkRawLibrary(keccak, linked, libraries[i]);
    }
    r := Success(linked);
  }

  method SpliceInto(bytecode: string, fixups: seq<Fixup>, addr: string) returns (linked: string)
    ensures linked == SpliceFixups(bytecode, fixups, addr)
  {
    linked := bytecode;
    for j := 0 to |fixups|
      invariant SpliceFixups(linked, fixups[j..], addr) == SpliceFixups(bytecode, fixups, addr)
    {
      assert fixups[j..][1..] == fixups[j + 1..];
      linked := Splice(linked, fixups[j], addr);
    }
    assert fixups[|fixups|..] == [];
  }

  /** The two ways of linking: at offsets if the artifact records them, by pattern
      otherwise. */
  method LinkLibraries(keccak: NameHash, bytecode: string, linkReferences: Option<seq<Reference>>, libraries: seq<Library>)
    returns (r: Result<string>)
    ensures r == match linkReferences
                 case Some(refs) => Success(SpliceReferences(bytecode, refs, libraries))
                 case None => RawLinked(keccak, bytecode, libraries)
  {
    if linkReferences.None? {
      r := LinkRawLibraries(keccak, bytecode, libraries);
      return;
    }
    var refs := linkReferences.value;
    var linked := bytecode;
    for i := 0 to |refs|
      invariant SpliceReferences(linked, refs[i..], libraries) == SpliceReferences(bytecode, refs, libraries)
    {
      assert refs[i..][1..] == refs[i + 1..];
      var addr := Lookup(libraries, refs[i].libName);
      if addr.Some? {
        linked := SpliceInto(linked, refs[i].fixups, addr.value);
      }
    }
    r := Success(linked);
  }
}
