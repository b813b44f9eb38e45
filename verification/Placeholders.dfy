/**
 What the linking pattern does to bytecode with placeholders, wherever they stand: also
 where placeholders touch, and where earlier replacements have taken underscores away.
 */
module Placeholders {
  import opened Linker

  /** A piece of bytecode: plain digits, or the placeholder of a library. */
  datatype Token = Code(text: string) | Hole(name: string)
  {
    function Text(): string
    {
      match this
      case Code(t) => t
      case Hole(n) => "__$" + n + "$__"
    }
  }

  function Render(ts: seq<Token>): string
  {
    if ts == [] then "" else ts[0].Text() + Render(ts[1..])
  }

  predicate Plain(s: string)
  {
    forall i :: 0 <= i < |s| ==> s[i] != '_' && s[i] != '$'
  }

  /** Code is not empty, placeholders are 40 characters long. */
  predicate TokenOk(t: Token)
  {
    match t
    case Code(s) => s != "" && Plain(s)
    case Hole(n) => |n| == 34 && Plain(n)
  }

  /** Addresses as 0x and 40 digits. */
  predicate AddressOk(address: string)
  {
    |address| == 42 && address[0] == '0' && address[1] == 'x' && Plain(address)
  }

  ghost predicate TokensOk(ts: seq<Token>)
  {
    forall i :: 0 <= i < |ts| ==> TokenOk(ts[i])
  }

  /** The placeholders of one library filled. */
  function Fill(ts: seq<Token>, name: string, address: string): (r: seq<Token>)
    ensures |r| == |ts|
  {
    seq(|ts|, i requires 0 <= i < |ts| => if ts[i] == Hole(name) then Code(address) else ts[i])
  }

  lemma {:induction false} RenderConcat(a: seq<Token>, b: seq<Token>)
    ensures Render(a + b) == Render(a) + Render(b)
  {
    if a == [] {
      assert a + b == b;
    } else {
      assert (a + b)[1..] == a[1..] + b;
      RenderConcat(a[1..], b);
    }
  }

  // ---------- placeholders that may have lost underscores ----------

  /** A piece of bytecode on the way: digits, or a placeholder with or without the
      underscores on either side. */
  datatype Piece = Solid(text: string) | Mark(name: string, left: bool, right: bool)
  {
    function Text(): string
    {
      match this
      case Solid(t) => t
      case Mark(n, l, r) => Edge(l) + ("$" + n + "$" + Edge(r))
    }
  }

  function Edge(present: bool): string
  {
    if present then "__" else ""
  }

  function Show(ps: seq<Piece>): string
  {
    if ps == [] then "" else ps[0].Text() + Show(ps[1..])
  }

  predicate PieceOk(p: Piece)
  {
    match p
    case Solid(s) => s != "" && Plain(s)
    case Mark(n, _, _) => |n| == 34 && Plain(n)
  }

  predicate StartsMark(ps: seq<Piece>)
  {
    ps != [] && ps[0].Mark?
  }

  /** Where two placeholders touch, both still have their underscores. */
  predicate JoinOk(p: Piece, rest: seq<Piece>)
  {
    p.Mark? && StartsMark(rest) ==> p.right && rest[0].left
  }

  predicate PiecesOk(ps: seq<Piece>)
  {
    ps != [] ==> PieceOk(ps[0]) && JoinOk(ps[0], ps[1..]) && PiecesOk(ps[1..])
  }

  /** A placeholder the pattern finds. */
  predicate Hit(p: Piece, name: string)
  {
    p == Mark(name, true, true)
  }

  predicate NextHit(ps: seq<Piece>, name: string)
  {
    ps != [] && Hit(ps[0], name)
  }

  /** A placeholder at the start loses its left underscores. */
  function TearLeft(ps: seq<Piece>): (r: seq<Piece>)
    ensures |r| == |ps|
  {
    if StartsMark(ps) then [ps[0].(left := false)] + ps[1..] else ps
  }

  /** The effect of replacing a placeholder's pattern: it is filled, and a placeholder
      that touches it loses the underscores on that side. */
  function Tear(ps: seq<Piece>, name: string, address: string): seq<Piece>
    decreases |ps|
  {
    if ps == [] then []
    else
      match ps[0]
      case Solid(_) => [ps[0]] + Tear(ps[1..], name, address)
      case Mark(n, l, r) =>
        if Hit(ps[0], name) then [Solid(address)] + Tear(TearLeft(ps[1..]), name, address)
        else [Mark(n, l, r && !NextHit(ps[1..], name))] + Tear(ps[1..], name, address)
  }

  /** Whether the pattern finds anything. */
  predicate HasHit(ps: seq<Piece>, name: string)
  {
    ps != [] && (Hit(ps[0], name) || HasHit(ps[1..], name))
  }

  // ---------- the pattern on pieces ----------

  lemma PassOne(c: char, rest: string, name: string, address: string)
    requires MatchLength([c] + rest, name) == 0
    ensures ReplaceAll([c] + rest, name, address) == [c] + ReplaceAll(rest, name, address)
    ensures Occurs([c] + rest, name) <==> Occurs(rest, name)
  {
    assert ([c] + rest)[1..] == rest;
  }

  /** No match begins inside s when rest follows it. */
  ghost predicate NoMatchIn(s: string, rest: string, name: string)
  {
    forall i :: 0 <= i < |s| ==> MatchLength(s[i..] + rest, name) == 0
  }

  lemma NoMatchInTail(s: string, rest: string, name: string)
    requires s != "" && NoMatchIn(s, rest, name)
    ensures NoMatchIn(s[1..], rest, name) && MatchLength([s[0]] + (s[1..] + rest), name) == 0
  {
    assert s[0..] + rest == [s[0]] + (s[1..] + rest);
    forall i | 0 <= i < |s[1..]| ensures MatchLength(s[1..][i..] + rest, name) == 0 {
      assert s[1..][i..] == s[i + 1..];
    }
  }

  /** A text in which no match begins is passed over. */
  lemma {:induction false} PassOver(s: string, rest: string, name: string, address: string)
    requires NoMatchIn(s, rest, name)
    ensures ReplaceAll(s + rest, name, address) == s + ReplaceAll(rest, name, address)
    ensures Occurs(s + rest, name) <==> Occurs(rest, name)
  {
    if s == "" {
      assert s + rest == rest;
    } else {
      assert s + rest == [s[0]] + (s[1..] + rest);
      NoMatchInTail(s, rest, name);
      PassOne(s[0], s[1..] + rest, name, address);
      PassOver(s[1..], rest, name, address);
      assert s == [s[0]] + s[1..];
    }
  }

  lemma PlainPassed(s: string, rest: string, name: string, address: string)
    requires forall i :: 0 <= i < |s| ==> s[i] != '_'
    ensures ReplaceAll(s + rest, name, address) == s + ReplaceAll(rest, name, address)
    ensures Occurs(s + rest, name) <==> Occurs(rest, name)
  {
    forall i | 0 <= i < |s| ensures MatchLength(s[i..] + rest, name) == 0 {
      assert (s[i..] + rest)[0] == s[i];
    }
    PassOver(s, rest, name, address);
  }

  lemma MatchReplaced(hole: string, rest: string, name: string, address: string)
    requires MatchLength(hole + rest, name) == |hole| > 0
    ensures ReplaceAll(hole + rest, name, address) == address + ReplaceAll(rest, name, address)
    ensures Occurs(hole + rest, name)
  {
    assert (hole + rest)[|hole|..] == rest;
  }

  /** Whole runs of underscores. */
  predicate AllUnderscores(u: string)
  {
    forall i :: 0 <= i < |u| ==> u[i] == '_'
  }

  lemma {:induction false} RunLength(u: string, rest: string)
    requires AllUnderscores(u)
    ensures Underscores(u + rest) == |u| + Underscores(rest)
  {
    if u == "" {
      assert u + rest == rest;
    } else {
      assert (u + rest)[1..] == u[1..] + rest;
      RunLength(u[1..], rest);
    }
  }

  lemma FoundMatch(u: string, middle: string, after: string, name: string)
    requires AllUnderscores(u) && u != "" && middle == "$" + name + "$"
    ensures MatchLength(u + (middle + after), name) ==
      if Underscores(after) > 0 then |u| + |middle| + Underscores(after) else 0
  {
    assert middle[0] == '$';
    RunLength(u, middle + after);
    Parts(u, middle, after);
  }

  lemma Parts(u: string, middle: string, after: string)
    ensures var s := u + (middle + after);
      s[|u|..] == middle + after && s[|u| + |middle|..] == after && StartsWith(middle + after, middle)
  {
  }

  lemma NoMatchAfter(u: string, tail: string, name: string)
    requires AllUnderscores(u) && (tail == "" || tail[0] != '_') && !StartsWith(tail, "$" + name + "$")
    ensures MatchLength(u + tail, name) == 0
  {
    RunLength(u, tail);
    assert (u + tail)[|u|..] == tail;
  }

  /** Whether and how long the pattern matches at underscores before a name. */
  lemma MarkMatch(u: string, n: string, after: string, name: string)
    requires AllUnderscores(u) && u != "" && |n| == |name|
    ensures MatchLength(u + ("$" + n + "$" + after), name) ==
      if n == name && Underscores(after) > 0 then |u| + |name| + 2 + Underscores(after) else 0
  {
    if n == name {
      FoundMatch(u, "$" + name + "$", after, name);
    } else {
      SameMiddle(n, after, name);
      NoMatchAfter(u, "$" + n + "$" + after, name);
    }
  }

  lemma SameMiddle(other: string, rest: string, name: string)
    requires |other| == |name|
    ensures StartsWith("$" + other + "$" + rest, "$" + name + "$") ==> other == name
  {
    var s, t, n := "$" + other + "$" + rest, "$" + name + "$", |name|;
    assert s[1..n + 1] == other && t[1..n + 1] == name;
    assert s[..n + 2][1..n + 1] == s[1..n + 1];
  }

  /** Underscores before digits, or at the end, match nothing. */
  lemma LooseMatch(u: string, rest: string, name: string)
    requires AllUnderscores(u) && (rest == "" || (rest[0] != '_' && rest[0] != '$'))
    ensures MatchLength(u + rest, name) == 0
  {
    assert ("$" + name + "$")[0] == '$';
    NoMatchAfter(u, rest, name);
  }

  /** The underscores with which pieces begin. */
  lemma ShowStart(ps: seq<Piece>)
    requires PiecesOk(ps)
    ensures Underscores(Show(ps)) == if StartsMark(ps) && ps[0].left then 2 else 0
    ensures !StartsMark(ps) ==> Show(ps) == "" || (Show(ps)[0] != '_' && Show(ps)[0] != '$')
  {
    if StartsMark(ps) {
      var tail := "$" + ps[0].name + "$" + Edge(ps[0].right) + Show(ps[1..]);
      assert Show(ps) == Edge(ps[0].left) + tail;
      RunLength(Edge(ps[0].left), tail);
    } else if ps != [] {
      assert Show(ps)[0] == ps[0].text[0];
    }
  }

  /** What follows the name of a placeholder. */
  function After(right: bool, rest: seq<Piece>): string
  {
    Edge(right) + Show(rest)
  }

  /** A placeholder from its first dollar sign on. */
  function Tagged(ps: seq<Piece>): string
    requires StartsMark(ps)
  {
    "$" + ps[0].name + "$" + After(ps[0].right, ps[1..])
  }

  lemma TearLeftPieces(ps: seq<Piece>)
    requires PiecesOk(ps)
    ensures PiecesOk(TearLeft(ps))
  {
    if StartsMark(ps) { assert TearLeft(ps)[1..] == ps[1..]; }
  }

  /** Torn pieces do not begin with underscores. */
  lemma TearLeftStart(ps: seq<Piece>)
    requires PiecesOk(ps)
    ensures Underscores(Show(TearLeft(ps))) == 0
  {
    TearLeftPieces(ps);
    ShowStart(TearLeft(ps));
  }

  /** Tearing takes the left underscores off and leaves the rest of the text. */
  lemma TearLeftText(ps: seq<Piece>)
    ensures Show(ps) == Edge(StartsMark(ps) && ps[0].left) + Show(TearLeft(ps))
    ensures |Show(TearLeft(ps))| <= |Show(ps)|
  {
    if StartsMark(ps) {
      var t := TearLeft(ps);
      assert t[1..] == ps[1..];
      ShowMark(ps);
      ShowMark(t);
      NoEdge(Tagged(ps));
    } else {
      NoEdge(Show(ps));
    }
  }

  lemma ShowMark(ps: seq<Piece>)
    requires StartsMark(ps)
    ensures Show(ps) == Edge(ps[0].left) + Tagged(ps)
  {
    Regroup(Edge(ps[0].left), "$" + ps[0].name + "$", Edge(ps[0].right), Show(ps[1..]));
  }

  lemma NoEdge(s: string)
    ensures Edge(false) + s == s
  {
  }

  lemma AfterUnderscores(p: Piece, rest: seq<Piece>)
    requires p.Mark? && JoinOk(p, rest) && PiecesOk(rest)
    ensures Underscores(After(p.right, rest)) ==
      if !p.right then 0 else if StartsMark(rest) then 4 else 2
  {
    ShowStart(rest);
    RunLength(Edge(p.right), Show(rest));
  }

  lemma AfterHit(rest: seq<Piece>) returns (run: string)
    requires PiecesOk(rest)
    ensures run != "" && AllUnderscores(run) && After(true, rest) == run + Show(TearLeft(rest))
    ensures Underscores(Show(TearLeft(rest))) == 0
  {
    var extra := Edge(StartsMark(rest) && rest[0].left);
    run := "__" + extra;
    TearLeftStart(rest);
    TearLeftText(rest);
    Associate("__", extra, Show(TearLeft(rest)));
  }

  lemma MatchTaken(u: string, middle: string, run: string, rest: string, name: string, address: string)
    requires AllUnderscores(u) && u != "" && middle == "$" + name + "$"
    requires run != "" && AllUnderscores(run) && Underscores(rest) == 0
    ensures ReplaceAll(u + (middle + (run + rest)), name, address) == address + ReplaceAll(rest, name, address)
    ensures Occurs(u + (middle + (run + rest)), name)
  {
    var hole := u + middle + run;
    RunLength(run, rest);
    FoundMatch(u, middle, run + rest, name);
    assert u + (middle + (run + rest)) == hole + rest;
    MatchReplaced(hole, rest, name, address);
  }

  /** A placeholder that is found: the match takes all underscores around it. */
  lemma HitReplaced(u: string, middle: string, rest: seq<Piece>, name: string, address: string)
    requires AllUnderscores(u) && u != "" && PiecesOk(rest) && middle == "$" + name + "$"
    ensures ReplaceAll(u + (middle + After(true, rest)), name, address) == address + ReplaceAll(Show(TearLeft(rest)), name, address)
    ensures Occurs(u + (middle + After(true, rest)), name)
  {
    var run := AfterHit(rest);
    MatchTaken(u, middle, run, Show(TearLeft(rest)), name, address);
  }

  /** Underscores in front of a placeholder that is not found are passed over. */
  lemma MissPassed(u: string, p: Piece, rest: seq<Piece>, name: string, address: string)
    requires AllUnderscores(u) && PieceOk(p) && p.Mark? && |name| == 34 && PiecesOk(rest) && JoinOk(p, rest)
    requires p.name != name || !p.right
    ensures var tail := "$" + p.name + "$" + After(p.right, rest);
      && ReplaceAll(u + tail, name, address) == u + ReplaceAll(tail, name, address)
      && (Occurs(u + tail, name) <==> Occurs(tail, name))
  {
    var tail := "$" + p.name + "$" + After(p.right, rest);
    AfterUnderscores(p, rest);
    forall i | 0 <= i < |u| ensures MatchLength(u[i..] + tail, name) == 0 {
      MarkMatch(u[i..], p.name, After(p.right, rest), name);
    }
    PassOver(u, tail, name, address);
  }

  lemma LoosePassed(u: string, rest: string, name: string, address: string)
    requires AllUnderscores(u) && (rest == "" || (rest[0] != '_' && rest[0] != '$'))
    ensures ReplaceAll(u + rest, name, address) == u + ReplaceAll(rest, name, address)
    ensures Occurs(u + rest, name) <==> Occurs(rest, name)
  {
    forall i | 0 <= i < |u| ensures MatchLength(u[i..] + rest, name) == 0 {
      LooseMatch(u[i..], rest, name);
    }
    PassOver(u, rest, name, address);
  }

  /** Underscores to the right of a placeholder go if the next placeholder is found, and
      stay otherwise. */
  lemma RightEdge(p: Piece, rest: seq<Piece>, name: string, address: string)
    requires p.Mark? && JoinOk(p, rest) && PiecesOk(rest) && |name| == 34
    ensures ReplaceAll(After(p.right, rest), name, address) ==
      Edge(p.right && !NextHit(rest, name)) + ReplaceAll(Show(rest), name, address)
    ensures Occurs(After(p.right, rest), name) <==> Occurs(Show(rest), name)
  {
    if !p.right {
      assert After(false, rest) == Show(rest);
    } else if !StartsMark(rest) {
      ShowStart(rest);
      LoosePassed("__", Show(rest), name, address);
    } else {
      RightEdgeAtMark(rest, name, address);
    }
  }

  lemma RightEdgeAtMark(rest: seq<Piece>, name: string, address: string)
    requires StartsMark(rest) && rest[0].left && PiecesOk(rest) && |name| == 34
    ensures ReplaceAll(After(true, rest), name, address) ==
      Edge(!NextHit(rest, name)) + ReplaceAll(Show(rest), name, address)
    ensures Occurs(After(true, rest), name) <==> Occurs(Show(rest), name)
  {
    var q := rest[0];
    if Hit(q, name) {
      HitAfterEdge(rest, name, address);
    } else {
      MissAfterEdge(rest, name, address);
    }
  }

  /** The run of underscores between two touching placeholders, and the half of it that
      belongs to the second one. */
  lemma EdgeBeforeMark(rest: seq<Piece>) returns (run: string, half: string)
    requires StartsMark(rest) && rest[0].left
    ensures run != "" && AllUnderscores(run) && half != "" && AllUnderscores(half) && run == "__" + half
    ensures After(true, rest) == run + Tagged(rest) && Show(rest) == half + Tagged(rest)
  {
    run, half := "__" + "__", "__";
    ShowMark(rest);
    Associate("__", half, Tagged(rest));
  }

  lemma Associate(a: string, b: string, c: string)
    ensures a + b + c == a + (b + c)
  {
  }

  lemma HitAfterEdge(rest: seq<Piece>, name: string, address: string)
    requires PiecesOk(rest) && NextHit(rest, name)
    ensures ReplaceAll(After(true, rest), name, address) == ReplaceAll(Show(rest), name, address)
    ensures Occurs(After(true, rest), name) && Occurs(Show(rest), name)
  {
    var run, half := EdgeBeforeMark(rest);
    HitReplaced(run, "$" + name + "$", rest[1..], name, address);
    HitReplaced(half, "$" + name + "$", rest[1..], name, address);
  }

  lemma MissAfterEdge(rest: seq<Piece>, name: string, address: string)
    requires StartsMark(rest) && rest[0].left && PiecesOk(rest) && |name| == 34 && !Hit(rest[0], name)
    ensures ReplaceAll(After(true, rest), name, address) == "__" + ReplaceAll(Show(rest), name, address)
    ensures Occurs(After(true, rest), name) <==> Occurs(Show(rest), name)
  {
    var run, half := EdgeBeforeMark(rest);
    MissPassed(run, rest[0], rest[1..], name, address);
    MissPassed(half, rest[0], rest[1..], name, address);
    Associate("__", half, ReplaceAll(Tagged(rest), name, address));
  }

  /** A placeholder that is not found, up to what follows its name. */
  lemma MissedMark(ps: seq<Piece>, name: string, address: string)
    requires StartsMark(ps) && PiecesOk(ps) && |name| == 34 && !Hit(ps[0], name)
    ensures ReplaceAll(Show(ps), name, address) ==
      Edge(ps[0].left) + ("$" + ps[0].name + "$" + ReplaceAll(After(ps[0].right, ps[1..]), name, address))
    ensures Occurs(Show(ps), name) <==> Occurs(After(ps[0].right, ps[1..]), name)
  {
    var p, after := ps[0], After(ps[0].right, ps[1..]);
    ShowMark(ps);
    PlainPassed("$" + p.name + "$", after, name, address);
    if p.left {
      MissPassed("__", p, ps[1..], name, address);
    } else {
      assert Show(ps) == "$" + p.name + "$" + after;
    }
  }

  /** Replacing the pattern tears, exactly: in bytecode with placeholders anywhere, whole
      or already torn, Tear says what the replacement does, and HasHit whether the
      pattern is found. */
  lemma {:induction false} ReplaceTears(ps: seq<Piece>, name: string, address: string)
    requires PiecesOk(ps) && |name| == 34
    ensures ReplaceAll(Show(ps), name, address) == Show(Tear(ps, name, address))
    ensures Occurs(Show(ps), name) <==> HasHit(ps, name)
    decreases |ps|
  {
    if ps != [] {
      ReplaceTearsStep(ps, name, address);
    }
  }

  lemma {:induction false} ReplaceTearsStep(ps: seq<Piece>, name: string, address: string)
    requires ps != [] && PiecesOk(ps) && |name| == 34
    ensures ReplaceAll(Show(ps), name, address) == Show(Tear(ps, name, address))
    ensures Occurs(Show(ps), name) <==> HasHit(ps, name)
    decreases |ps|, 0
  {
    var p, rest := ps[0], ps[1..];
    if p.Solid? {
      ReplaceTears(rest, name, address);
      PlainPassed(p.text, Show(rest), name, address);
      ShowCons(p, Tear(rest, name, address));
    } else if Hit(p, name) {
      TearLeftPieces(rest);
      ReplaceTears(TearLeft(rest), name, address);
      HitHead(ps, name, address);
      ShowCons(Solid(address), Tear(TearLeft(rest), name, address));
    } else {
      ReplaceTears(rest, name, address);
      MissHead(ps, name, address);
      ShowCons(Mark(p.name, p.left, p.right && !NextHit(rest, name)), Tear(rest, name, address));
    }
  }

  lemma HitHead(ps: seq<Piece>, name: string, address: string)
    requires PiecesOk(ps) && NextHit(ps, name)
    ensures ReplaceAll(Show(ps), name, address) == address + ReplaceAll(Show(TearLeft(ps[1..])), name, address)
    ensures Occurs(Show(ps), name)
  {
    ShowMark(ps);
    HitReplaced("__", "$" + name + "$", ps[1..], name, address);
  }

  lemma MissHead(ps: seq<Piece>, name: string, address: string)
    requires StartsMark(ps) && PiecesOk(ps) && |name| == 34 && !Hit(ps[0], name)
    ensures ReplaceAll(Show(ps), name, address) ==
      Mark(ps[0].name, ps[0].left, ps[0].right && !NextHit(ps[1..], name)).Text() + ReplaceAll(Show(ps[1..]), name, address)
    ensures Occurs(Show(ps), name) <==> Occurs(Show(ps[1..]), name)
  {
    MissedMark(ps, name, address);
    RightEdge(ps[0], ps[1..], name, address);
    var l, m, r, t := Edge(ps[0].left), "$" + ps[0].name + "$", Edge(ps[0].right && !NextHit(ps[1..], name)),
      ReplaceAll(Show(ps[1..]), name, address);
    Regroup(l, m, r, t);
  }

  lemma Regroup(l: string, m: string, r: string, t: string)
    ensures l + (m + (r + t)) == l + (m + r) + t
  {
  }

  lemma ShowCons(p: Piece, ps: seq<Piece>)
    ensures Show([p] + ps) == p.Text() + Show(ps)
  {
    assert ([p] + ps)[1..] == ps;
  }

  /** Torn bytecode is of the same kind again. */
  lemma {:induction false} TearOk(ps: seq<Piece>, name: string, address: string)
    requires PiecesOk(ps) && address != "" && Plain(address)
    ensures PiecesOk(Tear(ps, name, address))
    ensures StartsMark(Tear(ps, name, address)) <==> StartsMark(ps) && !Hit(ps[0], name)
    ensures StartsMark(Tear(ps, name, address)) ==> Tear(ps, name, address)[0].left == ps[0].left
    decreases |ps|
  {
    if ps != [] {
      var t := Tear(ps, name, address);
      if Hit(ps[0], name) {
        TearLeftPieces(ps[1..]);
        TearOk(TearLeft(ps[1..]), name, address);
        assert t[1..] == Tear(TearLeft(ps[1..]), name, address);
      } else {
        TearOk(ps[1..], name, address);
        assert t[1..] == Tear(ps[1..], name, address);
      }
    }
  }

  // ---------- lengths ----------

  /** A placeholder the pattern finds touches another one. */
  predicate Touched(ps: seq<Piece>, name: string)
  {
    ps != [] &&
    ((Hit(ps[0], name) && StartsMark(ps[1..])) || (ps[0].Mark? && NextHit(ps[1..], name)) || Touched(ps[1..], name))
  }

  /** Replacing never lengthens, and shortens exactly if a placeholder that is found
      touches another one. */
  lemma {:induction false} TearLength(ps: seq<Piece>, name: string, address: string)
    requires PiecesOk(ps) && |name| == 34 && |address| == 40
    ensures |Show(Tear(ps, name, address))| <= |Show(ps)|
    ensures |Show(Tear(ps, name, address))| == |Show(ps)| <==> !Touched(ps, name)
    decreases |ps|
  {
    if ps != [] {
      var rest := ps[1..];
      if ps[0].Solid? {
        TearLength(rest, name, address);
        ShowCons(ps[0], Tear(rest, name, address));
      } else if Hit(ps[0], name) {
        TearLeftPieces(rest);
        TearLeftText(rest);
        TearLength(TearLeft(rest), name, address);
        ShowCons(Solid(address), Tear(TearLeft(rest), name, address));
        assert |ps[0].Text()| == 40;
      } else {
        TearLength(rest, name, address);
        var p := Mark(ps[0].name, ps[0].left, ps[0].right && !NextHit(rest, name));
        ShowCons(p, Tear(rest, name, address));
      }
    }
  }
}
