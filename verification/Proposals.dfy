/**
 Proposing batches of calls to a Safe through a timelock, and decoding the pending
 proposals back into the list of calls.
 */
module Proposals {
  import opened Results
  import opened Sequences

  datatype Call = Call(to: string, data: string)

  /** A pending proposal; date is the submission time the service records. */
  datatype Tx = Tx(nonce: nat, date: int, to: string, data: string)

  datatype TimeLockOperation = Queue | Execute | Cancel

  /** A timelock action: value 0, no signature string, no delegate call. */
  datatype Action = Action(target: string, data: string, executionTime: string)

  /** The encodings of the libraries: multisend batches, and calls of the timelock.
      decodeAction gives the action of a call of a timelock function. */
  datatype Codec = Codec(
    encodeMulti: seq<Call> -> string,
    decodeMulti: string -> seq<Call>,
    encodeCall: (TimeLockOperation, Action) -> string,
    decodeAction: (TimeLockFunction, string) -> Action)

  datatype Config = Config(
    codec: Codec,
    multisend: string, timeLock: string, operation: TimeLockOperation,
    chunkSize: nat, multiSigNonce: Option<nat>)

  // ---------- the timelock's function selectors ----------

  /** The functions of the timelock whose signatures the tool knows. */
  datatype TimeLockFunction =
    | GracePeriod | MaximumDelay | MinimumDelay | AcceptAdmin | GetAdmin | GetDelay | GetPendingAdmin
    | IsActionQueued | SetDelay | SetPendingAdmin | Operate(operation: TimeLockOperation)

  function Selector(op: TimeLockOperation): nat
  {
    match op
    case Queue => 0x8d8fe2e3
    case Execute => 0x8902ab65
    case Cancel => 0x1dc40b51
  }

  /** The table of timelock signatures by selector. */
  function TimeLockSignature(selector: nat): Option<TimeLockFunction>
  {
    if selector == 0xc1a287e2 then Some(GracePeriod)
    else if selector == 0x7d645fab then Some(MaximumDelay)
    else if selector == 0xb1b43ae5 then Some(MinimumDelay)
    else if selector == 0x0e18b681 then Some(AcceptAdmin)
    else if selector == Selector(Cancel) then Some(Operate(Cancel))
    else if selector == Selector(Execute) then Some(Operate(Execute))
    else if selector == 0x6e9960c3 then Some(GetAdmin)
    else if selector == 0xcebc9a82 then Some(GetDelay)
    else if selector == 0xd0468156 then Some(GetPendingAdmin)
    else if selector == 0xb1fc8796 then Some(IsActionQueued)
    else if selector == Selector(Queue) then Some(Operate(Queue))
    else if selector == 0xe177246e then Some(SetDelay)
    else if selector == 0x4dd18bf5 then Some(SetPendingAdmin)
    else None
  }

  /** The known selectors. */
  lemma KnownSelectors(n: nat)
    ensures TimeLockSignature(n).Some? <==>
      n in {0xc1a287e2, 0x7d645fab, 0xb1b43ae5, 0x0e18b681, 0x1dc40b51, 0x8902ab65, 0x6e9960c3, 0xcebc9a82, 0xd0468156,
            0xb1fc8796, 0x8d8fe2e3, 0xe177246e, 0x4dd18bf5}
  {
  }

  function HexDigit(c: char): Option<nat>
  {
    if '0' <= c <= '9' then Some(c as int - '0' as int)
    else if 'a' <= c <= 'f' then Some(c as int - 'a' as int + 10)
    else None
  }

  /** The number lower-case hexadecimal digits spell. */
  function HexNumber(s: string): Option<nat>
  {
    if s == "" then Some(0)
    else match (HexNumber(s[..|s| - 1]), HexDigit(s[|s| - 1]))
      case (Some(n), Some(d)) => Some(n * 16 + d)
      case _ => None
  }

  /** One more digit. */
  lemma HexNumberSnoc(s: string, d: nat)
    requires d < 16
    ensures HexNumber(s + ["0123456789abcdef"[d]]) ==
      match HexNumber(s) case None => None case Some(n) => Some(n * 16 + d)
  {
    var c := "0123456789abcdef"[d];
    var t := s + [c];
    assert t[..|t| - 1] == s && t[|t| - 1] == c;
  }

  /** The selectors as the text of a call begins with them. */
  lemma SelectorTexts()
    ensures SelectorOf("0x8d8fe2e3") == Some(Selector(Queue))
    ensures SelectorOf("0x8902ab65") == Some(Selector(Execute))
    ensures SelectorOf("0x1dc40b51") == Some(Selector(Cancel))
  {
    EightDigits("0x8d8fe2e3", 8, 0xd, 8, 0xf, 0xe, 2, 0xe, 3);
    EightDigits("0x8902ab65", 8, 9, 0, 2, 0xa, 0xb, 6, 5);
    EightDigits("0x1dc40b51", 1, 0xd, 0xc, 4, 0, 0xb, 5, 1);
  }

  /** The number of eight digits after 0x. */
  lemma EightDigits(data: string, a: nat, b: nat, c: nat, d: nat, e: nat, f: nat, g: nat, h: nat)
    requires a < 16 && b < 16 && c < 16 && d < 16 && e < 16 && f < 16 && g < 16 && h < 16
    requires |data| >= 10 && data[0] == '0' && data[1] == 'x'
    requires IsDigit(data[2], a) && IsDigit(data[3], b) && IsDigit(data[4], c) && IsDigit(data[5], d)
    requires IsDigit(data[6], e) && IsDigit(data[7], f) && IsDigit(data[8], g) && IsDigit(data[9], h)
    ensures SelectorOf(data) ==
      Some(a * 0x1000_0000 + b * 0x100_0000 + c * 0x10_0000 + d * 0x1_0000 + e * 0x1000 + f * 0x100 + g * 0x10 + h)
  {
    var n := FourDigits(data, 2, 6, 0, a, b, c, d);
    var m := FourDigits(data, 6, 10, n, e, f, g, h);
  }

  lemma FourDigits(data: string, i: nat, j: nat, n: nat, a: nat, b: nat, c: nat, d: nat) returns (m: nat)
    requires 2 <= i && j == i + 4 <= |data| && a < 16 && b < 16 && c < 16 && d < 16
    requires IsDigit(data[i], a) && IsDigit(data[i + 1], b) && IsDigit(data[i + 2], c) && IsDigit(data[i + 3], d)
    requires HexNumber(data[2..i]) == Some(n)
    ensures HexNumber(data[2..j]) == Some(m) && m == n * 0x1_0000 + a * 0x1000 + b * 0x100 + c * 0x10 + d
  {
    m := OneMoreDigit(data, i, n, a);
    m := OneMoreDigit(data, i + 1, m, b);
    m := OneMoreDigit(data, i + 2, m, c);
    m := OneMoreDigit(data, i + 3, m, d);
  }

  predicate IsDigit(c: char, d: nat)
    requires d < 16
  {
    c == "0123456789abcdef"[d]
  }

  lemma OneMoreDigit(data: string, i: nat, n: nat, d: nat) returns (m: nat)
    requires 2 <= i < |data| && d < 16 && IsDigit(data[i], d) && HexNumber(data[2..i]) == Some(n)
    ensures m == n * 16 + d && HexNumber(data[2..i + 1]) == Some(m)
  {
    HexNumberSnoc(data[2..i], d);
    assert data[2..i + 1] == data[2..i] + [data[i]];
    m := n * 16 + d;
  }

  /** The first ten characters, if they are 0x and eight digits. */
  function SelectorOf(data: string): Option<nat>
  {
    if |data| >= 10 && data[0] == '0' && data[1] == 'x' then HexNumber(data[2..10]) else None
  }

  /** The function a call's data is looked up under. */
  function FunctionOf(data: string): Option<TimeLockFunction>
  {
    match SelectorOf(data) case None => None case Some(n) => TimeLockSignature(n)
  }

  /** The laws of the encodings that the round trip rests on: decoding undoes encoding,
      an encoded batch is not empty text, an encoded call starts with its selector, and
      the data inside a call or a batch is shorter than the call or the batch. */
  ghost predicate Lawful(cfg: Config)
  {
    var c := cfg.codec;
    && (forall calls :: c.decodeMulti(c.encodeMulti(calls)) == calls)
    && (forall calls :: c.encodeMulti(calls) != "")
    && (forall op, a :: SelectorOf(c.encodeCall(op, a)) == Some(Selector(op)))
    && (forall op, a :: c.decodeAction(Operate(op), c.encodeCall(op, a)) == a)
    && (forall sig, d :: d != "" ==> |c.decodeAction(sig, d).data| < |d|)
    && (forall d, i :: d != "" && 0 <= i < |c.decodeMulti(d)| ==> |c.decodeMulti(d)[i].data| < |d|)
  }

  // ---------- proposing ----------

  /** The timelock call that stands for a call. */
  function Wrap(cfg: Config, call: Call, executionTime: string): Call
  {
    Call(cfg.timeLock, cfg.codec.encodeCall(cfg.operation, Action(call.to, call.data, executionTime)))
  }

  /** The proposals of the first k chunks, one nonce and one date after the other. */
  function ProposalsOf(cfg: Config, chunks: seq<seq<Call>>, nonce: nat, date: int, k: nat): seq<Tx>
    requires k <= |chunks|
  {
    seq(k, i requires 0 <= i < k => Tx(nonce + i, date + i, cfg.multisend, cfg.codec.encodeMulti(chunks[i])))
  }

  /** The proposals a batch adds to the pending ones. */
  function BatchOf(cfg: Config, metas: seq<Call>, first: nat, now: int): seq<Tx>
  {
    var chunks := Chunk(metas, cfg.chunkSize);
    ProposalsOf(cfg, chunks, first, now, |chunks|)
  }

  lemma OneMoreProposal(cfg: Config, pending: seq<Tx>, chunks: seq<seq<Call>>, nonce: nat, date: int, k: nat, n: nat)
    requires n == k + 1 <= |chunks|
    ensures pending + ProposalsOf(cfg, chunks, nonce, date, n) ==
      pending + ProposalsOf(cfg, chunks, nonce, date, k)
      + [Tx(nonce + k, date + k, cfg.multisend, cfg.codec.encodeMulti(chunks[k]))]
  {
    assert ProposalsOf(cfg, chunks, nonce, date, n) == ProposalsOf(cfg, chunks, nonce, date, k)
      + [Tx(nonce + k, date + k, cfg.multisend, cfg.codec.encodeMulti(chunks[k]))];
  }

  /** One more than the highest pending nonce, at least the nonce of the Safe itself. */
  function NextNonce(pending: seq<Tx>, safeNonce: nat): (n: nat)
    ensures safeNonce <= n
    ensures forall tx :: tx in pending ==> tx.nonce < n
  {
    if pending == [] then safeNonce
    else
      var n := NextNonce(pending[1..], safeNonce);
      if n <= pending[0].nonce then pending[0].nonce + 1 else n
  }

  /** No more than needed: it is the Safe's own nonce, or follows a pending one. */
  lemma {:induction false} NextNonceIs(pending: seq<Tx>, safeNonce: nat)
    ensures NextNonce(pending, safeNonce) != safeNonce ==>
      exists i :: 0 <= i < |pending| && NextNonce(pending, safeNonce) == pending[i].nonce + 1
  {
    if pending != [] {
      NextNonceIs(pending[1..], safeNonce);
      var n := NextNonce(pending[1..], safeNonce);
      if n > pending[0].nonce && n != safeNonce {
        var i :| 0 <= i < |pending| - 1 && n == pending[1..][i].nonce + 1;
        assert pending[1..][i] == pending[i + 1];
      }
    }
  }

  lemma {:induction false} NextNonceAppend(pending: seq<Tx>, safeNonce: nat, tx: Tx)
    requires tx.nonce == NextNonce(pending, safeNonce)
    ensures NextNonce(pending + [tx], safeNonce) == tx.nonce + 1
  {
    NextNonceMax(pending, safeNonce, tx);
  }

  lemma {:induction false} NextNonceMax(pending: seq<Tx>, safeNonce: nat, tx: Tx)
    ensures var n := NextNonce(pending, safeNonce);
      NextNonce(pending + [tx], safeNonce) == if n <= tx.nonce then tx.nonce + 1 else n
  {
    if pending == [] {
      assert pending + [tx] == [tx];
    } else {
      assert (pending + [tx])[1..] == pending[1..] + [tx];
      NextNonceMax(pending[1..], safeNonce, tx);
    }
  }

  /** Pending proposals with submission dates in the past, no two sharing nonce and date. */
  ghost predicate Older(pending: seq<Tx>, now: int)
  {
    DistinctKeys(ToSet(pending)) && Distinct(pending) && forall tx :: tx in pending ==> tx.date < now
  }

  /** The Safe service, with the proposals still pending. */
  class SafeService {
    var pending: seq<Tx>
    var now: int
    const safeNonce: nat

    ghost predicate Valid()
      reads this
    {
      Older(pending, now)
    }

    constructor (safeNonce: nat)
      ensures Valid() && pending == [] && this.safeNonce == safeNonce
    {
      this.pending, this.now, this.safeNonce := [], 0, safeNonce;
    }

    method ProposeTransaction(nonce: nat, to: string, data: string)
      requires Valid()
      modifies this
      ensures Valid() && now == old(now) + 1
      ensures pending == old(pending) + [Tx(nonce, old(now), to, data)]
    {
      var tx := Tx(nonce, now, to, data);
      DistinctConcat(pending, [tx]);
      pending := pending + [tx];
      now := now + 1;
    }
  }

  /** JavaScript's `a || b` on optional numbers: 0 counts as absent. */
  function OrElse(a: Option<nat>, b: Option<nat>): Option<nat>
  {
    if a.Some? && a.value != 0 then a else b
  }

  /** The nonce of the first proposal of a batch. */
  function FirstNonce(cfg: Config, nonce: Option<nat>, pending: seq<Tx>, safeNonce: nat): nat
  {
    match OrElse(nonce, cfg.multiSigNonce)
    case Some(n) => n
    case None => NextNonce(pending, safeNonce)
  }

  /** A given nonce goes before the configured one, and only without either of them the
      next free one is taken; a given 0 counts as none. */
  lemma FirstNonceIs(cfg: Config, pending: seq<Tx>, safeNonce: nat, n: nat, m: nat)
    ensures n != 0 ==> FirstNonce(cfg, Some(n), pending, safeNonce) == n
    ensures FirstNonce(cfg, Some(0), pending, safeNonce) == FirstNonce(cfg, None, pending, safeNonce)
    ensures cfg.multiSigNonce == Some(m) ==> FirstNonce(cfg, None, pending, safeNonce) == m
    ensures cfg.multiSigNonce == None ==> FirstNonce(cfg, None, pending, safeNonce) == NextNonce(pending, safeNonce)
  {
  }

  method ProposeSafeTransaction(cfg: Config, service: SafeService, target: string, data: string, nonce: Option<nat>, idx: nat)
    requires service.Valid()
    modifies service
    ensures service.Valid() && service.now == old(service.now) + 1
    ensures var n := match OrElse(nonce, cfg.multiSigNonce)
                     case Some(m) => m + idx
                     case None => NextNonce(old(service.pending), service.safeNonce);
      service.pending == old(service.pending) + [Tx(n, old(service.now), target, data)]
  {
    var staticNonce := OrElse(nonce, cfg.multiSigNonce);
    var n;
    if staticNonce.Some? {
      n := staticNonce.value + idx;
    } else {
      n := NextNonce(service.pending, service.safeNonce);
    }
    service.ProposeTransaction(n, target, data);
  }

  /** One chunk as a proposal at nonce n, the i-th from a static one or the next free one. */
  method ProposeChunk(cfg: Config, service: SafeService, calls: seq<Call>, nonce: Option<nat>, i: nat, ghost n: nat)
    requires service.Valid()
    requires n == match OrElse(nonce, cfg.multiSigNonce)
                  case Some(m) => m + i
                  case None => NextNonce(service.pending, service.safeNonce)
    modifies service
    ensures service.Valid() && service.now == old(service.now) + 1
    ensures service.pending == old(service.pending) + [Tx(n, old(service.now), cfg.multisend, cfg.codec.encodeMulti(calls))]
    ensures OrElse(nonce, cfg.multiSigNonce).None? ==> NextNonce(service.pending, service.safeNonce) == n + 1
  {
    ghost var before := service.pending;
    var newData := cfg.codec.encodeMulti(calls);
    ProposeSafeTransaction(cfg, service, cfg.multisend, newData, nonce, i);
    if OrElse(nonce, cfg.multiSigNonce).None? {
      NextNonceAppend(before, service.safeNonce, Tx(n, old(service.now), cfg.multisend, newData));
    }
  }

  method ProposeMultiSafeTransactions(cfg: Config, service: SafeService, transactions: seq<Call>, nonce: Option<nat>)
    requires service.Valid()
    modifies service
    ensures service.Valid()
    ensures var first := FirstNonce(cfg, nonce, old(service.pending), service.safeNonce);
      service.pending == old(service.pending) + BatchOf(cfg, transactions, first, old(service.now))
  {
    var chunks := Chunk(transactions, cfg.chunkSize);
    ghost var first, pending, now := FirstNonce(cfg, nonce, service.pending, service.safeNonce), service.pending, service.now;
    for i := 0 to |chunks|
      invariant service.Valid() && service.now == now + i
      invariant service.pending == pending + ProposalsOf(cfg, chunks, first, now, i)
      invariant OrElse(nonce, cfg.multiSigNonce).None? ==> NextNonce(service.pending, service.safeNonce) == first + i
    {
      ghost var n := first + i;
      ProposeChunk(cfg, service, chunks[i], nonce, i, n);
      OneMoreProposal(cfg, pending, chunks, first, now, i, i + 1);
    }
  }

  /** The execution time: the given one, else one from the clock. */
  function GivenOrClock(given: Option<string>, clock: string): string
  {
    if given.Some? && given.value != "" then given.value else clock
  }

  function TimeOf(executionTime: seq<Option<string>>, clock: nat -> string, i: nat): string
  {
    GivenOrClock(if i < |executionTime| then executionTime[i] else None, clock(i))
  }

  function WrapAll(cfg: Config, calls: seq<Call>, executionTime: seq<Option<string>>, clock: nat -> string, n: nat): seq<Call>
    requires n <= |calls|
  {
    if n == 0 then []
    else WrapAll(cfg, calls, executionTime, clock, n - 1) + [Wrap(cfg, calls[n - 1], TimeOf(executionTime, clock, n - 1))]
  }

  /** A single call proposed in SafeWithTimeLock mode, or, without a timelock, in Safe
      mode: a proposal of its own, not a batch. */
  method DryRunEncodedData(cfg: Config, service: SafeService, withTimeLock: bool, call: Call,
                           executionTime: Option<string>, clock: string)
    requires service.Valid()
    modifies service
    ensures service.Valid()
    ensures var c := if withTimeLock then Wrap(cfg, call, GivenOrClock(executionTime, clock)) else call;
      var first := FirstNonce(cfg, None, old(service.pending), service.safeNonce);
      service.pending == old(service.pending) + [Tx(first, old(service.now), c.to, c.data)]
  {
    if withTimeLock {
      var wrapped := Wrap(cfg, call, GivenOrClock(executionTime, clock));
      ProposeSafeTransaction(cfg, service, wrapped.to, wrapped.data, None, 0);
    } else {
      ProposeSafeTransaction(cfg, service, call.to, call.data, None, 0);
    }
  }

  /** The batch proposed in SafeWithTimeLock mode, or, without a timelock, in Safe mode. */
  method DryRunMultipleEncodedData(cfg: Config, service: SafeService, withTimeLock: bool, calls: seq<Call>,
                                   executionTime: seq<Option<string>>, clock: nat -> string)
    requires service.Valid()
    modifies service
    ensures service.Valid()
    ensures var metas := if withTimeLock then WrapAll(cfg, calls, executionTime, clock, |calls|) else calls;
      var first := FirstNonce(cfg, None, old(service.pending), service.safeNonce);
      service.pending == old(service.pending) + BatchOf(cfg, metas, first, old(service.now))
  {
    var metaTransactions: seq<Call> := [];
    for i := 0 to |calls|
      invariant metaTransactions == if withTimeLock then WrapAll(cfg, calls, executionTime, clock, i) else calls[..i]
      invariant service.Valid() && service.pending == old(service.pending) && service.now == old(service.now)
    {
      assert calls[..i + 1] == calls[..i] + [calls[i]];
      if withTimeLock {
        metaTransactions := metaTransactions + [Wrap(cfg, calls[i], TimeOf(executionTime, clock, i))];
      } else {
        metaTransactions := metaTransactions + [calls[i]];
      }
    }
    assert calls[..|calls|] == calls;
    ProposeMultiSafeTransactions(cfg, service, metaTransactions, None);
  }

  // ---------- decoding ----------

  ghost predicate DistinctKeys(s: set<Tx>)
  {
    forall t, u :: t in s && u in s && t.nonce == u.nonce && t.date == u.date ==> t == u
  }

  /** The comparator of the sort puts a after b. */
  predicate After(a: Tx, b: Tx)
  {
    a.nonce > b.nonce || (a.nonce == b.nonce && a.date > b.date)
  }

  predicate Before(a: Tx, b: Tx)
  {
    After(b, a)
  }

  /** What sorting by the comparator returns. */
  function SortTxs(s: seq<Tx>): seq<Tx>
  {
    SortBy(Before, s)
  }

  /** In ascending order, and no two proposals with the same nonce and date. */
  ghost predicate StrictlySorted(s: seq<Tx>)
  {
    forall i, j :: 0 <= i < j < |s| ==> After(s[j], s[i])
  }

  lemma SortTxsSorts(s: seq<Tx>)
    requires DistinctKeys(ToSet(s)) && Distinct(s)
    ensures StrictlySorted(SortTxs(s))
    ensures forall u :: u in SortTxs(s) <==> u in s
  {
    SortBySorts(Before, s);
    var t := SortTxs(s);
    forall i, j | 0 <= i < j < |t| ensures After(t[j], t[i]) {
      assert t[i] in t && t[j] in t && !Before(t[j], t[i]);
      assert t[i] in ToSet(s) && t[j] in ToSet(s);
    }
  }

  predicate SameNonceLater(tx: Tx, s: seq<Tx>)
  {
    exists i :: 0 <= i < |s| && s[i].nonce == tx.nonce
  }

  /** The proposals that are the last ones of the list with their nonce. */
  function KeepLast(s: seq<Tx>): seq<Tx>
  {
    if s == [] then []
    else (if SameNonceLater(s[0], s[1..]) then [] else [s[0]]) + KeepLast(s[1..])
  }

  /** Taking a timelock call apart; any other call stays as it is. */
  function Unwrap(cfg: Config, call: Call): Call
  {
    if call.to != cfg.timeLock then call
    else match FunctionOf(call.data)
      case None => call
      case Some(sig) =>
        var action := cfg.codec.decodeAction(sig, call.data);
        Call(action.target, action.data)
  }

  function UnwrapAll(cfg: Config, calls: seq<Call>): (r: seq<Call>)
    ensures |r| == |calls|
  {
    seq(|calls|, i requires 0 <= i < |calls| => Unwrap(cfg, calls[i]))
  }

  /** The calls of one proposal. */
  function Expand(cfg: Config, tx: Tx): seq<Call>
  {
    if tx.data == "" then []
    else UnwrapAll(cfg, if tx.to == cfg.multisend then cfg.codec.decodeMulti(tx.data) else [Call(tx.to, tx.data)])
  }

  function ExpandAll(cfg: Config, txs: seq<Tx>): seq<Call>
  {
    if txs == [] then [] else Expand(cfg, txs[0]) + ExpandAll(cfg, txs[1..])
  }

  /** The list of calls that decode-safe-txs prints. */
  function Decoded(cfg: Config, pending: seq<Tx>): seq<Call>
  {
    ExpandAll(cfg, KeepLast(SortTxs(pending)))
  }

  lemma ExpandNext(cfg: Config, kept: seq<Tx>, i: nat, done: seq<Call>)
    requires i < |kept|
    ensures done + ExpandAll(cfg, kept[i..]) == (done + Expand(cfg, kept[i])) + ExpandAll(cfg, kept[i + 1..])
  {
    assert kept[i..][1..] == kept[i + 1..];
  }

  method DecodeSafeTxs(cfg: Config, pending: seq<Tx>) returns (txs: seq<Call>)
    ensures txs == Decoded(cfg, pending)
  {
    var kept := KeepLast(SortTxs(pending));
    txs := [];
    var i := 0;
    while i < |kept|
      invariant 0 <= i <= |kept|
      invariant txs + ExpandAll(cfg, kept[i..]) == ExpandAll(cfg, kept)
    {
      ExpandNext(cfg, kept, i, txs);
      var toConcatenate := Expand(cfg, kept[i]);
      txs := txs + toConcatenate;
      i := i + 1;
    }
    assert kept[i..] == [];
  }

  // ---------- decoding, nonce by nonce ----------

  ghost predicate IsLatest(s: set<Tx>, nonce: nat, tx: Tx)
  {
    tx in s && tx.nonce == nonce && forall u :: u in s && u.nonce == nonce ==> u.date <= tx.date
  }

  /** What counts at a nonce: the calls of its latest proposal. */
  ghost function CallsAt(cfg: Config, s: set<Tx>, nonce: nat): seq<Call>
  {
    if tx :| IsLatest(s, nonce, tx) then Expand(cfg, tx) else []
  }

  /** The calls of the nonces from lo to hi, in order: what decoding should give. */
  ghost function ByNonce(cfg: Config, s: set<Tx>, lo: nat, hi: nat): seq<Call>
    decreases hi - lo
  {
    if lo >= hi then [] else CallsAt(cfg, s, lo) + ByNonce(cfg, s, lo + 1, hi)
  }

  lemma CallsAtLatest(cfg: Config, s: set<Tx>, tx: Tx)
    requires DistinctKeys(s) && IsLatest(s, tx.nonce, tx)
    ensures CallsAt(cfg, s, tx.nonce) == Expand(cfg, tx)
  {
    forall u | IsLatest(s, tx.nonce, u) ensures u == tx {
    }
  }

  /** Two sets agree on the latest proposal of a nonce. */
  ghost predicate SameLatest(s: set<Tx>, t: set<Tx>, nonce: nat)
  {
    forall tx :: IsLatest(s, nonce, tx) <==> IsLatest(t, nonce, tx)
  }

  lemma CallsAtSame(cfg: Config, s: set<Tx>, t: set<Tx>, nonce: nat)
    requires DistinctKeys(s) && DistinctKeys(t) && SameLatest(s, t, nonce)
    ensures CallsAt(cfg, s, nonce) == CallsAt(cfg, t, nonce)
  {
    if tx :| IsLatest(s, nonce, tx) {
      CallsAtLatest(cfg, s, tx);
      CallsAtLatest(cfg, t, tx);
    }
  }

  lemma {:induction false} ByNonceSame(cfg: Config, s: set<Tx>, t: set<Tx>, lo: nat, hi: nat)
    requires DistinctKeys(s) && DistinctKeys(t)
    requires forall n: nat :: lo <= n < hi ==> SameLatest(s, t, n)
    ensures ByNonce(cfg, s, lo, hi) == ByNonce(cfg, t, lo, hi)
    decreases hi - lo
  {
    if lo < hi {
      assert SameLatest(s, t, lo);
      CallsAtSame(cfg, s, t, lo);
      ByNonceSame(cfg, s, t, lo + 1, hi);
    }
  }

  lemma {:induction false} ByNonceSplit(cfg: Config, s: set<Tx>, lo: nat, mid: nat, hi: nat)
    requires lo <= mid <= hi
    ensures ByNonce(cfg, s, lo, hi) == ByNonce(cfg, s, lo, mid) + ByNonce(cfg, s, mid, hi)
    decreases mid - lo
  {
    if lo < mid {
      ByNonceSplit(cfg, s, lo + 1, mid, hi);
      Associate(CallsAt(cfg, s, lo), ByNonce(cfg, s, lo + 1, mid), ByNonce(cfg, s, mid, hi));
    }
  }

  lemma SortedKeys(s: seq<Tx>)
    requires StrictlySorted(s)
    ensures DistinctKeys(ToSet(s))
  {
    forall t, u | t in s && u in s && t.nonce == u.nonce && t.date == u.date ensures t == u {
      var i :| 0 <= i < |s| && s[i] == t;
      var j :| 0 <= j < |s| && s[j] == u;
    }
  }

  lemma TailOfSorted(s: seq<Tx>)
    requires s != [] && StrictlySorted(s)
    ensures StrictlySorted(s[1..])
    ensures forall u :: u in s[1..] ==> After(u, s[0])
    ensures ToSet(s) == ToSet(s[1..]) + {s[0]}
  {
    assert s == [s[0]] + s[1..];
    forall u | u in s[1..] ensures After(u, s[0]) {
      var k :| 0 <= k < |s| - 1 && s[1..][k] == u;
      assert s[k + 1] == u;
    }
  }

  /** A proposal that is superseded, or alone with a lower nonce, does not count. */
  lemma DropFirst(s: seq<Tx>, n: nat)
    requires s != [] && StrictlySorted(s)
    requires SameNonceLater(s[0], s[1..]) || n != s[0].nonce
    ensures SameLatest(ToSet(s), ToSet(s[1..]), n)
  {
    TailOfSorted(s);
    if SameNonceLater(s[0], s[1..]) {
      var i :| 0 <= i < |s[1..]| && s[1..][i].nonce == s[0].nonce;
      assert s[1..][i] in ToSet(s[1..]);
    }
  }

  /** A nonce without proposals contributes nothing. */
  lemma SkipNonce(cfg: Config, s: set<Tx>, lo: nat, hi: nat)
    requires lo < hi && forall tx :: tx in s ==> tx.nonce != lo
    ensures ByNonce(cfg, s, lo, hi) == ByNonce(cfg, s, lo + 1, hi)
  {
    assert CallsAt(cfg, s, lo) == [];
  }

  /** A superseded first proposal contributes nothing. */
  lemma SkipSuperseded(cfg: Config, s: seq<Tx>, lo: nat, hi: nat)
    requires s != [] && StrictlySorted(s) && SameNonceLater(s[0], s[1..])
    ensures KeepLast(s) == KeepLast(s[1..])
    ensures ByNonce(cfg, ToSet(s), lo, hi) == ByNonce(cfg, ToSet(s[1..]), lo, hi)
  {
    SortedKeys(s);
    TailOfSorted(s);
    SortedKeys(s[1..]);
    forall n: nat | lo <= n < hi ensures SameLatest(ToSet(s), ToSet(s[1..]), n) {
      DropFirst(s, n);
    }
    ByNonceSame(cfg, ToSet(s), ToSet(s[1..]), lo, hi);
  }

  /** A first proposal that is alone with its nonce contributes its calls. */
  lemma KeepLone(cfg: Config, s: seq<Tx>)
    requires s != [] && !SameNonceLater(s[0], s[1..])
    ensures ExpandAll(cfg, KeepLast(s)) == Expand(cfg, s[0]) + ExpandAll(cfg, KeepLast(s[1..]))
  {
    var rest := KeepLast(s[1..]);
    assert KeepLast(s) == [s[0]] + rest && ([s[0]] + rest)[1..] == rest;
  }

  lemma CountLone(cfg: Config, s: seq<Tx>, hi: nat)
    requires s != [] && StrictlySorted(s) && !SameNonceLater(s[0], s[1..]) && s[0].nonce < hi
    ensures ByNonce(cfg, ToSet(s), s[0].nonce, hi) ==
            Expand(cfg, s[0]) + ByNonce(cfg, ToSet(s[1..]), s[0].nonce + 1, hi)
  {
    SortedKeys(s);
    LoneFirst(s);
    CallsAtLatest(cfg, ToSet(s), s[0]);
    HigherNonces(cfg, s, hi);
  }

  lemma HigherNonces(cfg: Config, s: seq<Tx>, hi: nat)
    requires s != [] && StrictlySorted(s)
    ensures ByNonce(cfg, ToSet(s), s[0].nonce + 1, hi) == ByNonce(cfg, ToSet(s[1..]), s[0].nonce + 1, hi)
  {
    SortedKeys(s);
    TailOfSorted(s);
    SortedKeys(s[1..]);
    SameAbove(s);
    ByNonceSame(cfg, ToSet(s), ToSet(s[1..]), s[0].nonce + 1, hi);
  }

  lemma SameAbove(s: seq<Tx>)
    requires s != [] && StrictlySorted(s)
    ensures forall n: nat :: s[0].nonce < n ==> SameLatest(ToSet(s), ToSet(s[1..]), n)
  {
    forall n: nat | s[0].nonce < n ensures SameLatest(ToSet(s), ToSet(s[1..]), n) {
      DropFirst(s, n);
    }
  }

  /** The pipeline's answer for a sorted list is the answer nonce by nonce. */
  ghost predicate Agrees(cfg: Config, s: seq<Tx>, lo: nat, hi: nat)
  {
    ExpandAll(cfg, KeepLast(s)) == ByNonce(cfg, ToSet(s), lo, hi)
  }

  ghost predicate NoncesIn(s: seq<Tx>, lo: nat, hi: nat)
  {
    forall tx :: tx in s ==> lo <= tx.nonce < hi
  }

  lemma AgreesSkip(cfg: Config, s: seq<Tx>, lo: nat, next: nat, hi: nat)
    requires lo < hi && next == lo + 1 && (forall tx :: tx in s ==> tx.nonce != lo) && Agrees(cfg, s, next, hi)
    ensures Agrees(cfg, s, lo, hi)
  {
    SkipNonce(cfg, ToSet(s), lo, hi);
  }

  lemma AgreesSuperseded(cfg: Config, s: seq<Tx>, lo: nat, hi: nat)
    requires s != [] && StrictlySorted(s) && SameNonceLater(s[0], s[1..]) && Agrees(cfg, s[1..], lo, hi)
    ensures Agrees(cfg, s, lo, hi)
  {
    SkipSuperseded(cfg, s, lo, hi);
  }

  lemma AgreesLone(cfg: Config, s: seq<Tx>, next: nat, hi: nat)
    requires s != [] && StrictlySorted(s) && !SameNonceLater(s[0], s[1..]) && s[0].nonce < hi
    requires next == s[0].nonce + 1 && Agrees(cfg, s[1..], next, hi)
    ensures Agrees(cfg, s, s[0].nonce, hi)
  {
    KeepLone(cfg, s);
    CountLone(cfg, s, hi);
  }

  /** Sorting, keeping the last of each nonce and concatenating is going through the
      nonces in order and taking the latest proposal of each. */
  lemma {:induction false} SortedDecode(cfg: Config, s: seq<Tx>, lo: nat, hi: nat)
    requires StrictlySorted(s) && NoncesIn(s, lo, hi)
    ensures Agrees(cfg, s, lo, hi)
    decreases |s|, hi - lo
  {
    var next := lo + 1;
    if s == [] {
      if lo < hi {
        SortedDecode(cfg, s, next, hi);
        AgreesSkip(cfg, s, lo, next, hi);
      }
    } else {
      HeadIn(s);
      TailNonces(s, lo, hi);
      if s[0].nonce > lo {
        SortedDecode(cfg, s, next, hi);
        AgreesSkip(cfg, s, lo, next, hi);
      } else if SameNonceLater(s[0], s[1..]) {
        SortedDecode(cfg, s[1..], lo, hi);
        AgreesSuperseded(cfg, s, lo, hi);
      } else {
        SortedDecode(cfg, s[1..], next, hi);
        AgreesLone(cfg, s, next, hi);
      }
    }
  }

  lemma TailNonces(s: seq<Tx>, lo: nat, hi: nat)
    requires s != [] && StrictlySorted(s) && NoncesIn(s, lo, hi)
    ensures StrictlySorted(s[1..]) && NoncesIn(s[1..], lo, hi)
    ensures s[0].nonce > lo ==> NoncesIn(s, lo + 1, hi)
    ensures !SameNonceLater(s[0], s[1..]) ==> NoncesIn(s[1..], lo + 1, hi)
  {
    TailOfSorted(s);
    assert s == [s[0]] + s[1..];
    if !SameNonceLater(s[0], s[1..]) {
      LoneFirst(s);
      HeadIn(s);
    }
  }

  lemma HeadIn(s: seq<Tx>)
    requires s != []
    ensures s[0] in s
  {
  }

  lemma LoneFirst(s: seq<Tx>)
    requires s != [] && StrictlySorted(s) && !SameNonceLater(s[0], s[1..])
    ensures IsLatest(ToSet(s), s[0].nonce, s[0])
    ensures forall tx :: tx in s[1..] ==> s[0].nonce < tx.nonce
  {
    TailOfSorted(s);
    forall tx | tx in s[1..] ensures s[0].nonce < tx.nonce {
      var i :| 0 <= i < |s[1..]| && s[1..][i] == tx;
    }
  }

  /** What decode-safe-txs prints, whatever order the service returns the proposals
      in: the calls of the latest proposal of each nonce, nonce by nonce. */
  lemma DecodedByNonce(cfg: Config, pending: seq<Tx>, hi: nat)
    requires DistinctKeys(ToSet(pending)) && Distinct(pending)
    requires NoncesIn(pending, 0, hi)
    ensures Decoded(cfg, pending) == ByNonce(cfg, ToSet(pending), 0, hi)
  {
    SortTxsSorts(pending);
    assert ToSet(SortTxs(pending)) == ToSet(pending);
    SortedDecode(cfg, SortTxs(pending), 0, hi);
  }

  // ---------- the round trip ----------

  /** The sum of what the chunks decode to. */
  function UnwrapChunks(cfg: Config, chunks: seq<seq<Call>>): seq<Call>
  {
    if chunks == [] then [] else UnwrapAll(cfg, chunks[0]) + UnwrapChunks(cfg, chunks[1..])
  }

  lemma {:induction false} UnwrapConcat(cfg: Config, chunks: seq<seq<Call>>)
    ensures UnwrapChunks(cfg, chunks) == UnwrapAll(cfg, Concat(chunks))
  {
    if chunks != [] {
      UnwrapConcat(cfg, chunks[1..]);
      var a, b := chunks[0], Concat(chunks[1..]);
      assert UnwrapAll(cfg, a + b) == UnwrapAll(cfg, a) + UnwrapAll(cfg, b);
    }
  }

  /** tx carries the chunk and is the latest proposal at its nonce. */
  ghost predicate Carries(cfg: Config, all: set<Tx>, tx: Tx, nonce: nat, chunk: seq<Call>)
  {
    && tx.nonce == nonce && IsLatest(all, nonce, tx)
    && tx.to == cfg.multisend && tx.data == cfg.codec.encodeMulti(chunk)
  }

  lemma CarriedCalls(cfg: Config, all: set<Tx>, tx: Tx, nonce: nat, chunk: seq<Call>)
    requires Lawful(cfg) && DistinctKeys(all) && Carries(cfg, all, tx, nonce, chunk)
    ensures CallsAt(cfg, all, nonce) == UnwrapAll(cfg, chunk)
  {
    CallsAtLatest(cfg, all, tx);
  }

  /** The new proposals, newer than all others, are the latest at their nonces. */
  lemma {:induction false} NewProposalsDecode(cfg: Config, all: set<Tx>, txs: seq<Tx>, chunks: seq<seq<Call>>, first: nat, mid: nat)
    requires Lawful(cfg) && DistinctKeys(all) && |txs| == |chunks| && mid == first + |chunks|
    requires AllCarried(cfg, all, txs, chunks, first)
    ensures ByNonce(cfg, all, first, mid) == UnwrapChunks(cfg, chunks)
    decreases |chunks|
  {
    if chunks != [] {
      assert Carries(cfg, all, txs[0], first + 0, chunks[0]);
      CarriedCalls(cfg, all, txs[0], first, chunks[0]);
      AllCarriedTail(cfg, all, txs, chunks, first, first + 1);
      NewProposalsDecode(cfg, all, txs[1..], chunks[1..], first + 1, mid);
    }
  }

  ghost predicate AllCarried(cfg: Config, all: set<Tx>, txs: seq<Tx>, chunks: seq<seq<Call>>, first: nat)
    requires |txs| == |chunks|
  {
    forall i :: 0 <= i < |txs| ==> Carries(cfg, all, txs[i], first + i, chunks[i])
  }

  lemma AllCarriedTail(cfg: Config, all: set<Tx>, txs: seq<Tx>, chunks: seq<seq<Call>>, first: nat, next: nat)
    requires |txs| == |chunks| && txs != [] && next == first + 1 && AllCarried(cfg, all, txs, chunks, first)
    ensures AllCarried(cfg, all, txs[1..], chunks[1..], next)
  {
    forall i | 0 <= i < |txs[1..]| ensures Carries(cfg, all, txs[1..][i], next + i, chunks[1..][i]) {
      assert Carries(cfg, all, txs[i + 1], first + (i + 1), chunks[i + 1]);
    }
  }

  /** After proposing a batch at consecutive nonces, decoding gives, at these nonces, the
      batch's calls in order, and at all other nonces what it gave before, even where
      older proposals share the nonces. */
  lemma BatchDecodes(cfg: Config, pending: seq<Tx>, metas: seq<Call>, first: nat, mid: nat, now: int, hi: nat, batch: seq<Tx>)
    requires Lawful(cfg) && 1 <= cfg.chunkSize && Older(pending, now)
    requires batch == BatchOf(cfg, metas, first, now)
    requires first + |batch| == mid <= hi && NoncesIn(pending, 0, hi)
    ensures Decoded(cfg, pending + batch) ==
      ByNonce(cfg, ToSet(pending), 0, first) + UnwrapAll(cfg, metas) + ByNonce(cfg, ToSet(pending), mid, hi)
  {
    WithBatch(cfg, pending, metas, first, now, batch);
    OtherNonces(pending, batch, first);
    MiddleNonces(cfg, pending, metas, first, mid, now, batch);
    DecodedReplaced(cfg, pending + batch, ToSet(pending), UnwrapAll(cfg, metas), first, mid, hi);
  }

  lemma DecodedReplaced(cfg: Config, all: seq<Tx>, s: set<Tx>, calls: seq<Call>, first: nat, mid: nat, hi: nat)
    requires first <= mid <= hi && DistinctKeys(s) && DistinctKeys(ToSet(all)) && Distinct(all) && NoncesIn(all, 0, hi)
    requires forall n: nat :: n < first || mid <= n ==> SameLatest(s, ToSet(all), n)
    requires ByNonce(cfg, ToSet(all), first, mid) == calls
    ensures Decoded(cfg, all) == ByNonce(cfg, s, 0, first) + calls + ByNonce(cfg, s, mid, hi)
  {
    DecodedByNonce(cfg, all, hi);
    ByNonceReplaced(cfg, s, ToSet(all), calls, first, mid, hi);
  }

  /** Sets that agree outside a range of nonces decode alike outside that range. */
  lemma ByNonceReplaced(cfg: Config, s: set<Tx>, t: set<Tx>, calls: seq<Call>, first: nat, mid: nat, hi: nat)
    requires first <= mid <= hi && DistinctKeys(s) && DistinctKeys(t)
    requires forall n: nat :: n < first || mid <= n ==> SameLatest(s, t, n)
    requires ByNonce(cfg, t, first, mid) == calls
    ensures ByNonce(cfg, t, 0, hi) == ByNonce(cfg, s, 0, first) + calls + ByNonce(cfg, s, mid, hi)
  {
    ByNonceSame(cfg, s, t, 0, first);
    ByNonceSame(cfg, s, t, mid, hi);
    ByNonceSplit(cfg, t, 0, first, hi);
    ByNonceSplit(cfg, t, first, mid, hi);
    Associate(ByNonce(cfg, s, 0, first), calls, ByNonce(cfg, s, mid, hi));
  }

  lemma WithBatch(cfg: Config, pending: seq<Tx>, metas: seq<Call>, first: nat, now: int, batch: seq<Tx>)
    requires Older(pending, now) && batch == BatchOf(cfg, metas, first, now)
    ensures DistinctKeys(ToSet(pending + batch)) && Distinct(pending + batch)
    ensures forall tx :: tx in pending + batch ==> tx in pending || (now <= tx.date && first <= tx.nonce < first + |batch|)
  {
    assert forall tx :: tx in batch ==> now <= tx.date && first <= tx.nonce < first + |batch|;
    DistinctConcat(pending, batch);
  }

  lemma OtherNonces(pending: seq<Tx>, batch: seq<Tx>, first: nat)
    requires forall tx :: tx in pending + batch ==> tx in pending || first <= tx.nonce < first + |batch|
    ensures forall n: nat :: n < first || first + |batch| <= n ==> SameLatest(ToSet(pending), ToSet(pending + batch), n)
  {
    forall n: nat | n < first || first + |batch| <= n ensures SameLatest(ToSet(pending), ToSet(pending + batch), n) {
      OtherNonce(pending, batch, n);
    }
  }

  lemma OtherNonce(pending: seq<Tx>, batch: seq<Tx>, n: nat)
    requires forall tx :: tx in pending + batch ==> tx in pending || tx.nonce != n
    ensures SameLatest(ToSet(pending), ToSet(pending + batch), n)
  {
    assert forall tx :: tx in pending ==> tx in pending + batch;
  }

  lemma MiddleNonces(cfg: Config, pending: seq<Tx>, metas: seq<Call>, first: nat, mid: nat, now: int, batch: seq<Tx>)
    requires Lawful(cfg) && 1 <= cfg.chunkSize && Older(pending, now) && batch == BatchOf(cfg, metas, first, now)
    requires mid == first + |batch|
    ensures ByNonce(cfg, ToSet(pending + batch), first, mid) == UnwrapAll(cfg, metas)
  {
    WithBatch(cfg, pending, metas, first, now, batch);
    AllCarry(cfg, pending, metas, first, now, batch);
    CarriedBatch(cfg, ToSet(pending + batch), batch, metas, Chunk(metas, cfg.chunkSize), first, mid);
  }

  lemma AllCarry(cfg: Config, pending: seq<Tx>, metas: seq<Call>, first: nat, now: int, batch: seq<Tx>)
    requires Older(pending, now) && batch == BatchOf(cfg, metas, first, now)
    ensures var chunks := Chunk(metas, cfg.chunkSize);
      forall i :: 0 <= i < |batch| ==> Carries(cfg, ToSet(pending + batch), batch[i], first + i, chunks[i])
  {
    forall i | 0 <= i < |batch|
      ensures Carries(cfg, ToSet(pending + batch), batch[i], first + i, Chunk(metas, cfg.chunkSize)[i])
    {
      NewIsLatest(cfg, pending, metas, first, now, batch, i);
    }
  }

  lemma CarriedBatch(cfg: Config, all: set<Tx>, batch: seq<Tx>, metas: seq<Call>, chunks: seq<seq<Call>>, first: nat, mid: nat)
    requires Lawful(cfg) && 1 <= cfg.chunkSize && DistinctKeys(all) && chunks == Chunk(metas, cfg.chunkSize)
    requires |batch| == |chunks| && mid == first + |batch| && AllCarried(cfg, all, batch, chunks, first)
    ensures ByNonce(cfg, all, first, mid) == UnwrapAll(cfg, metas)
  {
    NewProposalsDecode(cfg, all, batch, chunks, first, mid);
    UnwrapConcat(cfg, chunks);
    ChunksConcatenate(metas, cfg.chunkSize);
  }

  lemma NewIsLatest(cfg: Config, pending: seq<Tx>, metas: seq<Call>, first: nat, now: int, batch: seq<Tx>, i: nat)
    requires i < |batch| && batch == BatchOf(cfg, metas, first, now) && Older(pending, now)
    ensures IsLatest(ToSet(pending + batch), first + i, batch[i])
  {
    assert batch[i] in batch;
    forall u | u in pending + batch && u.nonce == first + i ensures u.date <= batch[i].date {
      if u in batch {
        var j :| 0 <= j < |batch| && batch[j] == u;
      }
    }
  }

  /** A wrapped call is taken apart into the call itself. */
  lemma UnwrapWrap(cfg: Config, call: Call, executionTime: string)
    requires Lawful(cfg)
    ensures Unwrap(cfg, Wrap(cfg, call, executionTime)) == call
  {
    var op, action := cfg.operation, Action(call.to, call.data, executionTime);
    assert SelectorOf(cfg.codec.encodeCall(op, action)) == Some(Selector(op));
  }

  lemma UnwrapSnoc(cfg: Config, calls: seq<Call>, call: Call)
    ensures UnwrapAll(cfg, calls + [call]) == UnwrapAll(cfg, calls) + [Unwrap(cfg, call)]
  {
  }

  lemma {:induction false} UnwrapWrapAll(cfg: Config, calls: seq<Call>, times: seq<Option<string>>, clock: nat -> string, n: nat)
    requires Lawful(cfg) && n <= |calls|
    ensures UnwrapAll(cfg, WrapAll(cfg, calls, times, clock, n)) == calls[..n]
  {
    if n > 0 {
      UnwrapWrapAll(cfg, calls, times, clock, n - 1);
      var time := TimeOf(times, clock, n - 1);
      UnwrapWrap(cfg, calls[n - 1], time);
      UnwrapSnoc(cfg, WrapAll(cfg, calls, times, clock, n - 1), Wrap(cfg, calls[n - 1], time));
      assert calls[..n] == calls[..n - 1] + [calls[n - 1]];
    }
  }

  /** The round trip through the timelock: decoding after a dry run gives back exactly
      the calls, in order, between what the lower and the higher nonces gave before. */
  lemma TimeLockRoundTrip(cfg: Config, pending: seq<Tx>, calls: seq<Call>, times: seq<Option<string>>,
                          clock: nat -> string, first: nat, mid: nat, now: int, hi: nat, batch: seq<Tx>)
    requires Lawful(cfg) && 1 <= cfg.chunkSize && Older(pending, now)
    requires batch == BatchOf(cfg, WrapAll(cfg, calls, times, clock, |calls|), first, now)
    requires first + |batch| == mid <= hi && NoncesIn(pending, 0, hi)
    ensures Decoded(cfg, pending + batch) ==
      ByNonce(cfg, ToSet(pending), 0, first) + calls + ByNonce(cfg, ToSet(pending), mid, hi)
  {
    var metas := WrapAll(cfg, calls, times, clock, |calls|);
    UnwrapWrapAll(cfg, calls, times, clock, |calls|);
    assert UnwrapAll(cfg, metas) == calls by { assert calls[..|calls|] == calls; }
    BatchDecodes(cfg, pending, metas, first, mid, now, hi, batch);
  }

  /** A call the decoder takes apart: one of the timelock, with a selector of its table. */
  predicate IsTimeLockCall(cfg: Config, call: Call)
  {
    call.to == cfg.timeLock && FunctionOf(call.data).Some?
  }

  /** Taking apart changes exactly the timelock calls. */
  lemma UnwrapChanges(cfg: Config, call: Call)
    requires Lawful(cfg)
    ensures Unwrap(cfg, call) == call <==> !IsTimeLockCall(cfg, call)
  {
    var found := FunctionOf(call.data);
    if call.to == cfg.timeLock && found.Some? {
      assert call.data != "";
      assert |cfg.codec.decodeAction(found.value, call.data).data| < |call.data|;
    }
  }

  /** Without a timelock in between, the round trip gives back the calls exactly if none
      of them is itself a timelock call. */
  lemma SafeRoundTrip(cfg: Config, pending: seq<Tx>, calls: seq<Call>, first: nat, mid: nat, now: int, hi: nat, batch: seq<Tx>)
    requires Lawful(cfg) && 1 <= cfg.chunkSize && Older(pending, now)
    requires batch == BatchOf(cfg, calls, first, now)
    requires first + |batch| == mid <= hi && NoncesIn(pending, 0, hi)
    ensures (Decoded(cfg, pending + batch) ==
        ByNonce(cfg, ToSet(pending), 0, first) + calls + ByNonce(cfg, ToSet(pending), mid, hi))
      <==> forall i :: 0 <= i < |calls| ==> !IsTimeLockCall(cfg, calls[i])
  {
    BatchDecodes(cfg, pending, calls, first, mid, now, hi, batch);
    MiddleEqual(ByNonce(cfg, ToSet(pending), 0, first), UnwrapAll(cfg, calls), calls,
                ByNonce(cfg, ToSet(pending), mid, hi));
    UnwrapAllChanges(cfg, calls);
  }

  lemma UnwrapAllChanges(cfg: Config, calls: seq<Call>)
    requires Lawful(cfg)
    ensures UnwrapAll(cfg, calls) == calls <==> forall i :: 0 <= i < |calls| ==> !IsTimeLockCall(cfg, calls[i])
  {
    forall i | 0 <= i < |calls| ensures UnwrapAll(cfg, calls)[i] == calls[i] <==> !IsTimeLockCall(cfg, calls[i]) {
      UnwrapChanges(cfg, calls[i]);
    }
    if UnwrapAll(cfg, calls) == calls {
      assert forall i :: 0 <= i < |calls| ==> UnwrapAll(cfg, calls)[i] == calls[i];
    }
  }

  // ---------- single proposals ----------

  /** A newest proposal is the latest at its nonce and changes no other nonce. */
  lemma WithOne(pending: seq<Tx>, tx: Tx)
    requires Older(pending, tx.date)
    ensures DistinctKeys(ToSet(pending + [tx])) && Distinct(pending + [tx])
    ensures IsLatest(ToSet(pending + [tx]), tx.nonce, tx)
    ensures forall n: nat :: n != tx.nonce ==> SameLatest(ToSet(pending), ToSet(pending + [tx]), n)
  {
    DistinctConcat(pending, [tx]);
    forall n: nat | n != tx.nonce ensures SameLatest(ToSet(pending), ToSet(pending + [tx]), n) {
      OtherNonce(pending, [tx], n);
    }
  }

  lemma OneNonce(cfg: Config, s: set<Tx>, n: nat, mid: nat)
    requires mid == n + 1
    ensures ByNonce(cfg, s, n, mid) == CallsAt(cfg, s, n)
  {
    assert ByNonce(cfg, s, mid, mid) == [];
  }

  /** Decoding after one more proposal, between what the lower and the higher nonces gave
      before. */
  lemma OneDecodes(cfg: Config, pending: seq<Tx>, tx: Tx, mid: nat, hi: nat)
    requires Older(pending, tx.date) && mid == tx.nonce + 1 <= hi && NoncesIn(pending, 0, hi)
    ensures Decoded(cfg, pending + [tx]) ==
      ByNonce(cfg, ToSet(pending), 0, tx.nonce) + Expand(cfg, tx) + ByNonce(cfg, ToSet(pending), mid, hi)
  {
    WithOne(pending, tx);
    CallsAtLatest(cfg, ToSet(pending + [tx]), tx);
    OneNonce(cfg, ToSet(pending + [tx]), tx.nonce, mid);
    DecodedReplaced(cfg, pending + [tx], ToSet(pending), Expand(cfg, tx), tx.nonce, mid, hi);
  }

  /** A single call through the timelock comes back. */
  lemma SingleTimeLockRoundTrip(cfg: Config, pending: seq<Tx>, call: Call, executionTime: string,
                                nonce: nat, mid: nat, now: int, hi: nat)
    requires Lawful(cfg) && cfg.timeLock != cfg.multisend
    requires Older(pending, now) && mid == nonce + 1 <= hi && NoncesIn(pending, 0, hi)
    ensures var wrapped := Wrap(cfg, call, executionTime);
      Decoded(cfg, pending + [Tx(nonce, now, wrapped.to, wrapped.data)]) ==
        ByNonce(cfg, ToSet(pending), 0, nonce) + [call] + ByNonce(cfg, ToSet(pending), mid, hi)
  {
    var wrapped := Wrap(cfg, call, executionTime);
    var tx := Tx(nonce, now, wrapped.to, wrapped.data);
    WrappedExpands(cfg, call, executionTime, tx);
    OneDecodes(cfg, pending, tx, mid, hi);
  }

  lemma WrappedExpands(cfg: Config, call: Call, executionTime: string, tx: Tx)
    requires Lawful(cfg) && cfg.timeLock != cfg.multisend
    requires tx.to == cfg.timeLock && tx.data == Wrap(cfg, call, executionTime).data
    ensures Expand(cfg, tx) == [call]
  {
    UnwrapWrap(cfg, call, executionTime);
    assert SelectorOf(tx.data) == Some(Selector(cfg.operation));
  }

  /** A single call proposed as it is comes back exactly if it has data, is not made to
      multisend and is no timelock call. */
  lemma SingleRoundTrip(cfg: Config, pending: seq<Tx>, call: Call, nonce: nat, mid: nat, now: int, hi: nat)
    requires Lawful(cfg) && Older(pending, now) && mid == nonce + 1 <= hi && NoncesIn(pending, 0, hi)
    ensures (Decoded(cfg, pending + [Tx(nonce, now, call.to, call.data)]) ==
        ByNonce(cfg, ToSet(pending), 0, nonce) + [call] + ByNonce(cfg, ToSet(pending), mid, hi))
      <==> call.data != "" && call.to != cfg.multisend && !IsTimeLockCall(cfg, call)
  {
    var tx := Tx(nonce, now, call.to, call.data);
    OneDecodes(cfg, pending, tx, mid, hi);
    BetweenEqual(ByNonce(cfg, ToSet(pending), 0, nonce), Expand(cfg, tx), [call], ByNonce(cfg, ToSet(pending), mid, hi));
    SingleExpands(cfg, tx, call);
  }

  lemma BetweenEqual(a: seq<Call>, m: seq<Call>, n: seq<Call>, b: seq<Call>)
    ensures a + m + b == a + n + b <==> m == n
  {
    if a + m + b == a + n + b {
      assert |m| == |n|;
      MiddleEqual(a, m, n, b);
    }
  }

  lemma SingleExpands(cfg: Config, tx: Tx, call: Call)
    requires Lawful(cfg) && tx.to == call.to && tx.data == call.data
    ensures Expand(cfg, tx) == [call] <==> call.data != "" && call.to != cfg.multisend && !IsTimeLockCall(cfg, call)
  {
    UnwrapChanges(cfg, call);
    assert Call(tx.to, tx.data) == call && UnwrapAll(cfg, [call]) == [Unwrap(cfg, call)];
    if call.data != "" && call.to == cfg.multisend && Expand(cfg, tx) == [call] {
      var inner := cfg.codec.decodeMulti(call.data);
      assert |inner| == 1 && Unwrap(cfg, inner[0]) == Expand(cfg, tx)[0];
      assert |inner[0].data| < |call.data|;
      UnwrapShorter(cfg, inner[0]);
      assert false;
    }
  }

  lemma UnwrapShorter(cfg: Config, call: Call)
    requires Lawful(cfg)
    ensures |Unwrap(cfg, call).data| <= |call.data|
  {
    var found := FunctionOf(call.data);
    if call.to == cfg.timeLock && found.Some? {
      assert |cfg.codec.decodeAction(found.value, call.data).data| < |call.data|;
    }
  }

  /** The i-th wrapped call asks the timelock for the configured operation on the i-th
      call, at the time given for it or, without one, at the clock's. */
  lemma WrapAllCarries(cfg: Config, calls: seq<Call>, times: seq<Option<string>>, clock: nat -> string, n: nat, i: nat)
    requires Lawful(cfg) && i < n <= |calls|
    ensures |WrapAll(cfg, calls, times, clock, n)| == n
    ensures var wrapped := WrapAll(cfg, calls, times, clock, n)[i];
      var action := cfg.codec.decodeAction(Operate(cfg.operation), wrapped.data);
      && wrapped.to == cfg.timeLock
      && FunctionOf(wrapped.data) == Some(Operate(cfg.operation))
      && action.target == calls[i].to && action.data == calls[i].data
      && (i < |times| && times[i].Some? && times[i].value != "" ==> action.executionTime == times[i].value)
      && (i >= |times| || times[i] == None || times[i] == Some("") ==> action.executionTime == clock(i))
  {
    WrapAllAt(cfg, calls, times, clock, n, i);
    WrapCarries(cfg, calls[i], TimeOf(times, clock, i));
  }

  lemma WrapCarries(cfg: Config, call: Call, time: string)
    requires Lawful(cfg)
    ensures var wrapped := Wrap(cfg, call, time);
      && wrapped.to == cfg.timeLock
      && FunctionOf(wrapped.data) == Some(Operate(cfg.operation))
      && cfg.codec.decodeAction(Operate(cfg.operation), wrapped.data) == Action(call.to, call.data, time)
  {
    var action := Action(call.to, call.data, time);
    assert SelectorOf(cfg.codec.encodeCall(cfg.operation, action)) == Some(Selector(cfg.operation));
  }

  lemma {:induction false} WrapAllAt(cfg: Config, calls: seq<Call>, times: seq<Option<string>>, clock: nat -> string, n: nat, i: nat)
    requires i < n <= |calls|
    ensures |WrapAll(cfg, calls, times, clock, n)| == n
    ensures WrapAll(cfg, calls, times, clock, n)[i] == Wrap(cfg, calls[i], TimeOf(times, clock, i))
  {
    if n > 1 { WrapAllAt(cfg, calls, times, clock, n - 1, if i < n - 1 then i else 0); }
  }

  /** A call wrapped for the timelock by hand and proposed in Safe mode does not come back:
      decoding gives the call inside. */
  lemma WrappedInSafeMode(cfg: Config, call: Call, executionTime: string, nonce: nat, now: int)
    requires Lawful(cfg) && 1 <= cfg.chunkSize
    ensures var wrapped := Wrap(cfg, call, executionTime);
      && Decoded(cfg, BatchOf(cfg, [wrapped], nonce, now)) == [call]
      && call != wrapped
  {
    var wrapped := Wrap(cfg, call, executionTime);
    AloneDecodes(cfg, [wrapped], nonce, now);
    UnwrapWrap(cfg, call, executionTime);
    WrappedIsTimeLockCall(cfg, call, executionTime);
    UnwrapChanges(cfg, wrapped);
  }

  /** A batch with nothing else pending decodes to its calls, taken apart. */
  lemma AloneDecodes(cfg: Config, metas: seq<Call>, nonce: nat, now: int)
    requires Lawful(cfg) && 1 <= cfg.chunkSize
    ensures Decoded(cfg, BatchOf(cfg, metas, nonce, now)) == UnwrapAll(cfg, metas)
  {
    var batch := BatchOf(cfg, metas, nonce, now);
    var hi := nonce + |batch|;
    var none: seq<Tx> := [];
    BatchDecodes(cfg, none, metas, nonce, hi, now, hi, batch);
    NothingAround(cfg, none, nonce, hi, UnwrapAll(cfg, metas));
    assert none + batch == batch;
  }

  lemma NothingAround(cfg: Config, none: seq<Tx>, lo: nat, hi: nat, calls: seq<Call>)
    requires none == []
    ensures ByNonce(cfg, ToSet(none), 0, lo) + calls + ByNonce(cfg, ToSet(none), hi, hi) == calls
  {
    NothingFrom(cfg, ToSet(none), 0, lo);
  }

  lemma WrappedIsTimeLockCall(cfg: Config, call: Call, executionTime: string)
    requires Lawful(cfg)
    ensures IsTimeLockCall(cfg, Wrap(cfg, call, executionTime))
  {
    var data := Wrap(cfg, call, executionTime).data;
    assert SelectorOf(data) == Some(Selector(cfg.operation));
  }

  lemma MiddleEqual(a: seq<Call>, m: seq<Call>, n: seq<Call>, b: seq<Call>)
    requires |m| == |n|
    ensures a + m + b == a + n + b <==> m == n
  {
    assert m == (a + m + b)[|a|..|a| + |m|];
    assert n == (a + n + b)[|a|..|a| + |n|];
  }

  /** Proposing and decoding, as a run: what the service holds afterwards decodes to the
      calls, wherever the nonces come from, between what was pending at lower and at
      higher nonces; with fresh nonces, after all that was pending. */
  method ProposeThenDecode(cfg: Config, service: SafeService, calls: seq<Call>,
                           executionTime: seq<Option<string>>, clock: nat -> string)
    returns (txs: seq<Call>, ghost first: nat, ghost mid: nat, ghost hi: nat, ghost lower: seq<Call>, ghost higher: seq<Call>)
    requires service.Valid() && Lawful(cfg) && 1 <= cfg.chunkSize
    modifies service
    ensures service.Valid() && |service.pending| == |old(service.pending)| + mid - first
    ensures first == FirstNonce(cfg, None, old(service.pending), service.safeNonce)
    ensures first <= mid <= hi && NoncesIn(old(service.pending), 0, hi)
    ensures txs == lower + calls + higher
    ensures lower == ByNonce(cfg, ToSet(old(service.pending)), 0, first)
    ensures higher == ByNonce(cfg, ToSet(old(service.pending)), mid, hi)
    ensures OrElse(None, cfg.multiSigNonce).None? ==> lower == Decoded(cfg, old(service.pending)) && higher == []
  {
    ghost var pending, now := service.pending, service.now;
    first := FirstNonce(cfg, None, pending, service.safeNonce);
    ghost var batch := BatchOf(cfg, WrapAll(cfg, calls, executionTime, clock, |calls|), first, now);
    DryRunMultipleEncodedData(cfg, service, true, calls, executionTime, clock);
    txs := DecodeSafeTxs(cfg, service.pending);
    mid, hi := first + |batch|, NextNonce(pending, first + |batch|);
    lower, higher := RunRoundTrip(cfg, pending, calls, executionTime, clock, first, mid, hi, now, batch, txs);
  }

  lemma RunRoundTrip(cfg: Config, pending: seq<Tx>, calls: seq<Call>, times: seq<Option<string>>, clock: nat -> string,
                     first: nat, mid: nat, hi: nat, now: int, batch: seq<Tx>, txs: seq<Call>)
    returns (lower: seq<Call>, higher: seq<Call>)
    requires Lawful(cfg) && 1 <= cfg.chunkSize && Older(pending, now) && txs == Decoded(cfg, pending + batch)
    requires batch == BatchOf(cfg, WrapAll(cfg, calls, times, clock, |calls|), first, now)
    requires first + |batch| == mid <= hi && NoncesIn(pending, 0, hi)
    ensures txs == lower + calls + higher
    ensures lower == ByNonce(cfg, ToSet(pending), 0, first)
    ensures higher == ByNonce(cfg, ToSet(pending), mid, hi)
    ensures NoncesIn(pending, 0, first) ==> lower == Decoded(cfg, pending) && higher == []
  {
    lower, higher := ByNonce(cfg, ToSet(pending), 0, first), ByNonce(cfg, ToSet(pending), mid, hi);
    TimeLockRoundTrip(cfg, pending, calls, times, clock, first, mid, now, hi, batch);
    if NoncesIn(pending, 0, first) {
      NothingAbove(cfg, pending, first, mid, hi);
    }
  }

  lemma NothingAbove(cfg: Config, pending: seq<Tx>, first: nat, mid: nat, hi: nat)
    requires DistinctKeys(ToSet(pending)) && Distinct(pending) && NoncesIn(pending, 0, first) && first <= mid
    ensures ByNonce(cfg, ToSet(pending), 0, first) == Decoded(cfg, pending)
    ensures ByNonce(cfg, ToSet(pending), mid, hi) == []
  {
    DecodedByNonce(cfg, pending, first);
    NothingFrom(cfg, ToSet(pending), mid, hi);
  }

  lemma {:induction false} NothingFrom(cfg: Config, s: set<Tx>, lo: nat, hi: nat)
    requires forall tx :: tx in s ==> tx.nonce < lo
    ensures ByNonce(cfg, s, lo, hi) == []
    decreases hi - lo
  {
    if lo < hi {
      SkipNonce(cfg, s, lo, hi);
      NothingFrom(cfg, s, lo + 1, hi);
    }
  }
}
