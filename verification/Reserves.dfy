/**
 Initialising reserves: strategies deployed once per name, token implementations once
 per kind, parallel lists, chunks, and the inputs handed to the configurator.
 */
module Reserves {
  import opened Sequences
  import opened Arithmetic

  type Address = string

  const ZERO_ADDRESS := "0x0000000000000000000000000000000000000000"

  // ---------- strategies ----------

  datatype Strategy = Strategy(name: string, params: seq<int>)

  /** The address of the k-th strategy deployed; never empty. */
  type Deployer = (Strategy, nat) -> Address

  ghost predicate Deploys(d: Deployer)
  {
    forall s, k :: d(s, k) != ""
  }

  /** Why a table holds an address under a name: it is the zero address, the default, or
      the address of a deployment under this name. */
  ghost predicate Explained(zeroName: string, default: Address, d: Deployer, deployed: seq<Strategy>, name: string, a: Address)
  {
    if name == zeroName then a == ZERO_ADDRESS
    else if default != "" then a == default
    else exists k :: 0 <= k < |deployed| && DeployedAs(d, deployed, k, name, a)
  }

  ghost predicate DeployedAs(d: Deployer, deployed: seq<Strategy>, k: nat, name: string, a: Address)
    requires k < |deployed|
  {
    deployed[k].name == name && a == d(deployed[k], k)
  }

  lemma StillExplained(zeroName: string, default: Address, d: Deployer, deployed: seq<Strategy>, s: Strategy, name: string, a: Address)
    requires Explained(zeroName, default, d, deployed, name, a)
    ensures Explained(zeroName, default, d, deployed + [s], name, a)
  {
    if name != zeroName && default == "" {
      var k :| 0 <= k < |deployed| && DeployedAs(d, deployed, k, name, a);
      assert DeployedAs(d, deployed + [s], k, name, a);
    }
  }

  /** One of the three memo tables: addresses by strategy name. */
  class StrategyTable {
    const zeroName: string
    const default: Address // empty if none is given
    const deployer: Deployer
    var addresses: map<string, Address>
    var deployed: seq<Strategy>

    /** Every entry is explained, every deployment is entered under its name, and no name
        was deployed twice. */
    ghost predicate Valid()
      reads this
    {
      && Deploys(deployer)
      && (forall n :: n in addresses ==> addresses[n] != "" && Explained(zeroName, default, deployer, deployed, n, addresses[n]))
      && (forall k :: 0 <= k < |deployed| ==> deployed[k].name in addresses)
      && (forall j, k :: 0 <= j < k < |deployed| ==> deployed[j].name != deployed[k].name)
    }

    constructor (zeroName: string, default: Address, deployer: Deployer)
      requires Deploys(deployer)
      ensures Valid() && addresses == map[] && deployed == []
      ensures this.zeroName == zeroName && this.default == default && this.deployer == deployer
    {
      this.zeroName, this.default, this.deployer := zeroName, default, deployer;
      this.addresses, this.deployed := map[], [];
    }

    /** Looking up a strategy, deploying it if its name is new. */
    method Resolve(s: Strategy)
      requires Valid()
      modifies this
      ensures Valid() && s.name in addresses
      ensures addresses.Keys == old(addresses.Keys) + {s.name}
      ensures forall n :: n in old(addresses) ==> addresses[n] == old(addresses)[n]
      ensures deployed == old(deployed) +
        if s.name in old(addresses) || s.name == zeroName || default != "" then [] else [s]
    {
      if s.name !in addresses {
        if s.name == zeroName {
          addresses := addresses[s.name := ZERO_ADDRESS];
        } else if default != "" {
          addresses := addresses[s.name := default];
        } else {
          Deployment(s);
        }
      }
    }

    method Deployment(s: Strategy)
      requires Valid() && s.name !in addresses && s.name != zeroName && default == ""
      modifies this
      ensures Valid() && deployed == old(deployed) + [s]
      ensures addresses == old(addresses)[s.name := deployer(s, |old(deployed)|)]
    {
      ghost var before := deployed;
      forall n | n in addresses ensures Explained(zeroName, default, deployer, before + [s], n, addresses[n]) {
        StillExplained(zeroName, default, deployer, before, s, n, addresses[n]);
      }
      addresses := addresses[s.name := deployer(s, |deployed|)];
      deployed := deployed + [s];
      assert DeployedAs(deployer, deployed, |before|, s.name, addresses[s.name]);
    }
  }

  /** Without a memo table: what a strategy's own deployment would give, if deploying is a
      function of the strategy. */
  function Direct(zeroName: string, default: Address, deploy: Strategy -> Address, s: Strategy): Address
  {
    if s.name == zeroName then ZERO_ADDRESS else if default != "" then default else deploy(s)
  }

  /** Equal names, equal parameters. */
  ghost predicate NamesDetermine(strategies: set<Strategy>)
  {
    forall s, t :: s in strategies && t in strategies && s.name == t.name ==> s == t
  }

  ghost predicate DeployedFrom(deployed: seq<Strategy>, strategies: set<Strategy>)
  {
    forall s :: s in deployed ==> s in strategies
  }

  /** The memo table refines deploying for every reserve: if deploying is a function of
      the strategy and names determine strategies, every entry is what the strategy's own
      deployment would give. */
  lemma MemoIsDirect(t: StrategyTable, deploy: Strategy -> Address, s: Strategy, strategies: set<Strategy>)
    requires t.Valid() && s.name in t.addresses
    requires forall u, k :: t.deployer(u, k) == deploy(u)
    requires DeployedFrom(t.deployed, strategies) && s in strategies && NamesDetermine(strategies)
    ensures t.addresses[s.name] == Direct(t.zeroName, t.default, deploy, s)
  {
    var a := t.addresses[s.name];
    assert Explained(t.zeroName, t.default, t.deployer, t.deployed, s.name, a);
    if s.name != t.zeroName && t.default == "" {
      var k :| 0 <= k < |t.deployed| && DeployedAs(t.deployer, t.deployed, k, s.name, a);
      assert t.deployed[k] in t.deployed;
    }
  }

  // ---------- symbols and token kinds ----------

  /** The symbols the script treats specially. */
  datatype Symbol =
    | StETH | StDOT | AWETH | AwstETH | AUSDC | AstETH | SAPE | CAPE | YAPE
    | MOONBIRD | UniswapV3 | BAYC | MAYC | BAKC | OTHR | SFVLDR | BLOCKS
    | Other(name: string)

  datatype XTokenType = Generic | Nft | DelegationAware

  /** The implementation variables of the script. */
  datatype Kind =
    | PTokenStETH | PTokenStKSM | PTokenAToken | PTokenAStETH | PTokenSApe | PTokenPsApe | PYieldToken | PToken
    | NTokenMoonBird | NTokenUniSwapV3 | NTokenBAYC | NTokenMAYC | NTokenBAKC | NTokenOTHR | NTokenStakefish
    | NTokenBlocks | NToken | DelegationAwarePToken
    | DebtStETH | DebtStKSM | DebtAToken | DebtAstETH | DebtPsApe | Debt

  function XTokenKind(t: XTokenType, s: Symbol): Kind
  {
    match t
    case Generic =>
      (match s
       case StETH => PTokenStETH
       case StDOT => PTokenStKSM
       case AWETH => PTokenAToken
       case AwstETH => PTokenAToken
       case AUSDC => PTokenAToken
       case AstETH => PTokenAStETH
       case SAPE => PTokenSApe
       case CAPE => PTokenPsApe
       case YAPE => PYieldToken
       case _ => PToken)
    case Nft =>
      (match s
       case MOONBIRD => NTokenMoonBird
       case UniswapV3 => NTokenUniSwapV3
       case BAYC => NTokenBAYC
       case MAYC => NTokenMAYC
       case BAKC => NTokenBAKC
       case OTHR => NTokenOTHR
       case SFVLDR => NTokenStakefish
       case BLOCKS => NTokenBlocks
       case _ => NToken)
    case DelegationAware => DelegationAwarePToken
  }

  function DebtKind(t: XTokenType, s: Symbol): Kind
  {
    if !t.Generic? then Debt
    else match s
      case StETH => DebtStETH
      case StDOT => DebtStKSM
      case AWETH => DebtAToken
      case AwstETH => DebtAToken
      case AUSDC => DebtAToken
      case AstETH => DebtAstETH
      case CAPE => DebtPsApe
      case _ => Debt
  }

  /** Read from the kinds: which tokens get which implementation. */
  lemma XTokenKinds(t: XTokenType, s: Symbol)
    ensures XTokenKind(t, s) == PTokenStETH <==> t == Generic && s == StETH
    ensures XTokenKind(t, s) == PTokenStKSM <==> t == Generic && s == StDOT
    ensures XTokenKind(t, s) == PTokenAToken <==> t == Generic && s in {AWETH, AwstETH, AUSDC}
    ensures XTokenKind(t, s) == PTokenAStETH <==> t == Generic && s == AstETH
    ensures XTokenKind(t, s) == PTokenSApe <==> t == Generic && s == SAPE
    ensures XTokenKind(t, s) == PTokenPsApe <==> t == Generic && s == CAPE
    ensures XTokenKind(t, s) == PYieldToken <==> t == Generic && s == YAPE
    ensures XTokenKind(t, s) == PToken <==>
      t == Generic && s !in {StETH, StDOT, AWETH, AwstETH, AUSDC, AstETH, SAPE, CAPE, YAPE}
    ensures XTokenKind(t, s) == NTokenMoonBird <==> t == Nft && s == MOONBIRD
    ensures XTokenKind(t, s) == NTokenUniSwapV3 <==> t == Nft && s == UniswapV3
    ensures XTokenKind(t, s) == NTokenBAYC <==> t == Nft && s == BAYC
    ensures XTokenKind(t, s) == NTokenMAYC <==> t == Nft && s == MAYC
    ensures XTokenKind(t, s) == NTokenBAKC <==> t == Nft && s == BAKC
    ensures XTokenKind(t, s) == NTokenOTHR <==> t == Nft && s == OTHR
    ensures XTokenKind(t, s) == NTokenStakefish <==> t == Nft && s == SFVLDR
    ensures XTokenKind(t, s) == NTokenBlocks <==> t == Nft && s == BLOCKS
    ensures XTokenKind(t, s) == NToken <==>
      t == Nft && s !in {MOONBIRD, UniswapV3, BAYC, MAYC, BAKC, OTHR, SFVLDR, BLOCKS}
    ensures XTokenKind(t, s) == DelegationAwarePToken <==> t == DelegationAware
  {
  }

  lemma DebtKinds(t: XTokenType, s: Symbol)
    ensures DebtKind(t, s) == DebtStETH <==> t == Generic && s == StETH
    ensures DebtKind(t, s) == DebtStKSM <==> t == Generic && s == StDOT
    ensures DebtKind(t, s) == DebtAToken <==> t == Generic && s in {AWETH, AwstETH, AUSDC}
    ensures DebtKind(t, s) == DebtAstETH <==> t == Generic && s == AstETH
    ensures DebtKind(t, s) == DebtPsApe <==> t == Generic && s == CAPE
    ensures DebtKind(t, s) == Debt <==> t != Generic || s !in {StETH, StDOT, AWETH, AwstETH, AUSDC, AstETH, CAPE}
  {
  }

  /** The kinds that are deployed anew each time they are needed. */
  predicate Unmemoised(k: Kind)
  {
    k == NTokenOTHR || k == NTokenStakefish || k == NTokenBlocks
  }

  /** The kinds whose variable can start with an address the caller supplies. */
  predicate Suppliable(k: Kind)
  {
    k == PToken || k == NToken || k == DelegationAwarePToken || k == Debt
  }

  /** An address that is the supplied one of the kind or that of a deployment of the kind. */
  ghost predicate OriginIn(supplied: map<Kind, Address>, deployer: (Kind, nat) -> Address, kinds: seq<Kind>, k: Kind, a: Address)
  {
    || (k in supplied && a == supplied[k])
    || exists n :: 0 <= n < |kinds| && DeployedKind(deployer, kinds, n, k, a)
  }

  ghost predicate DeployedKind(deployer: (Kind, nat) -> Address, kinds: seq<Kind>, n: nat, k: Kind, a: Address)
    requires n < |kinds|
  {
    kinds[n] == k && a == deployer(k, n)
  }

  lemma OriginStays(supplied: map<Kind, Address>, deployer: (Kind, nat) -> Address, kinds: seq<Kind>, last: Kind)
    ensures forall k, a :: OriginIn(supplied, deployer, kinds, k, a) ==> OriginIn(supplied, deployer, kinds + [last], k, a)
    ensures OriginIn(supplied, deployer, kinds + [last], last, deployer(last, |kinds|))
  {
    assert DeployedKind(deployer, kinds + [last], |kinds|, last, deployer(last, |kinds|));
    forall k, a | OriginIn(supplied, deployer, kinds, k, a) ensures OriginIn(supplied, deployer, kinds + [last], k, a) {
      if !(k in supplied && a == supplied[k]) {
        var n :| 0 <= n < |kinds| && DeployedKind(deployer, kinds, n, k, a);
        assert DeployedKind(deployer, kinds + [last], n, k, a);
      }
    }
  }

  ghost predicate Supplied(supplied: map<Kind, Address>, k: Kind)
  {
    k in supplied && supplied[k] != ""
  }

  /** An address fit for a token of the kind: not empty, of this kind, and the one all
      tokens of the kind share unless the kind is deployed anew each time. */
  ghost predicate ServesIn(supplied: map<Kind, Address>, deployer: (Kind, nat) -> Address,
                           current: map<Kind, Address>, kinds: seq<Kind>, k: Kind, a: Address)
  {
    a != "" && OriginIn(supplied, deployer, kinds, k, a) && (!Unmemoised(k) ==> k in current && current[k] == a)
  }

  /** Every variable holds an address of its own kind, and a supplied one is kept. */
  ghost predicate OwnKinds(supplied: map<Kind, Address>, deployer: (Kind, nat) -> Address,
                           current: map<Kind, Address>, kinds: seq<Kind>)
  {
    && (forall k :: k in current && current[k] != "" ==> OriginIn(supplied, deployer, kinds, k, current[k]))
    && (forall k :: Supplied(supplied, k) ==> k in current && current[k] == supplied[k])
  }

  /** No shared kind was deployed twice, nor one whose address was supplied. */
  ghost predicate DeployedOnce(supplied: map<Kind, Address>, current: map<Kind, Address>, kinds: seq<Kind>)
  {
    && (forall n :: 0 <= n < |kinds| ==> kinds[n] in current && current[kinds[n]] != "" && !Supplied(supplied, kinds[n]))
    && (forall m, n :: 0 <= m < n < |kinds| && kinds[m] == kinds[n] ==> Unmemoised(kinds[m]))
  }

  /** May a kind be deployed? */
  predicate Missing(current: map<Kind, Address>, k: Kind)
  {
    Unmemoised(k) || k !in current || current[k] == ""
  }

  lemma OwnKindsStay(supplied: map<Kind, Address>, deployer: (Kind, nat) -> Address,
                     current: map<Kind, Address>, kinds: seq<Kind>, k: Kind)
    requires OwnKinds(supplied, deployer, current, kinds) && Missing(current, k)
    requires forall s :: s in supplied ==> Suppliable(s)
    ensures OwnKinds(supplied, deployer, current[k := deployer(k, |kinds|)], kinds + [k])
  {
    OriginStays(supplied, deployer, kinds, k);
  }

  lemma DeployedOnceStays(supplied: map<Kind, Address>, current: map<Kind, Address>, kinds: seq<Kind>, k: Kind, a: Address)
    requires DeployedOnce(supplied, current, kinds) && Missing(current, k) && a != ""
    requires forall s :: s in supplied ==> Suppliable(s)
    requires Supplied(supplied, k) ==> k in current && current[k] == supplied[k]
    ensures DeployedOnce(supplied, current[k := a], kinds + [k])
  {
  }

  lemma ServesStays(supplied: map<Kind, Address>, deployer: (Kind, nat) -> Address,
                    current: map<Kind, Address>, kinds: seq<Kind>, k: Kind)
    requires Missing(current, k) && deployer(k, |kinds|) != ""
    ensures var after := current[k := deployer(k, |kinds|)];
      && ServesIn(supplied, deployer, after, kinds + [k], k, after[k])
      && forall other, b :: ServesIn(supplied, deployer, current, kinds, other, b)
           ==> ServesIn(supplied, deployer, after, kinds + [k], other, b)
  {
    OriginStays(supplied, deployer, kinds, k);
  }

  /** The implementation variables; an absent or empty one is not deployed yet. */
  class Implementations {
    const supplied: map<Kind, Address>
    const deployer: (Kind, nat) -> Address
    var current: map<Kind, Address>
    var deployed: seq<Kind>

    ghost predicate Serves(k: Kind, a: Address)
      reads this
    {
      ServesIn(supplied, deployer, current, deployed, k, a)
    }

    ghost predicate Valid()
      reads this
    {
      && (forall k, n :: deployer(k, n) != "")
      && (forall k :: k in supplied ==> Suppliable(k))
      && OwnKinds(supplied, deployer, current, deployed)
      && DeployedOnce(supplied, current, deployed)
    }

    constructor (supplied: map<Kind, Address>, deployer: (Kind, nat) -> Address)
      requires forall k, n :: deployer(k, n) != ""
      requires forall k :: k in supplied ==> Suppliable(k)
      ensures Valid() && current == supplied && deployed == []
      ensures this.supplied == supplied && this.deployer == deployer
    {
      this.supplied, this.deployer, this.current, this.deployed := supplied, deployer, supplied, [];
    }

    /** The implementation of a kind, deployed if it is not there yet. */
    method Obtain(k: Kind) returns (a: Address)
      requires Valid()
      modifies this
      ensures Valid() && Serves(k, a)
      ensures forall other, b :: old(Serves(other, b)) ==> Serves(other, b)
      ensures deployed == old(deployed) + if old(Missing(current, k)) then [k] else []
    {
      if Missing(current, k) {
        OwnKindsStay(supplied, deployer, current, deployed, k);
        DeployedOnceStays(supplied, current, deployed, k, deployer(k, |deployed|));
        ServesStays(supplied, deployer, current, deployed, k);
        current := current[k := deployer(k, |deployed|)];
        deployed := deployed + [k];
      }
      a := current[k];
    }
  }

  // ---------- reserves and inputs ----------

  datatype ImplId =
    | DelegationAwarePTokenImpl | NTokenImpl | NTokenMoonBirdsImpl | NTokenUniswapV3Impl | NTokenBAYCImpl | NTokenMAYCImpl
    | NTokenBAKCImpl | NTokenStakefishImpl | NTokenChromieSquiggleImpl | NTokenOtherdeedImpl | OtherImpl(id: string)

  function TypeOfImpl(i: ImplId): XTokenType
  {
    match i
    case DelegationAwarePTokenImpl => DelegationAware
    case OtherImpl(_) => Generic
    case _ => Nft
  }

  /** The nine identifiers of non-fungible tokens, the delegation-aware one, and all others. */
  lemma TypesOfImpls(i: ImplId)
    ensures TypeOfImpl(i) == DelegationAware <==> i == DelegationAwarePTokenImpl
    ensures TypeOfImpl(i) == Nft <==>
      i in {NTokenImpl, NTokenMoonBirdsImpl, NTokenUniswapV3Impl, NTokenBAYCImpl, NTokenMAYCImpl, NTokenBAKCImpl,
            NTokenStakefishImpl, NTokenChromieSquiggleImpl, NTokenOtherdeedImpl}
    ensures TypeOfImpl(i) == Generic <==> i.OtherImpl?
  {
  }

  datatype Reserve = Reserve(
    symbol: Symbol, rate: Strategy, auction: Strategy, timeLock: Strategy, xTokenImpl: ImplId, decimals: nat)

  /** The owner of the fees, the incentives controller, and how tokens are named. */
  datatype Naming = Naming(
    treasury: Address, incentives: Address, xTokenNamePrefix: string, debtTokenNamePrefix: string, symbolPrefix: string,
    nameOf: Symbol -> string)

  datatype Labels = Labels(
    treasury: Address, incentives: Address, assetName: string, xTokenName: string, xTokenSymbol: string,
    debtTokenName: string, debtTokenSymbol: string, params: string)

  function LabelsOf(n: Naming, s: Symbol, t: XTokenType): Labels
  {
    var name := n.nameOf(s);
    Labels(n.treasury, n.incentives, name,
           n.xTokenNamePrefix + " " + name,
           (if t.Nft? then "n" else "p") + n.symbolPrefix + name,
           n.debtTokenNamePrefix + " " + n.symbolPrefix + name,
           "vDebt" + n.symbolPrefix + name,
           "0x10")
  }

  /** Part by part: prefix, separator, asset name. */
  ghost predicate InParts(text: string, prefix: string, separator: string, name: string)
  {
    && |text| == |prefix| + |separator| + |name|
    && text[..|prefix|] == prefix
    && text[|prefix|..|prefix| + |separator|] == separator
    && text[|prefix| + |separator|..] == name
  }

  /** How the tokens of an asset are named. */
  lemma LabelsInParts(n: Naming, s: Symbol, t: XTokenType)
    ensures var l := LabelsOf(n, s, t);
      && l.assetName == n.nameOf(s) && l.treasury == n.treasury && l.incentives == n.incentives
      && InParts(l.xTokenName, n.xTokenNamePrefix, " ", n.nameOf(s))
      && InParts(l.xTokenSymbol, if t == Nft then "n" else "p", n.symbolPrefix, n.nameOf(s))
      && InParts(l.debtTokenName, n.debtTokenNamePrefix, " ", n.symbolPrefix + n.nameOf(s))
      && InParts(l.debtTokenSymbol, "vDebt", n.symbolPrefix, n.nameOf(s))
  {
    var name := n.nameOf(s);
    Parts(n.xTokenNamePrefix, " ", name);
    Parts(if t == Nft then "n" else "p", n.symbolPrefix, name);
    DebtNameInParts(n.debtTokenNamePrefix, " ", n.symbolPrefix, name);
    Parts("vDebt", n.symbolPrefix, name);
  }

  lemma Parts(a: string, b: string, c: string)
    ensures InParts(a + b + c, a, b, c)
  {
  }

  lemma DebtNameInParts(a: string, space: string, b: string, c: string)
    ensures InParts(a + space + b + c, a, space, b + c)
  {
    assert a + space + b + c == a + space + (b + c);
  }

  datatype Input = Input(
    labels: Labels,
    xTokenImpl: Address, debtImpl: Address, assetType: nat, decimals: nat,
    rateAddress: Address, auctionAddress: Address, timeLockAddress: Address, underlyingAsset: Address, symbol: Symbol)

  predicate HasToken(tokens: map<Symbol, Address>, s: Symbol)
  {
    s in tokens && tokens[s] != ""
  }

  /** The reserves whose token address is set, in their order. */
  function Kept(reserves: seq<Reserve>, tokens: map<Symbol, Address>, n: nat): seq<Reserve>
    requires n <= |reserves|
  {
    if n == 0 then []
    else Kept(reserves, tokens, n - 1) + if HasToken(tokens, reserves[n - 1].symbol) then [reserves[n - 1]] else []
  }

  /** What the script collects about an asset in its dictionaries. */
  datatype AssetData = AssetData(rate: Address, auction: Address, timeLock: Address, xTokenType: XTokenType)

  /** The parallel lists after the first loop. */
  datatype Lists = Lists(symbols: seq<Symbol>, tokens: seq<Address>, decimals: seq<nat>)

  ghost predicate ListsMatch(l: Lists, kept: seq<Reserve>, tokens: map<Symbol, Address>)
  {
    && |l.symbols| == |l.tokens| == |l.decimals| == |kept|
    && forall k :: 0 <= k < |kept| ==>
         && l.symbols[k] == kept[k].symbol && l.decimals[k] == kept[k].decimals
         && kept[k].symbol in tokens && l.tokens[k] == tokens[kept[k].symbol]
  }

  /** The dictionaries hold, for each kept reserve, its own strategies' addresses. */
  ghost predicate DataMatches(data: map<Symbol, AssetData>, kept: seq<Reserve>,
                              rates: map<string, Address>, auctions: map<string, Address>, timeLocks: map<string, Address>)
  {
    forall k :: 0 <= k < |kept| ==> kept[k].symbol in data && OwnData(data[kept[k].symbol], kept[k], rates, auctions, timeLocks)
  }

  ghost predicate OwnData(d: AssetData, r: Reserve,
                          rates: map<string, Address>, auctions: map<string, Address>, timeLocks: map<string, Address>)
  {
    && r.rate.name in rates && d.rate == rates[r.rate.name]
    && r.auction.name in auctions && d.auction == auctions[r.auction.name]
    && r.timeLock.name in timeLocks && d.timeLock == timeLocks[r.timeLock.name]
    && d.xTokenType == TypeOfImpl(r.xTokenImpl)
  }

  ghost predicate DistinctSymbols(reserves: seq<Reserve>)
  {
    forall i, j :: 0 <= i < j < |reserves| ==> reserves[i].symbol != reserves[j].symbol
  }

  lemma {:induction false} KeptMember(reserves: seq<Reserve>, tokens: map<Symbol, Address>, n: nat, k: nat)
    requires n <= |reserves| && k < |Kept(reserves, tokens, n)|
    ensures exists i :: 0 <= i < n && reserves[i] == Kept(reserves, tokens, n)[k]
    ensures HasToken(tokens, Kept(reserves, tokens, n)[k].symbol)
  {
    if k < |Kept(reserves, tokens, n - 1)| {
      KeptMember(reserves, tokens, n - 1, k);
    } else {
      assert reserves[n - 1] == Kept(reserves, tokens, n)[k];
    }
  }

  /** The kept reserves are all those with a token, in their order. */
  lemma KeptPositions(reserves: seq<Reserve>, tokens: map<Symbol, Address>, kept: seq<Reserve>) returns (positions: seq<nat>)
    requires kept == Kept(reserves, tokens, |reserves|)
    ensures |positions| == |kept|
    ensures forall j, k :: 0 <= j < k < |positions| ==> positions[j] < positions[k]
    ensures forall k :: 0 <= k < |positions| ==> positions[k] < |reserves| && kept[k] == reserves[positions[k]]
    ensures forall i :: 0 <= i < |reserves| ==>
      (i in positions <==> reserves[i].symbol in tokens && tokens[reserves[i].symbol] != "")
  {
    positions := PositionsUpTo(reserves, tokens, |reserves|);
  }

  lemma {:induction false} PositionsUpTo(reserves: seq<Reserve>, tokens: map<Symbol, Address>, n: nat) returns (positions: seq<nat>)
    requires n <= |reserves|
    ensures |positions| == |Kept(reserves, tokens, n)|
    ensures forall j, k :: 0 <= j < k < |positions| ==> positions[j] < positions[k]
    ensures forall k :: 0 <= k < |positions| ==> positions[k] < n && Kept(reserves, tokens, n)[k] == reserves[positions[k]]
    ensures forall i :: 0 <= i < n ==> (i in positions <==> HasToken(tokens, reserves[i].symbol))
  {
    positions := [];
    if n > 0 {
      positions := PositionsUpTo(reserves, tokens, n - 1);
      if HasToken(tokens, reserves[n - 1].symbol) {
        positions := positions + [n - 1];
      }
    }
  }

  function Rates(reserves: seq<Reserve>): set<Strategy> { set r | r in reserves :: r.rate }
  function Auctions(reserves: seq<Reserve>): set<Strategy> { set r | r in reserves :: r.auction }
  function TimeLocks(reserves: seq<Reserve>): set<Strategy> { set r | r in reserves :: r.timeLock }

  /** Each table deployed only strategies of the reserves. */
  ghost predicate OnlyTheirs(reserves: seq<Reserve>, rates: StrategyTable, auctions: StrategyTable, timeLocks: StrategyTable)
    reads rates, auctions, timeLocks
  {
    && DeployedFrom(rates.deployed, Rates(reserves))
    && DeployedFrom(auctions.deployed, Auctions(reserves))
    && DeployedFrom(timeLocks.deployed, TimeLocks(reserves))
  }

  /** One kept reserve: its three strategies looked up, deployed where new. */
  method ResolveReserve(r: Reserve, rates: StrategyTable, auctions: StrategyTable, timeLocks: StrategyTable)
    returns (d: AssetData)
    requires rates.Valid() && auctions.Valid() && timeLocks.Valid()
    requires rates != auctions && auctions != timeLocks && rates != timeLocks
    modifies rates, auctions, timeLocks
    ensures rates.Valid() && auctions.Valid() && timeLocks.Valid()
    ensures OwnData(d, r, rates.addresses, auctions.addresses, timeLocks.addresses)
    ensures Extends(old(rates.addresses), rates.addresses)
    ensures Extends(old(auctions.addresses), auctions.addresses)
    ensures Extends(old(timeLocks.addresses), timeLocks.addresses)
    ensures rates.deployed == old(rates.deployed) || rates.deployed == old(rates.deployed) + [r.rate]
    ensures auctions.deployed == old(auctions.deployed) || auctions.deployed == old(auctions.deployed) + [r.auction]
    ensures timeLocks.deployed == old(timeLocks.deployed) || timeLocks.deployed == old(timeLocks.deployed) + [r.timeLock]
  {
    rates.Resolve(r.rate);
    auctions.Resolve(r.auction);
    timeLocks.Resolve(r.timeLock);
    d := AssetData(rates.addresses[r.rate.name], auctions.addresses[r.auction.name],
                   timeLocks.addresses[r.timeLock.name], TypeOfImpl(r.xTokenImpl));
  }

  /** The first loop: strategies resolved, dictionaries and parallel lists filled. */
  method CollectReserves(reserves: seq<Reserve>, tokens: map<Symbol, Address>,
                         rates: StrategyTable, auctions: StrategyTable, timeLocks: StrategyTable)
    returns (data: map<Symbol, AssetData>, lists: Lists)
    requires rates.Valid() && auctions.Valid() && timeLocks.Valid()
    requires rates != auctions && auctions != timeLocks && rates != timeLocks && DistinctSymbols(reserves)
    modifies rates, auctions, timeLocks
    ensures rates.Valid() && auctions.Valid() && timeLocks.Valid()
    ensures old(OnlyTheirs(reserves, rates, auctions, timeLocks)) ==> OnlyTheirs(reserves, rates, auctions, timeLocks)
    ensures ListsMatch(lists, Kept(reserves, tokens, |reserves|), tokens)
    ensures DataMatches(data, Kept(reserves, tokens, |reserves|), rates.addresses, auctions.addresses, timeLocks.addresses)
  {
    data, lists := map[], Lists([], [], []);
    for i := 0 to |reserves|
      invariant rates.Valid() && auctions.Valid() && timeLocks.Valid()
      invariant old(OnlyTheirs(reserves, rates, auctions, timeLocks)) ==> OnlyTheirs(reserves, rates, auctions, timeLocks)
      invariant ListsMatch(lists, Kept(reserves, tokens, i), tokens)
      invariant DataMatches(data, Kept(reserves, tokens, i), rates.addresses, auctions.addresses, timeLocks.addresses)
    {
      var r := reserves[i];
      ghost var before := Kept(reserves, tokens, i);
      if HasToken(tokens, r.symbol) {
        ghost var a, b, c := rates.addresses, auctions.addresses, timeLocks.addresses;
        var d := ResolveReserve(r, rates, auctions, timeLocks);
        NewSymbol(reserves, tokens, i);
        DataGrows(data, before, a, b, c, rates.addresses, auctions.addresses, timeLocks.addresses, r, d);
        ListsGrow(lists, before, tokens, r);
        data := data[r.symbol := d];
        lists := Lists(lists.symbols + [r.symbol], lists.tokens + [tokens[r.symbol]], lists.decimals + [r.decimals]);
        assert Kept(reserves, tokens, i + 1) == before + [r];
      } else {
        assert Kept(reserves, tokens, i + 1) == before;
      }
    }
  }

  lemma ListsGrow(l: Lists, kept: seq<Reserve>, tokens: map<Symbol, Address>, r: Reserve)
    requires ListsMatch(l, kept, tokens) && HasToken(tokens, r.symbol)
    ensures ListsMatch(Lists(l.symbols + [r.symbol], l.tokens + [tokens[r.symbol]], l.decimals + [r.decimals]), kept + [r], tokens)
  {
  }

  lemma NewSymbol(reserves: seq<Reserve>, tokens: map<Symbol, Address>, n: nat)
    requires n < |reserves| && DistinctSymbols(reserves)
    ensures forall k :: 0 <= k < |Kept(reserves, tokens, n)| ==> Kept(reserves, tokens, n)[k].symbol != reserves[n].symbol
  {
    forall k | 0 <= k < |Kept(reserves, tokens, n)| ensures Kept(reserves, tokens, n)[k].symbol != reserves[n].symbol {
      KeptMember(reserves, tokens, n, k);
    }
  }

  ghost predicate Extends(m: map<string, Address>, n: map<string, Address>)
  {
    forall x :: x in m ==> x in n && n[x] == m[x]
  }

  lemma DataGrows(data: map<Symbol, AssetData>, kept: seq<Reserve>,
                  a: map<string, Address>, b: map<string, Address>, c: map<string, Address>,
                  a': map<string, Address>, b': map<string, Address>, c': map<string, Address>, r: Reserve, d: AssetData)
    requires DataMatches(data, kept, a, b, c) && Extends(a, a') && Extends(b, b') && Extends(c, c')
    requires OwnData(d, r, a', b', c') && forall k :: 0 <= k < |kept| ==> kept[k].symbol != r.symbol
    ensures DataMatches(data[r.symbol := d], kept + [r], a', b', c')
  {
  }

  // ---------- the inputs ----------

  /** An input without its implementations, from the dictionaries and the k-th entries of
      the lists. */
  predicate DrawnFrom(x: Input, n: Naming, l: Lists, data: map<Symbol, AssetData>, k: nat)
    requires k < |l.symbols| && k < |l.tokens| && k < |l.decimals|
  {
    && x.symbol == l.symbols[k] && x.decimals == l.decimals[k] && x.underlyingAsset == l.tokens[k]
    && x.symbol in data
    && x.assetType == (if data[x.symbol].xTokenType.Nft? then 1 else 0)
    && x.rateAddress == data[x.symbol].rate
    && x.auctionAddress == data[x.symbol].auction
    && x.timeLockAddress == data[x.symbol].timeLock
    && x.labels == LabelsOf(n, x.symbol, data[x.symbol].xTokenType)
  }

  /** The second loop. */
  method BuildInputs(n: Naming, l: Lists, data: map<Symbol, AssetData>) returns (inputs: seq<Input>)
    requires |l.symbols| == |l.tokens| == |l.decimals|
    requires forall k :: 0 <= k < |l.symbols| ==> l.symbols[k] in data
    ensures |inputs| == |l.symbols|
    ensures forall k :: 0 <= k < |inputs| ==> DrawnFrom(inputs[k], n, l, data, k)
  {
    inputs := [];
    for i := 0 to |l.symbols|
      invariant |inputs| == i
      invariant forall k :: 0 <= k < i ==> DrawnFrom(inputs[k], n, l, data, k)
    {
      var d := data[l.symbols[i]];
      inputs := inputs + [Input(LabelsOf(n, l.symbols[i], d.xTokenType), "", "", if d.xTokenType.Nft? then 1 else 0, l.decimals[i],
                                d.rate, d.auction, d.timeLock, l.tokens[i], l.symbols[i])];
    }
  }

  /** All the fields of an input, implementations aside, come from one reserve. */
  ghost predicate InputOf(x: Input, n: Naming, r: Reserve, tokens: map<Symbol, Address>,
                          rates: map<string, Address>, auctions: map<string, Address>, timeLocks: map<string, Address>)
  {
    && x.symbol == r.symbol && x.decimals == r.decimals
    && x.labels == LabelsOf(n, r.symbol, TypeOfImpl(r.xTokenImpl))
    && r.symbol in tokens && x.underlyingAsset == tokens[r.symbol]
    && (x.assetType == 1 <==> TypeOfImpl(r.xTokenImpl) == Nft) && x.assetType <= 1
    && r.rate.name in rates && x.rateAddress == rates[r.rate.name]
    && r.auction.name in auctions && x.auctionAddress == auctions[r.auction.name]
    && r.timeLock.name in timeLocks && x.timeLockAddress == timeLocks[r.timeLock.name]
  }

  /** The dictionaries and the lists agree on which reserve an input is for. */
  lemma DrawnFromReserve(x: Input, n: Naming, l: Lists, data: map<Symbol, AssetData>, kept: seq<Reserve>, k: nat, tokens: map<Symbol, Address>,
                         rates: map<string, Address>, auctions: map<string, Address>, timeLocks: map<string, Address>)
    requires ListsMatch(l, kept, tokens) && DataMatches(data, kept, rates, auctions, timeLocks)
    requires k < |kept| && DrawnFrom(x, n, l, data, k)
    ensures InputOf(x, n, kept[k], tokens, rates, auctions, timeLocks)
  {
    assert OwnData(data[kept[k].symbol], kept[k], rates, auctions, timeLocks);
  }

  // ---------- chunks ----------

  /** One step of the reduction per index, opening a slice at every multiple of the size. */
  function SlicesFrom<T>(s: seq<T>, size: nat, i: nat, acc: seq<seq<T>>): seq<seq<T>>
    requires i <= |s|
    decreases |s| - i
  {
    if i == |s| then acc
    else SlicesFrom(s, size, i + 1,
                    if size == 0 || i % size == 0 then acc + [s[i..SliceEnd(|s|, i + size)]] else acc)
  }

  function SliceEnd(length: nat, end: nat): nat
  {
    if end < length then end else length
  }

  lemma {:induction false} BetweenMultiples<T>(s: seq<T>, size: nat, i: nat, j: nat, acc: seq<seq<T>>)
    requires 1 <= size && i % size == 0 && i < j <= SliceEnd(|s|, i + size)
    ensures SlicesFrom(s, size, j, acc) == SlicesFrom(s, size, SliceEnd(|s|, i + size), acc)
    decreases |s| - j
  {
    if j < SliceEnd(|s|, i + size) {
      NoMultiple(size, i, j);
      BetweenMultiples(s, size, i, j + 1, acc);
    }
  }

  lemma NoMultiple(size: nat, i: nat, j: nat)
    requires 1 <= size && i % size == 0 && i < j < i + size
    ensures j % size != 0
  {
    var q := i / size;
    assert i == q * size;
    QuotientOf(j, q, j - i, size);
  }

  lemma NextMultiple(size: nat, i: nat)
    requires 1 <= size && i % size == 0
    ensures (i + size) % size == 0
  {
    var q := i / size;
    assert i == q * size;
    assert (q + 1) * size == q * size + size;
    QuotientOf(i + size, q + 1, 0, size);
  }

  /** The first piece of a tail, and the tail after it. */
  lemma ChunkTail<T>(s: seq<T>, size: nat, i: nat)
    requires 1 <= size && i < |s|
    ensures var end := SliceEnd(|s|, i + size);
      Chunk(s[i..], size) == [s[i..end]] + Chunk(s[end..], size)
  {
    var end := SliceEnd(|s|, i + size);
    if i + size < |s| {
      assert s[i..][size..] == s[end..] && s[i..][..size] == s[i..end];
    } else {
      assert s[i..] == s[i..end] && s[end..] == [];
    }
  }

  lemma {:induction false} SlicesAreChunks<T>(s: seq<T>, size: nat, i: nat, acc: seq<seq<T>>)
    requires 1 <= size && i <= |s| && i % size == 0
    ensures SlicesFrom(s, size, i, acc) == acc + Chunk(s[i..], size)
    decreases |s| - i
  {
    if i < |s| {
      var end := SliceEnd(|s|, i + size);
      var next := acc + [s[i..end]];
      BetweenMultiples(s, size, i, i + 1, next);
      ChunkTail(s, size, i);
      if i + size < |s| {
        NextMultiple(size, i);
        SlicesAreChunks(s, size, end, next);
      }
    }
  }

  /** The reduction cuts the list into consecutive pieces that concatenate to it. */
  lemma SlicesConcatenate<T>(s: seq<T>, size: nat)
    requires 1 <= size
    ensures SlicesFrom(s, size, 0, []) == Chunk(s, size)
    ensures Concat(SlicesFrom(s, size, 0, [])) == s
  {
    SlicesAreChunks(s, size, 0, []);
    assert s[0..] == s;
    ChunksConcatenate(s, size);
  }

  // ---------- the implementations ----------

  const INIT_CHUNKS := 4

  /** What filling in the implementations does to an input. */
  ghost predicate FilledIn(y: Input, x: Input, t: XTokenType, impls: Implementations)
    reads impls
  {
    && y == x.(xTokenImpl := y.xTokenImpl, debtImpl := y.debtImpl)
    && impls.Serves(XTokenKind(t, x.symbol), y.xTokenImpl)
    && impls.Serves(DebtKind(t, x.symbol), y.debtImpl)
  }

  ghost predicate AllFilled(ys: seq<Input>, xs: seq<Input>, data: map<Symbol, AssetData>, impls: Implementations)
    reads impls
  {
    |ys| == |xs| && forall k :: 0 <= k < |xs| ==> xs[k].symbol in data && FilledIn(ys[k], xs[k], data[xs[k].symbol].xTokenType, impls)
  }

  ghost predicate Typed(xs: seq<Input>, data: map<Symbol, AssetData>)
  {
    forall k :: 0 <= k < |xs| ==> xs[k].symbol in data
  }

  /** The inner loop: the inputs of one chunk get their implementations. */
  method FillChunk(xs: seq<Input>, data: map<Symbol, AssetData>, impls: Implementations) returns (ys: seq<Input>)
    requires impls.Valid() && Typed(xs, data)
    modifies impls
    ensures impls.Valid() && AllFilled(ys, xs, data, impls)
    ensures forall k, a :: old(impls.Serves(k, a)) ==> impls.Serves(k, a)
  {
    ys := xs;
    for i := 0 to |xs|
      invariant impls.Valid() && |ys| == |xs| && ys[i..] == xs[i..]
      invariant forall k :: 0 <= k < i ==> FilledIn(ys[k], xs[k], data[xs[k].symbol].xTokenType, impls)
      invariant forall k, a :: old(impls.Serves(k, a)) ==> impls.Serves(k, a)
    {
      assert ys[i] == ys[i..][0] == xs[i];
      var t := data[ys[i].symbol].xTokenType;
      var xToken := impls.Obtain(XTokenKind(t, ys[i].symbol));
      var debt := impls.Obtain(DebtKind(t, ys[i].symbol));
      ys := ys[i := ys[i].(xTokenImpl := xToken, debtImpl := debt)];
      assert ys[i + 1..] == xs[i..][1..];
    }
  }

  /** The outer loop, chunk by chunk. */
  method FillChunks(chunks: seq<seq<Input>>, data: map<Symbol, AssetData>, impls: Implementations)
    returns (filled: seq<seq<Input>>)
    requires impls.Valid() && Typed(Concat(chunks), data)
    modifies impls
    ensures impls.Valid() && AllFilled(Concat(filled), Concat(chunks), data, impls)
    ensures |filled| == |chunks| && forall c :: 0 <= c < |chunks| ==> |filled[c]| == |chunks[c]|
  {
    filled := [];
    for c := 0 to |chunks|
      invariant impls.Valid() && AllFilled(Concat(filled), Concat(chunks[..c]), data, impls)
      invariant |filled| == c && forall i :: 0 <= i < c ==> |filled[i]| == |chunks[i]|
    {
      ChunkTyped(chunks, data, c);
      ghost var before := Concat(filled);
      var ys := FillChunk(chunks[c], data, impls);
      ConcatAppend(filled, ys);
      ConcatAppend(chunks[..c], chunks[c]);
      assert chunks[..c + 1] == chunks[..c] + [chunks[c]];
      AllFilledConcat(before, Concat(chunks[..c]), ys, chunks[c], data, impls);
      filled := filled + [ys];
    }
    assert chunks[..|chunks|] == chunks;
  }

  lemma AllFilledConcat(ys: seq<Input>, xs: seq<Input>, ys': seq<Input>, xs': seq<Input>,
                        data: map<Symbol, AssetData>, impls: Implementations)
    requires AllFilled(ys, xs, data, impls) && AllFilled(ys', xs', data, impls)
    ensures AllFilled(ys + ys', xs + xs', data, impls)
  {
    var n := |xs|;
    forall k | 0 <= k < |xs + xs'|
      ensures (xs + xs')[k].symbol in data
      ensures FilledIn((ys + ys')[k], (xs + xs')[k], data[(xs + xs')[k].symbol].xTokenType, impls)
    {
      if k < n {
        assert (ys + ys')[k] == ys[k] && (xs + xs')[k] == xs[k];
      } else {
        assert (ys + ys')[k] == ys'[k - n] && (xs + xs')[k] == xs'[k - n];
      }
    }
  }

  lemma {:induction false} ChunkTyped(chunks: seq<seq<Input>>, data: map<Symbol, AssetData>, c: nat)
    requires c < |chunks| && Typed(Concat(chunks), data)
    ensures Typed(chunks[c], data)
  {
    assert forall k :: 0 <= k < |chunks[0]| ==> Concat(chunks)[k] == chunks[0][k];
    if c > 0 {
      assert forall k :: 0 <= k < |Concat(chunks[1..])| ==> Concat(chunks)[|chunks[0]| + k] == Concat(chunks[1..])[k];
      ChunkTyped(chunks[1..], data, c - 1);
    }
  }

  /** What the configurator is handed for a reserve: every field its own, and both token
      implementations of the right kind. */
  ghost predicate Complete(y: Input, n: Naming, r: Reserve, tokens: map<Symbol, Address>,
                           rates: StrategyTable, auctions: StrategyTable, timeLocks: StrategyTable, impls: Implementations)
    reads rates, auctions, timeLocks, impls
  {
    && InputOf(y, n, r, tokens, rates.addresses, auctions.addresses, timeLocks.addresses)
    && impls.Serves(XTokenKind(TypeOfImpl(r.xTokenImpl), r.symbol), y.xTokenImpl)
    && impls.Serves(DebtKind(TypeOfImpl(r.xTokenImpl), r.symbol), y.debtImpl)
  }

  /** The whole initialisation: the chunks hold one complete input for each reserve whose
      token is set, in the reserves' order. */
  method InitReserves(n: Naming, reserves: seq<Reserve>, tokens: map<Symbol, Address>,
                      rates: StrategyTable, auctions: StrategyTable, timeLocks: StrategyTable, impls: Implementations)
    returns (chunks: seq<seq<Input>>)
    requires rates.Valid() && auctions.Valid() && timeLocks.Valid() && impls.Valid()
    requires rates != auctions && auctions != timeLocks && rates != timeLocks && DistinctSymbols(reserves)
    modifies rates, auctions, timeLocks, impls
    ensures rates.Valid() && auctions.Valid() && timeLocks.Valid() && impls.Valid()
    ensures old(OnlyTheirs(reserves, rates, auctions, timeLocks)) ==> OnlyTheirs(reserves, rates, auctions, timeLocks)
    ensures |Concat(chunks)| == |Kept(reserves, tokens, |reserves|)|
    ensures forall k :: 0 <= k < |Concat(chunks)| ==>
      Complete(Concat(chunks)[k], n, Kept(reserves, tokens, |reserves|)[k], tokens, rates, auctions, timeLocks, impls)
    ensures forall c :: 0 <= c < |chunks| ==> 1 <= |chunks[c]| <= INIT_CHUNKS
    ensures forall c :: 0 <= c < |chunks| - 1 ==> |chunks[c]| == INIT_CHUNKS
  {
    var data, lists := CollectReserves(reserves, tokens, rates, auctions, timeLocks);
    ghost var kept := Kept(reserves, tokens, |reserves|);
    SymbolsHaveData(lists, data, kept, tokens, rates.addresses, auctions.addresses, timeLocks.addresses);
    var inputs := BuildInputs(n, lists, data);
    var pieces := SlicesFrom(inputs, INIT_CHUNKS, 0, []);
    SlicesConcatenate(inputs, INIT_CHUNKS);
    ChunksConcatenate(inputs, INIT_CHUNKS);
    chunks := FillChunks(pieces, data, impls);
    forall k | 0 <= k < |kept| ensures Complete(Concat(chunks)[k], n, kept[k], tokens, rates, auctions, timeLocks, impls) {
      DrawnFromReserve(inputs[k], n, lists, data, kept, k, tokens, rates.addresses, auctions.addresses, timeLocks.addresses);
      assert FilledIn(Concat(chunks)[k], inputs[k], data[inputs[k].symbol].xTokenType, impls);
    }
  }

  /** The memoised initialisation refines the unmemoised one: with names that determine
      strategies, each input has the addresses its own strategies' deployments give. */
  lemma OwnStrategies(y: Input, n: Naming, r: Reserve, reserves: seq<Reserve>, tokens: map<Symbol, Address>,
                      rates: StrategyTable, auctions: StrategyTable, timeLocks: StrategyTable, impls: Implementations,
                      rate: Strategy -> Address, auction: Strategy -> Address, timeLock: Strategy -> Address)
    requires rates.Valid() && auctions.Valid() && timeLocks.Valid()
    requires r in reserves && Complete(y, n, r, tokens, rates, auctions, timeLocks, impls)
    requires OnlyTheirs(reserves, rates, auctions, timeLocks)
    requires forall s, k :: rates.deployer(s, k) == rate(s)
    requires forall s, k :: auctions.deployer(s, k) == auction(s)
    requires forall s, k :: timeLocks.deployer(s, k) == timeLock(s)
    requires NamesDetermine(Rates(reserves)) && NamesDetermine(Auctions(reserves)) && NamesDetermine(TimeLocks(reserves))
    ensures y.rateAddress == Direct(rates.zeroName, rates.default, rate, r.rate)
    ensures y.auctionAddress == Direct(auctions.zeroName, auctions.default, auction, r.auction)
    ensures y.timeLockAddress == Direct(timeLocks.zeroName, timeLocks.default, timeLock, r.timeLock)
  {
    MemoIsDirect(rates, rate, r.rate, Rates(reserves));
    MemoIsDirect(auctions, auction, r.auction, Auctions(reserves));
    MemoIsDirect(timeLocks, timeLock, r.timeLock, TimeLocks(reserves));
  }

  lemma SymbolsHaveData(l: Lists, data: map<Symbol, AssetData>, kept: seq<Reserve>, tokens: map<Symbol, Address>,
                        rates: map<string, Address>, auctions: map<string, Address>, timeLocks: map<string, Address>)
    requires ListsMatch(l, kept, tokens) && DataMatches(data, kept, rates, auctions, timeLocks)
    ensures forall k :: 0 <= k < |l.symbols| ==> l.symbols[k] in data
  {
    forall k | 0 <= k < |l.symbols| ensures l.symbols[k] in data {
      assert kept[k].symbol in data;
    }
  }
}
