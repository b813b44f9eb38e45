/**
 Planning upgrades of the pool proxy: from new and old selector lists to cuts, the
 collision check over all selector lists, and the upgrade and reset scripts.
 */
module Upgrade {
  import opened Results
  import opened Sequences
  import opened ParaProxy

  type Routes = map<Selector, Address>

  /** One implementation to install, its selectors, and the selectors it supersedes. */
  datatype Implementation = Implementation(
    implAddress: Address, newSelectors: seq<Selector>, oldSelectors: seq<Selector>)

  // ---------- the plan ----------

  function OptionalCut(impl: Address, action: Action, selectors: seq<Selector>): seq<Cut>
  {
    if selectors == [] then [] else [Cut(impl, action, selectors)]
  }

  function CutsFor(t: Implementation): seq<Cut>
  {
    OptionalCut(0, Remove, Without(t.oldSelectors, t.newSelectors))
    + OptionalCut(t.implAddress, Replace, Within(t.newSelectors, t.oldSelectors))
    + OptionalCut(t.implAddress, Add, Without(t.newSelectors, t.oldSelectors))
  }

  /** The flattened cuts of the first n implementations. */
  function Plan(ts: seq<Implementation>, n: nat): seq<Cut>
    requires n <= |ts|
  {
    if n == 0 then [] else Plan(ts, n - 1) + CutsFor(ts[n - 1])
  }

  function Rank(action: Action): nat
  {
    match action case Remove => 0 case Replace => 1 case Add => 2
  }

  /** Removals come first, replacements next, additions last; none is empty, and only
      removals have no implementation. */
  lemma CutsInOrder(t: Implementation)
    ensures forall i, j :: 0 <= i < j < |CutsFor(t)| ==> Rank(CutsFor(t)[i].action) < Rank(CutsFor(t)[j].action)
    ensures forall i :: 0 <= i < |CutsFor(t)| ==>
      var cut := CutsFor(t)[i];
      cut.functionSelectors != [] && cut.implAddress == if cut.action.Remove? then 0 else t.implAddress
  {
  }

  method PlanImplementation(t: Implementation) returns (cuts: seq<Cut>)
    ensures cuts == CutsFor(t)
  {
    var toAdd := Without(t.newSelectors, t.oldSelectors);
    var toReplace := Within(t.newSelectors, t.oldSelectors);
    var toRemove := Without(t.oldSelectors, t.newSelectors);
    cuts := [];
    if |toRemove| > 0 {
      cuts := cuts + [Cut(0, Remove, toRemove)];
    }
    assert cuts == OptionalCut(0, Remove, toRemove);
    if |toReplace| > 0 {
      cuts := cuts + [Cut(t.implAddress, Replace, toReplace)];
    }
    assert cuts == OptionalCut(0, Remove, toRemove) + OptionalCut(t.implAddress, Replace, toReplace);
    if |toAdd| > 0 {
      cuts := cuts + [Cut(t.implAddress, Add, toAdd)];
    }
  }

  method PlanCuts(implementations: seq<Implementation>) returns (cuts: seq<Cut>)
    ensures cuts == Plan(implementations, |implementations|)
  {
    cuts := [];
    for i := 0 to |implementations|
      invariant cuts == Plan(implementations, i)
    {
      var proxyImplementation := PlanImplementation(implementations[i]);
      cuts := cuts + proxyImplementation;
    }
  }

  // ---------- the effect of one cut ----------

  /** The selectors of one list all point to one address. */
  function RouteAll(selectors: seq<Selector>, impl: Address): Routes
  {
    map s | s in selectors :: impl
  }

  function Erase(r: Routes, selectors: seq<Selector>): Routes
  {
    map s | s in r && s !in selectors :: r[s]
  }

  /** What one more element does to a prefix. */
  lemma PrefixStep(list: seq<Selector>, n: nat)
    requires n < |list|
    ensures list[..n + 1] == list[..n] + [list[n]]
    ensures Distinct(list[..n + 1]) <==> Distinct(list[..n]) && list[n] !in list[..n]
    ensures forall x :: x in list[..n + 1] <==> x in list[..n] || x == list[n]
  {
    DistinctConcat(list[..n], [list[n]]);
    assert list[..n + 1] == list[..n] + [list[n]];
  }

  ghost predicate Removable(env: Env, r: Routes, list: seq<Selector>)
  {
    Distinct(list) && forall s :: s in list ==> s in r && r[s] != env.self
  }

  ghost predicate Replaceable(env: Env, r: Routes, impl: Address, list: seq<Selector>)
  {
    Distinct(list) && forall s :: s in list ==> s in r && r[s] != env.self && r[s] != impl
  }

  ghost predicate Addable(r: Routes, list: seq<Selector>)
  {
    Distinct(list) && forall s :: s in list ==> s !in r
  }

  /** A Remove cut succeeds exactly if its selectors are routed, not to the proxy
      itself, and not repeated; then it erases them. */
  lemma {:induction false} RemoveEffect(env: Env, r: Routes, cut: Cut, n: nat)
    requires cut.action.Remove? && n <= |cut.functionSelectors|
    ensures Steps(env, r, cut, n) ==
      if Removable(env, r, cut.functionSelectors[..n]) then Some(Erase(r, cut.functionSelectors[..n])) else None
  {
    if n == 0 {
      assert Erase(r, []) == r;
    } else {
      RemoveEffect(env, r, cut, n - 1);
      RemoveStep(env, r, cut.functionSelectors, n - 1);
    }
  }

  lemma RemoveStep(env: Env, r: Routes, list: seq<Selector>, n: nat)
    requires n < |list|
    ensures Removable(env, r, list[..n + 1]) <==>
            Removable(env, r, list[..n]) && RemoveOne(env, Erase(r, list[..n]), list[n]).Some?
    ensures Erase(r, list[..n]) - {list[n]} == Erase(r, list[..n + 1])
  {
    PrefixStep(list, n);
  }

  /** A Replace cut succeeds exactly if its selectors are routed, neither to the proxy
      itself nor to the new implementation, and not repeated. */
  lemma {:induction false} ReplaceEffect(env: Env, r: Routes, cut: Cut, n: nat)
    requires cut.action.Replace? && n <= |cut.functionSelectors|
    ensures Steps(env, r, cut, n) ==
      if Replaceable(env, r, cut.implAddress, cut.functionSelectors[..n])
      then Some(r + RouteAll(cut.functionSelectors[..n], cut.implAddress)) else None
  {
    if n == 0 {
      assert r + RouteAll([], cut.implAddress) == r;
    } else {
      ReplaceEffect(env, r, cut, n - 1);
      ReplaceStep(env, r, cut.implAddress, cut.functionSelectors, n - 1);
      RouteStep(r, cut.implAddress, cut.functionSelectors, n - 1);
    }
  }

  lemma ReplaceStep(env: Env, r: Routes, impl: Address, list: seq<Selector>, n: nat)
    requires n < |list|
    ensures Replaceable(env, r, impl, list[..n + 1]) <==>
            Replaceable(env, r, impl, list[..n]) && ReplaceOne(env, r + RouteAll(list[..n], impl), impl, list[n]).Some?
  {
    PrefixStep(list, n);
  }

  lemma RouteStep(r: Routes, impl: Address, list: seq<Selector>, n: nat)
    requires n < |list|
    ensures (r + RouteAll(list[..n], impl))[list[n] := impl] == r + RouteAll(list[..n + 1], impl)
  {
    PrefixStep(list, n);
  }

  /** An Add cut succeeds exactly if its selectors are free and not repeated. */
  lemma {:induction false} AddEffect(env: Env, r: Routes, cut: Cut, n: nat)
    requires cut.action.Add? && n <= |cut.functionSelectors|
    ensures Steps(env, r, cut, n) ==
      if Addable(r, cut.functionSelectors[..n])
      then Some(r + RouteAll(cut.functionSelectors[..n], cut.implAddress)) else None
  {
    if n == 0 {
      assert r + RouteAll([], cut.implAddress) == r;
    } else {
      AddEffect(env, r, cut, n - 1);
      AddStep(r, cut.implAddress, cut.functionSelectors, n - 1);
      RouteStep(r, cut.implAddress, cut.functionSelectors, n - 1);
    }
  }

  lemma AddStep(r: Routes, impl: Address, list: seq<Selector>, n: nat)
    requires n < |list|
    ensures Addable(r, list[..n + 1]) <==>
            Addable(r, list[..n]) && AddOne(r + RouteAll(list[..n], impl), impl, list[n]).Some?
  {
    PrefixStep(list, n);
  }

  /** When a cut is accepted, and what it does: never an empty one; removals without an
      implementation, additions and replacements with one that is in use or has code. */
  lemma CutOutcome(env: Env, r: Routes, cut: Cut)
    ensures ApplyCut(env, r, cut).Some? <==>
      && cut.functionSelectors != []
      && match cut.action
         case Remove => cut.implAddress == 0 && Removable(env, r, cut.functionSelectors)
         case Replace => Usable(env, r, cut.implAddress) && Replaceable(env, r, cut.implAddress, cut.functionSelectors)
         case Add => Usable(env, r, cut.implAddress) && Addable(r, cut.functionSelectors)
    ensures ApplyCut(env, r, cut).Some? ==>
      ApplyCut(env, r, cut).value ==
        if cut.action.Remove? then Erase(r, cut.functionSelectors) else r + RouteAll(cut.functionSelectors, cut.implAddress)
  {
    FullPrefix(cut.functionSelectors);
    match cut.action {
      case Remove => RemoveEffect(env, r, cut, |cut.functionSelectors|);
      case Replace => ReplaceEffect(env, r, cut, |cut.functionSelectors|);
      case Add => AddEffect(env, r, cut, |cut.functionSelectors|);
    }
  }

  // ---------- one implementation ----------

  /** What the proxy demands of one implementation's lists. */
  ghost predicate Acceptable(env: Env, r: Routes, t: Implementation)
  {
    var toRemove := Without(t.oldSelectors, t.newSelectors);
    && Distinct(toRemove)
    && Distinct(t.newSelectors)
    && (forall s :: s in t.oldSelectors ==> s in r && r[s] != env.self)
    && (forall s :: s in t.newSelectors && s in t.oldSelectors ==> r[s] != t.implAddress)
    && (forall s :: s in t.newSelectors && s !in t.oldSelectors ==> s !in r)
    && (t.newSelectors != [] ==>
          Usable(env, Erase(r, toRemove), t.implAddress))
  }

  /** The intended routing: the old selectors gone, the new ones installed. */
  function Target(r: Routes, t: Implementation): Routes
  {
    Erase(r, t.oldSelectors) + RouteAll(t.newSelectors, t.implAddress)
  }

  lemma {:induction false} ApplyConcat(env: Env, r: Routes, c: seq<Cut>, d: seq<Cut>, n: nat)
    requires n <= |d|
    ensures ApplyCuts(env, r, c + d, |c| + n) ==
      match ApplyCuts(env, r, c, |c|)
      case None => None
      case Some(q) => ApplyCuts(env, q, d, n)
  {
    if n == 0 {
      ApplyPrefix(env, r, c + d, c, |c|);
    } else {
      ApplyConcat(env, r, c, d, n - 1);
    }
  }

  lemma {:induction false} ApplyPrefix(env: Env, r: Routes, c: seq<Cut>, d: seq<Cut>, n: nat)
    requires n <= |c| && n <= |d| && c[..n] == d[..n]
    ensures ApplyCuts(env, r, c, n) == ApplyCuts(env, r, d, n)
  {
    if n > 0 {
      assert c[n - 1] == c[..n][n - 1] == d[..n][n - 1];
      assert c[..n - 1] == c[..n][..n - 1] && d[..n - 1] == d[..n][..n - 1];
      ApplyPrefix(env, r, c, d, n - 1);
    }
  }

  /** More cuts after an answer of the proxy. */
  function Then(env: Env, before: Option<Routes>, cuts: seq<Cut>): Option<Routes>
  {
    match before
    case None => None
    case Some(q) => ApplyCuts(env, q, cuts, |cuts|)
  }

  lemma ThenConcat(env: Env, r: Routes, c: seq<Cut>, d: seq<Cut>)
    ensures ApplyCuts(env, r, c + d, |c + d|) == Then(env, ApplyCuts(env, r, c, |c|), d)
  {
    ApplyConcat(env, r, c, d, |d|);
  }

  /** Running an optional cut. */
  function ApplyOptional(env: Env, r: Routes, impl: Address, action: Action, selectors: seq<Selector>): Option<Routes>
  {
    if selectors == [] then Some(r) else ApplyCut(env, r, Cut(impl, action, selectors))
  }

  lemma OptionalCutEffect(env: Env, r: Routes, impl: Address, action: Action, selectors: seq<Selector>)
    ensures var cuts := OptionalCut(impl, action, selectors);
      ApplyCuts(env, r, cuts, |cuts|) == ApplyOptional(env, r, impl, action, selectors)
  {
    if selectors != [] {
      var cuts := OptionalCut(impl, action, selectors);
      assert ApplyCuts(env, r, cuts, 0) == Some(r);
    }
  }

  /** The three phases of one implementation, one after the other. */
  function ThreePhases(env: Env, r: Routes, t: Implementation): Option<Routes>
  {
    match ApplyOptional(env, r, 0, Remove, Without(t.oldSelectors, t.newSelectors))
    case None => None
    case Some(q) =>
      match ApplyOptional(env, q, t.implAddress, Replace, Within(t.newSelectors, t.oldSelectors))
      case None => None
      case Some(p) => ApplyOptional(env, p, t.implAddress, Add, Without(t.newSelectors, t.oldSelectors))
  }

  /** An optional cut after an answer of the proxy. */
  function ThenOptional(env: Env, before: Option<Routes>, impl: Address, action: Action, selectors: seq<Selector>): Option<Routes>
  {
    match before
    case None => None
    case Some(q) => ApplyOptional(env, q, impl, action, selectors)
  }

  lemma OptionalAfter(env: Env, r: Routes, c: seq<Cut>, impl: Address, action: Action, selectors: seq<Selector>)
    ensures var cuts := c + OptionalCut(impl, action, selectors);
      ApplyCuts(env, r, cuts, |cuts|) == ThenOptional(env, ApplyCuts(env, r, c, |c|), impl, action, selectors)
  {
    ThenConcat(env, r, c, OptionalCut(impl, action, selectors));
    if ApplyCuts(env, r, c, |c|).Some? {
      OptionalCutEffect(env, ApplyCuts(env, r, c, |c|).value, impl, action, selectors);
    }
  }

  /** The cuts for one implementation go through its three phases one after the other. */
  lemma CutsForIsThreePhases(env: Env, r: Routes, t: Implementation)
    ensures ApplyCuts(env, r, CutsFor(t), |CutsFor(t)|) == ThreePhases(env, r, t)
  {
    var toRemove, toReplace := Without(t.oldSelectors, t.newSelectors), Within(t.newSelectors, t.oldSelectors);
    var a := OptionalCut(0, Remove, toRemove);
    OptionalCutEffect(env, r, 0, Remove, toRemove);
    OptionalAfter(env, r, a, t.implAddress, Replace, toReplace);
    OptionalAfter(env, r, a + OptionalCut(t.implAddress, Replace, toReplace),
                  t.implAddress, Add, Without(t.newSelectors, t.oldSelectors));
  }

  lemma FullPrefix(list: seq<Selector>)
    ensures list[..|list|] == list
  {
  }

  ghost predicate Usable(env: Env, r: Routes, impl: Address)
  {
    impl != 0 && (impl in r.Values || env.hasCode(impl))
  }

  ghost predicate ReplaceOk(env: Env, r: Routes, impl: Address, list: seq<Selector>)
  {
    && Replaceable(env, r, impl, list)
    && (list != [] ==> Usable(env, r, impl))
  }

  ghost predicate AddOk(env: Env, r: Routes, impl: Address, list: seq<Selector>)
  {
    && Addable(r, list)
    && (list != [] ==> Usable(env, r, impl))
  }

  lemma RemovePhase(env: Env, r: Routes, list: seq<Selector>)
    ensures ApplyOptional(env, r, 0, Remove, list) ==
      if Removable(env, r, list) then Some(Erase(r, list)) else None
  {
    if list == [] {
      assert Erase(r, list) == r;
    } else {
      RemoveEffect(env, r, Cut(0, Remove, list), |list|);
      FullPrefix(list);
    }
  }

  lemma ReplacePhase(env: Env, r: Routes, impl: Address, list: seq<Selector>)
    ensures ApplyOptional(env, r, impl, Replace, list) ==
      if ReplaceOk(env, r, impl, list) then Some(r + RouteAll(list, impl)) else None
  {
    if list == [] {
      assert r + RouteAll(list, impl) == r;
    } else {
      ReplaceEffect(env, r, Cut(impl, Replace, list), |list|);
      FullPrefix(list);
    }
  }

  lemma AddPhase(env: Env, r: Routes, impl: Address, list: seq<Selector>)
    ensures ApplyOptional(env, r, impl, Add, list) ==
      if AddOk(env, r, impl, list) then Some(r + RouteAll(list, impl)) else None
  {
    if list == [] {
      assert r + RouteAll(list, impl) == r;
    } else {
      AddEffect(env, r, Cut(impl, Add, list), |list|);
      FullPrefix(list);
    }
  }

  function AfterRemove(r: Routes, t: Implementation): Routes
  {
    Erase(r, Without(t.oldSelectors, t.newSelectors))
  }

  function AfterReplace(r: Routes, t: Implementation): Routes
  {
    AfterRemove(r, t) + RouteAll(Within(t.newSelectors, t.oldSelectors), t.implAddress)
  }

  function AfterAdd(r: Routes, t: Implementation): Routes
  {
    AfterReplace(r, t) + RouteAll(Without(t.newSelectors, t.oldSelectors), t.implAddress)
  }

  /** The three phases all succeed. */
  ghost predicate PhasesOk(env: Env, r: Routes, t: Implementation)
  {
    && Removable(env, r, Without(t.oldSelectors, t.newSelectors))
    && ReplaceOk(env, AfterRemove(r, t), t.implAddress, Within(t.newSelectors, t.oldSelectors))
    && AddOk(env, AfterReplace(r, t), t.implAddress, Without(t.newSelectors, t.oldSelectors))
  }

  lemma ThreePhasesOk(env: Env, r: Routes, t: Implementation)
    ensures ThreePhases(env, r, t) == if PhasesOk(env, r, t) then Some(AfterAdd(r, t)) else None
  {
    RemovePhase(env, r, Without(t.oldSelectors, t.newSelectors));
    ReplacePhase(env, AfterRemove(r, t), t.implAddress, Within(t.newSelectors, t.oldSelectors));
    AddPhase(env, AfterReplace(r, t), t.implAddress, Without(t.newSelectors, t.oldSelectors));
  }

  /** The demands of the later phases, in terms of the routing before the first. */
  lemma PhasesOkMeansAcceptable(env: Env, r: Routes, t: Implementation)
    requires PhasesOk(env, r, t)
    ensures Acceptable(env, r, t)
  {
    DistinctSplit(t.newSelectors, t.oldSelectors);
    UsableThrough(env, r, t);
    forall s | s in t.oldSelectors ensures s in r && r[s] != env.self {
      assert s in Without(t.oldSelectors, t.newSelectors) || s in Within(t.newSelectors, t.oldSelectors);
    }
    forall s | s in t.newSelectors && s in t.oldSelectors ensures r[s] != t.implAddress {
      assert s in Within(t.newSelectors, t.oldSelectors);
    }
    forall s | s in t.newSelectors && s !in t.oldSelectors ensures s !in r {
      assert s in Without(t.newSelectors, t.oldSelectors);
      assert s !in AfterReplace(r, t);
    }
  }

  lemma AcceptableMeansPhasesOk(env: Env, r: Routes, t: Implementation)
    requires Acceptable(env, r, t)
    ensures PhasesOk(env, r, t)
  {
    DistinctSplit(t.newSelectors, t.oldSelectors);
    UsableThrough(env, r, t);
  }

  /** The new implementation is usable before the two installing phases exactly if it
      is usable after the removals. */
  lemma UsableThrough(env: Env, r: Routes, t: Implementation)
    ensures t.newSelectors != [] ==>
      (Within(t.newSelectors, t.oldSelectors) != [] || Without(t.newSelectors, t.oldSelectors) != [])
    ensures Within(t.newSelectors, t.oldSelectors) == [] ==> AfterReplace(r, t) == AfterRemove(r, t)
    ensures Within(t.newSelectors, t.oldSelectors) != [] ==> t.implAddress in AfterReplace(r, t).Values
  {
    var toReplace := Within(t.newSelectors, t.oldSelectors);
    if t.newSelectors != [] {
      var s := t.newSelectors[0];
      assert s in toReplace || s in Without(t.newSelectors, t.oldSelectors);
    }
    if toReplace != [] {
      assert toReplace[0] in toReplace;
      assert AfterReplace(r, t)[toReplace[0]] == t.implAddress;
    } else {
      assert AfterReplace(r, t) == AfterRemove(r, t);
    }
  }

  lemma AfterAddIsTarget(r: Routes, t: Implementation)
    requires forall s :: s in t.oldSelectors ==> s in r
    ensures AfterAdd(r, t) == Target(r, t)
  {
    var x, y := AfterAdd(r, t), Target(r, t);
    forall s: Selector ensures (s in x <==> s in y) && (s in x ==> x[s] == y[s]) {
      RouteAfterAdd(r, t, s);
    }
  }

  lemma RouteAfterAdd(r: Routes, t: Implementation, s: Selector)
    requires forall x :: x in t.oldSelectors ==> x in r
    ensures s in AfterAdd(r, t) <==> s in Target(r, t)
    ensures s in AfterAdd(r, t) ==> AfterAdd(r, t)[s] == Target(r, t)[s]
  {
    if s in t.newSelectors {
      assert s in Within(t.newSelectors, t.oldSelectors) || s in Without(t.newSelectors, t.oldSelectors);
    }
  }

  /** The cuts planned for one implementation are accepted exactly if it is acceptable,
      and then they produce exactly the intended routing. */
  lemma OneImplementation(env: Env, r: Routes, t: Implementation)
    ensures ApplyCuts(env, r, CutsFor(t), |CutsFor(t)|) ==
      if Acceptable(env, r, t) then Some(Target(r, t)) else None
  {
    CutsForIsThreePhases(env, r, t);
    ThreePhasesOk(env, r, t);
    if Acceptable(env, r, t) {
      AcceptableMeansPhasesOk(env, r, t);
      AfterAddIsTarget(r, t);
    } else if PhasesOk(env, r, t) {
      PhasesOkMeansAcceptable(env, r, t);
      assert false;
    }
  }

  // ---------- a batch of implementations ----------

  /** The proxy's answer to the cuts planned for the first n implementations. */
  function AfterPlan(env: Env, r: Routes, ts: seq<Implementation>, n: nat): Option<Routes>
    requires n <= |ts|
  {
    ApplyCuts(env, r, Plan(ts, n), |Plan(ts, n)|)
  }

  ghost function AfterOneMore(env: Env, before: Option<Routes>, t: Implementation): Option<Routes>
  {
    match before
    case None => None
    case Some(q) => if Acceptable(env, q, t) then Some(Target(q, t)) else None
  }

  /** The implementations applied one after the other, each as a whole. */
  ghost function AfterEach(env: Env, r: Routes, ts: seq<Implementation>, n: nat): Option<Routes>
    requires n <= |ts|
  {
    if n == 0 then Some(r) else AfterOneMore(env, AfterEach(env, r, ts, n - 1), ts[n - 1])
  }

  /** The flattened plan does what the implementations do one after the other. */
  lemma {:induction false} PlanIsEach(env: Env, r: Routes, ts: seq<Implementation>, n: nat)
    requires n <= |ts|
    ensures AfterPlan(env, r, ts, n) == AfterEach(env, r, ts, n)
  {
    if n > 0 {
      PlanIsEach(env, r, ts, n - 1);
      OneMore(env, r, Plan(ts, n - 1), CutsFor(ts[n - 1]), ts[n - 1], Plan(ts, n));
    }
  }

  lemma OneMore(env: Env, r: Routes, plan: seq<Cut>, cuts: seq<Cut>, t: Implementation, whole: seq<Cut>)
    requires cuts == CutsFor(t) && whole == plan + cuts
    ensures ApplyCuts(env, r, whole, |whole|) == AfterOneMore(env, ApplyCuts(env, r, plan, |plan|), t)
  {
    ThenConcat(env, r, plan, cuts);
    ThenOne(env, ApplyCuts(env, r, plan, |plan|), t);
  }

  lemma ThenOne(env: Env, before: Option<Routes>, t: Implementation)
    ensures Then(env, before, CutsFor(t)) == AfterOneMore(env, before, t)
  {
    if before.Some? {
      OneImplementation(env, before.value, t);
    }
  }

  /** All selectors superseded by the first n implementations. */
  function Olds(ts: seq<Implementation>, n: nat): set<Selector>
    requires n <= |ts|
  {
    if n == 0 then {} else Olds(ts, n - 1) + ToSet(ts[n - 1].oldSelectors)
  }

  /** All routes installed by the first n implementations. */
  function News(ts: seq<Implementation>, n: nat): Routes
    requires n <= |ts|
  {
    if n == 0 then map[] else News(ts, n - 1) + RouteAll(ts[n - 1].newSelectors, ts[n - 1].implAddress)
  }

  /** Everything old removed at once, everything new installed at once. */
  function BatchTarget(r: Routes, ts: seq<Implementation>, n: nat): Routes
    requires n <= |ts|
  {
    (r - Olds(ts, n)) + News(ts, n)
  }

  /** What a batch is assumed to be: old lists of routed selectors, new lists, each
      without repeats and not overlapping with those of the others; new implementations
      deployed. */
  ghost predicate WellPrepared(env: Env, r: Routes, ts: seq<Implementation>)
  {
    && (forall i :: 0 <= i < |ts| ==> Prepared(env, r, ts[i]))
    && (forall i, j :: 0 <= i < j < |ts| ==> Apart(ts[i], ts[j]))
  }

  ghost predicate Prepared(env: Env, r: Routes, t: Implementation)
  {
    && Distinct(t.oldSelectors)
    && Distinct(t.newSelectors)
    && (forall s :: s in t.oldSelectors ==> s in r)
    && t.implAddress != 0
    && env.hasCode(t.implAddress)
  }

  ghost predicate Apart(t: Implementation, u: Implementation)
  {
    Disjoint(t.oldSelectors, u.oldSelectors) && Disjoint(t.newSelectors, u.newSelectors)
  }

  /** Every selector the n-th implementation takes over from a routed one is among the
      old selectors of itself or an earlier implementation. */
  ghost predicate NoBackwardMove(r: Routes, ts: seq<Implementation>, n: nat)
    requires n < |ts|
  {
    forall s :: s in ts[n].newSelectors && s in r ==> s in Olds(ts, n + 1)
  }

  ghost predicate AllForward(r: Routes, ts: seq<Implementation>, n: nat)
    requires n <= |ts|
  {
    forall i :: 0 <= i < n ==> NoBackwardMove(r, ts, i)
  }

  /** No old selector is the proxy's own, and none that stays is routed to the new
      implementation already. */
  ghost predicate Movable(env: Env, r: Routes, t: Implementation)
  {
    && (forall s :: s in t.oldSelectors && s in r ==> r[s] != env.self)
    && (forall s :: s in t.oldSelectors && s in t.newSelectors && s in r ==> r[s] != t.implAddress)
  }

  ghost predicate AllMovable(env: Env, r: Routes, ts: seq<Implementation>, n: nat)
    requires n <= |ts|
  {
    forall i :: 0 <= i < n ==> Movable(env, r, ts[i])
  }

  lemma {:induction false} NewsMember(ts: seq<Implementation>, n: nat, s: Selector)
    requires n <= |ts|
    ensures s in News(ts, n) <==> exists i :: 0 <= i < n && s in ts[i].newSelectors
  {
    if n > 0 { NewsMember(ts, n - 1, s); }
  }

  /** The old selectors of the next implementation are still where they were. */
  lemma {:induction false} OldsUntouched(env: Env, r: Routes, ts: seq<Implementation>, m: nat, n: nat, s: Selector)
    requires m <= n < |ts| && WellPrepared(env, r, ts) && s in ts[n].oldSelectors && AllForward(r, ts, n)
    ensures s !in Olds(ts, m) && s !in News(ts, m)
  {
    if m > 0 {
      OldsUntouched(env, r, ts, m - 1, n, s);
      assert Prepared(env, r, ts[n]) && Apart(ts[m - 1], ts[n]) && NoBackwardMove(r, ts, m - 1);
    }
  }

  /** Given a well-prepared batch, the next implementation is acceptable exactly if it
      moves nothing backward and its old selectors can be moved. */
  lemma NextAcceptable(env: Env, r: Routes, ts: seq<Implementation>, n: nat)
    requires n < |ts| && WellPrepared(env, r, ts)
    requires AllForward(r, ts, n)
    ensures Acceptable(env, BatchTarget(r, ts, n), ts[n]) <==> NoBackwardMove(r, ts, n) && Movable(env, r, ts[n])
  {
    var t, q := ts[n], BatchTarget(r, ts, n);
    assert Prepared(env, r, t);
    DistinctSplit(t.oldSelectors, t.newSelectors);
    forall s | s in t.oldSelectors ensures s in q && q[s] == r[s] {
      OldsUntouched(env, r, ts, n, n, s);
    }
    forall s | s in t.newSelectors && s !in t.oldSelectors
      ensures s in q <==> s in r && s !in Olds(ts, n + 1)
    {
      NewsMember(ts, n, s);
      forall i | 0 <= i < n ensures s !in ts[i].newSelectors {
        assert Apart(ts[i], t);
      }
    }
  }

  lemma NextTarget(env: Env, r: Routes, ts: seq<Implementation>, n: nat)
    requires n < |ts| && WellPrepared(env, r, ts)
    requires AllForward(r, ts, n + 1)
    ensures Target(BatchTarget(r, ts, n), ts[n]) == BatchTarget(r, ts, n + 1)
  {
    var t := ts[n];
    forall s | s in t.oldSelectors ensures s !in News(ts, n) {
      OldsUntouched(env, r, ts, n, n, s);
    }
    EraseAfter(r, Olds(ts, n), News(ts, n), t.oldSelectors, RouteAll(t.newSelectors, t.implAddress));
  }

  lemma EraseAfter(r: Routes, olds: set<Selector>, news: Routes, list: seq<Selector>, last: Routes)
    requires forall s :: s in list ==> s !in news
    ensures Erase((r - olds) + news, list) + last == (r - (olds + ToSet(list))) + (news + last)
  {
    assert Erase((r - olds) + news, list) == (r - (olds + ToSet(list))) + news;
  }

  /** The whole batch is accepted exactly if no selector moves from a later to an earlier
      implementation or from an implementation outside the batch, no old selector is the
      proxy's own, and none is replaced by the implementation it already has; then the
      routing is the old one minus all old selectors plus all new ones. */
  lemma BatchUpgrade(env: Env, r: Routes, ts: seq<Implementation>, n: nat)
    requires n <= |ts| && WellPrepared(env, r, ts)
    ensures AfterPlan(env, r, ts, n) == BatchOutcome(env, r, ts, n)
  {
    PlanIsEach(env, r, ts, n);
    BatchEach(env, r, ts, n);
  }

  ghost function BatchOutcome(env: Env, r: Routes, ts: seq<Implementation>, n: nat): Option<Routes>
    requires n <= |ts|
  {
    if AllForward(r, ts, n) && AllMovable(env, r, ts, n) then Some(BatchTarget(r, ts, n)) else None
  }

  lemma {:induction false} BatchEach(env: Env, r: Routes, ts: seq<Implementation>, n: nat)
    requires n <= |ts| && WellPrepared(env, r, ts)
    ensures AfterEach(env, r, ts, n) == BatchOutcome(env, r, ts, n)
  {
    if n == 0 {
      EmptyBatch(env, r, ts);
    } else {
      var k := n - 1;
      BatchEach(env, r, ts, k);
      OneMoreEach(env, r, ts, k, n);
      NextInBatch(env, r, ts, k, n);
    }
  }

  lemma EmptyBatch(env: Env, r: Routes, ts: seq<Implementation>)
    ensures BatchOutcome(env, r, ts, 0) == Some(r) == AfterEach(env, r, ts, 0)
  {
    assert BatchTarget(r, ts, 0) == r;
  }

  lemma OneMoreEach(env: Env, r: Routes, ts: seq<Implementation>, k: nat, n: nat)
    requires n == k + 1 <= |ts|
    ensures AfterEach(env, r, ts, n) == AfterOneMore(env, AfterEach(env, r, ts, k), ts[k])
  {
  }

  lemma NextInBatch(env: Env, r: Routes, ts: seq<Implementation>, k: nat, n: nat)
    requires n == k + 1 <= |ts| && WellPrepared(env, r, ts)
    ensures AfterOneMore(env, BatchOutcome(env, r, ts, k), ts[k]) == BatchOutcome(env, r, ts, n)
  {
    AcceptedSoFar(env, r, ts, k);
    if AllForward(r, ts, k) && AllMovable(env, r, ts, k) {
      NextAcceptable(env, r, ts, k);
      if NoBackwardMove(r, ts, k) {
        NextTarget(env, r, ts, k);
      }
    }
  }

  lemma AcceptedSoFar(env: Env, r: Routes, ts: seq<Implementation>, k: nat)
    requires k < |ts|
    ensures AllForward(r, ts, k + 1) <==> AllForward(r, ts, k) && NoBackwardMove(r, ts, k)
    ensures AllMovable(env, r, ts, k + 1) <==> AllMovable(env, r, ts, k) && Movable(env, r, ts[k])
  {
  }

  /** A refused batch: implementation 30 supersedes 10 and also takes over selector 2 of
      20, which 40 supersedes later in the list.  In the other order the same batch is
      accepted. */
  lemma OrderMatters(env: Env)
    requires env.hasCode(30) && env.hasCode(40) && env.self == 5
    ensures var r: Routes := map[1 := 10, 2 := 20];
      var first, second := Implementation(30, [1, 2], [1]), Implementation(40, [], [2]);
      && AfterPlan(env, r, [first, second], 2) == None
      && AfterPlan(env, r, [second, first], 2) == Some(map[1 := 30, 2 := 30])
  {
    var r: Routes := map[1 := 10, 2 := 20];
    var first, second := Implementation(30, [1, 2], [1]), Implementation(40, [], [2]);
    FirstRefused(env, r, first, second);
    SecondAccepted(env, r, first, second);
  }

  lemma FirstRefused(env: Env, r: Routes, first: Implementation, second: Implementation)
    requires env.hasCode(30) && env.hasCode(40) && r == map[1 := 10, 2 := 20]
    requires first == Implementation(30, [1, 2], [1]) && second == Implementation(40, [], [2])
    ensures AfterPlan(env, r, [first, second], 2) == None
  {
    var ts := [first, second];
    BatchUpgrade(env, r, ts, 2);
    OldsOfOne(ts);
    assert 2 in ts[0].newSelectors && 2 in r && 2 !in Olds(ts, 1);
    assert !NoBackwardMove(r, ts, 0);
  }

  lemma OldsOfOne(ts: seq<Implementation>)
    requires ts != []
    ensures Olds(ts, 1) == ToSet(ts[0].oldSelectors)
    ensures News(ts, 1) == RouteAll(ts[0].newSelectors, ts[0].implAddress)
  {
    assert Olds(ts, 0) == {};
    assert News(ts, 0) == map[];
  }

  lemma SecondAccepted(env: Env, r: Routes, first: Implementation, second: Implementation)
    requires env.hasCode(30) && env.hasCode(40) && env.self == 5 && r == map[1 := 10, 2 := 20]
    requires first == Implementation(30, [1, 2], [1]) && second == Implementation(40, [], [2])
    ensures AfterPlan(env, r, [second, first], 2) == Some(map[1 := 30, 2 := 30])
  {
    var ts := [second, first];
    SecondPrepared(env, r, ts);
    SecondForward(r, ts);
    SecondTarget(r, ts);
    BatchUpgrade(env, r, ts, 2);
  }

  lemma SecondPrepared(env: Env, r: Routes, ts: seq<Implementation>)
    requires env.hasCode(30) && env.hasCode(40) && env.self == 5 && r == map[1 := 10, 2 := 20]
    requires ts == [Implementation(40, [], [2]), Implementation(30, [1, 2], [1])]
    ensures WellPrepared(env, r, ts) && AllMovable(env, r, ts, 2)
  {
  }

  lemma SecondTarget(r: Routes, ts: seq<Implementation>)
    requires r == map[1 := 10, 2 := 20] && ts == [Implementation(40, [], [2]), Implementation(30, [1, 2], [1])]
    ensures BatchTarget(r, ts, 2) == map[1 := 30, 2 := 30]
  {
    OldsOfTwo(ts);
    assert r - {1, 2} == map[];
  }

  lemma OldsOfTwo(ts: seq<Implementation>)
    requires ts == [Implementation(40, [], [2]), Implementation(30, [1, 2], [1])]
    ensures Olds(ts, 1) == {2} && Olds(ts, 2) == {1, 2}
    ensures News(ts, 2) == map[1 := 30, 2 := 30]
  {
    OldsOfOne(ts);
    assert News(ts, 1) == map[];
    assert RouteAll([1, 2], 30) == map[1 := 30, 2 := 30];
  }

  lemma SecondForward(r: Routes, ts: seq<Implementation>)
    requires r == map[1 := 10, 2 := 20] && ts == [Implementation(40, [], [2]), Implementation(30, [1, 2], [1])]
    ensures AllForward(r, ts, 2)
  {
    OldsOfTwo(ts);
    assert NoBackwardMove(r, ts, 0) && NoBackwardMove(r, ts, 1);
  }

  /** A selector replaced by the implementation it already has is refused, and the batch
      with it. */
  lemma SameImplementationRefused(env: Env)
    requires env.hasCode(10) && env.self == 5
    ensures AfterPlan(env, map[1 := 10], [Implementation(10, [1], [1])], 1) == None
  {
    var r: Routes := map[1 := 10];
    var ts := [Implementation(10, [1], [1])];
    BatchUpgrade(env, r, ts, 1);
    assert 1 in ts[0].oldSelectors && 1 in ts[0].newSelectors;
    assert !Movable(env, r, ts[0]);
  }

  // ---------- an old selector listed twice ----------

  ghost predicate NewsApart(ts: seq<Implementation>)
  {
    forall i, j :: 0 <= i < j < |ts| ==> Disjoint(ts[i].newSelectors, ts[j].newSelectors)
  }

  /** What one more implementation does to one selector. */
  lemma OneMoreSelector(env: Env, r: Routes, ts: seq<Implementation>, m: nat, n: nat, s: Selector)
    requires n == m + 1 <= |ts| && AfterEach(env, r, ts, n).Some?
    ensures AfterEach(env, r, ts, m).Some?
    ensures FollowsAt(ts[m], s in AfterEach(env, r, ts, m).value, s in AfterEach(env, r, ts, n).value, s)
  {
    OneMoreEach(env, r, ts, m, n);
    TargetSelector(AfterEach(env, r, ts, m).value, ts[m], s);
  }

  lemma TargetSelector(q: Routes, t: Implementation, s: Selector)
    ensures s in Target(q, t) <==> s in t.newSelectors || (s in q && s !in t.oldSelectors)
  {
  }

  /** When s is routed, implementation by implementation. */
  ghost predicate Follows(ts: seq<Implementation>, routed: seq<bool>, s: Selector)
  {
    |routed| == |ts| + 1 && forall m: nat :: m < |ts| ==> FollowsAt(ts[m], routed[m], routed[m + 1], s)
  }

  predicate FollowsAt(t: Implementation, before: bool, after: bool, s: Selector)
  {
    (after <==> s in t.newSelectors || (before && s !in t.oldSelectors)) && (s in t.oldSelectors ==> before)
  }

  /** After an implementation that supersedes s, s is routed only if this one or a later
      one installs it. */
  lemma {:induction false} RoutedMeansInstalled(ts: seq<Implementation>, routed: seq<bool>, i: nat, n: nat, s: Selector) returns (k: nat)
    requires Follows(ts, routed, s) && i < n <= |ts| && s in ts[i].oldSelectors && routed[n]
    ensures k < n && s in ts[k].newSelectors
    decreases n
  {
    var m := n - 1;
    assert FollowsAt(ts[m], routed[m], routed[m + 1], s);
    if s in ts[m].newSelectors {
      k := m;
    } else {
      k := RoutedMeansInstalled(ts, routed, i, m, s);
    }
  }

  /** A selector not installed by the later ones does not come back. */
  lemma {:induction false} GoneStaysGone(ts: seq<Implementation>, routed: seq<bool>, j: nat, n: nat, s: Selector)
    requires Follows(ts, routed, s) && j < n <= |ts| && s in ts[j].oldSelectors
    requires forall k :: j <= k < n ==> s !in ts[k].newSelectors
    ensures !routed[n]
    decreases n
  {
    var m := n - 1;
    assert FollowsAt(ts[m], routed[m], routed[m + 1], s);
    if j < m { GoneStaysGone(ts, routed, j, m, s); }
  }

  lemma FollowsSnoc(ts: seq<Implementation>, routed: seq<bool>, m: nat, n: nat, after: bool, s: Selector)
    requires n == m + 1 <= |ts| && Follows(ts[..m], routed, s) && FollowsAt(ts[m], routed[m], after, s)
    ensures Follows(ts[..n], routed + [after], s)
  {
    forall k: nat | k < n ensures FollowsAt(ts[..n][k], (routed + [after])[k], (routed + [after])[k + 1], s) {
      if k < m { assert FollowsAt(ts[..m][k], routed[k], routed[k + 1], s); }
    }
  }

  /** An accepted batch, seen at one selector. */
  lemma {:induction false} SelectorTrace(env: Env, r: Routes, ts: seq<Implementation>, n: nat, s: Selector) returns (routed: seq<bool>)
    requires n <= |ts| && AfterEach(env, r, ts, n).Some?
    ensures Follows(ts[..n], routed, s)
    ensures routed[n] == (s in AfterEach(env, r, ts, n).value)
  {
    if n == 0 {
      routed := [s in r];
    } else {
      var m := n - 1;
      OneMoreSelector(env, r, ts, m, n, s);
      var after := s in AfterEach(env, r, ts, n).value;
      var before := SelectorTrace(env, r, ts, m, s);
      FollowsSnoc(ts, before, m, n, after, s);
      routed := before + [after];
    }
  }

  /** If two implementations list the same old selector, the batch is refused, or it loses
      a selector that it installs: it never ends as intended. */
  lemma ListedTwice(env: Env, r: Routes, ts: seq<Implementation>, i: nat, j: nat, s: Selector)
    requires i < j < |ts| && s in ts[i].oldSelectors && s in ts[j].oldSelectors && NewsApart(ts)
    ensures var after := AfterPlan(env, r, ts, |ts|);
      after.Some? ==> s !in after.value && s in News(ts, |ts|)
  {
    var n := |ts|;
    PlanIsEach(env, r, ts, n);
    if AfterEach(env, r, ts, n).Some? {
      var routed := SelectorTrace(env, r, ts, n, s);
      assert ts[..n] == ts;
      assert FollowsAt(ts[j], routed[j], routed[j + 1], s);
      var k := RoutedMeansInstalled(ts, routed, i, j, s);
      NewsMember(ts, n, s);
      forall m | j <= m < n ensures s !in ts[m].newSelectors {
        assert Disjoint(ts[k].newSelectors, ts[m].newSelectors);
      }
      GoneStaysGone(ts, routed, j, n, s);
    }
  }
}
