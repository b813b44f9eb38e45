/**
 The scripts that upgrade or reset the pool proxy, and the collision check over the
 selector lists they install.
 */
module UpgradeScripts {
  import opened Results
  import opened Sequences
  import opened ParaProxy
  import opened Upgrade

  // ---------- the collision check ----------

  datatype FunctionSignature = FunctionSignature(name: string, signature: Selector)

  function Selectors(fs: seq<FunctionSignature>): seq<Selector>
  {
    seq(|fs|, i requires 0 <= i < |fs| => fs[i].signature)
  }

  /** Fails exactly if some selector occurs twice in the concatenation of all lists. */
  method CheckCollisions(poolSelectors: seq<FunctionSignature>) returns (r: Result<()>)
    ensures r.Success? <==> Distinct(Selectors(poolSelectors))
  {
    var allSelectors: map<Selector, FunctionSignature> := map[];
    for i := 0 to |poolSelectors|
      invariant Distinct(Selectors(poolSelectors)[..i])
      invariant forall s :: s in allSelectors <==> s in Selectors(poolSelectors)[..i]
    {
      var selector := poolSelectors[i];
      PrefixStep(Selectors(poolSelectors), i);
      if selector.signature !in allSelectors {
        allSelectors := allSelectors[selector.signature := selector];
      } else {
        NotDistinct(Selectors(poolSelectors), i + 1);
        return Failure("added function " + selector.name + " conflict with exist function:"
                       + allSelectors[selector.signature].name);
      }
    }
    FullPrefix(Selectors(poolSelectors));
    r := Success(());
  }

  lemma NotDistinct(s: seq<Selector>, n: nat)
    requires n <= |s| && !Distinct(s[..n])
    ensures !Distinct(s)
  {
    var j, k :| 0 <= j < k < n && s[..n][j] == s[..n][k];
    assert s[j] == s[k];
  }

  ghost predicate PairwiseDisjoint(lists: seq<seq<Selector>>)
  {
    && (forall i :: 0 <= i < |lists| ==> Distinct(lists[i]))
    && (forall i, j :: 0 <= i < j < |lists| ==> Disjoint(lists[i], lists[j]))
  }

  lemma {:induction false} ConcatMember(lists: seq<seq<Selector>>, s: Selector)
    ensures s in Concat(lists) <==> exists i :: 0 <= i < |lists| && s in lists[i]
  {
    if lists != [] {
      ConcatMember(lists[1..], s);
      if s in Concat(lists[1..]) {
        var i :| 0 <= i < |lists| - 1 && s in lists[1..][i];
        assert s in lists[i + 1];
      }
      if i :| 0 < i < |lists| && s in lists[i] {
        assert s in lists[1..][i - 1];
      }
    }
  }

  /** The check passes exactly if every list is free of repeats and no two lists share
      a selector. */
  lemma {:induction false} NoCollisionMeansDisjoint(lists: seq<seq<Selector>>)
    ensures Distinct(Concat(lists)) <==> PairwiseDisjoint(lists)
  {
    if lists != [] {
      var rest := lists[1..];
      NoCollisionMeansDisjoint(rest);
      DistinctConcat(lists[0], Concat(rest));
      if Distinct(Concat(lists)) {
        forall i, j | 0 <= i < j < |lists| ensures Disjoint(lists[i], lists[j]) {
          assert lists[j] == rest[j - 1];
          if i > 0 {
            assert lists[i] == rest[i - 1];
          } else {
            forall s | s in lists[0] ensures s !in lists[j] {
              ConcatMember(rest, s);
            }
          }
        }
        forall i | 0 <= i < |lists| ensures Distinct(lists[i]) {
          if i > 0 { assert lists[i] == rest[i - 1]; }
        }
      }
      if PairwiseDisjoint(lists) {
        forall s | s in lists[0] ensures s !in Concat(rest) {
          ConcatMember(rest, s);
          forall i | 0 <= i < |rest| ensures s !in rest[i] {
            assert Disjoint(lists[0], lists[i + 1]);
          }
        }
        forall i, j | 0 <= i < j < |rest| ensures Disjoint(rest[i], rest[j]) {
          assert Disjoint(lists[i + 1], lists[j + 1]);
        }
      }
    }
  }

  // ---------- what is installed ----------

  datatype Install = Install(implAddress: Address, selectors: seq<Selector>)

  /** The deployed pool components; ape staking exists only where APE does. */
  datatype Components = Components(core: Install, marketplace: Install, parameters: Install, apeStaking: Option<Install>)
  {
    function Installs(): seq<Install>
    {
      [core, marketplace, parameters] + (if apeStaking.Some? then [apeStaking.value] else [])
    }
  }

  function InstallAll(installs: seq<Install>, n: nat): Routes
    requires n <= |installs|
  {
    if n == 0 then map[] else InstallAll(installs, n - 1) + RouteAll(installs[n - 1].selectors, installs[n - 1].implAddress)
  }

  /** Deployed components: with code, not the zero address, their lists passing the
      collision check. */
  ghost predicate Deployed(env: Env, installs: seq<Install>)
  {
    && (forall i :: 0 <= i < |installs| ==>
          && installs[i].implAddress != 0
          && env.hasCode(installs[i].implAddress)
          && Distinct(installs[i].selectors))
    && (forall i, j :: 0 <= i < j < |installs| ==> Disjoint(installs[i].selectors, installs[j].selectors))
  }

  // ---------- upgradePool ----------

  /** The implementations to upgrade are different ones and the components deployed. */
  ghost predicate Upgradable(env: Env, r: Routes, facets: seq<Address>, installs: seq<Install>)
  {
    && |facets| == |installs|
    && Deployed(env, installs)
    && (forall i, j :: 0 <= i < j < |facets| ==> facets[i] != facets[j] || facets[i] !in r.Values)
  }

  /** The i-th facet is not the proxy itself, and if the new implementation is the old one
      it keeps none of its selectors. */
  ghost predicate MovableAt(env: Env, r: Routes, facets: seq<Address>, installs: seq<Install>, i: nat)
    requires i < |facets| == |installs|
  {
    && (facets[i] in r.Values ==> facets[i] != env.self)
    && (facets[i] == installs[i].implAddress ==> forall s :: s in installs[i].selectors && s in r ==> r[s] != facets[i])
  }

  /** The condition for the proxy to accept an upgrade. */
  ghost predicate Accepts(env: Env, r: Routes, facets: seq<Address>, installs: seq<Install>)
    requires |facets| == |installs|
  {
    MovesForward(r, facets, installs) && forall i :: 0 <= i < |installs| ==> MovableAt(env, r, facets, installs, i)
  }

  /** Every selector of the i-th install that is already routed belongs to the facet it
      replaces or to one replaced earlier. */
  ghost predicate ForwardAt(r: Routes, facets: seq<Address>, installs: seq<Install>, i: nat)
    requires i < |facets| == |installs|
  {
    forall s :: s in installs[i].selectors && s in r ==> r[s] in facets[..i + 1]
  }

  ghost predicate MovesForward(r: Routes, facets: seq<Address>, installs: seq<Install>)
    requires |facets| == |installs|
  {
    forall i :: 0 <= i < |installs| ==> ForwardAt(r, facets, installs, i)
  }

  /** All routes to the old facets gone, everything new installed. */
  function Upgraded(r: Routes, facets: seq<Address>, installs: seq<Install>): Routes
  {
    (map s | s in r && r[s] !in facets :: r[s]) + InstallAll(installs, |installs|)
  }

  /** The batch as the script builds it from the proxy's answers. */
  ghost predicate Describes(r: Routes, facets: seq<Address>, installs: seq<Install>, ts: seq<Implementation>)
  {
    && |ts| == |facets| == |installs|
    && (forall i :: 0 <= i < |ts| ==>
          && IsFacetList(r, facets[i], ts[i].oldSelectors)
          && ts[i].newSelectors == installs[i].selectors
          && ts[i].implAddress == installs[i].implAddress)
  }

  lemma DescribedIsWellPrepared(env: Env, r: Routes, facets: seq<Address>, installs: seq<Install>, ts: seq<Implementation>)
    requires Describes(r, facets, installs, ts) && Upgradable(env, r, facets, installs)
    ensures WellPrepared(env, r, ts)
  {
    forall i | 0 <= i < |ts| ensures Prepared(env, r, ts[i]) {
    }
    forall i, j | 0 <= i < j < |ts| ensures Apart(ts[i], ts[j]) {
      assert Disjoint(installs[i].selectors, installs[j].selectors);
    }
  }

  lemma {:induction false} OldsAreFacets(r: Routes, facets: seq<Address>, installs: seq<Install>, ts: seq<Implementation>, n: nat)
    requires Describes(r, facets, installs, ts) && n <= |ts|
    ensures forall s: Selector :: s in Olds(ts, n) <==> s in r && r[s] in facets[..n]
    ensures News(ts, n) == InstallAll(installs, n)
  {
    if n > 0 {
      OldsAreFacets(r, facets, installs, ts, n - 1);
      assert facets[..n] == facets[..n - 1] + [facets[n - 1]];
      assert IsFacetList(r, facets[n - 1], ts[n - 1].oldSelectors);
    }
  }

  lemma ForwardMeansNoBackward(r: Routes, facets: seq<Address>, installs: seq<Install>, ts: seq<Implementation>)
    requires Describes(r, facets, installs, ts)
    ensures AllForward(r, ts, |ts|) <==> MovesForward(r, facets, installs)
  {
    forall i: nat | i < |ts| ensures NoBackwardMove(r, ts, i) <==> ForwardAt(r, facets, installs, i) {
      OldsAreFacets(r, facets, installs, ts, i + 1);
    }
  }

  lemma MovableMeansMovable(env: Env, r: Routes, facets: seq<Address>, installs: seq<Install>, ts: seq<Implementation>)
    requires Describes(r, facets, installs, ts)
    ensures AllMovable(env, r, ts, |ts|) <==> forall i :: 0 <= i < |installs| ==> MovableAt(env, r, facets, installs, i)
  {
    forall i: nat | i < |ts| ensures Movable(env, r, ts[i]) <==> MovableAt(env, r, facets, installs, i) {
      assert IsFacetList(r, facets[i], ts[i].oldSelectors);
    }
  }

  lemma DescribedTarget(r: Routes, facets: seq<Address>, installs: seq<Install>, ts: seq<Implementation>)
    requires Describes(r, facets, installs, ts)
    ensures BatchTarget(r, ts, |ts|) == Upgraded(r, facets, installs)
  {
    OldsAreFacets(r, facets, installs, ts, |ts|);
    assert facets[..|ts|] == facets;
    assert r - Olds(ts, |ts|) == map s | s in r && r[s] !in facets :: r[s];
  }

  /** The outcome of an upgrade, in terms of the routing alone: exactly when the proxy
      accepts, and that it then routes exactly as intended. */
  lemma UpgradeOutcome(env: Env, r: Routes, facets: seq<Address>, installs: seq<Install>, ts: seq<Implementation>)
    requires Describes(r, facets, installs, ts) && Upgradable(env, r, facets, installs)
    ensures AfterPlan(env, r, ts, |ts|) ==
      if Accepts(env, r, facets, installs) then Some(Upgraded(r, facets, installs)) else None
  {
    DescribedIsWellPrepared(env, r, facets, installs, ts);
    BatchUpgrade(env, r, ts, |ts|);
    ForwardMeansNoBackward(r, facets, installs, ts);
    MovableMeansMovable(env, r, facets, installs, ts);
    DescribedTarget(r, facets, installs, ts);
  }

  method UpgradeProxyImplementations(proxy: Proxy, implementations: seq<Implementation>) returns (ok: bool)
    requires proxy.Valid()
    modifies proxy
    ensures proxy.Valid()
    ensures var outcome := AfterPlan(proxy.env, old(proxy.Routing()), implementations, |implementations|);
      (ok <==> outcome.Some?) && proxy.Routing() == if ok then outcome.value else old(proxy.Routing())
  {
    var cuts := PlanCuts(implementations);
    ok := proxy.UpdateImplementation(cuts);
  }

  /** The old implementations an upgrade reads, in the order of the new ones. */
  function OldFacets(core: Address, marketplace: Address, parameters: Address, apeStaking: Address, c: Components): seq<Address>
  {
    [core, marketplace, parameters] + (if c.apeStaking.Some? then [apeStaking] else [])
  }

  /** The selector of facetFunctionSelectors(address). */
  const FACET_FUNCTION_SELECTORS: Selector := 0xadfca15e

  /** What an upgrade does to the routing: refused if the old lists cannot be read; with
      different old facets accepted exactly under Accepts, and the routing is then the
      intended one; with one old facet in use given twice never the intended one.  On
      failure the routing is unchanged. */
  ghost predicate UpgradeResult(env: Env, r: Routes, facets: seq<Address>, installs: seq<Install>, ok: bool, after: Routes)
  {
    && (!ok ==> after == r)
    && (FACET_FUNCTION_SELECTORS !in r ==> !ok)
    && (FACET_FUNCTION_SELECTORS in r && Upgradable(env, r, facets, installs) ==>
          && (ok <==> Accepts(env, r, facets, installs))
          && (ok ==> after == Upgraded(r, facets, installs)))
    && (FACET_FUNCTION_SELECTORS in r && |facets| == |installs| && Deployed(env, installs)
          && !Upgradable(env, r, facets, installs) ==>
          ok ==> after != Upgraded(r, facets, installs))
  }

  /** One old facet in use given twice. */
  lemma FacetTwice(env: Env, r: Routes, facets: seq<Address>, installs: seq<Install>, ts: seq<Implementation>)
    requires Describes(r, facets, installs, ts) && Deployed(env, installs) && !Upgradable(env, r, facets, installs)
    ensures var after := AfterPlan(env, r, ts, |ts|);
      after.Some? ==> after.value != Upgraded(r, facets, installs)
  {
    var i, j :| 0 <= i < j < |facets| && facets[i] == facets[j] && facets[i] in r.Values;
    var s :| s in r && r[s] == facets[i];
    assert IsFacetList(r, facets[i], ts[i].oldSelectors) && IsFacetList(r, facets[j], ts[j].oldSelectors);
    forall k, l | 0 <= k < l < |ts| ensures Disjoint(ts[k].newSelectors, ts[l].newSelectors) {
      assert Disjoint(installs[k].selectors, installs[l].selectors);
    }
    ListedTwice(env, r, ts, i, j, s);
    OldsAreFacets(r, facets, installs, ts, |ts|);
  }

  lemma UpgradeResultHolds(env: Env, r: Routes, facets: seq<Address>, installs: seq<Install>, ts: seq<Implementation>,
                           ok: bool, after: Routes)
    requires Describes(r, facets, installs, ts) && FACET_FUNCTION_SELECTORS in r
    requires var outcome := AfterPlan(env, r, ts, |ts|);
      (ok <==> outcome.Some?) && after == if ok then outcome.value else r
    ensures UpgradeResult(env, r, facets, installs, ok, after)
  {
    if Upgradable(env, r, facets, installs) {
      UpgradeOutcome(env, r, facets, installs, ts);
    } else if Deployed(env, installs) {
      FacetTwice(env, r, facets, installs, ts);
    }
  }

  // ---------- component by component ----------

  ghost predicate DeployedPart(env: Env, t: Install)
  {
    t.implAddress != 0 && env.hasCode(t.implAddress) && Distinct(t.selectors)
  }

  /** All components have code, and no selector is in two lists or twice in one. */
  ghost predicate ComponentsDeployed(env: Env, c: Components)
  {
    && DeployedPart(env, c.core) && DeployedPart(env, c.marketplace) && DeployedPart(env, c.parameters)
    && Disjoint(c.core.selectors, c.marketplace.selectors)
    && Disjoint(c.core.selectors, c.parameters.selectors)
    && Disjoint(c.marketplace.selectors, c.parameters.selectors)
    && (c.apeStaking.Some? ==>
          && DeployedPart(env, c.apeStaking.value)
          && Disjoint(c.core.selectors, c.apeStaking.value.selectors)
          && Disjoint(c.marketplace.selectors, c.apeStaking.value.selectors)
          && Disjoint(c.parameters.selectors, c.apeStaking.value.selectors))
  }

  /** A component that supersedes its own old facet alone. */
  ghost predicate OrdinaryPart(env: Env, r: Routes, oldFacet: Address, t: Install)
  {
    oldFacet != env.self && t.implAddress != oldFacet && forall s :: s in t.selectors && s in r ==> r[s] == oldFacet
  }

  /** Four different old facets, each superseded by the component of the same kind. */
  ghost predicate OrdinaryUpgrade(env: Env, r: Routes, oldCore: Address, oldMarketplace: Address,
                                  oldParameters: Address, oldApeStaking: Address, c: Components)
  {
    && FACET_FUNCTION_SELECTORS in r && ComponentsDeployed(env, c)
    && OrdinaryPart(env, r, oldCore, c.core)
    && OrdinaryPart(env, r, oldMarketplace, c.marketplace)
    && OrdinaryPart(env, r, oldParameters, c.parameters)
    && oldCore != oldMarketplace && oldCore != oldParameters && oldMarketplace != oldParameters
    && (c.apeStaking.Some? ==>
          && OrdinaryPart(env, r, oldApeStaking, c.apeStaking.value)
          && oldApeStaking != oldCore && oldApeStaking != oldMarketplace && oldApeStaking != oldParameters)
  }

  /** The selectors of a component are routed to it. */
  ghost predicate PartRouted(after: Routes, t: Install)
  {
    forall s :: s in t.selectors ==> s in after && after[s] == t.implAddress
  }

  /** Every component has its own selectors. */
  ghost predicate ComponentsRouted(after: Routes, c: Components)
  {
    && PartRouted(after, c.core) && PartRouted(after, c.marketplace) && PartRouted(after, c.parameters)
    && (c.apeStaking.Some? ==> PartRouted(after, c.apeStaking.value))
  }

  predicate Installed(c: Components, s: Selector)
  {
    s in c.core.selectors || s in c.marketplace.selectors || s in c.parameters.selectors ||
    (c.apeStaking.Some? && s in c.apeStaking.value.selectors)
  }

  /** The selectors that no component has: as before, without those routed to an old facet
      that is superseded. */
  ghost predicate RestUpgraded(r: Routes, after: Routes, oldCore: Address, oldMarketplace: Address,
                               oldParameters: Address, oldApeStaking: Address, c: Components)
  {
    forall s: Selector :: !Installed(c, s) ==>
      && (s in after <==> s in r && r[s] != oldCore && r[s] != oldMarketplace && r[s] != oldParameters &&
                          (c.apeStaking.Some? ==> r[s] != oldApeStaking))
      && (s in after ==> after[s] == r[s])
  }

  /** The selectors that no component has: of the kept facet, as before. */
  ghost predicate RestReset(r: Routes, after: Routes, c: Components)
    requires FACETS in r
  {
    forall s: Selector :: !Installed(c, s) ==>
      (s in after <==> s in r && r[s] == r[FACETS]) && (s in after ==> after[s] == r[FACETS])
  }

  lemma DeployedComponents(env: Env, c: Components)
    requires ComponentsDeployed(env, c)
    ensures Deployed(env, c.Installs())
  {
  }

  /** What installing all components installs. */
  lemma ComponentsInstalled(env: Env, c: Components, all: Routes)
    requires ComponentsDeployed(env, c) && all == InstallAll(c.Installs(), |c.Installs()|)
    ensures forall s: Selector :: s in all <==> Installed(c, s)
    ensures ComponentsRouted(all, c)
  {
    var installs := c.Installs();
    DeployedComponents(env, c);
    InstallAllRoutes(env, installs, |installs|);
    forall i | 0 <= i < |installs| ensures PartRouted(all, installs[i]) {
    }
    assert installs[0] == c.core && installs[1] == c.marketplace && installs[2] == c.parameters;
    assert c.apeStaking.Some? ==> installs[3] == c.apeStaking.value;
    InstalledMember(c, installs);
  }

  lemma InstalledMember(c: Components, installs: seq<Install>)
    requires installs == c.Installs()
    ensures forall s: Selector :: Installed(c, s) <==> exists i :: 0 <= i < |installs| && s in installs[i].selectors
  {
    assert installs[0] == c.core && installs[1] == c.marketplace && installs[2] == c.parameters;
    assert c.apeStaking.Some? ==> installs[3] == c.apeStaking.value;
  }

  /** Upgrades that supersede different facets, each part its own, are accepted. */
  lemma OrdinaryAccepted(env: Env, r: Routes, facets: seq<Address>, installs: seq<Install>)
    requires |facets| == |installs| && Deployed(env, installs)
    requires forall i, j :: 0 <= i < j < |facets| ==> facets[i] != facets[j]
    requires forall i :: 0 <= i < |facets| ==> OrdinaryPart(env, r, facets[i], installs[i])
    ensures Upgradable(env, r, facets, installs) && Accepts(env, r, facets, installs)
  {
    forall i | 0 <= i < |installs| ensures ForwardAt(r, facets, installs, i) && MovableAt(env, r, facets, installs, i) {
      assert facets[..i + 1][i] == facets[i];
      assert OrdinaryPart(env, r, facets[i], installs[i]);
    }
  }

  lemma OrdinaryParts(env: Env, r: Routes, oldCore: Address, oldMarketplace: Address, oldParameters: Address,
                      oldApeStaking: Address, c: Components, facets: seq<Address>, installs: seq<Install>)
    requires OrdinaryUpgrade(env, r, oldCore, oldMarketplace, oldParameters, oldApeStaking, c)
    requires facets == OldFacets(oldCore, oldMarketplace, oldParameters, oldApeStaking, c) && installs == c.Installs()
    ensures forall i, j :: 0 <= i < j < |facets| ==> facets[i] != facets[j]
    ensures forall i :: 0 <= i < |facets| ==> OrdinaryPart(env, r, facets[i], installs[i])
  {
  }

  /** An ordinary upgrade succeeds and routes every component's selectors to it. */
  lemma OrdinaryUpgradeSucceeds(env: Env, r: Routes, oldCore: Address, oldMarketplace: Address, oldParameters: Address,
                                oldApeStaking: Address, c: Components, ok: bool, after: Routes)
    requires OrdinaryUpgrade(env, r, oldCore, oldMarketplace, oldParameters, oldApeStaking, c)
    requires UpgradeResult(env, r, OldFacets(oldCore, oldMarketplace, oldParameters, oldApeStaking, c), c.Installs(), ok, after)
    ensures ok && ComponentsRouted(after, c)
    ensures RestUpgraded(r, after, oldCore, oldMarketplace, oldParameters, oldApeStaking, c)
  {
    var facets := OldFacets(oldCore, oldMarketplace, oldParameters, oldApeStaking, c);
    DeployedComponents(env, c);
    OrdinaryParts(env, r, oldCore, oldMarketplace, oldParameters, oldApeStaking, c, facets, c.Installs());
    OrdinaryAccepted(env, r, facets, c.Installs());
    ComponentsInstalled(env, c, InstallAll(c.Installs(), |c.Installs()|));
  }

  /** Replacing the pool's components. */
  method UpgradePool(proxy: Proxy, oldCore: Address, oldMarketplace: Address, oldParameters: Address,
                     oldApeStaking: Address, c: Components)
    returns (ok: bool)
    requires proxy.Valid()
    modifies proxy
    ensures proxy.Valid()
    ensures UpgradeResult(proxy.env, old(proxy.Routing()),
                          OldFacets(oldCore, oldMarketplace, oldParameters, oldApeStaking, c), c.Installs(),
                          ok, proxy.Routing())
    ensures FACET_FUNCTION_SELECTORS !in old(proxy.Routing()) ==> !ok && proxy.Routing() == old(proxy.Routing())
    ensures OrdinaryUpgrade(proxy.env, old(proxy.Routing()), oldCore, oldMarketplace, oldParameters, oldApeStaking, c) ==>
      && ok && ComponentsRouted(proxy.Routing(), c)
      && RestUpgraded(old(proxy.Routing()), proxy.Routing(), oldCore, oldMarketplace, oldParameters, oldApeStaking, c)
  {
    ghost var r := proxy.Routing();
    ghost var facets := OldFacets(oldCore, oldMarketplace, oldParameters, oldApeStaking, c);
    var reader := proxy.FacetAddress(FACET_FUNCTION_SELECTORS);
    if reader == 0 {
      return false; // the call of facetFunctionSelectors(address) is routed nowhere and reverts
    }
    var oldCoreSelectors := proxy.FacetFunctionSelectors(oldCore);
    var oldApeStakingSelectors := proxy.FacetFunctionSelectors(oldApeStaking);
    var oldMarketplaceSelectors := proxy.FacetFunctionSelectors(oldMarketplace);
    var oldParametersSelectors := proxy.FacetFunctionSelectors(oldParameters);
    var implementations := [
      Implementation(c.core.implAddress, c.core.selectors, oldCoreSelectors),
      Implementation(c.marketplace.implAddress, c.marketplace.selectors, oldMarketplaceSelectors),
      Implementation(c.parameters.implAddress, c.parameters.selectors, oldParametersSelectors)];
    if c.apeStaking.Some? {
      var ape := c.apeStaking.value;
      implementations := implementations + [Implementation(ape.implAddress, ape.selectors, oldApeStakingSelectors)];
    }
    assert Describes(r, facets, c.Installs(), implementations);
    ok := UpgradeProxyImplementations(proxy, implementations);
    UpgradeResultHolds(proxy.env, r, facets, c.Installs(), implementations, ok, proxy.Routing());
    if OrdinaryUpgrade(proxy.env, r, oldCore, oldMarketplace, oldParameters, oldApeStaking, c) {
      OrdinaryUpgradeSucceeds(proxy.env, r, oldCore, oldMarketplace, oldParameters, oldApeStaking, c, ok, proxy.Routing());
    }
  }

  // ---------- resetPool ----------

  /** The selector of facets(). */
  const FACETS: Selector := 0x7a0ed627

  /** The selector of facetAddress(bytes4). */
  const FACET_ADDRESS: Selector := 0xcdffacc6

  /** What is left after removing every facet but one. */
  function OnlyFacet(r: Routes, a: Address): Routes
  {
    map s | s in r && r[s] == a :: r[s]
  }

  function WithoutFacets(r: Routes, addresses: seq<Address>): Routes
  {
    map s | s in r && r[s] !in addresses :: r[s]
  }

  /** The cut that removes all selectors of the facet a. */
  ghost predicate IsFacetRemoval(r: Routes, a: Address, cut: Cut)
  {
    && cut.action == Remove && cut.implAddress == 0 && cut.functionSelectors != []
    && IsFacetList(r, a, cut.functionSelectors)
  }

  /** Removing whole facets one after the other: accepted exactly if none of them is the
      proxy itself. */
  lemma {:induction false} RemoveFacets(env: Env, r: Routes, addresses: seq<Address>, cuts: seq<Cut>, n: nat)
    requires n <= |cuts| == |addresses| && Distinct(addresses)
    requires forall i :: 0 <= i < |cuts| ==> IsFacetRemoval(r, addresses[i], cuts[i])
    ensures ApplyCuts(env, r, cuts, n) ==
      if env.self !in addresses[..n] then Some(WithoutFacets(r, addresses[..n])) else None
  {
    if n == 0 {
      assert WithoutFacets(r, addresses[..0]) == r;
    } else {
      RemoveFacets(env, r, addresses, cuts, n - 1);
      var a, cut := addresses[n - 1], cuts[n - 1];
      assert addresses[..n] == addresses[..n - 1] + [a];
      if env.self !in addresses[..n - 1] {
        RemoveOneFacet(env, r, addresses[..n - 1], a, cut);
      }
    }
  }

  lemma RemoveOneFacet(env: Env, r: Routes, gone: seq<Address>, a: Address, cut: Cut)
    requires IsFacetRemoval(r, a, cut) && a !in gone
    ensures ApplyCut(env, WithoutFacets(r, gone), cut) ==
      if env.self != a then Some(WithoutFacets(r, gone + [a])) else None
  {
    var q, list := WithoutFacets(r, gone), cut.functionSelectors;
    RemoveEffect(env, q, cut, |list|);
    FullPrefix(list);
    assert forall s :: s in list ==> s in q && q[s] == a;
    assert list[0] in list;
    if env.self != a {
      assert Erase(q, list) == WithoutFacets(r, gone + [a]);
    }
  }

  /** The cuts that remove all facets but one. */
  method FacetRemovals(ghost r: Routes, facets: seq<(Address, seq<Selector>)>, keep: Address)
    returns (cuts: seq<Cut>, ghost addresses: seq<Address>)
    requires forall i :: 0 <= i < |facets| ==> facets[i].1 != [] && IsFacetList(r, facets[i].0, facets[i].1)
    requires forall i, j :: 0 <= i < j < |facets| ==> facets[i].0 != facets[j].0
    ensures |cuts| == |addresses| && Distinct(addresses)
    ensures forall k :: 0 <= k < |cuts| ==> IsFacetRemoval(r, addresses[k], cuts[k])
    ensures forall a :: a in addresses <==> a != keep && exists k :: 0 <= k < |facets| && facets[k].0 == a
  {
    cuts, addresses := [], [];
    for i := 0 to |facets|
      invariant |cuts| == |addresses| && Distinct(addresses)
      invariant forall k :: 0 <= k < |cuts| ==> IsFacetRemoval(r, addresses[k], cuts[k])
      invariant forall a :: a in addresses <==> a != keep && exists k :: 0 <= k < i && facets[k].0 == a
    {
      if facets[i].0 != keep {
        DistinctConcat(addresses, [facets[i].0]);
        cuts := cuts + [Cut(0, Remove, facets[i].1)];
        addresses := addresses + [facets[i].0];
      }
    }
  }

  /** facets() and facetAddress(bytes4) are routed, and no selector outside the facet of
      facets() is routed to the proxy itself. */
  predicate Resettable(env: Env, r: Routes)
  {
    FACETS in r && FACET_ADDRESS in r && forall s :: s in r ==> r[s] == r[FACETS] || r[s] != env.self
  }

  method ResetSelectors(proxy: Proxy) returns (ok: bool)
    requires proxy.Valid()
    modifies proxy
    ensures proxy.Valid()
    ensures ok <==> Resettable(proxy.env, old(proxy.Routing()))
    ensures proxy.Routing() == if ok then OnlyFacet(old(proxy.Routing()), old(proxy.Routing())[FACETS]) else old(proxy.Routing())
  {
    ghost var r := proxy.Routing();
    var interfaces := proxy.FacetAddress(FACETS);
    var reader := proxy.FacetAddress(FACET_ADDRESS);
    if interfaces == 0 || reader == 0 {
      return false; // the call of facets() or of facetAddress(bytes4) is routed nowhere and reverts
    }
    var facets := proxy.Facets();
    var cuts;
    ghost var addresses;
    cuts, addresses := FacetRemovals(r, facets, interfaces);
    RemoveFacets(proxy.env, r, addresses, cuts, |cuts|);
    assert addresses[..|cuts|] == addresses;
    FacetsCover(r, facets, addresses, interfaces);
    ok := proxy.UpdateImplementation(cuts);
  }

  /** The facets other than one are what routes everything else. */
  lemma FacetsCover(r: Routes, facets: seq<(Address, seq<Selector>)>, addresses: seq<Address>, a: Address)
    requires CoversRouting(r, facets)
    requires forall i :: 0 <= i < |facets| ==> facets[i].1 != [] && IsFacetList(r, facets[i].0, facets[i].1)
    requires forall b :: b in addresses <==> b != a && exists k :: 0 <= k < |facets| && facets[k].0 == b
    ensures WithoutFacets(r, addresses) == OnlyFacet(r, a)
    ensures forall b :: b in addresses <==> b != a && b in r.Values
  {
    forall b | b in addresses ensures b in r.Values {
      var k :| 0 <= k < |facets| && facets[k].0 == b;
      var s := facets[k].1[0];
      assert s in facets[k].1;
      assert s in r && r[s] == b;
    }
    forall s | s in r ensures r[s] in addresses <==> r[s] != a {
    }
  }

  /** The implementations of a reset supersede nothing. */
  function Fresh(installs: seq<Install>): seq<Implementation>
  {
    seq(|installs|, i requires 0 <= i < |installs| =>
      Implementation(installs[i].implAddress, installs[i].selectors, []))
  }

  /** None of the selectors to install is routed. */
  ghost predicate AllFree(r: Routes, installs: seq<Install>)
  {
    forall i :: 0 <= i < |installs| ==> FreeIn(r, installs[i].selectors)
  }

  ghost predicate FreeIn(r: Routes, selectors: seq<Selector>)
  {
    forall s :: s in selectors ==> s !in r
  }

  /** Installing without superseding: accepted exactly if none of the selectors is
      routed. */
  lemma InstallOutcome(env: Env, r: Routes, installs: seq<Install>)
    requires Deployed(env, installs)
    ensures var ts := Fresh(installs);
      AfterPlan(env, r, ts, |ts|) ==
        if AllFree(r, installs) then Some(r + InstallAll(installs, |installs|)) else None
  {
    FreshIsWellPrepared(env, r, installs);
    BatchUpgrade(env, r, Fresh(installs), |installs|);
    FreshForward(r, installs);
    FreshTarget(r, installs);
  }

  lemma FreshForward(r: Routes, installs: seq<Install>)
    ensures AllForward(r, Fresh(installs), |installs|) <==> AllFree(r, installs)
  {
    var ts := Fresh(installs);
    forall i: nat | i < |ts| ensures NoBackwardMove(r, ts, i) <==> FreeIn(r, installs[i].selectors) {
      FreshRoutes(installs, i + 1);
    }
  }

  lemma FreshTarget(r: Routes, installs: seq<Install>)
    ensures BatchTarget(r, Fresh(installs), |installs|) == r + InstallAll(installs, |installs|)
  {
    FreshRoutes(installs, |installs|);
    assert r - {} == r;
  }

  lemma FreshIsWellPrepared(env: Env, r: Routes, installs: seq<Install>)
    requires Deployed(env, installs)
    ensures WellPrepared(env, r, Fresh(installs))
  {
    var ts := Fresh(installs);
    forall i, j | 0 <= i < j < |ts| ensures Apart(ts[i], ts[j]) {
      assert Disjoint(installs[i].selectors, installs[j].selectors);
    }
    forall i | 0 <= i < |ts| ensures Prepared(env, r, ts[i]) {
    }
  }

  lemma {:induction false} FreshRoutes(installs: seq<Install>, n: nat)
    requires n <= |installs|
    ensures Olds(Fresh(installs), n) == {} && News(Fresh(installs), n) == InstallAll(installs, n)
  {
    if n > 0 { FreshRoutes(installs, n - 1); }
  }

  /** What a reset does to the routing. */
  ghost predicate ResetResult(env: Env, r: Routes, installs: seq<Install>, ok: bool, after: Routes)
  {
    if !Resettable(env, r) then !ok && after == r
    else
      var kept := OnlyFacet(r, r[FACETS]);
      && (!ok ==> after == kept)
      && (Deployed(env, installs) ==>
            && (ok <==> AllFree(kept, installs))
            && (ok ==> after == kept + InstallAll(installs, |installs|)))
  }

  /** Whether none of the components' selectors is routed to the kept facet. */
  ghost predicate OrdinaryReset(env: Env, r: Routes, c: Components)
  {
    && Resettable(env, r) && ComponentsDeployed(env, c)
    && forall s: Selector :: s in r && r[s] == r[FACETS] ==> !Installed(c, s)
  }

  /** Such a reset succeeds and routes every component's selectors to it. */
  lemma OrdinaryResetSucceeds(env: Env, r: Routes, c: Components, ok: bool, after: Routes)
    requires OrdinaryReset(env, r, c) && ResetResult(env, r, c.Installs(), ok, after)
    ensures ok && ComponentsRouted(after, c) && RestReset(r, after, c)
  {
    DeployedComponents(env, c);
    ComponentsInstalled(env, c, InstallAll(c.Installs(), |c.Installs()|));
    var kept, installs := OnlyFacet(r, r[FACETS]), c.Installs();
    forall i | 0 <= i < |installs| ensures FreeIn(kept, installs[i].selectors) {
      assert forall s :: s in installs[i].selectors ==> Installed(c, s);
    }
  }

  /** Resetting the pool: every facet but that of facets() is removed, then the new
      components are installed.  The two updates are separate transactions, so a
      refused installation leaves the proxy with the interfaces alone. */
  method ResetPool(proxy: Proxy, c: Components) returns (ok: bool)
    requires proxy.Valid()
    modifies proxy
    ensures proxy.Valid()
    ensures ResetResult(proxy.env, old(proxy.Routing()), c.Installs(), ok, proxy.Routing())
    ensures FACETS !in old(proxy.Routing()) || FACET_ADDRESS !in old(proxy.Routing()) ==>
      !ok && proxy.Routing() == old(proxy.Routing())
    ensures OrdinaryReset(proxy.env, old(proxy.Routing()), c) ==>
      ok && ComponentsRouted(proxy.Routing(), c) && RestReset(old(proxy.Routing()), proxy.Routing(), c)
  {
    ghost var r := proxy.Routing();
    ok := ResetSelectors(proxy);
    if !ok {
      return;
    }
    var implementations := [
      Implementation(c.core.implAddress, c.core.selectors, []),
      Implementation(c.marketplace.implAddress, c.marketplace.selectors, []),
      Implementation(c.parameters.implAddress, c.parameters.selectors, [])];
    if c.apeStaking.Some? {
      var ape := c.apeStaking.value;
      implementations := implementations + [Implementation(ape.implAddress, ape.selectors, [])];
    }
    assert implementations == Fresh(c.Installs());
    ghost var kept := proxy.Routing();
    ok := UpgradeProxyImplementations(proxy, implementations);
    if Deployed(proxy.env, c.Installs()) {
      InstallOutcome(proxy.env, kept, c.Installs());
    }
    if OrdinaryReset(proxy.env, r, c) {
      OrdinaryResetSucceeds(proxy.env, r, c, ok, proxy.Routing());
    }
  }

  // ---------- what the collision check is for ----------

  /** The function lists of all contracts of the pool. */
  datatype PoolSignatures = PoolSignatures(
    core: seq<FunctionSignature>, parameters: seq<FunctionSignature>, marketplace: seq<FunctionSignature>,
    apeStaking: seq<FunctionSignature>, borrowAndStake: seq<FunctionSignature>, proxy: seq<FunctionSignature>,
    interfaces: seq<FunctionSignature>, positionMover: seq<FunctionSignature>, aaPositionMover: seq<FunctionSignature>)
  {
    /** In the order in which the check goes through them. */
    function Lists(): seq<seq<FunctionSignature>>
    {
      [core, parameters, marketplace, apeStaking, borrowAndStake, proxy, interfaces, positionMover, aaPositionMover]
    }
  }

  /** How often a list has a selector. */
  function Count(fs: seq<FunctionSignature>, x: Selector): nat
  {
    multiset(Selectors(fs))[x]
  }

  /** No selector is twice in one of the nine lists, nor in two of them. */
  ghost predicate NoneTwice(sigs: PoolSignatures)
  {
    forall x: Selector :: CountAll(sigs, x) <= 1
  }

  function CountAll(sigs: PoolSignatures, x: Selector): nat
  {
    Count(sigs.core, x) + Count(sigs.parameters, x) + Count(sigs.marketplace, x) + Count(sigs.apeStaking, x) +
    Count(sigs.borrowAndStake, x) + Count(sigs.proxy, x) + Count(sigs.interfaces, x) +
    Count(sigs.positionMover, x) + Count(sigs.aaPositionMover, x)
  }

  lemma CountCons(first: seq<FunctionSignature>, rest: seq<seq<FunctionSignature>>, x: Selector)
    ensures Count(Concat([first] + rest), x) == Count(first, x) + Count(Concat(rest), x)
  {
    assert ([first] + rest)[1..] == rest;
    assert Selectors(first + Concat(rest)) == Selectors(first) + Selectors(Concat(rest));
  }

  lemma CountOfLists(lists: seq<seq<FunctionSignature>>, x: Selector)
    requires |lists| == 9
    ensures Count(Concat(lists), x) ==
      Count(lists[0], x) + Count(lists[1], x) + Count(lists[2], x) + Count(lists[3], x) + Count(lists[4], x) +
      Count(lists[5], x) + Count(lists[6], x) + Count(lists[7], x) + Count(lists[8], x)
  {
    forall i: nat | i < 9 ensures Count(Concat(lists[i..]), x) == Count(lists[i], x) + Count(Concat(lists[i + 1..]), x) {
      assert lists[i..] == [lists[i]] + lists[i + 1..];
      CountCons(lists[i], lists[i + 1..], x);
    }
    CountNone(lists[9..], x);
    assert lists[0..] == lists;
  }

  lemma CountNone(lists: seq<seq<FunctionSignature>>, x: Selector)
    requires lists == []
    ensures Count(Concat(lists), x) == 0
  {
  }

  lemma {:induction false} DistinctCounts(s: seq<Selector>)
    ensures Distinct(s) <==> forall x: Selector :: multiset(s)[x] <= 1
  {
    if s != [] {
      var k := |s| - 1;
      DistinctCounts(s[..k]);
      DistinctConcat(s[..k], [s[k]]);
      assert s == s[..k] + [s[k]];
      assert forall x: Selector :: multiset(s)[x] == multiset(s[..k])[x] + multiset([s[k]])[x];
      assert multiset([s[k]])[s[k]] == 1;
    }
  }

  lemma CollisionMeansTwice(sigs: PoolSignatures)
    ensures Distinct(Selectors(Concat(sigs.Lists()))) <==> NoneTwice(sigs)
  {
    DistinctCounts(Selectors(Concat(sigs.Lists())));
    forall x: Selector ensures multiset(Selectors(Concat(sigs.Lists())))[x] == CountAll(sigs, x) {
      CountOfLists(sigs.Lists(), x);
    }
  }

  method GetPoolSignatures(sigs: PoolSignatures) returns (r: Result<PoolSignatures>)
    ensures r.Success? <==> PairwiseDisjoint(SelectorLists(sigs.Lists()))
    ensures r.Success? <==> NoneTwice(sigs)
    ensures r.Success? ==> r.value == sigs
  {
    SelectorsConcat(sigs.Lists());
    NoCollisionMeansDisjoint(SelectorLists(sigs.Lists()));
    CollisionMeansTwice(sigs);
    var poolSelectors := Concat(sigs.Lists());
    var _ :- CheckCollisions(poolSelectors);
    r := Success(sigs);
  }

  function SelectorLists(lists: seq<seq<FunctionSignature>>): seq<seq<Selector>>
  {
    seq(|lists|, i requires 0 <= i < |lists| => Selectors(lists[i]))
  }

  lemma {:induction false} SelectorsConcat(lists: seq<seq<FunctionSignature>>)
    ensures Selectors(Concat(lists)) == Concat(SelectorLists(lists))
  {
    if lists != [] {
      SelectorsConcat(lists[1..]);
      assert SelectorLists(lists)[1..] == SelectorLists(lists[1..]);
    }
  }

  /** The components deployed from the function lists, in the order of installation. */
  ghost predicate DeployedFrom(env: Env, sigs: PoolSignatures, c: Components)
  {
    && (forall i :: 0 <= i < |c.Installs()| ==> c.Installs()[i].implAddress != 0 && env.hasCode(c.Installs()[i].implAddress))
    && c.core.selectors == Selectors(sigs.core)
    && c.marketplace.selectors == Selectors(sigs.marketplace)
    && c.parameters.selectors == Selectors(sigs.parameters)
    && (c.apeStaking.Some? ==> c.apeStaking.value.selectors == Selectors(sigs.apeStaking))
  }

  /** Each installed list is one of the checked lists, a different one for each. */
  function Origin(i: nat): nat
  {
    if i == 1 then 2 else if i == 2 then 1 else i
  }

  lemma CheckedComponents(env: Env, sigs: PoolSignatures, c: Components)
    requires DeployedFrom(env, sigs, c) && PairwiseDisjoint(SelectorLists(sigs.Lists()))
    ensures Deployed(env, c.Installs())
    ensures forall i :: 0 <= i < |c.Installs()| ==> Disjoint(c.Installs()[i].selectors, Selectors(sigs.interfaces))
  {
    var lists, installs := SelectorLists(sigs.Lists()), c.Installs();
    forall i | 0 <= i < |installs| ensures installs[i].selectors == lists[Origin(i)] {
    }
    forall i, j | 0 <= i < j < |installs| ensures Disjoint(installs[i].selectors, installs[j].selectors) {
      var a, b := Origin(i), Origin(j);
      assert if a < b then Disjoint(lists[a], lists[b]) else Disjoint(lists[b], lists[a]);
    }
    forall i | 0 <= i < |installs| ensures Disjoint(installs[i].selectors, Selectors(sigs.interfaces)) {
      assert Disjoint(lists[Origin(i)], lists[6]);
    }
  }

  /** A reset with components whose lists pass the check always succeeds, provided the
      facet it keeps routes interface functions only. */
  lemma CheckedResetSucceeds(env: Env, r: Routes, sigs: PoolSignatures, c: Components, ok: bool, after: Routes)
    requires DeployedFrom(env, sigs, c) && PairwiseDisjoint(SelectorLists(sigs.Lists()))
    requires Resettable(env, r) && forall s :: s in OnlyFacet(r, r[FACETS]) ==> s in Selectors(sigs.interfaces)
    requires ResetResult(env, r, c.Installs(), ok, after)
    ensures ok
    ensures forall s: Selector :: s in after <==>
      s in OnlyFacet(r, r[FACETS]) || exists i :: 0 <= i < |c.Installs()| && s in c.Installs()[i].selectors
    ensures forall i, s :: 0 <= i < |c.Installs()| && s in c.Installs()[i].selectors ==>
      s in after && after[s] == c.Installs()[i].implAddress
    ensures forall s :: s in OnlyFacet(r, r[FACETS]) ==> s in after && after[s] == r[FACETS]
  {
    var kept, installs := OnlyFacet(r, r[FACETS]), c.Installs();
    CheckedComponents(env, sigs, c);
    forall i | 0 <= i < |installs| ensures FreeIn(kept, installs[i].selectors) {
      assert Disjoint(installs[i].selectors, Selectors(sigs.interfaces));
    }
    InstallAllRoutes(env, installs, |installs|);
    forall s | s in kept ensures s !in InstallAll(installs, |installs|) {
      forall i | 0 <= i < |installs| ensures s !in installs[i].selectors {
        assert FreeIn(kept, installs[i].selectors);
      }
    }
  }

  lemma {:induction false} InstallAllRoutes(env: Env, installs: seq<Install>, n: nat)
    requires n <= |installs| && Deployed(env, installs)
    ensures forall s: Selector :: s in InstallAll(installs, n) <==> exists i :: 0 <= i < n && s in installs[i].selectors
    ensures forall i, s :: 0 <= i < n && s in installs[i].selectors ==> InstallAll(installs, n)[s] == installs[i].implAddress
  {
    if n > 0 {
      InstallAllRoutes(env, installs, n - 1);
      forall i, s | 0 <= i < n && s in installs[i].selectors
        ensures s in InstallAll(installs, n) && InstallAll(installs, n)[s] == installs[i].implAddress
      {
        if i < n - 1 {
          assert Disjoint(installs[i].selectors, installs[n - 1].selectors);
        }
      }
    }
  }
}
