/**
 The proxy contract that routes function selectors to implementation contracts:
 its storage, its update function and its introspection functions.

 The storage keeps three tables in step: selector to (implementation, position),
 implementation to list of selectors, and the list of implementations in use.
 Removal moves the last entry into the gap.  Consistent says what being in step
 means; Routing is the meaning of the storage, a map from selector to address.
 */
module ParaProxy {
  import opened Results

  /** 0 is the zero address. */
  type Address = nat
  type Selector = x: nat | x < 0x1_0000_0000

  datatype Action = Add | Replace | Remove

  datatype Cut = Cut(implAddress: Address, action: Action, functionSelectors: seq<Selector>)

  datatype Entry = Entry(implAddress: Address, functionSelectorPosition: nat)

  datatype ProxyStorage = ProxyStorage(
    entries: map<Selector, Entry>,
    selectorsOf: map<Address, seq<Selector>>,
    positionOf: map<Address, nat>,
    implementationAddresses: seq<Address>)
  {
    /** The implementation of a selector, zero if there is none. */
    function ImplOf(s: Selector): Address
    {
      if s in entries then entries[s].implAddress else 0
    }

    function Selectors(a: Address): seq<Selector>
    {
      if a in selectorsOf then selectorsOf[a] else []
    }

    /** The meaning of the storage. */
    function Routing(): map<Selector, Address>
    {
      map s | s in entries :: entries[s].implAddress
    }
  }

  /** Each table's entries point to each other; `extra` is an implementation that may
      be listed although it has no selectors yet (zero for none). */
  ghost predicate Consistent(d: ProxyStorage, extra: Address)
  {
    && EntriesSound(d)
    && ListsSound(d)
    && (forall a :: a in d.implementationAddresses <==> d.Selectors(a) != [] || (a == extra && a != 0))
    && (forall i :: 0 <= i < |d.implementationAddresses| ==>
          d.implementationAddresses[i] in d.positionOf && d.positionOf[d.implementationAddresses[i]] == i)
  }

  /** The entry of s, if any, points to s in the list of its implementation. */
  predicate EntryOk(d: ProxyStorage, s: Selector)
  {
    s in d.entries ==>
      var e := d.entries[s];
      && e.implAddress != 0
      && e.functionSelectorPosition < |d.Selectors(e.implAddress)|
      && d.Selectors(e.implAddress)[e.functionSelectorPosition] == s
  }

  /** The selector at position i of the list of a, if any, has its entry there. */
  predicate SlotOk(d: ProxyStorage, a: Address, i: nat)
  {
    i < |d.Selectors(a)| ==>
      d.Selectors(a)[i] in d.entries && d.entries[d.Selectors(a)[i]] == Entry(a, i)
  }

  ghost predicate EntriesSound(d: ProxyStorage)
  {
    forall s :: EntryOk(d, s)
  }

  ghost predicate ListsSound(d: ProxyStorage)
  {
    forall a, i :: SlotOk(d, a, i)
  }

  // ---------- what an update means for the routing ----------

  /** The environment of an update: the proxy's own address, and which addresses
      hold code. */
  datatype Env = Env(self: Address, hasCode: Address -> bool)

  /** Add one selector, if it is free. */
  function AddOne(r: map<Selector, Address>, impl: Address, s: Selector): Option<map<Selector, Address>>
  {
    if s in r then None else Some(r[s := impl])
  }

  /** Point one selector elsewhere, if it is routed, to another implementation, and
      not to the proxy itself. */
  function ReplaceOne(env: Env, r: map<Selector, Address>, impl: Address, s: Selector): Option<map<Selector, Address>>
  {
    if s !in r || r[s] == impl || r[s] == env.self then None else Some(r[s := impl])
  }

  /** Remove one selector, if it is routed and not to the proxy itself. */
  function RemoveOne(env: Env, r: map<Selector, Address>, s: Selector): Option<map<Selector, Address>>
  {
    if s !in r || r[s] == env.self then None else Some(r - {s})
  }

  function StepOne(env: Env, r: map<Selector, Address>, cut: Cut, s: Selector): Option<map<Selector, Address>>
  {
    match cut.action
    case Add => AddOne(r, cut.implAddress, s)
    case Replace => ReplaceOne(env, r, cut.implAddress, s)
    case Remove => RemoveOne(env, r, s)
  }

  /** The first n selectors of a cut, one after the other. */
  function Steps(env: Env, r: map<Selector, Address>, cut: Cut, n: nat): Option<map<Selector, Address>>
    requires n <= |cut.functionSelectors|
  {
    if n == 0 then Some(r)
    else match Steps(env, r, cut, n - 1)
      case None => None
      case Some(q) => StepOne(env, q, cut, cut.functionSelectors[n - 1])
  }

  /** What a cut demands before its selectors are looked at. */
  predicate Admissible(env: Env, r: map<Selector, Address>, cut: Cut)
  {
    && cut.functionSelectors != []
    && (cut.action.Remove? <==> cut.implAddress == 0)
    && (!cut.action.Remove? && cut.implAddress !in r.Values ==> env.hasCode(cut.implAddress))
  }

  function ApplyCut(env: Env, r: map<Selector, Address>, cut: Cut): Option<map<Selector, Address>>
  {
    if Admissible(env, r, cut) then Steps(env, r, cut, |cut.functionSelectors|) else None
  }

  /** The routing after the first n cuts, None if one of them is refused. */
  function ApplyCuts(env: Env, r: map<Selector, Address>, cuts: seq<Cut>, n: nat): Option<map<Selector, Address>>
    requires n <= |cuts|
  {
    if n == 0 then Some(r)
    else match ApplyCuts(env, r, cuts, n - 1)
      case None => None
      case Some(q) => ApplyCut(env, q, cuts[n - 1])
  }

  // ---------- the storage operations ----------

  lemma RoutingOf(d: ProxyStorage, s: Selector)
    requires EntriesSound(d)
    ensures d.ImplOf(s) == 0 <==> s !in d.Routing()
    ensures s in d.Routing() ==> d.Routing()[s] == d.ImplOf(s)
  {
    assert EntryOk(d, s);
  }

  /** An implementation is in use exactly if it has selectors. */
  lemma InUse(d: ProxyStorage, a: Address)
    requires EntriesSound(d) && ListsSound(d)
    ensures a in d.Routing().Values <==> d.Selectors(a) != []
  {
    if d.Selectors(a) != [] {
      assert SlotOk(d, a, 0);
      var s := d.Selectors(a)[0];
      assert s in d.Routing() && d.Routing()[s] == a;
    }
    if a in d.Routing().Values {
      var s :| s in d.Routing() && d.Routing()[s] == a;
      assert EntryOk(d, s);
    }
  }

  /** The list of an implementation: each selector routed to it, once. */
  lemma ListOf(d: ProxyStorage, a: Address)
    requires EntriesSound(d) && ListsSound(d)
    ensures IsFacetList(d.Routing(), a, d.Selectors(a))
  {
    forall i, j | 0 <= i < j < |d.Selectors(a)| ensures d.Selectors(a)[i] != d.Selectors(a)[j] {
      assert SlotOk(d, a, i) && SlotOk(d, a, j);
    }
    forall s: Selector ensures s in d.Selectors(a) <==> s in d.Routing() && d.Routing()[s] == a {
      assert EntryOk(d, s);
      if s in d.Selectors(a) {
        var i: nat :| i < |d.Selectors(a)| && d.Selectors(a)[i] == s;
        assert SlotOk(d, a, i);
      }
    }
  }

  lemma SameTables(d: ProxyStorage, e: ProxyStorage)
    requires EntriesSound(d) && ListsSound(d) && e.entries == d.entries && e.selectorsOf == d.selectorsOf
    ensures EntriesSound(e) && ListsSound(e) && e.Routing() == d.Routing()
    ensures forall a :: e.Selectors(a) == d.Selectors(a)
  {
    forall s ensures EntryOk(e, s) {
      assert EntryOk(d, s);
    }
    forall a, i ensures SlotOk(e, a, i) {
      assert SlotOk(d, a, i);
    }
  }

  /** selectors lists what r routes to a, without repeats. */
  ghost predicate IsFacetList(r: map<Selector, Address>, a: Address, selectors: seq<Selector>)
  {
    && (forall i, j :: 0 <= i < j < |selectors| ==> selectors[i] != selectors[j])
    && (forall s: Selector :: s in selectors <==> s in r && r[s] == a)
  }

  /** Every routed selector's implementation is among the facets. */
  ghost predicate CoversRouting(r: map<Selector, Address>, facets: seq<(Address, seq<Selector>)>)
  {
    forall s :: s in r ==> exists i :: 0 <= i < |facets| && facets[i].0 == r[s]
  }

  /** A cut that fails at one selector fails. */
  lemma {:induction false} StepsNone(env: Env, r: map<Selector, Address>, cut: Cut, i: nat, n: nat)
    requires i <= n <= |cut.functionSelectors| && Steps(env, r, cut, i).None?
    ensures Steps(env, r, cut, n).None?
  {
    if i < n { StepsNone(env, r, cut, i, n - 1); }
  }

  lemma {:induction false} CutsNone(env: Env, r: map<Selector, Address>, cuts: seq<Cut>, i: nat, n: nat)
    requires i <= n <= |cuts| && ApplyCuts(env, r, cuts, i).None?
    ensures ApplyCuts(env, r, cuts, n).None?
  {
    if i < n { CutsNone(env, r, cuts, i, n - 1); }
  }

  /** A list without its entry p, the last one moved into its place. */
  function SwapPop<T>(list: seq<T>, p: nat): seq<T>
  {
    if p < |list| then list[p := list[|list| - 1]][..|list| - 1] else list
  }

  /** e is d without s: in the list of its implementation the last selector has moved into
      its place, and if that leaves the list empty, the last address into that of the
      implementation. */
  ghost predicate Popped(d: ProxyStorage, s: Selector, a: Address, e: ProxyStorage)
  {
    && s in d.entries && a in d.positionOf
    && e.Selectors(a) == SwapPop(d.Selectors(a), d.entries[s].functionSelectorPosition)
    && e.implementationAddresses ==
         if e.Selectors(a) != [] then d.implementationAddresses else SwapPop(d.implementationAddresses, d.positionOf[a])
  }

  class Proxy {
    const env: Env
    var ds: ProxyStorage

    ghost predicate Valid()
      reads this
    {
      Consistent(ds, 0)
    }

    ghost function Routing(): map<Selector, Address>
      reads this
    {
      ds.Routing()
    }

    constructor (env: Env)
      ensures Valid() && Routing() == map[] && this.env == env
    {
      this.env := env;
      this.ds := ProxyStorage(map[], map[], map[], []);
    }

    method AddFacet(impl: Address) returns (ok: bool)
      requires impl != 0 && Consistent(ds, 0) && ds.Selectors(impl) == []
      modifies this
      ensures ok <==> env.hasCode(impl)
      ensures ok ==> Consistent(ds, impl) && Routing() == old(Routing())
      ensures ok ==> forall a :: ds.Selectors(a) == old(ds.Selectors(a))
      ensures ok ==> ds.implementationAddresses == old(ds.implementationAddresses) + [impl]
    {
      if !env.hasCode(impl) {
        return false;
      }
      ghost var before := ds;
      assert impl !in before.implementationAddresses;
      ds := ds.(positionOf := ds.positionOf[impl := |ds.implementationAddresses|]);
      ds := ds.(implementationAddresses := ds.implementationAddresses + [impl]);
      SameTables(before, ds);
      ok := true;
    }

    method AddFunction(s: Selector, position: nat, impl: Address)
      requires impl != 0 && Consistent(ds, impl) && s !in ds.entries && position == |ds.Selectors(impl)|
      modifies this
      ensures Consistent(ds, impl) && Routing() == old(Routing())[s := impl]
      ensures ds.Selectors(impl) == old(ds.Selectors(impl)) + [s]
      ensures ds.implementationAddresses == old(ds.implementationAddresses)
    {
      ghost var before := ds;
      ds := ds.(entries := ds.entries[s := Entry(0, position)]);
      ds := ds.(selectorsOf := ds.selectorsOf[impl := ds.Selectors(impl) + [s]]);
      ds := ds.(entries := ds.entries[s := Entry(impl, position)]);
      SelectorAdded(before, s, impl, ds);
    }

    method RemoveFunction(impl: Address, s: Selector, ghost extra: Address) returns (ok: bool)
      requires Consistent(ds, extra) && impl == ds.ImplOf(s) && (impl != 0 ==> impl != extra)
      modifies this
      ensures ok <==> impl != 0 && impl != env.self
      ensures ok ==> Consistent(ds, extra) && s !in ds.entries && Routing() == old(Routing()) - {s}
      ensures ok ==> forall a :: a != impl ==> ds.Selectors(a) == old(ds.Selectors(a))
      ensures ok ==> Popped(old(ds), s, impl, ds)
    {
      if impl == 0 || impl == env.self {
        return false;
      }
      ghost var before := ds;
      var selectorPosition := ds.entries[s].functionSelectorPosition;
      assert EntryOk(ds, s);
      var lastSelectorPosition := |ds.selectorsOf[impl]| - 1;
      assert SlotOk(ds, impl, lastSelectorPosition) && SlotOk(ds, impl, selectorPosition);
      if selectorPosition != lastSelectorPosition {
        var lastSelector := ds.selectorsOf[impl][lastSelectorPosition];
        ds := ds.(selectorsOf := ds.selectorsOf[impl := ds.selectorsOf[impl][selectorPosition := lastSelector]]);
        ds := ds.(entries := ds.entries[lastSelector := ds.entries[lastSelector].(functionSelectorPosition := selectorPosition)]);
      }
      ds := ds.(selectorsOf := ds.selectorsOf[impl := ds.selectorsOf[impl][..lastSelectorPosition]]);
      ds := ds.(entries := ds.entries - {s});
      ghost var middle := ds;
      SelectorRemoved(before, s, impl, before.Selectors(impl), selectorPosition, middle);
      if lastSelectorPosition == 0 {
        var lastPosition := |ds.implementationAddresses| - 1;
        var position := ds.positionOf[impl];
        if position != lastPosition {
          var lastAddress := ds.implementationAddresses[lastPosition];
          ds := ds.(implementationAddresses := ds.implementationAddresses[position := lastAddress]);
          ds := ds.(positionOf := ds.positionOf[lastAddress := position]);
        }
        ds := ds.(implementationAddresses := ds.implementationAddresses[..lastPosition]);
        ds := ds.(positionOf := ds.positionOf - {impl});
        AddressRemoved(middle, impl, extra, ds);
      }
      ok := true;
    }

    method AddFunctions(impl: Address, selectors: seq<Selector>) returns (ok: bool)
      requires Valid()
      modifies this
      ensures ok <==> ApplyCut(env, old(Routing()), Cut(impl, Add, selectors)).Some?
      ensures ok ==> Valid() && Some(Routing()) == ApplyCut(env, old(Routing()), Cut(impl, Add, selectors))
    {
      ghost var r, cut := Routing(), Cut(impl, Add, selectors);
      if |selectors| == 0 || impl == 0 {
        return false;
      }
      var selectorPosition := |ds.Selectors(impl)|;
      InUse(ds, impl);
      if selectorPosition == 0 {
        var added := AddFacet(impl);
        if !added {
          return false;
        }
      }
      for i := 0 to |selectors|
        invariant Consistent(ds, impl) && selectorPosition == |ds.Selectors(impl)|
        invariant i > 0 ==> ds.Selectors(impl) != []
        invariant Steps(env, r, cut, i) == Some(Routing())
      {
        var selector := selectors[i];
        RoutingOf(ds, selector);
        if ds.ImplOf(selector) != 0 {
          StepsNone(env, r, cut, i + 1, |selectors|);
          return false;
        }
        AddFunction(selector, selectorPosition, impl);
        selectorPosition := selectorPosition + 1;
      }
      ok := true;
    }

    /** One selector taken from its implementation and appended to another one's list. */
    method ReplaceFunction(s: Selector, position: nat, impl: Address) returns (ok: bool)
      requires impl != 0 && Consistent(ds, impl) && position == |ds.Selectors(impl)|
      modifies this
      ensures ok <==> ReplaceOne(env, old(Routing()), impl, s).Some?
      ensures ok ==> Consistent(ds, impl) && Routing() == old(Routing())[s := impl]
      ensures ok ==> |ds.Selectors(impl)| == position + 1
    {
      ghost var q := Routing();
      RoutingOf(ds, s);
      var oldImpl := ds.ImplOf(s);
      if oldImpl == impl {
        return false;
      }
      ok := RemoveFunction(oldImpl, s, impl);
      if !ok {
        return;
      }
      AddFunction(s, position, impl);
      assert (q - {s})[s := impl] == q[s := impl];
    }

    method ReplaceFunctions(impl: Address, selectors: seq<Selector>) returns (ok: bool)
      requires Valid()
      modifies this
      ensures ok <==> ApplyCut(env, old(Routing()), Cut(impl, Replace, selectors)).Some?
      ensures ok ==> Valid() && Some(Routing()) == ApplyCut(env, old(Routing()), Cut(impl, Replace, selectors))
    {
      ghost var r, cut := Routing(), Cut(impl, Replace, selectors);
      if |selectors| == 0 || impl == 0 {
        return false;
      }
      var selectorPosition := |ds.Selectors(impl)|;
      InUse(ds, impl);
      if selectorPosition == 0 {
        var added := AddFacet(impl);
        if !added {
          return false;
        }
      }
      for i := 0 to |selectors|
        invariant Consistent(ds, impl) && selectorPosition == |ds.Selectors(impl)|
        invariant i > 0 ==> ds.Selectors(impl) != []
        invariant Steps(env, r, cut, i) == Some(Routing())
      {
        var replaced := ReplaceFunction(selectors[i], selectorPosition, impl);
        if !replaced {
          StepsNone(env, r, cut, i + 1, |selectors|);
          return false;
        }
        selectorPosition := selectorPosition + 1;
      }
      ok := true;
    }

    method RemoveFunctions(impl: Address, selectors: seq<Selector>) returns (ok: bool)
      requires Valid()
      modifies this
      ensures ok <==> ApplyCut(env, old(Routing()), Cut(impl, Remove, selectors)).Some?
      ensures ok ==> Valid() && Some(Routing()) == ApplyCut(env, old(Routing()), Cut(impl, Remove, selectors))
    {
      ghost var r, cut := Routing(), Cut(impl, Remove, selectors);
      if |selectors| == 0 || impl != 0 {
        return false;
      }
      for i := 0 to |selectors|
        invariant Valid() && Steps(env, r, cut, i) == Some(Routing())
      {
        var selector := selectors[i];
        RoutingOf(ds, selector);
        var removed := RemoveFunction(ds.ImplOf(selector), selector, 0);
        if !removed {
          StepsNone(env, r, cut, i + 1, |selectors|);
          return false;
        }
      }
      ok := true;
    }

    /** An update: all cuts in order, or, if one is refused, no change at all. */
    method UpdateImplementation(cuts: seq<Cut>) returns (ok: bool)
      requires Valid()
      modifies this
      ensures Valid()
      ensures ok <==> ApplyCuts(env, old(Routing()), cuts, |cuts|).Some?
      ensures Routing() == if ok then ApplyCuts(env, old(Routing()), cuts, |cuts|).value else old(Routing())
    {
      var saved := ds;
      for i := 0 to |cuts|
        invariant Valid() && ApplyCuts(env, old(Routing()), cuts, i) == Some(Routing())
      {
        var cut := cuts[i];
        match cut.action {
          case Add => ok := AddFunctions(cut.implAddress, cut.functionSelectors);
          case Replace => ok := ReplaceFunctions(cut.implAddress, cut.functionSelectors);
          case Remove => ok := RemoveFunctions(cut.implAddress, cut.functionSelectors);
        }
        if !ok {
          CutsNone(env, old(Routing()), cuts, i + 1, |cuts|);
          ds := saved; // a revert undoes every write of the transaction
          return;
        }
      }
      ok := true;
    }

    /** The implementation a selector is routed to, zero if none. */
    method FacetAddress(s: Selector) returns (a: Address)
      requires Valid()
      ensures a == if s in Routing() then Routing()[s] else 0
      ensures a == 0 <==> s !in Routing()
    {
      RoutingOf(ds, s);
      a := ds.ImplOf(s);
    }

    /** The selectors of an implementation, each once. */
    method FacetFunctionSelectors(a: Address) returns (selectors: seq<Selector>)
      requires Valid()
      ensures IsFacetList(Routing(), a, selectors) && selectors == ds.Selectors(a)
    {
      ListOf(ds, a);
      selectors := ds.Selectors(a);
    }

    /** All implementations in use, each once, with their selectors. */
    method Facets() returns (facets: seq<(Address, seq<Selector>)>)
      requires Valid()
      ensures forall i :: 0 <= i < |facets| ==> facets[i].1 != [] && IsFacetList(Routing(), facets[i].0, facets[i].1)
      ensures forall i, j :: 0 <= i < j < |facets| ==> facets[i].0 != facets[j].0
      ensures CoversRouting(Routing(), facets)
      ensures |facets| == |ds.implementationAddresses|
      ensures forall i :: 0 <= i < |facets| ==>
        facets[i] == (ds.implementationAddresses[i], ds.Selectors(ds.implementationAddresses[i]))
    {
      var n := |ds.implementationAddresses|;
      facets := [];
      for i := 0 to n
        invariant |facets| == i
        invariant forall k :: 0 <= k < i ==>
                    facets[k] == (ds.implementationAddresses[k], ds.Selectors(ds.implementationAddresses[k]))
      {
        var a := ds.implementationAddresses[i];
        facets := facets + [(a, ds.Selectors(a))];
      }
      forall k | 0 <= k < n ensures facets[k].1 != [] && IsFacetList(Routing(), facets[k].0, facets[k].1) {
        assert ds.implementationAddresses[k] in ds.implementationAddresses;
        ListOf(ds, facets[k].0);
      }
      forall s | s in Routing() ensures exists i :: 0 <= i < |facets| && facets[i].0 == Routing()[s] {
        assert EntryOk(ds, s);
        var a := Routing()[s];
        assert a in ds.implementationAddresses;
        var i :| 0 <= i < n && ds.implementationAddresses[i] == a;
        assert facets[i].0 == a;
      }
    }
  }

  /** Appending a new selector to a list keeps the tables in step. */
  lemma SelectorAdded(d: ProxyStorage, s: Selector, a: Address, e: ProxyStorage)
    requires a != 0 && Consistent(d, a) && s !in d.entries
    requires e == d.(entries := d.entries[s := Entry(a, |d.Selectors(a)|)],
                     selectorsOf := d.selectorsOf[a := d.Selectors(a) + [s]])
    ensures Consistent(e, a) && e.Routing() == d.Routing()[s := a]
    ensures forall b :: e.Selectors(b) == if b == a then d.Selectors(a) + [s] else d.Selectors(b)
  {
    forall t ensures EntryOk(e, t) {
      assert EntryOk(d, t);
    }
    forall b, i ensures SlotOk(e, b, i) {
      assert SlotOk(d, b, i);
    }
    assert a in d.implementationAddresses;
  }

  /** e is d with s, at position p of the list of a, removed and the last selector of the
      list moved into its place. */
  ghost predicate Removal(d: ProxyStorage, s: Selector, a: Address, list: seq<Selector>, p: nat, e: ProxyStorage)
  {
    && EntriesSound(d) && ListsSound(d) && s in d.entries && d.entries[s] == Entry(a, p) && list == d.Selectors(a)
    && p < |list| && e.selectorsOf == d.selectorsOf[a := list[p := list[|list| - 1]][..|list| - 1]]
    && e.entries == (if p == |list| - 1 then d.entries else d.entries[list[|list| - 1] := Entry(a, p)]) - {s}
  }

  /** Removal keeps entries and lists in step. */
  lemma SelectorRemoved(d: ProxyStorage, s: Selector, a: Address, list: seq<Selector>, p: nat, e: ProxyStorage)
    requires Removal(d, s, a, list, p, e)
    ensures EntriesSound(e) && ListsSound(e) && e.Routing() == d.Routing() - {s}
    ensures forall b :: b != a ==> e.Selectors(b) == d.Selectors(b)
  {
    LastIsListed(d, s, a, list, p, e);
    forall t ensures EntryOk(e, t) {
      if t in e.entries {
        if t == list[|list| - 1] {
          MovedEntry(d, s, a, list, p, e);
        } else if d.entries[t].implAddress == a {
          ListedEntry(d, s, a, list, p, e, t);
        } else {
          assert EntryOk(d, t);
        }
      }
    }
    forall b, i ensures SlotOk(e, b, i) {
      if b == a {
        ListedSlot(d, s, a, list, p, e, i);
      } else {
        assert SlotOk(d, b, i);
      }
    }
    RemovedRouting(d, s, a, list, p, e);
  }

  lemma LastIsListed(d: ProxyStorage, s: Selector, a: Address, list: seq<Selector>, p: nat, e: ProxyStorage)
    requires Removal(d, s, a, list, p, e)
    ensures var last := |list| - 1;
      list[last] in d.entries && d.entries[list[last]] == Entry(a, last) && list[p] == s && a != 0
  {
    assert SlotOk(d, a, |list| - 1) && EntryOk(d, s);
  }

  /** The moved selector points to its new place. */
  lemma MovedEntry(d: ProxyStorage, s: Selector, a: Address, list: seq<Selector>, p: nat, e: ProxyStorage)
    requires Removal(d, s, a, list, p, e)
    ensures EntryOk(e, list[|list| - 1])
  {
    LastIsListed(d, s, a, list, p, e);
  }

  /** Another selector of the same list stays where it is. */
  lemma ListedEntry(d: ProxyStorage, s: Selector, a: Address, list: seq<Selector>, p: nat, e: ProxyStorage, t: Selector)
    requires Removal(d, s, a, list, p, e)
    requires t in e.entries && t in d.entries && t != list[|list| - 1] && d.entries[t].implAddress == a
    ensures EntryOk(e, t)
  {
    LastIsListed(d, s, a, list, p, e);
    assert EntryOk(d, t);
    var q := d.entries[t].functionSelectorPosition;
    assert q != p && q < |list| - 1 && e.Selectors(a)[q] == list[q];
  }

  /** The slots of the shortened list. */
  lemma ListedSlot(d: ProxyStorage, s: Selector, a: Address, list: seq<Selector>, p: nat, e: ProxyStorage, i: nat)
    requires Removal(d, s, a, list, p, e)
    ensures SlotOk(e, a, i)
  {
    LastIsListed(d, s, a, list, p, e);
    if i < |list| - 1 && i != p {
      assert SlotOk(d, a, i);
      assert e.Selectors(a)[i] == list[i];
    }
  }

  lemma RemovedRouting(d: ProxyStorage, s: Selector, a: Address, list: seq<Selector>, p: nat, e: ProxyStorage)
    requires Removal(d, s, a, list, p, e)
    ensures e.Routing() == d.Routing() - {s}
  {
    LastIsListed(d, s, a, list, p, e);
  }

  /** Moving the last address into the place of one whose list has become empty. */
  lemma AddressRemoved(d: ProxyStorage, a: Address, extra: Address, e: ProxyStorage)
    requires EntriesSound(d) && ListsSound(d) && d.Selectors(a) == [] && a != extra
    requires e.entries == d.entries && e.selectorsOf == d.selectorsOf
    requires forall b :: b in d.implementationAddresses <==> b == a || d.Selectors(b) != [] || (b == extra && b != 0)
    requires forall i :: 0 <= i < |d.implementationAddresses| ==>
      d.implementationAddresses[i] in d.positionOf && d.positionOf[d.implementationAddresses[i]] == i
    requires var addrs, last := d.implementationAddresses, |d.implementationAddresses| - 1;
      var p := d.positionOf[a];
      && e.implementationAddresses == addrs[p := addrs[last]][..last]
      && e.positionOf == (if p == last then d.positionOf else d.positionOf[addrs[last] := p]) - {a}
    ensures Consistent(e, extra)
  {
    var addrs, last := d.implementationAddresses, |d.implementationAddresses| - 1;
    var p := d.positionOf[a];
    SameTables(d, e);
    assert addrs[p] == a;
    forall b ensures b in e.implementationAddresses <==> b in addrs && b != a {
      if b in addrs && b != a {
        var i :| 0 <= i < |addrs| && addrs[i] == b;
        if i == last { assert e.implementationAddresses[p] == b; } else { assert e.implementationAddresses[i] == b; }
      }
    }
  }
}
