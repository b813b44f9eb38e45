/**
 The executions a basic Seaport order is expected to lead to, and the conservation of
 amounts across them.
 */
module Executions {
  import opened Results

  /** An offer or consideration item; recipient is empty for offer items. */
  datatype Item = Item(itemType: nat, token: string, identifier: int, endAmount: int, recipient: string)

  datatype Execution = Execution(
    itemType: nat, token: string, identifier: int, amount: int, recipient: string, offerer: string, conduitKey: string)

  datatype Order = Order(offerer: string, conduitKey: string, offer: seq<Item>, consideration: seq<Item>)

  /** Handing over an item in full. */
  function Transfer(item: Item, recipient: string, offerer: string, conduitKey: string): Execution
  {
    Execution(item.itemType, item.token, item.identifier, item.endAmount, recipient, offerer, conduitKey)
  }

  /** The amounts of the items whose type is, or is not, the given one. */
  function Total(items: seq<Item>, itemType: nat, same: bool): int
  {
    if items == [] then 0
    else
      Total(items[..|items| - 1], itemType, same)
      + if (items[|items| - 1].itemType == itemType) == same then items[|items| - 1].endAmount else 0
  }

  /** The amounts of the executions a side pays for: the offerer's are the first one and
      the extra ones of the offered item type, the fulfiller's all others. */
  function Paid(executions: seq<Execution>, itemType: nat, byOfferer: bool, n: nat): int
    requires n <= |executions|
  {
    if n == 0 then 0
    else
      var k := n - 1;
      var offererSide := k == 0 || (k >= 2 && executions[k].itemType == itemType);
      Paid(executions, itemType, byOfferer, k) + if offererSide == byOfferer then executions[k].amount else 0
  }

  /** The extra execution for a consideration item after the first. */
  function Extra(order: Order, fulfiller: string, fulfillerConduitKey: string, item: Item): Execution
    requires order.offer != []
  {
    if item.itemType == order.offer[0].itemType then Transfer(item, item.recipient, order.offerer, order.conduitKey)
    else Transfer(item, item.recipient, fulfiller, fulfillerConduitKey)
  }

  /** One execution for the offer item, reduced by what the offerer pays elsewhere, and
      one for each consideration item, in order and in full. */
  ghost predicate BasicExecutions(order: Order, fulfiller: string, key: string, executions: seq<Execution>)
    requires order.offer != [] && order.consideration != []
  {
    var offerItem, extras := order.offer[0], order.consideration[1..];
    && |executions| == |order.consideration| + 1
    && executions[0] == Transfer(offerItem, fulfiller, order.offerer, order.conduitKey)
         .(amount := offerItem.endAmount - Total(extras, offerItem.itemType, true))
    && executions[1] == Transfer(order.consideration[0], order.consideration[0].recipient, fulfiller, key)
    && forall i :: 0 <= i < |extras| ==> executions[i + 2] == Extra(order, fulfiller, key, extras[i])
  }

  method GetBasicOrderExecutions(order: Order, fulfiller: string, fulfillerConduitKey: string)
    returns (r: Result<seq<Execution>>)
    ensures r.Failure? <==> order.offer == [] || order.consideration == []
    ensures r.Success? ==> BasicExecutions(order, fulfiller, fulfillerConduitKey, r.value)
  {
    if order.offer == [] || order.consideration == [] {
      return Failure("Cannot read properties of undefined");
    }
    var offerItem, considerationItem := order.offer[0], order.consideration[0];
    var executions := [
      Transfer(offerItem, fulfiller, order.offerer, order.conduitKey),
      Transfer(considerationItem, considerationItem.recipient, fulfiller, fulfillerConduitKey)];
    ghost var first, second := executions[0], executions[1];
    var extras := order.consideration[1..];
    for i := 0 to |extras|
      invariant |executions| == i + 2
      invariant executions[0] == first.(amount := offerItem.endAmount - Total(extras[..i], offerItem.itemType, true))
      invariant executions[1] == second
      invariant forall k :: 0 <= k < i ==> executions[k + 2] == Extra(order, fulfiller, fulfillerConduitKey, extras[k])
    {
      assert extras[..i + 1][..i] == extras[..i];
      var execution := Transfer(extras[i], extras[i].recipient, fulfiller, fulfillerConduitKey);
      if extras[i].itemType == offerItem.itemType {
        execution := execution.(offerer := order.offerer, conduitKey := order.conduitKey);
        executions := executions[0 := executions[0].(amount := executions[0].amount - execution.amount)];
      }
      executions := executions + [execution];
    }
    assert extras[..|extras|] == extras;
    r := Success(executions);
  }

  /** The items handed over: the offer item first, then the consideration items. */
  function Handed(order: Order, i: nat): Item
    requires order.offer != [] && i <= |order.consideration|
  {
    if i == 0 then order.offer[0] else order.consideration[i - 1]
  }

  /** Who hands over the i-th item: the offerer the offered one and, after the first
      consideration item, those of its type. */
  predicate ByOfferer(order: Order, i: nat)
    requires order.offer != [] && i <= |order.consideration|
  {
    i == 0 || (i >= 2 && order.consideration[i - 1].itemType == order.offer[0].itemType)
  }

  /** Field by field: what is handed over, by whom and to whom. */
  lemma ExecutionFields(order: Order, fulfiller: string, key: string, executions: seq<Execution>, i: nat)
    requires order.offer != [] && order.consideration != []
    requires BasicExecutions(order, fulfiller, key, executions) && i <= |order.consideration|
    ensures |executions| == |order.consideration| + 1
    ensures var e, item := executions[i], Handed(order, i);
      && e.itemType == item.itemType && e.token == item.token && e.identifier == item.identifier
      && e.recipient == (if i == 0 then fulfiller else item.recipient)
      && e.offerer == (if ByOfferer(order, i) then order.offerer else fulfiller)
      && e.conduitKey == (if ByOfferer(order, i) then order.conduitKey else key)
      && (i > 0 ==> e.amount == item.endAmount)
  {
    if i >= 2 {
      assert executions[i] == Extra(order, fulfiller, key, order.consideration[1..][i - 2]);
    }
  }

  /** Conservation: the offerer pays exactly the offered end amount, split over the
      executions; the fulfiller pays exactly the first consideration item and the extra
      ones of other types. */
  lemma {:induction false} Conservation(order: Order, executions: seq<Execution>, fulfiller: string, key: string, n: nat)
    requires order.offer != [] && order.consideration != [] && n <= |order.consideration| - 1
    requires var offerItem, extras := order.offer[0], order.consideration[1..];
      && |executions| == |order.consideration| + 1
      && executions[0].amount == offerItem.endAmount - Total(extras, offerItem.itemType, true)
      && executions[1].amount == order.consideration[0].endAmount
      && forall i :: 0 <= i < |extras| ==> executions[i + 2] == Extra(order, fulfiller, key, extras[i])
    ensures var offerItem, extras := order.offer[0], order.consideration[1..];
      && Paid(executions, offerItem.itemType, true, n + 2)
         == offerItem.endAmount - Total(extras, offerItem.itemType, true) + Total(extras[..n], offerItem.itemType, true)
      && Paid(executions, offerItem.itemType, false, n + 2)
         == order.consideration[0].endAmount + Total(extras[..n], offerItem.itemType, false)
      && (n == |extras| ==>
           && Paid(executions, offerItem.itemType, true, |executions|) == offerItem.endAmount
           && Paid(executions, offerItem.itemType, false, |executions|)
              == order.consideration[0].endAmount + Total(extras, offerItem.itemType, false))
  {
    var t, extras := order.offer[0].itemType, order.consideration[1..];
    if n == 0 {
      assert extras[..0] == [];
      assert Paid(executions, t, true, 0) == 0 && Paid(executions, t, false, 0) == 0;
      assert Paid(executions, t, true, 1) == executions[0].amount && Paid(executions, t, false, 1) == 0;
    } else {
      Conservation(order, executions, fulfiller, key, n - 1);
      assert extras[..n][..n - 1] == extras[..n - 1];
      assert executions[n + 1] == Extra(order, fulfiller, key, extras[n - 1]);
    }
    assert extras[..|extras|] == extras;
  }

  /** The amounts of the executions a given account pays. */
  function PaidBy(executions: seq<Execution>, account: string): int
  {
    if executions == [] then 0
    else
      var k := |executions| - 1;
      PaidBy(executions[..k], account) + if executions[k].offerer == account then executions[k].amount else 0
  }

  /** Who pays an execution is who its offerer field says. */
  lemma {:induction false} SidesAreOfferers(order: Order, fulfiller: string, key: string, executions: seq<Execution>, n: nat)
    requires order.offer != [] && order.consideration != [] && fulfiller != order.offerer
    requires BasicExecutions(order, fulfiller, key, executions) && n <= |executions|
    ensures PaidBy(executions[..n], order.offerer) == Paid(executions, order.offer[0].itemType, true, n)
    ensures PaidBy(executions[..n], fulfiller) == Paid(executions, order.offer[0].itemType, false, n)
  {
    if n > 0 {
      SidesAreOfferers(order, fulfiller, key, executions, n - 1);
      assert executions[..n][..n - 1] == executions[..n - 1];
      if n >= 3 {
        assert executions[n - 1] == Extra(order, fulfiller, key, order.consideration[1..][n - 3]);
      }
    }
  }

  /** Conservation, by the accounts the executions name: the offerer pays exactly the
      offered end amount; the fulfiller pays exactly the first consideration item and the
      extra ones of other types. */
  lemma AccountsConserve(order: Order, fulfiller: string, key: string, executions: seq<Execution>)
    requires order.offer != [] && order.consideration != [] && fulfiller != order.offerer
    requires BasicExecutions(order, fulfiller, key, executions)
    ensures PaidBy(executions, order.offerer) == order.offer[0].endAmount
    ensures PaidBy(executions, fulfiller) ==
      order.consideration[0].endAmount + Total(order.consideration[1..], order.offer[0].itemType, false)
  {
    SidesAreOfferers(order, fulfiller, key, executions, |executions|);
    assert executions[..|executions|] == executions;
    Conservation(order, executions, fulfiller, key, |order.consideration| - 1);
  }
}
