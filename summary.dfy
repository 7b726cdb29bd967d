/**
  Aggregation of the admitted orders before they are written to the history
  file: one entry per distinct (time, symbol, side, price), in order of first
  occurrence, carrying the summed quantity and the summed realised profit.
*/
module Summary {
  import opened Orders

  /** One line of the history file. */
  datatype Entry = Entry(key: OrderKey, quantity: real, profit: real)

  /** The running totals kept per id while aggregating. */
  datatype Totals = Totals(quantity: real, profit: real)

  /** The distinct ids of `orders`, each listed where it first occurs. */
  function FirstKeys(orders: seq<Order>): seq<OrderKey> {
    if orders == [] then []
    else
      var keys := FirstKeys(orders[..|orders| - 1]);
      var k := orders[|orders| - 1].Key();
      if k in keys then keys else keys + [k]
  }

  /** Total quantity of the orders with id `k`. */
  function SumQuantity(orders: seq<Order>, k: OrderKey): real {
    if orders == [] then 0.0
    else
      var o := orders[|orders| - 1];
      SumQuantity(orders[..|orders| - 1], k) + (if o.Key() == k then o.quantity else 0.0)
  }

  /** Total realised profit of the orders with id `k`. */
  function SumProfit(orders: seq<Order>, k: OrderKey): real {
    if orders == [] then 0.0
    else
      var o := orders[|orders| - 1];
      SumProfit(orders[..|orders| - 1], k) + (if o.Key() == k then o.profit else 0.0)
  }

  /** The position where id `k` first occurs in `orders`. */
  function FirstIndex(orders: seq<Order>, k: OrderKey): (i: nat)
    requires k in KeySet(orders)
    ensures i < |orders| && orders[i].Key() == k
    ensures forall j :: 0 <= j < i ==> orders[j].Key() != k
  {
    var n := |orders| - 1;
    if k in KeySet(orders[..n]) then
      var i := FirstIndex(orders[..n], k);
      assert forall j :: 0 <= j < i ==> orders[j] == orders[..n][j];
      i
    else
      KeySetMembers(orders[..n], k);
      assert forall j :: 0 <= j < n ==> orders[j] == orders[..n][j];
      n
  }

  /**
    The entry keys are exactly the ids of the orders, none twice, listed in
    the order in which each id first occurs.
  */
  lemma {:induction false} FirstKeysSpec(orders: seq<Order>)
    ensures forall k :: k in FirstKeys(orders) <==> k in KeySet(orders)
    ensures forall i, j :: 0 <= i < j < |FirstKeys(orders)| ==> FirstKeys(orders)[i] != FirstKeys(orders)[j]
    ensures forall i, j :: 0 <= i < j < |FirstKeys(orders)| ==>
      FirstIndex(orders, FirstKeys(orders)[i]) < FirstIndex(orders, FirstKeys(orders)[j])
  {
    if orders != [] {
      var n := |orders| - 1;
      var p := orders[..n];
      var keys := FirstKeys(p);
      var k := orders[n].Key();
      FirstKeysSpec(p);
      forall k' | k' in KeySet(p) ensures FirstIndex(orders, k') == FirstIndex(p, k') { }
      if k !in keys {
        forall k' | k' in keys ensures FirstIndex(orders, k') < FirstIndex(orders, k) {
          assert FirstIndex(p, k') < n;
        }
      }
    }
  }

  /** One entry per order of `orders`, in list order, each with the order's id and its own figures. */
  predicate EntriesOf(entries: seq<Entry>, orders: seq<Order>) {
    && |entries| == |orders|
    && forall i :: 0 <= i < |orders| ==> entries[i] == Entry(orders[i].Key(), orders[i].quantity, orders[i].profit)
  }

  /** For a list with distinct ids, summing changes nothing: one entry per order, with its own figures. */
  lemma SummaryOfDistinct(orders: seq<Order>)
    requires KeysDistinct(orders)
    ensures |FirstKeys(orders)| == |orders|
    ensures forall i :: 0 <= i < |orders| ==> FirstKeys(orders)[i] == orders[i].Key()
    ensures forall i :: 0 <= i < |orders| ==>
      SumQuantity(orders, orders[i].Key()) == orders[i].quantity && SumProfit(orders, orders[i].Key()) == orders[i].profit
  {
    FirstKeysOfDistinct(orders);
    SumsOfDistinct(orders);
  }

  /** With distinct ids, the entry keys are the ids of the orders, in their order. */
  lemma {:induction false} FirstKeysOfDistinct(orders: seq<Order>)
    requires KeysDistinct(orders)
    ensures |FirstKeys(orders)| == |orders|
    ensures forall i :: 0 <= i < |orders| ==> FirstKeys(orders)[i] == orders[i].Key()
  {
    if orders != [] {
      var n := |orders| - 1;
      var p := orders[..n];
      var k := orders[n].Key();
      assert KeysDistinct(p);
      FirstKeysOfDistinct(p);
      FirstKeysSpec(p);
      KeySetMembers(p, k);
      assert k !in FirstKeys(p);
      assert forall i :: 0 <= i < n ==> orders[i] == p[i];
    }
  }

  /** With distinct ids, each order's sums are its own quantity and profit. */
  lemma {:induction false} SumsOfDistinct(orders: seq<Order>)
    requires KeysDistinct(orders)
    ensures forall i :: 0 <= i < |orders| ==>
      SumQuantity(orders, orders[i].Key()) == orders[i].quantity && SumProfit(orders, orders[i].Key()) == orders[i].profit
  {
    if orders != [] {
      var n := |orders| - 1;
      var p := orders[..n];
      var k := orders[n].Key();
      assert KeysDistinct(p);
      SumsOfDistinct(p);
      KeySetMembers(p, k);
      assert k !in KeySet(p);
      forall i | 0 <= i < |orders|
        ensures SumQuantity(orders, orders[i].Key()) == orders[i].quantity
        ensures SumProfit(orders, orders[i].Key()) == orders[i].profit
      {
        if i < n {
          assert orders[i] == p[i];
        } else {
          SumsOfAbsent(p, k);
        }
      }
    }
  }

  /** An id that does not occur sums to nothing. */
  lemma {:induction false} SumsOfAbsent(orders: seq<Order>, k: OrderKey)
    requires k !in KeySet(orders)
    ensures SumQuantity(orders, k) == 0.0 && SumProfit(orders, k) == 0.0
  {
    if orders != [] {
      SumsOfAbsent(orders[..|orders| - 1], k);
    }
  }

  /**
    `summarize_orders`: accumulate per-id totals in a dictionary that
    remembers insertion order, then list one entry per id.
  */
  method SummarizeOrders(orders: seq<Order>) returns (entries: seq<Entry>)
    ensures |entries| == |FirstKeys(orders)|
    ensures forall i :: 0 <= i < |entries| ==>
      entries[i] == Entry(FirstKeys(orders)[i], SumQuantity(orders, FirstKeys(orders)[i]), SumProfit(orders, FirstKeys(orders)[i]))
  {
    var totals: map<OrderKey, Totals> := map[];
    var keys: seq<OrderKey> := [];
    for i := 0 to |orders|
      invariant keys == FirstKeys(orders[..i])
      invariant forall k :: k in totals <==> k in keys
      invariant forall k :: k in totals ==> totals[k] == Totals(SumQuantity(orders[..i], k), SumProfit(orders[..i], k))
    {
      var o := orders[i];
      var k := o.Key();
      assert orders[..i + 1][..i] == orders[..i];
      var t := if k in totals then totals[k] else Totals(0.0, 0.0);
      if k !in totals {
        keys := keys + [k];
        FirstKeysSpec(orders[..i]);
        SumsOfAbsent(orders[..i], k);
      }
      totals := totals[k := Totals(t.quantity + o.quantity, t.profit + o.profit)];
    }
    assert orders[..|orders|] == orders;
    entries := [];
    for j := 0 to |keys|
      invariant |entries| == j
      invariant forall m :: 0 <= m < j ==> entries[m] == Entry(keys[m], totals[keys[m]].quantity, totals[keys[m]].profit)
    {
      entries := entries + [Entry(keys[j], totals[keys[j]].quantity, totals[keys[j]].profit)];
    }
  }
}
