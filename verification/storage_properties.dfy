/**
 Properties of the cart and stock ledger that relate several calls:
 accumulation of repeated additions, idempotent clearing, reading a cart back,
 independence of the map iteration order, and that serial checkouts never
 take more of an item than was in stock.
 */
module StorageProperties {
  import opened Storage

  // ---------------------------------------------------------------------
  // Carts

  function Sum(qs: seq<int>): int {
    if |qs| == 0 then 0 else qs[0] + Sum(qs[1..])
  }

  /** Successful `AddItemToCart` calls for one (user, item), in order. */
  function AddAll(s: Store, user: UserId, item: ItemId, qs: seq<int>): Store
    decreases |qs|
  {
    if |qs| == 0 then s
    else AddAll(AddItemToCart(s, user, item, qs[0], false).state, user, item, qs[1..])
  }

  /**
   Additions merge and never overwrite: after a run of additions for the same
   (user, item), its quantity is what it held before (nothing, for a new row)
   plus the sum of the added quantities, and no other row or stock changes.
   */
  lemma {:induction false} AddAllSums(s: Store, user: UserId, item: ItemId, qs: seq<int>)
    requires |qs| > 0 || CartKey(user, item) in s.carts
    ensures CartKey(user, item) in AddAll(s, user, item, qs).carts
    ensures AddAll(s, user, item, qs).carts[CartKey(user, item)] ==
              (if CartKey(user, item) in s.carts then s.carts[CartKey(user, item)] else 0) + Sum(qs)
    ensures forall k :: k != CartKey(user, item) ==>
              (k in AddAll(s, user, item, qs).carts <==> k in s.carts)
    ensures forall k :: k != CartKey(user, item) && k in s.carts ==>
              AddAll(s, user, item, qs).carts[k] == s.carts[k]
    ensures AddAll(s, user, item, qs).stock == s.stock
    decreases |qs|
  {
    if |qs| > 0 {
      var s' := AddItemToCart(s, user, item, qs[0], false).state;
      AddAllSums(s', user, item, qs[1..]);
    }
  }

  /** Clearing an already cleared cart succeeds and changes nothing. */
  lemma ClearCartIdempotent(s: Store, user: UserId)
    ensures var once := ClearCart(s, user, false).state;
            ClearCart(once, user, false) == Reply(once, Ok(()))
  {

  }

  /** After a successful clear, reading the cart gives the empty map, not an error. */
  lemma ClearedCartReadsEmpty(s: Store, user: UserId)
    ensures GetCartItems(ClearCart(s, user, false).state, user, false).result == Ok(map[])
  {

  }

  /** Clearing one user's cart leaves what every other user reads unchanged. */
  lemma ClearCartIsolated(s: Store, user: UserId, other: UserId)
    requires other != user
    ensures GetCartItems(ClearCart(s, user, false).state, other, false).result ==
            GetCartItems(s, other, false).result
  {
    var cleared := ClearCart(s, user, false).state;
    var a := GetCartItems(cleared, other, false).result.value;
    var b := GetCartItems(s, other, false).result.value;
    assert forall item :: CartKey(other, item) in cleared.carts <==> CartKey(other, item) in s.carts;
    assert a.Keys == b.Keys;
    forall item | item in a
      ensures a[item] == b[item]
    {
      assert a[item] == cleared.carts[CartKey(other, item)];
    }
    assert a == b;
  }

  /** A successful addition shows up when the cart is read back, merged with what was there. */
  lemma AddedItemReadsBack(s: Store, user: UserId, item: ItemId, quantity: int)
    ensures var before := GetCartItems(s, user, false).result.value;
            var after := GetCartItems(AddItemToCart(s, user, item, quantity, false).state,
                                      user, false).result.value;
            after == before[item := (if item in before then before[item] else 0) + quantity]
  {
    var before := GetCartItems(s, user, false).result.value;
    var after := GetCartItems(AddItemToCart(s, user, item, quantity, false).state,
                              user, false).result.value;
    ReadBack(s, user, item, quantity, before, after);
    MergedMap(before, after, item, quantity);
  }

  /** Pointwise, what the cart reads after an addition. */
  lemma ReadBack(s: Store, user: UserId, item: ItemId, quantity: int,
                 before: map<ItemId, int>, after: map<ItemId, int>)
    requires before == GetCartItems(s, user, false).result.value
    requires after == GetCartItems(AddItemToCart(s, user, item, quantity, false).state,
                                   user, false).result.value
    ensures forall i :: i in after <==> i == item || i in before
    ensures after[item] == (if item in before then before[item] else 0) + quantity
    ensures forall i :: i != item && i in before ==> after[i] == before[i]
  {
  }

  /** A map that agrees with `before` off `item` and holds the merged quantity at it is the update. */
  lemma MergedMap(before: map<ItemId, int>, after: map<ItemId, int>, item: ItemId, quantity: int)
    requires forall i :: i in after <==> i == item || i in before
    requires after[item] == (if item in before then before[item] else 0) + quantity
    requires forall i :: i != item && i in before ==> after[i] == before[i]
    ensures after == before[item := (if item in before then before[item] else 0) + quantity]
  {
    var expected := before[item := (if item in before then before[item] else 0) + quantity];
    forall i
      ensures i in after <==> i in expected
    {
      assert i in expected <==> i == item || i in before;
    }
    assert after.Keys == expected.Keys;
    assert forall i :: i in after ==> after[i] == expected[i];
  }

  // ---------------------------------------------------------------------
  // Stock

  /** No stock is ever negative. */
  predicate StockNonNegative(s: Store) {
    forall item :: item in s.stock ==> s.stock[item] >= 0
  }

  /** No cart operation and no stock transaction, failed or not, breaks the stock invariant. */
  lemma OperationsKeepStockNonNegative(s: Store, user: UserId, item: ItemId, quantity: int,
                                       cart: map<ItemId, int>, order: seq<ItemId>,
                                       fault: Fault, failure: bool)
    requires StockNonNegative(s)
    requires IsRangeOrder(cart, order)
    ensures StockNonNegative(AddItemToCart(s, user, item, quantity, failure).state)
    ensures StockNonNegative(ClearCart(s, user, failure).state)
    ensures StockNonNegative(GetCartItems(s, user, failure).state)
    ensures StockNonNegative(DecreaseStock(s, cart, order, fault).state)
  {
  }

  /**
   The map's iteration order decides at most which error is reported: the
   resulting state and whether the call succeeds are the same for every order.
   */
  lemma DecreaseStockOrderIrrelevant(s: Store, cart: map<ItemId, int>,
                                     order1: seq<ItemId>, order2: seq<ItemId>, fault: Fault)
    requires IsRangeOrder(cart, order1) && IsRangeOrder(cart, order2)
    ensures DecreaseStock(s, cart, order1, fault).state == DecreaseStock(s, cart, order2, fault).state
    ensures DecreaseStock(s, cart, order1, fault).result.Ok? ==
            DecreaseStock(s, cart, order2, fault).result.Ok?
  {

  }

  /** One checkout's stock transaction: the cart snapshot, its iteration order, and where the store fails. */
  datatype Checkout = Checkout(cart: map<ItemId, int>, order: seq<ItemId>, fault: Fault)

  predicate ValidCheckouts(runs: seq<Checkout>) {
    forall i :: 0 <= i < |runs| ==> IsRangeOrder(runs[i].cart, runs[i].order)
  }

  /** The state after running the checkouts' transactions one after another. */
  function Serial(s: Store, runs: seq<Checkout>): Store
    requires ValidCheckouts(runs)
    decreases |runs|
  {
    if |runs| == 0 then s
    else
      var run := runs[0];
      Serial(DecreaseStock(s, run.cart, run.order, run.fault).state, runs[1..])
  }

  /** How much of `item` the successful transactions among `runs` took. */
  function Taken(s: Store, runs: seq<Checkout>, item: ItemId): int
    requires ValidCheckouts(runs)
    decreases |runs|
  {
    if |runs| == 0 then 0
    else
      var run := runs[0];
      var r := DecreaseStock(s, run.cart, run.order, run.fault);
      (if r.result.Ok? && item in run.cart then run.cart[item] else 0) + Taken(r.state, runs[1..], item)
  }

  /**
   Checkouts applied one after another never oversell: the stock left is the
   starting stock minus what the successful ones took, and it is not negative,
   so together they never took more than the starting stock.
   */
  lemma {:induction false} SerialCheckoutsNeverOversell(s: Store, runs: seq<Checkout>, item: ItemId)
    requires ValidCheckouts(runs)
    requires item in s.stock && s.stock[item] >= 0
    ensures item in Serial(s, runs).stock
    ensures Serial(s, runs).stock[item] == s.stock[item] - Taken(s, runs, item) >= 0
    ensures Taken(s, runs, item) <= s.stock[item]
    decreases |runs|
  {
    if |runs| > 0 {
      var run := runs[0];
      var s' := DecreaseStock(s, run.cart, run.order, run.fault).state;
      assert ValidCheckouts(runs[1..]) by {
        forall i | 0 <= i < |runs[1..]|
          ensures IsRangeOrder(runs[1..][i].cart, runs[1..][i].order)
        {
          assert runs[1..][i] == runs[i + 1];
        }
      }
      SerialCheckoutsNeverOversell(s', runs[1..], item);
    }
  }

  // ---------------------------------------------------------------------
  // Worked scenarios

  /**
   Item 1 starts with stock 5; the user adds it three times and then twice and
   reads {1: 5}; the transaction for {1: 5} succeeds and leaves stock 0;
   the cart then reads back empty.
   */
  lemma ScenarioExactStock()
    ensures var s := AddAll(Store(map[], map[1 := 5]), "u", 1, [3, 2]);
            var d := DecreaseStock(s, map[1 := 5], [1], NoFault);
            && GetCartItems(s, "u", false).result == Ok(map[1 := 5])
            && d.result == Ok(())
            && d.state.stock == map[1 := 0]
            && GetCartItems(ClearCart(d.state, "u", false).state, "u", false).result == Ok(map[])
  {
    var s0 := Store(map[], map[1 := 5]);
    var s := AddAll(s0, "u", 1, [3, 2]);
    var key := CartKey("u", 1);
    assert s.carts == map[key := 5] by {
      AddAllSums(s0, "u", 1, [3, 2]);
      assert Sum([3, 2]) == 5;
      assert s.carts.Keys == {key};
    }
    assert s.stock == s0.stock by {
      AddAllSums(s0, "u", 1, [3, 2]);
    }
    assert GetCartItems(s, "u", false).result == Ok(map[1 := 5]) by {
      var cart := GetCartItems(s, "u", false).result.value;
      assert forall item :: item in cart <==> CartKey("u", item) == key;
      assert cart.Keys == {1};
      assert cart[1] == s.carts[key] == 5;
      assert cart == map[1 := 5];
    }
    var d := DecreaseStock(s, map[1 := 5], [1], NoFault);
    assert d.result == Ok(());
    assert d.state.stock == map[1 := 0] by {
      assert d.state.stock.Keys == {1};
    }
    ClearedCartReadsEmpty(d.state, "u");
  }

  /**
   Item 1 starts with stock 2 and the cart holds {1: 3}: the transaction
   fails naming item 1, the stock stays 2 and the cart is untouched.
   */
  lemma ScenarioShortStock()
    ensures var s := Store(map[CartKey("u", 1) := 3], map[1 := 2]);
            DecreaseStock(s, map[1 := 3], [1], NoFault) == Reply(s, Err(NotEnoughStock(1)))
  {
  }
}
