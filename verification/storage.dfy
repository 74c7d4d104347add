/**
 The cart and stock ledger of the checkout service, as a state machine over
 two tables: `carts`, keyed by (user, item) and holding a quantity, and the
 `stock` column of `items`, keyed by item. Each operation is a pure
 transition that returns the state after the call together with what the
 call returns. A store failure (lost connection, failing statement) is an
 explicit input; it always leaves the state as it was.
 */
module Storage {

  type UserId = string
  type ItemId = int

  /** The composite key of a `carts` row. */
  datatype CartKey = CartKey(user: UserId, item: ItemId)

  datatype Store = Store(carts: map<CartKey, int>, stock: map<ItemId, int>)

  datatype Error =
    | StoreFailure            // connection, lock or statement failure reported by the store
    | NoRows                  // the stock lookup found no `items` row
    | NotEnoughStock(item: ItemId)

  datatype Result<T> = Ok(value: T) | Err(error: Error)

  /** The state after an operation, and what the operation returns. */
  datatype Reply<T> = Reply(state: Store, result: Result<T>)

  /** Where, if anywhere, the store fails during one stock transaction. */
  datatype Fault =
    | NoFault
    | BeginFault
    | LookupFault(item: ItemId)   // the locking SELECT for this item fails
    | UpdateFault(item: ItemId)   // the UPDATE for this item fails
    | CommitFault

  // ---------------------------------------------------------------------
  // Cart operations

  /**
   Insert-or-add upsert: a new (user, item) row gets `quantity`; an existing
   one has `quantity` added to it.
   */
  function AddItemToCart(s: Store, user: UserId, item: ItemId, quantity: int, failure: bool)
    : (r: Reply<()>)
    ensures r.result.Err? <==> failure
    ensures r.result.Err? ==> r.state == s
    ensures r.result.Ok? ==> CartKey(user, item) in r.state.carts
    ensures r.result.Ok? && CartKey(user, item) !in s.carts ==>
              r.state.carts[CartKey(user, item)] == quantity
    ensures r.result.Ok? && CartKey(user, item) in s.carts ==>
              r.state.carts[CartKey(user, item)] == s.carts[CartKey(user, item)] + quantity
    ensures forall k :: k != CartKey(user, item) ==> (k in r.state.carts <==> k in s.carts)
    ensures forall k :: k in s.carts && k != CartKey(user, item) ==> r.state.carts[k] == s.carts[k]
    ensures r.state.stock == s.stock
  {
    if failure then Reply(s, Err(StoreFailure))
    else
      var key := CartKey(user, item);
      var q := if key in s.carts then s.carts[key] + quantity else quantity;
      Reply(s.(carts := s.carts[key := q]), Ok(()))
  }

  /** The items in one user's cart. */
  function UserItems(carts: map<CartKey, int>, user: UserId): set<ItemId> {
    set k | k in carts && k.user == user :: k.item
  }

  /** The item-to-quantity map of one user's cart rows; empty, not an error, for an unknown user. */
  function GetCartItems(s: Store, user: UserId, failure: bool): (r: Reply<map<ItemId, int>>)
    ensures r.state == s
    ensures r.result.Err? <==> failure
    ensures r.result.Ok? ==>
              forall item :: item in r.result.value <==> CartKey(user, item) in s.carts
    ensures r.result.Ok? ==>
              forall item :: item in r.result.value ==>
                r.result.value[item] == s.carts[CartKey(user, item)]
  {
    if failure then Reply(s, Err(StoreFailure))
    else
      var items := UserItems(s.carts, user);
      assert forall item :: item in items ==> CartKey(user, item) in s.carts;
      Reply(s, Ok(map item | item in items :: s.carts[CartKey(user, item)]))
  }

  /** Deletes every cart row of `user`. */
  function ClearCart(s: Store, user: UserId, failure: bool): (r: Reply<()>)
    ensures r.result.Err? <==> failure
    ensures r.result.Err? ==> r.state == s
    ensures r.result.Ok? ==> forall k :: k in r.state.carts <==> k in s.carts && k.user != user
    ensures forall k :: k in r.state.carts ==> r.state.carts[k] == s.carts[k]
    ensures r.state.stock == s.stock
  {
    if failure then Reply(s, Err(StoreFailure))
    else Reply(s.(carts := map k | k in s.carts && k.user != user :: s.carts[k]), Ok(()))
  }

  // ---------------------------------------------------------------------
  // The stock transaction

  /** `order` visits every key of `cart` exactly once, as a range over a Go map does. */
  predicate IsRangeOrder(cart: map<ItemId, int>, order: seq<ItemId>) {
    && (forall i, j :: 0 <= i < j < |order| ==> order[i] != order[j])
    && (forall i :: 0 <= i < |order| ==> order[i] in cart)
    && (forall item :: item in cart ==> item in order)
  }

  /** Every item of `cart` has a stock row holding at least the requested quantity. */
  predicate Sufficient(stock: map<ItemId, int>, cart: map<ItemId, int>) {
    forall item :: item in cart ==> item in stock && stock[item] >= cart[item]
  }

  /** The stock after deducting the requested quantity of every item in `items`, all at once. */
  function Deduct(stock: map<ItemId, int>, cart: map<ItemId, int>, items: set<ItemId>)
    : map<ItemId, int>
    requires forall item :: item in items && item in stock ==> item in cart
  {
    map item | item in stock :: if item in items then stock[item] - cart[item] else stock[item]
  }

  /** The fault strikes one of the statements issued for the items of `order`. */
  predicate HitsStatement(fault: Fault, order: seq<ItemId>) {
    (fault.LookupFault? || fault.UpdateFault?) && fault.item in order
  }

  /**
   The loop of the transaction over the items in `order`, on the
   transaction's own copy of the stock: lock and read the row, refuse if it
   is missing or short, otherwise write back the reduced stock.
   */
  function RunItems(stock: map<ItemId, int>, cart: map<ItemId, int>, order: seq<ItemId>,
                    fault: Fault): (r: Result<map<ItemId, int>>)
    requires forall i, j :: 0 <= i < j < |order| ==> order[i] != order[j]
    requires forall i :: 0 <= i < |order| ==> order[i] in cart
    ensures r.Ok? <==>
              (forall i :: 0 <= i < |order| ==>
                 order[i] in stock && stock[order[i]] >= cart[order[i]])
              && !HitsStatement(fault, order)
    ensures r.Ok? ==> r.value == Deduct(stock, cart, set i | 0 <= i < |order| :: order[i])
    ensures r.Err? && r.error == NoRows ==> exists i :: 0 <= i < |order| && order[i] !in stock
    ensures r.Err? && r.error.NotEnoughStock? ==>
              r.error.item in order && r.error.item in stock &&
              stock[r.error.item] < cart[r.error.item]
    ensures r.Err? && r.error == StoreFailure ==> HitsStatement(fault, order)
    decreases |order|
  {
    if |order| == 0 then
      assert Deduct(stock, cart, {}) == stock;
      Ok(stock)
    else
      var item := order[0];
      if fault == LookupFault(item) then Err(StoreFailure)
      else if item !in stock then Err(NoRows)
      else if stock[item] < cart[item] then Err(NotEnoughStock(item))
      else if fault == UpdateFault(item) then Err(StoreFailure)
      else
        var rest := order[1..];
        var stock' := stock[item := stock[item] - cart[item]];
        var r := RunItems(stock', cart, rest, fault);
        RunItemsStep(stock, cart, order, fault);
        r
  }

  /** How the first item of `order` relates the whole run to the run over the rest. */
  lemma RunItemsStep(stock: map<ItemId, int>, cart: map<ItemId, int>, order: seq<ItemId>,
                     fault: Fault)
    requires forall i, j :: 0 <= i < j < |order| ==> order[i] != order[j]
    requires forall i :: 0 <= i < |order| ==> order[i] in cart
    requires |order| > 0 && order[0] in stock
    ensures var stock' := stock[order[0] := stock[order[0]] - cart[order[0]]];
            && (forall i :: 1 <= i < |order| ==>
                  (order[i] in stock' <==> order[i] in stock) &&
                  (order[i] in stock ==> stock'[order[i]] == stock[order[i]]))
            && Deduct(stock', cart, set i | 0 <= i < |order[1..]| :: order[1..][i])
               == Deduct(stock, cart, set i | 0 <= i < |order| :: order[i])
            && (HitsStatement(fault, order) <==>
                  HitsStatement(fault, order[1..]) ||
                  fault == LookupFault(order[0]) || fault == UpdateFault(order[0]))
  {

  }

  lemma RangeOrderCovers(cart: map<ItemId, int>, order: seq<ItemId>)
    requires IsRangeOrder(cart, order)
    ensures (set i | 0 <= i < |order| :: order[i]) == cart.Keys
  {
    forall item | item in cart
      ensures item in (set i | 0 <= i < |order| :: order[i])
    {
      var i :| 0 <= i < |order| && order[i] == item;
    }
  }

  /**
   The stock transaction of one checkout. It runs the loop on a private copy
   and publishes the copy only on commit; every failure returns the state
   unchanged (the deferred rollback).
   */
  function DecreaseStock(s: Store, cart: map<ItemId, int>, order: seq<ItemId>, fault: Fault)
    : (r: Reply<()>)
    requires IsRangeOrder(cart, order)
    ensures r.result.Err? ==> r.state == s
    ensures r.result.Ok? <==>
              Sufficient(s.stock, cart)
              && fault !in {BeginFault, CommitFault} && !HitsStatement(fault, order)
    ensures r.state.stock.Keys == s.stock.Keys
    ensures r.result.Ok? ==>
              forall item :: item in cart ==> r.state.stock[item] == s.stock[item] - cart[item] >= 0
    ensures forall item :: item in s.stock && item !in cart ==> r.state.stock[item] == s.stock[item]
    ensures r.result == Err(NoRows) ==> exists item :: item in cart && item !in s.stock
    ensures r.result.Err? && r.result.error.NotEnoughStock? ==>
              var item := r.result.error.item;
              item in cart && item in s.stock && s.stock[item] < cart[item]
    ensures r.state.carts == s.carts
  {
    if fault == BeginFault then Reply(s, Err(StoreFailure))
    else
      var run := RunItems(s.stock, cart, order, fault);
      RangeOrderCovers(cart, order);
      if run.Err? then Reply(s, Err(run.error))
      else if fault == CommitFault then Reply(s, Err(StoreFailure))
      else Reply(s.(stock := run.value), Ok(()))
  }
}
