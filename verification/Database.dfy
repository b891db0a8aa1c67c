/** The handlers for checkout and cancel as straight-line code over a shared database. Before
    every statement other connections run: `others[k]` is what they do before statement k. */
module Database {
  import opened Wrappers
  import opened Totals
  import opened Shop
  import opened Requests
  import opened Protocol
  import opened Serializability
  import opened Theorems
  import opened Interleaving

  datatype Error =
    | EmptyCart
    | InsufficientStock(product: ProductId, requested: int, available: int)
    | NotFound
    | AlreadyCancelled
    | Aborted  // the database ended the transaction: deadlock, timeout, refused statement
    | Unsure   // COMMIT answered with an error, although the server had committed

  /** How COMMIT fares: it is answered, it is refused, or it goes through and the answer is lost. */
  datatype CommitFate = Answered | Refused | Lost

  const NO_ORDER := Order(0, Cancelled, 0, "", [])

  /** The loop of checkout that tests the stock and adds up the total. It stops at the first
      row that is short; otherwise every row is in stock. */
  method AddUp(arith: Arith, rows: seq<Row>) returns (total: int, short: nat)
    ensures short <= |rows| && EachInStock(rows[..short])
    ensures short < |rows| ==> rows[short].quantity > rows[short].stock
    ensures short == |rows| && arith.Checked? ==> total == TrueTotal(LinesOf(rows))
    ensures short == |rows| && arith.Wrapping? ==> total == Wrap64(TrueTotal(LinesOf(rows)))
    ensures short == |rows| ==> StoredTotal(arith, LinesOf(rows)) == InBigint(total)
  {
    total := 0;
    ghost var lines := LinesOf(rows);
    for i := 0 to |rows|
      invariant EachInStock(rows[..i])
      invariant total == if arith.Wrapping? then WrappedTotal(lines[..i]) else TrueTotal(lines[..i])
    {
      if rows[i].quantity > rows[i].stock {
        return total, i;
      }
      var amount := rows[i].price * rows[i].quantity;
      assert lines[..i + 1][..i] == lines[..i] && lines[i].Amount() == amount;
      total := if arith.Wrapping? then Wrap64(total + Wrap64(amount)) else total + amount;
    }
    assert lines[..|rows|] == lines;
    WrappedIsTrueModulo(lines);
    short := |rows|;
  }

  /** The rows of a query without ORDER BY come in any order. */
  method ListCart(c: Cart) returns (cart: seq<CartLine>)
    ensures IsListing(cart, c)
    ensures cart == [] <==> c == map[]
  {
    cart := [];
    var rest := c.Keys;
    while rest != {}
      invariant rest <= c.Keys
      invariant (set line | line in cart :: line.product) == c.Keys - rest
      invariant OneLinePerProduct(cart)
      invariant forall i :: 0 <= i < |cart| ==> cart[i].product in c && c[cart[i].product] == cart[i].quantity
      decreases rest
    {
      var p :| p in rest;
      forall i | 0 <= i < |cart|
        ensures cart[i].product != p
      {
        assert cart[i] in cart;
      }
      ghost var before := cart;
      cart, rest := cart + [CartLine(p, c[p])], rest - {p};
      assert (set line | line in cart :: line.product) == (set line | line in before :: line.product) + {p} by {
        assert cart[|before|].product == p && cart[|before|] in cart;
        assert forall line | line in before :: line in cart;
      }
    }
    if cart == [] {
      assert c.Keys == {};
    } else {
      assert cart[0].product in c;
    }
  }

  class Connections {
    const arith: Arith
    var products: map<ProductId, Product>
    var orders: map<OrderId, Order>
    var carts: map<UserId, Cart>
    var erased: seq<Erasure>  // which cart rows have been deleted
    var locks: map<Resource, TxId>
    var txs: map<TxId, Tx>
    var log: seq<Op>  // what has been committed, in commit order

    function View(): State
      reads this
    {
      State(arith, Store(products, orders), carts, erased, locks, txs, log)
    }

    constructor (s: State)
      ensures View() == s
    {
      arith, products, orders, carts := s.arith, s.store.products, s.store.orders, s.carts;
      erased, locks, txs, log := s.erased, s.locks, s.txs, s.log;
    }

    /** Runs one statement, or reports that it cannot run. */
    method Execute(l: Label) returns (done: bool)
      modifies this
      ensures done <==> old(Step(View(), l)).Some?
      ensures View() == if done then old(Step(View(), l)).value else old(View())
    {
      var next := Step(View(), l);
      if next.None? {
        return false;
      }
      assert next.value.arith == arith by { StepShape(View(), l); }
      hide Step;
      products, orders, carts := next.value.store.products, next.value.store.orders, next.value.carts;
      erased, locks, txs, log := next.value.erased, next.value.locks, next.value.txs, next.value.log;
      return true;
    }

    /** Other connections run for a while; what they cannot run, they skip. */
    method Interfere(ghost init: Store, t: TxId, others: seq<Label>) returns (ghost ran: seq<Label>)
      requires Inv(init, View())
      modifies this
      ensures Apart(init, old(View()), ran, View(), t)
      ensures others == [] ==> View() == old(View())
      ensures forall user :: CartPrivate(old(View()), user, t) && (forall i :: 0 <= i < |others| ==> LeavesCart(others[i], user))
                ==> CartPrivate(View(), user, t) && CartOf(View(), user) == CartOf(old(View()), user)
    {
      hide Inv, Step, Undisturbed, CartPrivate, LeavesCart, CartOf;
      ran := [];
      ApartAtFirst(init, View(), t);
      for i := 0 to |others|
        invariant Apart(init, old(View()), ran, View(), t)
        invariant others == [] ==> View() == old(View())
        invariant forall user :: CartPrivate(old(View()), user, t) && (forall j :: 0 <= j < i ==> LeavesCart(others[j], user))
                    ==> CartPrivate(View(), user, t) && CartOf(View(), user) == CartOf(old(View()), user)
      {
        var l := others[i];
        if Actor(l) != Some(t) {
          ghost var before := View();
          var done := Execute(l);
          if done {
            ApartSnoc(init, old(View()), ran, before, l, View(), t);
            ran := ran + [l];
            forall user | CartPrivate(before, user, t) && LeavesCart(l, user)
              ensures CartPrivate(View(), user, t) && CartOf(View(), user) == CartOf(before, user)
            {
              StepLeavesCart(before, l, user, t);
            }
          }
        }
      }
    }

    /** The others have their turn before statement number k of t. */
    method Wait(ghost init: Store, t: TxId, user: UserId, others: seq<seq<Label>>, k: nat, ghost s0: State, ghost ran: seq<Label>)
      returns (ghost ran': seq<Label>)
      requires Progress(init, s0, ran, View(), t, user, others)
      modifies this
      ensures Progress(init, s0, ran', View(), t, user, others)
      ensures Undisturbed(old(View()), View(), t)
      ensures k >= |others| ==> View() == old(View())
    {
      hide Inv, CartPrivate, LeavesCart, CartOf, Undisturbed, OwnLocks;
      ghost var before := View();
      ghost var more := Interfere(init, t, Turn(others, k));
      WaitProgress(init, s0, ran, before, more, View(), t, user, others, k);
      ran' := ran + more;
    }

    /** One statement of transaction t, after the others had their turn; `mid` is where it started. */
    method Statement(ghost init: Store, t: TxId, user: UserId, others: seq<seq<Label>>, k: nat, l: Label,
                     ghost s0: State, ghost ran: seq<Label>)
      returns (done: bool, ghost mid: State, ghost ran': seq<Label>)
      requires Progress(init, s0, ran, View(), t, user, others)
      requires Actor(l) == Some(t) && !l.Commit? && !l.Abort?
      modifies this
      ensures Progress(init, s0, ran', View(), t, user, others)
      ensures Inv(init, mid) && Undisturbed(old(View()), mid, t)
      ensures Undisputed(s0, others) ==> mid.store == s0.store && mid.arith == s0.arith && mid.txs.Keys == {t} && OwnLocks(mid, t)
      ensures done <==> Step(mid, l).Some?
      ensures View() == if done then Step(mid, l).value else mid
      ensures k >= |others| ==> mid == old(View())
    {
      hide Inv, Step, CartPrivate, AllLeaveCart, CartOf, Undisturbed, OwnLocks, Undisputed, OwnCart;
      ran' := Wait(init, t, user, others, k, s0, ran);
      mid := View();
      done := Execute(l);
      if done {
        OwnStepProgress(init, s0, ran', mid, l, View(), t, user, others);
        ran' := ran' + [l];
      }
    }

    /** ROLLBACK */
    method Rollback(ghost init: Store, t: TxId, ghost s0: State, ghost ran: seq<Label>) returns (ghost ran': seq<Label>)
      requires InFlight(init, s0, ran, View(), t)
      modifies this
      ensures Inv(init, View()) && Run(s0, ran') == Some(View()) && Commit(t) !in ran'
      ensures ran' == ran + [Abort(t)]
      ensures t !in txs && products == old(products) && orders == old(orders)
    {
      AbortEnds(init, s0, ran, View(), t);
      hide Inv, Step;
      var _ := Execute(Abort(t));
      ran' := ran + [Abort(t)];
    }

    /** SELECT … FOR UPDATE: the rows are locked one at a time. */
    method LockRows(ghost init: Store, t: TxId, user: UserId, others: seq<seq<Label>>, cart: seq<CartLine>,
                    ghost s0: State, ghost ran: seq<Label>)
      returns (done: bool, ghost ran': seq<Label>)
      requires Progress(init, s0, ran, View(), t, user, others) && SelectedUpTo(View(), t, user, cart, 0)
      requires Listed(s0.store, cart)
      modifies this
      ensures Progress(init, s0, ran', View(), t, user, others)
      ensures done ==> SelectedUpTo(View(), t, user, cart, |cart|)
      ensures !done ==> !FoundShort(View(), t, cart) && forall id :: Stuck(View(), t, id)
      ensures Undisputed(s0, others) || cart == [] ==> done
    {
      hide Inv, Progress, Undisputed, Listed;
      ran' := ran;
      for k := 0 to |cart|
        invariant Progress(init, s0, ran', View(), t, user, others) && SelectedUpTo(View(), t, user, cart, k)
      {
        ghost var mid;
        done, mid, ran' := Statement(init, t, user, others, k, LockRow(t), s0, ran');
        LockRowRuns(mid, t, user, cart, k);
        if !done {
          return;
        }
      }
      done := true;
    }

    /** The loop over the rows: INSERT INTO order_items, then UPDATE products. Neither can fail. */
    method PlaceLines(ghost init: Store, t: TxId, user: UserId, others: seq<seq<Label>>, first: nat,
                      cart: seq<CartLine>, id: OrderId, total: int, ghost s0: State, ghost ran: seq<Label>)
      returns (ghost ran': seq<Label>)
      requires Progress(init, s0, ran, View(), t, user, others) && PlacedUpTo(View(), t, user, cart, id, total, 0, 0)
      modifies this
      ensures Progress(init, s0, ran', View(), t, user, others) && PlacedUpTo(View(), t, user, cart, id, total, |cart|, |cart|)
    {
      hide Inv, Progress, Undisputed;
      ran' := ran;
      for k := 0 to |cart|
        invariant Progress(init, s0, ran', View(), t, user, others) && PlacedUpTo(View(), t, user, cart, id, total, k, k)
      {
        var done;
        ghost var mid;
        done, mid, ran' := Statement(init, t, user, others, first + 2 * k, InsertLine(t), s0, ran');
        InsertLineRuns(init, mid, t, user, cart, id, total, k);
        done, mid, ran' := Statement(init, t, user, others, first + 2 * k + 1, TakeStock(t), s0, ran');
        TakeStockRuns(init, mid, t, user, cart, id, total, k);
      }
    }

    /** DELETE FROM cart_items WHERE user_id = … */
    method DeleteCart(ghost init: Store, t: TxId, user: UserId, others: seq<seq<Label>>, k: nat,
                      cart: seq<CartLine>, id: OrderId, total: int, ghost s0: State, ghost ran: seq<Label>)
      returns (done: bool, ghost ran': seq<Label>)
      requires Progress(init, s0, ran, View(), t, user, others) && PlacedUpTo(View(), t, user, cart, id, total, |cart|, |cart|)
      modifies this
      ensures Progress(init, s0, ran', View(), t, user, others)
      ensures done ==> Deleted(View(), t, user, cart, id, total, CartOf(View(), user))
      ensures t in txs && txs[t].Placed?
      ensures !done ==> Stuck(View(), t, id)
      ensures Undisputed(s0, others) ==> done
    {
      hide Inv, Undisputed, OwnCart, OwnLocks, Run, InFlight, DoScanCart, Standing;
      ghost var mid;
      done, mid, ran' := Statement(init, t, user, others, k, ScanCart(t), s0, ran);
      ScanCartRuns(init, mid, t, user, cart, id, total);
      ClearCartRuns(View(), t, user, cart, id, total);
      done, mid, ran' := Statement(init, t, user, others, |others|, ClearCart(t), s0, ran');
    }

    /** The rest of checkout once the stock test passed, up to COMMIT. Not done means that a
        statement was refused and the caller has to roll back. */
    method PlaceOrder(ghost init: Store, t: TxId, user: UserId, id: OrderId, others: seq<seq<Label>>, cart: seq<CartLine>,
                      total: int, fate: CommitFate, ghost s0: State, ghost ran: seq<Label>)
      returns (done: bool, order: Order, ghost ran': seq<Label>)
      requires Progress(init, s0, ran, View(), t, user, others) && SelectedUpTo(View(), t, user, cart, |cart|)
      requires cart != [] && EachInStock(txs[t].rows) && StoredTotal(arith, LinesOf(txs[t].rows)) == InBigint(total)
      modifies this
      ensures done ==>
                && Inv(init, View()) && Run(s0, ran') == Some(View()) && t !in txs
                && Committed(init, View(), CheckoutOp(user, id, cart)) && id in orders && orders[id] == order && order.total == total
                && EndsWithCheckout(s0, ran', View(), t, user, id, cart)
                && (Undisputed(s0, others) ==> Checkout(s0.arith, s0.store, user, id, cart) == Some(View().store))
                && (OwnCart(s0, others, user, t) ==> CartOf(View(), user) == map[])
      ensures !done ==>
                && Progress(init, s0, ran', View(), t, user, others) && !FoundShort(View(), t, cart)
                && (fate.Refused? || Stuck(View(), t, id))
                && (Undisputed(s0, others) && !fate.Refused? ==> Checkout(s0.arith, s0.store, user, id, cart).None?)
      ensures done ==> !fate.Refused?
    {
      hide Inv, Undisputed, OwnCart, Committed, Run, EachInStock, Shop.Checkout, InFlight, SomeShort, EndsWithCheckout;
      ghost var mid;
      done, mid, ran' := Statement(init, t, user, others, |cart|, InsertOrder(t, id), s0, ran);
      if !done {
        NoneIsShort(init, mid, t, user, cart);
        if Undisputed(s0, others) {
          InsertOrderRefused(init, mid, t, user, cart, id);
        }
        return false, NO_ORDER, ran';
      }
      InsertOrderRuns(init, mid, t, user, cart, id, total);
      ran' := PlaceLines(init, t, user, others, |cart| + 1, cart, id, total, s0, ran');
      done, ran' := DeleteCart(init, t, user, others, 3 * |cart| + 1, cart, id, total, s0, ran');
      if !done {
        return false, NO_ORDER, ran';
      }
      ghost var deleted := CartOf(View(), user);
      ran' := Wait(init, t, user, others, 3 * |cart| + 2, s0, ran');
      if fate.Refused? {
        return false, NO_ORDER, ran';
      }
      order := txs[t].order;
      CheckoutCommits(init, s0, ran', View(), t, user, others, cart, id, total, deleted);
      CheckoutEnds(init, s0, ran', View(), t);
      done := Execute(Commit(t));
      ran' := ran' + [Commit(t)];
    }

    /** POST /orders: check the user's cart out. */
    method CheckoutCart(ghost init: Store, t: TxId, user: UserId, id: OrderId, others: seq<seq<Label>>, fate: CommitFate)
      returns (r: Result<Order, Error>, cart: seq<CartLine>, ghost ran: seq<Label>)
      requires Inv(init, View()) && t !in txs
      modifies this
      // The code is one schedule of the protocol, and ends its transaction.
      ensures Inv(init, View()) && t !in txs && Run(old(View()), ran) == Some(View())
      ensures IsListing(cart, CartOf(old(View()), user))
      // Success, and an unanswered COMMIT: the last thing that happened is the atomic checkout of that cart.
      ensures r.Ok? || r == Err(Unsure) ==> Committed(init, View(), CheckoutOp(user, id, cart)) && id in orders
      ensures r.Ok? || r == Err(Unsure) ==> EndsWithCheckout(old(View()), ran, View(), t, user, id, cart)
      ensures r.Ok? ==> orders[id] == r.value
      // Every other failure was rolled back: an empty cart and a short stock are always reported as such,
      // and Aborted says that the next statement could not run, or that the commit was refused.
      ensures r == Err(Aborted) ==> fate.Refused? || EndsStuck(old(View()), ran, t, id)
      ensures r.Err? && r != Err(Unsure) ==> Commit(t) !in ran && ran != [] && ran[|ran| - 1] == Abort(t)
      ensures r.Ok? ==> fate.Answered?
      ensures r == Err(Unsure) ==> fate.Lost?
      ensures r == Err(EmptyCart) <==> cart == []
      ensures r.Err? && r != Err(Unsure) ==> (r.error.InsufficientStock? <==> EndsShort(old(View()), ran, t, cart))
      ensures r.Err? && r.error.InsufficientStock? ==>
                IsFirstShort(View().store, cart, r.error.product, r.error.requested, r.error.available)
      ensures Undisputed(old(View()), others) ==> (r.Err? && r.error.InsufficientStock? <==> SomeShort(old(View()).store, cart))
      // With nobody else around it goes through exactly when the atomic checkout does.
      ensures Undisputed(old(View()), others) && !fate.Refused? ==>
                Checkout(arith, old(View()).store, user, id, cart)
                == if r.Ok? || r == Err(Unsure) then Some(View().store) else None
      // When the user does nothing else meanwhile, the ordered cart is gone.
      ensures (r.Ok? || r == Err(Unsure)) && OwnCart(old(View()), others, user, t) ==> CartOf(View(), user) == map[]
    {
      hide Inv, Undisputed, OwnCart, Committed, Run, EachInStock, Step, Shop.Checkout, IsListing, Listed, CartOf;
      hide StoredTotal, LinesOf, TrueTotal, Wrap64, InBigint, OwnLocks, CartPrivate, EndsWithCheckout, IsFirstShort, Stuck;
      ghost var s0 := View();
      cart := ListCart(CartOf(View(), user));
      BeginCheckoutRuns(s0, t, user, cart);
      var done := Execute(BeginCheckout(t, user, cart));
      CheckoutBegins(init, s0, View(), t, user, cart, others);
      ran := [BeginCheckout(t, user, cart)];

      done, ran := LockRows(init, t, user, others, cart, s0, ran);
      if !done {
        ran := Rollback(init, t, s0, ran);
        return Err(Aborted), cart, ran;
      }
      var rows := txs[t].rows;
      if rows == [] {
        assert !SomeShort(View().store, cart);
        EmptyIsRefused(arith, s0.store, user, id);
        ran := Rollback(init, t, s0, ran);
        return Err(EmptyCart), cart, ran;
      }
      var total, short := AddUp(arith, rows);
      if short < |rows| {
        OutOfStock(init, View(), t, user, cart, short);
        ran := Rollback(init, t, s0, ran);
        return Err(InsufficientStock(rows[short].product, rows[short].quantity, rows[short].stock)), cart, ran;
      }
      assert rows[..short] == rows;
      NoneIsShort(init, View(), t, user, cart);
      var order;
      done, order, ran := PlaceOrder(init, t, user, id, others, cart, total, fate, s0, ran);
      if !done {
        ran := Rollback(init, t, s0, ran);
        return Err(Aborted), cart, ran;
      }
      return if fate.Lost? then Err(Unsure) else Ok(order), cart, ran;
    }

    /** The loop over the lines of the locked order: UPDATE products. */
    method RestockLines(ghost init: Store, t: TxId, user: UserId, id: OrderId, others: seq<seq<Label>>, order: Order,
                        ghost s0: State, ghost ran: seq<Label>)
      returns (done: bool, ghost ran': seq<Label>)
      requires Progress(init, s0, ran, View(), t, user, others) && RestockedUpTo(View(), t, user, id, order, 0)
      modifies this
      ensures Progress(init, s0, ran', View(), t, user, others)
      ensures done ==> RestockedUpTo(View(), t, user, id, order, |order.lines|)
      ensures Cancelling(View(), t, user, id)
      ensures !done ==> Stuck(View(), t, id)
      ensures !done && Undisputed(s0, others) ==> Cancel(s0.store, user, id).None?
    {
      hide Inv, Undisputed, Shop.Cancel, Progress;
      ran' := ran;
      for k := 0 to |order.lines|
        invariant Progress(init, s0, ran', View(), t, user, others) && RestockedUpTo(View(), t, user, id, order, k)
      {
        ghost var mid;
        done, mid, ran' := Statement(init, t, user, others, k + 1, Restock(t), s0, ran');
        if !done {
          if Undisputed(s0, others) {
            RestockRefused(init, mid, t, user, id, order, k);
          }
          return;
        }
        RestockRuns(mid, t, user, id, order, k);
      }
      done := true;
    }

    /** POST /orders/{id}/cancel */
    method CancelOrder(ghost init: Store, t: TxId, user: UserId, id: OrderId, others: seq<seq<Label>>, fate: CommitFate)
      returns (r: Result<Order, Error>, ghost ran: seq<Label>)
      requires Inv(init, View()) && t !in txs
      modifies this
      // The code is one schedule of the protocol, and ends its transaction.
      ensures Inv(init, View()) && t !in txs && Run(old(View()), ran) == Some(View())
      // Success, and an unanswered COMMIT: the last thing that happened is the atomic cancel.
      ensures r.Ok? || r == Err(Unsure) ==>
                Committed(init, View(), CancelOp(user, id)) && id in orders && orders[id].status.Cancelled?
      ensures r.Ok? ==> orders[id] == r.value
      ensures r.Ok? || r == Err(Unsure) ==> EndsWithCancel(old(View()), ran, View(), t, user, id)
      // Every other failure: nothing of this request was committed.
      ensures r.Err? && r != Err(Unsure) ==> Commit(t) !in ran
      ensures r == Err(Aborted) ==> fate.Refused? || !Free(View(), t, OrderRow(id)) || EndsStuck(old(View()), ran, t, id)
      ensures r.Ok? ==> fate.Answered?
      ensures r == Err(Unsure) ==> fate.Lost?
      // An order that is missing, or another user's, is reported as not found, and no other is.
      ensures r == Err(NotFound) <==> !IsOwn(View().store, user, id)
      ensures r == Err(AlreadyCancelled) ==> orders[id].status.Cancelled?
      ensures Undisputed(old(View()), others) ==>
                (r == Err(AlreadyCancelled) <==>
                  IsOwn(old(View()).store, user, id) && old(orders)[id].status.Cancelled?)
      // With nobody else around it goes through exactly when the atomic cancel does.
      ensures Undisputed(old(View()), others) && !fate.Refused? ==>
                Cancel(old(View()).store, user, id) == if r.Ok? || r == Err(Unsure) then Some(View().store) else None
    {
      hide Inv, Run, Undisturbed, Committed;
      ran := Interfere(init, t, Turn(others, 0));
      if id !in orders || orders[id].user != user {
        return Err(NotFound), ran;
      }
      if !Free(View(), t, OrderRow(id)) {
        return Err(Aborted), ran;
      }
      if orders[id].status.Cancelled? {
        return Err(AlreadyCancelled), ran;
      }
      r, ran := CancelLocked(init, t, user, id, others, fate, old(View()), ran);
    }

    /** The rest of cancel once every line is restocked. Not done means that the commit was refused. */
    method MarkOrder(ghost init: Store, t: TxId, user: UserId, id: OrderId, others: seq<seq<Label>>, order: Order,
                     fate: CommitFate, ghost s0: State, ghost ran: seq<Label>)
      returns (done: bool, cancelled: Order, ghost ran': seq<Label>)
      requires Progress(init, s0, ran, View(), t, user, others) && RestockedUpTo(View(), t, user, id, order, |order.lines|)
      modifies this
      ensures done == !fate.Refused?
      ensures done ==>
                && Inv(init, View()) && Run(s0, ran') == Some(View()) && t !in txs
                && Committed(init, View(), CancelOp(user, id)) && EndsWithCancel(s0, ran', View(), t, user, id)
                && IsOwn(View().store, user, id) && orders[id] == cancelled && cancelled.status.Cancelled?
                && (Undisputed(s0, others) ==> Cancel(s0.store, user, id) == Some(View().store))
      ensures !done ==> Progress(init, s0, ran', View(), t, user, others) && Cancelling(View(), t, user, id)
    {
      hide Inv, Undisputed, OwnCart, Run, Shop.Cancel, Committed, OwnLocks, CartPrivate, CartOf, EachInStock, EndsWithCancel;
      ghost var mid;
      MarkCancelledRuns(View(), t, user, id, order);
      done, mid, ran' := Statement(init, t, user, others, |others|, MarkCancelled(t), s0, ran);
      ran' := Wait(init, t, user, others, |order.lines| + 1, s0, ran');
      if fate.Refused? {
        return false, NO_ORDER, ran';
      }
      cancelled := txs[t].order;
      CancelCommits(init, s0, ran', View(), t, user, others, id);
      CancelEnds(init, s0, ran', View(), t, user, id);
      done := Execute(Commit(t));
      ran' := ran' + [Commit(t)];
    }

    /** The transaction from the locked order row on. */
    method CancelLocked(ghost init: Store, t: TxId, user: UserId, id: OrderId, others: seq<seq<Label>>, fate: CommitFate,
                        ghost before: State, ghost waited: seq<Label>)
      returns (r: Result<Order, Error>, ghost ran: seq<Label>)
      requires Inv(init, View()) && t !in txs && Step(View(), BeginCancel(t, user, id)).Some?
      requires Run(before, waited) == Some(View()) && Commit(t) !in waited
      modifies this
      ensures Inv(init, View()) && t !in txs && Run(before, ran) == Some(View())
      ensures r.Ok? || r == Err(Unsure) ==>
                Committed(init, View(), CancelOp(user, id)) && id in orders && orders[id].status.Cancelled?
      ensures r.Ok? || r == Err(Unsure) ==> EndsWithCancel(before, ran, View(), t, user, id)
      ensures IsOwn(View().store, user, id)
      ensures r.Ok? ==> orders[id] == r.value && fate.Answered?
      ensures r.Err? ==> (r == Err(Unsure) && fate.Lost?) || (r == Err(Aborted) && Commit(t) !in ran)
      ensures r == Err(Aborted) ==> fate.Refused? || EndsStuck(before, ran, t, id)
      ensures Undisputed(old(View()), others) && !fate.Refused? ==>
                Cancel(old(View()).store, user, id) == if r.Ok? || r == Err(Unsure) then Some(View().store) else None
    {
      hide Inv, Undisputed, Run, Shop.Cancel, Committed, OwnLocks, CartPrivate, CartOf, EachInStock, EndsWithCancel, Stuck;
      ghost var s0 := View();
      var done := Execute(BeginCancel(t, user, id));
      CancelBegins(init, s0, View(), t, user, id, others);
      ran := [BeginCancel(t, user, id)];
      var order, cancelled := orders[id], NO_ORDER;
      done, ran := RestockLines(init, t, user, id, others, order, s0, ran);
      if done {
        done, cancelled, ran := MarkOrder(init, t, user, id, others, order, fate, s0, ran);
      }
      if !done {
        LockedIsOwn(init, View(), t, user, id);
        ran := Rollback(init, t, s0, ran);
        RunAppend(before, waited, ran);
        if !fate.Refused? {
          EndsStuckAppend(before, waited, s0, ran, t, id);
        }
        return Err(Aborted), waited + ran;
      }
      RunAppend(before, waited, ran);
      EndsWithCancelAppend(before, waited, s0, ran, View(), t, user, id);
      return if fate.Lost? then Err(Unsure) else Ok(cancelled), waited + ran;
    }
  }
}
