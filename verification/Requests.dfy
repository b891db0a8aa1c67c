/** What each committed request leaves in the tables, column by column, and when it goes through: said
    of the tables themselves, without the functions of `Shop` that compute them. */
module Requests {
  import opened Wrappers
  import opened Totals
  import opened Shop

  // ---- Checkout ----

  /** Line i is row i of the cart, with the name and the price that its product has. */
  predicate CarriesCart(lines: seq<OrderLine>, products: map<ProductId, Product>, cart: seq<CartLine>) {
    && |lines| == |cart|
    && forall i | 0 <= i < |cart| ::
         && lines[i].product == cart[i].product && lines[i].quantity == cart[i].quantity
         && cart[i].product in products
         && lines[i].name == products[cart[i].product].name
         && lines[i].unitPrice == products[cart[i].product].price
  }

  /** A fresh order of this user for this cart, in the currency of its first row. */
  predicate IsOrderFor(o: Order, products: map<ProductId, Product>, user: UserId, cart: seq<CartLine>) {
    && o.user == user && o.status == Confirmed
    && cart != [] && CarriesCart(o.lines, products, cart)
    && o.currency == products[cart[0].product].currency
  }

  /** Units of p that the cart asks for. */
  function Wanted(cart: seq<CartLine>, p: ProductId): int {
    if cart == [] then 0
    else
      var last := |cart| - 1;
      if cart[last].product == p then Wanted(cart[..last], p) + cart[last].quantity else Wanted(cart[..last], p)
  }

  /** What the cart costs, in unbounded integers. */
  function Cost(products: map<ProductId, Product>, cart: seq<CartLine>): int
    requires forall i | 0 <= i < |cart| :: cart[i].product in products
  {
    if cart == [] then 0
    else
      var last := |cart| - 1;
      Cost(products, cart[..last]) + cart[last].quantity * products[cart[last].product].price
  }

  /** The order is new and is for this cart, at its cost; each product has lost what was asked of it,
      and nothing else has changed. */
  ghost predicate Places(arith: Arith, before: Store, after: Store, user: UserId, id: OrderId, cart: seq<CartLine>) {
    && id !in before.orders && after.orders.Keys == before.orders.Keys + {id}
    && (forall other | other in before.orders :: after.orders[other] == before.orders[other])
    && IsOrderFor(after.orders[id], before.products, user, cart)
    && after.orders[id].total >= 0
    && after.orders[id].total == Wrap64(Cost(before.products, cart))
    && (arith.Checked? ==> after.orders[id].total == Cost(before.products, cart))
    && after.products.Keys == before.products.Keys
    && forall p | p in before.products ::
         after.products[p] == before.products[p].(stock := before.products[p].stock - Wanted(cart, p))
  }

  lemma {:induction false} CarriedAmounts(products: map<ProductId, Product>, lines: seq<OrderLine>, cart: seq<CartLine>, p: ProductId)
    requires CarriesCart(lines, products, cart)
    ensures Quantity(lines, p) == Wanted(cart, p)
    ensures TrueTotal(lines) == Cost(products, cart)
  {
    if cart != [] {
      CarriedAmounts(products, lines[..|lines| - 1], cart[..|cart| - 1], p);
    }
  }

  lemma CheckoutPlaces(arith: Arith, s: Store, user: UserId, id: OrderId, cart: seq<CartLine>)
    requires Checkout(arith, s, user, id, cart).Some?
    ensures Places(arith, s, Checkout(arith, s, user, id, cart).value, user, id, cart)
  {
    var lines := Priced(s, cart);
    assert CarriesCart(lines, s.products, cart);
    forall p
      ensures Quantity(lines, p) == Wanted(cart, p) && TrueTotal(lines) == Cost(s.products, cart)
    {
      CarriedAmounts(s.products, lines, cart, p);
    }
    WrappedIsTrueModulo(lines);
    hide Quantity, Wanted, TrueTotal, WrappedTotal, Cost;
  }

  /** The column of the total takes what the loop adds up to. */
  predicate TotalFits(arith: Arith, cost: int) {
    if arith.Wrapping? then Wrap64(cost) >= 0 else 0 <= cost <= MAX_I64
  }

  /** A checkout goes through exactly when its order id is new, the cart has rows, all of products that
      exist and in quantities that the column takes, no product is short, and the total fits. */
  lemma CheckoutSucceedsIff(arith: Arith, s: Store, user: UserId, id: OrderId, cart: seq<CartLine>)
    requires forall p | p in s.products :: s.products[p].Valid()
    ensures Checkout(arith, s, user, id, cart).Some? <==>
              && id !in s.orders && cart != []
              && (forall i | 0 <= i < |cart| :: cart[i].product in s.products && 0 < cart[i].quantity <= MAX_I32)
              && (forall p | p in s.products :: Wanted(cart, p) <= s.products[p].stock)
              && TotalFits(arith, Cost(s.products, cart))
  {
    if Listed(s, cart) {
      var lines := Priced(s, cart);
      assert CarriesCart(lines, s.products, cart);
      forall p
        ensures Quantity(lines, p) == Wanted(cart, p) && TrueTotal(lines) == Cost(s.products, cart)
      {
        CarriedAmounts(s.products, lines, cart, p);
      }
      assert AllValid(lines) <==> forall i | 0 <= i < |cart| :: 0 < cart[i].quantity <= MAX_I32 by {
        assert forall i | 0 <= i < |cart| :: lines[i].quantity == cart[i].quantity;
      }
      WrappedIsTrueModulo(lines);
      hide Quantity, Wanted, TrueTotal, WrappedTotal, Cost, Wrap64, Priced;
    }
  }

  predicate Short(s: Store, line: CartLine) {
    line.product in s.products && line.quantity > s.products[line.product].stock
  }

  predicate SomeShort(s: Store, cart: seq<CartLine>) {
    exists i | 0 <= i < |cart| :: Short(s, cart[i])
  }

  /** The first row of the cart that is short asks for this much of p, and this much is there. */
  predicate IsFirstShort(s: Store, cart: seq<CartLine>, p: ProductId, requested: int, available: int) {
    exists i | 0 <= i < |cart| ::
      && cart[i] == CartLine(p, requested) && Short(s, cart[i]) && s.products[p].stock == available
      && forall j | 0 <= j < i :: !Short(s, cart[j])
  }

  lemma {:induction false} WantedOfOneLine(cart: seq<CartLine>, p: ProductId)
    requires OneLinePerProduct(cart)
    ensures forall i | 0 <= i < |cart| :: cart[i].product == p ==> Wanted(cart, p) == cart[i].quantity
    ensures (forall i | 0 <= i < |cart| :: cart[i].product != p) ==> Wanted(cart, p) == 0
  {
    if cart != [] {
      var cut := cart[..|cart| - 1];
      WantedOfOneLine(cut, p);
      assert forall i | 0 <= i < |cut| :: cut[i] == cart[i];
    }
  }

  /** With one row per product, a product is short exactly when a row asks for more than there is. */
  lemma SomeShortIff(s: Store, cart: seq<CartLine>)
    requires OneLinePerProduct(cart) && forall p | p in s.products :: s.products[p].stock >= 0
    ensures SomeShort(s, cart) <==> (exists p | p in s.products :: Wanted(cart, p) > s.products[p].stock)
  {
    forall p
      ensures forall i | 0 <= i < |cart| :: cart[i].product == p ==> Wanted(cart, p) == cart[i].quantity
      ensures (forall i | 0 <= i < |cart| :: cart[i].product != p) ==> Wanted(cart, p) == 0
    {
      WantedOfOneLine(cart, p);
    }
    if p :| p in s.products && Wanted(cart, p) > s.products[p].stock {
      var i :| 0 <= i < |cart| && cart[i].product == p;
      assert Short(s, cart[i]);
    }
    if i :| 0 <= i < |cart| && Short(s, cart[i]) {
      assert Wanted(cart, cart[i].product) > s.products[cart[i].product].stock;
    }
  }

  // ---- Cancel ----

  predicate IsOwn(s: Store, user: UserId, id: OrderId) {
    id in s.orders && s.orders[id].user == user
  }

  /** The user's own order, not cancelled before, is cancelled now; each product has got back what the
      order held of it, and nothing else has changed. */
  ghost predicate Cancels(before: Store, after: Store, user: UserId, id: OrderId) {
    && IsOwn(before, user, id) && before.orders[id].status != Cancelled
    && after.orders.Keys == before.orders.Keys
    && after.orders[id] == before.orders[id].(status := Cancelled)
    && (forall other | other in before.orders && other != id :: after.orders[other] == before.orders[other])
    && after.products.Keys == before.products.Keys
    && forall p | p in before.products ::
         after.products[p]
         == before.products[p].(stock := before.products[p].stock + Quantity(before.orders[id].lines, p))
  }

  lemma CancelDoes(s: Store, user: UserId, id: OrderId)
    requires Cancel(s, user, id).Some?
    ensures Cancels(s, Cancel(s, user, id).value, user, id)
  {
    hide Quantity;
  }

  /** A cancel goes through exactly for the user's own order that is not cancelled yet, if the stock that
      it gives back fits the column. */
  lemma CancelSucceedsIff(s: Store, user: UserId, id: OrderId)
    ensures Cancel(s, user, id).Some? <==>
              && IsOwn(s, user, id) && s.orders[id].status != Cancelled
              && forall p | p in s.products :: s.products[p].stock + Quantity(s.orders[id].lines, p) <= MAX_I32
  {
    if id in s.orders {
      hide Quantity;
      var restocked := Shift(s.products, s.orders[id].lines, Back);
      assert forall p | p in s.products ::
          p in restocked && restocked[p].stock == s.products[p].stock + Quantity(s.orders[id].lines, p);
    }
  }

  // ---- Edits and new products ----

  /** A column that was given has the given value, another one keeps what it had. */
  predicate Sets<T(==)>(given: Option<T>, was: T, is_: T) {
    (given.Some? ==> is_ == given.value) && (given.None? ==> is_ == was)
  }

  predicate IsEdited(was: Product, is_: Product, e: Edit) {
    && Sets(e.name, was.name, is_.name) && Sets(e.description, was.description, is_.description)
    && Sets(e.price, was.price, is_.price) && Sets(e.stock, was.stock, is_.stock)
    && (e.category.Some? ==> is_.category == e.category) && (e.category.None? ==> is_.category == was.category)
    && Sets(e.active, was.active, is_.active)
    && is_.updatedAt == e.at && is_.currency == was.currency
  }

  ghost predicate Edits(before: Store, after: Store, p: ProductId, e: Edit) {
    && after.orders == before.orders
    && after.products.Keys == before.products.Keys && p in before.products
    && (forall q | q in before.products && q != p :: after.products[q] == before.products[q])
    && IsEdited(before.products[p], after.products[p], e)
  }

  lemma EditDoes(s: Store, p: ProductId, e: Edit)
    requires EditProduct(s, p, e).Some?
    ensures Edits(s, EditProduct(s, p, e).value, p, e)
  {
  }

  /** An edit is refused exactly for a missing product, or when it gives a price or a stock that the
      column does not take. */
  lemma EditSucceedsIff(s: Store, p: ProductId, e: Edit)
    requires p in s.products ==> s.products[p].Valid()
    ensures EditProduct(s, p, e).Some? <==>
              && p in s.products
              && (e.price.Some? ==> 0 <= e.price.value <= MAX_I64)
              && (e.stock.Some? ==> 0 <= e.stock.value <= MAX_I32)
  {
  }

  ghost predicate Adds(before: Store, after: Store, p: ProductId, row: Product) {
    && after.orders == before.orders
    && p !in before.products && after.products.Keys == before.products.Keys + {p} && after.products[p] == row
    && forall q | q in before.products :: after.products[q] == before.products[q]
  }

  lemma CreateDoes(s: Store, p: ProductId, row: Product)
    requires CreateProduct(s, p, row).Some?
    ensures Adds(s, CreateProduct(s, p, row).value, p, row)
  {
  }

  // ---- Histories ----

  ghost predicate Does(arith: Arith, before: Store, after: Store, op: Op) {
    match op
    case CheckoutOp(user, id, cart) => Places(arith, before, after, user, id, cart)
    case CancelOp(user, id) => Cancels(before, after, user, id)
    case EditOp(p, e) => Edits(before, after, p, e)
    case CreateOp(p, row) => Adds(before, after, p, row)
  }

  lemma ApplyDoes(arith: Arith, s: Store, op: Op)
    requires Apply(arith, s, op).Some?
    ensures Does(arith, s, Apply(arith, s, op).value, op)
  {
    hide Checkout, Cancel, EditProduct, CreateProduct, Places, Cancels, Edits, Adds;
    match op
    case CheckoutOp(user, id, cart) => CheckoutPlaces(arith, s, user, id, cart);
    case CancelOp(user, id) => CancelDoes(s, user, id);
    case EditOp(p, e) => EditDoes(s, p, e);
    case CreateOp(p, row) => CreateDoes(s, p, row);
  }

  /** Request number k of a history does what it says, to the tables as its predecessors left them. */
  lemma EachRequestDoes(arith: Arith, init: Store, log: seq<Op>, k: nat)
    requires StoreValid(arith, init) && Replay(arith, init, log).Some? && k < |log|
    ensures Replay(arith, init, log[..k]).Some? && Replay(arith, init, log[..k + 1]).Some?
    ensures Does(arith, Replay(arith, init, log[..k]).value, Replay(arith, init, log[..k + 1]).value, log[k])
  {
    HistoryIsSettled(arith, init, log, k);
    HistoryIsSettled(arith, init, log, k + 1);
    assert log[..k + 1][..k] == log[..k];
    hide Does, Apply, Settled;
    ApplyDoes(arith, Replay(arith, init, log[..k]).value, log[k]);
  }

  /** An order is, for good, its user's order for the cart of its checkout, at the names and prices that
      the products had then; only its status may change. */
  lemma OrderIsItsCart(arith: Arith, init: Store, log: seq<Op>, k: nat)
    requires StoreValid(arith, init) && Replay(arith, init, log).Some? && k < |log| && log[k].CheckoutOp?
    ensures var orders, op := Replay(arith, init, log).value.orders, log[k];
            && Replay(arith, init, log[..k]).Some?
            && op.order in orders
            && IsOrderFor(orders[op.order].(status := Confirmed), Replay(arith, init, log[..k]).value.products, op.user, op.cart)
  {
    EachRequestDoes(arith, init, log, k);
    HistoryIsSettled(arith, init, log, k + 1);
    hide Replay, Wanted, Cost, Wrap64;
  }

  /** Only its own user ever cancels an order, and it stays cancelled. */
  lemma OnlyTheOwnerCancels(arith: Arith, init: Store, log: seq<Op>, k: nat)
    requires StoreValid(arith, init) && Replay(arith, init, log).Some? && k < |log| && log[k].CancelOp?
    ensures var orders, op := Replay(arith, init, log).value.orders, log[k];
            IsOwn(Replay(arith, init, log).value, op.user, op.order) && orders[op.order].status == Cancelled
  {
    EachRequestDoes(arith, init, log, k);
    HistoryIsSettled(arith, init, log, k + 1);
    hide Replay, Quantity;
  }
}
