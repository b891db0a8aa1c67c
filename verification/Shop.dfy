/** The shop's tables and what each committed request does to them, all at once.

    This is the plain specification that the interleaved transactions of `Protocol` refine. A
    history is the sequence of committed requests; `Replay` runs it one request at a time. */
module Shop {
  import opened Wrappers
  import opened Totals

  type UserId = nat
  type OrderId = nat

  /** A row of `products`, but for sku, slug and created_at, which nothing changes. */
  datatype Product = Product(name: string, description: string, price: int, currency: string, stock: int,
                             category: Option<nat>, active: bool, updatedAt: int) {
    /** BIGINT price_cents >= 0 and INTEGER stock_quantity >= 0. */
    predicate Valid() {
      0 <= price <= MAX_I64 && 0 <= stock <= MAX_I32
    }
  }

  datatype Status = Pending | Confirmed | Cancelled

  datatype Order = Order(user: UserId, status: Status, total: int, currency: string, lines: seq<OrderLine>)

  datatype Store = Store(products: map<ProductId, Product>, orders: map<OrderId, Order>)

  /** A row of `cart_items` of some user. */
  datatype CartLine = CartLine(product: ProductId, quantity: int)

  /** The optional columns of PATCH /products/{id}, and now() as its statement sees it. Archiving is
      the edit that clears `active`. */
  datatype Edit = Edit(name: Option<string>, description: Option<string>, price: Option<int>, stock: Option<int>,
                       category: Option<nat>, active: Option<bool>, at: int)

  /** A committed request. A checkout carries the cart it read, in the order it read it. */
  datatype Op =
    | CheckoutOp(user: UserId, order: OrderId, cart: seq<CartLine>)
    | CancelOp(user: UserId, order: OrderId)
    | EditOp(product: ProductId, edit: Edit)
    | CreateOp(product: ProductId, row: Product)

  // ---- Quantities ----

  /** Units of product p over all lines. */
  function Quantity(lines: seq<OrderLine>, p: ProductId): int {
    if lines == [] then 0
    else
      var last := lines[|lines| - 1];
      Quantity(lines[..|lines| - 1], p) + if last.product == p then last.quantity else 0
  }

  /** Units of product p that order o keeps out of stock: none once it is cancelled. */
  function Reserved(o: Order, p: ProductId): int {
    if o.status.Cancelled? then 0 else Quantity(o.lines, p)
  }

  /** Units of product p reserved by all orders. */
  ghost function Outstanding(orders: map<OrderId, Order>, p: ProductId): int {
    if orders == map[] then 0
    else
      var id :| id in orders;
      Reserved(orders[id], p) + Outstanding(orders - {id}, p)
  }

  /** Which way units go: out of stock, or back into it. */
  datatype Move = Out | Back {
    function From(stock: int, quantity: int): int {
      if Out? then stock - quantity else stock + quantity
    }
  }

  /** Moves the units of all lines, product by product. */
  function Shift(products: map<ProductId, Product>, lines: seq<OrderLine>, move: Move): map<ProductId, Product> {
    map p | p in products :: products[p].(stock := move.From(products[p].stock, Quantity(lines, p)))
  }

  // ---- The four requests, atomically ----

  predicate Listed(s: Store, cart: seq<CartLine>) {
    forall i :: 0 <= i < |cart| ==> cart[i].product in s.products
  }

  predicate OneLinePerProduct(cart: seq<CartLine>) {
    forall i, j :: 0 <= i < j < |cart| ==> cart[i].product != cart[j].product
  }

  /** The order lines of a cart at current names and prices. */
  function Priced(s: Store, cart: seq<CartLine>): (lines: seq<OrderLine>)
    requires Listed(s, cart)
    ensures |lines| == |cart|
  {
    seq(|cart|, i requires 0 <= i < |cart| =>
      var row := s.products[cart[i].product];
      OrderLine(cart[i].product, row.name, row.price, cart[i].quantity))
  }

  /** The whole cart fits the stock, product by product. */
  predicate Fits(s: Store, lines: seq<OrderLine>) {
    forall p | p in s.products :: Quantity(lines, p) <= s.products[p].stock
  }

  function Checkout(arith: Arith, s: Store, user: UserId, id: OrderId, cart: seq<CartLine>): Option<Store> {
    if id in s.orders || cart == [] || !Listed(s, cart) then None
    else
      var lines := Priced(s, cart);
      if !AllValid(lines) || !Fits(s, lines) then None
      else
        var total :- StoredTotal(arith, lines);
        var currency := s.products[cart[0].product].currency;
        Some(Store(Shift(s.products, lines, Out),
                   s.orders[id := Order(user, Confirmed, total, currency, lines)]))
  }

  /** Restocking must stay within the INTEGER column. */
  predicate RestockInRange(products: map<ProductId, Product>) {
    forall p | p in products :: products[p].stock <= MAX_I32
  }

  function Cancel(s: Store, user: UserId, id: OrderId): Option<Store> {
    if id !in s.orders || s.orders[id].user != user || s.orders[id].status.Cancelled? then None
    else
      var restocked := Shift(s.products, s.orders[id].lines, Back);
      if !RestockInRange(restocked) then None
      else Some(Store(restocked, s.orders[id := s.orders[id].(status := Cancelled)]))
  }

  function GetOr<T>(o: Option<T>, default: T): T {
    if o.Some? then o.value else default
  }

  function Edited(row: Product, e: Edit): Product {
    row.(name := GetOr(e.name, row.name), description := GetOr(e.description, row.description),
         price := GetOr(e.price, row.price), stock := GetOr(e.stock, row.stock),
         category := if e.category.Some? then e.category else row.category,
         active := GetOr(e.active, row.active), updatedAt := e.at)
  }

  function EditProduct(s: Store, p: ProductId, e: Edit): Option<Store> {
    if p !in s.products || !Edited(s.products[p], e).Valid() then None
    else Some(s.(products := s.products[p := Edited(s.products[p], e)]))
  }

  function CreateProduct(s: Store, p: ProductId, row: Product): Option<Store> {
    if p in s.products || !row.Valid() then None else Some(s.(products := s.products[p := row]))
  }

  function Apply(arith: Arith, s: Store, op: Op): Option<Store> {
    match op
    case CheckoutOp(user, id, cart) => Checkout(arith, s, user, id, cart)
    case CancelOp(user, id) => Cancel(s, user, id)
    case EditOp(p, e) => EditProduct(s, p, e)
    case CreateOp(p, row) => CreateProduct(s, p, row)
  }

  /** Runs a history one request at a time; None if any of them would be refused. */
  function Replay(arith: Arith, init: Store, log: seq<Op>): Option<Store> {
    if log == [] then Some(init)
    else
      var before :- Replay(arith, init, log[..|log| - 1]);
      Apply(arith, before, log[|log| - 1])
  }

  // ---- What a well-formed store looks like ----

  predicate OrderValid(arith: Arith, products: map<ProductId, Product>, o: Order) {
    && AllValid(o.lines)
    && StoredTotal(arith, o.lines) == Some(o.total)
    && (forall i :: 0 <= i < |o.lines| ==> o.lines[i].product in products)
  }

  ghost predicate StoreValid(arith: Arith, s: Store) {
    && (forall p | p in s.products :: s.products[p].Valid())
    && (forall id | id in s.orders :: OrderValid(arith, s.products, s.orders[id]))
  }

  /** Committed orders are history: only the status may move, once, to Cancelled. */
  ghost predicate Settled(before: Store, after: Store) {
    && before.products.Keys <= after.products.Keys
    && (forall id | id in before.orders ::
          && id in after.orders
          && (after.orders[id] == before.orders[id]
              || (!before.orders[id].status.Cancelled?
                  && after.orders[id] == before.orders[id].(status := Cancelled))))
  }

  // ---- Quantity lemmas ----

  lemma {:induction false} QuantityNonNegative(lines: seq<OrderLine>, p: ProductId)
    requires AllValid(lines)
    ensures Quantity(lines, p) >= 0
  {
    if lines != [] {
      QuantityNonNegative(lines[..|lines| - 1], p);
    }
  }

  lemma {:induction false} QuantityOfAbsent(lines: seq<OrderLine>, p: ProductId)
    requires forall i :: 0 <= i < |lines| ==> lines[i].product != p
    ensures Quantity(lines, p) == 0
  {
    if lines != [] {
      QuantityOfAbsent(lines[..|lines| - 1], p);
    }
  }

  lemma QuantitySnoc(lines: seq<OrderLine>, n: nat, p: ProductId)
    requires n < |lines|
    ensures Quantity(lines[..n + 1], p)
         == Quantity(lines[..n], p) + if lines[n].product == p then lines[n].quantity else 0
  {
    assert lines[..n + 1][..n] == lines[..n];
  }

  /** With one line per product, a product's quantity is that of its own line. */
  lemma {:induction false} QuantityOfUniqueLine(lines: seq<OrderLine>, i: nat)
    requires i < |lines|
    requires forall j, k :: 0 <= j < k < |lines| ==> lines[j].product != lines[k].product
    ensures Quantity(lines, lines[i].product) == lines[i].quantity
  {
    var rest := lines[..|lines| - 1];
    if i == |lines| - 1 {
      QuantityOfAbsent(rest, lines[i].product);
    } else {
      QuantityOfUniqueLine(rest, i);
    }
  }

  // ---- Sums over the order table ----

  lemma {:induction false} OutstandingRemove(orders: map<OrderId, Order>, id: OrderId, p: ProductId)
    requires id in orders
    ensures Outstanding(orders, p) == Reserved(orders[id], p) + Outstanding(orders - {id}, p)
    decreases |orders|
  {
    var pick :| pick in orders && Outstanding(orders, p) == Reserved(orders[pick], p) + Outstanding(orders - {pick}, p);
    if pick != id {
      OutstandingRemove(orders - {pick}, id, p);
      OutstandingRemove(orders - {id}, pick, p);
      assert orders - {pick} - {id} == orders - {id} - {pick};
    }
  }

  lemma OutstandingUpdate(orders: map<OrderId, Order>, id: OrderId, o: Order, p: ProductId)
    ensures Outstanding(orders[id := o], p)
         == Outstanding(orders, p) + Reserved(o, p) - if id in orders then Reserved(orders[id], p) else 0
  {
    var after := orders[id := o];
    OutstandingRemove(after, id, p);
    assert after - {id} == orders - {id};
    if id in orders {
      OutstandingRemove(orders, id, p);
    } else {
      assert orders - {id} == orders;
    }
  }

  lemma {:induction false} OutstandingNonNegative(arith: Arith, products: map<ProductId, Product>,
                                                  orders: map<OrderId, Order>, p: ProductId)
    requires forall id | id in orders :: OrderValid(arith, products, orders[id])
    ensures Outstanding(orders, p) >= 0
    decreases |orders|
  {
    if orders == map[] {
      assert Outstanding(orders, p) == 0;
    } else {
      var id :| id in orders && Outstanding(orders, p) == Reserved(orders[id], p) + Outstanding(orders - {id}, p);
      QuantityNonNegative(orders[id].lines, p);
      assert Reserved(orders[id], p) >= 0;
      OutstandingNonNegative(arith, products, orders - {id}, p);
    }
  }

  // ---- Every request keeps the store well formed and history fixed ----

  lemma ShiftKeepsProducts(arith: Arith, s: Store, lines: seq<OrderLine>, move: Move)
    requires StoreValid(arith, s) && AllValid(lines)
    requires if move.Out? then Fits(s, lines) else RestockInRange(Shift(s.products, lines, Back))
    ensures forall p | p in s.products :: Shift(s.products, lines, move)[p].Valid()
  {
    forall p | p in s.products
      ensures Shift(s.products, lines, move)[p].Valid()
    {
      QuantityNonNegative(lines, p);
      assert s.products[p].Valid();
    }
  }

  lemma ApplyKeepsStoreValid(arith: Arith, s: Store, op: Op)
    requires StoreValid(arith, s) && Apply(arith, s, op).Some?
    ensures StoreValid(arith, Apply(arith, s, op).value)
    ensures Settled(s, Apply(arith, s, op).value)
  {
    hide StoredTotal, Quantity;
    match op
    case CheckoutOp(user, id, cart) =>
      ShiftKeepsProducts(arith, s, Priced(s, cart), Out);
    case CancelOp(user, id) =>
      assert OrderValid(arith, s.products, s.orders[id]);
      ShiftKeepsProducts(arith, s, s.orders[id].lines, Back);
    case EditOp(p, e) =>
    case CreateOp(p, row) =>
  }

  // ---- Theorems about whole histories ----

  /** Stock stays within [0, 2^31 - 1], prices are non-negative, and each order's total is the stored
      total of its lines, after any history. */
  lemma {:induction false} HistoryKeepsStoreValid(arith: Arith, init: Store, log: seq<Op>)
    requires StoreValid(arith, init) && Replay(arith, init, log).Some?
    ensures StoreValid(arith, Replay(arith, init, log).value)
  {
    if log != [] {
      HistoryKeepsStoreValid(arith, init, log[..|log| - 1]);
      ApplyKeepsStoreValid(arith, Replay(arith, init, log[..|log| - 1]).value, log[|log| - 1]);
    }
  }

  /** A history that runs has prefixes that run, and orders committed in one stay settled. */
  lemma {:induction false} HistoryIsSettled(arith: Arith, init: Store, log: seq<Op>, n: nat)
    requires StoreValid(arith, init) && Replay(arith, init, log).Some? && n <= |log|
    ensures Replay(arith, init, log[..n]).Some?
    ensures Settled(Replay(arith, init, log[..n]).value, Replay(arith, init, log).value)
    decreases |log|
  {
    if n == |log| {
      assert log[..n] == log;
    } else {
      var cut := log[..|log| - 1];
      HistoryIsSettled(arith, init, cut, n);
      assert cut[..n] == log[..n];
      HistoryKeepsStoreValid(arith, init, cut);
      ApplyKeepsStoreValid(arith, Replay(arith, init, cut).value, log[|log| - 1]);
    }
  }

  function StockOf(s: Store, p: ProductId): int {
    if p in s.products then s.products[p].stock else 0
  }

  /** What administrators have added to the stock of p: the sum over the history of new
      minus old stock at each edit, and of the initial stock of each created product. */
  function NetEdits(arith: Arith, init: Store, log: seq<Op>, p: ProductId): int
    requires Replay(arith, init, log).Some?
  {
    if log == [] then 0
    else
      var cut, op := log[..|log| - 1], log[|log| - 1];
      NetEdits(arith, init, cut, p) +
      if op.EditOp? && op.product == p && op.edit.stock.Some?
      then op.edit.stock.value - StockOf(Replay(arith, init, cut).value, p)
      else if op.CreateOp? && op.product == p then op.row.stock
      else 0
  }

  /** Stock is conserved: what is on the shelf plus what live orders hold is what there was
      at the start plus what administrators put in. */
  lemma {:induction false} StockIsConserved(arith: Arith, init: Store, log: seq<Op>, p: ProductId)
    requires StoreValid(arith, init) && Replay(arith, init, log).Some?
    ensures var s := Replay(arith, init, log).value;
            StockOf(s, p) + Outstanding(s.orders, p)
            == StockOf(init, p) + Outstanding(init.orders, p) + NetEdits(arith, init, log, p)
  {
    if log != [] {
      var cut, op := log[..|log| - 1], log[|log| - 1];
      StockIsConserved(arith, init, cut, p);
      HistoryKeepsStoreValid(arith, init, cut);
      ApplyMovesStock(arith, Replay(arith, init, cut).value, op, p);
    }
  }

  lemma ApplyMovesStock(arith: Arith, s: Store, op: Op, p: ProductId)
    requires StoreValid(arith, s) && Apply(arith, s, op).Some?
    ensures var after := Apply(arith, s, op).value;
            StockOf(after, p) + Outstanding(after.orders, p)
            == StockOf(s, p) + Outstanding(s.orders, p)
               + if op.EditOp? && op.product == p && op.edit.stock.Some? then op.edit.stock.value - StockOf(s, p)
                 else if op.CreateOp? && op.product == p then op.row.stock else 0
  {
    match op
    case CheckoutOp(user, id, cart) =>
      var lines := Priced(s, cart);
      OutstandingUpdate(s.orders, id, Apply(arith, s, op).value.orders[id], p);
      if p !in s.products {
        QuantityOfAbsent(lines, p);
      }
    case CancelOp(user, id) =>
      OutstandingUpdate(s.orders, id, s.orders[id].(status := Cancelled), p);
      assert OrderValid(arith, s.products, s.orders[id]);
      if p !in s.products {
        QuantityOfAbsent(s.orders[id].lines, p);
      }
    case EditOp(q, e) =>
    case CreateOp(q, row) =>
  }

  /** No oversell: live orders never hold more than ever was on the shelf. */
  lemma NoOversell(arith: Arith, init: Store, log: seq<Op>, p: ProductId)
    requires StoreValid(arith, init) && Replay(arith, init, log).Some?
    ensures Outstanding(Replay(arith, init, log).value.orders, p)
         <= StockOf(init, p) + Outstanding(init.orders, p) + NetEdits(arith, init, log, p)
  {
    HistoryKeepsStoreValid(arith, init, log);
    StockIsConserved(arith, init, log, p);
    var s := Replay(arith, init, log).value;
    if p in s.products {
      assert s.products[p].Valid();
    }
  }

  /** How often a request of the history restocked order id. */
  function Cancellations(log: seq<Op>, id: OrderId): nat {
    if log == [] then 0
    else Cancellations(log[..|log| - 1], id)
         + if log[|log| - 1].CancelOp? && log[|log| - 1].order == id then 1 else 0
  }

  function Placements(log: seq<Op>, id: OrderId): nat {
    if log == [] then 0
    else Placements(log[..|log| - 1], id)
         + if log[|log| - 1].CheckoutOp? && log[|log| - 1].order == id then 1 else 0
  }

  function StatusIn(orders: map<OrderId, Order>, id: OrderId): Option<Status> {
    if id in orders then Some(orders[id].status) else None
  }

  /** An order is placed at most once and restocked at most once, and it was restocked exactly
      when its status turned to Cancelled. */
  lemma {:induction false} RestockedExactlyWhenCancelled(arith: Arith, init: Store, log: seq<Op>, id: OrderId)
    requires Replay(arith, init, log).Some?
    ensures var status := StatusIn(Replay(arith, init, log).value.orders, id);
            var initially := StatusIn(init.orders, id);
            && Cancellations(log, id)
               == (if status == Some(Cancelled) && initially != Some(Cancelled) then 1 else 0)
            && Placements(log, id) == (if status.Some? && initially.None? then 1 else 0)
            && (status.None? ==> initially.None?)
            && (initially == Some(Cancelled) ==> status == Some(Cancelled))
  {
    if log != [] {
      RestockedExactlyWhenCancelled(arith, init, log[..|log| - 1], id);
    }
  }
}
