/** Checkout and cancel as they really run: transactions interleaved statement by statement under
    READ COMMITTED, with row locks, private uncommitted writes, and an abort possible anywhere.

    A schedule is a sequence of labels; a label names the transaction and the statement it runs
    next and fixes what the program leaves open (fresh ids, the row order of a query). `Step`
    is None when the statement cannot run: it waits for a lock, or the database refuses it. */
module Protocol {
  import opened Wrappers
  import opened Totals
  import opened Shop

  type TxId = nat

  /** One user's rows of `cart_items`; the primary key allows one row per product. */
  type Cart = map<ProductId, int>

  /** A row that can be locked. */
  datatype Resource = ProductRow(p: ProductId) | OrderRow(id: OrderId) | CartRow(user: UserId, item: ProductId)

  /** A row of checkout's SELECT: the cart line joined with the product as of its locking. */
  datatype Row = Row(product: ProductId, name: string, price: int, currency: string, stock: int, quantity: int)

  /** A running transaction. `stock` holds its uncommitted product updates. */
  datatype Tx =
    | Selecting(user: UserId, cart: seq<CartLine>, rows: seq<Row>)
      // in the SELECT … FOR UPDATE: `cart` is what the statement's snapshot listed
    | Placing(user: UserId, cart: seq<CartLine>, rows: seq<Row>, id: OrderId, order: Order,
              next: nat, stock: map<ProductId, int>)
      // the order is inserted; `next` lines are inserted and taken from stock
    | Placed(user: UserId, cart: seq<CartLine>, rows: seq<Row>, id: OrderId, order: Order,
             stock: map<ProductId, int>, deletion: Deletion)
      // in or past the DELETE of the cart rows; once it is done, COMMIT is next
    | Restocking(user: UserId, id: OrderId, order: Order, next: nat, stock: map<ProductId, int>)
      // in the loop over the lines of the locked order
    | Restocked(user: UserId, id: OrderId, order: Order, stock: map<ProductId, int>)
      // the order is marked cancelled, COMMIT is next

  /** DELETE FROM cart_items first sees rows, in a snapshot, then deletes those that still stand. */
  datatype Deletion =
    | Scanned(seen: set<ProductId>, mark: nat)  // `mark` erasures had been committed by then
    | Done(emptied: set<ProductId>)

  /** Committed deletions of cart rows of one user. */
  datatype Erasure = Erasure(user: UserId, items: set<ProductId>)

  datatype State = State(arith: Arith, store: Store, carts: map<UserId, Cart>, erased: seq<Erasure>,
                         locks: map<Resource, TxId>, txs: map<TxId, Tx>,
                         log: seq<Op>)  // the committed requests, in commit order

  datatype Label =
    | BeginCheckout(t: TxId, user: UserId, cart: seq<CartLine>)
    | LockRow(t: TxId)
    | InsertOrder(t: TxId, id: OrderId)
    | InsertLine(t: TxId)
    | TakeStock(t: TxId)
    | ScanCart(t: TxId)
    | ClearCart(t: TxId)
    | BeginCancel(t: TxId, user: UserId, id: OrderId)
    | Restock(t: TxId)
    | MarkCancelled(t: TxId)
    | Commit(t: TxId)
    | Abort(t: TxId)
    // single-statement requests, committed at once
    | PatchProduct(p: ProductId, edit: Edit)
    | AddProduct(p: ProductId, row: Product)
    | WriteCart(user: UserId, p: ProductId, quantity: Option<int>)

  /** The transaction a label belongs to; None for a single-statement request. */
  function Actor(l: Label): Option<TxId> {
    if l.PatchProduct? || l.AddProduct? || l.WriteCart? then None else Some(l.t)
  }

  // ---- Reading ----

  function CartOf(s: State, user: UserId): Cart {
    if user in s.carts then s.carts[user] else map[]
  }

  /** The cart's rows in some order: the query has no ORDER BY. */
  predicate IsListing(cart: seq<CartLine>, c: Cart) {
    && OneLinePerProduct(cart)
    && (set line | line in cart :: line.product) == c.Keys
    && (forall i :: 0 <= i < |cart| ==> cart[i].product in c && c[cart[i].product] == cart[i].quantity)
  }

  function RowOf(product: Product, line: CartLine): Row {
    Row(line.product, product.name, product.price, product.currency, product.stock, line.quantity)
  }

  function LinesOf(rows: seq<Row>): (lines: seq<OrderLine>)
    ensures |lines| == |rows|
  {
    seq(|rows|, i requires 0 <= i < |rows| =>
      OrderLine(rows[i].product, rows[i].name, rows[i].price, rows[i].quantity))
  }

  /** r is not locked by anyone but t. */
  predicate Free(s: State, t: TxId, r: Resource) {
    r in s.locks ==> s.locks[r] == t
  }

  /** The stock transaction-local code sees: its own write, else the committed row. */
  function Visible(s: Store, stock: map<ProductId, int>, p: ProductId): int
    requires p in s.products
  {
    if p in stock then stock[p] else s.products[p].stock
  }

  /** Every requested quantity is in stock: the test in the loop that adds up the total. */
  predicate EachInStock(rows: seq<Row>) {
    forall i :: 0 <= i < |rows| ==> rows[i].quantity <= rows[i].stock
  }

  /** id is the id of an order some transaction has inserted but not committed. */
  predicate IdTaken(s: State, id: OrderId) {
    exists t | t in s.txs :: (s.txs[t].Placing? || s.txs[t].Placed?) && s.txs[t].id == id
  }

  // ---- Writing ----

  function Install(products: map<ProductId, Product>, stock: map<ProductId, int>): map<ProductId, Product> {
    map p | p in products :: if p in stock then products[p].(stock := stock[p]) else products[p]
  }

  function Release(locks: map<Resource, TxId>, t: TxId): map<Resource, TxId> {
    map r | r in locks && locks[r] != t :: locks[r]
  }

  /** The locks after t locked the cart rows of these products. */
  function LockCart(locks: map<Resource, TxId>, t: TxId, user: UserId, items: set<ProductId>): map<Resource, TxId> {
    locks + (map p | p in items :: CartRow(user, p) := t)
  }

  function End(s: State, t: TxId): State {
    s.(locks := Release(s.locks, t), txs := s.txs - {t})
  }

  function Update(s: State, t: TxId, tx: Tx): State {
    s.(txs := s.txs[t := tx])
  }

  // ---- The statements ----

  function DoBeginCheckout(s: State, t: TxId, user: UserId, cart: seq<CartLine>): Option<State> {
    if t in s.txs || !IsListing(cart, CartOf(s, user)) then None
    else Some(Update(s, t, Selecting(user, cart, [])))
  }

  /** SELECT … FOR UPDATE OF p locks the next row, then reads its newest committed version. */
  function DoLockRow(s: State, t: TxId): Option<State> {
    if t !in s.txs || !s.txs[t].Selecting? then None
    else
      var tx := s.txs[t];
      if |tx.rows| >= |tx.cart| then None
      else
        var line := tx.cart[|tx.rows|];
        var r := ProductRow(line.product);
        if line.product !in s.store.products || !Free(s, t, r) then None
        else
          var row := RowOf(s.store.products[line.product], line);
          Some(Update(s, t, Selecting(tx.user, tx.cart, tx.rows + [row])).(locks := s.locks[r := t]))
  }

  /** The loop over the rows passed, and INSERT INTO orders is accepted. */
  function DoInsertOrder(s: State, t: TxId, id: OrderId): Option<State> {
    if t !in s.txs || !s.txs[t].Selecting? || id in s.store.orders || IdTaken(s, id) then None
    else
      var tx := s.txs[t];
      if |tx.rows| < |tx.cart| || tx.rows == [] || !EachInStock(tx.rows) then None
      else
        var total :- StoredTotal(s.arith, LinesOf(tx.rows));
        var order := Order(tx.user, Confirmed, total, tx.rows[0].currency, []);
        Some(Update(s, t, Placing(tx.user, tx.cart, tx.rows, id, order, 0, map[])))
  }

  /** INSERT INTO order_items for row number `next`. */
  function DoInsertLine(s: State, t: TxId): Option<State> {
    if t !in s.txs || !s.txs[t].Placing? then None
    else
      var tx := s.txs[t];
      if tx.next >= |tx.rows| || |tx.order.lines| != tx.next then None
      else
        var line := LinesOf(tx.rows)[tx.next];
        var order := tx.order.(lines := tx.order.lines + [line]);
        Some(Update(s, t, Placing(tx.user, tx.cart, tx.rows, tx.id, order, tx.next, tx.stock)))
  }

  /** UPDATE products SET stock_quantity = stock_quantity - quantity, under its CHECK. */
  function DoTakeStock(s: State, t: TxId): Option<State> {
    if t !in s.txs || !s.txs[t].Placing? then None
    else
      var tx := s.txs[t];
      if tx.next >= |tx.rows| || |tx.order.lines| != tx.next + 1 then None
      else
        var row := tx.rows[tx.next];
        var r := ProductRow(row.product);
        if row.product !in s.store.products || !Free(s, t, r) then None
        else
          var left := Visible(s.store, tx.stock, row.product) - row.quantity;
          if left < 0 then None
          else Some(Update(s, t, Placing(tx.user, tx.cart, tx.rows, tx.id, tx.order, tx.next + 1,
                                         tx.stock[row.product := left])).(locks := s.locks[r := t]))
  }

  /** DELETE FROM cart_items begins: its snapshot holds all rows of the user's cart. */
  function DoScanCart(s: State, t: TxId): Option<State> {
    if t !in s.txs || !s.txs[t].Placing? then None
    else
      var tx := s.txs[t];
      if tx.next < |tx.rows| then None
      else Some(Update(s, t, Placed(tx.user, tx.cart, tx.rows, tx.id, tx.order, tx.stock,
                                    Scanned(CartOf(s, tx.user).Keys, |s.erased|))))
  }

  /** This cart row was deleted after the first `mark` erasures. */
  predicate ErasedSince(s: State, user: UserId, p: ProductId, mark: nat) {
    exists i | mark <= i < |s.erased| :: s.erased[i].user == user && p in s.erased[i].items
  }

  /** The rows of a snapshot that are still there. One that was deleted and written anew is another
      row, which the snapshot does not hold. */
  function Standing(s: State, user: UserId, seen: set<ProductId>, mark: nat): set<ProductId> {
    set p | p in seen && p in CartOf(s, user) && !ErasedSince(s, user, p, mark)
  }

  /** DELETE FROM cart_items ends: it waits for the rows that others have locked, and deletes all
      that stand, as they are by then. */
  function DoClearCart(s: State, t: TxId): Option<State> {
    if t !in s.txs || !s.txs[t].Placed? || !s.txs[t].deletion.Scanned? then None
    else
      var tx := s.txs[t];
      var emptied := Standing(s, tx.user, tx.deletion.seen, tx.deletion.mark);
      if exists p | p in emptied :: !Free(s, t, CartRow(tx.user, p)) then None
      else Some(Update(s, t, Placed(tx.user, tx.cart, tx.rows, tx.id, tx.order, tx.stock, Done(emptied)))
                .(locks := LockCart(s.locks, t, tx.user, emptied)))
  }

  /** SELECT … FROM orders … FOR UPDATE, and the order is not cancelled yet. */
  function DoBeginCancel(s: State, t: TxId, user: UserId, id: OrderId): Option<State> {
    if t in s.txs || id !in s.store.orders || s.store.orders[id].user != user
       || !Free(s, t, OrderRow(id)) || s.store.orders[id].status.Cancelled?
    then None
    else Some(Update(s, t, Restocking(user, id, s.store.orders[id], 0, map[]))
              .(locks := s.locks[OrderRow(id) := t]))
  }

  /** UPDATE products SET stock_quantity = stock_quantity + quantity for line number `next`. */
  function DoRestock(s: State, t: TxId): Option<State> {
    if t !in s.txs || !s.txs[t].Restocking? then None
    else
      var tx := s.txs[t];
      if tx.next >= |tx.order.lines| then None
      else
        var line := tx.order.lines[tx.next];
        var r := ProductRow(line.product);
        if line.product !in s.store.products then Some(Update(s, t, Restocking(tx.user, tx.id, tx.order, tx.next + 1, tx.stock)))
        else if !Free(s, t, r) then None
        else
          var sum := Visible(s.store, tx.stock, line.product) + line.quantity;
          if sum > MAX_I32 then None
          else Some(Update(s, t, Restocking(tx.user, tx.id, tx.order, tx.next + 1, tx.stock[line.product := sum]))
                    .(locks := s.locks[r := t]))
  }

  /** UPDATE orders SET status = 'cancelled'. */
  function DoMarkCancelled(s: State, t: TxId): Option<State> {
    if t !in s.txs || !s.txs[t].Restocking? then None
    else
      var tx := s.txs[t];
      if tx.next < |tx.order.lines| then None
      else Some(Update(s, t, Restocked(tx.user, tx.id, tx.order.(status := Cancelled), tx.stock)))
  }

  /** COMMIT installs the private writes, releases the locks and makes the request history. */
  function DoCommit(s: State, t: TxId): Option<State> {
    if t !in s.txs then None
    else
      match s.txs[t]
      case Placed(user, cart, _, id, order, stock, Done(emptied)) =>
        Some(End(s, t).(store := Store(Install(s.store.products, stock), s.store.orders[id := order]),
                        carts := s.carts[user := CartOf(s, user) - emptied],
                        erased := s.erased + [Erasure(user, emptied)],
                        log := s.log + [CheckoutOp(user, id, cart)]))
      case Restocked(user, id, order, stock) =>
        Some(End(s, t).(store := Store(Install(s.store.products, stock), s.store.orders[id := order]),
                        log := s.log + [CancelOp(user, id)]))
      case _ => None
  }

  /** ROLLBACK: an error return, a lost connection, a deadlock victim, a timeout. */
  function DoAbort(s: State, t: TxId): Option<State> {
    if t !in s.txs then None else Some(End(s, t))
  }

  function DoPatchProduct(s: State, p: ProductId, edit: Edit): Option<State> {
    if ProductRow(p) in s.locks then None
    else
      var store :- EditProduct(s.store, p, edit);
      Some(s.(store := store, log := s.log + [EditOp(p, edit)]))
  }

  function DoAddProduct(s: State, p: ProductId, row: Product): Option<State> {
    var store :- CreateProduct(s.store, p, row);
    Some(s.(store := store, log := s.log + [CreateOp(p, row)]))
  }

  /** A cart edit: Some(q) writes the line (upsert, set), None deletes it. */
  function DoWriteCart(s: State, user: UserId, p: ProductId, quantity: Option<int>): Option<State> {
    if CartRow(user, p) in s.locks then None
    else
      match quantity
      case None =>
        Some(s.(carts := s.carts[user := CartOf(s, user) - {p}], erased := s.erased + [Erasure(user, {p})]))
      case Some(q) =>
        if p !in s.store.products || !(0 < q <= MAX_I32) then None
        else Some(s.(carts := s.carts[user := CartOf(s, user)[p := q]]))
  }

  function Step(s: State, l: Label): Option<State> {
    match l
    case BeginCheckout(t, user, cart) => DoBeginCheckout(s, t, user, cart)
    case LockRow(t) => DoLockRow(s, t)
    case InsertOrder(t, id) => DoInsertOrder(s, t, id)
    case InsertLine(t) => DoInsertLine(s, t)
    case TakeStock(t) => DoTakeStock(s, t)
    case ScanCart(t) => DoScanCart(s, t)
    case ClearCart(t) => DoClearCart(s, t)
    case BeginCancel(t, user, id) => DoBeginCancel(s, t, user, id)
    case Restock(t) => DoRestock(s, t)
    case MarkCancelled(t) => DoMarkCancelled(s, t)
    case Commit(t) => DoCommit(s, t)
    case Abort(t) => DoAbort(s, t)
    case PatchProduct(p, edit) => DoPatchProduct(s, p, edit)
    case AddProduct(p, row) => DoAddProduct(s, p, row)
    case WriteCart(user, p, quantity) => DoWriteCart(s, user, p, quantity)
  }

  /** The state after a schedule, None if some statement of it could not run. */
  function Run(s: State, schedule: seq<Label>): Option<State> {
    if schedule == [] then Some(s)
    else
      var before :- Run(s, schedule[..|schedule| - 1]);
      Step(before, schedule[|schedule| - 1])
  }

  /** A quiescent database: well-formed tables, nobody connected. */
  ghost predicate Initial(s: State) {
    && StoreValid(s.arith, s.store)
    && CartsValid(s)
    && s.locks == map[] && s.txs == map[] && s.log == []
  }

  /** CHECK (quantity > 0), INTEGER, and the foreign key of `cart_items`. */
  predicate CartValid(s: Store, c: Cart) {
    forall p | p in c :: 0 < c[p] <= MAX_I32 && p in s.products
  }

  ghost predicate CartsValid(s: State) {
    forall user | user in s.carts :: CartValid(s.store, s.carts[user])
  }
}
