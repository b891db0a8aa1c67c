/** Every schedule of `Protocol` leaves the tables as the committed requests, run one at a time in
    commit order, would leave them. The theorems about histories in `Shop` carry over. */
module Serializability {
  import opened Wrappers
  import opened Totals
  import opened Shop
  import opened Protocol

  // ---- The invariant ----

  predicate Touches(lines: seq<OrderLine>, p: ProductId) {
    exists i :: 0 <= i < |lines| && lines[i].product == p
  }

  /** The product updates a transaction has made for these lines. */
  function Written(products: map<ProductId, Product>, lines: seq<OrderLine>, move: Move): map<ProductId, int> {
    map p | p in products && Touches(lines, p) ::
      move.From(products[p].stock, Quantity(lines, p))
  }

  predicate Holds(s: State, t: TxId, r: Resource) {
    r in s.locks && s.locks[r] == t
  }

  /** The rows t fetched are locked by t and still are the committed ones. */
  predicate RowsCurrent(s: State, t: TxId, cart: seq<CartLine>, rows: seq<Row>) {
    && OneLinePerProduct(cart)
    && (forall i :: 0 <= i < |cart| ==> 0 < cart[i].quantity <= MAX_I32)
    && |rows| <= |cart|
    && (forall i :: 0 <= i < |rows| ==>
          && cart[i].product in s.store.products
          && Holds(s, t, ProductRow(cart[i].product))
          && rows[i] == RowOf(s.store.products[cart[i].product], cart[i]))
  }

  /** What a checkout knows once its order row is inserted, up to line number next. */
  predicate OrderPlaced(s: State, t: TxId, user: UserId, cart: seq<CartLine>, rows: seq<Row>, id: OrderId,
                        order: Order, next: nat, stock: map<ProductId, int>) {
    && RowsCurrent(s, t, cart, rows)
    && |rows| == |cart| > 0
    && EachInStock(rows)
    && id !in s.store.orders
    && next <= |order.lines| <= |rows|
    && StoredTotal(s.arith, LinesOf(rows)) == Some(order.total)
    && order == Order(user, Confirmed, order.total, rows[0].currency, LinesOf(rows)[..|order.lines|])
    && stock == Written(s.store.products, LinesOf(rows)[..next], Out)
  }

  /** What a cancel knows from locking the order row on. */
  predicate OrderLocked(s: State, t: TxId, user: UserId, id: OrderId, lines: seq<OrderLine>, stock: map<ProductId, int>) {
    && Holds(s, t, OrderRow(id))
    && id in s.store.orders
    && s.store.orders[id].user == user
    && !s.store.orders[id].status.Cancelled?
    && (forall p | p in stock :: Holds(s, t, ProductRow(p)) && stock[p] <= MAX_I32)
    && stock == Written(s.store.products, lines, Back)
  }

  predicate TxValid(s: State, t: TxId, tx: Tx) {
    match tx
    case Selecting(user, cart, rows) => RowsCurrent(s, t, cart, rows)
    case Placing(user, cart, rows, id, order, next, stock) =>
      OrderPlaced(s, t, user, cart, rows, id, order, next, stock) && |order.lines| <= next + 1
    case Placed(user, cart, rows, id, order, stock, deletion) =>
      OrderPlaced(s, t, user, cart, rows, id, order, |rows|, stock)
    case Restocking(user, id, order, next, stock) =>
      && next <= |order.lines|
      && OrderLocked(s, t, user, id, order.lines[..next], stock)
      && order == s.store.orders[id]
    case Restocked(user, id, order, stock) =>
      && OrderLocked(s, t, user, id, order.lines, stock)
      && order == s.store.orders[id].(status := Cancelled)
  }

  /** The id of the order a checkout has inserted, if it has. */
  function NewOrder(tx: Tx): Option<OrderId> {
    if tx.Placing? || tx.Placed? then Some(tx.id) else None
  }

  ghost predicate Inv(init: Store, s: State) {
    && Replay(s.arith, init, s.log) == Some(s.store)
    && StoreValid(s.arith, s.store)
    && CartsValid(s)
    && (forall t | t in s.txs :: TxValid(s, t, s.txs[t]))
    && (forall t, u | t in s.txs && u in s.txs && t != u ::
          NewOrder(s.txs[t]).Some? ==> NewOrder(s.txs[t]) != NewOrder(s.txs[u]))
  }

  // ---- What a step can change ----

  /** Everything a step leaves alone, for every label at once. */
  ghost predicate Shape(s: State, l: Label, s': State) {
    && s'.arith == s.arith
    && match Actor(l)
       case None => s'.txs == s.txs && s'.locks == s.locks
       case Some(t) =>
         && (!l.Commit? ==> s'.store == s.store && s'.carts == s.carts && s'.erased == s.erased && s'.log == s.log)
         && (t in s'.txs <==> !l.Commit? && !l.Abort?)
         && (forall u | u != t :: (u in s'.txs <==> u in s.txs) && (u in s.txs ==> s'.txs[u] == s.txs[u]))
         && (forall r | r in s.locks && s.locks[r] != t :: r in s'.locks && s'.locks[r] == s.locks[r])
         && (forall r | r in s'.locks :: s'.locks[r] == t || (r in s.locks && s.locks[r] == s'.locks[r]))
  }

  lemma CheckoutShape(s: State, l: Label)
    requires Step(s, l).Some?
    requires l.BeginCheckout? || l.LockRow? || l.InsertOrder? || l.InsertLine? || l.TakeStock? || l.ScanCart?
    ensures Shape(s, l, Step(s, l).value)
  {
  }

  lemma CancelShape(s: State, l: Label)
    requires Step(s, l).Some?
    requires l.BeginCancel? || l.Restock? || l.MarkCancelled?
    ensures Shape(s, l, Step(s, l).value)
  {
  }

  lemma EndShape(s: State, l: Label)
    requires Step(s, l).Some? && (l.Commit? || l.Abort?)
    ensures Shape(s, l, Step(s, l).value)
  {
  }

  lemma RequestShape(s: State, l: Label)
    requires Step(s, l).Some? && Actor(l).None?
    ensures Shape(s, l, Step(s, l).value)
  {
  }

  lemma StepShape(s: State, l: Label)
    requires Step(s, l).Some?
    ensures Shape(s, l, Step(s, l).value)
  {
    hide Shape;
    if l.ClearCart? {
      ClearCartShape(s, l.t);
    } else if l.Commit? || l.Abort? {
      EndShape(s, l);
    } else if l.BeginCancel? || l.Restock? || l.MarkCancelled? {
      CancelShape(s, l);
    } else if Actor(l).None? {
      RequestShape(s, l);
    } else {
      CheckoutShape(s, l);
    }
  }

  lemma ClearCartShape(s: State, t: TxId)
    requires DoClearCart(s, t).Some?
    ensures Shape(s, ClearCart(t), DoClearCart(s, t).value)
  {
    var user, deletion := s.txs[t].user, s.txs[t].deletion;
    var emptied := Standing(s, user, deletion.seen, deletion.mark);
    hide Standing;
    forall r | r in s.locks && s.locks[r] != t
      ensures !(r.CartRow? && r.user == user && r.item in emptied)
    {
    }
  }

  // ---- Frames: a step never touches what others locked ----

  /** From s to s', transaction t keeps its own record, its locks and the rows it locked, and
      the id of its uncommitted order stays unused. */
  ghost predicate Undisturbed(s: State, s': State, t: TxId) {
    && t in s.txs && t in s'.txs && s'.txs[t] == s.txs[t]
    && s'.arith == s.arith
    && (forall r | Holds(s, t, r) :: Holds(s', t, r))
    && (forall p | p in s.store.products && Holds(s, t, ProductRow(p)) ::
          p in s'.store.products && s'.store.products[p] == s.store.products[p])
    && (forall id | id in s.store.orders && Holds(s, t, OrderRow(id)) ::
          id in s'.store.orders && s'.store.orders[id] == s.store.orders[id])
    && s.store.products.Keys <= s'.store.products.Keys
    && (NewOrder(s.txs[t]).Some? && NewOrder(s.txs[t]).value !in s.store.orders ==>
          NewOrder(s.txs[t]).value !in s'.store.orders)
  }

  /** Only committed products count for Written, so locking the touched ones fixes it. */
  lemma WrittenUnchanged(products: map<ProductId, Product>, products': map<ProductId, Product>,
                         lines: seq<OrderLine>, move: Move)
    requires forall i | 0 <= i < |lines| :: lines[i].product in products
    requires forall i | 0 <= i < |lines| :: lines[i].product in products' && products'[lines[i].product] == products[lines[i].product]
    ensures Written(products, lines, move) == Written(products', lines, move)
  {
  }

  lemma FrameRows(s: State, s': State, t: TxId, cart: seq<CartLine>, rows: seq<Row>)
    requires Undisturbed(s, s', t) && RowsCurrent(s, t, cart, rows)
    ensures RowsCurrent(s', t, cart, rows)
  {
  }

  lemma FrameOrder(s: State, s': State, t: TxId, user: UserId, cart: seq<CartLine>, rows: seq<Row>, id: OrderId,
                   order: Order, next: nat, stock: map<ProductId, int>)
    requires Undisturbed(s, s', t) && NewOrder(s.txs[t]) == Some(id)
    requires OrderPlaced(s, t, user, cart, rows, id, order, next, stock)
    ensures OrderPlaced(s', t, user, cart, rows, id, order, next, stock)
  {
    FrameRows(s, s', t, cart, rows);
    WrittenUnchanged(s.store.products, s'.store.products, LinesOf(rows)[..next], Out);
  }

  lemma FrameCancel(s: State, s': State, t: TxId, user: UserId, id: OrderId, lines: seq<OrderLine>, stock: map<ProductId, int>)
    requires Undisturbed(s, s', t) && StoreValid(s.arith, s.store)
    requires OrderLocked(s, t, user, id, lines, stock) && lines <= s.store.orders[id].lines
    ensures OrderLocked(s', t, user, id, lines, stock) && s'.store.orders[id] == s.store.orders[id]
  {
    RestockFrame(s, s', t, id, lines, stock);
  }

  lemma FrameTx(s: State, s': State, t: TxId)
    requires Undisturbed(s, s', t) && TxValid(s, t, s.txs[t]) && StoreValid(s.arith, s.store)
    ensures TxValid(s', t, s'.txs[t])
  {
    hide Undisturbed, StoreValid, OrderPlaced, RowsCurrent;
    assert t in s.txs && t in s'.txs && s'.txs[t] == s.txs[t] by { SameRecord(s, s', t); }
    match s.txs[t]
    case Selecting(user, cart, rows) => FrameRows(s, s', t, cart, rows);
    case Placing(user, cart, rows, id, order, next, stock) => FrameOrder(s, s', t, user, cart, rows, id, order, next, stock);
    case Placed(user, cart, rows, id, order, stock, deletion) => FrameOrder(s, s', t, user, cart, rows, id, order, |rows|, stock);
    case Restocking(user, id, order, next, stock) => FrameCancel(s, s', t, user, id, order.lines[..next], stock);
    case Restocked(user, id, order, stock) => FrameCancel(s, s', t, user, id, order.lines, stock);
  }

  lemma SameRecord(s: State, s': State, t: TxId)
    requires Undisturbed(s, s', t)
    ensures t in s.txs && t in s'.txs && s'.txs[t] == s.txs[t]
  {
  }

  lemma RestockFrame(s: State, s': State, t: TxId, id: OrderId, lines: seq<OrderLine>, stock: map<ProductId, int>)
    requires Undisturbed(s, s', t) && StoreValid(s.arith, s.store)
    requires id in s.store.orders && lines <= s.store.orders[id].lines
    requires forall p | p in stock :: Holds(s, t, ProductRow(p))
    requires stock == Written(s.store.products, lines, Back)
    ensures stock == Written(s'.store.products, lines, Back)
  {
    assert OrderValid(s.arith, s.store.products, s.store.orders[id]);
    forall i | 0 <= i < |lines|
      ensures lines[i].product in s.store.products
      ensures Holds(s, t, ProductRow(lines[i].product))
    {
      assert lines[i] == s.store.orders[id].lines[i];
      assert Touches(lines, lines[i].product);
      assert lines[i].product in stock;
    }
    WrittenUnchanged(s.store.products, s'.store.products, lines, Back);
  }

  /** A statement inside a transaction only adds locks that were free. */
  lemma StatementLeavesOthersUndisturbed(s: State, l: Label, t: TxId)
    requires Step(s, l).Some? && t in s.txs
    requires Actor(l).Some? && l.t != t && !l.Commit?
    ensures Undisturbed(s, Step(s, l).value, t)
  {
    hide Step;
    StepShape(s, l);
  }

  /** A commit writes only rows it had locked. */
  lemma CommitLeavesOthersUndisturbed(init: Store, s: State, u: TxId, t: TxId)
    requires Inv(init, s) && t in s.txs && u != t && DoCommit(s, u).Some?
    ensures Undisturbed(s, DoCommit(s, u).value, t)
  {
    assert TxValid(s, u, s.txs[u]);
    assert NewOrder(s.txs[u]).Some? ==> NewOrder(s.txs[u]) != NewOrder(s.txs[t]);
    if s.txs[u].Placed? {
      CommittedRowsAreHeld(s, u);
    }
  }

  /** Single-statement requests wait for row locks and commit at once. */
  lemma RequestLeavesOthersUndisturbed(s: State, l: Label, t: TxId)
    requires Step(s, l).Some? && t in s.txs && Actor(l).None?
    ensures Undisturbed(s, Step(s, l).value, t)
  {
  }

  lemma StepLeavesOthersUndisturbed(init: Store, s: State, l: Label, t: TxId)
    requires Inv(init, s) && Step(s, l).Some?
    requires t in s.txs && Actor(l) != Some(t)
    ensures Undisturbed(s, Step(s, l).value, t)
  {
    if Actor(l).None? {
      RequestLeavesOthersUndisturbed(s, l, t);
    } else if l.Commit? {
      CommitLeavesOthersUndisturbed(init, s, l.t, t);
    } else {
      StatementLeavesOthersUndisturbed(s, l, t);
    }
  }

  lemma CommittedRowsAreHeld(s: State, t: TxId)
    requires t in s.txs && s.txs[t].Placed? && TxValid(s, t, s.txs[t])
    ensures forall p | p in s.txs[t].stock :: Holds(s, t, ProductRow(p))
  {
    var tx := s.txs[t];
    forall p | p in tx.stock
      ensures Holds(s, t, ProductRow(p))
    {
      var lines := LinesOf(tx.rows)[..|tx.rows|];
      var i :| 0 <= i < |lines| && lines[i].product == p;
      assert tx.rows[i].product == p;
    }
  }

  // ---- The acting transaction ----

  lemma TouchesSnoc(lines: seq<OrderLine>, n: nat, p: ProductId)
    requires n < |lines|
    ensures Touches(lines[..n + 1], p) <==> Touches(lines[..n], p) || lines[n].product == p
  {
    if Touches(lines[..n], p) {
      var i :| 0 <= i < n && lines[..n][i].product == p;
      assert lines[..n + 1][i].product == p;
    }
    if Touches(lines[..n + 1], p) {
      var i :| 0 <= i < n + 1 && lines[..n + 1][i].product == p;
      assert i < n ==> lines[..n][i].product == p;
    }
    assert lines[..n + 1][n] == lines[n];
  }

  lemma QuantityUntouched(lines: seq<OrderLine>, p: ProductId)
    requires !Touches(lines, p)
    ensures Quantity(lines, p) == 0
  {
    QuantityOfAbsent(lines, p);
  }

  lemma WrittenSnoc(s: Store, lines: seq<OrderLine>, n: nat, move: Move)
    requires n < |lines| && lines[n].product in s.products
    ensures var before := Written(s.products, lines[..n], move);
            Written(s.products, lines[..n + 1], move)
            == before[lines[n].product := move.From(Visible(s, before, lines[n].product), lines[n].quantity)]
  {
    var q := lines[n].product;
    var before, after := Written(s.products, lines[..n], move), Written(s.products, lines[..n + 1], move);
    forall p | p in s.products
      ensures p in after <==> p in before || p == q
      ensures p in after && p != q ==> after[p] == before[p]
      ensures p == q ==> after[p] == move.From(Visible(s, before, q), lines[n].quantity)
    {
      TouchesSnoc(lines, n, p);
      QuantitySnoc(lines, n, p);
      if !Touches(lines[..n], p) {
        QuantityUntouched(lines[..n], p);
      }
    }
    assert after.Keys == before.Keys + {q};
  }

  lemma TakeStockStep(s: State, t: TxId)
    requires StoreValid(s.arith, s.store) && t in s.txs && TxValid(s, t, s.txs[t])
    requires DoTakeStock(s, t).Some?
    ensures TxValid(DoTakeStock(s, t).value, t, DoTakeStock(s, t).value.txs[t])
  {
    hide Written, StoreValid, StoredTotal, EachInStock, TrueTotal;
    var tx := s.txs[t];
    WrittenSnoc(s.store, LinesOf(tx.rows), tx.next, Out);
  }

  lemma RestockStep(s: State, t: TxId)
    requires StoreValid(s.arith, s.store) && t in s.txs && TxValid(s, t, s.txs[t])
    requires DoRestock(s, t).Some?
    ensures TxValid(DoRestock(s, t).value, t, DoRestock(s, t).value.txs[t])
  {
    hide Written;
    var tx := s.txs[t];
    assert OrderValid(s.arith, s.store.products, s.store.orders[tx.id]);
    assert tx.order.lines[tx.next].product in s.store.products;
    WrittenSnoc(s.store, tx.order.lines, tx.next, Back);
    RestockHolds(s, t);
  }

  lemma RestockHolds(s: State, t: TxId)
    requires t in s.txs && s.txs[t].Restocking? && DoRestock(s, t).Some?
    requires s.txs[t].order.lines[s.txs[t].next].product in s.store.products
    requires forall p | p in s.txs[t].stock :: Holds(s, t, ProductRow(p)) && s.txs[t].stock[p] <= MAX_I32
    ensures var s' := DoRestock(s, t).value;
            forall p | p in s'.txs[t].stock :: Holds(s', t, ProductRow(p)) && s'.txs[t].stock[p] <= MAX_I32
  {
    var q, s' := s.txs[t].order.lines[s.txs[t].next].product, DoRestock(s, t).value;
    assert s'.locks == s.locks[ProductRow(q) := t];
    forall p | p in s'.txs[t].stock
      ensures Holds(s', t, ProductRow(p)) && s'.txs[t].stock[p] <= MAX_I32
    {
      assert p != q ==> p in s.txs[t].stock && Holds(s, t, ProductRow(p));
    }
  }

  lemma LockRowStep(s: State, t: TxId)
    requires t in s.txs && TxValid(s, t, s.txs[t]) && DoLockRow(s, t).Some?
    ensures TxValid(DoLockRow(s, t).value, t, DoLockRow(s, t).value.txs[t])
  {
  }

  lemma InsertOrderStep(s: State, t: TxId, id: OrderId)
    requires t in s.txs && TxValid(s, t, s.txs[t]) && DoInsertOrder(s, t, id).Some?
    ensures TxValid(DoInsertOrder(s, t, id).value, t, DoInsertOrder(s, t, id).value.txs[t])
  {
    assert LinesOf(s.txs[t].rows)[..0] == [];
  }

  lemma InsertLineStep(s: State, t: TxId)
    requires t in s.txs && TxValid(s, t, s.txs[t]) && DoInsertLine(s, t).Some?
    ensures TxValid(DoInsertLine(s, t).value, t, DoInsertLine(s, t).value.txs[t])
  {
    var tx := s.txs[t];
    assert LinesOf(tx.rows)[..tx.next + 1] == LinesOf(tx.rows)[..tx.next] + [LinesOf(tx.rows)[tx.next]];
  }

  lemma ScanCartStep(s: State, t: TxId)
    requires t in s.txs && TxValid(s, t, s.txs[t]) && DoScanCart(s, t).Some?
    ensures TxValid(DoScanCart(s, t).value, t, DoScanCart(s, t).value.txs[t])
  {
    hide Written;
  }

  lemma ClearCartStep(s: State, t: TxId)
    requires t in s.txs && TxValid(s, t, s.txs[t]) && DoClearCart(s, t).Some?
    ensures TxValid(DoClearCart(s, t).value, t, DoClearCart(s, t).value.txs[t])
  {
    hide RowsCurrent, Written;
    ClearCartKeepsRows(s, t);
  }

  lemma ClearCartKeepsRows(s: State, t: TxId)
    requires t in s.txs && s.txs[t].Placed? && DoClearCart(s, t).Some?
    requires RowsCurrent(s, t, s.txs[t].cart, s.txs[t].rows)
    ensures RowsCurrent(DoClearCart(s, t).value, t, s.txs[t].cart, s.txs[t].rows)
  {
    hide Standing;
    var s' := DoClearCart(s, t).value;
    forall r | Holds(s, t, r)
      ensures Holds(s', t, r)
    {
    }
  }

  lemma BeginStep(s: State, l: Label)
    requires CartsValid(s) && Step(s, l).Some? && (l.BeginCheckout? || l.BeginCancel?)
    ensures var s' := Step(s, l).value; l.t in s'.txs && TxValid(s', l.t, s'.txs[l.t])
  {
    if l.BeginCancel? {
      assert s.store.orders[l.id].lines[..0] == [];
    } else {
      assert CartValid(s.store, CartOf(s, l.user));
    }
  }

  lemma MarkCancelledStep(s: State, t: TxId)
    requires t in s.txs && TxValid(s, t, s.txs[t]) && DoMarkCancelled(s, t).Some?
    ensures TxValid(DoMarkCancelled(s, t).value, t, DoMarkCancelled(s, t).value.txs[t])
  {
    assert s.txs[t].order.lines[..s.txs[t].next] == s.txs[t].order.lines;
  }

  // ---- Commit performs the atomic request ----

  lemma InstallWritten(products: map<ProductId, Product>, lines: seq<OrderLine>, move: Move)
    ensures Install(products, Written(products, lines, move)) == Shift(products, lines, move)
  {
    forall p | p in products && p !in Written(products, lines, move)
      ensures Quantity(lines, p) == 0
    {
      QuantityUntouched(lines, p);
    }
  }

  /** One line per product: the per-line stock checks decide for the whole cart. */
  lemma EachInStockFits(s: State, t: TxId, cart: seq<CartLine>, rows: seq<Row>)
    requires StoreValid(s.arith, s.store) && RowsCurrent(s, t, cart, rows) && |rows| == |cart|
    ensures Priced(s.store, cart) == LinesOf(rows) && AllValid(LinesOf(rows))
    ensures EachInStock(rows) <==> Fits(s.store, LinesOf(rows))
  {
    var lines := LinesOf(rows);
    assert Priced(s.store, cart) == lines;
    forall i | 0 <= i < |lines|
      ensures lines[i].Valid()
      ensures Quantity(lines, lines[i].product) == rows[i].quantity
      ensures rows[i].stock == s.store.products[rows[i].product].stock
    {
      assert s.store.products[cart[i].product].Valid();
      QuantityOfUniqueLine(lines, i);
    }
    if EachInStock(rows) {
      forall p | p in s.store.products
        ensures Quantity(lines, p) <= s.store.products[p].stock
      {
        if i :| 0 <= i < |lines| && lines[i].product == p {
        } else {
          QuantityOfAbsent(lines, p);
          assert s.store.products[p].Valid();
        }
      }
    } else {
      var i :| 0 <= i < |rows| && rows[i].quantity > rows[i].stock;
      assert Quantity(lines, lines[i].product) > s.store.products[lines[i].product].stock;
    }
  }

  lemma CommitCheckout(s: State, t: TxId)
    requires StoreValid(s.arith, s.store) && t in s.txs && TxValid(s, t, s.txs[t])
    requires s.txs[t].Placed? && s.txs[t].deletion.Done?
    ensures var tx := s.txs[t];
            Checkout(s.arith, s.store, tx.user, tx.id, tx.cart) == Some(DoCommit(s, t).value.store)
  {
    var tx := s.txs[t];
    var lines := LinesOf(tx.rows);
    EachInStockFits(s, t, tx.cart, tx.rows);
    assert lines[..|lines|] == lines;
    InstallWritten(s.store.products, lines, Out);
    assert tx.order == Order(tx.user, Confirmed, tx.order.total, s.store.products[tx.cart[0].product].currency, lines);
  }

  lemma CommitCancel(s: State, t: TxId)
    requires StoreValid(s.arith, s.store) && t in s.txs && TxValid(s, t, s.txs[t]) && s.txs[t].Restocked?
    ensures Cancel(s.store, s.txs[t].user, s.txs[t].id) == Some(DoCommit(s, t).value.store)
  {
    var tx := s.txs[t];
    InstallWritten(s.store.products, tx.order.lines, Back);
    forall p | p in s.store.products
      ensures Shift(s.store.products, tx.order.lines, Back)[p].stock <= MAX_I32
    {
      assert s.store.products[p].Valid();
    }
  }

  // ---- Every step keeps the invariant ----

  /** The store a step commits is the old one, or the old one after the request it logs. */
  lemma StepCommitsItsRequest(init: Store, s: State, l: Label)
    requires Inv(init, s) && Step(s, l).Some?
    ensures var s' := Step(s, l).value;
            && s'.arith == s.arith
            && ((s'.store == s.store && s'.log == s.log)
                || (&& |s'.log| == |s.log| + 1 && s'.log[..|s.log|] == s.log
                    && Apply(s.arith, s.store, s'.log[|s.log|]) == Some(s'.store)))
  {
    if l.Commit? {
      assert TxValid(s, l.t, s.txs[l.t]);
      if s.txs[l.t].Placed? {
        CommitCheckout(s, l.t);
      } else {
        CommitCancel(s, l.t);
      }
    } else {
      hide Inv;
      StepShape(s, l);
    }
  }

  lemma StepKeepsTables(init: Store, s: State, l: Label)
    requires Inv(init, s) && Step(s, l).Some?
    ensures var s' := Step(s, l).value;
            Replay(s'.arith, init, s'.log) == Some(s'.store) && StoreValid(s'.arith, s'.store)
            && Settled(s.store, s'.store)
  {
    var s' := Step(s, l).value;
    StepCommitsItsRequest(init, s, l);
    if s'.log != s.log {
      ApplyKeepsStoreValid(s.arith, s.store, s'.log[|s.log|]);
    }
  }

  lemma StepKeepsCarts(s: State, l: Label)
    requires CartsValid(s) && Step(s, l).Some?
    requires s.store.products.Keys <= Step(s, l).value.store.products.Keys
    ensures CartsValid(Step(s, l).value)
  {
    if l.Commit? || l.WriteCart? || Actor(l).None? {
      WriterKeepsCarts(s, l);
    } else {
      hide Step;
      StepShape(s, l);
    }
  }

  /** A commit removes rows of one cart; a cart edit writes a row that its CHECKs accept. */
  lemma WriterKeepsCarts(s: State, l: Label)
    requires CartsValid(s) && Step(s, l).Some? && (l.Commit? || Actor(l).None?)
    requires s.store.products.Keys <= Step(s, l).value.store.products.Keys
    ensures CartsValid(Step(s, l).value)
  {
    hide Install, EditProduct, CreateProduct, Release;
    var s' := Step(s, l).value;
    forall user | user in s'.carts
      ensures CartValid(s'.store, s'.carts[user])
    {
      assert CartValid(s.store, CartOf(s, user));
    }
  }

  lemma StepKeepsInv(init: Store, s: State, l: Label)
    requires Inv(init, s) && Step(s, l).Some?
    ensures Inv(init, Step(s, l).value)
  {
    hide Step, TxValid, StoreValid, CartsValid, CartValid, Replay, Undisturbed;
    var s' := Step(s, l).value;
    StepKeepsTables(init, s, l);
    assert s.store.products.Keys <= s'.store.products.Keys;
    StepKeepsCarts(s, l);
    StepShape(s, l);
    forall t | t in s'.txs
      ensures TxValid(s', t, s'.txs[t])
    {
      if Actor(l) == Some(t) {
        ActorStaysValid(init, s, l);
      } else {
        StepLeavesOthersUndisturbed(init, s, l, t);
        FrameTx(s, s', t);
      }
    }
    NewOrdersStayDistinct(init, s, l);
  }

  lemma ActorStaysValid(init: Store, s: State, l: Label)
    requires Inv(init, s) && Step(s, l).Some?
    requires Actor(l).Some? && l.t in Step(s, l).value.txs
    ensures TxValid(Step(s, l).value, l.t, Step(s, l).value.txs[l.t])
  {
    hide TxValid, StoreValid, CartsValid, Replay;
    match l
    case BeginCheckout(_, _, _) => BeginStep(s, l);
    case LockRow(t) => LockRowStep(s, t);
    case InsertOrder(t, id) => InsertOrderStep(s, t, id);
    case InsertLine(t) => InsertLineStep(s, t);
    case TakeStock(t) => TakeStockStep(s, t);
    case ScanCart(t) => ScanCartStep(s, t);
    case ClearCart(t) => ClearCartStep(s, t);
    case BeginCancel(_, _, _) => BeginStep(s, l);
    case Restock(t) => RestockStep(s, t);
    case MarkCancelled(t) => MarkCancelledStep(s, t);
    case Commit(t) =>
    case Abort(t) =>
  }

  lemma NewOrderOfActor(s: State, l: Label)
    requires Step(s, l).Some? && Actor(l).Some? && l.t in Step(s, l).value.txs
    ensures NewOrder(Step(s, l).value.txs[l.t])
         == if l.InsertOrder? then Some(l.id) else if l.t in s.txs then NewOrder(s.txs[l.t]) else None
    ensures l.InsertOrder? ==> !IdTaken(s, l.id)
  {
  }

  lemma NewOrdersStayDistinct(init: Store, s: State, l: Label)
    requires Inv(init, s) && Step(s, l).Some?
    ensures var s' := Step(s, l).value;
            forall t, u | t in s'.txs && u in s'.txs && t != u ::
              NewOrder(s'.txs[t]).Some? ==> NewOrder(s'.txs[t]) != NewOrder(s'.txs[u])
  {
    hide Step, TxValid;
    StepShape(s, l);
    if Actor(l).Some? && l.t in Step(s, l).value.txs {
      NewOrderOfActor(s, l);
    }
  }
}
