/** What a handler may rely on while other connections run between its statements. */
module Interleaving {
  import opened Wrappers
  import opened Totals
  import opened Shop
  import opened Requests
  import opened Protocol
  import opened Serializability
  import opened Theorems

  // ---- Runs ----

  lemma RunSnoc(s0: State, ran: seq<Label>, l: Label)
    requires Run(s0, ran).Some?
    ensures Run(s0, ran + [l]) == Step(Run(s0, ran).value, l)
  {
    assert (ran + [l])[..|ran|] == ran;
  }

  lemma {:induction false} RunAppend(s0: State, ran: seq<Label>, more: seq<Label>)
    requires Run(s0, ran).Some?
    ensures Run(s0, ran + more) == Run(Run(s0, ran).value, more)
  {
    if more == [] {
      assert ran + more == ran;
    } else {
      var cut := more[..|more| - 1];
      RunAppend(s0, ran, cut);
      assert (ran + more)[..|ran + more| - 1] == ran + cut;
    }
  }

  // ---- Steps of others ----

  /** From s0, labels that are not t's ran and led to s. */
  ghost predicate Apart(init: Store, s0: State, ran: seq<Label>, s: State, t: TxId) {
    && Inv(init, s)
    && Run(s0, ran) == Some(s)
    && (forall i :: 0 <= i < |ran| ==> Actor(ran[i]) != Some(t))
    && (if t in s0.txs then Undisturbed(s0, s, t) else t !in s.txs)
    && s0.log <= s.log
  }

  lemma ApartAtFirst(init: Store, s: State, t: TxId)
    requires Inv(init, s)
    ensures Apart(init, s, [], s, t)
  {
  }

  lemma UndisturbedTransitive(s: State, s': State, s'': State, t: TxId)
    requires Undisturbed(s, s', t) && Undisturbed(s', s'', t)
    ensures Undisturbed(s, s'', t)
  {
  }

  lemma ApartSnoc(init: Store, s0: State, ran: seq<Label>, s: State, l: Label, s': State, t: TxId)
    requires Apart(init, s0, ran, s, t) && Actor(l) != Some(t) && Step(s, l) == Some(s')
    ensures Apart(init, s0, ran + [l], s', t)
  {
    hide Step, Inv, Run;
    RunSnoc(s0, ran, l);
    StepKeepsInv(init, s, l);
    StepCommitsItsRequest(init, s, l);
    if t in s0.txs {
      StepLeavesOthersUndisturbed(init, s, l, t);
      UndisturbedTransitive(s0, s, s', t);
    } else {
      StepShape(s, l);
    }
  }

  // ---- One user's own requests do not overlap ----

  /** No transaction but t is checking this user out. */
  predicate CartPrivate(s: State, user: UserId, t: TxId) {
    forall u | u in s.txs && u != t :: CheckingOut(s.txs[u]) ==> s.txs[u].user != user
  }

  predicate LeavesCart(l: Label, user: UserId) {
    l.WriteCart? || l.BeginCheckout? ==> l.user != user
  }

  lemma StepLeavesCart(s: State, l: Label, user: UserId, t: TxId)
    requires Step(s, l).Some? && CartPrivate(s, user, t) && LeavesCart(l, user) && Actor(l) != Some(t)
    ensures CartPrivate(Step(s, l).value, user, t)
    ensures CartOf(Step(s, l).value, user) == CartOf(s, user)
  {
    StepKeepsCartsOfOthers(s, l, user);
    hide Step;
    StepShape(s, l);
    StepKeepsSnapshots(s, l);
  }

  lemma StepKeepsCartsOfOthers(s: State, l: Label, user: UserId)
    requires Step(s, l).Some? && LeavesCart(l, user)
    requires l.Commit? && l.t in s.txs && CheckingOut(s.txs[l.t]) ==> s.txs[l.t].user != user
    ensures CartOf(Step(s, l).value, user) == CartOf(s, user)
  {
    if Actor(l).Some? && !l.Commit? {
      StepShape(s, l);
    }
  }

  // ---- The schedule of the others ----

  function Turn(others: seq<seq<Label>>, k: nat): seq<Label> {
    if k < |others| then others[k] else []
  }

  predicate AllLeaveCart(others: seq<seq<Label>>, user: UserId) {
    forall i :: 0 <= i < |others| ==> forall j :: 0 <= j < |others[i]| ==> LeavesCart(others[i][j], user)
  }

  /** The user does nothing else while transaction t runs. */
  predicate OwnCart(s0: State, others: seq<seq<Label>>, user: UserId, t: TxId) {
    CartPrivate(s0, user, t) && AllLeaveCart(others, user)
  }

  /** Nobody was connected, and nobody else gets a turn. */
  predicate Undisputed(s0: State, others: seq<seq<Label>>) {
    s0.txs == map[] && s0.locks == map[] && forall i :: 0 <= i < |others| ==> others[i] == []
  }

  // ---- A transaction under way ----

  /** Transaction t has not committed on the way from s0 to s. */
  ghost predicate InFlight(init: Store, s0: State, ran: seq<Label>, s: State, t: TxId) {
    && Inv(init, s)
    && Run(s0, ran) == Some(s)
    && Commit(t) !in ran
    && t in s.txs
  }

  /** What the program of t may rely on between its statements. */
  ghost predicate Progress(init: Store, s0: State, ran: seq<Label>, s: State, t: TxId, user: UserId, others: seq<seq<Label>>) {
    && InFlight(init, s0, ran, s, t)
    && s.arith == s0.arith
    && (Undisputed(s0, others) ==> s.store == s0.store && s.txs.Keys == {t} && OwnLocks(s, t))
    && (OwnCart(s0, others, user, t) ==> CartPrivate(s, user, t) && CartOf(s, user) == CartOf(s0, user))
  }

  predicate OwnLocks(s: State, t: TxId) {
    forall r | r in s.locks :: s.locks[r] == t
  }

  lemma BeginProgress(init: Store, s0: State, l: Label, s: State, t: TxId, user: UserId, others: seq<seq<Label>>)
    requires Inv(init, s0) && t !in s0.txs && Actor(l) == Some(t) && (l.BeginCheckout? || l.BeginCancel?)
    requires Step(s0, l) == Some(s)
    ensures Progress(init, s0, [l], s, t, user, others)
  {
    hide Step, Inv;
    assert Run(s0, []) == Some(s0);
    RunSnoc(s0, [], l);
    assert [] + [l] == [l];
    StepKeepsInv(init, s0, l);
    StepShape(s0, l);
  }

  /** The others' turn does not disturb t. */
  lemma WaitProgress(init: Store, s0: State, ran: seq<Label>, s: State, more: seq<Label>, s': State,
                     t: TxId, user: UserId, others: seq<seq<Label>>, k: nat)
    requires Progress(init, s0, ran, s, t, user, others) && Apart(init, s, more, s', t)
    requires Turn(others, k) == [] ==> s' == s
    requires CartPrivate(s, user, t) && (forall i :: 0 <= i < |Turn(others, k)| ==> LeavesCart(Turn(others, k)[i], user)) ==>
               CartPrivate(s', user, t) && CartOf(s', user) == CartOf(s, user)
    ensures Progress(init, s0, ran + more, s', t, user, others) && Undisturbed(s, s', t)
  {
    hide Inv, Run, CartPrivate, CartOf, LeavesCart, OwnLocks;
    RunAppend(s0, ran, more);
  }

  lemma OwnStepProgress(init: Store, s0: State, ran: seq<Label>, s: State, l: Label, s': State,
                        t: TxId, user: UserId, others: seq<seq<Label>>)
    requires Progress(init, s0, ran, s, t, user, others)
    requires Actor(l) == Some(t) && !l.Commit? && !l.Abort? && Step(s, l) == Some(s')
    ensures Progress(init, s0, ran + [l], s', t, user, others)
  {
    hide Step, Inv, Run, Undisputed, AllLeaveCart;
    RunSnoc(s0, ran, l);
    StepKeepsInv(init, s, l);
    StepShape(s, l);
  }

  lemma AbortEnds(init: Store, s0: State, ran: seq<Label>, s: State, t: TxId)
    requires InFlight(init, s0, ran, s, t)
    ensures Step(s, Abort(t)) == Some(End(s, t)) && Inv(init, End(s, t)) && Run(s0, ran + [Abort(t)]) == Some(End(s, t))
    ensures Commit(t) !in ran + [Abort(t)]
  {
    hide Inv, Run;
    RunSnoc(s0, ran, Abort(t));
    StepKeepsInv(init, s, Abort(t));
  }

  /** The request `op` is the latest of the history, and the tables are as after it. */
  ghost predicate Committed(init: Store, s: State, op: Op) {
    && s.log != [] && s.log[|s.log| - 1] == op
    && Replay(s.arith, init, s.log) == Some(s.store)
  }

  /** The run ended with the commit of t, and this commit placed the order. */
  ghost predicate EndsWithCheckout(s0: State, ran: seq<Label>, s: State, t: TxId, user: UserId, id: OrderId, cart: seq<CartLine>) {
    && ran != [] && ran[|ran| - 1] == Commit(t)
    && var before := Run(s0, ran[..|ran| - 1]);
    && before.Some? && Places(s.arith, before.value.store, s.store, user, id, cart)
  }

  /** The run ended with the commit of t, and this commit cancelled the order. */
  ghost predicate EndsWithCancel(s0: State, ran: seq<Label>, s: State, t: TxId, user: UserId, id: OrderId) {
    && ran != [] && ran[|ran| - 1] == Commit(t)
    && var before := Run(s0, ran[..|ran| - 1]);
    && before.Some? && Cancels(before.value.store, s.store, user, id)
  }

  lemma InvReplays(init: Store, s: State)
    requires Inv(init, s)
    ensures Replay(s.arith, init, s.log) == Some(s.store)
  {
  }

  // ---- The statements of checkout ----

  /** The INSERT accepts this total or refuses it. */
  function InBigint(total: int): Option<int> {
    if 0 <= total <= MAX_I64 then Some(total) else None
  }

  /** The SELECT of this checkout has locked and read n rows. */
  predicate SelectedUpTo(s: State, t: TxId, user: UserId, cart: seq<CartLine>, n: nat) {
    && t in s.txs && s.txs[t].Selecting?
    && s.txs[t].user == user && s.txs[t].cart == cart && |s.txs[t].rows| == n
  }

  /** This checkout has inserted its order and n lines, and taken m of them from stock. */
  predicate PlacedUpTo(s: State, t: TxId, user: UserId, cart: seq<CartLine>, id: OrderId, total: int, n: nat, m: nat) {
    && t in s.txs && s.txs[t].Placing?
    && s.txs[t].user == user && s.txs[t].cart == cart && s.txs[t].id == id
    && s.txs[t].order.total == total && s.txs[t].next == m && |s.txs[t].order.lines| == n
  }

  /** This checkout's DELETE has just seen the cart. */
  predicate CartScanned(s: State, t: TxId, user: UserId, cart: seq<CartLine>, id: OrderId, total: int) {
    && t in s.txs && s.txs[t].Placed?
    && s.txs[t].user == user && s.txs[t].cart == cart && s.txs[t].id == id
    && s.txs[t].order.total == total && s.txs[t].deletion == Scanned(CartOf(s, user).Keys, |s.erased|)
  }

  /** This checkout has deleted these rows of the cart and is ready to commit. */
  predicate Deleted(s: State, t: TxId, user: UserId, cart: seq<CartLine>, id: OrderId, total: int, c: Cart) {
    && t in s.txs && s.txs[t].Placed?
    && s.txs[t].user == user && s.txs[t].cart == cart && s.txs[t].id == id
    && s.txs[t].order.total == total && s.txs[t].deletion == Done(c.Keys)
  }

  lemma BeginCheckoutRuns(s0: State, t: TxId, user: UserId, cart: seq<CartLine>)
    requires t !in s0.txs && IsListing(cart, CartOf(s0, user))
    ensures Step(s0, BeginCheckout(t, user, cart)).Some?
  {
  }

  lemma CheckoutBegins(init: Store, s0: State, s: State, t: TxId, user: UserId, cart: seq<CartLine>, others: seq<seq<Label>>)
    requires Inv(init, s0) && t !in s0.txs && IsListing(cart, CartOf(s0, user))
    requires Step(s0, BeginCheckout(t, user, cart)) == Some(s)
    ensures Progress(init, s0, [BeginCheckout(t, user, cart)], s, t, user, others)
    ensures SelectedUpTo(s, t, user, cart, 0) && Listed(s0.store, cart)
  {
    BeginProgress(init, s0, BeginCheckout(t, user, cart), s, t, user, others);
    assert CartValid(s0.store, CartOf(s0, user));
  }

  lemma LockRowRuns(s: State, t: TxId, user: UserId, cart: seq<CartLine>, k: nat)
    requires SelectedUpTo(s, t, user, cart, k) && k < |cart|
    ensures DoLockRow(s, t).Some? ==> SelectedUpTo(DoLockRow(s, t).value, t, user, cart, k + 1)
    ensures Listed(s.store, cart) && OwnLocks(s, t) ==> DoLockRow(s, t).Some?
  {
  }

  lemma EmptyIsRefused(arith: Arith, s: Store, user: UserId, id: OrderId)
    ensures Checkout(arith, s, user, id, []).None?
  {
  }

  lemma FetchedAll(init: Store, s: State, t: TxId, user: UserId, cart: seq<CartLine>)
    requires Inv(init, s) && SelectedUpTo(s, t, user, cart, |cart|)
    ensures RowsCurrent(s, t, cart, s.txs[t].rows)
    ensures Listed(s.store, cart) && Priced(s.store, cart) == LinesOf(s.txs[t].rows) && AllValid(LinesOf(s.txs[t].rows))
    ensures EachInStock(s.txs[t].rows) <==> Fits(s.store, LinesOf(s.txs[t].rows))
  {
    assert TxValid(s, t, s.txs[t]);
    EachInStockFits(s, t, cart, s.txs[t].rows);
  }

  /** The loop's verdict on a fetched row is a verdict on the committed stock. */
  lemma OutOfStock(init: Store, s: State, t: TxId, user: UserId, cart: seq<CartLine>, i: nat)
    requires Inv(init, s) && SelectedUpTo(s, t, user, cart, |cart|)
    requires i < |s.txs[t].rows| && s.txs[t].rows[i].quantity > s.txs[t].rows[i].stock && EachInStock(s.txs[t].rows[..i])
    ensures var row := s.txs[t].rows[i]; IsFirstShort(s.store, cart, row.product, row.quantity, row.stock)
    ensures SomeShort(s.store, cart)
    ensures forall id :: Checkout(s.arith, s.store, user, id, cart).None?
  {
    FetchedAll(init, s, t, user, cart);
    var rows := s.txs[t].rows;
    assert cart[i] == CartLine(rows[i].product, rows[i].quantity) && Short(s.store, cart[i]);
    forall j | 0 <= j < i
      ensures !Short(s.store, cart[j])
    {
      assert rows[..i][j] == rows[j] && rows[j] == RowOf(s.store.products[cart[j].product], cart[j]);
    }
    hide Inv;
  }

  lemma NoneIsShort(init: Store, s: State, t: TxId, user: UserId, cart: seq<CartLine>)
    requires Inv(init, s) && SelectedUpTo(s, t, user, cart, |cart|) && EachInStock(s.txs[t].rows)
    ensures !SomeShort(s.store, cart)
  {
    FetchedAll(init, s, t, user, cart);
    hide Inv;
    var rows := s.txs[t].rows;
    forall i | 0 <= i < |cart|
      ensures !Short(s.store, cart[i])
    {
      assert rows[i] == RowOf(s.store.products[cart[i].product], cart[i]);
    }
  }

  /** The SELECT has returned, and a row of the cart asks for more than there is. */
  predicate FoundShort(s: State, t: TxId, cart: seq<CartLine>) {
    t in s.txs && s.txs[t].Selecting? && |s.txs[t].rows| == |cart| && SomeShort(s.store, cart)
  }

  /** The last thing in the run is the rollback of a checkout that found its cart short. */
  ghost predicate EndsShort(s0: State, ran: seq<Label>, t: TxId, cart: seq<CartLine>) {
    && ran != [] && ran[|ran| - 1] == Abort(t)
    && var before := Run(s0, ran[..|ran| - 1]);
    && before.Some? && FoundShort(before.value, t, cart)
  }

  /** The statement that a transaction runs next; id is the one that its INSERT would use. */
  function NextStatement(t: TxId, tx: Tx, id: OrderId): Label {
    match tx
    case Selecting(_, cart, rows) => if |rows| < |cart| then LockRow(t) else InsertOrder(t, id)
    case Placing(_, _, rows, _, order, next, _) =>
      if next >= |rows| then ScanCart(t) else if |order.lines| == next then InsertLine(t) else TakeStock(t)
    case Placed(_, _, _, _, _, _, deletion) => if deletion.Scanned? then ClearCart(t) else Commit(t)
    case Restocking(_, _, order, next, _) => if next < |order.lines| then Restock(t) else MarkCancelled(t)
    case Restocked(_, _, _, _) => Commit(t)
  }

  /** The transaction cannot go on: its next statement waits for a lock or is refused. */
  predicate Stuck(s: State, t: TxId, id: OrderId) {
    t in s.txs && Step(s, NextStatement(t, s.txs[t], id)).None?
  }

  /** The last thing in the run is the rollback of a transaction that could not go on. */
  ghost predicate EndsStuck(s0: State, ran: seq<Label>, t: TxId, id: OrderId) {
    && ran != [] && ran[|ran| - 1] == Abort(t)
    && var before := Run(s0, ran[..|ran| - 1]);
    && before.Some? && Stuck(before.value, t, id)
  }

  lemma InsertOrderRuns(init: Store, s: State, t: TxId, user: UserId, cart: seq<CartLine>, id: OrderId, total: int)
    requires Inv(init, s) && SelectedUpTo(s, t, user, cart, |cart|)
    requires DoInsertOrder(s, t, id).Some? && StoredTotal(s.arith, LinesOf(s.txs[t].rows)) == InBigint(total)
    ensures PlacedUpTo(DoInsertOrder(s, t, id).value, t, user, cart, id, total, 0, 0)
  {
  }

  /** Past the stock test, only the id or the total can make the database refuse the order. */
  lemma InsertOrderRefused(init: Store, s: State, t: TxId, user: UserId, cart: seq<CartLine>, id: OrderId)
    requires Inv(init, s) && s.txs.Keys == {t} && SelectedUpTo(s, t, user, cart, |cart|)
    requires cart != [] && EachInStock(s.txs[t].rows) && DoInsertOrder(s, t, id).None?
    ensures Checkout(s.arith, s.store, user, id, cart).None?
  {
    FetchedAll(init, s, t, user, cart);
    hide Inv, RowsCurrent, EachInStock, LinesOf;
  }

  lemma InsertLineRuns(init: Store, s: State, t: TxId, user: UserId, cart: seq<CartLine>, id: OrderId, total: int, k: nat)
    requires Inv(init, s) && PlacedUpTo(s, t, user, cart, id, total, k, k) && k < |cart|
    ensures DoInsertLine(s, t).Some? && PlacedUpTo(DoInsertLine(s, t).value, t, user, cart, id, total, k + 1, k)
  {
    hide Inv;
    PlacingHasAllRows(init, s, t);
    PlacingNeverBlocks(init, s, t);
  }

  lemma PlacingHasAllRows(init: Store, s: State, t: TxId)
    requires Inv(init, s) && t in s.txs && s.txs[t].Placing?
    ensures |s.txs[t].rows| == |s.txs[t].cart|
  {
    assert TxValid(s, t, s.txs[t]);
  }

  lemma TakeStockRuns(init: Store, s: State, t: TxId, user: UserId, cart: seq<CartLine>, id: OrderId, total: int, k: nat)
    requires Inv(init, s) && PlacedUpTo(s, t, user, cart, id, total, k + 1, k) && k < |cart|
    ensures DoTakeStock(s, t).Some? && PlacedUpTo(DoTakeStock(s, t).value, t, user, cart, id, total, k + 1, k + 1)
  {
    hide Inv;
    PlacingHasAllRows(init, s, t);
    PlacingNeverBlocks(init, s, t);
  }

  lemma ScanCartRuns(init: Store, s: State, t: TxId, user: UserId, cart: seq<CartLine>, id: OrderId, total: int)
    requires Inv(init, s) && PlacedUpTo(s, t, user, cart, id, total, |cart|, |cart|)
    ensures DoScanCart(s, t).Some? && DoScanCart(s, t).value.carts == s.carts
    ensures CartScanned(DoScanCart(s, t).value, t, user, cart, id, total)
  {
    hide Inv;
    PlacingHasAllRows(init, s, t);
  }

  /** With nothing in between, all rows of the snapshot stand. */
  lemma ClearCartRuns(s: State, t: TxId, user: UserId, cart: seq<CartLine>, id: OrderId, total: int)
    requires CartScanned(s, t, user, cart, id, total)
    ensures var next := DoClearCart(s, t);
            && (OwnLocks(s, t) ==> next.Some?)
            && (next.Some? ==> Deleted(next.value, t, user, cart, id, total, CartOf(s, user)) && next.value.carts == s.carts)
  {
    assert Standing(s, user, CartOf(s, user).Keys, |s.erased|) == CartOf(s, user).Keys;
    hide Standing;
  }

  lemma CommitShape(s: State, t: TxId)
    requires t in s.txs && ((s.txs[t].Placed? && s.txs[t].deletion.Done?) || s.txs[t].Restocked?)
    ensures Step(s, Commit(t)) == DoCommit(s, t) && DoCommit(s, t).Some?
    ensures var s', tx := DoCommit(s, t).value, s.txs[t];
            && t !in s'.txs && s'.arith == s.arith
            && tx.id in s'.store.orders && s'.store.orders[tx.id] == tx.order
            && s'.log == s.log + [if tx.Placed? then CheckoutOp(tx.user, tx.id, tx.cart) else CancelOp(tx.user, tx.id)]
            && (tx.Placed? ==> CartOf(s', tx.user) == CartOf(s, tx.user) - tx.deletion.emptied)
  {
  }

  lemma CommitCheckoutRuns(init: Store, s: State, t: TxId)
    requires Inv(init, s) && t in s.txs && s.txs[t].Placed? && s.txs[t].deletion.Done?
    ensures DoCommit(s, t).Some? && Inv(init, DoCommit(s, t).value)
    ensures Checkout(s.arith, s.store, s.txs[t].user, s.txs[t].id, s.txs[t].cart) == Some(DoCommit(s, t).value.store)
  {
    hide Step, DoCommit, Checkout, TxValid, StoreValid;
    CommitShape(s, t);
    StepKeepsInv(init, s, Commit(t));
    CommitCheckout(s, t);
  }

  lemma CheckoutCommits(init: Store, s0: State, ran: seq<Label>, s: State, t: TxId, user: UserId, others: seq<seq<Label>>,
                        cart: seq<CartLine>, id: OrderId, total: int, deleted: Cart)
    requires Progress(init, s0, ran, s, t, user, others) && Deleted(s, t, user, cart, id, total, deleted)
    requires OwnCart(s0, others, user, t) ==> deleted == CartOf(s0, user)
    ensures Step(s, Commit(t)).Some?
    ensures var s' := Step(s, Commit(t)).value;
            && Inv(init, s') && Run(s0, ran + [Commit(t)]) == Some(s') && t !in s'.txs
            && Committed(init, s', CheckoutOp(user, id, cart))
            && id in s'.store.orders && s'.store.orders[id] == s.txs[t].order && s.txs[t].order.total == total
            && (Undisputed(s0, others) ==> Checkout(s0.arith, s0.store, user, id, cart) == Some(s'.store))
            && (OwnCart(s0, others, user, t) ==> CartOf(s', user) == map[])
  {
    hide Step, Inv, DoCommit, Checkout, Undisputed, OwnCart, Run, Replay;
    RunSnoc(s0, ran, Commit(t));
    CommitShape(s, t);
    CommitCheckoutRuns(init, s, t);
    InvReplays(init, Step(s, Commit(t)).value);
  }

  lemma CheckoutEnds(init: Store, s0: State, ran: seq<Label>, s: State, t: TxId)
    requires InFlight(init, s0, ran, s, t) && s.txs[t].Placed? && s.txs[t].deletion.Done?
    ensures Step(s, Commit(t)).Some?
    ensures EndsWithCheckout(s0, ran + [Commit(t)], Step(s, Commit(t)).value, t, s.txs[t].user, s.txs[t].id, s.txs[t].cart)
  {
    hide Step, Inv, DoCommit, Checkout, Run, Places;
    assert (ran + [Commit(t)])[..|ran|] == ran;
    CommitShape(s, t);
    CommitCheckoutRuns(init, s, t);
    CheckoutPlaces(s.arith, s.store, s.txs[t].user, s.txs[t].id, s.txs[t].cart);
  }

  // ---- The statements of cancel ----

  /** This cancel has locked its order and put n lines back. */
  predicate RestockedUpTo(s: State, t: TxId, user: UserId, id: OrderId, order: Order, n: nat) {
    && t in s.txs && s.txs[t].Restocking?
    && s.txs[t].user == user && s.txs[t].id == id && s.txs[t].order == order && s.txs[t].next == n
  }

  predicate MarkedCancelled(s: State, t: TxId, user: UserId, id: OrderId) {
    t in s.txs && s.txs[t].Restocked? && s.txs[t].user == user && s.txs[t].id == id
  }

  lemma CancelBegins(init: Store, s0: State, s: State, t: TxId, user: UserId, id: OrderId, others: seq<seq<Label>>)
    requires Inv(init, s0) && t !in s0.txs && Step(s0, BeginCancel(t, user, id)) == Some(s)
    ensures Progress(init, s0, [BeginCancel(t, user, id)], s, t, user, others)
    ensures id in s0.store.orders && s.store == s0.store && RestockedUpTo(s, t, user, id, s0.store.orders[id], 0)
  {
    hide Inv;
    BeginProgress(init, s0, BeginCancel(t, user, id), s, t, user, others);
    hide Progress;
  }

  lemma RestockRuns(s: State, t: TxId, user: UserId, id: OrderId, order: Order, n: nat)
    requires RestockedUpTo(s, t, user, id, order, n) && n < |order.lines| && DoRestock(s, t).Some?
    ensures RestockedUpTo(DoRestock(s, t).value, t, user, id, order, n + 1)
  {
  }

  /** Alone, a restock can only be refused because the sum leaves the INTEGER range; then
      the whole cancel does, too. */
  lemma RestockRefused(init: Store, s: State, t: TxId, user: UserId, id: OrderId, order: Order, n: nat)
    requires Inv(init, s) && OwnLocks(s, t)
    requires RestockedUpTo(s, t, user, id, order, n) && n < |order.lines| && DoRestock(s, t).None?
    ensures Cancel(s.store, user, id).None?
  {
    var lines := order.lines;
    var p := lines[n].product;
    assert TxValid(s, t, s.txs[t]);
    assert OrderValid(s.arith, s.store.products, s.store.orders[id]);
    QuantitySnoc(lines, n, p);
    QuantityOfPrefix(lines, n + 1, p);
    if !Touches(lines[..n], p) {
      QuantityUntouched(lines[..n], p);
    }
    assert Shift(s.store.products, lines, Back)[p].stock > MAX_I32;
  }

  lemma MarkCancelledRuns(s: State, t: TxId, user: UserId, id: OrderId, order: Order)
    requires RestockedUpTo(s, t, user, id, order, |order.lines|)
    ensures DoMarkCancelled(s, t).Some? && MarkedCancelled(DoMarkCancelled(s, t).value, t, user, id)
  {
  }

  lemma CommitCancelRuns(init: Store, s: State, t: TxId)
    requires Inv(init, s) && t in s.txs && s.txs[t].Restocked?
    ensures DoCommit(s, t).Some? && Inv(init, DoCommit(s, t).value) && s.txs[t].order.status.Cancelled?
    ensures Cancel(s.store, s.txs[t].user, s.txs[t].id) == Some(DoCommit(s, t).value.store)
  {
    hide Step, DoCommit, Cancel, StoreValid, OrderLocked;
    CommitShape(s, t);
    StepKeepsInv(init, s, Commit(t));
    assert TxValid(s, t, s.txs[t]);
    CommitCancel(s, t);
  }

  lemma CancelCommits(init: Store, s0: State, ran: seq<Label>, s: State, t: TxId, user: UserId, others: seq<seq<Label>>,
                      id: OrderId)
    requires Progress(init, s0, ran, s, t, user, others) && MarkedCancelled(s, t, user, id)
    ensures Step(s, Commit(t)).Some?
    ensures var s' := Step(s, Commit(t)).value;
            && Inv(init, s') && Run(s0, ran + [Commit(t)]) == Some(s') && t !in s'.txs
            && Committed(init, s', CancelOp(user, id))
            && id in s'.store.orders && s'.store.orders[id] == s.txs[t].order && s.txs[t].order.status.Cancelled?
            && (Undisputed(s0, others) ==> Cancel(s0.store, user, id) == Some(s'.store))
  {
    hide Step, Inv, DoCommit, Cancel, Undisputed, OwnCart, Run, Replay;
    RunSnoc(s0, ran, Commit(t));
    CommitShape(s, t);
    CommitCancelRuns(init, s, t);
    InvReplays(init, Step(s, Commit(t)).value);
  }

  /** This cancel has locked its order and has not committed yet. */
  predicate Cancelling(s: State, t: TxId, user: UserId, id: OrderId) {
    t in s.txs && (s.txs[t].Restocking? || s.txs[t].Restocked?) && s.txs[t].user == user && s.txs[t].id == id
  }

  lemma CancelEnds(init: Store, s0: State, ran: seq<Label>, s: State, t: TxId, user: UserId, id: OrderId)
    requires Inv(init, s) && Run(s0, ran) == Some(s) && MarkedCancelled(s, t, user, id)
    ensures Step(s, Commit(t)).Some? && EndsWithCancel(s0, ran + [Commit(t)], Step(s, Commit(t)).value, t, user, id)
    ensures IsOwn(Step(s, Commit(t)).value.store, user, id)
  {
    hide Step, Inv, DoCommit, Cancel, Run, Quantity;
    assert (ran + [Commit(t)])[..|ran|] == ran;
    CommitShape(s, t);
    CommitCancelRuns(init, s, t);
    CancelDoes(s.store, user, id);
  }

  lemma EndsWithCancelAppend(before: State, waited: seq<Label>, s0: State, ran: seq<Label>, s: State, t: TxId, user: UserId, id: OrderId)
    requires Run(before, waited) == Some(s0) && EndsWithCancel(s0, ran, s, t, user, id)
    ensures EndsWithCancel(before, waited + ran, s, t, user, id)
  {
    hide Run, Cancels;
    var cut := ran[..|ran| - 1];
    assert (waited + ran)[..|waited + ran| - 1] == waited + cut;
    RunAppend(before, waited, cut);
  }

  /** An order that a cancel has locked is there, and is its user's. */
  lemma LockedIsOwn(init: Store, s: State, t: TxId, user: UserId, id: OrderId)
    requires Inv(init, s) && Cancelling(s, t, user, id)
    ensures IsOwn(s.store, user, id)
  {
    assert TxValid(s, t, s.txs[t]);
  }

  lemma EndsStuckAppend(before: State, waited: seq<Label>, s0: State, ran: seq<Label>, t: TxId, id: OrderId)
    requires Run(before, waited) == Some(s0) && EndsStuck(s0, ran, t, id)
    ensures EndsStuck(before, waited + ran, t, id)
  {
    hide Run, Stuck;
    var cut := ran[..|ran| - 1];
    assert (waited + ran)[..|waited + ran| - 1] == waited + cut;
    RunAppend(before, waited, cut);
  }
}
