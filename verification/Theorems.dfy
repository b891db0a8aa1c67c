/** What holds in every state that some schedule reaches, and between any two of them. */
module Theorems {
  import opened Wrappers
  import opened Totals
  import opened Shop
  import opened Requests
  import opened Protocol
  import opened Serializability

  ghost predicate Reaches(s0: State, schedule: seq<Label>, s: State) {
    Initial(s0) && Run(s0, schedule) == Some(s)
  }

  lemma {:induction false} RunKeepsInv(s0: State, schedule: seq<Label>, s: State)
    requires Reaches(s0, schedule, s)
    ensures Inv(s0.store, s) && s.arith == s0.arith
  {
    if schedule != [] {
      var before := Run(s0, schedule[..|schedule| - 1]).value;
      RunKeepsInv(s0, schedule[..|schedule| - 1], before);
      StepKeepsInv(s0.store, before, schedule[|schedule| - 1]);
      StepCommitsItsRequest(s0.store, before, schedule[|schedule| - 1]);
    }
  }

  /** Does this label make a request part of the committed history? */
  predicate Commits(l: Label) {
    l.Commit? || l.PatchProduct? || l.AddProduct?
  }

  function CommitCount(schedule: seq<Label>): nat {
    if schedule == [] then 0
    else CommitCount(schedule[..|schedule| - 1]) + if Commits(schedule[|schedule| - 1]) then 1 else 0
  }

  /** Serializability: whatever the interleaving and wherever transactions aborted, the tables
      are those of running the committed requests, and no others, one at a time in commit order. */
  lemma {:induction false} Serializable(s0: State, schedule: seq<Label>, s: State)
    requires Reaches(s0, schedule, s)
    ensures Replay(s0.arith, s0.store, s.log) == Some(s.store)
    ensures |s.log| == CommitCount(schedule)
  {
    RunKeepsInv(s0, schedule, s);
    LogCountsCommits(s0, schedule, s);
  }

  lemma StepLogsCommits(s: State, l: Label)
    requires Step(s, l).Some?
    ensures |Step(s, l).value.log| == |s.log| + if Commits(l) then 1 else 0
  {
    if Actor(l).Some? && !l.Commit? {
      hide Step;
      StepShape(s, l);
    }
  }

  lemma {:induction false} LogCountsCommits(s0: State, schedule: seq<Label>, s: State)
    requires s0.log == [] && Run(s0, schedule) == Some(s)
    ensures |s.log| == CommitCount(schedule)
  {
    if schedule != [] {
      var cut := schedule[..|schedule| - 1];
      LogCountsCommits(s0, cut, Run(s0, cut).value);
      StepLogsCommits(Run(s0, cut).value, schedule[|schedule| - 1]);
    }
  }

  predicate CheckingOut(tx: Tx) {
    tx.Selecting? || tx.Placing? || tx.Placed?
  }

  /** No statement changes whose cart a checkout is about. */
  lemma ActorKeepsSnapshot(s: State, l: Label)
    requires Step(s, l).Some? && Actor(l).Some? && l.t in Step(s, l).value.txs
    ensures var tx := Step(s, l).value.txs[l.t];
            CheckingOut(tx) ==>
              || l == BeginCheckout(l.t, tx.user, tx.cart)
              || (l.t in s.txs && CheckingOut(s.txs[l.t]) && s.txs[l.t].user == tx.user && s.txs[l.t].cart == tx.cart)
  {
  }

  lemma StepKeepsSnapshots(s: State, l: Label)
    requires Step(s, l).Some?
    ensures var s' := Step(s, l).value;
            forall t | t in s'.txs && CheckingOut(s'.txs[t]) ::
              || l == BeginCheckout(t, s'.txs[t].user, s'.txs[t].cart)
              || (&& t in s.txs && CheckingOut(s.txs[t])
                  && s.txs[t].user == s'.txs[t].user && s.txs[t].cart == s'.txs[t].cart)
  {
    hide Step;
    StepShape(s, l);
    if Actor(l).Some? && l.t in Step(s, l).value.txs {
      ActorKeepsSnapshot(s, l);
    }
  }

  /** Where in the schedule transaction t last began a checkout; -1 if it never did. */
  function LastBegin(schedule: seq<Label>, t: TxId): (n: int)
    ensures -1 <= n < |schedule|
    ensures n >= 0 ==> schedule[n].BeginCheckout? && schedule[n].t == t
    ensures forall i | n < i < |schedule| :: !(schedule[i].BeginCheckout? && schedule[i].t == t)
  {
    if schedule == [] then -1
    else
      var last := |schedule| - 1;
      if schedule[last].BeginCheckout? && schedule[last].t == t then last else LastBegin(schedule[..last], t)
  }

  predicate Ends(l: Label, t: TxId) {
    l == Commit(t) || l == Abort(t)
  }

  /** Transaction t last began with this cart of this user, and has not ended since; this order id,
      if any, is the one it then inserted. */
  predicate Began(schedule: seq<Label>, t: TxId, user: UserId, cart: seq<CartLine>, id: Option<OrderId>) {
    var n := LastBegin(schedule, t);
    && n >= 0 && schedule[n] == BeginCheckout(t, user, cart)
    && (forall i | n < i < |schedule| :: !Ends(schedule[i], t))
    && (id.Some? ==> InsertOrder(t, id.value) in schedule[n + 1..])
  }

  /** Step m of the schedule committed request number k of the history, for the cart that the same
      transaction read when it began, under the order id that it inserted. */
  predicate OrderedAt(schedule: seq<Label>, m: nat, k: nat, op: Op)
    requires op.CheckoutOp?
  {
    && m < |schedule| && schedule[m].Commit? && CommitCount(schedule[..m]) == k
    && Began(schedule[..m], schedule[m].t, op.user, op.cart, Some(op.order))
  }

  lemma LastBeginSnoc(schedule: seq<Label>, l: Label, t: TxId)
    ensures LastBegin(schedule + [l], t) == if l.BeginCheckout? && l.t == t then |schedule| else LastBegin(schedule, t)
  {
    assert (schedule + [l])[..|schedule|] == schedule;
  }

  lemma BeganNow(schedule: seq<Label>, t: TxId, user: UserId, cart: seq<CartLine>)
    ensures Began(schedule + [BeginCheckout(t, user, cart)], t, user, cart, None)
  {
    LastBeginSnoc(schedule, BeginCheckout(t, user, cart), t);
    hide LastBegin;
  }

  /** A begun checkout goes on, and perhaps inserts its order. */
  lemma BeganSnoc(schedule: seq<Label>, l: Label, t: TxId, user: UserId, cart: seq<CartLine>, id: Option<OrderId>)
    requires Began(schedule, t, user, cart, id) || (id.Some? && l == InsertOrder(t, id.value) && Began(schedule, t, user, cart, None))
    requires !Ends(l, t) && !(l.BeginCheckout? && l.t == t)
    ensures Began(schedule + [l], t, user, cart, id)
  {
    LastBeginSnoc(schedule, l, t);
    hide LastBegin;
    var longer, n := schedule + [l], LastBegin(schedule, t);
    assert longer[n + 1..] == schedule[n + 1..] + [l];
    forall i | n < i < |longer|
      ensures !Ends(longer[i], t)
    {
      assert i < |schedule| ==> longer[i] == schedule[i];
    }
  }

  ghost predicate AllBegan(schedule: seq<Label>, s: State) {
    forall t | t in s.txs && CheckingOut(s.txs[t]) :: Began(schedule, t, s.txs[t].user, s.txs[t].cart, NewOrder(s.txs[t]))
  }

  /** A statement changes the order id of a checkout only by inserting its order. */
  lemma CheckoutGoesOn(s: State, l: Label, t: TxId)
    requires Step(s, l).Some? && t in Step(s, l).value.txs && CheckingOut(Step(s, l).value.txs[t])
    ensures !Ends(l, t)
    ensures var tx := Step(s, l).value.txs[t];
            || (l == BeginCheckout(t, tx.user, tx.cart) && NewOrder(tx).None?)
            || (&& !(l.BeginCheckout? && l.t == t)
                && t in s.txs && CheckingOut(s.txs[t]) && s.txs[t].user == tx.user && s.txs[t].cart == tx.cart
                && (|| NewOrder(tx) == NewOrder(s.txs[t])
                    || (NewOrder(s.txs[t]).None? && NewOrder(tx).Some? && l == InsertOrder(t, NewOrder(tx).value))))
  {
    StepShape(s, l);
    if Actor(l) == Some(t) {
      ActorKeepsSnapshot(s, l);
      BeginsAbsent(s, l);
      NewOrderOfActor(s, l);
      hide Step, Shape;
    } else {
      hide Step, NewOrder;
    }
  }

  lemma StepKeepsBegan(schedule: seq<Label>, s: State, l: Label)
    requires Step(s, l).Some? && AllBegan(schedule, s)
    ensures AllBegan(schedule + [l], Step(s, l).value)
  {
    hide Step, Began, NewOrder, Ends;
    var s' := Step(s, l).value;
    forall t | t in s'.txs && CheckingOut(s'.txs[t])
      ensures Began(schedule + [l], t, s'.txs[t].user, s'.txs[t].cart, NewOrder(s'.txs[t]))
    {
      var tx := s'.txs[t];
      CheckoutGoesOn(s, l, t);
      if l == BeginCheckout(t, tx.user, tx.cart) && NewOrder(tx).None? {
        BeganNow(schedule, t, tx.user, tx.cart);
      } else {
        BeganSnoc(schedule, l, t, tx.user, tx.cart, NewOrder(tx));
      }
    }
  }

  lemma BeginsAbsent(s: State, l: Label)
    requires Step(s, l).Some?
    ensures l.BeginCheckout? ==> l.t !in s.txs
    ensures l.InsertOrder? ==> l.t in s.txs && NewOrder(s.txs[l.t]).None?
  {
  }

  /** What a step appends to the history. */
  lemma StepLogs(s: State, l: Label)
    requires Step(s, l).Some?
    ensures var s' := Step(s, l).value;
            && |s.log| <= |s'.log| <= |s.log| + 1 && s'.log[..|s.log|] == s.log
            && (|s'.log| > |s.log| && s'.log[|s.log|].CheckoutOp? ==>
                  && l.Commit? && l.t in s.txs && s.txs[l.t].Placed?
                  && s'.log[|s.log|] == CheckoutOp(s.txs[l.t].user, s.txs[l.t].id, s.txs[l.t].cart))
  {
    if Actor(l).Some? && !l.Commit? {
      StepShape(s, l);
      hide Step;
    }
  }

  ghost predicate AllOrdered(schedule: seq<Label>, log: seq<Op>) {
    forall k | 0 <= k < |log| && log[k].CheckoutOp? :: exists m: nat :: OrderedAt(schedule, m, k, log[k])
  }

  lemma AllOrderedSnoc(schedule: seq<Label>, l: Label, log: seq<Op>)
    requires AllOrdered(schedule, log)
    ensures AllOrdered(schedule + [l], log)
  {
    hide Began;
    forall k | 0 <= k < |log| && log[k].CheckoutOp?
      ensures exists m: nat :: OrderedAt(schedule + [l], m, k, log[k])
    {
      var m: nat :| OrderedAt(schedule, m, k, log[k]);
      assert (schedule + [l])[..m] == schedule[..m];
      assert OrderedAt(schedule + [l], m, k, log[k]);
    }
  }

  /** Request number k of the history, if it is a checkout, was committed by a transaction that had
      read just this cart when it began, and had inserted this order since. */
  lemma {:induction false} CheckoutsOrderTheirSnapshot(s0: State, schedule: seq<Label>, s: State)
    requires Reaches(s0, schedule, s)
    ensures AllOrdered(schedule, s.log)
    ensures AllBegan(schedule, s)
  {
    if schedule != [] {
      hide Step, Began, AllBegan, AllOrdered, CheckingOut;
      var cut, l := schedule[..|schedule| - 1], schedule[|schedule| - 1];
      var before := Run(s0, cut).value;
      CheckoutsOrderTheirSnapshot(s0, cut, before);
      LogCountsCommits(s0, cut, before);
      StepKeepsBegan(cut, before, l);
      StepLogs(before, l);
      AllOrderedSnoc(cut, l, before.log);
      assert cut + [l] == schedule;
      NewestIsOrdered(cut, before, l, s);
    }
  }

  lemma NewestIsOrdered(schedule: seq<Label>, before: State, l: Label, s: State)
    requires Step(before, l) == Some(s) && AllBegan(schedule, before) && CommitCount(schedule) == |before.log|
    requires AllOrdered(schedule + [l], before.log)
    ensures AllOrdered(schedule + [l], s.log)
  {
    hide Step, CommitCount, Began, AllBegan, OrderedAt;
    StepLogs(before, l);
    if |s.log| > |before.log| && s.log[|before.log|].CheckoutOp? {
      CommitIsOrdered(schedule, before, l.t);
      assert OrderedAt(schedule + [l], |schedule|, |before.log|, s.log[|before.log|]);
    }
    forall k | 0 <= k < |s.log| && s.log[k].CheckoutOp?
      ensures exists m: nat :: OrderedAt(schedule + [l], m, k, s.log[k])
    {
      if k < |before.log| {
        assert s.log[k] == s.log[..|before.log|][k];
      }
    }
  }

  lemma CommitIsOrdered(schedule: seq<Label>, before: State, t: TxId)
    requires AllBegan(schedule, before) && t in before.txs && before.txs[t].Placed?
    ensures var tx := before.txs[t];
            OrderedAt(schedule + [Commit(t)], |schedule|, CommitCount(schedule), CheckoutOp(tx.user, tx.id, tx.cart))
  {
    hide Began, CommitCount;
    assert (schedule + [Commit(t)])[..|schedule|] == schedule;
  }

  /** The cart a checkout read was all of its user's cart at that point of the schedule. */
  lemma {:induction false} SnapshotIsTheCart(s0: State, schedule: seq<Label>, s: State, n: nat)
    requires Run(s0, schedule) == Some(s) && n < |schedule| && schedule[n].BeginCheckout?
    ensures Run(s0, schedule[..n]).Some?
    ensures IsListing(schedule[n].cart, CartOf(Run(s0, schedule[..n]).value, schedule[n].user))
  {
    var cut := schedule[..|schedule| - 1];
    if n < |cut| {
      SnapshotIsTheCart(s0, cut, Run(s0, cut).value, n);
      assert cut[..n] == schedule[..n];
    }
  }

  // ---- What the commits of a schedule do ----

  lemma {:induction false} RunPrefix(s0: State, schedule: seq<Label>, s: State, m: nat)
    requires Run(s0, schedule) == Some(s) && m <= |schedule|
    ensures Run(s0, schedule[..m]).Some?
    decreases |schedule|
  {
    hide Step;
    if m == |schedule| {
      assert schedule[..m] == schedule;
    } else {
      var cut := schedule[..|schedule| - 1];
      RunPrefix(s0, cut, Run(s0, cut).value, m);
      assert cut[..m] == schedule[..m];
    }
  }

  /** Step m of a schedule, if it commits, makes one request the latest of the history and does to the
      tables, as they are by then, what this request says; if not, it leaves the tables alone. */
  lemma EachCommitDoes(s0: State, schedule: seq<Label>, s: State, m: nat)
    requires Reaches(s0, schedule, s) && m < |schedule|
    ensures Run(s0, schedule[..m]).Some? && Run(s0, schedule[..m + 1]).Some?
    ensures var before, after := Run(s0, schedule[..m]).value, Run(s0, schedule[..m + 1]).value;
            if Commits(schedule[m])
            then |after.log| == |before.log| + 1 && Does(s0.arith, before.store, after.store, after.log[|before.log|])
            else after.store == before.store && after.log == before.log
  {
    RunPrefix(s0, schedule, s, m);
    RunPrefix(s0, schedule, s, m + 1);
    assert schedule[..m + 1][..m] == schedule[..m];
    var before := Run(s0, schedule[..m]).value;
    RunKeepsInv(s0, schedule[..m], before);
    StepCommitsItsRequest(s0.store, before, schedule[m]);
    StepLogsCommits(before, schedule[m]);
    hide Step, Inv, Does, Apply, Initial;
    if Commits(schedule[m]) {
      ApplyDoes(s0.arith, before.store, Step(before, schedule[m]).value.log[|before.log|]);
    }
  }

  /** However requests interleave, an order that is placed at step m is from then on its user's order for
      the cart that was checked out, at the names, prices and currency that the products had at the commit;
      and an order that is cancelled at step m is of the user who cancels it, and stays cancelled. */
  lemma OrdersAreAsRequested(s0: State, schedule: seq<Label>, s: State, m: nat)
    requires Reaches(s0, schedule, s) && m < |schedule| && Commits(schedule[m])
    ensures Run(s0, schedule[..m]).Some? && Run(s0, schedule[..m + 1]).Some?
    ensures var before, after := Run(s0, schedule[..m]).value, Run(s0, schedule[..m + 1]).value;
            && |after.log| == |before.log| + 1
            && match after.log[|before.log|]
               case CheckoutOp(user, id, cart) =>
                 id in s.store.orders && IsOrderFor(s.store.orders[id].(status := Confirmed), before.store.products, user, cart)
               case CancelOp(user, id) =>
                 IsOwn(s.store, user, id) && s.store.orders[id].status == Cancelled
               case _ => true
  {
    EachCommitDoes(s0, schedule, s, m);
    OrdersAreHistory(s0, schedule, m + 1, s);
    hide Run, Reaches, Quantity, Wanted, Cost, Wrap64, CarriesCart;
  }

  /** Stock never leaves [0, 2^31 - 1], no matter how requests interleave. */
  lemma StockInRange(s0: State, schedule: seq<Label>, s: State, p: ProductId)
    requires Reaches(s0, schedule, s) && p in s.store.products
    ensures 0 <= s.store.products[p].stock <= MAX_I32
    ensures forall t | t in s.txs && !s.txs[t].Selecting? && p in s.txs[t].stock :: 0 <= s.txs[t].stock[p] <= MAX_I32
  {
    RunKeepsInv(s0, schedule, s);
    assert s.store.products[p].Valid();
    forall t | t in s.txs && !s.txs[t].Selecting? && p in s.txs[t].stock
      ensures 0 <= s.txs[t].stock[p] <= MAX_I32
    {
      UncommittedStockInRange(s0.store, s, t, p);
    }
  }

  lemma UncommittedStockInRange(init: Store, s: State, t: TxId, p: ProductId)
    requires Inv(init, s) && t in s.txs && !s.txs[t].Selecting? && p in s.txs[t].stock
    ensures 0 <= s.txs[t].stock[p] <= MAX_I32
  {
    var tx := s.txs[t];
    assert TxValid(s, t, tx);
    if tx.Placing? || tx.Placed? {
      var lines := LinesOf(tx.rows);
      var n := if tx.Placing? then tx.next else |tx.rows|;
      EachInStockFits(s, t, tx.cart, tx.rows);
      QuantityOfPrefix(lines, n, p);
      assert s.store.products[p].Valid();
    } else {
      assert OrderValid(s.arith, s.store.products, s.store.orders[tx.id]);
      var n := if tx.Restocking? then tx.next else |tx.order.lines|;
      assert tx.order.lines[..|tx.order.lines|] == tx.order.lines;
      QuantityOfPrefix(tx.order.lines, n, p);
      assert s.store.products[p].Valid();
    }
  }

  lemma {:induction false} QuantityOfPrefix(lines: seq<OrderLine>, n: nat, p: ProductId)
    requires AllValid(lines) && n <= |lines|
    ensures 0 <= Quantity(lines[..n], p) <= Quantity(lines, p)
    decreases |lines|
  {
    if n == |lines| {
      assert lines[..n] == lines;
      QuantityNonNegative(lines, p);
    } else {
      var cut := lines[..|lines| - 1];
      QuantityOfPrefix(cut, n, p);
      assert cut[..n] == lines[..n];
    }
  }

  /** The stock CHECK never fires on the checkout path: once the stock test passed and the order
      is inserted, every line insert and every stock update runs, without waiting. */
  lemma CheckNeverFires(s0: State, schedule: seq<Label>, s: State, t: TxId)
    requires Reaches(s0, schedule, s)
    requires t in s.txs && s.txs[t].Placing? && s.txs[t].next < |s.txs[t].rows|
    ensures Step(s, InsertLine(t)).Some? || Step(s, TakeStock(t)).Some?
  {
    RunKeepsInv(s0, schedule, s);
    PlacingNeverBlocks(s0.store, s, t);
  }

  lemma PlacingNeverBlocks(init: Store, s: State, t: TxId)
    requires Inv(init, s)
    requires t in s.txs && s.txs[t].Placing? && s.txs[t].next < |s.txs[t].rows|
    ensures if |s.txs[t].order.lines| == s.txs[t].next then Step(s, InsertLine(t)).Some? else Step(s, TakeStock(t)).Some?
  {
    var tx := s.txs[t];
    assert TxValid(s, t, tx);
    var n, lines := tx.next, LinesOf(tx.rows);
    if |tx.order.lines| == n + 1 {
      EachInStockFits(s, t, tx.cart, tx.rows);
      var p := lines[n].product;
      assert Holds(s, t, ProductRow(tx.cart[n].product));
      QuantityUntouched(lines[..n], p);
    }
  }

  /** Conservation, in every reachable state. */
  lemma StockConservedEverywhere(s0: State, schedule: seq<Label>, s: State, p: ProductId)
    requires Reaches(s0, schedule, s)
    ensures Replay(s0.arith, s0.store, s.log).Some?
    ensures StockOf(s.store, p) + Outstanding(s.store.orders, p)
         == StockOf(s0.store, p) + Outstanding(s0.store.orders, p) + NetEdits(s0.arith, s0.store, s.log, p)
    ensures Outstanding(s.store.orders, p)
         <= StockOf(s0.store, p) + Outstanding(s0.store.orders, p) + NetEdits(s0.arith, s0.store, s.log, p)
  {
    RunKeepsInv(s0, schedule, s);
    StockIsConserved(s0.arith, s0.store, s.log, p);
    NoOversell(s0.arith, s0.store, s.log, p);
  }

  /** However many cancels overlap, an order is restocked at most once, and its lines have been
      added back exactly when its status went to Cancelled. */
  lemma RestockedOnceEverywhere(s0: State, schedule: seq<Label>, s: State, id: OrderId)
    requires Reaches(s0, schedule, s)
    requires StatusIn(s0.store.orders, id) != Some(Cancelled)
    ensures Cancellations(s.log, id) <= 1
    ensures Cancellations(s.log, id) == 1 <==> StatusIn(s.store.orders, id) == Some(Cancelled)
    ensures Placements(s.log, id) <= 1
  {
    RunKeepsInv(s0, schedule, s);
    RestockedExactlyWhenCancelled(s0.arith, s0.store, s.log, id);
  }

  /** From any point of a schedule on, committed orders keep lines, prices, total, currency and
      user; Cancelled is never left. */
  lemma {:induction false} OrdersAreHistory(s0: State, schedule: seq<Label>, n: nat, s: State)
    requires Reaches(s0, schedule, s) && n <= |schedule|
    ensures Run(s0, schedule[..n]).Some? && Settled(Run(s0, schedule[..n]).value.store, s.store)
    decreases |schedule|
  {
    if n == |schedule| {
      assert schedule[..n] == schedule;
    } else {
      var cut := schedule[..|schedule| - 1];
      var before := Run(s0, cut).value;
      OrdersAreHistory(s0, cut, n, before);
      assert cut[..n] == schedule[..n];
      RunKeepsInv(s0, cut, before);
      StepKeepsTables(s0.store, before, schedule[|schedule| - 1]);
    }
  }

  /** Every committed order's total is the stored total of its lines; it is their true
      sum exactly when that sum fits in 64 bits. */
  lemma OrderTotalsMatchLines(s0: State, schedule: seq<Label>, s: State, id: OrderId)
    requires Reaches(s0, schedule, s) && id in s.store.orders
    ensures var o := s.store.orders[id];
            && 0 <= o.total <= MAX_I64
            && (TrueTotal(o.lines) - o.total) % TWO_64 == 0
            && (o.total == TrueTotal(o.lines) <==> TrueTotal(o.lines) <= MAX_I64)
            && (s0.arith.Checked? ==> o.total == TrueTotal(o.lines))
  {
    RunKeepsInv(s0, schedule, s);
    var o := s.store.orders[id];
    assert OrderValid(s.arith, s.store.products, o);
    StoredTotalIsTrueIff(s.arith, o.lines);
    StoredTotalModulo(s.arith, o.lines);
  }

  /** Uncommitted product updates of two transactions never meet, and nobody waits for a
      row it already holds: row locks are exclusive and kept to the end. */
  lemma WritesAreExclusive(s0: State, schedule: seq<Label>, s: State, t: TxId, u: TxId)
    requires Reaches(s0, schedule, s)
    requires t in s.txs && u in s.txs && t != u && !s.txs[t].Selecting? && !s.txs[u].Selecting?
    ensures s.txs[t].stock.Keys !! s.txs[u].stock.Keys
    ensures s.txs[t].id != s.txs[u].id
  {
    RunKeepsInv(s0, schedule, s);
    WrittenRowsAreHeld(s, t);
    WrittenRowsAreHeld(s, u);
  }

  lemma WrittenRowsAreHeld(s: State, t: TxId)
    requires t in s.txs && !s.txs[t].Selecting? && TxValid(s, t, s.txs[t])
    ensures forall p | p in s.txs[t].stock :: Holds(s, t, ProductRow(p))
  {
    var tx := s.txs[t];
    if tx.Placing? {
      forall p | p in tx.stock
        ensures Holds(s, t, ProductRow(p))
      {
        var i :| 0 <= i < tx.next && LinesOf(tx.rows)[..tx.next][i].product == p;
        assert tx.rows[i].product == p;
      }
    } else if tx.Placed? {
      CommittedRowsAreHeld(s, t);
    }
  }

  // ---- The quoted total and the charged one ----

  predicate DistinctProducts(lines: seq<OrderLine>) {
    forall i, j :: 0 <= i < j < |lines| ==> lines[i].product != lines[j].product
  }

  lemma {:induction false} CountOfDistinct(lines: seq<OrderLine>, line: OrderLine)
    requires DistinctProducts(lines)
    ensures multiset(lines)[line] == if line in lines then 1 else 0
  {
    if lines != [] {
      var n := |lines| - 1;
      CountOfDistinct(lines[..n], line);
      assert lines == lines[..n] + [lines[n]];
    }
  }

  /** Two listings of one cart, priced, hold the same lines. */
  lemma ListingsHoldTheSameLines(s: Store, c: Cart, a: seq<CartLine>, b: seq<CartLine>)
    requires IsListing(a, c) && IsListing(b, c) && Listed(s, a) && Listed(s, b)
    ensures forall line | line in Priced(s, a) :: line in Priced(s, b)
  {
    var priced := Priced(s, a);
    forall line | line in priced
      ensures line in Priced(s, b)
    {
      var i :| 0 <= i < |priced| && priced[i] == line;
      assert a[i].product in c.Keys;
      var other :| other in b && other.product == a[i].product;
      var j :| 0 <= j < |b| && b[j] == other;
      assert Priced(s, b)[j] == line;
    }
  }

  /** In whatever order two queries list a cart, the totals are the same. */
  lemma ListingsTotalTheSame(arith: Arith, s: Store, c: Cart, quoted: seq<CartLine>, ordered: seq<CartLine>)
    requires IsListing(quoted, c) && IsListing(ordered, c) && Listed(s, quoted) && Listed(s, ordered)
    ensures WrappedTotal(Priced(s, quoted)) == WrappedTotal(Priced(s, ordered))
    ensures StoredTotal(arith, Priced(s, quoted)) == StoredTotal(arith, Priced(s, ordered))
  {
    var a, b := Priced(s, quoted), Priced(s, ordered);
    ListingsHoldTheSameLines(s, c, quoted, ordered);
    ListingsHoldTheSameLines(s, c, ordered, quoted);
    assert DistinctProducts(a) && DistinctProducts(b);
    hide IsListing, TrueTotal, WrappedTotal, Priced;
    forall line
      ensures multiset(a)[line] == multiset(b)[line]
    {
      CountOfDistinct(a, line);
      CountOfDistinct(b, line);
    }
    TotalIgnoresRowOrder(arith, a, b);
  }

  /** On one store: the order that a checkout places has the total that the cart page quotes, though
      the two list the cart in different orders. */
  lemma QuoteIsCharged(arith: Arith, s: Store, c: Cart, quoted: seq<CartLine>, ordered: seq<CartLine>, user: UserId, id: OrderId)
    requires IsListing(quoted, c) && IsListing(ordered, c) && Listed(s, quoted)
    requires Checkout(arith, s, user, id, ordered).Some?
    ensures var total := Checkout(arith, s, user, id, ordered).value.orders[id].total;
            && total == Wrap64(TrueTotal(Priced(s, quoted)))
            && StoredTotal(arith, Priced(s, quoted)) == Some(total)
  {
    ListingsTotalTheSame(arith, s, c, quoted, ordered);
    WrappedIsTrueModulo(Priced(s, quoted));
    hide IsListing, Fits, Shift, TrueTotal, WrappedTotal, Priced;
  }

  /** Lines of the same amounts have the same totals. */
  lemma {:induction false} SameAmounts(arith: Arith, a: seq<OrderLine>, b: seq<OrderLine>)
    requires |a| == |b| && forall i :: 0 <= i < |a| ==> a[i].Amount() == b[i].Amount()
    ensures TrueTotal(a) == TrueTotal(b) && WrappedTotal(a) == WrappedTotal(b)
    ensures StoredTotal(arith, a) == StoredTotal(arith, b)
  {
    if a != [] {
      var last := |a| - 1;
      assert a[last].Amount() == b[last].Amount();
      hide OrderLine.Amount, Wrap64;
      SameAmounts(arith, a[..last], b[..last]);
    }
  }

  /** What the checkout adds up is what the quoted store would have it add up, if it reads the prices
      under lock as they were quoted; names and stock may have changed. */
  lemma RowsCostAsQuoted(s: State, t: TxId, quoted: Store)
    requires t in s.txs && s.txs[t].Placed? && TxValid(s, t, s.txs[t]) && Listed(quoted, s.txs[t].cart)
    requires forall i | 0 <= i < |s.txs[t].rows| :: s.txs[t].rows[i].price == quoted.products[s.txs[t].cart[i].product].price
    ensures StoredTotal(s.arith, Priced(quoted, s.txs[t].cart)) == Some(s.txs[t].order.total)
  {
    var rows, cart := s.txs[t].rows, s.txs[t].cart;
    hide Written, StoredTotal;
    assert forall i :: 0 <= i < |rows| ==> rows[i].quantity == cart[i].quantity;
    SameAmounts(s.arith, LinesOf(rows), Priced(quoted, cart));
  }

  /** Over a schedule: a page quotes a cart; later a transaction reads the same cart, and the same prices
      under its locks, whatever else was written and however it interleaves. The order it commits has
      the total that was quoted. */
  lemma QuoteIsChargedLater(s0: State, schedule: seq<Label>, s: State, t: TxId, q: nat, atQuote: State, atBegin: State,
                            quoted: seq<CartLine>)
    requires Reaches(s0, schedule, s) && t in s.txs && s.txs[t].Placed? && s.txs[t].deletion.Done?
    requires q <= LastBegin(schedule, t)
    requires Run(s0, schedule[..q]) == Some(atQuote) && Run(s0, schedule[..LastBegin(schedule, t)]) == Some(atBegin)
    requires IsListing(quoted, CartOf(atQuote, s.txs[t].user))
    requires CartOf(atBegin, s.txs[t].user) == CartOf(atQuote, s.txs[t].user)
    requires forall i | 0 <= i < |s.txs[t].rows| ::
               && s.txs[t].rows[i].product in atQuote.store.products
               && s.txs[t].rows[i].price == atQuote.store.products[s.txs[t].rows[i].product].price
    ensures Listed(atQuote.store, quoted) && Step(s, Commit(t)).Some?
    ensures var orders := Step(s, Commit(t)).value.store.orders;
            && s.txs[t].id in orders
            && orders[s.txs[t].id].total == Wrap64(TrueTotal(Priced(atQuote.store, quoted)))
            && StoredTotal(s.arith, Priced(atQuote.store, quoted)) == Some(orders[s.txs[t].id].total)
  {
    var user, cart := s.txs[t].user, s.txs[t].cart;
    CheckoutsOrderTheirSnapshot(s0, schedule, s);
    SnapshotIsTheCart(s0, schedule, s, LastBegin(schedule, t));
    RunKeepsInv(s0, schedule, s);
    RunKeepsInv(s0, schedule[..q], atQuote);
    CommittedTotal(s, t);
    hide Run, Step, Began, LastBegin;
    assert TxValid(s, t, s.txs[t]);
    CartIsListed(s0.store, atQuote, user, quoted);
    CartIsListed(s0.store, atQuote, user, cart);
    RowsAreTheCart(s, t);
    hide Inv, TxValid, StoredTotal, TrueTotal, WrappedTotal, IsListing, Priced;
    RowsCostAsQuoted(s, t, atQuote.store);
    ListingsTotalTheSame(s.arith, atQuote.store, CartOf(atQuote, user), quoted, cart);
    StoredIsWrapped(s.arith, Priced(atQuote.store, quoted));
  }

  lemma RowsAreTheCart(s: State, t: TxId)
    requires t in s.txs && s.txs[t].Placed? && TxValid(s, t, s.txs[t])
    ensures |s.txs[t].rows| == |s.txs[t].cart|
    ensures forall i | 0 <= i < |s.txs[t].rows| :: s.txs[t].rows[i].product == s.txs[t].cart[i].product
  {
  }

  lemma CommittedTotal(s: State, t: TxId)
    requires t in s.txs && s.txs[t].Placed? && s.txs[t].deletion.Done?
    ensures Step(s, Commit(t)).Some?
    ensures var orders := Step(s, Commit(t)).value.store.orders;
            s.txs[t].id in orders && orders[s.txs[t].id].total == s.txs[t].order.total
  {
  }

  /** Every line of a cart has a product. */
  lemma CartIsListed(init: Store, s: State, user: UserId, cart: seq<CartLine>)
    requires Inv(init, s) && IsListing(cart, CartOf(s, user))
    ensures Listed(s.store, cart)
  {
    assert CartValid(s.store, CartOf(s, user));
  }

  lemma StoredIsWrapped(arith: Arith, lines: seq<OrderLine>)
    ensures StoredTotal(arith, lines).Some? ==> StoredTotal(arith, lines).value == Wrap64(TrueTotal(lines))
  {
    WrappedIsTrueModulo(lines);
  }
}
