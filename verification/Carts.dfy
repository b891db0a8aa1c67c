/** What checkouts do to the carts: which of the rows that a checkout orders it also takes out of the
    cart, when its user's requests may overlap. */
module Carts {
  import opened Wrappers
  import opened Totals
  import opened Shop
  import opened Protocol
  import opened Serializability
  import opened Theorems
  import opened Interleaving

  // ---- Rows over time ----

  /** From state a to a later state b erasures are only added, and a row that is not erased stays. */
  ghost predicate RowsPersist(a: State, b: State) {
    && a.erased <= b.erased
    && forall user, p :: p in CartOf(a, user) && !ErasedSince(b, user, p, |a.erased|) ==> p in CartOf(b, user)
  }

  lemma ErasedSinceMore(a: State, b: State, user: UserId, p: ProductId, mark: nat)
    requires a.erased <= b.erased && mark <= |a.erased|
    ensures ErasedSince(b, user, p, mark) <==> ErasedSince(a, user, p, mark) || ErasedSince(b, user, p, |a.erased|)
  {
    if i :| mark <= i < |a.erased| && a.erased[i].user == user && p in a.erased[i].items {
      assert b.erased[i] == a.erased[i];
    }
    if i :| mark <= i < |b.erased| && b.erased[i].user == user && p in b.erased[i].items {
      assert i < |a.erased| ==> b.erased[i] == a.erased[i];
    }
  }

  lemma RowsPersistTransitive(a: State, b: State, c: State)
    requires RowsPersist(a, b) && RowsPersist(b, c)
    ensures RowsPersist(a, c)
  {
    hide ErasedSince, CartOf;
    forall user, p | p in CartOf(a, user) && !ErasedSince(c, user, p, |a.erased|)
      ensures p in CartOf(c, user)
    {
      ErasedSinceMore(b, c, user, p, |a.erased|);
    }
  }

  lemma StepKeepsRows(s: State, l: Label)
    requires Step(s, l).Some?
    ensures RowsPersist(s, Step(s, l).value)
  {
    var s' := Step(s, l).value;
    if Actor(l).Some? && !l.Commit? {
      StepShape(s, l);
      hide Step;
    } else {
      StepErases(s, l);
      hide Step;
      forall user, p | p in CartOf(s, user) && !ErasedSince(s', user, p, |s.erased|)
        ensures p in CartOf(s', user)
      {
        ErasureCounts(s, s', user, p);
      }
    }
  }

  predicate JustErased(s: State, s': State, user: UserId, p: ProductId) {
    && |s'.erased| == |s.erased| + 1
    && s'.erased[|s.erased|].user == user && p in s'.erased[|s.erased|].items
  }

  lemma ErasureCounts(s: State, s': State, user: UserId, p: ProductId)
    ensures JustErased(s, s', user, p) ==> ErasedSince(s', user, p, |s.erased|)
  {
  }

  /** A row leaves a cart only by an erasure. */
  lemma StepErases(s: State, l: Label)
    requires Step(s, l).Some? && (l.Commit? || Actor(l).None?)
    ensures var s' := Step(s, l).value;
            && s.erased <= s'.erased
            && forall user, p :: p in CartOf(s, user) && p !in CartOf(s', user) ==> JustErased(s, s', user, p)
  {
    hide Install, EditProduct, CreateProduct, Release;
    var s' := Step(s, l).value;
    assert s.erased <= s'.erased;
    forall user, p | p in CartOf(s, user) && p !in CartOf(s', user)
      ensures JustErased(s, s', user, p)
    {
      if l.WriteCart? {
        assert l.user == user && l.quantity.None? && l.p == p;
      } else {
        assert l.Commit? && s.txs[l.t].Placed? && s.txs[l.t].user == user;
      }
    }
  }

  lemma {:induction false} RunKeepsRows(s0: State, schedule: seq<Label>, s: State, n: nat)
    requires Run(s0, schedule) == Some(s) && n <= |schedule|
    ensures Run(s0, schedule[..n]).Some? && RowsPersist(Run(s0, schedule[..n]).value, s)
    decreases |schedule|
  {
    if n == |schedule| {
      assert schedule[..n] == schedule;
    } else {
      hide Step, RowsPersist;
      var cut := schedule[..|schedule| - 1];
      var before := Run(s0, cut).value;
      RunKeepsRows(s0, cut, before, n);
      assert cut[..n] == schedule[..n];
      StepKeepsRows(before, schedule[|schedule| - 1]);
      RowsPersistTransitive(Run(s0, schedule[..n]).value, before, s);
    }
  }

  /** Where in the schedule the user last wrote this row; -1 if never. */
  function LastWrite(schedule: seq<Label>, user: UserId, p: ProductId): (n: int)
    ensures -1 <= n < |schedule|
    ensures n >= 0 ==> schedule[n].WriteCart? && schedule[n].user == user && schedule[n].p == p
  {
    if schedule == [] then -1
    else
      var last := |schedule| - 1;
      if schedule[last].WriteCart? && schedule[last].user == user && schedule[last].p == p then last
      else LastWrite(schedule[..last], user, p)
  }

  /** What a step does to one row of a cart. */
  lemma StepWritesRow(s: State, l: Label, user: UserId, p: ProductId)
    requires Step(s, l).Some?
    ensures var before, after := CartOf(s, user), CartOf(Step(s, l).value, user);
            if l.WriteCart? && l.user == user && l.p == p
            then (p in after <==> l.quantity.Some?) && (p in after ==> after[p] == l.quantity.value)
            else (p in after <==> p in before && !JustErased(s, Step(s, l).value, user, p)) && (p in after ==> after[p] == before[p])
  {
    if Actor(l).Some? && !l.Commit? {
      StepShape(s, l);
      hide Step;
    } else {
      hide Install, EditProduct, CreateProduct, Release;
    }
  }

  lemma ErasedByStepIff(s: State, l: Label, user: UserId, p: ProductId)
    requires Step(s, l).Some?
    ensures var s' := Step(s, l).value;
            s.erased <= s'.erased && (JustErased(s, s', user, p) <==> ErasedSince(s', user, p, |s.erased|))
  {
    if Actor(l).Some? && !l.Commit? {
      StepShape(s, l);
      hide Step;
    } else {
      hide Install, EditProduct, CreateProduct, Release;
      ErasureCounts(s, Step(s, l).value, user, p);
      assert |Step(s, l).value.erased| <= |s.erased| + 1;
      hide Step;
    }
  }

  /** The cart row of p is as it was last written, when `mark` erasures had been committed: it is there
      exactly if it was put there and not erased since, in the quantity that was written. */
  predicate AsWritten(s: State, user: UserId, p: ProductId, quantity: Option<int>, mark: nat) {
    && mark <= |s.erased|
    && (p in CartOf(s, user) <==> quantity.Some? && !ErasedSince(s, user, p, mark))
    && (p in CartOf(s, user) ==> CartOf(s, user)[p] == quantity.value)
  }

  lemma WriteIsAsWritten(s: State, l: Label)
    requires Step(s, l).Some? && l.WriteCart?
    ensures AsWritten(Step(s, l).value, l.user, l.p, l.quantity, |Step(s, l).value.erased|)
  {
    StepWritesRow(s, l, l.user, l.p);
    hide Step;
  }

  lemma StepKeepsAsWritten(s: State, l: Label, user: UserId, p: ProductId, quantity: Option<int>, mark: nat)
    requires Step(s, l).Some? && AsWritten(s, user, p, quantity, mark)
    requires !(l.WriteCart? && l.user == user && l.p == p)
    ensures AsWritten(Step(s, l).value, user, p, quantity, mark)
  {
    StepWritesRow(s, l, user, p);
    ErasedByStepIff(s, l, user, p);
    ErasedSinceMore(s, Step(s, l).value, user, p, mark);
    hide Step, CartOf, ErasedSince, JustErased;
  }

  /** A cart holds a row exactly when the last write of the row put it there and nothing has erased it
      since; its quantity is the one written. */
  lemma {:induction false} CartRowIff(s0: State, schedule: seq<Label>, s: State, user: UserId, p: ProductId)
    requires Run(s0, schedule) == Some(s) && LastWrite(schedule, user, p) >= 0
    ensures var n := LastWrite(schedule, user, p);
            && Run(s0, schedule[..n + 1]).Some?
            && AsWritten(s, user, p, schedule[n].quantity, |Run(s0, schedule[..n + 1]).value.erased|)
  {
    hide Step, AsWritten;
    var cut, l, n := schedule[..|schedule| - 1], schedule[|schedule| - 1], LastWrite(schedule, user, p);
    var before := Run(s0, cut).value;
    if n == |cut| {
      assert schedule[..n + 1] == schedule;
      WriteIsAsWritten(before, l);
    } else {
      CartRowIff(s0, cut, before, user, p);
      assert cut[..n + 1] == schedule[..n + 1];
      StepKeepsAsWritten(before, l, user, p, schedule[n].quantity, |Run(s0, schedule[..n + 1]).value.erased|);
    }
  }

  // ---- A checkout's DELETE ----

  /** Where in the schedule this label last occurs; -1 if it does not. */
  function LastOf(schedule: seq<Label>, l: Label): (n: int)
    ensures -1 <= n < |schedule| && (n >= 0 ==> schedule[n] == l)
  {
    if schedule == [] then -1
    else if schedule[|schedule| - 1] == l then |schedule| - 1
    else LastOf(schedule[..|schedule| - 1], l)
  }

  /** The rows t has deleted but not committed are as they were in state sc, and t's alone. */
  ghost predicate RowsKept(sc: State, s: State, t: TxId, user: UserId, items: set<ProductId>) {
    && sc.erased <= s.erased
    && forall p | p in items ::
         && Holds(s, t, CartRow(user, p)) && !ErasedSince(s, user, p, |sc.erased|)
         && p in CartOf(s, user) && p in CartOf(sc, user) && CartOf(s, user)[p] == CartOf(sc, user)[p]
  }

  /** What the schedule says of a DELETE that has begun: where its snapshot was taken, where it went
      through, and that its rows have been out of reach since. */
  ghost predicate DeletionTold(s0: State, schedule: seq<Label>, s: State, t: TxId)
    requires t in s.txs && s.txs[t].Placed?
  {
    var d := LastOf(schedule, ScanCart(t));
    && LastBegin(schedule, t) < d && Run(s0, schedule[..d]).Some?
    && var sd, user := Run(s0, schedule[..d]).value, s.txs[t].user;
    match s.txs[t].deletion
    case Scanned(seen, mark) => seen == CartOf(sd, user).Keys && mark == |sd.erased|
    case Done(emptied) =>
      var c := LastOf(schedule, ClearCart(t));
      && d < c && Run(s0, schedule[..c]).Some?
      && var sc := Run(s0, schedule[..c]).value;
      emptied == Standing(sc, user, CartOf(sd, user).Keys, |sd.erased|) && RowsKept(sc, s, t, user, emptied)
  }

  ghost predicate DeletionsTold(s0: State, schedule: seq<Label>, s: State) {
    forall t | t in s.txs && s.txs[t].Placed? :: DeletionTold(s0, schedule, s, t)
  }

  /** The commit of another checkout deletes only rows it has locked. */
  lemma CommitKeepsRowsOfOthers(s: State, u: TxId, sc: State, t: TxId, user: UserId, items: set<ProductId>)
    requires Step(s, Commit(u)).Some? && u != t && RowsKept(sc, s, t, user, items)
    requires s.txs[u].Placed? ==> forall p | p in s.txs[u].deletion.emptied :: Holds(s, u, CartRow(s.txs[u].user, p))
    ensures RowsKept(sc, Step(s, Commit(u)).value, t, user, items)
  {
    var s' := Step(s, Commit(u)).value;
    hide Install;
    if s.txs[u].Placed? && s.txs[u].user == user {
      forall p | p in items
        ensures p !in s.txs[u].deletion.emptied
      {
        assert Holds(s, t, CartRow(user, p));
      }
    }
    ErasureOfOthers(s, s', sc, user, items);
  }

  lemma ErasureOfOthers(s: State, s': State, sc: State, user: UserId, items: set<ProductId>)
    requires sc.erased <= s.erased <= s'.erased && |s'.erased| <= |s.erased| + 1
    requires |s'.erased| > |s.erased| && s'.erased[|s.erased|].user == user ==> s'.erased[|s.erased|].items !! items
    requires forall p | p in items :: !ErasedSince(s, user, p, |sc.erased|)
    ensures forall p | p in items :: !ErasedSince(s', user, p, |sc.erased|)
  {
    forall p | p in items
      ensures !ErasedSince(s', user, p, |sc.erased|)
    {
      ErasedSinceMore(s, s', user, p, |sc.erased|);
    }
  }

  /** A cart edit waits for the rows that a DELETE has locked. */
  lemma RequestKeepsRows(s: State, l: Label, sc: State, t: TxId, user: UserId, items: set<ProductId>)
    requires Step(s, l).Some? && Actor(l).None? && RowsKept(sc, s, t, user, items)
    ensures RowsKept(sc, Step(s, l).value, t, user, items)
  {
    var s' := Step(s, l).value;
    hide EditProduct, CreateProduct;
    if l.WriteCart? && l.user == user {
      assert l.p !in items;
    }
    ErasureOfOthers(s, s', sc, user, items);
  }

  lemma StepKeepsRowsOfOthers(s: State, l: Label, sc: State, t: TxId, user: UserId, items: set<ProductId>)
    requires Step(s, l).Some? && Actor(l) != Some(t) && RowsKept(sc, s, t, user, items)
    requires l.Commit? && s.txs[l.t].Placed? ==>
               forall p | p in s.txs[l.t].deletion.emptied :: Holds(s, l.t, CartRow(s.txs[l.t].user, p))
    ensures RowsKept(sc, Step(s, l).value, t, user, items)
  {
    if Actor(l).None? {
      RequestKeepsRows(s, l, sc, t, user, items);
    } else if l.Commit? {
      CommitKeepsRowsOfOthers(s, l.t, sc, t, user, items);
    } else {
      StepShape(s, l);
      hide Step;
    }
  }

  lemma LastOfSnoc(schedule: seq<Label>, l: Label, other: Label)
    ensures LastOf(schedule + [l], other) == if l == other then |schedule| else LastOf(schedule, other)
  {
    assert (schedule + [l])[..|schedule|] == schedule;
  }

  /** The schedule's account of t does not change while others run. */
  lemma OthersKeepTold(s0: State, schedule: seq<Label>, s: State, l: Label, t: TxId)
    requires Run(s0, schedule) == Some(s) && Step(s, l).Some? && Actor(l) != Some(t)
    requires DeletionsTold(s0, schedule, s)
    requires t in s.txs && s.txs[t].Placed? && t in Step(s, l).value.txs && Step(s, l).value.txs[t] == s.txs[t]
    ensures DeletionTold(s0, schedule + [l], Step(s, l).value, t)
  {
    hide Step, Run, RowsKept, Standing, LastOf, LastBegin;
    var longer := schedule + [l];
    LastOfSnoc(schedule, l, ScanCart(t));
    LastOfSnoc(schedule, l, ClearCart(t));
    LastBeginSnoc(schedule, l, t);
    assert DeletionTold(s0, schedule, s, t);
    var d := LastOf(schedule, ScanCart(t));
    assert longer[..d] == schedule[..d];
    if s.txs[t].deletion.Done? {
      var c := LastOf(schedule, ClearCart(t));
      assert longer[..c] == schedule[..c];
      CommitterHolds(s0, schedule, s, l);
      StepKeepsRowsOfOthers(s, l, Run(s0, schedule[..c]).value, t, s.txs[t].user, s.txs[t].deletion.emptied);
    }
  }

  lemma CommitterHolds(s0: State, schedule: seq<Label>, s: State, l: Label)
    requires Step(s, l).Some? && DeletionsTold(s0, schedule, s)
    ensures l.Commit? && s.txs[l.t].Placed? ==>
              forall p | p in s.txs[l.t].deletion.emptied :: Holds(s, l.t, CartRow(s.txs[l.t].user, p))
  {
    hide Run, Standing;
    if l.Commit? && s.txs[l.t].Placed? {
      assert DeletionTold(s0, schedule, s, l.t);
    }
  }

  /** The actor's own statement: its snapshot, its deletion, or nothing of either. */
  lemma ActorKeepsTold(s0: State, schedule: seq<Label>, s: State, l: Label)
    requires Run(s0, schedule) == Some(s) && Step(s, l).Some? && DeletionsTold(s0, schedule, s)
    requires Actor(l).Some? && l.t in Step(s, l).value.txs && Step(s, l).value.txs[l.t].Placed?
    ensures DeletionTold(s0, schedule + [l], Step(s, l).value, l.t)
  {
    var longer := schedule + [l];
    assert longer[..|schedule|] == schedule;
    if l.ClearCart? {
      assert DeletionTold(s0, schedule, s, l.t);
      hide Run;
      var d := LastOf(schedule, ScanCart(l.t));
      assert longer[..d] == schedule[..d];
      ClearedRowsAreKept(s, l.t);
      hide Step, RowsKept, Standing;
    } else {
      PlacedBy(s, l);
      hide Step, Run;
    }
  }

  lemma PlacedBy(s: State, l: Label)
    requires Step(s, l).Some? && Actor(l).Some? && l.t in Step(s, l).value.txs && Step(s, l).value.txs[l.t].Placed?
    ensures l.ScanCart? || l.ClearCart?
    ensures l.ScanCart? ==>
              Step(s, l).value.txs[l.t].deletion == Scanned(CartOf(s, Step(s, l).value.txs[l.t].user).Keys, |s.erased|)
  {
  }

  lemma ClearedRowsAreKept(s: State, t: TxId)
    requires Step(s, ClearCart(t)).Some?
    ensures var s', tx := Step(s, ClearCart(t)).value, s.txs[t];
            && tx.Placed? && tx.deletion.Scanned? && s'.txs[t].Placed? && s'.txs[t].user == tx.user
            && s'.txs[t].deletion == Done(Standing(s, tx.user, tx.deletion.seen, tx.deletion.mark))
            && RowsKept(s, s', t, tx.user, s'.txs[t].deletion.emptied)
  {
  }

  lemma {:induction false} RunTellsDeletions(s0: State, schedule: seq<Label>, s: State)
    requires Reaches(s0, schedule, s)
    ensures DeletionsTold(s0, schedule, s)
  {
    if schedule != [] {
      var cut, l := schedule[..|schedule| - 1], schedule[|schedule| - 1];
      var before := Run(s0, cut).value;
      RunTellsDeletions(s0, cut, before);
      assert cut + [l] == schedule;
      StepShape(before, l);
      hide Step, Run, DeletionTold, DeletionsTold;
      forall t | t in s.txs && s.txs[t].Placed?
        ensures DeletionTold(s0, schedule, s, t)
      {
        if Actor(l) == Some(t) {
          ActorKeepsTold(s0, cut, before, l);
        } else {
          OthersKeepTold(s0, cut, before, l, t);
        }
      }
      AllTold(s0, schedule, s);
    }
  }

  lemma AllTold(s0: State, schedule: seq<Label>, s: State)
    requires forall t | t in s.txs && s.txs[t].Placed? :: DeletionTold(s0, schedule, s, t)
    ensures DeletionsTold(s0, schedule, s)
  {
  }

  // ---- Ordered and taken ----

  /** The cart row that this line listed in state a is still there in state b, as listed. */
  predicate SameRow(a: State, b: State, user: UserId, line: CartLine) {
    && line.product in CartOf(b, user) && CartOf(b, user)[line.product] == line.quantity
    && !ErasedSince(b, user, line.product, |a.erased|)
  }

  /** A checkout about to commit takes out of the cart the very row that a line of its order listed
      exactly when, by the time its DELETE went through, nobody had erased that row (its user, or
      another checkout that committed) or changed its quantity since the checkout read the cart. */
  lemma OrderedRowIsTakenIff(s0: State, schedule: seq<Label>, s: State, t: TxId, line: CartLine)
    requires Reaches(s0, schedule, s)
    requires t in s.txs && s.txs[t].Placed? && s.txs[t].deletion.Done? && line in s.txs[t].cart
    ensures var tx, n, c := s.txs[t], LastBegin(schedule, t), LastOf(schedule, ClearCart(t));
            && 0 <= n < c && schedule[n] == BeginCheckout(t, tx.user, tx.cart)
            && Run(s0, schedule[..n]).Some? && Run(s0, schedule[..c]).Some?
            && var read, deleted := Run(s0, schedule[..n]).value, Run(s0, schedule[..c]).value;
            (line.product in tx.deletion.emptied && SameRow(read, s, tx.user, line)) <==> SameRow(read, deleted, tx.user, line)
    ensures Step(s, Commit(t)).Some?
    ensures CartOf(Step(s, Commit(t)).value, s.txs[t].user) == CartOf(s, s.txs[t].user) - s.txs[t].deletion.emptied
  {
    CheckoutsOrderTheirSnapshot(s0, schedule, s);
    RunTellsDeletions(s0, schedule, s);
    assert DeletionTold(s0, schedule, s, t);
    CommitEmpties(s, t);
    var n, d, c := LastBegin(schedule, t), LastOf(schedule, ScanCart(t)), LastOf(schedule, ClearCart(t));
    SnapshotIsTheCart(s0, schedule, s, n);
    RunKeepsRows(s0, schedule, s, c);
    var deleted := Run(s0, schedule[..c]).value;
    RunKeepsRows(s0, schedule[..c], deleted, d);
    assert schedule[..c][..d] == schedule[..d];
    RunKeepsRows(s0, schedule[..c], deleted, n);
    assert schedule[..c][..n] == schedule[..n];
    var scanned := Run(s0, schedule[..d]).value;
    RunKeepsRows(s0, schedule[..d], scanned, n);
    assert schedule[..d][..n] == schedule[..n];
    hide Run, Step;
    TakenIff(Run(s0, schedule[..n]).value, scanned, deleted, s, t, line);
  }

  lemma CommitEmpties(s: State, t: TxId)
    requires t in s.txs && s.txs[t].Placed? && s.txs[t].deletion.Done?
    ensures Step(s, Commit(t)).Some?
    ensures CartOf(Step(s, Commit(t)).value, s.txs[t].user) == CartOf(s, s.txs[t].user) - s.txs[t].deletion.emptied
  {
  }

  /** `read`, `scanned` and `deleted` are the states at the checkout's begin, its DELETE's snapshot, and
      its DELETE's end. */
  lemma TakenIff(read: State, scanned: State, deleted: State, s: State, t: TxId, line: CartLine)
    requires RowsPersist(read, scanned) && RowsPersist(scanned, deleted) && RowsPersist(deleted, s)
    requires t in s.txs && s.txs[t].Placed? && IsListing(s.txs[t].cart, CartOf(read, s.txs[t].user)) && line in s.txs[t].cart
    requires var user := s.txs[t].user;
             && s.txs[t].deletion == Done(Standing(deleted, user, CartOf(scanned, user).Keys, |scanned.erased|))
             && RowsKept(deleted, s, t, user, s.txs[t].deletion.emptied)
    ensures var tx := s.txs[t];
            (line.product in tx.deletion.emptied && SameRow(read, s, tx.user, line)) <==> SameRow(read, deleted, tx.user, line)
  {
    var user, p := s.txs[t].user, line.product;
    ErasedSinceMore(scanned, deleted, user, p, |read.erased|);
    ErasedSinceMore(deleted, s, user, p, |read.erased|);
    assert p in CartOf(read, user);
    hide ErasedSince, CartOf;
  }

  /** A row of its cart that nobody erased from the checkout's begin to its DELETE, the DELETE takes,
      whatever its quantity is by then. */
  lemma TakenUnlessErased(read: State, scanned: State, deleted: State, s: State, t: TxId, line: CartLine)
    requires RowsPersist(read, scanned) && RowsPersist(scanned, deleted) && RowsPersist(deleted, s)
    requires t in s.txs && s.txs[t].Placed? && IsListing(s.txs[t].cart, CartOf(read, s.txs[t].user)) && line in s.txs[t].cart
    requires var user := s.txs[t].user;
             && s.txs[t].deletion == Done(Standing(deleted, user, CartOf(scanned, user).Keys, |scanned.erased|))
             && RowsKept(deleted, s, t, user, s.txs[t].deletion.emptied)
    ensures line.product in s.txs[t].deletion.emptied || ErasedSince(s, s.txs[t].user, line.product, |read.erased|)
  {
    var user, p := s.txs[t].user, line.product;
    ErasedSinceMore(scanned, deleted, user, p, |read.erased|);
    ErasedSinceMore(deleted, s, user, p, |read.erased|);
    assert p in CartOf(read, user);
    hide ErasedSince;
    if !ErasedSince(deleted, user, p, |read.erased|) {
      assert p in CartOf(scanned, user) && p in CartOf(deleted, user);
      assert p in Standing(deleted, user, CartOf(scanned, user).Keys, |scanned.erased|);
    }
  }

  /** By its commit, every cart row that a checkout ordered has been erased since the checkout read it:
      by this commit, or before. */
  lemma CommitErasesItsCart(s0: State, schedule: seq<Label>, s: State, t: TxId, line: CartLine)
    requires Reaches(s0, schedule, s)
    requires t in s.txs && s.txs[t].Placed? && s.txs[t].deletion.Done? && line in s.txs[t].cart
    ensures LastBegin(schedule, t) >= 0 && Run(s0, schedule[..LastBegin(schedule, t)]).Some? && Step(s, Commit(t)).Some?
    ensures var read := Run(s0, schedule[..LastBegin(schedule, t)]).value;
            ErasedSince(Step(s, Commit(t)).value, s.txs[t].user, line.product, |read.erased|)
  {
    CheckoutsOrderTheirSnapshot(s0, schedule, s);
    RunTellsDeletions(s0, schedule, s);
    assert DeletionTold(s0, schedule, s, t);
    var n, d, c := LastBegin(schedule, t), LastOf(schedule, ScanCart(t)), LastOf(schedule, ClearCart(t));
    SnapshotIsTheCart(s0, schedule, s, n);
    RunKeepsRows(s0, schedule, s, c);
    RunKeepsRows(s0, schedule, s, n);
    var deleted := Run(s0, schedule[..c]).value;
    RunKeepsRows(s0, schedule[..c], deleted, d);
    assert schedule[..c][..d] == schedule[..d];
    var scanned := Run(s0, schedule[..d]).value;
    RunKeepsRows(s0, schedule[..d], scanned, n);
    assert schedule[..d][..n] == schedule[..n];
    var read := Run(s0, schedule[..n]).value;
    hide Run;
    CommitErases(s, t, line.product, |read.erased|);
    hide Step;
    TakenUnlessErased(read, scanned, deleted, s, t, line);
  }

  lemma CommitErases(s: State, t: TxId, p: ProductId, mark: nat)
    requires t in s.txs && s.txs[t].Placed? && s.txs[t].deletion.Done? && mark <= |s.erased|
    ensures Step(s, Commit(t)).Some?
    ensures p in s.txs[t].deletion.emptied || ErasedSince(s, s.txs[t].user, p, mark) ==>
              ErasedSince(Step(s, Commit(t)).value, s.txs[t].user, p, mark)
  {
    var user, after := s.txs[t].user, Step(s, Commit(t)).value;
    assert after.erased == s.erased + [Erasure(user, s.txs[t].deletion.emptied)];
    ErasedSinceMore(s, after, user, p, mark);
    ErasureCounts(s, after, user, p);
    hide Step;
  }

  /** Step m of the schedule is the commit of a checkout of this user whose cart had a line of p. */
  ghost predicate CommitsLine(s0: State, schedule: seq<Label>, m: nat, user: UserId, p: ProductId) {
    && m < |schedule| && schedule[m].Commit? && Run(s0, schedule[..m]).Some?
    && var s, t := Run(s0, schedule[..m]).value, schedule[m].t;
    && t in s.txs && s.txs[t].Placed? && s.txs[t].deletion.Done? && s.txs[t].user == user
    && exists line :: line in s.txs[t].cart && line.product == p
  }

  /** Where that checkout began. */
  function BeginOf(schedule: seq<Label>, m: nat): int
    requires m < |schedule| && schedule[m].Commit?
  {
    LastBegin(schedule[..m], schedule[m].t)
  }

  /** The cart row of p was not erased from step i to step j. */
  ghost predicate RowStays(s0: State, schedule: seq<Label>, i: int, j: int, user: UserId, p: ProductId) {
    && 0 <= i <= j <= |schedule| && Run(s0, schedule[..i]).Some? && Run(s0, schedule[..j]).Some?
    && !ErasedSince(Run(s0, schedule[..j]).value, user, p, |Run(s0, schedule[..i]).value.erased|)
  }

  /** From a commit on, the rows that its checkout ordered have been erased since it read them. */
  lemma CommittedRowsAreErased(s0: State, schedule: seq<Label>, s: State, m: nat, end: nat, user: UserId, p: ProductId)
    requires Reaches(s0, schedule, s) && CommitsLine(s0, schedule, m, user, p) && m < end <= |schedule|
    ensures !RowStays(s0, schedule, BeginOf(schedule, m), end, user, p)
  {
    hide Run, Step, Initial, ErasedSince, CartOf, LastBegin;
    var n, before, t := BeginOf(schedule, m), Run(s0, schedule[..m]).value, schedule[m].t;
    var line :| line in before.txs[t].cart && line.product == p;
    CommitErasesItsCart(s0, schedule[..m], before, t, line);
    assert schedule[..m][..n] == schedule[..n];
    RunKeepsRows(s0, schedule, s, end);
    var last := Run(s0, schedule[..end]).value;
    RunKeepsRows(s0, schedule[..end], last, m + 1);
    assert schedule[..end][..m + 1] == schedule[..m + 1];
    AfterCommit(s0, schedule, m);
    var after := Run(s0, schedule[..m + 1]).value;
    RunKeepsRows(s0, schedule[..m + 1], after, n);
    assert schedule[..m + 1][..n] == schedule[..n];
    var read := Run(s0, schedule[..n]).value;
    ErasedSinceMore(after, last, user, p, |read.erased|);
  }

  /** A cart row is ordered by two committed checkouts only if they overlap: the one that commits later
      read the row before the other committed. So checkouts that do not overlap order a row once. */
  lemma OrderedTwiceOnlyByOverlap(s0: State, schedule: seq<Label>, s: State, first: nat, second: nat, user: UserId, p: ProductId)
    requires Reaches(s0, schedule, s) && first < second
    requires CommitsLine(s0, schedule, first, user, p) && CommitsLine(s0, schedule, second, user, p)
    requires BeginOf(schedule, first) <= BeginOf(schedule, second) ==>
               RowStays(s0, schedule, BeginOf(schedule, first), BeginOf(schedule, second), user, p)
    ensures BeginOf(schedule, second) < first
  {
    var b := BeginOf(schedule, second);
    if b > first {
      CommittedRowsAreErased(s0, schedule, s, first, b, user, p);
    }
  }

  lemma AfterCommit(s0: State, schedule: seq<Label>, m: nat)
    requires m < |schedule| && Run(s0, schedule[..m]).Some?
    ensures Run(s0, schedule[..m + 1]) == Step(Run(s0, schedule[..m]).value, schedule[m])
  {
    hide Step;
    assert schedule[..m + 1][..m] == schedule[..m];
  }

  // ---- One cart, ordered twice ----

  /** What a checkout of one line runs after its transaction began. */
  function RestOf(t: TxId, id: OrderId): seq<Label> {
    [LockRow(t), InsertOrder(t, id), InsertLine(t), TakeStock(t), ScanCart(t), ClearCart(t), Commit(t)]
  }

  /** Nobody holds a lock, and t has begun to check out one line that is in stock, as order id. */
  predicate MayCheckOut(s: State, t: TxId, user: UserId, id: OrderId, line: CartLine) {
    && t in s.txs && s.txs[t] == Selecting(user, [line], []) && s.locks == map[]
    && (forall u | u in s.txs :: s.txs[u].Selecting?)
    && line.product in s.store.products && id !in s.store.orders
    && line.quantity <= s.store.products[line.product].stock
    && TotalOf(s.arith, s.store.products[line.product], line).Some?
  }

  /** The total of that one line, if the INSERT accepts it. */
  function TotalOf(arith: Arith, product: Product, line: CartLine): Option<int> {
    StoredTotal(arith, LinesOf([RowOf(product, line)]))
  }

  lemma TotalIgnoresStock(arith: Arith, product: Product, stock: int, line: CartLine)
    ensures TotalOf(arith, product.(stock := stock), line) == TotalOf(arith, product, line)
  {
    hide StoredTotal;
    assert LinesOf([RowOf(product.(stock := stock), line)]) == LinesOf([RowOf(product, line)]);
  }

  /** The order of that line. */
  function OrderOf(arith: Arith, user: UserId, product: Product, line: CartLine): Order {
    Order(user, Confirmed, GetOr(TotalOf(arith, product, line), 0), product.currency, LinesOf([RowOf(product, line)]))
  }

  /** A checkout of one line, just before its DELETE. */
  function Placing1(arith: Arith, user: UserId, id: OrderId, product: Product, line: CartLine): Tx {
    Placing(user, [line], [RowOf(product, line)], id, OrderOf(arith, user, product, line), 1,
            map[][line.product := product.stock - line.quantity])
  }

  /** A checkout of one line, just before its COMMIT. */
  function Placed1(arith: Arith, user: UserId, id: OrderId, product: Product, line: CartLine, emptied: set<ProductId>): Tx {
    Placed(user, [line], [RowOf(product, line)], id, OrderOf(arith, user, product, line),
           map[][line.product := product.stock - line.quantity], Done(emptied))
  }

  lemma LocksOneRow(s: State, t: TxId, user: UserId, id: OrderId, line: CartLine)
    requires MayCheckOut(s, t, user, id, line)
    ensures var row := RowOf(s.store.products[line.product], line);
            DoLockRow(s, t) == Some(Update(s, t, Selecting(user, [line], [row])).(locks := s.locks[ProductRow(line.product) := t]))
  {
    assert [] + [RowOf(s.store.products[line.product], line)] == [RowOf(s.store.products[line.product], line)];
  }

  lemma InsertsOneOrder(s: State, t: TxId, user: UserId, id: OrderId, product: Product, line: CartLine)
    requires t in s.txs && s.txs[t] == Selecting(user, [line], [RowOf(product, line)]) && id !in s.store.orders
    requires forall u | u in s.txs :: s.txs[u].Selecting?
    requires line.quantity <= product.stock && TotalOf(s.arith, product, line).Some?
    ensures DoInsertOrder(s, t, id)
         == Some(Update(s, t, Placing(user, [line], [RowOf(product, line)], id, OrderOf(s.arith, user, product, line).(lines := []), 0, map[])))
  {
    hide StoredTotal, LinesOf;
  }

  lemma InsertsOneLine(s: State, t: TxId, user: UserId, id: OrderId, product: Product, line: CartLine)
    requires t in s.txs
    requires s.txs[t] == Placing(user, [line], [RowOf(product, line)], id, OrderOf(s.arith, user, product, line).(lines := []), 0, map[])
    ensures DoInsertLine(s, t)
         == Some(Update(s, t, Placing(user, [line], [RowOf(product, line)], id, OrderOf(s.arith, user, product, line), 0, map[])))
  {
    var lines := LinesOf([RowOf(product, line)]);
    assert [] + [lines[0]] == lines;
  }

  lemma TakesOneLine(s: State, t: TxId, user: UserId, id: OrderId, product: Product, line: CartLine)
    requires t in s.txs
    requires s.txs[t] == Placing(user, [line], [RowOf(product, line)], id, OrderOf(s.arith, user, product, line), 0, map[])
    requires line.product in s.store.products && s.store.products[line.product] == product
    requires Holds(s, t, ProductRow(line.product)) && line.quantity <= product.stock
    ensures var next := DoTakeStock(s, t);
            next == Some(Update(s, t, Placing1(s.arith, user, id, product, line)))
  {
    assert s.locks[ProductRow(line.product) := t] == s.locks;
  }

  lemma ScansAndClears(s: State, t: TxId, user: UserId, id: OrderId, product: Product, line: CartLine)
    requires t in s.txs && s.txs[t] == Placing1(s.arith, user, id, product, line)
    requires forall r | r in s.locks :: r.ProductRow? && s.locks[r] == t
    ensures DoScanCart(s, t).Some?
    ensures var next := DoClearCart(DoScanCart(s, t).value, t);
            && next.Some? && next.value.(locks := s.locks) == Update(s, t, Placed1(s.arith, user, id, product, line, CartOf(s, user).Keys))
            && CartOf(next.value, user) == CartOf(s, user)
            && forall r | r in next.value.locks :: next.value.locks[r] == t
  {
    var scanned := DoScanCart(s, t).value;
    assert Standing(scanned, user, CartOf(s, user).Keys, |s.erased|) == CartOf(s, user).Keys;
    hide Standing, LinesOf, OrderOf, RowOf, ErasedSince;
  }

  lemma CommitsOneOrder(s: State, t: TxId, user: UserId, id: OrderId, product: Product, line: CartLine)
    requires t in s.txs && s.txs[t] == Placed1(s.arith, user, id, product, line, CartOf(s, user).Keys)
    requires line.product in s.store.products && s.store.products[line.product] == product
    requires forall r | r in s.locks :: s.locks[r] == t
    ensures var next := DoCommit(s, t);
            && next.Some? && next.value.txs == s.txs - {t} && next.value.locks == map[] && next.value.arith == s.arith
            && next.value.log == s.log + [CheckoutOp(user, id, [line])]
            && next.value.store.orders.Keys == s.store.orders.Keys + {id}
            && next.value.store.products.Keys == s.store.products.Keys
            && next.value.store.products[line.product] == product.(stock := product.stock - line.quantity)
            && CartOf(next.value, user) == map[]
  {
    hide LinesOf;
  }

  /** Up to the stock update: nothing is committed, and t holds the product's row. */
  lemma PlacesOneLine(s: State, t: TxId, user: UserId, id: OrderId, line: CartLine)
    returns (s1: State, s2: State, s3: State, s4: State)
    requires MayCheckOut(s, t, user, id, line)
    ensures Step(s, LockRow(t)) == Some(s1) && Step(s1, InsertOrder(t, id)) == Some(s2)
    ensures Step(s2, InsertLine(t)) == Some(s3) && Step(s3, TakeStock(t)) == Some(s4)
    ensures s4 == Update(s, t, Placing1(s.arith, user, id, s.store.products[line.product], line))
                  .(locks := map[][ProductRow(line.product) := t])
  {
    hide LinesOf, DoLockRow, DoInsertOrder, DoInsertLine, DoTakeStock, OrderOf, CartOf, Run, RowOf;
    var product := s.store.products[line.product];
    LocksOneRow(s, t, user, id, line);
    s1 := DoLockRow(s, t).value;
    InsertsOneOrder(s1, t, user, id, product, line);
    s2 := DoInsertOrder(s1, t, id).value;
    InsertsOneLine(s2, t, user, id, product, line);
    s3 := DoInsertLine(s2, t).value;
    TakesOneLine(s3, t, user, id, product, line);
    s4 := DoTakeStock(s3, t).value;
    hide Placing1;
    assert s4.txs == s.txs[t := Placing1(s.arith, user, id, product, line)];
  }

  /** The whole of it: one order more, the units gone, the cart empty. */
  lemma CheckoutOfOneLine(s: State, t: TxId, user: UserId, id: OrderId, line: CartLine)
    requires MayCheckOut(s, t, user, id, line)
    ensures var end := Run(s, RestOf(t, id));
            && end.Some? && end.value.txs == s.txs - {t} && end.value.locks == map[] && end.value.arith == s.arith
            && end.value.log == s.log + [CheckoutOp(user, id, [line])]
            && end.value.store.orders.Keys == s.store.orders.Keys + {id}
            && line.product in end.value.store.products
            && end.value.store.products[line.product]
               == s.store.products[line.product].(stock := s.store.products[line.product].stock - line.quantity)
            && CartOf(end.value, user) == map[]
  {
    hide LinesOf, Step, DoScanCart, DoClearCart, DoCommit, OrderOf, CartOf, Run, RestOf, Placing1, Placed1;
    var product := s.store.products[line.product];
    var s1, s2, s3, s4 := PlacesOneLine(s, t, user, id, line);
    ScansAndClears(s4, t, user, id, product, line);
    var s5 := DoScanCart(s4, t).value;
    var s6 := DoClearCart(s5, t).value;
    CommitsOneOrder(s6, t, user, id, product, line);
    StepsAre(s4, s5, s6, t);
    RunSeven(s, t, id, s1, s2, s3, s4, s5, s6);
    assert s6.txs - {t} == s.txs - {t};
  }

  lemma StepsAre(s4: State, s5: State, s6: State, t: TxId)
    ensures Step(s4, ScanCart(t)) == DoScanCart(s4, t) && Step(s5, ClearCart(t)) == DoClearCart(s5, t)
    ensures Step(s6, Commit(t)) == DoCommit(s6, t)
  {
  }

  lemma RunSeven(s: State, t: TxId, id: OrderId, s1: State, s2: State, s3: State, s4: State, s5: State, s6: State)
    requires Step(s, LockRow(t)) == Some(s1) && Step(s1, InsertOrder(t, id)) == Some(s2)
    requires Step(s2, InsertLine(t)) == Some(s3) && Step(s3, TakeStock(t)) == Some(s4)
    requires Step(s4, ScanCart(t)) == Some(s5) && Step(s5, ClearCart(t)) == Some(s6)
    ensures Run(s, RestOf(t, id)) == Step(s6, Commit(t))
  {
    hide Step;
    var rest := RestOf(t, id);
    assert rest[..6][..5] == rest[..5] && rest[..5][..4] == rest[..4] && rest[..4][..3] == rest[..3];
    assert rest[..3][..2] == rest[..2] && rest[..2][..1] == rest[..1] && rest[..1][..0] == [];
    assert Run(s, rest[..1][..0]) == Some(s);
    assert Run(s, rest[..1]) == Some(s1);
    assert Run(s, rest[..2]) == Some(s2);
    assert Run(s, rest[..3]) == Some(s3);
    assert Run(s, rest[..4]) == Some(s4);
    assert Run(s, rest[..5]) == Some(s5);
    assert Run(s, rest[..6]) == Some(s6);
  }

  /** Any cart of one line that is twice in stock, and whose total the database accepts: two checkouts
      that both begin before either commits order it twice, and take it out of the cart once. */
  lemma OverlappingCheckouts(s0: State, user: UserId, line: CartLine)
    requires Initial(s0) && 1 !in s0.store.orders && 2 !in s0.store.orders
    requires CartOf(s0, user) == map[line.product := line.quantity]
    requires line.product in s0.store.products && 2 * line.quantity <= s0.store.products[line.product].stock
    requires TotalOf(s0.arith, s0.store.products[line.product], line).Some?
    ensures var end := Run(s0, [BeginCheckout(0, user, [line]), BeginCheckout(1, user, [line])] + RestOf(0, 1) + RestOf(1, 2));
            && end.Some? && end.value.log == [CheckoutOp(user, 1, [line]), CheckoutOp(user, 2, [line])]
            && StockOf(end.value.store, line.product) == StockOf(s0.store, line.product) - 2 * line.quantity
  {
    var begun := [BeginCheckout(0, user, [line]), BeginCheckout(1, user, [line])];
    BothBegin(s0, user, line);
    var s1 := Run(s0, begun).value;
    FirstMay(s0, s1, user, line);
    hide Step, Run, CartOf, RestOf, TotalOf, Initial, MayCheckOut;
    CheckoutOfOneLine(s1, 0, user, 1, line);
    var s2 := Run(s1, RestOf(0, 1)).value;
    SecondMay(s0, s1, s2, user, line);
    CheckoutOfOneLine(s2, 1, user, 2, line);
    RunAppend(s0, begun, RestOf(0, 1));
    RunAppend(s0, begun + RestOf(0, 1), RestOf(1, 2));
  }

  lemma FirstMay(s0: State, s1: State, user: UserId, line: CartLine)
    requires s1 == s0.(txs := map[][0 := Selecting(user, [line], [])][1 := Selecting(user, [line], [])])
    requires s0.locks == map[] && 1 !in s0.store.orders && line.product in s0.store.products
    requires line.quantity <= s0.store.products[line.product].stock
    requires TotalOf(s0.arith, s0.store.products[line.product], line).Some?
    ensures MayCheckOut(s1, 0, user, 1, line)
  {
    hide TotalOf;
  }

  lemma SecondMay(s0: State, s1: State, s2: State, user: UserId, line: CartLine)
    requires s1 == s0.(txs := map[][0 := Selecting(user, [line], [])][1 := Selecting(user, [line], [])])
    requires s2.txs == s1.txs - {0} && s2.locks == map[] && s2.arith == s0.arith
    requires s2.store.orders.Keys == s0.store.orders.Keys + {1} && 2 !in s0.store.orders
    requires line.product in s0.store.products && line.product in s2.store.products
    requires s2.store.products[line.product]
          == s0.store.products[line.product].(stock := s0.store.products[line.product].stock - line.quantity)
    requires 2 * line.quantity <= s0.store.products[line.product].stock
    requires TotalOf(s0.arith, s0.store.products[line.product], line).Some?
    ensures MayCheckOut(s2, 1, user, 2, line)
  {
    var product := s0.store.products[line.product];
    TotalIgnoresStock(s0.arith, product, product.stock - line.quantity, line);
    hide TotalOf;
  }

  lemma BothBegin(s0: State, user: UserId, line: CartLine)
    requires s0.txs == map[] && CartOf(s0, user) == map[line.product := line.quantity]
    ensures var end := Run(s0, [BeginCheckout(0, user, [line]), BeginCheckout(1, user, [line])]);
            && end.Some?
            && end.value == s0.(txs := map[][0 := Selecting(user, [line], [])][1 := Selecting(user, [line], [])])
  {
    var a, b := BeginCheckout(0, user, [line]), BeginCheckout(1, user, [line]);
    assert IsListing([line], CartOf(s0, user)) by {
      assert line in [line];
    }
    var s1 := Step(s0, a).value;
    assert s1.txs == map[][0 := Selecting(user, [line], [])];
    assert [a, b][..1] == [a] && [a][..0] == [];
    assert Run(s0, []) == Some(s0) && Run(s0, [a]) == Step(s0, a);
    hide IsListing;
  }

  lemma SmallTotal(arith: Arith, row: Product)
    requires row.price == 5
    ensures TotalOf(arith, row, CartLine(1, 1)) == Some(5)
  {
    var lines := LinesOf([RowOf(row, CartLine(1, 1))]);
    assert |lines| == 1 && lines[0] == OrderLine(1, row.name, 5, 1);
    assert TrueTotal(lines[..0]) == 0;
    assert lines[0].Valid();
    StoredTotalIsTrueIff(arith, lines);
  }

  /** Two units in stock, one of them in the cart of user 7, who checks out twice at once. */
  lemma OneCartOrderedTwice(arith: Arith)
    ensures var line := CartLine(1, 1);
            var row := Product("keyboard", "", 5, "USD", 2, None, true, 0);
            var s0 := State(arith, Store(map[1 := row], map[]), map[7 := map[1 := 1]], [], map[], map[], []);
            var end := Run(s0, [BeginCheckout(0, 7, [line]), BeginCheckout(1, 7, [line])] + RestOf(0, 1) + RestOf(1, 2));
            && Initial(s0) && CartOf(s0, 7) == map[1 := 1]
            && end.Some? && end.value.log == [CheckoutOp(7, 1, [line]), CheckoutOp(7, 2, [line])]
            && StockOf(end.value.store, 1) == 0
  {
    var row := Product("keyboard", "", 5, "USD", 2, None, true, 0);
    var s0 := State(arith, Store(map[1 := row], map[]), map[7 := map[1 := 1]], [], map[], map[], []);
    assert Initial(s0);
    assert CartLine(1, 1).product == 1 && CartLine(1, 1).quantity == 1;
    assert CartOf(s0, 7) == map[1 := 1];
    SmallTotal(arith, row);
    hide Run, RestOf, Initial, CartOf, TotalOf;
    OverlappingCheckouts(s0, 7, CartLine(1, 1));
  }
}
