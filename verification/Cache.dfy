/** The read-through product cache against the database: as whole requests, and interleaved. */
module Cache {
  import opened Wrappers
  import opened Totals
  import opened Shop
  import opened Requests

  type RequestId = nat

  /** A cached product, when its row was read and when it was put. It lives until putAt + ttl. */
  datatype Entry = Entry(row: Product, readAt: nat, putAt: nat)

  type Entries = map<ProductId, Entry>

  predicate Live(cache: Entries, now: nat, ttl: nat, p: ProductId) {
    p in cache && now < cache[p].putAt + ttl
  }

  /** Equal on every field but the stock, which checkout and cancel change without a word to the cache. */
  predicate SameButStock(a: Product, b: Product) {
    a.(stock := 0) == b.(stock := 0)
  }

  // ---- Whole requests ----

  datatype Shelf = Shelf(store: Store, cache: Entries, now: nat)

  /** Which of the Redis commands of a request work; a failed GET is a miss. */
  datatype Redis = Redis(get: bool, set_: bool, del: bool)

  datatype Request =
    | Get(product: ProductId, redis: Redis)
    | Update(product: ProductId, edit: Edit, redis: Redis)   // PATCH, or DELETE, which archives
    | Other(op: Op)                                          // checkout, cancel, create: no cache command
    | Wait(time: nat)                                        // time passes
    | Evict(product: ProductId)                              // Redis drops an entry

  function Archive(at: int): Edit {
    Edit(None, None, None, None, None, Some(false), at)
  }

  predicate TouchesNoCache(op: Op) {
    !op.EditOp?
  }

  function Handle(arith: Arith, ttl: nat, s: Shelf, request: Request): (Shelf, Option<Product>) {
    match request
    case Get(p, redis) =>
      if redis.get && Live(s.cache, s.now, ttl, p) then (s, Some(s.cache[p].row))
      else if p !in s.store.products then (s, None)
      else
        var row := s.store.products[p];
        (if redis.set_ then s.(cache := s.cache[p := Entry(row, s.now, s.now)]) else s, Some(row))
    case Update(p, e, redis) =>
      var after := EditProduct(s.store, p, e);
      if after.None? then (s, None)
      else (Shelf(after.value, if redis.del then s.cache - {p} else s.cache, s.now), Some(after.value.products[p]))
    case Other(op) =>
      var after := if TouchesNoCache(op) then Apply(arith, s.store, op) else None;
      (if after.Some? then s.(store := after.value) else s, None)
    case Wait(time) => (s.(now := s.now + time), None)
    case Evict(p) => (s.(cache := s.cache - {p}), None)
  }

  class Catalog {
    const arith: Arith
    const ttl: nat
    var store: Store
    var cache: Entries
    var now: nat

    ghost function View(): Shelf
      reads this
    {
      Shelf(store, cache, now)
    }

    constructor (arith: Arith, ttl: nat, store: Store)
      ensures View() == Shelf(store, map[], 0) && this.arith == arith && this.ttl == ttl
    {
      this.arith, this.ttl, this.store, cache, now := arith, ttl, store, map[], 0;
    }

    method CacheGet(p: ProductId, works: bool) returns (row: Option<Product>)
      ensures row == if works && Live(cache, now, ttl, p) then Some(cache[p].row) else None
    {
      row := if works && p in cache && now < cache[p].putAt + ttl then Some(cache[p].row) else None;
    }

    method CachePut(p: ProductId, row: Product, works: bool)
      modifies this`cache
      ensures cache == if works then old(cache)[p := Entry(row, now, now)] else old(cache)
    {
      if works {
        cache := cache[p := Entry(row, now, now)];
      }
    }

    method Invalidate(p: ProductId, works: bool)
      modifies this`cache
      ensures cache == if works then old(cache) - {p} else old(cache)
    {
      if works {
        cache := cache - {p};
      }
    }

    method GetProduct(p: ProductId, redis: Redis) returns (reply: Option<Product>)
      modifies this`cache
      ensures (View(), reply) == Handle(arith, ttl, old(View()), Get(p, redis))
      // Without a live entry, or when GET fails, the row itself is the answer, stock included.
      ensures redis.get && Live(old(cache), now, ttl, p) ==> reply == Some(old(cache)[p].row)
      ensures !(redis.get && Live(old(cache), now, ttl, p)) ==>
                (reply.Some? <==> p in store.products) && (reply.Some? ==> reply.value == store.products[p])
    {
      reply := CacheGet(p, redis.get);
      if reply.Some? {
        return;
      }
      if p !in store.products {
        return None;
      }
      CachePut(p, store.products[p], redis.set_);
      reply := Some(store.products[p]);
    }

    method UpdateProduct(p: ProductId, e: Edit, redis: Redis) returns (reply: Option<Product>)
      modifies this`cache, this`store
      ensures (View(), reply) == Handle(arith, ttl, old(View()), Update(p, e, redis))
      // The columns that are given, and no others, are written, unless one of them is refused.
      ensures reply.None? ==> store == old(store)
      ensures reply.Some? ==> Edits(old(store), store, p, e) && reply.value == store.products[p]
      ensures p in old(store).products && old(store).products[p].Valid() ==>
                (reply.Some? <==> (e.price.Some? ==> 0 <= e.price.value <= MAX_I64) && (e.stock.Some? ==> 0 <= e.stock.value <= MAX_I32))
    {
      if p !in store.products || !Edited(store.products[p], e).Valid() {
        return None;
      }
      EditDoes(store, p, e);
      store := store.(products := store.products[p := Edited(store.products[p], e)]);
      Invalidate(p, redis.del);
      reply := Some(store.products[p]);
    }

    /** The row stays; only its status changes. */
    method ArchiveProduct(p: ProductId, at: int, redis: Redis) returns (found: bool)
      requires p in store.products ==> store.products[p].Valid()
      modifies this`cache, this`store
      ensures found == (p in old(store).products)
      ensures View() == Handle(arith, ttl, old(View()), Update(p, Archive(at), redis)).0
      ensures found ==> store == old(store).(products := old(store).products[p := store.products[p]])
                        && store.products[p] == old(store).products[p].(active := false, updatedAt := at)
    {
      if p !in store.products {
        return false;
      }
      store := store.(products := store.products[p := store.products[p].(active := false, updatedAt := at)]);
      Invalidate(p, redis.del);
      found := true;
    }
  }

  /** What is cached and has not expired agrees with the database, but for the stock. */
  predicate Agrees(s: Shelf, ttl: nat) {
    forall p | p in s.cache && Live(s.cache, s.now, ttl, p) :: p in s.store.products && SameButStock(s.cache[p].row, s.store.products[p])
  }

  /** Neither checkout nor cancel nor a new product changes another field of a row. */
  lemma OtherKeepsRows(arith: Arith, s: Store, op: Op)
    requires TouchesNoCache(op) && Apply(arith, s, op).Some?
    ensures var t := Apply(arith, s, op).value;
            forall p | p in s.products :: p in t.products && SameButStock(t.products[p], s.products[p])
  {
  }

  /** A request breaks the agreement exactly when it is an edit whose DEL fails over a live entry,
      unless the edit happens to rewrite the row as it was: at the very instant of the row's last
      edit, for every edit advances updated_at, and with no other field changed but the stock. */
  lemma HandleKeepsAgreementIff(arith: Arith, ttl: nat, s: Shelf, request: Request)
    requires Agrees(s, ttl)
    ensures Agrees(Handle(arith, ttl, s, request).0, ttl) <==>
            match request
            case Update(p, e, redis) =>
              || redis.del || !Live(s.cache, s.now, ttl, p) || EditProduct(s.store, p, e).None?
              || (&& e.at == s.store.products[p].updatedAt
                  && SameButStock(s.store.products[p], Edited(s.store.products[p], e)))
            case _ => true
  {
    match request
    case Other(op) =>
      if TouchesNoCache(op) && Apply(arith, s.store, op).Some? {
        OtherKeepsRows(arith, s.store, op);
        hide Apply;
      }
    case _ =>
  }

  function HandleAll(arith: Arith, ttl: nat, s: Shelf, requests: seq<Request>): Shelf {
    if requests == [] then s
    else Handle(arith, ttl, HandleAll(arith, ttl, s, requests[..|requests| - 1]), requests[|requests| - 1]).0
  }

  /** As long as requests do not overlap and DEL works, whatever else fails, a product is served as
      the database holds it, but for its stock. */
  lemma {:induction false} ServedAsStored(arith: Arith, ttl: nat, store: Store, requests: seq<Request>, p: ProductId, redis: Redis)
    requires forall i | 0 <= i < |requests| :: requests[i].Update? ==> requests[i].redis.del
    ensures var s := HandleAll(arith, ttl, Shelf(store, map[], 0), requests);
            var reply := Handle(arith, ttl, s, Get(p, redis)).1;
            && Agrees(s, ttl)
            && (reply.Some? <==> p in s.store.products)
            && (reply.Some? ==> SameButStock(reply.value, s.store.products[p]))
  {
    if requests != [] {
      var earlier := requests[..|requests| - 1];
      ServedAsStored(arith, ttl, store, earlier, p, redis);
      HandleKeepsAgreementIff(arith, ttl, HandleAll(arith, ttl, Shelf(store, map[], 0), earlier), requests[|requests| - 1]);
    }
    hide Apply, EditProduct;
  }

  /** How much time passes during these requests. */
  function Waited(requests: seq<Request>): nat {
    if requests == [] then 0
    else
      var last := requests[|requests| - 1];
      Waited(requests[..|requests| - 1]) + if last.Wait? then last.time else 0
  }

  /** The request has nothing to do with the entry of p. */
  predicate LeavesEntry(request: Request, p: ProductId) {
    match request
    case Get(q, _) => q != p
    case Update(q, _, _) => q != p
    case Evict(q) => q != p
    case _ => true
  }

  /** What is cached is served for the time to live, whatever checkouts do to the stock meanwhile, and
      then, or when GET fails, the row itself is. */
  lemma {:induction false} ServedForItsTime(arith: Arith, ttl: nat, s: Shelf, requests: seq<Request>, p: ProductId, redis: Redis)
    requires p in s.cache && forall i | 0 <= i < |requests| :: LeavesEntry(requests[i], p)
    ensures var t := HandleAll(arith, ttl, s, requests);
            && t.now == s.now + Waited(requests) && p in t.cache && t.cache[p] == s.cache[p]
            && Handle(arith, ttl, t, Get(p, redis)).1
               == if redis.get && t.now < s.cache[p].putAt + ttl then Some(s.cache[p].row)
                  else if p in t.store.products then Some(t.store.products[p]) else None
  {
    if requests != [] {
      ServedForItsTime(arith, ttl, s, requests[..|requests| - 1], p, redis);
    }
    hide Apply, EditProduct;
  }

  /** After a miss, with SET working, the row is cached as of now. */
  lemma MissIsCached(arith: Arith, ttl: nat, s: Shelf, p: ProductId, redis: Redis)
    requires !(redis.get && Live(s.cache, s.now, ttl, p))
    ensures var t := Handle(arith, ttl, s, Get(p, redis)).0;
            if p in s.store.products && redis.set_
            then p in t.cache && t.cache[p] == Entry(s.store.products[p], s.now, s.now)
            else t == s
  {
  }

  // ---- Interleaved requests ----

  /** What a request is about to do: read the row after a miss, put the row it read, or delete. */
  datatype Waiting =
    | Missed(product: ProductId)
    | Putting(product: ProductId, row: Product, readAt: nat)
    | Deleting(product: ProductId)

  datatype State = State(shelf: Shelf, waiting: map<RequestId, Waiting>)

  datatype Label =
    | Lookup(r: RequestId, product: ProductId, works: bool)
    | ReadRow(r: RequestId)
    | Put(r: RequestId, works: bool)
    | Commit(r: RequestId, op: Op)          // any committed request of the shop
    | Delete(r: RequestId, works: bool)
    | Tick
    | Drop(product: ProductId)

  function Start(store: Store): State {
    State(Shelf(store, map[], 0), map[])
  }

  /** The next state, and the product a request answers with. */
  function Step(arith: Arith, ttl: nat, s: State, l: Label): Option<(State, Option<Product>)> {
    var shelf := s.shelf;
    match l
    case Lookup(r, p, works) =>
      if r in s.waiting then None
      else if works && Live(shelf.cache, shelf.now, ttl, p) then Some((s, Some(shelf.cache[p].row)))
      else Some((s.(waiting := s.waiting[r := Missed(p)]), None))
    case ReadRow(r) =>
      if r !in s.waiting || !s.waiting[r].Missed? then None
      else
        var p := s.waiting[r].product;
        if p !in shelf.store.products then Some((s.(waiting := s.waiting - {r}), None))
        else Some((s.(waiting := s.waiting[r := Putting(p, shelf.store.products[p], shelf.now)]), None))
    case Put(r, works) =>
      if r !in s.waiting || !s.waiting[r].Putting? then None
      else
        var w := s.waiting[r];
        var cache := if works then shelf.cache[w.product := Entry(w.row, w.readAt, shelf.now)] else shelf.cache;
        Some((State(shelf.(cache := cache), s.waiting - {r}), Some(w.row)))
    case Commit(r, op) =>
      var after := Apply(arith, shelf.store, op);
      if r in s.waiting || after.None? then None
      else Some((State(shelf.(store := after.value),
                       if op.EditOp? then s.waiting[r := Deleting(op.product)] else s.waiting), None))
    case Delete(r, works) =>
      if r !in s.waiting || !s.waiting[r].Deleting? then None
      else
        var cache := if works then shelf.cache - {s.waiting[r].product} else shelf.cache;
        Some((State(shelf.(cache := cache), s.waiting - {r}), None))
    case Tick =>
      Some((s.(shelf := shelf.(now := shelf.now + 1)), None))
    case Drop(p) =>
      Some((s.(shelf := shelf.(cache := shelf.cache - {p})), None))
  }

  function Run(arith: Arith, ttl: nat, s: State, schedule: seq<Label>): Option<State> {
    if schedule == [] then Some(s)
    else
      var before :- Run(arith, ttl, s, schedule[..|schedule| - 1]);
      var (next, _) :- Step(arith, ttl, before, schedule[|schedule| - 1]);
      Some(next)
  }

  // ---- When a wrong row stays in the cache ----

  predicate Matches(s: Shelf, p: ProductId)
    requires p in s.cache
  {
    p in s.store.products && SameButStock(s.cache[p].row, s.store.products[p])
  }

  /** Some request is about to delete the entry of this product. */
  predicate DeletePending(waiting: map<RequestId, Waiting>, p: ProductId) {
    exists r :: r in waiting && waiting[r] == Deleting(p)
  }

  predicate LiveIn(s: State, ttl: nat, p: ProductId) {
    Live(s.shelf.cache, s.shelf.now, ttl, p)
  }

  /** Every live entry agrees with its row but for the stock, or is about to be deleted. */
  predicate Covered(s: State, ttl: nat) {
    forall p | p in s.shelf.cache && LiveIn(s, ttl, p) :: Matches(s.shelf, p) || DeletePending(s.waiting, p)
  }

  /** A row that is to be put still has a row to differ from: products are never deleted. */
  predicate PutsExist(s: State) {
    forall r | r in s.waiting && s.waiting[r].Putting? :: s.waiting[r].product in s.shelf.store.products
  }

  /** A step leaves a wrong row behind: a put of a row that an edit and its DEL have passed, or a DEL
      that fails over a live entry that differs and that nobody else is about to delete. */
  predicate Strands(s: State, ttl: nat, l: Label) {
    match l
    case Put(r, works) =>
      && works && ttl > 0 && r in s.waiting && s.waiting[r].Putting?
      && s.waiting[r].product in s.shelf.store.products
      && !SameButStock(s.waiting[r].row, s.shelf.store.products[s.waiting[r].product])
      && !DeletePending(s.waiting, s.waiting[r].product)
    case Delete(r, works) =>
      && !works && r in s.waiting && s.waiting[r].Deleting?
      && LiveIn(s, ttl, s.waiting[r].product) && !Matches(s.shelf, s.waiting[r].product)
      && !DeletePending(s.waiting - {r}, s.waiting[r].product)
    case _ => false
  }

  /** A request that takes or gives up another task than a DEL leaves the pending DELs alone. */
  lemma DeletePendingStays(before: map<RequestId, Waiting>, after: map<RequestId, Waiting>, r: RequestId, p: ProductId)
    requires r in before ==> before[r] != Deleting(p)
    requires forall q | q in before && q != r :: q in after && after[q] == before[q]
    requires forall q | q in after && q != r :: q in before
    ensures DeletePending(before, p) ==> DeletePending(after, p)
    ensures (r in after ==> after[r] != Deleting(p)) ==> (DeletePending(after, p) <==> DeletePending(before, p))
  {
    if DeletePending(before, p) {
      var q :| q in before && before[q] == Deleting(p);
      assert after[q] == Deleting(p);
    }
    if q :| q in after && after[q] == Deleting(p) {
      assert q != r ==> before[q] == Deleting(p);
    }
  }

  /** No other step breaks the cover, and these two always do. */
  lemma StepKeepsCoveredIff(arith: Arith, ttl: nat, s: State, l: Label)
    requires PutsExist(s) && Covered(s, ttl) && Step(arith, ttl, s, l).Some?
    ensures PutsExist(Step(arith, ttl, s, l).value.0)
    ensures Covered(Step(arith, ttl, s, l).value.0, ttl) <==> !Strands(s, ttl, l)
  {
    match l
    case Lookup(r, p, works) => WaitingKeepsCovered(ttl, s, Step(arith, ttl, s, l).value.0, r);
    case ReadRow(r) => WaitingKeepsCovered(ttl, s, Step(arith, ttl, s, l).value.0, r);
    case Put(r, works) => PutKeepsCoveredIff(arith, ttl, s, r, works);
    case Commit(r, op) => CommitKeepsCovered(arith, ttl, s, r, op);
    case Delete(r, works) => DeleteKeepsCoveredIff(arith, ttl, s, r, works);
    case Tick =>
    case Drop(p) =>
  }

  lemma WaitingKeepsCovered(ttl: nat, s: State, t: State, r: RequestId)
    requires Covered(s, ttl) && t.shelf == s.shelf
    requires r in s.waiting ==> !s.waiting[r].Deleting?
    requires forall q | q in s.waiting && q != r :: q in t.waiting && t.waiting[q] == s.waiting[q]
    requires forall q | q in t.waiting && q != r :: q in s.waiting
    ensures Covered(t, ttl)
  {
    forall p | p in t.shelf.cache && LiveIn(t, ttl, p)
      ensures Matches(t.shelf, p) || DeletePending(t.waiting, p)
    {
      DeletePendingStays(s.waiting, t.waiting, r, p);
    }
  }

  lemma PutKeepsCoveredIff(arith: Arith, ttl: nat, s: State, r: RequestId, works: bool)
    requires PutsExist(s) && Covered(s, ttl) && Step(arith, ttl, s, Put(r, works)).Some?
    ensures var t := Step(arith, ttl, s, Put(r, works)).value.0;
            PutsExist(t) && (Covered(t, ttl) <==> !Strands(s, ttl, Put(r, works)))
  {
    var t := Step(arith, ttl, s, Put(r, works)).value.0;
    var w := s.waiting[r];
    hide Apply, SameButStock;
    assert t.waiting == s.waiting - {r};
    forall p
      ensures DeletePending(t.waiting, p) <==> DeletePending(s.waiting, p)
    {
      DeletePendingStays(s.waiting, t.waiting, r, p);
    }
    hide DeletePending;
    forall p | p in t.shelf.cache && LiveIn(t, ttl, p) && (p != w.product || !works)
      ensures Matches(t.shelf, p) || DeletePending(t.waiting, p)
    {
      assert Matches(s.shelf, p) || DeletePending(s.waiting, p);
    }
  }

  lemma CommitKeepsCovered(arith: Arith, ttl: nat, s: State, r: RequestId, op: Op)
    requires PutsExist(s) && Covered(s, ttl) && Step(arith, ttl, s, Commit(r, op)).Some?
    ensures var t := Step(arith, ttl, s, Commit(r, op)).value.0; PutsExist(t) && Covered(t, ttl)
  {
    var t := Step(arith, ttl, s, Commit(r, op)).value.0;
    CommitKeepsRows(arith, s.shelf.store, op);
    hide Apply;
    forall p | p in t.shelf.cache && LiveIn(t, ttl, p)
      ensures Matches(t.shelf, p) || DeletePending(t.waiting, p)
    {
      assert Matches(s.shelf, p) || DeletePending(s.waiting, p);
      DeletePendingStays(s.waiting, t.waiting, r, p);
      if op.EditOp? && op.product == p {
        assert t.waiting[r] == Deleting(p);
      }
    }
  }

  /** A commit changes nothing but stock in rows other than the one it edits. */
  lemma CommitKeepsRows(arith: Arith, s: Store, op: Op)
    requires Apply(arith, s, op).Some?
    ensures var t := Apply(arith, s, op).value;
            forall p | p in s.products ::
              p in t.products && (!(op.EditOp? && op.product == p) ==> SameButStock(t.products[p], s.products[p]))
  {
    if TouchesNoCache(op) {
      OtherKeepsRows(arith, s, op);
    }
  }

  lemma DeleteKeepsCoveredIff(arith: Arith, ttl: nat, s: State, r: RequestId, works: bool)
    requires PutsExist(s) && Covered(s, ttl) && Step(arith, ttl, s, Delete(r, works)).Some?
    ensures var t := Step(arith, ttl, s, Delete(r, works)).value.0;
            PutsExist(t) && (Covered(t, ttl) <==> !Strands(s, ttl, Delete(r, works)))
  {
    var t := Step(arith, ttl, s, Delete(r, works)).value.0;
    var d := s.waiting[r].product;
    hide Apply, SameButStock;
    assert t.waiting == s.waiting - {r};
    forall p | p in t.shelf.cache && LiveIn(t, ttl, p) && p != d
      ensures Matches(t.shelf, p) || DeletePending(t.waiting, p)
    {
      assert Matches(s.shelf, p) || DeletePending(s.waiting, p);
      DeletePendingStays(s.waiting, t.waiting, r, p);
    }
  }

  /** No step of this schedule strands a row. */
  predicate NeverStrands(arith: Arith, ttl: nat, s: State, schedule: seq<Label>) {
    forall i | 0 <= i < |schedule| ::
      var before := Run(arith, ttl, s, schedule[..i]);
      before.Some? ==> !Strands(before.value, ttl, schedule[i])
  }

  /** So as long as none does, an entry without a pending DEL is right, however requests overlap. */
  lemma {:induction false} CoveredWhileNoneStrands(arith: Arith, ttl: nat, store: Store, schedule: seq<Label>, s: State)
    requires Run(arith, ttl, Start(store), schedule) == Some(s) && NeverStrands(arith, ttl, Start(store), schedule)
    ensures PutsExist(s) && Covered(s, ttl)
    ensures (forall r | r in s.waiting :: !s.waiting[r].Deleting?) ==> Agrees(s.shelf, ttl)
  {
    if schedule != [] {
      hide Step, Strands, SameButStock;
      var earlier := schedule[..|schedule| - 1];
      var before := Run(arith, ttl, Start(store), earlier).value;
      forall i | 0 <= i < |earlier|
        ensures var at := Run(arith, ttl, Start(store), earlier[..i]); at.Some? ==> !Strands(at.value, ttl, earlier[i])
      {
        assert earlier[..i] == schedule[..i];
      }
      CoveredWhileNoneStrands(arith, ttl, store, earlier, before);
      StepKeepsCoveredIff(arith, ttl, before, schedule[|schedule| - 1]);
    }
  }

  /** It does happen: a reader overtaken by an edit and its working DEL puts the old row back, and the
      next lookup serves it. */
  lemma ReaderOvertakenByEdit(arith: Arith, ttl: nat, store: Store, p: ProductId, e: Edit)
    requires p in store.products && EditProduct(store, p, e).Some? && ttl > 0
    requires !SameButStock(store.products[p], Edited(store.products[p], e))
    ensures var end := Run(arith, ttl, Start(store), [Lookup(0, p, true), ReadRow(0)] + [Commit(1, EditOp(p, e))] + [Delete(1, true)]
                                                     + [Put(0, true)]);
            && end.Some? && !Covered(end.value, ttl) && !Agrees(end.value.shelf, ttl)
            && Step(arith, ttl, end.value, Lookup(2, p, true)) == Some((end.value, Some(store.products[p])))
  {
    ReadFirst(arith, ttl, store, p);
    hide Run;
    var read := [Lookup(0, p, true), ReadRow(0)];
    RunSnoc(arith, ttl, Start(store), read, Commit(1, EditOp(p, e)));
    RunSnoc(arith, ttl, Start(store), read + [Commit(1, EditOp(p, e))], Delete(1, true));
    RunSnoc(arith, ttl, Start(store), read + [Commit(1, EditOp(p, e))] + [Delete(1, true)], Put(0, true));
  }

  lemma ReadFirst(arith: Arith, ttl: nat, store: Store, p: ProductId)
    requires p in store.products
    ensures var s := Start(store);
            Run(arith, ttl, s, [Lookup(0, p, true), ReadRow(0)])
            == Some(s.(waiting := map[0 := Putting(p, store.products[p], 0)]))
  {
    var start := Start(store);
    RunSnoc(arith, ttl, start, [], Lookup(0, p, true));
    RunSnoc(arith, ttl, start, [Lookup(0, p, true)], ReadRow(0));
    assert [] + [Lookup(0, p, true)] == [Lookup(0, p, true)];
    assert [Lookup(0, p, true)] + [ReadRow(0)] == [Lookup(0, p, true), ReadRow(0)];
    hide Run, Apply;
    var row := store.products[p];
    assert map[][0 := Missed(p)][0 := Putting(p, row, 0)] == map[0 := Putting(p, row, 0)];
  }

  lemma RunSnoc(arith: Arith, ttl: nat, s: State, a: seq<Label>, l: Label)
    requires Run(arith, ttl, s, a).Some?
    ensures var after := Step(arith, ttl, Run(arith, ttl, s, a).value, l);
            Run(arith, ttl, s, a + [l]) == if after.Some? then Some(after.value.0) else None
  {
    hide Step;
    assert (a + [l])[..|a|] == a;
  }

  // ---- Whole requests are runs ----

  function Ticks(time: nat): seq<Label> {
    if time == 0 then [] else Ticks(time - 1) + [Tick]
  }

  /** The steps of a request that nothing overlaps. */
  function LabelsOf(arith: Arith, ttl: nat, s: Shelf, request: Request): seq<Label> {
    match request
    case Get(p, redis) =>
      if redis.get && Live(s.cache, s.now, ttl, p) then [Lookup(0, p, true)]
      else if p !in s.store.products then [Lookup(0, p, redis.get), ReadRow(0)]
      else [Lookup(0, p, redis.get), ReadRow(0), Put(0, redis.set_)]
    case Update(p, e, redis) =>
      if EditProduct(s.store, p, e).None? then [] else [Commit(0, EditOp(p, e)), Delete(0, redis.del)]
    case Other(op) => if TouchesNoCache(op) && Apply(arith, s.store, op).Some? then [Commit(0, op)] else []
    case Wait(time) => Ticks(time)
    case Evict(p) => [Drop(p)]
  }

  lemma RunOne(arith: Arith, ttl: nat, s: State, l: Label)
    requires Step(arith, ttl, s, l).Some?
    ensures Run(arith, ttl, s, [l]) == Some(Step(arith, ttl, s, l).value.0)
  {
    RunSnoc(arith, ttl, s, [], l);
    assert [] + [l] == [l];
    hide Step;
  }

  lemma RunTwo(arith: Arith, ttl: nat, s: State, a: Label, b: Label)
    requires Step(arith, ttl, s, a).Some? && Step(arith, ttl, Step(arith, ttl, s, a).value.0, b).Some?
    ensures Run(arith, ttl, s, [a, b]) == Some(Step(arith, ttl, Step(arith, ttl, s, a).value.0, b).value.0)
  {
    hide Step;
    RunOne(arith, ttl, s, a);
    RunSnoc(arith, ttl, s, [a], b);
    assert [a] + [b] == [a, b];
  }

  lemma {:induction false} TicksRun(arith: Arith, ttl: nat, s: State, time: nat)
    ensures Run(arith, ttl, s, Ticks(time)) == Some(s.(shelf := s.shelf.(now := s.shelf.now + time)))
  {
    if time > 0 {
      TicksRun(arith, ttl, s, time - 1);
      RunSnoc(arith, ttl, s, Ticks(time - 1), Tick);
      hide Run;
    }
  }

  /** A read that nothing overlaps, after a miss: its last step gives its answer. */
  lemma MissIsARun(arith: Arith, ttl: nat, s: Shelf, p: ProductId, redis: Redis)
    requires !(redis.get && Live(s.cache, s.now, ttl, p))
    ensures var labels, last := LabelsOf(arith, ttl, s, Get(p, redis)), |LabelsOf(arith, ttl, s, Get(p, redis))| - 1;
            var before := Run(arith, ttl, State(s, map[]), labels[..last]);
            && before.Some? && Step(arith, ttl, before.value, labels[last]).Some?
            && Step(arith, ttl, before.value, labels[last]).value
               == (State(Handle(arith, ttl, s, Get(p, redis)).0, map[]), Handle(arith, ttl, s, Get(p, redis)).1)
  {
    var start := State(s, map[]);
    var missed := start.(waiting := map[0 := Missed(p)]);
    assert map[][0 := Missed(p)] == missed.waiting;
    RunOne(arith, ttl, start, Lookup(0, p, redis.get));
    if p in s.store.products {
      var row := s.store.products[p];
      assert missed.waiting[0 := Putting(p, row, s.now)] == map[0 := Putting(p, row, s.now)];
      RunTwo(arith, ttl, start, Lookup(0, p, redis.get), ReadRow(0));
      var labels := LabelsOf(arith, ttl, s, Get(p, redis));
      assert labels[..2] == [Lookup(0, p, redis.get), ReadRow(0)];
      assert map[0 := Putting(p, row, s.now)] - {0} == map[];
    } else {
      assert [Lookup(0, p, redis.get), ReadRow(0)][..1] == [Lookup(0, p, redis.get)];
      assert missed.waiting - {0} == map[];
    }
    hide Run, Apply;
  }

  lemma HitIsARun(arith: Arith, ttl: nat, s: Shelf, p: ProductId, redis: Redis)
    requires redis.get && Live(s.cache, s.now, ttl, p)
    ensures LabelsOf(arith, ttl, s, Get(p, redis)) == [Lookup(0, p, true)]
    ensures Step(arith, ttl, State(s, map[]), Lookup(0, p, true))
         == Some((State(Handle(arith, ttl, s, Get(p, redis)).0, map[]), Handle(arith, ttl, s, Get(p, redis)).1))
  {
  }

  lemma MissLeavesNothing(arith: Arith, ttl: nat, s: Shelf, p: ProductId, redis: Redis)
    requires !(redis.get && Live(s.cache, s.now, ttl, p))
    ensures Run(arith, ttl, State(s, map[]), LabelsOf(arith, ttl, s, Get(p, redis)))
         == Some(State(Handle(arith, ttl, s, Get(p, redis)).0, map[]))
  {
    var labels := LabelsOf(arith, ttl, s, Get(p, redis));
    MissIsARun(arith, ttl, s, p, redis);
    assert labels != [];
    hide Run, Step, Handle, LabelsOf, Live;
    RunSnoc(arith, ttl, State(s, map[]), labels[..|labels| - 1], labels[|labels| - 1]);
    assert labels == labels[..|labels| - 1] + [labels[|labels| - 1]];
  }

  lemma UpdateIsARun(arith: Arith, ttl: nat, s: Shelf, p: ProductId, e: Edit, redis: Redis)
    requires EditProduct(s.store, p, e).Some?
    ensures Run(arith, ttl, State(s, map[]), [Commit(0, EditOp(p, e)), Delete(0, redis.del)])
         == Some(State(Handle(arith, ttl, s, Update(p, e, redis)).0, map[]))
  {
    hide Run, EditProduct;
    var start, edited := State(s, map[]), s.(store := EditProduct(s.store, p, e).value);
    assert Apply(arith, s.store, EditOp(p, e)) == EditProduct(s.store, p, e);
    hide Apply;
    assert map[][0 := Deleting(p)] == map[0 := Deleting(p)] && map[0 := Deleting(p)] - {0} == map[];
    assert Step(arith, ttl, start, Commit(0, EditOp(p, e))) == Some((State(edited, map[0 := Deleting(p)]), None));
    RunTwo(arith, ttl, start, Commit(0, EditOp(p, e)), Delete(0, redis.del));
  }

  lemma OtherIsARun(arith: Arith, ttl: nat, s: Shelf, op: Op)
    requires TouchesNoCache(op) && Apply(arith, s.store, op).Some?
    ensures Run(arith, ttl, State(s, map[]), [Commit(0, op)]) == Some(State(Handle(arith, ttl, s, Other(op)).0, map[]))
  {
    hide Run, Apply;
    RunOne(arith, ttl, State(s, map[]), Commit(0, op));
  }

  /** A whole request is a run of the machine, and leaves nothing waiting. */
  lemma WholeRequestIsARun(arith: Arith, ttl: nat, s: Shelf, request: Request)
    ensures Run(arith, ttl, State(s, map[]), LabelsOf(arith, ttl, s, request))
         == Some(State(Handle(arith, ttl, s, request).0, map[]))
  {
    hide Apply, EditProduct, Step;
    var start := State(s, map[]);
    match request
    case Get(p, redis) =>
      if redis.get && Live(s.cache, s.now, ttl, p) {
        HitIsARun(arith, ttl, s, p, redis);
        RunOne(arith, ttl, start, Lookup(0, p, true));
      } else {
        MissLeavesNothing(arith, ttl, s, p, redis);
      }
    case Update(p, e, redis) =>
      if EditProduct(s.store, p, e).Some? {
        UpdateIsARun(arith, ttl, s, p, e, redis);
        hide Run;
      }
    case Other(op) =>
      if TouchesNoCache(op) && Apply(arith, s.store, op).Some? {
        OtherIsARun(arith, ttl, s, op);
        hide Run;
      }
    case Wait(time) => TicksRun(arith, ttl, start, time);
    case Evict(p) => EvictIsARun(arith, ttl, s, p);
  }

  lemma EvictIsARun(arith: Arith, ttl: nat, s: Shelf, p: ProductId)
    ensures Run(arith, ttl, State(s, map[]), [Drop(p)]) == Some(State(Handle(arith, ttl, s, Evict(p)).0, map[]))
  {
    hide Run;
    RunOne(arith, ttl, State(s, map[]), Drop(p));
  }

  // ---- How old an answer is ----

  /** Step i of the schedule was request r reading this row of product p, at this time, from the
      database as it was then; r has not put it since. */
  ghost predicate ReadAs(arith: Arith, ttl: nat, store: Store, schedule: seq<Label>, i: nat, end: nat, r: RequestId,
                         p: ProductId, row: Product, readAt: nat) {
    && i < end <= |schedule| && schedule[i] == ReadRow(r)
    && (forall k | i < k < end :: schedule[k] != Put(r, true) && schedule[k] != Put(r, false))
    && var at := Run(arith, ttl, Start(store), schedule[..i]);
    && at.Some? && r in at.value.waiting && at.value.waiting[r] == Missed(p)
    && at.value.shelf.now == readAt && p in at.value.shelf.store.products && at.value.shelf.store.products[p] == row
  }

  /** Request r read this row of p and has not put it yet. */
  ghost predicate WasRead(arith: Arith, ttl: nat, store: Store, schedule: seq<Label>, r: RequestId,
                          p: ProductId, row: Product, readAt: nat) {
    exists i: nat :: ReadAs(arith, ttl, store, schedule, i, |schedule|, r, p, row, readAt)
  }

  /** Step j of the schedule was request r putting the row it had read. */
  ghost predicate PutAs(arith: Arith, ttl: nat, store: Store, schedule: seq<Label>, j: nat, r: RequestId, p: ProductId, e: Entry) {
    && j < |schedule| && schedule[j] == Put(r, true)
    && WasRead(arith, ttl, store, schedule[..j], r, p, e.row, e.readAt)
    && var at := Run(arith, ttl, Start(store), schedule[..j]);
    && at.Some? && at.value.shelf.now == e.putAt && e.readAt <= e.putAt
  }

  /** Some reader put this entry. */
  ghost predicate WasPut(arith: Arith, ttl: nat, store: Store, schedule: seq<Label>, p: ProductId, e: Entry) {
    exists j: nat, r: RequestId :: PutAs(arith, ttl, store, schedule, j, r, p, e)
  }

  ghost predicate ReaderTraced(arith: Arith, ttl: nat, store: Store, schedule: seq<Label>, now: nat, r: RequestId, w: Waiting) {
    w.Putting? ==> WasRead(arith, ttl, store, schedule, r, w.product, w.row, w.readAt) && w.readAt <= now
  }

  ghost predicate EntryTraced(arith: Arith, ttl: nat, store: Store, schedule: seq<Label>, now: nat, p: ProductId, e: Entry) {
    WasPut(arith, ttl, store, schedule, p, e) && e.putAt <= now
  }

  ghost predicate Traced(arith: Arith, ttl: nat, store: Store, schedule: seq<Label>, s: State) {
    && (forall r | r in s.waiting :: ReaderTraced(arith, ttl, store, schedule, s.shelf.now, r, s.waiting[r]))
    && (forall p | p in s.shelf.cache :: EntryTraced(arith, ttl, store, schedule, s.shelf.now, p, s.shelf.cache[p]))
  }

  lemma WasReadStays(arith: Arith, ttl: nat, store: Store, schedule: seq<Label>, l: Label, r: RequestId,
                     p: ProductId, row: Product, readAt: nat)
    requires WasRead(arith, ttl, store, schedule, r, p, row, readAt) && l != Put(r, true) && l != Put(r, false)
    ensures WasRead(arith, ttl, store, schedule + [l], r, p, row, readAt)
  {
    hide Run;
    var i: nat :| ReadAs(arith, ttl, store, schedule, i, |schedule|, r, p, row, readAt);
    assert (schedule + [l])[..i] == schedule[..i];
    assert ReadAs(arith, ttl, store, schedule + [l], i, |schedule| + 1, r, p, row, readAt);
  }

  lemma WasPutStays(arith: Arith, ttl: nat, store: Store, schedule: seq<Label>, l: Label, p: ProductId, e: Entry)
    requires WasPut(arith, ttl, store, schedule, p, e)
    ensures WasPut(arith, ttl, store, schedule + [l], p, e)
  {
    hide Run, WasRead;
    var j: nat, r: RequestId :| PutAs(arith, ttl, store, schedule, j, r, p, e);
    assert (schedule + [l])[..j] == schedule[..j];
    assert PutAs(arith, ttl, store, schedule + [l], j, r, p, e);
  }

  /** The two steps that make new facts. */
  lemma NewReadIsTraced(arith: Arith, ttl: nat, store: Store, schedule: seq<Label>, s: State, r: RequestId)
    requires Run(arith, ttl, Start(store), schedule) == Some(s)
    requires r in s.waiting && s.waiting[r].Missed? && s.waiting[r].product in s.shelf.store.products
    ensures var p := s.waiting[r].product;
            WasRead(arith, ttl, store, schedule + [ReadRow(r)], r, p, s.shelf.store.products[p], s.shelf.now)
  {
    hide Run;
    var p := s.waiting[r].product;
    var longer := schedule + [ReadRow(r)];
    assert longer[..|schedule|] == schedule;
    assert ReadAs(arith, ttl, store, longer, |schedule|, |longer|, r, p, s.shelf.store.products[p], s.shelf.now);
  }

  lemma NewPutIsTraced(arith: Arith, ttl: nat, store: Store, schedule: seq<Label>, s: State, r: RequestId)
    requires Run(arith, ttl, Start(store), schedule) == Some(s) && Traced(arith, ttl, store, schedule, s)
    requires r in s.waiting && s.waiting[r].Putting?
    ensures var w := s.waiting[r];
            WasPut(arith, ttl, store, schedule + [Put(r, true)], w.product, Entry(w.row, w.readAt, s.shelf.now))
  {
    hide Run, WasRead, WasPut;
    var w := s.waiting[r];
    assert ReaderTraced(arith, ttl, store, schedule, s.shelf.now, r, w);
    var longer := schedule + [Put(r, true)];
    assert longer[..|schedule|] == schedule;
    assert PutAs(arith, ttl, store, longer, |schedule|, r, w.product, Entry(w.row, w.readAt, s.shelf.now));
    PutIsTraced(arith, ttl, store, longer, |schedule|, r, w.product, Entry(w.row, w.readAt, s.shelf.now));
  }

  lemma PutIsTraced(arith: Arith, ttl: nat, store: Store, schedule: seq<Label>, j: nat, r: RequestId, p: ProductId, e: Entry)
    requires PutAs(arith, ttl, store, schedule, j, r, p, e)
    ensures WasPut(arith, ttl, store, schedule, p, e)
  {
    hide PutAs;
  }

  lemma StepKeepsTraced(arith: Arith, ttl: nat, store: Store, schedule: seq<Label>, s: State, l: Label)
    requires Run(arith, ttl, Start(store), schedule) == Some(s) && Traced(arith, ttl, store, schedule, s)
    requires Step(arith, ttl, s, l).Some?
    ensures Traced(arith, ttl, store, schedule + [l], Step(arith, ttl, s, l).value.0)
  {
    hide Run, WasRead, WasPut, Apply;
    var t := Step(arith, ttl, s, l).value.0;
    forall r | r in t.waiting
      ensures ReaderTraced(arith, ttl, store, schedule + [l], t.shelf.now, r, t.waiting[r])
    {
      if l == ReadRow(r) {
        NewReadIsTraced(arith, ttl, store, schedule, s, r);
      } else if t.waiting[r].Putting? {
        var w := s.waiting[r];
        assert ReaderTraced(arith, ttl, store, schedule, s.shelf.now, r, w);
        WasReadStays(arith, ttl, store, schedule, l, r, w.product, w.row, w.readAt);
      }
    }
    forall p | p in t.shelf.cache
      ensures EntryTraced(arith, ttl, store, schedule + [l], t.shelf.now, p, t.shelf.cache[p])
    {
      if l.Put? && l.works && s.waiting[l.r].product == p {
        NewPutIsTraced(arith, ttl, store, schedule, s, l.r);
      } else {
        assert EntryTraced(arith, ttl, store, schedule, s.shelf.now, p, s.shelf.cache[p]);
        WasPutStays(arith, ttl, store, schedule, l, p, s.shelf.cache[p]);
      }
    }
  }

  lemma RunLast(arith: Arith, ttl: nat, s0: State, schedule: seq<Label>, s: State)
    requires schedule != [] && Run(arith, ttl, s0, schedule) == Some(s)
    ensures var before := Run(arith, ttl, s0, schedule[..|schedule| - 1]);
            && before.Some? && Step(arith, ttl, before.value, schedule[|schedule| - 1]).Some?
            && Step(arith, ttl, before.value, schedule[|schedule| - 1]).value.0 == s
  {
    hide Step;
  }

  lemma StartIsTraced(arith: Arith, ttl: nat, store: Store)
    ensures Run(arith, ttl, Start(store), []) == Some(Start(store))
    ensures Traced(arith, ttl, store, [], Start(store))
  {
    hide WasRead, WasPut;
  }

  lemma {:induction false} RunIsTraced(arith: Arith, ttl: nat, store: Store, schedule: seq<Label>, s: State)
    requires Run(arith, ttl, Start(store), schedule) == Some(s)
    ensures Traced(arith, ttl, store, schedule, s)
  {
    hide Run, Step, Traced, Start;
    StartIsTraced(arith, ttl, store);
    if schedule != [] {
      RunLast(arith, ttl, Start(store), schedule, s);
      var earlier, l := schedule[..|schedule| - 1], schedule[|schedule| - 1];
      var before := Run(arith, ttl, Start(store), earlier).value;
      RunIsTraced(arith, ttl, store, earlier, before);
      StepKeepsTraced(arith, ttl, store, earlier, before, l);
      assert earlier + [l] == schedule;
    }
  }

  /** This answer is the live entry of p; its reader found it in the database no longer ago than the
      time to live and that reader's own delay from read to put. */
  ghost predicate IsHit(arith: Arith, ttl: nat, store: Store, schedule: seq<Label>, s: State, p: ProductId, answer: Product) {
    && LiveIn(s, ttl, p) && answer == s.shelf.cache[p].row
    && WasPut(arith, ttl, store, schedule, p, s.shelf.cache[p])
    && s.shelf.now - s.shelf.cache[p].readAt < ttl + (s.shelf.cache[p].putAt - s.shelf.cache[p].readAt)
  }

  /** This answer is the row that request r itself read. */
  ghost predicate IsOwnRead(arith: Arith, ttl: nat, store: Store, schedule: seq<Label>, s: State, r: RequestId, answer: Product) {
    && r in s.waiting && s.waiting[r].Putting? && answer == s.waiting[r].row
    && WasRead(arith, ttl, store, schedule, r, s.waiting[r].product, answer, s.waiting[r].readAt)
    && s.waiting[r].readAt <= s.shelf.now
  }

  /** However requests overlap and whatever fails, a product is answered only in two ways: from the
      cache, no staler than its time to live and its own reader's delay allow, or after a miss, as
      the request itself read it, whether its put works or not. */
  lemma ServedIsRecent(arith: Arith, ttl: nat, store: Store, schedule: seq<Label>, s: State, l: Label)
    requires Run(arith, ttl, Start(store), schedule) == Some(s)
    requires Step(arith, ttl, s, l).Some? && Step(arith, ttl, s, l).value.1.Some?
    ensures if l.Lookup? then l.works && IsHit(arith, ttl, store, schedule, s, l.product, Step(arith, ttl, s, l).value.1.value)
            else l.Put? && IsOwnRead(arith, ttl, store, schedule, s, l.r, Step(arith, ttl, s, l).value.1.value)
  {
    RunIsTraced(arith, ttl, store, schedule, s);
    hide Run, WasRead, WasPut, Apply;
    if l.Lookup? {
      assert EntryTraced(arith, ttl, store, schedule, s.shelf.now, l.product, s.shelf.cache[l.product]);
    } else {
      assert l.Put?;
      assert ReaderTraced(arith, ttl, store, schedule, s.shelf.now, l.r, s.waiting[l.r]);
    }
  }
}
