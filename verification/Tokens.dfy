/** Refresh-token families: the table that rotation, reuse detection and logout write, and the
    requests that interleave on it. A refresh reads its token's row outside any transaction and
    without a lock, and looks at it no second time; a revocation updates the rows that its
    statement saw when it began. */
module Tokens {
  import opened Wrappers

  type Jti = nat
  type Family = nat
  type UserId = nat
  type RequestId = nat

  /** A row of `refresh_tokens`. */
  datatype Row = Row(family: Family, user: UserId, used: bool, revoked: bool)

  /** What a verified refresh token says. */
  datatype Claims = Claims(jti: Jti, family: Family, user: UserId)

  /** Where a request stands between two of its statements. */
  datatype Pending =
    | Rotating(claims: Claims, user: UserId)         // read an unused, unrevoked row
    | Condemning(family: Family)                     // about to revoke the family
    | Revoking(family: Family, seen: set<Jti>)       // the update has begun, on these rows

  /** `signed` is every token ever signed, stored or not. `birth` numbers the stored ones in the
      order of their commits, `root` is the first one of each family, and `parent` the one that a
      refresh exchanged for another. */
  datatype State = State(
    rows: map<Jti, Row>,
    signed: map<Jti, Claims>,
    count: nat,
    birth: map<Jti, nat>,
    root: map<Family, Jti>,
    parent: map<Jti, Jti>,
    pending: map<RequestId, Pending>)

  const EMPTY := State(map[], map[], 0, map[], map[], map[], map[])

  datatype Label =
    | Open(claims: Claims)                           // register or login commits its first token
    | OpenFails(claims: Claims)                      // signed it, but did not store it
    | Read(r: RequestId, claims: Claims)             // refresh reads its row, and branches
    | Rotate(r: RequestId, claims: Claims, jti: Jti) // refresh commits: old one used, new one stored
    | Logout(r: RequestId, claims: Claims)
    | Scan(r: RequestId)                             // a revocation's statement begins
    | Revoke(r: RequestId)                           // and commits
    | Fail(r: RequestId)                             // a request dies with nothing written
    | FailSigned(r: RequestId, jti: Jti)             // after signing a token it did not store

  // ---- The statements ----

  function Members(rows: map<Jti, Row>, family: Family): set<Jti> {
    set j | j in rows && rows[j].family == family
  }

  function MarkUsed(rows: map<Jti, Row>, jti: Jti): map<Jti, Row> {
    if jti in rows then rows[jti := rows[jti].(used := true)] else rows
  }

  function MarkRevoked(rows: map<Jti, Row>, seen: set<Jti>): map<Jti, Row> {
    map j | j in rows :: if j in seen then rows[j].(revoked := true) else rows[j]
  }

  /** The oracle for signatures: verification yields what was signed. */
  predicate Verified(s: State, c: Claims) {
    c.jti in s.signed && s.signed[c.jti] == c
  }

  /** UUIDs are new. */
  predicate NewJti(s: State, jti: Jti) {
    jti !in s.signed
  }

  predicate NewFamily(s: State, family: Family) {
    forall j | j in s.signed :: s.signed[j].family != family
  }

  /** Commit a new token: a first one, or one exchanged for another that becomes used. */
  function Store(s: State, c: Claims, from: Option<Jti>): State {
    var rows := if from.Some? then MarkUsed(s.rows, from.value) else s.rows;
    s.(rows := rows[c.jti := Row(c.family, c.user, false, false)],
       signed := s.signed[c.jti := c],
       count := s.count + 1,
       birth := s.birth[c.jti := s.count],
       root := if from.Some? then s.root else s.root[c.family := c.jti],
       parent := if from.Some? then s.parent[c.jti := from.value] else s.parent)
  }

  // ---- The machine ----

  function Branch(s: State, c: Claims): Option<Pending> {
    if c.jti !in s.rows || s.rows[c.jti].revoked then None
    else if s.rows[c.jti].used then Some(Condemning(c.family))
    else Some(Rotating(c, s.rows[c.jti].user))
  }

  function Step(s: State, l: Label): Option<State> {
    match l
    case Open(c) =>
      if NewJti(s, c.jti) && NewFamily(s, c.family) then Some(Store(s, c, None)) else None
    case OpenFails(c) =>
      if NewJti(s, c.jti) && NewFamily(s, c.family) then Some(s.(signed := s.signed[c.jti := c])) else None
    case Read(r, c) =>
      if r in s.pending || !Verified(s, c) then None
      else
        var next := Branch(s, c);
        Some(if next.None? then s else s.(pending := s.pending[r := next.value]))
    case Rotate(r, c, jti) =>
      if r in s.pending && s.pending[r].Rotating? && s.pending[r].claims == c && NewJti(s, jti) then
        Some(Store(s, Claims(jti, c.family, s.pending[r].user), Some(c.jti)).(pending := s.pending - {r}))
      else None
    case Logout(r, c) =>
      if r in s.pending || !Verified(s, c) then None
      else Some(s.(pending := s.pending[r := Condemning(c.family)]))
    case Scan(r) =>
      if r in s.pending && s.pending[r].Condemning? then
        var f := s.pending[r].family;
        Some(s.(pending := s.pending[r := Revoking(f, Members(s.rows, f))]))
      else None
    case Revoke(r) =>
      if r in s.pending && s.pending[r].Revoking? then
        Some(s.(rows := MarkRevoked(s.rows, s.pending[r].seen), pending := s.pending - {r}))
      else None
    case Fail(r) =>
      if r in s.pending then Some(s.(pending := s.pending - {r})) else None
    case FailSigned(r, jti) =>
      if r in s.pending && s.pending[r].Rotating? && NewJti(s, jti) then
        var c := Claims(jti, s.pending[r].claims.family, s.pending[r].user);
        Some(s.(signed := s.signed[jti := c], pending := s.pending - {r}))
      else None
  }

  function Run(s: State, schedule: seq<Label>): Option<State> {
    if schedule == [] then Some(s)
    else
      var before :- Run(s, schedule[..|schedule| - 1]);
      Step(before, schedule[|schedule| - 1])
  }

  // ---- What every state keeps ----

  /** A stored row has the family and user its token was signed with. */
  predicate RowsAsSigned(s: State) {
    forall j | j in s.rows :: j in s.signed && s.signed[j] == Claims(j, s.rows[j].family, s.rows[j].user)
  }

  predicate Births(s: State) {
    && s.birth.Keys == s.rows.Keys
    && (forall j | j in s.birth :: s.birth[j] < s.count)
    && (forall a, b | a in s.birth && b in s.birth && s.birth[a] == s.birth[b] :: a == b)
  }

  predicate OneUserPerFamily(s: State) {
    forall a, b | a in s.rows && b in s.rows && s.rows[a].family == s.rows[b].family :: s.rows[a].user == s.rows[b].user
  }

  /** The tokens of a family form a tree: every token but one came from an earlier one of the family. */
  predicate HasParent(s: State, k: Jti)
    requires k in s.parent
  {
    var p := s.parent[k];
    && k in s.rows && p in s.rows && s.rows[p].family == s.rows[k].family
    && k in s.birth && p in s.birth && s.birth[p] < s.birth[k]
  }

  predicate Parents(s: State) {
    forall k | k in s.parent :: HasParent(s, k)
  }

  predicate Rooted(s: State, j: Jti)
    requires j in s.rows
  {
    var f := s.rows[j].family;
    f in s.root && (j in s.parent <==> j != s.root[f])
  }

  predicate IsRoot(s: State, f: Family)
    requires f in s.root
  {
    var j := s.root[f];
    j in s.rows && s.rows[j].family == f
  }

  predicate Roots(s: State) {
    && (forall j | j in s.rows :: Rooted(s, j))
    && (forall f | f in s.root :: IsRoot(s, f))
  }

  predicate Exchanged(parent: map<Jti, Jti>, j: Jti) {
    exists k :: k in parent && parent[k] == j
  }

  /** A token is marked used exactly when another was issued for it. */
  predicate UsedIffExchanged(s: State) {
    forall j | j in s.rows :: s.rows[j].used <==> Exchanged(s.parent, j)
  }

  predicate PendingOk(s: State, r: RequestId)
    requires r in s.pending
  {
    match s.pending[r]
    case Rotating(c, user) => c.jti in s.rows && Verified(s, c) && c.user == user
    case Condemning(f) => true
    case Revoking(f, seen) => seen <= Members(s.rows, f)
  }

  predicate TableInv(s: State) {
    && RowsAsSigned(s) && Births(s) && OneUserPerFamily(s) && Parents(s) && Roots(s) && UsedIffExchanged(s)
  }

  predicate Inv(s: State) {
    TableInv(s) && forall r | r in s.pending :: PendingOk(s, r)
  }

  // ---- Preservation ----

  /** How one step changes the table: not at all, by a new token, or by a revocation. */
  datatype Change = Nothing | New(claims: Claims, from: Option<Jti>) | Revoked(seen: set<Jti>)

  function ChangeOf(s: State, l: Label): Change
    requires Step(s, l).Some?
  {
    match l
    case Open(c) => New(c, None)
    case Rotate(r, c, jti) => New(Claims(jti, c.family, s.pending[r].user), Some(c.jti))
    case Revoke(r) => Revoked(s.pending[r].seen)
    case _ => Nothing
  }

  /** A token may be stored: its id is new, and it starts a family or continues the one it came from. */
  predicate Storable(s: State, c: Claims, from: Option<Jti>) {
    && NewJti(s, c.jti)
    && match from
       case None => NewFamily(s, c.family)
       case Some(o) => o in s.rows && s.rows[o].family == c.family && s.rows[o].user == c.user
  }

  lemma RotateIsStorable(s: State, l: Label)
    requires TableInv(s) && l.Rotate? && Step(s, l).Some? && PendingOk(s, l.r)
    ensures var c := Claims(l.jti, l.claims.family, s.pending[l.r].user); Storable(s, c, Some(l.claims.jti))
  {
    hide Births, OneUserPerFamily, Parents, Roots, UsedIffExchanged, Store;
  }

  lemma ChangeMeaning(s: State, l: Label)
    requires Inv(s) && Step(s, l).Some?
    ensures var t := Step(s, l).value;
            match ChangeOf(s, l)
            case Nothing => t.rows == s.rows && Alike(s, t)
            case New(c, from) => t.rows == Store(s, c, from).rows && Alike(Store(s, c, from), t) && Storable(s, c, from)
            case Revoked(seen) =>
              Alike(s, t) && forall j | j in s.rows :: t.rows[j].revoked == (s.rows[j].revoked || j in seen)
    ensures forall j | j in s.signed :: j in Step(s, l).value.signed && Step(s, l).value.signed[j] == s.signed[j]
  {
    hide TableInv, Births, OneUserPerFamily, Parents, Roots, UsedIffExchanged, MarkUsed;
    if l.Rotate? {
      assert PendingOk(s, l.r);
      RotateIsStorable(s, l);
    } else {
      hide Inv;
    }
  }

  lemma NewIsNew(s: State, c: Claims, from: Option<Jti>)
    requires RowsAsSigned(s) && Births(s) && Parents(s) && Storable(s, c, from)
    ensures c.jti !in s.rows && c.jti !in s.birth && c.jti !in s.parent
    ensures !Exchanged(s.parent, c.jti)
    ensures from.None? ==> forall j | j in s.rows :: s.rows[j].family != c.family
  {
    assert c.jti in s.parent ==> HasParent(s, c.jti);
    assert forall k | k in s.parent :: HasParent(s, k);
  }

  /** The row of a new token, and the ones that were there. */
  lemma StoreMeaning(s: State, c: Claims, from: Option<Jti>)
    requires c.jti !in s.rows && (from.Some? ==> from.value in s.rows)
    ensures var t := Store(s, c, from);
            && t.rows.Keys == s.rows.Keys + {c.jti} && t.rows[c.jti] == Row(c.family, c.user, false, false)
            && forall j | j in s.rows ::
                 && t.rows[j].family == s.rows[j].family && t.rows[j].user == s.rows[j].user
                 && t.rows[j].revoked == s.rows[j].revoked
                 && t.rows[j].used == (s.rows[j].used || from == Some(j))
    ensures var t := Store(s, c, from);
            && t.signed == s.signed[c.jti := c] && t.count == s.count + 1 && t.birth == s.birth[c.jti := s.count]
            && t.root == (if from.Some? then s.root else s.root[c.family := c.jti])
            && t.parent == if from.Some? then s.parent[c.jti := from.value] else s.parent
  {
  }

  lemma StoreKeepsUser(s: State, c: Claims, from: Option<Jti>)
    requires RowsAsSigned(s) && Births(s) && Parents(s) && OneUserPerFamily(s) && Storable(s, c, from)
    ensures RowsAsSigned(Store(s, c, from)) && OneUserPerFamily(Store(s, c, from))
  {
    NewIsNew(s, c, from);
    StoreMeaning(s, c, from);
    hide Store, Births, Parents, NewJti, NewFamily, Exchanged;
    assert RowsAsSigned(Store(s, c, from)) by {
      hide OneUserPerFamily;
    }
    assert OneUserPerFamily(Store(s, c, from)) by {
      hide RowsAsSigned;
    }
  }

  lemma StoreKeepsBirths(s: State, c: Claims, from: Option<Jti>)
    requires c.jti !in s.rows && (from.Some? ==> from.value in s.rows) && Births(s)
    ensures Births(Store(s, c, from))
  {
    StoreMeaning(s, c, from);
    hide Store;
  }

  lemma StoreKeepsParent(s: State, c: Claims, from: Option<Jti>, k: Jti)
    requires c.jti !in s.rows && c.jti !in s.birth
    requires from.Some? ==>
               && from.value in s.rows && s.rows[from.value].family == c.family
               && from.value in s.birth && s.birth[from.value] < s.count
    requires if k == c.jti then from.Some? else k in s.parent && HasParent(s, k)
    ensures k in Store(s, c, from).parent && HasParent(Store(s, c, from), k)
  {
  }

  lemma StoreKeepsParents(s: State, c: Claims, from: Option<Jti>)
    requires RowsAsSigned(s) && Births(s) && Parents(s) && Storable(s, c, from)
    ensures Parents(Store(s, c, from))
  {
    NewIsNew(s, c, from);
    hide RowsAsSigned, NewJti, NewFamily, Exchanged;
    forall k | k in Store(s, c, from).parent
      ensures HasParent(Store(s, c, from), k)
    {
      assert k != c.jti ==> HasParent(s, k);
      assert from.Some? ==> s.birth[from.value] < s.count;
      hide Parents, HasParent, Births;
      StoreKeepsParent(s, c, from, k);
    }
  }

  lemma StoreKeepsRooted(s: State, c: Claims, from: Option<Jti>, j: Jti)
    requires c.jti !in s.rows && c.jti !in s.parent && (from.None? ==> c.family !in s.root)
    requires from.Some? ==> from.value in s.rows && s.rows[from.value].family == c.family && Rooted(s, from.value)
    requires from.Some? && c.family in s.root ==> IsRoot(s, c.family)
    requires j == c.jti || (j in s.rows && Rooted(s, j))
    ensures j in Store(s, c, from).rows && Rooted(Store(s, c, from), j)
  {
  }

  lemma StoreKeepsRoots(s: State, c: Claims, from: Option<Jti>)
    requires RowsAsSigned(s) && Births(s) && Parents(s) && Roots(s) && Storable(s, c, from)
    ensures Roots(Store(s, c, from))
  {
    NewIsNew(s, c, from);
    hide RowsAsSigned, Births, Parents, Exchanged, NewJti, NewFamily;
    var t := Store(s, c, from);
    assert from.None? && c.family in s.root ==> IsRoot(s, c.family);
    assert from.Some? ==> Rooted(s, from.value);
    forall j | j in t.rows
      ensures Rooted(t, j)
    {
      assert j == c.jti || (j in s.rows && Rooted(s, j));
      assert from.Some? && c.family in s.root ==> IsRoot(s, c.family);
      hide Store, Rooted, IsRoot, Roots;
      StoreKeepsRooted(s, c, from, j);
    }
    StoreMeaning(s, c, from);
    hide Store, Rooted;
    forall f | f in t.root
      ensures IsRoot(t, f)
    {
      assert f in s.root ==> IsRoot(s, f);
    }
  }

  lemma ExchangedGrows(parent: map<Jti, Jti>, new_: Jti, old_: Jti, j: Jti)
    requires new_ !in parent
    ensures Exchanged(parent[new_ := old_], j) <==> Exchanged(parent, j) || j == old_
  {
    var after := parent[new_ := old_];
    assert after[new_] == old_;
    if k :| k in parent && parent[k] == j {
      assert after[k] == j;
    }
  }

  lemma StoreKeepsUsed(s: State, c: Claims, from: Option<Jti>)
    requires RowsAsSigned(s) && Births(s) && Parents(s) && UsedIffExchanged(s) && Storable(s, c, from)
    ensures UsedIffExchanged(Store(s, c, from))
  {
    NewIsNew(s, c, from);
    StoreMeaning(s, c, from);
    hide Store, RowsAsSigned, Births, Parents, Exchanged, NewJti, NewFamily;
    var t := Store(s, c, from);
    forall j | j in t.rows
      ensures t.rows[j].used <==> Exchanged(t.parent, j)
    {
      if from.Some? {
        ExchangedGrows(s.parent, c.jti, from.value, j);
      }
    }
  }

  lemma StoreKeepsTable(s: State, c: Claims, from: Option<Jti>)
    requires TableInv(s) && Storable(s, c, from)
    ensures TableInv(Store(s, c, from))
  {
    assert from.Some? ==> from.value in s.rows;
    hide Store, Storable, RowsAsSigned, Births, Parents, Roots, UsedIffExchanged, OneUserPerFamily;
    StoreKeepsUser(s, c, from);
    NewIsNew(s, c, from);
    StoreKeepsBirths(s, c, from);
    StoreKeepsParents(s, c, from);
    StoreKeepsRoots(s, c, from);
    StoreKeepsUsed(s, c, from);
  }

  /** The same tokens, but for what is revoked and what else was signed. */
  predicate Alike(s: State, t: State) {
    && t.rows.Keys == s.rows.Keys && t.count == s.count && t.birth == s.birth && t.root == s.root && t.parent == s.parent
    && (forall j | j in s.rows ::
          t.rows[j].family == s.rows[j].family && t.rows[j].user == s.rows[j].user && t.rows[j].used == s.rows[j].used)
    && (forall j | j in s.signed :: j in t.signed && t.signed[j] == s.signed[j])
  }

  lemma AlikeKeepsUser(s: State, t: State)
    requires Alike(s, t) && RowsAsSigned(s) && OneUserPerFamily(s) && UsedIffExchanged(s)
    ensures RowsAsSigned(t) && OneUserPerFamily(t) && UsedIffExchanged(t)
  {
    assert forall j :: Exchanged(t.parent, j) <==> Exchanged(s.parent, j);
    assert RowsAsSigned(t) by {
      hide OneUserPerFamily, UsedIffExchanged;
    }
    assert OneUserPerFamily(t) by {
      hide RowsAsSigned, UsedIffExchanged;
    }
  }

  lemma AlikeKeepsRoots(s: State, t: State)
    requires Alike(s, t) && Roots(s)
    ensures Roots(t)
  {
    forall j | j in t.rows
      ensures Rooted(t, j)
    {
      assert Rooted(s, j);
      hide Roots;
    }
    hide Rooted;
    forall f | f in t.root
      ensures IsRoot(t, f)
    {
      assert IsRoot(s, f);
    }
  }

  lemma AlikeKeepsParents(s: State, t: State)
    requires Alike(s, t) && Births(s) && Parents(s)
    ensures Births(t) && Parents(t)
  {
    forall k | k in t.parent
      ensures HasParent(t, k)
    {
      assert HasParent(s, k);
    }
  }

  lemma AlikeKeepsTable(s: State, t: State)
    requires Alike(s, t) && TableInv(s)
    ensures TableInv(t)
  {
    hide Alike, RowsAsSigned, Births, Parents, Roots, UsedIffExchanged, OneUserPerFamily;
    AlikeKeepsUser(s, t);
    AlikeKeepsParents(s, t);
    AlikeKeepsRoots(s, t);
  }

  /** Nothing is forgotten: rows stay, with their family and user, and marks stay set. */
  predicate Later(s: State, t: State) {
    forall j | j in s.rows ::
      && j in t.rows && t.rows[j].family == s.rows[j].family && t.rows[j].user == s.rows[j].user
      && (s.rows[j].used ==> t.rows[j].used) && (s.rows[j].revoked ==> t.rows[j].revoked)
  }

  lemma StepIsLater(s: State, l: Label)
    requires Inv(s) && Step(s, l).Some?
    ensures Later(s, Step(s, l).value)
  {
    ChangeMeaning(s, l);
    match ChangeOf(s, l)
    case Nothing =>
    case New(c, from) =>
      NewIsNew(s, c, from);
      StoreMeaning(s, c, from);
    case Revoked(seen) =>
  }

  lemma PendingStaysOk(s: State, t: State, r: RequestId)
    requires r in s.pending && r in t.pending && t.pending[r] == s.pending[r] && PendingOk(s, r) && Later(s, t)
    requires forall j | j in s.signed :: j in t.signed && t.signed[j] == s.signed[j]
    ensures PendingOk(t, r)
  {
  }

  lemma StepKeepsPending(s: State, l: Label)
    requires Inv(s) && Step(s, l).Some?
    ensures var t := Step(s, l).value; forall r | r in t.pending :: PendingOk(t, r)
  {
    ChangeMeaning(s, l);
    StepIsLater(s, l);
    hide RowsAsSigned, Births, OneUserPerFamily, Parents, Roots, UsedIffExchanged, MarkUsed, MarkRevoked, Later, Alike;
    var t := Step(s, l).value;
    forall r | r in t.pending
      ensures PendingOk(t, r)
    {
      if r in s.pending && s.pending[r] == t.pending[r] {
        hide Step, ChangeOf;
        PendingStaysOk(s, t, r);
      } else {
        hide Store;
        NewPendingOk(s, l, r);
      }
    }
  }

  lemma NewPendingOk(s: State, l: Label, r: RequestId)
    requires RowsAsSigned(s) && Step(s, l).Some? && r in Step(s, l).value.pending
    requires r !in s.pending || s.pending[r] != Step(s, l).value.pending[r]
    ensures PendingOk(Step(s, l).value, r)
  {
    hide MarkUsed, MarkRevoked;
  }

  lemma StepKeepsTable(s: State, l: Label)
    requires Inv(s) && Step(s, l).Some?
    ensures TableInv(Step(s, l).value)
  {
    ChangeMeaning(s, l);
    hide Step, TableInv, MarkUsed, MarkRevoked, Store, Storable, Alike;
    var t := Step(s, l).value;
    match ChangeOf(s, l)
    case Nothing => AlikeKeepsTable(s, t);
    case New(c, from) =>
      StoreKeepsTable(s, c, from);
      AlikeKeepsTable(Store(s, c, from), t);
    case Revoked(seen) => AlikeKeepsTable(s, t);
  }

  lemma StepKeepsInv(s: State, l: Label)
    requires Inv(s) && Step(s, l).Some?
    ensures Inv(Step(s, l).value)
  {
    StepKeepsTable(s, l);
    StepKeepsPending(s, l);
  }
}
