/** The auth handlers as whole requests, one at a time: what each does to the token table, and the
    strong guarantees that hold as long as no two requests overlap. */
module Sessions {
  import opened Wrappers
  import opened Tokens
  import opened Families

  /** How the database fails a request, if it does. A refused write rolls its transaction back; after
      a lost reply the write stands, but the handler is told of an error. */
  datatype Fault = NoFault | ReadFails | WriteFails | ReplyLost {
    predicate Writes() {
      NoFault? || ReplyLost?
    }
  }

  /** `claims` is None when verification fails; `jti` is the id a new token would get. */
  datatype Request =
    | SignIn(first: Claims, fault: Fault)                          // register, or login with a right password
    | Refresh(claims: Option<Claims>, jti: Jti, fault: Fault)
    | SignOut(claims: Option<Claims>, fault: Fault)

  datatype Reply = Session(claims: Claims) | Unauthorized | Failed | NoContent

  /** Presented tokens were signed here, and new ids are new. */
  predicate Allowed(s: State, request: Request) {
    match request
    case SignIn(c, _) => NewJti(s, c.jti) && NewFamily(s, c.family)
    case Refresh(claims, jti, _) => NewJti(s, jti) && (claims.Some? ==> Verified(s, claims.value))
    case SignOut(claims, _) => claims.Some? ==> Verified(s, claims.value)
  }

  function Sign(s: State, c: Claims): State {
    s.(signed := s.signed[c.jti := c])
  }

  function RevokeAll(s: State, f: Family): State {
    s.(rows := MarkRevoked(s.rows, Members(s.rows, f)))
  }

  /** What a whole request does to the table, and what it answers. */
  function Serve(s: State, request: Request): (State, Reply) {
    match request
    case SignIn(c, fault) =>
      if fault.ReadFails? then (s, Failed)
      else if fault.WriteFails? then (Sign(s, c), Failed)
      else (Store(s, c, None), if fault.NoFault? then Session(c) else Failed)
    case Refresh(None, _, _) => (s, Unauthorized)
    case Refresh(Some(c), jti, fault) =>
      if fault.ReadFails? then (s, Failed)
      else if c.jti !in s.rows || s.rows[c.jti].revoked then (s, Unauthorized)
      else if s.rows[c.jti].used then
        if fault.WriteFails? then (s, Failed)
        else (RevokeAll(s, c.family), if fault.NoFault? then Unauthorized else Failed)
      else
        var next := Claims(jti, c.family, s.rows[c.jti].user);
        if fault.WriteFails? then (Sign(s, next), Failed)
        else (Store(s, next, Some(c.jti)), if fault.NoFault? then Session(next) else Failed)
    case SignOut(claims, fault) =>
      (if claims.Some? && fault.Writes() then RevokeAll(s, claims.value.family) else s, NoContent)
  }

  /** The table after serving some requests from the start; None if one of them was not allowed. */
  function ServeAll(s: State, requests: seq<Request>): Option<State> {
    if requests == [] then Some(s)
    else
      var before :- ServeAll(s, requests[..|requests| - 1]);
      if Allowed(before, requests[|requests| - 1]) then Some(Serve(before, requests[|requests| - 1]).0) else None
  }

  // ---- The handlers ----

  class TokenTable {
    var rows: map<Jti, Row>
    ghost var signed: map<Jti, Claims>
    ghost var count: nat
    ghost var birth: map<Jti, nat>
    ghost var root: map<Family, Jti>
    ghost var parent: map<Jti, Jti>

    ghost function View(): State
      reads this
    {
      State(rows, signed, count, birth, root, parent, map[])
    }

    ghost predicate Valid()
      reads this
    {
      RowsAsSigned(View())
    }

    constructor ()
      ensures View() == EMPTY && Valid()
    {
      rows, signed, count, birth, root, parent := map[], map[], 0, map[], map[], map[];
    }

    /** A row that is found is the one that the token of this id was signed with. */
    method GetRefresh(jti: Jti) returns (row: Option<Row>)
      requires Valid()
      ensures row.None? <==> jti !in rows
      ensures row.Some? ==> row.value == rows[jti]
      ensures row.Some? ==> Verified(View(), Claims(jti, row.value.family, row.value.user))
    {
      row := if jti in rows then Some(rows[jti]) else None;
    }

    /** INSERT: the primary key refuses a second row. */
    method StoreRefresh(jti: Jti, family: Family, user: UserId, fault: Fault) returns (ok: bool)
      modifies this`rows
      ensures ok == (fault.Writes() && jti !in old(rows))
      ensures rows == if ok then old(rows)[jti := Row(family, user, false, false)] else old(rows)
    {
      ok := fault.Writes() && jti !in rows;
      if ok {
        rows := rows[jti := Row(family, user, false, false)];
      }
    }

    /** UPDATE: one mark is set, on at most one row, and setting it again does nothing. */
    method MarkRefreshUsed(jti: Jti)
      modifies this`rows
      ensures rows.Keys == old(rows).Keys
      ensures forall j | j in rows ::
                && rows[j].used == (old(rows)[j].used || j == jti) && rows[j].revoked == old(rows)[j].revoked
                && rows[j].family == old(rows)[j].family && rows[j].user == old(rows)[j].user
      ensures MarkUsed(rows, jti) == rows
    {
      if jti in rows {
        rows := rows[jti := rows[jti].(used := true)];
      }
    }

    method RevokeFamily(family: Family)
      modifies this`rows
      ensures rows == MarkRevoked(old(rows), Members(old(rows), family))
    {
      rows := map j | j in rows :: if rows[j].family == family then rows[j].(revoked := true) else rows[j];
    }

    /** Sign a token and store it. */
    method IssueSession(user: UserId, family: Family, jti: Jti, fault: Fault) returns (issued: Option<Claims>)
      modifies this`rows, this`signed
      ensures signed == old(signed)[jti := Claims(jti, family, user)]
      ensures issued == if fault.Writes() && jti !in old(rows) then Some(Claims(jti, family, user)) else None
      ensures rows == if issued.Some? then old(rows)[jti := Row(family, user, false, false)] else old(rows)
    {
      var claims := Claims(jti, family, user);
      signed := signed[jti := claims];
      var ok := StoreRefresh(jti, family, user, fault);
      issued := if ok then Some(claims) else None;
    }

    /** Keep the history of a stored token. */
    ghost method Record(c: Claims, from: Option<Jti>)
      modifies this`count, this`birth, this`root, this`parent
      ensures count == old(count) + 1 && birth == old(birth)[c.jti := old(count)]
      ensures root == if from.Some? then old(root) else old(root)[c.family := c.jti]
      ensures parent == if from.Some? then old(parent)[c.jti := from.value] else old(parent)
    {
      birth := birth[c.jti := count];
      count := count + 1;
      if from.Some? {
        parent := parent[c.jti := from.value];
      } else {
        root := root[c.family := c.jti];
      }
    }

    method Login(user: UserId, family: Family, jti: Jti, fault: Fault) returns (reply: Reply)
      requires Valid() && Allowed(View(), SignIn(Claims(jti, family, user), fault))
      modifies this
      ensures Valid() && (View(), reply) == Serve(old(View()), SignIn(Claims(jti, family, user), fault))
      ensures reply == if fault.NoFault? then Session(Claims(jti, family, user)) else Failed
    {
      if fault.ReadFails? {
        return Failed;
      }
      var issued := IssueSession(user, family, jti, fault);
      if issued.None? {
        return Failed;
      }
      Record(issued.value, None);
      reply := if fault.ReplyLost? then Failed else Session(issued.value);
    }

    method RefreshSession(token: Option<Claims>, jti: Jti, fault: Fault) returns (reply: Reply)
      requires Valid() && Allowed(View(), Refresh(token, jti, fault))
      modifies this
      ensures Valid() && (View(), reply) == Serve(old(View()), Refresh(token, jti, fault))
    {
      if token.None? {
        return Unauthorized;
      }
      var claims := token.value;
      if fault.ReadFails? {
        return Failed;
      }
      var row := GetRefresh(claims.jti);
      if row.None? || row.value.revoked {
        return Unauthorized;
      }
      if row.value.used {
        if fault.WriteFails? {
          return Failed;
        }
        RevokeFamily(claims.family);
        return if fault.ReplyLost? then Failed else Unauthorized;
      }
      var begin := rows;
      MarkRefreshUsed(claims.jti);
      assert rows == MarkUsed(begin, claims.jti);
      var issued := IssueSession(row.value.user, claims.family, jti, fault);
      if issued.None? {
        rows := begin;
        return Failed;
      }
      Record(issued.value, Some(claims.jti));
      reply := if fault.ReplyLost? then Failed else Session(issued.value);
    }

    /** Always 204: a failed revocation is not reported. */
    method Logout(token: Option<Claims>, fault: Fault) returns (reply: Reply)
      requires Valid() && Allowed(View(), SignOut(token, fault))
      modifies this
      ensures Valid() && (View(), reply) == Serve(old(View()), SignOut(token, fault)) && reply == NoContent
    {
      if token.Some? && fault.Writes() {
        RevokeFamily(token.value.family);
      }
      reply := NoContent;
    }
  }

  // ---- Whole requests are runs of the machine ----

  function LabelsOf(s: State, request: Request): seq<Label> {
    match request
    case SignIn(c, fault) => if fault.ReadFails? then [] else if fault.WriteFails? then [OpenFails(c)] else [Open(c)]
    case Refresh(None, _, _) => []
    case Refresh(Some(c), jti, fault) =>
      if fault.ReadFails? || c.jti !in s.rows || s.rows[c.jti].revoked then []
      else if s.rows[c.jti].used then
        if fault.WriteFails? then [Read(0, c), Fail(0)] else [Read(0, c), Scan(0), Revoke(0)]
      else if fault.WriteFails? then [Read(0, c), FailSigned(0, jti)]
      else [Read(0, c), Rotate(0, c, jti)]
    case SignOut(claims, fault) =>
      if claims.None? then []
      else if fault.Writes() then [Logout(0, claims.value), Scan(0), Revoke(0)]
      else [Logout(0, claims.value), Fail(0)]
  }

  lemma RunTwo(s: State, a: Label, b: Label)
    requires Step(s, a).Some?
    ensures Run(s, [a, b]) == Step(Step(s, a).value, b)
  {
    assert [a, b][..1] == [a] && [a][..0] == [];
    assert Run(s, []) == Some(s) && Run(s, [a]) == Step(s, a);
  }

  lemma RunThree(s: State, a: Label, b: Label, c: Label)
    requires Step(s, a).Some? && Step(Step(s, a).value, b).Some?
    ensures Run(s, [a, b, c]) == Step(Step(Step(s, a).value, b).value, c)
  {
    RunTwo(s, a, b);
    assert [a, b, c][..2] == [a, b];
  }

  lemma RunOne(s: State, a: Label)
    ensures Run(s, [a]) == Step(s, a)
  {
    assert [a][..0] == [] && Run(s, []) == Some(s);
  }

  /** A revocation, from where its request has decided on it. */
  lemma RevocationRun(s: State, first: Label, f: Family)
    requires s.pending == map[] && Step(s, first) == Some(s.(pending := map[0 := Condemning(f)]))
    ensures Run(s, [first, Scan(0), Revoke(0)]) == Some(RevokeAll(s, f))
    ensures Run(s, [first, Fail(0)]) == Some(s)
  {
    var a := s.(pending := map[0 := Condemning(f)]);
    var b := s.(pending := map[0 := Revoking(f, Members(s.rows, f))]);
    assert a.pending[0 := Revoking(f, Members(s.rows, f))] == b.pending;
    assert a.pending - {0} == map[] && b.pending - {0} == map[];
    assert Step(a, Scan(0)) == Some(b) && Step(a, Fail(0)) == Some(s);
    RunTwo(s, first, Fail(0));
    RunThree(s, first, Scan(0), Revoke(0));
  }

  /** An exchange, from a row that was read unused and unrevoked. */
  lemma ExchangeRun(s: State, c: Claims, jti: Jti)
    requires s.pending == map[] && Verified(s, c) && NewJti(s, jti)
    requires c.jti in s.rows && !s.rows[c.jti].revoked && !s.rows[c.jti].used
    ensures var next := Claims(jti, c.family, s.rows[c.jti].user);
            Run(s, [Read(0, c), Rotate(0, c, jti)]) == Some(Store(s, next, Some(c.jti)))
  {
    var a := s.(pending := map[0 := Rotating(c, s.rows[c.jti].user)]);
    assert s.pending[0 := Rotating(c, s.rows[c.jti].user)] == a.pending;
    assert Step(s, Read(0, c)) == Some(a);
    assert a.pending - {0} == map[];
    RunTwo(s, Read(0, c), Rotate(0, c, jti));
    hide Run, MarkUsed;
  }

  /** The same, when the new token is signed but not stored. */
  lemma FailedExchangeRun(s: State, c: Claims, jti: Jti)
    requires s.pending == map[] && Verified(s, c) && NewJti(s, jti)
    requires c.jti in s.rows && !s.rows[c.jti].revoked && !s.rows[c.jti].used
    ensures Run(s, [Read(0, c), FailSigned(0, jti)]) == Some(Sign(s, Claims(jti, c.family, s.rows[c.jti].user)))
  {
    var a := s.(pending := map[0 := Rotating(c, s.rows[c.jti].user)]);
    assert s.pending[0 := Rotating(c, s.rows[c.jti].user)] == a.pending;
    assert Step(s, Read(0, c)) == Some(a);
    assert a.pending - {0} == map[];
    RunTwo(s, Read(0, c), FailSigned(0, jti));
    hide Run, MarkUsed, Store;
  }

  /** A whole request is one of the schedules of the machine, run without a break. */
  lemma WholeRequestIsARun(s: State, request: Request)
    requires s.pending == map[] && Allowed(s, request)
    ensures Run(s, LabelsOf(s, request)) == Some(Serve(s, request).0)
    ensures Serve(s, request).0.pending == map[]
  {
    match request
    case SignIn(c, fault) =>
      RunOne(s, Open(c));
      RunOne(s, OpenFails(c));
    case Refresh(claims, jti, fault) =>
      if claims.Some? && claims.value.jti in s.rows && !s.rows[claims.value.jti].revoked {
        var c := claims.value;
        if s.rows[c.jti].used {
          assert s.pending[0 := Condemning(c.family)] == map[0 := Condemning(c.family)];
          RevocationRun(s, Read(0, c), c.family);
        } else {
          ExchangeRun(s, c, jti);
          FailedExchangeRun(s, c, jti);
        }
      }
    case SignOut(claims, fault) =>
      if claims.Some? {
        var f := claims.value.family;
        assert s.pending[0 := Condemning(f)] == map[0 := Condemning(f)];
        RevocationRun(s, Logout(0, claims.value), f);
      }
  }

  lemma {:induction false} RunAppends(s: State, a: seq<Label>, b: seq<Label>)
    requires Run(s, a).Some?
    ensures Run(s, a + b) == Run(Run(s, a).value, b)
  {
    hide Step;
    if b == [] {
      assert a + b == a;
    } else {
      assert (a + b)[..|a + b| - 1] == a + b[..|b| - 1];
      RunAppends(s, a, b[..|b| - 1]);
    }
  }

  /** So whatever holds of every schedule holds of every sequence of whole requests. */
  lemma {:induction false} SerialIsReached(requests: seq<Request>, s: State) returns (schedule: seq<Label>)
    requires ServeAll(EMPTY, requests) == Some(s)
    ensures Reaches(schedule, s) && s.pending == map[]
  {
    hide Serve, Step, Allowed, LabelsOf;
    if requests == [] {
      schedule := [];
    } else {
      var before := ServeAll(EMPTY, requests[..|requests| - 1]).value;
      var earlier := SerialIsReached(requests[..|requests| - 1], before);
      var last := requests[|requests| - 1];
      WholeRequestIsARun(before, last);
      RunAppends(EMPTY, earlier, LabelsOf(before, last));
      schedule := earlier + LabelsOf(before, last);
    }
  }

  // ---- Strong guarantees ----

  /** Every family is a chain, revoked all of it or not at all. */
  predicate Orderly(s: State, f: Family) {
    Chained(s, f) && Uniform(s, f)
  }

  lemma RevokeAllMeaning(s: State, f: Family, g: Family)
    ensures Alike(s, RevokeAll(s, f)) && AllRevoked(RevokeAll(s, f), f)
    ensures g != f ==> (AllRevoked(RevokeAll(s, f), g) <==> AllRevoked(s, g))
    ensures g != f ==> (NoneRevoked(RevokeAll(s, f), g) <==> NoneRevoked(s, g))
    ensures Members(RevokeAll(s, f).rows, g) == Members(s.rows, g)
  {
  }

  lemma SignMeaning(s: State, c: Claims, g: Family)
    ensures (Chained(Sign(s, c), g) <==> Chained(s, g)) && (Uniform(Sign(s, c), g) <==> Uniform(s, g))
    ensures (Dead(Sign(s, c), g) <==> Dead(s, g)) && Members(Sign(s, c).rows, g) == Members(s.rows, g)
  {
  }

  lemma StoreIsOrderly(s: State, c: Claims, from: Option<Jti>, g: Family)
    requires TableInv(s) && Storable(s, c, from) && Orderly(s, g)
    requires from.Some? ==> !s.rows[from.value].used && !s.rows[from.value].revoked
    ensures Orderly(Store(s, c, from), g)
  {
    if from.Some? && c.family == g {
      StoreExtendsChain(s, c, from.value);
    } else {
      StoreKeepsOtherChains(s, c, from, g);
    }
    StorableMeaning(s, c, from);
    StoreRevoked(s, c, from, g);
    hide TableInv, Store, NewJti, NewFamily, Chained;
  }

  /** The one thing a request does to the table. */
  datatype Effect = Keep | Signing(claims: Claims) | Storing(claims: Claims, from: Option<Jti>) | RevokingAll(family: Family)

  function EffectOf(s: State, request: Request): Effect {
    match request
    case SignIn(c, fault) => if fault.ReadFails? then Keep else if fault.WriteFails? then Signing(c) else Storing(c, None)
    case Refresh(None, _, _) => Keep
    case Refresh(Some(c), jti, fault) =>
      if fault.ReadFails? || c.jti !in s.rows || s.rows[c.jti].revoked then Keep
      else if s.rows[c.jti].used then
        if fault.WriteFails? then Keep else RevokingAll(c.family)
      else
        var next := Claims(jti, c.family, s.rows[c.jti].user);
        if fault.WriteFails? then Signing(next) else Storing(next, Some(c.jti))
    case SignOut(claims, fault) =>
      if claims.Some? && fault.Writes() then RevokingAll(claims.value.family) else Keep
  }

  lemma ServeMeaning(s: State, request: Request)
    requires RowsAsSigned(s) && Allowed(s, request)
    ensures var t := Serve(s, request).0;
            match EffectOf(s, request)
            case Keep => t == s
            case Signing(c) => t == Sign(s, c)
            case Storing(c, from) =>
              && t == Store(s, c, from) && Storable(s, c, from)
              && (from.Some? ==> !s.rows[from.value].used && !s.rows[from.value].revoked)
            case RevokingAll(f) => t == RevokeAll(s, f)
  {
    hide Store, RevokeAll, Sign, RowsAsSigned;
    if request.Refresh? && request.claims.Some? && request.claims.value.jti in s.rows {
      PresentedIsStorable(s, request.claims.value, request.jti);
    }
  }

  lemma ServeIsOrderly(s: State, request: Request, g: Family)
    requires Inv(s) && Allowed(s, request) && Orderly(s, g)
    ensures Orderly(Serve(s, request).0, g)
  {
    ServeMeaning(s, request);
    hide Serve, EffectOf, Allowed, Storable, TableInv, Chained, Uniform, MarkRevoked, Store, Sign, RevokeAll;
    match EffectOf(s, request)
    case Keep =>
    case Signing(c) => SignMeaning(s, c, g);
    case Storing(c, from) => StoreIsOrderly(s, c, from, g);
    case RevokingAll(f) => RevokeAllIsOrderly(s, f, g);
  }

  lemma RevokeAllIsOrderly(s: State, f: Family, g: Family)
    requires Orderly(s, g)
    ensures Orderly(RevokeAll(s, f), g)
  {
    RevokeAllMeaning(s, f, g);
    hide RevokeAll, AllRevoked, NoneRevoked, Members;
    AlikeChained(s, RevokeAll(s, f), g);
  }

  lemma PresentedIsStorable(s: State, c: Claims, jti: Jti)
    requires RowsAsSigned(s) && Verified(s, c) && c.jti in s.rows && NewJti(s, jti)
    ensures Storable(s, Claims(jti, c.family, s.rows[c.jti].user), Some(c.jti))
    ensures s.rows[c.jti].family == c.family && s.rows[c.jti].user == c.user
  {
  }

  /** Whole requests, however many and whatever fails: every family is a chain and revoked as one. */
  lemma {:induction false} FamiliesStayOrderly(requests: seq<Request>, s: State, g: Family)
    requires ServeAll(EMPTY, requests) == Some(s)
    ensures Inv(s) && Orderly(s, g)
  {
    hide Serve, Allowed, Inv, TableInv, Run, Step, LabelsOf;
    var schedule := SerialIsReached(requests, s);
    ReachedInv(schedule, s);
    if requests != [] {
      var before := ServeAll(EMPTY, requests[..|requests| - 1]).value;
      FamiliesStayOrderly(requests[..|requests| - 1], before, g);
      ServeIsOrderly(before, requests[|requests| - 1], g);
    }
  }

  /** The newest token of its family, in a family not revoked. */
  predicate Exchangeable(s: State, j: Jti) {
    && j in s.rows && !s.rows[j].revoked && j in s.birth
    && forall k | k in Members(s.rows, s.rows[j].family) :: k in s.birth && s.birth[k] <= s.birth[j]
  }

  lemma ExchangeableIff(s: State, j: Jti)
    requires TableInv(s) && j in s.rows && Chained(s, s.rows[j].family)
    ensures Exchangeable(s, j) <==> !s.rows[j].used && !s.rows[j].revoked
  {
    MembersMeaning(s, s.rows[j].family);
    ChainedUnusedIsNewest(s, s.rows[j].family, j);
    hide RowsAsSigned, OneUserPerFamily, Parents, Roots, UsedIffExchanged, Chained, Members;
  }

  lemma NewIsExchangeable(s: State, c: Claims, from: Option<Jti>)
    requires TableInv(s) && Storable(s, c, from)
    ensures Exchangeable(Store(s, c, from), c.jti)
  {
    StorableMeaning(s, c, from);
    MembersMeaning(s, c.family);
    if from.Some? {
      assert from.value in s.rows;
    }
    hide RowsAsSigned, OneUserPerFamily, Parents, Roots, UsedIffExchanged, Members, Unused, Storable;
    var t := Store(s, c, from);
    StoreMeaning(s, c, from);
    StoreMembers(s, c, from, c.family);
    forall k | k in Members(t.rows, c.family)
      ensures k in t.birth && t.birth[k] <= t.birth[c.jti]
    {
      hide Store;
      if k != c.jti {
        assert k in s.birth && s.birth[k] < s.count;
      }
    }
    hide Store, Births;
  }

  lemma NewIsVerified(s: State, c: Claims, from: Option<Jti>)
    requires TableInv(s) && Storable(s, c, from)
    ensures Verified(Store(s, c, from), c) && Store(s, c, from).rows.Keys == s.rows.Keys + {c.jti}
  {
    NewIsNew(s, c, from);
    StoreMeaning(s, c, from);
    hide TableInv, Store, NewJti, NewFamily;
  }

  /** A refresh goes through exactly when it presents the newest token of an unrevoked family and no
      statement fails. It then continues that family for the same user, with a token that takes over
      as the newest, and answers with it unless the reply is lost; otherwise it issues nothing. */
  lemma RefreshSucceedsIff(requests: seq<Request>, s: State, token: Option<Claims>, jti: Jti, fault: Fault)
    requires ServeAll(EMPTY, requests) == Some(s) && Allowed(s, Refresh(token, jti, fault))
    ensures var (t, reply) := Serve(s, Refresh(token, jti, fault));
            var goes := token.Some? && fault.Writes() && Exchangeable(s, token.value.jti);
            && t.rows.Keys == s.rows.Keys + (if goes then {jti} else {})
            && (goes ==> Exchangeable(t, jti) && Verified(t, Claims(jti, token.value.family, token.value.user)))
            && (reply.Session? <==> goes && fault.NoFault?)
            && (reply.Session? ==> reply.claims == Claims(jti, token.value.family, token.value.user))
  {
    hide ServeAll, RowsAsSigned, Births, OneUserPerFamily, Parents, Roots, UsedIffExchanged, Chained, Uniform, PendingOk;
    hide MarkRevoked, Store, Storable, Members;
    if token.Some? && token.value.jti in s.rows {
      var c := token.value;
      FamiliesStayOrderly(requests, s, c.family);
      PresentedIsStorable(s, c, jti);
      RevokeAllMeaning(s, c.family, c.family);
      ExchangeableIff(s, c.jti);
      NewIsExchangeable(s, Claims(jti, c.family, s.rows[c.jti].user), Some(c.jti));
      NewIsVerified(s, Claims(jti, c.family, s.rows[c.jti].user), Some(c.jti));
      hide TableInv, Inv, Exchangeable, RevokeAll;
    }
  }

  /** A sign-in stores its own token, and only that one, exactly when its writes stand; the token then is
      all of its family, and exchangeable. It is answered with this token unless something failed. */
  lemma SignInSucceedsIff(requests: seq<Request>, s: State, c: Claims, fault: Fault)
    requires ServeAll(EMPTY, requests) == Some(s) && Allowed(s, SignIn(c, fault))
    ensures var (t, reply) := Serve(s, SignIn(c, fault));
            && t.rows.Keys == s.rows.Keys + (if fault.Writes() then {c.jti} else {})
            && (fault.Writes() ==> Exchangeable(t, c.jti) && Verified(t, c) && Members(t.rows, c.family) == {c.jti})
            && reply == (if fault.NoFault? then Session(c) else Failed)
  {
    FamiliesStayOrderly(requests, s, c.family);
    NewIsExchangeable(s, c, None);
    NewIsVerified(s, c, None);
    NewIsNew(s, c, None);
    StoreMeaning(s, c, None);
    hide ServeAll, TableInv, Store, Storable, Orderly;
  }

  /** Whoever is answered with a session can refresh it: the next exchange of its token is answered with
      a token of the same family and user. */
  lemma SessionBuysTheNext(requests: seq<Request>, s: State, request: Request, jti: Jti)
    requires ServeAll(EMPTY, requests) == Some(s) && Allowed(s, request) && Serve(s, request).1.Session?
    ensures var (t, reply) := Serve(s, request);
            && Verified(t, reply.claims) && ServeAll(EMPTY, requests + [request]) == Some(t)
            && (NewJti(t, jti) ==>
                  Serve(t, Refresh(Some(reply.claims), jti, NoFault)).1
                  == Session(Claims(jti, reply.claims.family, reply.claims.user)))
  {
    var (t, reply) := Serve(s, request);
    assert (requests + [request])[..|requests|] == requests;
    if request.SignIn? {
      SignInSucceedsIff(requests, s, request.first, request.fault);
    } else {
      RefreshSucceedsIff(requests, s, request.claims, request.jti, request.fault);
    }
    if NewJti(t, jti) {
      RefreshSucceedsIff(requests + [request], t, Some(reply.claims), jti, NoFault);
    }
    hide Serve, Exchangeable;
  }

  lemma RefreshAnswers(s: State, token: Option<Claims>, jti: Jti, fault: Fault)
    ensures var reply := Serve(s, Refresh(token, jti, fault)).1;
            && reply != NoContent
            && (reply == Unauthorized <==>
                  || token.None?
                  || (!fault.ReadFails? && (token.value.jti !in s.rows || s.rows[token.value.jti].revoked))
                  || (fault.NoFault? && s.rows[token.value.jti].used))
  {
    hide Store, RevokeAll, Sign;
  }

  /** How a refresh is refused: with 401 a token that does not verify or is not stored, one of a revoked
      family, and a replayed one, unless the database fails first. */
  lemma RefreshRefusedIff(requests: seq<Request>, s: State, token: Option<Claims>, jti: Jti, fault: Fault)
    requires ServeAll(EMPTY, requests) == Some(s) && Allowed(s, Refresh(token, jti, fault))
    ensures var reply := Serve(s, Refresh(token, jti, fault)).1;
            && reply != NoContent
            && (reply == Unauthorized <==>
                  || token.None?
                  || (!fault.ReadFails? && (token.value.jti !in s.rows || Dead(s, token.value.family)))
                  || (fault.NoFault? && !Exchangeable(s, token.value.jti)))
  {
    RefreshAnswers(s, token, jti, fault);
    hide Serve, ServeAll;
    if token.Some? && token.value.jti in s.rows {
      var c := token.value;
      FamiliesStayOrderly(requests, s, c.family);
      PresentedIsStorable(s, c, jti);
      assert c.jti in Members(s.rows, c.family);
      hide RowsAsSigned, Births, OneUserPerFamily, Parents, Roots, UsedIffExchanged, PendingOk;
      hide Exchangeable, Dead, Members, Storable, Chained, Uniform;
      ExchangeableIff(s, c.jti);
      RevokedIsDead(s, c.family, c.jti);
    }
  }

  /** This request exchanges token j. */
  predicate Exchanges(s: State, request: Request, j: Jti) {
    && request.Refresh? && request.claims.Some? && request.claims.value.jti == j
    && request.fault.Writes() && Exchangeable(s, j)
  }

  /** A used token of an unrevoked family is presented again, or the family is signed out. */
  predicate Condemns(s: State, request: Request, f: Family) {
    match request
    case SignIn(_, _) => false
    case Refresh(claims, _, fault) =>
      && claims.Some? && claims.value.family == f && fault.Writes()
      && claims.value.jti in s.rows && s.rows[claims.value.jti].used
    case SignOut(claims, fault) =>
      claims.Some? && claims.value.family == f && fault.Writes() && Members(s.rows, f) != {}
  }

  /** The request presents a token of this family for an exchange. */
  predicate Presents(request: Request, f: Family) {
    request.Refresh? && request.claims.Some? && request.claims.value.family == f
  }

  /** A family dies exactly of a replayed used token or a sign-out. Once dead it stays dead, gets no
      new token, and no token of it buys a session. */
  lemma FamilyDiesIff(requests: seq<Request>, s: State, request: Request, f: Family)
    requires ServeAll(EMPTY, requests) == Some(s) && Allowed(s, request)
    ensures Dead(Serve(s, request).0, f) <==> Dead(s, f) || Condemns(s, request, f)
    ensures Dead(s, f) ==> Members(Serve(s, request).0.rows, f) == Members(s.rows, f)
    ensures Dead(s, f) && Presents(request, f) ==> !Serve(s, request).1.Session?
  {
    FamiliesStayOrderly(requests, s, f);
    ServeMeaning(s, request);
    CondemnsMeaning(s, request, f);
    if Dead(s, f) && Presents(request, f) {
      DeadIsRefused(s, request, f);
    }
    hide Serve, ServeAll, EffectOf, Allowed, Storable, Condemns, TableInv, Chained, Uniform, Dead, Store, Sign, RevokeAll, Members;
    match EffectOf(s, request)
    case Keep =>
    case Signing(c) => SignMeaning(s, c, f);
    case Storing(c, from) => NewTokenInFamily(s, c, from, f);
    case RevokingAll(g) => RevokeAllInFamily(s, g, f);
  }

  lemma StoringFrom(s: State, request: Request, j: Jti)
    requires j in s.rows
    ensures (EffectOf(s, request).Storing? && EffectOf(s, request).from == Some(j)) <==>
              && request.Refresh? && request.claims.Some? && request.claims.value.jti == j
              && request.fault.Writes() && !s.rows[j].used && !s.rows[j].revoked
  {
  }

  lemma ExchangesMeaning(s: State, request: Request, j: Jti)
    requires TableInv(s) && j in s.rows && Chained(s, s.rows[j].family)
    ensures (EffectOf(s, request).Storing? && EffectOf(s, request).from == Some(j)) <==> Exchanges(s, request, j)
  {
    hide TableInv, Exchangeable, Chained, EffectOf;
    ExchangeableIff(s, j);
    StoringFrom(s, request, j);
  }

  lemma EffectOnRow(s: State, request: Request, j: Jti)
    requires RowsAsSigned(s) && Allowed(s, request) && j in s.rows
    ensures var t, effect := Serve(s, request).0, EffectOf(s, request);
            && j in t.rows && t.rows[j].family == s.rows[j].family && t.rows[j].user == s.rows[j].user
            && (t.rows[j].used <==> s.rows[j].used || (effect.Storing? && effect.from == Some(j)))
            && (t.rows[j].revoked <==> s.rows[j].revoked || effect == RevokingAll(s.rows[j].family))
  {
    ServeMeaning(s, request);
    hide Serve, EffectOf, Allowed;
    match EffectOf(s, request)
    case Storing(c, from) =>
      assert c.jti !in s.rows;
      StoreMeaning(s, c, from);
      hide Store;
    case _ =>
  }

  /** What a request does to a stored row: it becomes used exactly by being exchanged, and revoked exactly
      with its family; nothing else of it changes. */
  lemma RowAfter(requests: seq<Request>, s: State, request: Request, j: Jti)
    requires ServeAll(EMPTY, requests) == Some(s) && Allowed(s, request) && j in s.rows
    ensures var t := Serve(s, request).0;
            && j in t.rows && t.rows[j].family == s.rows[j].family && t.rows[j].user == s.rows[j].user
            && (t.rows[j].used <==> s.rows[j].used || Exchanges(s, request, j))
            && (t.rows[j].revoked <==> s.rows[j].revoked || Condemns(s, request, s.rows[j].family))
  {
    var f := s.rows[j].family;
    FamiliesStayOrderly(requests, s, f);
    assert j in Members(s.rows, f);
    hide Serve, ServeAll, Allowed, RowsAsSigned, Births, OneUserPerFamily, Parents, Roots, UsedIffExchanged, PendingOk;
    hide Exchanges, Dead, Condemns, Uniform, Chained, EffectOf, Members;
    EffectOnRow(s, request, j);
    CondemnsMeaning(s, request, f);
    RevokedIsDead(s, f, j);
    ExchangesMeaning(s, request, j);
  }

  lemma RevokedIsDead(s: State, f: Family, j: Jti)
    requires Uniform(s, f) && j in Members(s.rows, f)
    ensures s.rows[j].revoked <==> Dead(s, f)
  {
  }

  /** In an all-or-nothing family, condemning is revoking it all. */
  lemma CondemnsMeaning(s: State, request: Request, f: Family)
    requires RowsAsSigned(s) && Allowed(s, request) && Uniform(s, f)
    ensures EffectOf(s, request) == RevokingAll(f) && Members(s.rows, f) != {} ==> Dead(s, f) || Condemns(s, request, f)
    ensures Condemns(s, request, f) ==> Dead(s, f) || (EffectOf(s, request) == RevokingAll(f) && Members(s.rows, f) != {})
  {
    hide RowsAsSigned;
    MembersMeaning(s, f);
    match request
    case SignIn(_, _) =>
    case Refresh(claims, jti, _) =>
      if claims.Some? && claims.value.jti in s.rows {
        hide Members;
        PresentedIsStorable(s, claims.value, jti);
        if claims.value.family == f {
          assert claims.value.jti in Members(s.rows, f);
          RevokedIsDead(s, f, claims.value.jti);
          hide Uniform, Dead;
        }
      }
    case SignOut(_, _) =>
      hide Uniform, Dead, Members;
  }

  lemma DeadIsRefused(s: State, request: Request, f: Family)
    requires Inv(s) && Allowed(s, request) && Dead(s, f) && Presents(request, f)
    ensures !Serve(s, request).1.Session?
  {
    assert RowsAsSigned(s);
    hide TableInv;
    if request.claims.value.jti in s.rows {
      PresentedIsStorable(s, request.claims.value, request.jti);
    }
  }

  lemma NewTokenInFamily(s: State, c: Claims, from: Option<Jti>, f: Family)
    requires TableInv(s) && Storable(s, c, from) && (from.Some? ==> !s.rows[from.value].revoked)
    ensures Dead(Store(s, c, from), f) <==> Dead(s, f)
    ensures Dead(s, f) ==> Members(Store(s, c, from).rows, f) == Members(s.rows, f)
  {
    StorableMeaning(s, c, from);
    StoreRevoked(s, c, from, f);
    StoreMembers(s, c, from, f);
    hide TableInv, Store, NewJti, NewFamily;
  }

  lemma RevokeAllInFamily(s: State, g: Family, f: Family)
    ensures Members(RevokeAll(s, g).rows, f) == Members(s.rows, f)
    ensures Dead(RevokeAll(s, g), f) <==> if f == g then Members(s.rows, f) != {} else Dead(s, f)
  {
    RevokeAllMeaning(s, g, f);
    hide RevokeAll, AllRevoked, NoneRevoked, Members;
  }

  /** From then on: after any further requests the family is still dead, with the same tokens. */
  lemma {:induction false} DeadForever(requests: seq<Request>, more: seq<Request>, s: State, t: State, f: Family)
    requires ServeAll(EMPTY, requests) == Some(s) && Dead(s, f)
    requires ServeAll(EMPTY, requests + more) == Some(t)
    ensures Dead(t, f) && Members(t.rows, f) == Members(s.rows, f)
  {
    hide Serve, Dead, Members;
    if more == [] {
      assert requests + more == requests;
    } else {
      var last := more[|more| - 1];
      assert (requests + more)[..|requests + more| - 1] == requests + more[..|more| - 1];
      var before := ServeAll(EMPTY, requests + more[..|more| - 1]).value;
      DeadForever(requests, more[..|more| - 1], s, before, f);
      FamilyDiesIff(requests + more[..|more| - 1], before, last, f);
    }
  }

  /** A client whose refresh went through, but was answered with an error, loses its family by trying
      the same token again: the retry is a replay. */
  lemma RetryAfterLostReply(requests: seq<Request>, s: State, token: Claims, jti: Jti, again: Jti)
    requires ServeAll(EMPTY, requests) == Some(s) && Allowed(s, Refresh(Some(token), jti, ReplyLost))
    requires Exchangeable(s, token.jti)
    requires Allowed(Serve(s, Refresh(Some(token), jti, ReplyLost)).0, Refresh(Some(token), again, NoFault))
    ensures var lost := Serve(s, Refresh(Some(token), jti, ReplyLost));
            var retry := Serve(lost.0, Refresh(Some(token), again, NoFault));
            lost.1 == Failed && retry.1 == Unauthorized && Dead(retry.0, token.family)
  {
    hide Serve, Allowed, Inv, TableInv, Exchangeable, Orderly, Dead;
    var first := Refresh(Some(token), jti, ReplyLost);
    assert (requests + [first])[..|requests|] == requests;
    FirstIsUsed(requests, s, token, jti);
    ReplayKills(requests + [first], Serve(s, first).0, token, again);
  }

  lemma ReplayKills(requests: seq<Request>, s: State, token: Claims, jti: Jti)
    requires ServeAll(EMPTY, requests) == Some(s) && Allowed(s, Refresh(Some(token), jti, NoFault))
    requires token.jti in s.rows && s.rows[token.jti].used && !s.rows[token.jti].revoked
    ensures var retry := Serve(s, Refresh(Some(token), jti, NoFault)); retry.1 == Unauthorized && Dead(retry.0, token.family)
  {
    hide ServeAll, Store, RevokeAll, Dead;
    FamilyDiesIff(requests, s, Refresh(Some(token), jti, NoFault), token.family);
  }

  lemma FirstIsUsed(requests: seq<Request>, s: State, token: Claims, jti: Jti)
    requires ServeAll(EMPTY, requests) == Some(s) && Allowed(s, Refresh(Some(token), jti, ReplyLost))
    requires Exchangeable(s, token.jti)
    ensures var lost := Serve(s, Refresh(Some(token), jti, ReplyLost));
            && lost.1 == Failed && token.jti in lost.0.rows
            && lost.0.rows[token.jti].used && !lost.0.rows[token.jti].revoked
  {
    var first := Refresh(Some(token), jti, ReplyLost);
    hide Serve, ServeAll, TableInv, Allowed, Chained, Uniform, Dead;
    FamiliesStayOrderly(requests, s, s.rows[token.jti].family);
    RowAfter(requests, s, first, token.jti);
    RefreshSucceedsIff(requests, s, Some(token), jti, ReplyLost);
    RefreshRefusedIff(requests, s, Some(token), jti, ReplyLost);
    ExchangeableIff(s, token.jti);
    NewestIsAlive(requests, s, token, jti);
    hide Exchangeable;
  }

  lemma NewestIsAlive(requests: seq<Request>, s: State, token: Claims, jti: Jti)
    requires ServeAll(EMPTY, requests) == Some(s) && Allowed(s, Refresh(Some(token), jti, ReplyLost))
    requires Exchangeable(s, token.jti)
    ensures !Dead(s, token.family)
  {
    FamiliesStayOrderly(requests, s, token.family);
    PresentedIsStorable(s, token, jti);
    assert token.jti in Members(s.rows, token.family);
    hide ServeAll, TableInv, Inv, Orderly, Members;
  }
}
