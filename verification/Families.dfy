/** What rotation and revocation guarantee over every interleaving of requests, and exactly which
    steps break what a run of whole requests would keep. */
module Families {
  import opened Wrappers
  import opened Tokens

  ghost predicate Reaches(schedule: seq<Label>, s: State) {
    Run(EMPTY, schedule) == Some(s)
  }

  /** Used and revoked never go back to false, and a row keeps its family and its user. */
  lemma {:induction false} RunForgetsNothing(s: State, schedule: seq<Label>, t: State)
    requires Inv(s) && Run(s, schedule) == Some(t)
    ensures Inv(t) && Later(s, t)
  {
    hide Inv, Step;
    if schedule == [] {
      assert Later(s, s);
    } else {
      var before := Run(s, schedule[..|schedule| - 1]).value;
      RunForgetsNothing(s, schedule[..|schedule| - 1], before);
      StepKeepsInv(before, schedule[|schedule| - 1]);
      StepIsLater(before, schedule[|schedule| - 1]);
    }
  }

  lemma ReachedInv(schedule: seq<Label>, s: State)
    requires Reaches(schedule, s)
    ensures Inv(s)
  {
    assert Inv(EMPTY);
    RunForgetsNothing(EMPTY, schedule, s);
  }

  // ---- Trees ----

  /** Follow the exchanges back to where a token came from. */
  function Origin(s: State, j: Jti): Jti
    requires Births(s) && Parents(s) && j in s.rows
    decreases s.birth[j]
  {
    if j in s.parent then
      assert HasParent(s, j);
      Origin(s, s.parent[j])
    else j
  }

  lemma {:induction false} OriginIsRoot(s: State, j: Jti)
    requires Births(s) && Parents(s) && Roots(s) && j in s.rows
    ensures s.rows[j].family in s.root && Origin(s, j) == s.root[s.rows[j].family]
    decreases s.birth[j]
  {
    assert Rooted(s, j);
    if j in s.parent {
      assert HasParent(s, j);
      OriginIsRoot(s, s.parent[j]);
    }
  }

  /** The tokens of a family form one tree: whatever two of them, both descend from the same token,
      the one that was not issued for another, and both belong to the same user. */
  lemma FamilyIsATree(schedule: seq<Label>, s: State, a: Jti, b: Jti)
    requires Reaches(schedule, s)
    requires a in s.rows && b in s.rows && s.rows[a].family == s.rows[b].family
    ensures Births(s) && Parents(s)
    ensures Origin(s, a) == Origin(s, b) && Origin(s, a) in Members(s.rows, s.rows[a].family)
    ensures a !in s.parent <==> a == Origin(s, a)
    ensures s.rows[a].user == s.rows[b].user
    ensures s.rows[a].used <==> Exchanged(s.parent, a)
  {
    ReachedInv(schedule, s);
    OriginIsRoot(s, a);
    OriginIsRoot(s, b);
    hide Exchanged, Origin, RowsAsSigned, Parents, Births;
    assert Rooted(s, a) && IsRoot(s, s.rows[a].family);
  }

  // ---- Counting ----

  function Refreshes(schedule: seq<Label>, f: Family): nat {
    if schedule == [] then 0
    else
      var l := schedule[|schedule| - 1];
      Refreshes(schedule[..|schedule| - 1], f) + if l.Rotate? && l.claims.family == f then 1 else 0
  }

  /** The tokens of a family that a refresh would exchange, were the family not revoked. */
  function Unused(s: State, f: Family): set<Jti> {
    set j | j in s.rows && s.rows[j].family == f && !s.rows[j].used
  }

  function Member(c: Claims, f: Family): set<Jti> {
    if c.family == f then {c.jti} else {}
  }

  lemma StoreMembers(s: State, c: Claims, from: Option<Jti>, f: Family)
    requires c.jti !in s.rows && (from.Some? ==> from.value in s.rows)
    ensures Members(Store(s, c, from).rows, f) == Members(s.rows, f) + Member(c, f)
    ensures Unused(Store(s, c, from), f) == Unused(s, f) - (if from.Some? then {from.value} else {}) + Member(c, f)
  {
    StoreMeaning(s, c, from);
    hide Store;
  }

  lemma AlikeMembers(s: State, t: State, f: Family)
    requires Alike(s, t)
    ensures Members(t.rows, f) == Members(s.rows, f) && Unused(t, f) == Unused(s, f)
  {
  }

  lemma SameRowsMembers(s: State, t: State, f: Family)
    requires s.rows == t.rows
    ensures Members(t.rows, f) == Members(s.rows, f) && Unused(t, f) == Unused(s, f)
  {
  }

  lemma StorableMeaning(s: State, c: Claims, from: Option<Jti>)
    requires TableInv(s) && Storable(s, c, from)
    ensures c.jti !in s.rows
    ensures match from
            case None => Members(s.rows, c.family) == {}
            case Some(o) => o in Members(s.rows, c.family)
  {
    NewIsNew(s, c, from);
    hide RowsAsSigned, Births, OneUserPerFamily, Parents, Roots, UsedIffExchanged, NewJti, NewFamily;
  }

  /** A step adds at most one member to a family, and uses up at most one. */
  lemma StepMembers(s: State, l: Label, f: Family)
    requires Inv(s) && Step(s, l).Some?
    ensures var t := Step(s, l).value;
            match ChangeOf(s, l)
            case New(c, from) =>
              && c.jti !in s.rows
              && Members(t.rows, f) == Members(s.rows, f) + Member(c, f)
              && Unused(t, f) == Unused(s, f) - (if from.Some? then {from.value} else {}) + Member(c, f)
              && (if from.None? then Members(s.rows, c.family) == {} else from.value in Members(s.rows, c.family))
            case _ => Members(t.rows, f) == Members(s.rows, f) && Unused(t, f) == Unused(s, f)
  {
    ChangeMeaning(s, l);
    hide Step, TableInv, Members, Unused, Member, Store, Storable, Alike;
    var t := Step(s, l).value;
    match ChangeOf(s, l)
    case New(c, from) =>
      StorableMeaning(s, c, from);
      if from.Some? {
        assert from.value in s.rows by { MembersMeaning(s, c.family); }
      }
      StoreMembers(s, c, from, f);
      SameRowsMembers(Store(s, c, from), t, f);
    case _ =>
      AlikeMembers(s, t, f);
  }

  /** A family in use has exactly one token more than successful refreshes. */
  lemma {:induction false} OneTokenPerRefresh(schedule: seq<Label>, s: State, f: Family)
    requires Reaches(schedule, s)
    ensures |Members(s.rows, f)| == Refreshes(schedule, f) + if Members(s.rows, f) == {} then 0 else 1
  {
    if schedule != [] {
      hide Step, Members, Unused, Inv, ChangeOf;
      var l := schedule[|schedule| - 1];
      var before := Run(EMPTY, schedule[..|schedule| - 1]).value;
      ReachedInv(schedule[..|schedule| - 1], before);
      OneTokenPerRefresh(schedule[..|schedule| - 1], before, f);
      StepMembers(before, l, f);
      MembersMeaning(before, f);
      RotatesFrom(before, l);
    }
  }

  lemma MembersMeaning(s: State, f: Family)
    ensures forall j :: j in Members(s.rows, f) <==> j in s.rows && s.rows[j].family == f
  {
  }

  /** The last step exchanged a token of this family that was used already. */
  predicate Forks(s: State, l: Label, f: Family) {
    l.Rotate? && l.claims.family == f && l.claims.jti in s.rows && s.rows[l.claims.jti].used
  }

  function ForkCount(s: State, schedule: seq<Label>, f: Family): nat {
    if schedule == [] then 0
    else
      var earlier := schedule[..|schedule| - 1];
      var before := Run(s, earlier);
      ForkCount(s, earlier, f) + if before.Some? && Forks(before.value, schedule[|schedule| - 1], f) then 1 else 0
  }

  lemma SwapCount(u: set<Jti>, old_: Jti, new_: Jti)
    requires new_ !in u
    ensures |u - {old_} + {new_}| == |u| + if old_ in u then 0 else 1
  {
    if old_ !in u {
      assert u - {old_} == u;
    }
  }

  lemma FirstCount(u: set<Jti>, new_: Jti)
    requires u == {}
    ensures |u - {} + {new_}| == 1
  {
  }

  lemma SameCount(u: set<Jti>, old_: set<Jti>)
    requires u !! old_
    ensures u - old_ + {} == u
  {
  }

  /** A first token opens a family with one unused token; an exchange swaps one for another, unless
      it forks. */
  lemma StoreCountsForks(s: State, c: Claims, from: Option<Jti>, f: Family)
    requires TableInv(s) && Storable(s, c, from)
    ensures var unused := Unused(Store(s, c, from), f);
            if c.family != f then unused == Unused(s, f)
            else if from.None? then |unused| == 1
            else |unused| == |Unused(s, f)| + if s.rows[from.value].used then 1 else 0
  {
    hide TableInv, Members, Unused, Store;
    StorableMeaning(s, c, from);
    UnusedIsMember(s, f);
    MembersMeaning(s, c.family);
    StoreMembers(s, c, from, f);
    hide Storable;
    if c.family != f {
      MembersMeaning(s, f);
      SameCount(Unused(s, f), if from.Some? then {from.value} else {});
    } else if from.None? {
      FirstCount(Unused(s, f), c.jti);
    } else {
      SwapCount(Unused(s, f), from.value, c.jti);
    }
  }

  lemma StepCountsForks(s: State, l: Label, f: Family)
    requires Inv(s) && Step(s, l).Some?
    ensures var t := Step(s, l).value;
            if Members(s.rows, f) == {} then
              !Forks(s, l, f) && |Unused(t, f)| == if Members(t.rows, f) == {} then 0 else 1
            else
              Members(t.rows, f) != {} && |Unused(t, f)| == |Unused(s, f)| + if Forks(s, l, f) then 1 else 0
  {
    ChangeMeaning(s, l);
    StepMembers(s, l, f);
    RotatesFrom(s, l);
    UnusedIsMember(s, f);
    MembersMeaning(s, f);
    hide Step, TableInv, Inv, Members, Unused, Store, Storable, Alike;
    match ChangeOf(s, l)
    case New(c, from) =>
      StoreCountsForks(s, c, from, f);
      SameRowsMembers(Store(s, c, from), Step(s, l).value, f);
    case _ =>
      hide ChangeOf;
  }

  /** Exactly the exchanges of a token that was used already by the time they commit multiply the
      tokens a family can go on with: without one it has a single unused token. */
  lemma {:induction false} UnusedCountsForks(schedule: seq<Label>, s: State, f: Family)
    requires Reaches(schedule, s)
    ensures |Unused(s, f)| == if Members(s.rows, f) == {} then 0 else 1 + ForkCount(EMPTY, schedule, f)
    ensures Members(s.rows, f) == {} ==> ForkCount(EMPTY, schedule, f) == 0
  {
    if schedule != [] {
      hide Step, Inv, Members, Unused, Forks;
      var earlier := schedule[..|schedule| - 1];
      var before := Run(EMPTY, earlier).value;
      ReachedInv(earlier, before);
      UnusedCountsForks(earlier, before, f);
      StepCountsForks(before, schedule[|schedule| - 1], f);
    }
  }

  lemma UnusedIsMember(s: State, f: Family)
    ensures Unused(s, f) <= Members(s.rows, f)
    ensures forall j | j in Members(s.rows, f) :: j in Unused(s, f) <==> !s.rows[j].used
  {
  }

  lemma RotatesFrom(s: State, l: Label)
    requires Step(s, l).Some?
    ensures l.Rotate? <==> ChangeOf(s, l).New? && ChangeOf(s, l).from.Some?
    ensures l.Rotate? ==> ChangeOf(s, l).from == Some(l.claims.jti) && ChangeOf(s, l).claims.family == l.claims.family
  {
  }

  // ---- Chains ----

  /** Every token of the family but the newest is used. */
  predicate Chained(s: State, f: Family) {
    forall a, b | a in s.rows && b in s.rows && s.rows[a].family == f && s.rows[b].family == f
                  && a in s.birth && b in s.birth && s.birth[a] < s.birth[b] :: s.rows[a].used
  }

  /** Some token is unused, as late as any other. */
  lemma {:induction false} SomeUnusedAfter(s: State, j: Jti) returns (k: Jti)
    requires TableInv(s) && j in s.rows
    ensures k in Unused(s, s.rows[j].family) && k in s.birth && s.birth[j] <= s.birth[k]
    decreases s.count - s.birth[j]
  {
    if s.rows[j].used {
      assert Exchanged(s.parent, j);
      var child :| child in s.parent && s.parent[child] == j;
      assert HasParent(s, child);
      k := SomeUnusedAfter(s, child);
    } else {
      k := j;
    }
  }

  /** In a chained family a token is unused exactly when it is the newest. */
  lemma ChainedUnusedIsNewest(s: State, f: Family, j: Jti)
    requires TableInv(s) && Chained(s, f) && j in Members(s.rows, f)
    ensures !s.rows[j].used <==> forall k | k in Members(s.rows, f) :: k in s.birth && s.birth[k] <= s.birth[j]
  {
    var k := SomeUnusedAfter(s, j);
    ChainedBefore(s, f, k);
    hide RowsAsSigned, OneUserPerFamily, Parents, Roots, UsedIffExchanged, Chained;
  }

  /** Before an unused token there are only used ones, and after it none. */
  lemma ChainedBefore(s: State, f: Family, j: Jti)
    requires Births(s) && Chained(s, f) && j in Members(s.rows, f) && !s.rows[j].used
    ensures forall i | i in Members(s.rows, f) :: i in s.birth && s.birth[i] <= s.birth[j] && (i != j ==> s.rows[i].used)
  {
  }

  /** An exchange of a used token leaves two unused ones. */
  lemma StoreForksChain(s: State, c: Claims, o: Jti)
    requires TableInv(s) && Storable(s, c, Some(o)) && s.rows[o].used
    ensures !Chained(Store(s, c, Some(o)), c.family)
  {
    NewIsNew(s, c, Some(o));
    StoreMeaning(s, c, Some(o));
    var t := Store(s, c, Some(o));
    var k := SomeUnusedAfter(s, o);
    hide Store, RowsAsSigned, OneUserPerFamily, Parents, Roots, UsedIffExchanged, NewJti, NewFamily, Exchanged;
    assert k in t.rows && t.rows[k].family == c.family && !t.rows[k].used;
    assert k in t.birth && t.birth[k] < t.birth[c.jti];
  }

  lemma OlderIsUsed(s: State, c: Claims, o: Jti, a: Jti, b: Jti)
    requires c.jti !in s.rows && o in s.rows && Births(s)
    requires forall i | i in Members(s.rows, c.family) :: i != o ==> s.rows[i].used
    requires var t := Store(s, c, Some(o));
             && a in t.rows && t.rows[a].family == c.family
             && a in t.birth && b in t.birth && t.birth[a] < t.birth[b]
    ensures Store(s, c, Some(o)).rows[a].used
  {
    StoreMeaning(s, c, Some(o));
    hide Store;
    assert b != c.jti ==> s.birth[b] < s.count;
    hide Births;
    assert a != c.jti;
    assert a in Members(s.rows, c.family);
  }

  /** An exchange of the unused token makes the chain one longer. */
  lemma StoreExtendsChain(s: State, c: Claims, o: Jti)
    requires TableInv(s) && Storable(s, c, Some(o)) && Chained(s, c.family) && !s.rows[o].used
    ensures Chained(Store(s, c, Some(o)), c.family)
  {
    NewIsNew(s, c, Some(o));
    ChainedBefore(s, c.family, o);
    var t := Store(s, c, Some(o));
    hide Store, RowsAsSigned, OneUserPerFamily, Parents, Roots, UsedIffExchanged, NewJti, NewFamily, Exchanged, Births;
    forall a, b | a in t.rows && b in t.rows && t.rows[a].family == c.family && t.rows[b].family == c.family
                  && a in t.birth && b in t.birth && t.birth[a] < t.birth[b]
      ensures t.rows[a].used
    {
      hide Chained;
      OlderIsUsed(s, c, o, a, b);
    }
  }

  lemma StoreKeepsOtherChains(s: State, c: Claims, from: Option<Jti>, f: Family)
    requires TableInv(s) && Storable(s, c, from) && Chained(s, f) && (from.None? || c.family != f)
    ensures Chained(Store(s, c, from), f)
  {
    NewIsNew(s, c, from);
    StoreMeaning(s, c, from);
    hide Store, RowsAsSigned, Births, OneUserPerFamily, Parents, Roots, UsedIffExchanged, NewJti, NewFamily, Exchanged;
  }

  lemma AlikeChained(s: State, t: State, f: Family)
    requires Alike(s, t) && Chained(s, f)
    ensures Chained(t, f)
  {
  }

  lemma SameTableChained(s: State, t: State, f: Family)
    requires s.rows == t.rows && Alike(s, t)
    ensures Chained(s, f) <==> Chained(t, f)
  {
  }

  /** A step breaks the chain of a family exactly when it forks it: when it exchanges a token that
      another request exchanged since this one read the row. */
  lemma StepKeepsChainIff(s: State, l: Label, f: Family)
    requires Inv(s) && Step(s, l).Some? && Chained(s, f)
    ensures Chained(Step(s, l).value, f) <==> !Forks(s, l, f)
  {
    ChangeMeaning(s, l);
    RotatesFrom(s, l);
    hide Step, TableInv, Chained, Store, Alike;
    var t := Step(s, l).value;
    match ChangeOf(s, l)
    case New(c, from) =>
      if from.Some? && c.family == f {
        if s.rows[from.value].used {
          StoreForksChain(s, c, from.value);
        } else {
          StoreExtendsChain(s, c, from.value);
        }
      } else {
        StoreKeepsOtherChains(s, c, from, f);
      }
      SameTableChained(Store(s, c, from), t, f);
    case _ =>
      AlikeChained(s, t, f);
  }

  // ---- Revocation ----

  predicate AllRevoked(s: State, f: Family) {
    forall j | j in s.rows && s.rows[j].family == f :: s.rows[j].revoked
  }

  predicate NoneRevoked(s: State, f: Family) {
    forall j | j in s.rows && s.rows[j].family == f :: !s.rows[j].revoked
  }

  /** Revocation is all or nothing. */
  predicate Uniform(s: State, f: Family) {
    AllRevoked(s, f) || NoneRevoked(s, f)
  }

  /** The family exists and is revoked, every token of it. */
  predicate Dead(s: State, f: Family) {
    Members(s.rows, f) != {} && AllRevoked(s, f)
  }

  /** Stores a new token in this family for an old one. */
  predicate Renews(l: Label, f: Family) {
    l.Rotate? && l.claims.family == f
  }

  lemma StoreRevoked(s: State, c: Claims, from: Option<Jti>, f: Family)
    requires c.jti !in s.rows && (from.Some? ==> from.value in s.rows)
    ensures AllRevoked(Store(s, c, from), f) <==> AllRevoked(s, f) && c.family != f
    ensures NoneRevoked(Store(s, c, from), f) <==> NoneRevoked(s, f)
  {
    StoreMeaning(s, c, from);
    hide Store;
    var t := Store(s, c, from);
    assert c.jti in t.rows && t.rows[c.jti].family == c.family && !t.rows[c.jti].revoked;
    assert forall j | j in s.rows :: t.rows[j].family == s.rows[j].family && t.rows[j].revoked == s.rows[j].revoked;
  }

  lemma SameRowsRevoked(s: State, t: State, f: Family)
    requires s.rows == t.rows
    ensures (AllRevoked(s, f) <==> AllRevoked(t, f)) && (NoneRevoked(s, f) <==> NoneRevoked(t, f))
  {
  }

  /** What a step does to a family's marks. */
  lemma StepRevoked(s: State, l: Label, f: Family)
    requires Inv(s) && Step(s, l).Some?
    ensures var t := Step(s, l).value;
            match ChangeOf(s, l)
            case Nothing =>
              (AllRevoked(t, f) <==> AllRevoked(s, f)) && (NoneRevoked(t, f) <==> NoneRevoked(s, f))
            case New(c, from) =>
              (AllRevoked(t, f) <==> AllRevoked(s, f) && c.family != f) && (NoneRevoked(t, f) <==> NoneRevoked(s, f))
            case Revoked(seen) =>
              && (AllRevoked(t, f) <==> forall j | j in Members(s.rows, f) - seen :: s.rows[j].revoked)
              && (NoneRevoked(t, f) <==> NoneRevoked(s, f) && Members(s.rows, f) !! seen)
  {
    ChangeMeaning(s, l);
    var t := Step(s, l).value;
    match ChangeOf(s, l)
    case New(c, from) =>
      StorableMeaning(s, c, from);
      MembersMeaning(s, c.family);
      hide Step, TableInv, Store, Storable, Alike, AllRevoked, NoneRevoked, Members;
      StoreRevoked(s, c, from, f);
      SameRowsRevoked(Store(s, c, from), t, f);
    case Nothing =>
      hide Step, TableInv, Alike, AllRevoked, NoneRevoked;
      SameRowsRevoked(s, t, f);
    case Revoked(seen) =>
      hide Step, TableInv;
  }

  /** A revoked family stays revoked, except for a refresh that read its row before and commits now. */
  lemma StepKeepsDeadIff(s: State, l: Label, f: Family)
    requires Inv(s) && Step(s, l).Some? && Dead(s, f)
    ensures Dead(Step(s, l).value, f) <==> !Renews(l, f)
  {
    RotatesFrom(s, l);
    StepMembers(s, l, f);
    StepRevoked(s, l, f);
    MembersMeaning(s, f);
    hide Step, Inv, ChangeOf, Members, Unused;
  }

  /** A revocation that commits revokes its whole family exactly when it saw every token of it that
      was not revoked already: when no refresh of the family committed since its statement began. */
  lemma RevokeKillsIff(s: State, r: RequestId)
    requires Inv(s) && Step(s, Revoke(r)).Some? && Members(s.rows, s.pending[r].family) != {}
    ensures var f, seen := s.pending[r].family, s.pending[r].seen;
            Dead(Step(s, Revoke(r)).value, f) <==> forall j | j in Members(s.rows, f) - seen :: s.rows[j].revoked
  {
    StepMembers(s, Revoke(r), s.pending[r].family);
    StepRevoked(s, Revoke(r), s.pending[r].family);
    hide Inv, Members, Unused;
  }

  /** All-or-nothing revocation breaks exactly when a refresh commits for a row revoked since it was
      read, or a revocation commits that saw some token of a family but not a newer one. */
  lemma StepKeepsUniformIff(s: State, l: Label, f: Family)
    requires Inv(s) && Step(s, l).Some? && Uniform(s, f)
    ensures Uniform(Step(s, l).value, f) <==>
            match l
            case Rotate(_, c, _) => c.family != f || !s.rows[c.jti].revoked
            case Revoke(r) =>
              || s.pending[r].family != f || AllRevoked(s, f)
              || s.pending[r].seen == {} || s.pending[r].seen == Members(s.rows, f)
            case _ => true
  {
    if l.Revoke? {
      RevokeKeepsUniformIff(s, l.r, f);
    } else {
      StepRevoked(s, l, f);
      StepMembers(s, l, f);
      MembersMeaning(s, f);
      RotatesFrom(s, l);
      assert ChangeOf(s, l).Revoked? ==> l.Revoke?;
      hide Step, Inv, ChangeOf, Members, Unused;
    }
  }

  lemma RevokeKeepsUniformIff(s: State, r: RequestId, f: Family)
    requires Inv(s) && Step(s, Revoke(r)).Some? && Uniform(s, f)
    ensures Uniform(Step(s, Revoke(r)).value, f) <==>
            || s.pending[r].family != f || AllRevoked(s, f)
            || s.pending[r].seen == {} || s.pending[r].seen == Members(s.rows, f)
  {
    hide TableInv, Members, AllRevoked, NoneRevoked;
    StepRevoked(s, Revoke(r), f);
    var seen, g := s.pending[r].seen, s.pending[r].family;
    assert PendingOk(s, r);
    MembersMeaning(s, f);
    MembersMeaning(s, g);
    var t := Step(s, Revoke(r)).value;
    assert AllRevoked(t, f) <==> forall j | j in Members(s.rows, f) - seen :: s.rows[j].revoked;
    assert NoneRevoked(t, f) <==> NoneRevoked(s, f) && Members(s.rows, f) !! seen;
    hide Step, Inv;
    if g != f {
      assert Members(s.rows, f) - seen == Members(s.rows, f);
    }
    AllRevokedMembers(s, f);
    if NoneRevoked(s, f) {
      RevokedAllIff(s, f, seen);
    }
  }

  lemma AllRevokedMembers(s: State, f: Family)
    ensures AllRevoked(s, f) <==> forall j | j in Members(s.rows, f) :: s.rows[j].revoked
  {
  }

  lemma RevokedAllIff(s: State, f: Family, seen: set<Jti>)
    requires NoneRevoked(s, f)
    ensures (forall j | j in Members(s.rows, f) - seen :: s.rows[j].revoked) <==> Members(s.rows, f) <= seen
  {
  }

  // ---- Overlapping requests ----

  lemma RunSnoc(s: State, a: seq<Label>, l: Label)
    requires Run(s, a).Some?
    ensures Run(s, a + [l]) == Step(Run(s, a).value, l)
  {
    hide Step;
    assert (a + [l])[..|a|] == a;
  }

  /** Sign in, then a refresh reads the row. */
  lemma ReadFirst(c: Claims)
    ensures var end := Run(EMPTY, [Open(c), Read(0, c)]);
            && end.Some? && end.value.rows == map[c.jti := Row(c.family, c.user, false, false)]
            && end.value.signed == map[c.jti := c]
            && end.value.pending == map[0 := Rotating(c, c.user)]
  {
    RunSnoc(EMPTY, [], Open(c));
    RunSnoc(EMPTY, [Open(c)], Read(0, c));
    assert [] + [Open(c)] == [Open(c)];
    assert [Open(c)] + [Read(0, c)] == [Open(c), Read(0, c)];
    hide Run;
  }

  /** Two refreshes that both read the row before either commits: the family goes on twice. */
  lemma OverlappingRefreshesFork()
    ensures var c := Claims(1, 7, 3);
            var end := Run(EMPTY, [Open(c), Read(0, c)] + [Read(1, c)] + [Rotate(0, c, 2)] + [Rotate(1, c, 3)]);
            end.Some? && Unused(end.value, 7) == {2, 3}
  {
    hide Run;
    var c := Claims(1, 7, 3);
    ReadFirst(c);
    var start := [Open(c), Read(0, c)];
    RunSnoc(EMPTY, start, Read(1, c));
    RunSnoc(EMPTY, start + [Read(1, c)], Rotate(0, c, 2));
    RunSnoc(EMPTY, start + [Read(1, c)] + [Rotate(0, c, 2)], Rotate(1, c, 3));
  }

  /** A refresh that read the row before a sign-out, and commits after it, keeps the family alive. */
  lemma OverlappingRefreshOutlivesLogout()
    ensures var c := Claims(1, 7, 3);
            var end := Run(EMPTY, [Open(c), Read(0, c)] + [Logout(1, c)] + [Scan(1)] + [Revoke(1)] + [Rotate(0, c, 2)]);
            && end.Some? && 1 in end.value.rows && end.value.rows[1].revoked
            && 2 in end.value.rows && end.value.rows[2] == Row(7, 3, false, false)
  {
    hide Run;
    var c := Claims(1, 7, 3);
    ReadFirst(c);
    var start := [Open(c), Read(0, c)];
    RunSnoc(EMPTY, start, Logout(1, c));
    RunSnoc(EMPTY, start + [Logout(1, c)], Scan(1));
    RunSnoc(EMPTY, start + [Logout(1, c)] + [Scan(1)], Revoke(1));
    RunSnoc(EMPTY, start + [Logout(1, c)] + [Scan(1)] + [Revoke(1)], Rotate(0, c, 2));
  }
}
