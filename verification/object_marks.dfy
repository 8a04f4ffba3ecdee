/** What the operations leave in each row, and who may bring that about, told field by field
    (dao/dao.DeleteObject.go, dao/dao.ExpungeObject.go, dao/dao.UndeleteObject.go). */
module ObjectMarks {
  import opened ObjectRows
  import opened ObjectCascade
  import opened ObjectRestore
  import opened ObjectLaws

  /** In the trash, with an ancestor or by itself, expunged if it was or is now, and otherwise as before. */
  predicate InTrash(before: Row, after: Row, withAncestor: bool, expunges: bool) {
    && after.isDeleted
    && after.isAncestorDeleted == withAncestor
    && after.isExpunged == (before.isExpunged || expunges)
    && after.parent == before.parent
    && after.permissions == before.permissions
    && after.changeCount == before.changeCount + 1
  }

  /** A cascade leaves the object asked for in the trash, whatever else it does. */
  lemma RootIsMarked(order: seq<Id>, t: Table, t': Table, kind: Kind, r: Id, explicit: bool, user: User)
    requires Cascaded(order, t, t', kind, r, explicit, user)
    ensures r in t && r in t' && InTrash(t[r], t'[r], !explicit, kind.Expunge?)
  {
    assert r in Touched(t, t');
  }

  /** Every other object is as it was, or was live and is in the trash with its ancestor. */
  lemma OthersAreMarked(order: seq<Id>, t: Table, t': Table, kind: Kind, r: Id, explicit: bool, user: User, x: Id)
    requires Cascaded(order, t, t', kind, r, explicit, user) && x in t && x != r
    ensures x in t'
    ensures t'[x] == t[x] || (!t[x].isDeleted && InTrash(t[x], t'[x], true, kind.Expunge?))
  {
    if t'[x] != t[x] {
      assert x in Touched(t, t');
    }
  }

  // ----- Who may delete -----

  predicate SameLetter(a: char, b: char) {
    || a == b
    || ('A' <= a <= 'Z' && b as int == a as int + 32)
    || ('A' <= b <= 'Z' && a as int == b as int + 32)
  }

  /** The same but for capitals. */
  predicate SameName(a: string, b: string) {
    |a| == |b| && forall i :: 0 <= i < |a| ==> SameLetter(a[i], b[i])
  }

  lemma LowerMeansSame(a: string, b: string)
    ensures ToLower(a) == ToLower(b) <==> SameName(a, b)
  {
    if ToLower(a) == ToLower(b) {
      assert |ToLower(a)| == |a| && |ToLower(b)| == |b|;
      forall i | 0 <= i < |a|
        ensures SameLetter(a[i], b[i])
      {
        assert ToLower(a)[i] == ToLower(b)[i];
      }
    }
  }

  /** Some permission of the object that is not deleted allows one of the user's shares to delete. */
  predicate Allowed(user: User, row: Row) {
    exists i, j :: 0 <= i < |row.permissions| && 0 <= j < |user.shares|
      && !row.permissions[i].isDeleted && row.permissions[i].allowDelete
      && SameName(user.shares[j], row.permissions[i].grantee)
  }

  lemma AllowedIs(user: User, row: Row)
    ensures MayDelete(user, row) <==> Allowed(user, row)
  {
    if MayDelete(user, row) {
      var p :| p in row.permissions && !p.isDeleted && p.allowDelete && IsUserMemberOf(user, p.grantee);
      var v :| v in user.shares && ToLower(v) == ToLower(p.grantee);
      LowerMeansSame(v, p.grantee);
      var i :| 0 <= i < |row.permissions| && row.permissions[i] == p;
      var j :| 0 <= j < |user.shares| && user.shares[j] == v;
      assert SameName(user.shares[j], row.permissions[i].grantee);
    }
    if Allowed(user, row) {
      var i, j :| 0 <= i < |row.permissions| && 0 <= j < |user.shares|
        && !row.permissions[i].isDeleted && row.permissions[i].allowDelete
        && SameName(user.shares[j], row.permissions[i].grantee);
      LowerMeansSame(user.shares[j], row.permissions[i].grantee);
      assert row.permissions[i] in row.permissions && user.shares[j] in user.shares;
    }
  }

  /** Nothing below the root is marked without a permission that allows it. */
  lemma NoneWithoutPermission(order: seq<Id>, t: Table, t': Table, kind: Kind, r: Id, explicit: bool, user: User, x: Id)
    requires Cascaded(order, t, t', kind, r, explicit, user) && x in t && x != r
    requires !Allowed(user, t[x])
    ensures x in t' && t'[x] == t[x]
  {
    AllowedIs(user, t[x]);
    assert x in Touched(t, t') ==> x in Deletable(t, user);
  }

  /** When permissions allow the user to delete everything live below the root, all of it goes. */
  lemma AllowedAllGo(order: seq<Id>, depth: map<Id, nat>, t: Table, t': Table, kind: Kind, r: Id, explicit: bool,
                     user: User, x: Id)
    requires Forest(t, depth) && AncestorDeletedAreDeleted(t) && (forall y :: y in order <==> y in t)
    requires Cascaded(order, t, t', kind, r, explicit, user)
    requires forall y :: y in t && LiveBelow(t, depth, r, y) ==> Allowed(user, t[y])
    requires x in t && x != r && LiveBelow(t, depth, r, x)
    ensures x in t' && InTrash(t[x], t'[x], true, kind.Expunge?)
  {
    forall y | y in t && LiveBelow(t, depth, r, y)
      ensures y in Deletable(t, user)
    {
      AllowedIs(user, t[y]);
    }
    CascadeReachesAll(order, depth, t, t', kind, r, explicit, user, x);
    OthersAreMarked(order, t, t', kind, r, explicit, user, x);
  }

  // ----- What is refused -----

  /** In a forest a call is refused for an unknown id, for a stale token, or because the object, in the trash
      already and to be expunged, has a parent that is in the trash; never otherwise. */
  lemma RefusedExactly(t: Table, depth: map<Id, nat>, id: Id, changeToken: nat, kind: Kind, explicit: bool)
    requires Forest(t, depth)
    ensures var r := Verdict(t, id, changeToken, kind, explicit);
            && (r == Err(NotFound) <==> id !in t)
            && (r == Err(StaleChangeToken) <==> id in t && changeToken != t[id].changeCount)
            && (r == Err(RejectedByTrigger) <==>
                  && id in t && changeToken == t[id].changeCount
                  && kind.Expunge? && t[id].isDeleted && !t[id].isExpunged
                  && t[id].parent.Some? && t[t[id].parent.value].isDeleted)
  {
  }

  /** A call that is not refused has an effect exactly when there is something left to do. */
  lemma ProceedsExactly(t: Table, id: Id, changeToken: nat, kind: Kind, explicit: bool)
    ensures Proceeds(t, id, changeToken, kind, explicit) <==>
            && Verdict(t, id, changeToken, kind, explicit) == Ok
            && id in t && (if kind.Expunge? then !t[id].isExpunged else !t[id].isDeleted)
  {
  }

  /** A restore is refused exactly for a live object under a deleted parent. */
  lemma RestoreRefusedExactly(t: Table, depth: map<Id, nat>, id: Id)
    requires Forest(t, depth) && id in t
    ensures !TriggerAccepts(t, id, Revived(t[id])) <==>
            !t[id].isDeleted && t[id].parent.Some? && t[t[id].parent.value].isDeleted
  {
  }

  // ----- Restoring -----

  /** A restore makes the object itself live and leaves its mark of being deleted with an ancestor as it was; what
      it reaches is live in every respect if it has a permission row; nothing else changes. */
  lemma RestoredRows(depth: map<Id, nat>, t: Table, t': Table, r: Id, x: Id)
    requires Undeleted(depth, t, t', r) && x in t
    ensures x in t' && t'[x].isExpunged == t[x].isExpunged
    ensures t'[x].parent == t[x].parent && t'[x].permissions == t[x].permissions
    ensures x == r ==> !t'[x].isDeleted && t'[x].isAncestorDeleted == t[x].isAncestorDeleted
    ensures x != r && t'[x] != t[x] ==>
              && t[x].isAncestorDeleted && !t[x].isExpunged && t[x].permissions != []
              && !t'[x].isDeleted && !t'[x].isAncestorDeleted
  {
    var t1 := t[r := Revived(t[r])];
    if Below(t1, depth, r, r) {
      BelowIsDeeper(t1, depth, r, r);
    }
  }

  // ----- Expunged for good -----

  ghost predicate Gone(t: Table, x: Id) {
    x in t && t[x].isExpunged && t[x].isDeleted
  }

  lemma OperationKeepsGone(order: seq<Id>, depth: map<Id, nat>, t: Table, op: Operation, t': Table, x: Id)
    requires Operates(order, depth, t, op, t') && Gone(t, x)
    ensures Gone(t', x)
  {
    if t' != t && op.UndeleteObject? {
      RestoredRows(depth, t, t', op.id, x);
    }
  }

  lemma {:induction false} GoneStaysGone(order: seq<Id>, depth: map<Id, nat>, ops: seq<Operation>,
                                         tables: seq<Table>, x: Id)
    requires |tables| == |ops| + 1 && Gone(tables[0], x)
    requires forall i :: 0 <= i < |ops| ==> Operates(order, depth, tables[i], ops[i], tables[i + 1])
    ensures Gone(tables[|ops|], x)
  {
    if ops != [] {
      var n := |ops| - 1;
      GoneStaysGone(order, depth, ops[..n], tables[..n + 1], x);
      OperationKeepsGone(order, depth, tables[n], ops[n], tables[n + 1], x);
    }
  }

  /** An object that is expunged, by itself or with an ancestor, is never live again, whatever is deleted,
      expunged or restored after that. */
  lemma ExpungedForGood(order: seq<Id>, depth: map<Id, nat>, t: Table, r: Id, explicit: bool, user: User,
                        ops: seq<Operation>, tables: seq<Table>, x: Id)
    requires |tables| == |ops| + 1
    requires Cascaded(order, t, tables[0], Expunge, r, explicit, user)
    requires forall i :: 0 <= i < |ops| ==> Operates(order, depth, tables[i], ops[i], tables[i + 1])
    requires x == r || (x in t && x in tables[0] && tables[0][x] != t[x])
    ensures Gone(tables[|ops|], x)
  {
    RootIsMarked(order, t, tables[0], Expunge, r, explicit, user);
    if x != r {
      OthersAreMarked(order, t, tables[0], Expunge, r, explicit, user, x);
    }
    GoneStaysGone(order, depth, ops, tables, x);
  }
}
