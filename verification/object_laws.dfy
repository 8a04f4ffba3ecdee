/** What deleting, expunging and restoring objects promises, over the whole table and over every
    sequence of such operations. */
module ObjectLaws {
  import opened ObjectRows
  import opened ObjectCascade
  import opened ObjectRestore

  /** What the operations keep of every table: expunged or ancestor-deleted rows are deleted, a row
      still marked as deleted with an ancestor has a deleted parent, and every object has a permission
      row. */
  ghost predicate Sound(t: Table) {
    && ExpungedAreDeleted(t)
    && AncestorDeletedAreDeleted(t)
    && HaveDeletedParents(t)
    && forall x :: x in t ==> t[x].permissions != []
  }

  ghost predicate HaveDeletedParents(t: Table) {
    forall x :: x in t && Selectable(t[x]) ==>
      t[x].parent.Some? && t[x].parent.value in t && t[t[x].parent.value].isDeleted
  }

  ghost predicate SameFlags(t: Table, t': Table) {
    && t'.Keys == t.Keys
    && forall x :: x in t ==> t'[x] == t[x].(changeCount := t'[x].changeCount)
  }

  // ----- Restoring what was deleted -----

  /** What an undelete reaches after an explicit delete is exactly what that delete marked below the
      root: everything trashed earlier has a parent that was already deleted then. */
  lemma {:induction false} ReachedIsMarked(order: seq<Id>, depth: map<Id, nat>, t: Table, t': Table, r: Id,
                                           user: User, x: Id)
    requires Forest(t, depth) && Forest(t', depth) && ExpungedAreDeleted(t) && HaveDeletedParents(t)
    requires r in t && !t[r].isDeleted && x in t
    requires Cascaded(order, t, t', Delete, r, true, user)
    ensures Below(t', depth, r, x) <==> x in Touched(t, t') && x != r
    decreases depth[x]
  {
    if x in Touched(t, t') && x != r {
      var p := t[x].parent.value;
      if p != r {
        ReachedIsMarked(order, depth, t, t', r, user, p);
      }
    }
    if Below(t', depth, r, x) {
      var p := t'[x].parent.value;
      if p != r {
        ReachedIsMarked(order, depth, t, t', r, user, p);
      }
      assert p in Touched(t, t') && !t[p].isDeleted;
      assert t'[r].isAncestorDeleted == false;
    }
  }

  /** Whoever deletes a live object and whatever was in it, restoring the object puts the flags of every
      row of the table back: objects trashed earlier stay in the trash, nothing expunged comes back, and
      what the user was not allowed to delete needs no restoring. */
  lemma UndeleteRevertsDelete(order: seq<Id>, depth: map<Id, nat>, t: Table, t': Table, t'': Table, r: Id, user: User)
    requires Forest(t, depth) && ExpungedAreDeleted(t) && AncestorDeletedAreDeleted(t) && HaveDeletedParents(t)
    requires r in t && !t[r].isDeleted
    requires Cascaded(order, t, t', Delete, r, true, user)
    requires Undeleted(depth, t', t'', r)
    ensures SameFlags(t, t'')
  {
    forall x | x in t
      ensures t''[x] == t[x].(changeCount := t''[x].changeCount)
    {
      RevivingRootKeepsBelow(depth, t', r, x);
      ReachedIsMarked(order, depth, t, t', r, user, x);
      if x in Touched(t, t') && x != r {
        assert MayDelete(user, t[x]);
        assert t[x].permissions != [];
      }
    }
  }

  lemma {:induction false} RevivingRootKeepsBelow(depth: map<Id, nat>, t: Table, r: Id, x: Id)
    requires r in t && x in t && !t[r].isAncestorDeleted
    requires Forest(t[r := Revived(t[r])], depth)
    ensures Forest(t, depth)
    ensures Below(t[r := Revived(t[r])], depth, r, x) <==> Below(t, depth, r, x)
    decreases depth[x]
  {
    assert forall y :: y in t ==> t[y].parent == t[r := Revived(t[r])][y].parent;
    if t[x].parent.Some? && t[x].parent.value != r {
      RevivingRootKeepsBelow(depth, t, r, t[x].parent.value);
    }
  }

  // ----- Every sequence of operations -----

  datatype Operation =
    | DeleteObject(id: Id, user: User)
    | ExpungeObject(id: Id, user: User)
    | UndeleteObject(id: Id)

  /** One operation as the server calls it: deletes and expunges are explicit, and only objects that are
      neither expunged nor deleted with an ancestor are restored. An operation may also be refused. */
  ghost predicate Operates(order: seq<Id>, depth: map<Id, nat>, t: Table, op: Operation, t': Table) {
    || t' == t
    || match op
       case DeleteObject(id, user) =>
         id in t && !t[id].isDeleted && Cascaded(order, t, t', Delete, id, true, user)
       case ExpungeObject(id, user) =>
         id in t && !t[id].isExpunged && Cascaded(order, t, t', Expunge, id, true, user)
       case UndeleteObject(id) =>
         id in t && !t[id].isExpunged && !t[id].isAncestorDeleted && Undeleted(depth, t, t', id)
  }

  lemma CascadeKeepsSound(order: seq<Id>, depth: map<Id, nat>, t: Table, t': Table, kind: Kind, r: Id, user: User)
    requires Forest(t, depth) && Sound(t) && Cascaded(order, t, t', kind, r, true, user)
    ensures Forest(t', depth) && Sound(t')
  {
    forall x | x in t'
      ensures t'[x].parent == t[x].parent && t'[x].permissions == t[x].permissions
      ensures t[x].isDeleted || x in Touched(t, t') ==> t'[x].isDeleted
      ensures x !in Touched(t, t') ==> t'[x] == t[x]
    {
    }
    forall x | x in t' && Selectable(t'[x])
      ensures t'[x].parent.Some? && t'[x].parent.value in t' && t'[t'[x].parent.value].isDeleted
    {
      if x in Touched(t, t') {
        assert x != r && t[x].parent.value in Touched(t, t');
      } else {
        assert t[t[x].parent.value].isDeleted;
      }
    }
  }

  lemma UndeleteKeepsSound(depth: map<Id, nat>, t: Table, t': Table, r: Id)
    requires Forest(t, depth) && Sound(t) && r in t && !t[r].isExpunged && !t[r].isAncestorDeleted
    requires Undeleted(depth, t, t', r)
    ensures Forest(t', depth) && Sound(t')
  {
    var t1 := t[r := Revived(t[r])];
    UnmarkKeepsForest(t1, t', depth, AllBelow(t1, depth, r));
    forall x | x in t' && Selectable(t'[x])
      ensures t'[x].parent.Some? && t'[x].parent.value in t' && t'[t'[x].parent.value].isDeleted
    {
      assert x !in AllBelow(t1, depth, r) && x != r && t'[x] == t[x];
      var p := t[x].parent.value;
      assert p != r && p !in AllBelow(t1, depth, r);
    }
  }

  lemma {:induction false} OperationsKeepSound(order: seq<Id>, depth: map<Id, nat>, ops: seq<Operation>,
                                               tables: seq<Table>)
    requires |tables| == |ops| + 1
    requires Forest(tables[0], depth) && Sound(tables[0])
    requires forall i :: 0 <= i < |ops| ==> Operates(order, depth, tables[i], ops[i], tables[i + 1])
    ensures Forest(tables[|ops|], depth) && Sound(tables[|ops|])
  {
    if ops != [] {
      var n := |ops| - 1;
      OperationsKeepSound(order, depth, ops[..n], tables[..n + 1]);
      var t, t' := tables[n], tables[n + 1];
      assert Operates(order, depth, t, ops[n], t');
      if t' != t {
        match ops[n]
        case DeleteObject(id, user) => CascadeKeepsSound(order, depth, t, t', Delete, id, user);
        case ExpungeObject(id, user) => CascadeKeepsSound(order, depth, t, t', Expunge, id, user);
        case UndeleteObject(id) => UndeleteKeepsSound(depth, t, t', id);
      }
    }
  }

  /** So after any history, deleting a live object and restoring it leaves every flag as it was. */
  lemma UndeleteAlwaysReverts(order: seq<Id>, depth: map<Id, nat>, ops: seq<Operation>, tables: seq<Table>,
                              t': Table, t'': Table, r: Id, user: User)
    requires |tables| == |ops| + 1
    requires Forest(tables[0], depth) && Sound(tables[0])
    requires forall i :: 0 <= i < |ops| ==> Operates(order, depth, tables[i], ops[i], tables[i + 1])
    requires r in tables[|ops|] && !tables[|ops|][r].isDeleted
    requires Cascaded(order, tables[|ops|], t', Delete, r, true, user)
    requires Undeleted(depth, t', t'', r)
    ensures SameFlags(tables[|ops|], t'')
  {
    OperationsKeepSound(order, depth, ops, tables);
    UndeleteRevertsDelete(order, depth, tables[|ops|], t', t'', r, user);
  }

  // ----- How far a cascade goes -----

  /** x lies in the subtree of r. */
  ghost predicate InSubtree(t: Table, depth: map<Id, nat>, r: Id, x: Id)
    requires Forest(t, depth) && x in t
    decreases depth[x]
  {
    x == r || (t[x].parent.Some? && InSubtree(t, depth, r, t[x].parent.value))
  }

  lemma {:induction false} CascadeStaysInside(order: seq<Id>, depth: map<Id, nat>, t: Table, t': Table, kind: Kind,
                                              r: Id, explicit: bool, user: User, x: Id)
    requires Forest(t, depth) && Cascaded(order, t, t', kind, r, explicit, user) && x in t
    requires !InSubtree(t, depth, r, x)
    ensures t'[x] == t[x]
    decreases depth[x]
  {
    if x in Touched(t, t') {
      CascadeStaysInside(order, depth, t, t', kind, r, explicit, user, t[x].parent.value);
    }
  }

  /** x is reached from r by going down through live objects only. */
  ghost predicate LiveBelow(t: Table, depth: map<Id, nat>, r: Id, x: Id)
    requires Forest(t, depth) && x in t
    decreases depth[x]
  {
    && !t[x].isDeleted
    && t[x].parent.Some?
    && (t[x].parent.value == r || LiveBelow(t, depth, r, t[x].parent.value))
  }

  /** When the user may delete everything live below the root, all of it is marked, for any number of
      children per object. */
  lemma {:induction false} CascadeReachesAll(order: seq<Id>, depth: map<Id, nat>, t: Table, t': Table, kind: Kind,
                                             r: Id, explicit: bool, user: User, x: Id)
    requires Forest(t, depth) && (forall y :: y in order <==> y in t)
    requires Cascaded(order, t, t', kind, r, explicit, user)
    requires forall y :: y in t && LiveBelow(t, depth, r, y) ==> y in Deletable(t, user)
    requires x in t && x != r && LiveBelow(t, depth, r, x)
    ensures t'[x] == Marked(t[x], kind, false)
    ensures t'[x].isDeleted && t'[x].isAncestorDeleted && (kind.Expunge? ==> t'[x].isExpunged)
    decreases depth[x]
  {
    var p := t[x].parent.value;
    if p != r {
      CascadeReachesAll(order, depth, t, t', kind, r, explicit, user, p);
      MarkedDiffers(t[p], kind, false);
    }
    assert p in Touched(t, t');
    var children := LiveChildren(order, t, p);
    ListingMembers(order, t, p);
    forall y | y in children
      ensures y in Deletable(t, user)
    {
      assert LiveBelow(t, depth, r, y);
    }
    LeftNone(children, Deletable(t, user));
    assert ChildrenSwept(order, t, t', user, p);
    ListingMembers(order, t', p);
    assert x !in LiveChildren(order, t', p);
  }

  /** A marked object with one page of children keeps exactly those the user may not delete. */
  lemma CascadeIsExactOnOnePage(order: seq<Id>, t: Table, t': Table, kind: Kind, r: Id, explicit: bool, user: User,
                                p: Id, x: Id)
    requires (forall y :: y in order <==> y in t)
    requires Cascaded(order, t, t', kind, r, explicit, user) && p in Touched(t, t')
    requires IsLiveChild(t, x, p) && x != r && |LiveChildren(order, t, p)| <= 100
    ensures x in Touched(t, t') <==> x in Deletable(t, user)
  {
    assert ChildrenSwept(order, t, t', user, p);
    LeftOnePage(LiveChildren(order, t, p), Deletable(t, user));
    ListingMembers(order, t, p);
    ListingMembers(order, t', p);
  }

  /** With any number of children, all those the user may delete are marked exactly when the paging loop
      passes nothing over. */
  lemma CascadeMarksAllAllowedExactly(order: seq<Id>, t: Table, t': Table, kind: Kind, r: Id, explicit: bool, user: User, p: Id)
    requires (forall y :: y in order <==> y in t)
    requires Cascaded(order, t, t', kind, r, explicit, user) && p in Touched(t, t')
    ensures (forall x :: IsLiveChild(t, x, p) && x in Deletable(t, user) ==> x in Touched(t, t'))
            <==> PassesNothingOver(LiveChildren(order, t, p), Deletable(t, user))
  {
    var ok := Deletable(t, user);
    assert ChildrenSwept(order, t, t', user, p);
    LeftExactly(LiveChildren(order, t, p), ok);
    ListingMembers(order, t, p);
    ListingMembers(order, t', p);
    forall x | x in ok
      ensures x in Left(LiveChildren(order, t, p), ok) <==> IsLiveChild(t, x, p) && x !in Touched(t, t')
    {
    }
  }
}
