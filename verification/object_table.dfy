/** The object table with the operations that change it in place (dao/dao.DeleteObject.go,
    dao/dao.ExpungeObject.go, dao/dao.UndeleteObject.go, dao/dao.GetChildObjects.go). */
module ObjectStore {
  import opened ObjectRows
  import opened ObjectCascade
  import opened ObjectRestore
  import ObjectMarks
  import Paging

  class ObjectTable {
    const order: seq<Id>
    ghost const depth: map<Id, nat>
    ghost const deepest: nat
    var rows: Table

    ghost predicate Valid()
      reads this
    {
      && Shaped()
      && ExpungedAreDeleted(rows)
      && AncestorDeletedAreDeleted(rows)
    }

    /** The objects are a forest, listed once each. */
    ghost predicate Shaped()
      reads this
    {
      && Forest(rows, depth)
      && (forall x :: x in rows ==> depth[x] <= deepest)
      && NoDuplicates(order)
      && (forall x :: x in order <==> x in rows)
    }

    /** Deeper than this, what is deleted with an ancestor is deleted. */
    ghost predicate SoundBelow(d: nat)
      requires Shaped()
      reads this
    {
      forall x :: x in rows && d < depth[x] && rows[x].isAncestorDeleted ==> rows[x].isDeleted
    }

    constructor (order: seq<Id>, rows: Table, ghost depth: map<Id, nat>, ghost deepest: nat)
      requires Forest(rows, depth) && (forall x :: x in rows ==> depth[x] <= deepest)
      requires NoDuplicates(order) && (forall x :: x in order <==> x in rows)
      requires ExpungedAreDeleted(rows) && AncestorDeletedAreDeleted(rows)
      ensures Valid()
      ensures this.order == order && this.rows == rows && this.depth == depth
    {
      this.order, this.rows, this.depth, this.deepest := order, rows, depth, deepest;
    }

    method Update(id: Id, row: Row) returns (ok: bool)
      requires id in rows
      modifies this
      ensures ok == TriggerAccepts(old(rows), id, row)
      ensures rows == if ok then old(rows)[id := row] else old(rows)
    {
      ok := TriggerAccepts(rows, id, row);
      if ok {
        rows := rows[id := row];
      }
    }

    /** getChildObjectsInTransaction with the cascades' page size. */
    method GetChildObjects(id: Id, pageNumber: nat) returns (objects: seq<Listed>, pageCount: nat)
      requires Valid() && 0 < pageNumber
      ensures var children := LiveChildren(order, rows, id);
              && IsPage(objects, rows, Page(children, (pageNumber - 1) * PAGE_SIZE))
              && IsPageOf(objects, rows, children, (pageNumber - 1) * 100)
              && |children| <= pageCount * PAGE_SIZE
              && (0 < pageCount ==> (pageCount - 1) * PAGE_SIZE < |children|)
    {
      var children := LiveChildren(order, rows, id);
      var offset := Paging.GetOffset(pageNumber, PAGE_SIZE);
      var page := Page(children, offset);
      pageCount := Paging.GetPageCount(|children|, PAGE_SIZE);
      ListingMembers(order, rows, id);
      PageIsListed(children, offset);
      objects := [];
      for i := 0 to |page|
        invariant IsPage(objects, rows, page[..i])
      {
        var x := page[i];
        assert x in page && x in children;
        objects := objects + [Listed(page[i], rows[page[i]])];
      }
      PageIsPart(children, offset);
    }

    /** One object of a page. Its row is used as it was when the page was read. */
    method CascadeListed(child: Listed, user: User, kind: Kind, ghost t0: Table, ghost root: Id, ghost explicit: bool,
                         ghost children: seq<Id>, ghost offset: nat, ghost i: nat)
      returns (deleted: bool)
      requires Valid() && Forest(t0, depth) && root in t0 && rows.Keys == t0.Keys
      requires i < |Page(children, offset)|
      requires PageState(order, t0, rows, kind, root, explicit, user, children, offset, i)
      requires NoDuplicates(children)
      requires child.id == Page(children, offset)[i] && child.id in rows && child.row == rows[child.id]
      requires IsLiveChild(rows, child.id, root)
      modifies this
      ensures Valid() && rows.Keys == t0.Keys
      ensures PageState(order, t0, rows, kind, root, explicit, user, children, offset, i + 1)
      ensures deleted == (child.id in Deletable(t0, user))
      decreases deepest - depth[root] + 1, 0
    {
      ghost var before := rows;
      deleted := false;
      if !child.row.isAncestorDeleted {
        var authorizedToDelete := MayDelete(user, child.row);
        if authorizedToDelete {
          ChildProceeds(rows, depth, child.id, root, kind);
          var r := CascadeInTransaction(child.id, child.row.changeCount, false, user, kind);
          assert r == Ok;
          PageObjectGoes(order, depth, t0, before, rows, kind, root, explicit, user, children, offset, i);
          deleted := true;
        }
      }
      if !deleted {
        PageObjectStays(order, t0, rows, kind, root, explicit, user, children, offset, i);
      }
    }

    /** One pass of the loop over the objects of a page; t0 is the table when the root's own call began. */
    method CascadePage(objects: seq<Listed>, user: User, kind: Kind, deletedBefore: bool,
                       ghost t0: Table, ghost root: Id, ghost explicit: bool, ghost offset: nat)
      returns (deletedAtLeastOne: bool)
      requires Valid() && Forest(t0, depth) && root in t0
      requires Partial(order, t0, rows, kind, root, explicit, user)
      requires IsPage(objects, rows, Page(LiveChildren(order, rows, root), offset))
      modifies this
      ensures Valid()
      ensures Partial(order, t0, rows, kind, root, explicit, user)
      ensures LiveChildren(order, rows, root) ==
              PageDone(LiveChildren(order, old(rows), root), offset, Deletable(t0, user))
      ensures deletedAtLeastOne ==
              if objects == [] then deletedBefore else objects[|objects| - 1].id in Deletable(t0, user)
      decreases deepest - depth[root] + 1, 1
    {
      ghost var children := LiveChildren(order, rows, root);
      ghost var page := Page(children, offset);
      deletedAtLeastOne := deletedBefore;
      ListingHasNoDuplicates(order, rows, root);
      PageStarts(order, t0, rows, kind, root, explicit, user, children, offset);
      for i := 0 to |objects|
        invariant Valid() && rows.Keys == t0.Keys
        invariant PageState(order, t0, rows, kind, root, explicit, user, children, offset, i)
        invariant deletedAtLeastOne == if i == 0 then deletedBefore else page[i - 1] in Deletable(t0, user)
      {
        assert IsLiveChild(rows, page[i], root) && rows[page[i]] == t0[page[i]];
        deletedAtLeastOne := CascadeListed(objects[i], user, kind, t0, root, explicit, children, offset, i);
      }
      MidwayStarts(children, offset, Deletable(t0, user));
    }

    /** deleteObjectInTransaction and expungeObjectInTransaction: the two differ in what they mark and
        in which objects they take as already done. */
    method CascadeInTransaction(id: Id, changeToken: nat, explicit: bool, user: User, kind: Kind) returns (r: Result)
      requires Valid()
      modifies this
      ensures Valid()
      ensures r == Verdict(old(rows), id, changeToken, kind, explicit)
      ensures if Proceeds(old(rows), id, changeToken, kind, explicit)
              then && Cascaded(order, old(rows), rows, kind, id, explicit, user)
                   && ObjectMarks.InTrash(old(rows)[id], rows[id], !explicit, kind.Expunge?)
              else rows == old(rows)
      decreases if id in rows then deepest - depth[id] + 1 else 0, 3
    {
      if id !in rows {
        return Err(NotFound);
      }
      var dbObject := rows[id];
      if changeToken != dbObject.changeCount {
        return Err(StaleChangeToken);
      }
      if AlreadyDone(dbObject, kind) {
        return Ok;
      }
      ghost var t0 := rows;
      var updated := Update(id, Marked(dbObject, kind, explicit));
      if !updated {
        return Err(RejectedByTrigger);
      }
      RootMarked(order, depth, t0, rows, kind, id, explicit, user);
      CascadeChildren(id, user, kind, t0, explicit);
      ObjectMarks.RootIsMarked(order, t0, rows, kind, id, explicit, user);
      r := Ok;
    }

    /** The paging loop over the children of an object that has just been marked. */
    method CascadeChildren(id: Id, user: User, kind: Kind, ghost t0: Table, ghost explicit: bool)
      requires Valid() && Forest(t0, depth) && id in t0
      requires Sweeping(order, t0, rows, kind, id, explicit, user, true, true)
      modifies this
      ensures Valid()
      ensures Cascaded(order, t0, rows, kind, id, explicit, user)
      decreases deepest - depth[id] + 1, 2
    {
      var hasUndeletedChildren := true;
      var deletedAtLeastOne := true;
      var pageNumber := 1;
      while hasUndeletedChildren
        invariant Valid()
        invariant Sweeping(order, t0, rows, kind, id, explicit, user, hasUndeletedChildren, deletedAtLeastOne)
        invariant hasUndeletedChildren ==> pageNumber == if deletedAtLeastOne then 1 else 2
        decreases if !hasUndeletedChildren then 0 else if !deletedAtLeastOne then 1
                  else 2 + |LiveChildren(order, rows, id)|
      {
        var objects, pageCount := GetChildObjects(id, pageNumber);
        TurnSweeps(LiveChildren(order, rows, id), Deletable(t0, user), pageCount, deletedAtLeastOne);
        hasUndeletedChildren := pageNumber < pageCount && deletedAtLeastOne;
        deletedAtLeastOne := CascadePage(objects, user, kind, deletedAtLeastOne, t0, id, explicit,
                                         (pageNumber - 1) * PAGE_SIZE);
        if !deletedAtLeastOne {
          pageNumber := pageNumber + 1;
        }
      }
    }

    /** The statement's where clause leaves an expunged object alone, its join one without permissions. */
    method UndeleteChild(id: Id) returns (ok: bool)
      requires Shaped() && id in rows && Selectable(rows[id]) && rows[id].isDeleted
      modifies this
      ensures Shaped()
      ensures ok && Unmarks(old(rows), rows, {id})
    {
      ok := true;
      if rows[id].permissions != [] {
        ok := Update(id, Unmarked(rows[id]));
      }
    }

    method UndeleteChildren(children: seq<Id>)
      requires Shaped() && NoDuplicates(children)
      requires forall c :: c in children ==> c in rows && Selectable(rows[c]) && rows[c].isDeleted
      modifies this
      ensures Shaped()
      ensures Unmarks(old(rows), rows, Ids(children))
    {
      ghost var t := rows;
      for i := 0 to |children|
        invariant Shaped()
        invariant Unmarks(t, rows, Ids(children[..i]))
      {
        var c := children[i];
        assert c in children && c !in children[..i];
        ghost var before := rows;
        var ok := UndeleteChild(c);
        UnmarkTwice(t, before, rows, Ids(children[..i]), {c});
        IdsSnoc(children, i);
      }
      assert children[..|children|] == children;
    }

    method UndeleteBelow(children: seq<Id>, ghost t: Table, ghost id: Id)
      requires Shaped() && Forest(t, depth) && id in t && id in depth && AreKids(t, id, children)
      requires SoundBelow(depth[id])
      requires Unmarks(t, rows, Done(t, depth, children, 0))
      modifies this
      ensures Shaped()
      ensures Unmarks(t, rows, Done(t, depth, children, |children|))
      decreases deepest - depth[id], 0
    {
      for i := 0 to |children|
        invariant Shaped() && SoundBelow(depth[id])
        invariant Unmarks(t, rows, Done(t, depth, children, i))
      {
        ghost var before := rows;
        BelowNext(t, before, depth, id, children, i);
        UndeleteAncestorChildren(children[i]);
        RestoresNext(t, before, rows, depth, id, children, i);
      }
    }

    /** First the children themselves, then, child by child, whatever lies below them. */
    method UndeleteAncestorChildren(id: Id)
      requires Shaped() && id in rows && SoundBelow(depth[id])
      modifies this
      ensures Shaped()
      ensures Unmarks(old(rows), rows, AllBelow(old(rows), depth, id))
      decreases deepest - depth[id], 1
    {
      var children := SelectChildren(order, rows, id);
      ghost var t := rows;
      SelectMembers(order, t, id);
      UndeleteChildren(children);
      assert Ids(children) == Done(t, depth, children, 0);
      UndeleteBelow(children, t, id);
      BelowAllChildren(t, depth, id, children);
    }

    /** undeleteObjectInTransaction. Its caller (server/removeObjectFromTrash.go) lets no object through that
        is expunged or deleted with an ancestor; then the flags stay sound. */
    method UndeleteObject(id: Id) returns (r: Result)
      requires Valid()
      modifies this
      ensures Shaped()
      ensures id in old(rows) ==> !old(rows)[id].isExpunged && !old(rows)[id].isAncestorDeleted ==> Valid()
      ensures r == if id in old(rows) && !TriggerAccepts(old(rows), id, Revived(old(rows)[id]))
                   then Err(RejectedByTrigger) else Ok
      ensures if id in old(rows) && r.Ok? then Undeleted(depth, old(rows), rows, id) else rows == old(rows)
    {
      if id !in rows {
        return Ok;
      }
      ghost var t := rows;
      var ok := Update(id, Revived(rows[id]));
      if !ok {
        return Err(RejectedByTrigger);
      }
      UndeleteAncestorChildren(id);
      r := Ok;
    }

    /** The transaction around a cascade: an error rolls the table back. */
    method DeleteOrExpungeObject(id: Id, changeToken: nat, explicit: bool, user: User, kind: Kind) returns (r: Result)
      requires Valid()
      modifies this
      ensures Valid()
      ensures r == Verdict(old(rows), id, changeToken, kind, explicit)
      ensures if Proceeds(old(rows), id, changeToken, kind, explicit)
              then && Cascaded(order, old(rows), rows, kind, id, explicit, user)
                   && ObjectMarks.InTrash(old(rows)[id], rows[id], !explicit, kind.Expunge?)
              else rows == old(rows)
    {
      var begun := rows;
      r := CascadeInTransaction(id, changeToken, explicit, user, kind);
      if r.Err? {
        rows := begun;
      }
    }
  }
}
