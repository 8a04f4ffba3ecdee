/** What the delete and expunge cascades do to the object table, as a relation between the table before
    and after, and the lemmas that build it up child by child and page by page
    (dao/dao.DeleteObject.go, dao/dao.ExpungeObject.go). */
module ObjectCascade {
  import opened ObjectRows

  datatype Error = NotFound | StaleChangeToken | RejectedByTrigger

  datatype Result = Ok | Err(error: Error)

  /** A child as the listing returns it: the row was read when the page was read. */
  datatype Listed = Listed(id: Id, row: Row)

  // ----- What a cascade does, as a relation between two tables -----

  /** The rows a cascade marked. */
  ghost function Touched(t: Table, t': Table): set<Id> {
    set x | x in t && x in t' && t[x] != t'[x]
  }

  ghost predicate MarksOnly(t: Table, t': Table, kind: Kind, root: Id, explicit: bool, user: User) {
    && t'.Keys == t.Keys
    && (forall x :: x in Touched(t, t') ==> t'[x] == Marked(t[x], kind, x == root && explicit))
    && (forall x :: x in Touched(t, t') && x != root ==>
          && !t[x].isDeleted && x in Deletable(t, user)
          && t[x].parent.Some? && t[x].parent.value in Touched(t, t'))
  }

  /** Every marked object's live children have been worked through page by page. */
  ghost predicate ChildrenSwept(order: seq<Id>, t: Table, t': Table, user: User, p: Id) {
    LiveChildren(order, t', p) == Left(LiveChildren(order, t, p), Deletable(t, user))
  }

  ghost predicate Cascaded(order: seq<Id>, t: Table, t': Table, kind: Kind, root: Id, explicit: bool, user: User) {
    && MarksOnly(t, t', kind, root, explicit, user)
    && root in Touched(t, t')
    && forall p :: p in Touched(t, t') ==> ChildrenSwept(order, t, t', user, p)
  }

  /** Expunged rows are deleted rows. */
  ghost predicate ExpungedAreDeleted(t: Table) {
    forall x :: x in t && t[x].isExpunged ==> t[x].isDeleted
  }

  lemma MarkedDiffers(row: Row, kind: Kind, explicit: bool)
    ensures Marked(row, kind, explicit) != row
  {
  }

  /** Everything marked lies below the root. */
  lemma {:induction false} TouchedIsDeeper(t: Table, t': Table, depth: map<Id, nat>, kind: Kind, root: Id,
                                           explicit: bool, user: User, x: Id)
    requires Forest(t, depth) && MarksOnly(t, t', kind, root, explicit, user)
    requires x in Touched(t, t') && x != root && root in t
    ensures depth[root] < depth[x]
    decreases depth[x]
  {
    var p := t[x].parent.value;
    if p != root {
      TouchedIsDeeper(t, t', depth, kind, root, explicit, user, p);
    }
  }

  // ----- One child more -----

  /** Some children of the root have been cascaded into; the root's own listing is not yet finished. */
  ghost predicate Partial(order: seq<Id>, t: Table, t': Table, kind: Kind, root: Id, explicit: bool, user: User) {
    && MarksOnly(t, t', kind, root, explicit, user)
    && root in Touched(t, t')
    && forall p :: p in Touched(t, t') && p != root ==> ChildrenSwept(order, t, t', user, p)
  }

  /** The cascade into one more live child c of the root: t0 at the root's call, t before, t' after. */
  ghost predicate OneMore(order: seq<Id>, depth: map<Id, nat>, t0: Table, t: Table, t': Table, kind: Kind,
                          root: Id, explicit: bool, user: User, c: Id) {
    && Forest(t0, depth)
    && (forall x :: x in order <==> x in t0)
    && Partial(order, t0, t, kind, root, explicit, user)
    && Cascaded(order, t, t', kind, c, false, user)
    && IsLiveChild(t, c, root)
    && c in Deletable(t0, user)
  }

  lemma TouchedAdds(order: seq<Id>, depth: map<Id, nat>, t0: Table, t: Table, t': Table, kind: Kind, root: Id,
                    explicit: bool, user: User, c: Id)
    requires OneMore(order, depth, t0, t, t', kind, root, explicit, user, c)
    ensures Touched(t0, t) !! Touched(t, t')
    ensures Touched(t0, t') == Touched(t0, t) + Touched(t, t')
    ensures Forest(t, depth)
  {
    forall x | x in Touched(t, t')
      ensures x !in Touched(t0, t)
    {
      assert !t[x].isDeleted;
    }
  }

  lemma OneMoreMarks(order: seq<Id>, depth: map<Id, nat>, t0: Table, t: Table, t': Table, kind: Kind, root: Id,
                     explicit: bool, user: User, c: Id)
    requires OneMore(order, depth, t0, t, t', kind, root, explicit, user, c)
    ensures MarksOnly(t0, t', kind, root, explicit, user)
  {
    TouchedAdds(order, depth, t0, t, t', kind, root, explicit, user, c);
    forall x | x in Touched(t0, t')
      ensures t'[x] == Marked(t0[x], kind, x == root && explicit)
      ensures x != root ==> && !t0[x].isDeleted && x in Deletable(t0, user)
                            && t0[x].parent.Some? && t0[x].parent.value in Touched(t0, t')
    {
      if x in Touched(t, t') {
        assert x !in Touched(t0, t) && t[x] == t0[x];
      }
    }
  }

  lemma OneMoreSweepsNew(order: seq<Id>, depth: map<Id, nat>, t0: Table, t: Table, t': Table, kind: Kind,
                         root: Id, explicit: bool, user: User, c: Id, p: Id)
    requires OneMore(order, depth, t0, t, t', kind, root, explicit, user, c)
    requires p in Touched(t, t')
    ensures ChildrenSwept(order, t0, t', user, p)
  {
    TouchedAdds(order, depth, t0, t, t', kind, root, explicit, user, c);
    assert depth[root] < depth[p] by {
      if p != c {
        TouchedIsDeeper(t, t', depth, kind, c, false, user, p);
      }
    }
    forall x | x in order && t0[x].parent == Some(p)
      ensures t[x] == t0[x]
    {
      assert x != root;
      assert x !in Touched(t0, t);
    }
    ListingAgrees(order, t0, t, p);
    ListingMembers(order, t0, p);
    LeftAgrees(LiveChildren(order, t0, p), Deletable(t0, user), Deletable(t, user));
  }

  lemma OneMoreKeepsOld(order: seq<Id>, depth: map<Id, nat>, t0: Table, t: Table, t': Table, kind: Kind,
                        root: Id, explicit: bool, user: User, c: Id, p: Id)
    requires OneMore(order, depth, t0, t, t', kind, root, explicit, user, c)
    requires p in Touched(t0, t) && p != root
    ensures ChildrenSwept(order, t0, t', user, p)
  {
    TouchedAdds(order, depth, t0, t, t', kind, root, explicit, user, c);
    forall x | x in order && t[x].parent == Some(p)
      ensures t'[x] == t[x]
    {
      assert x !in Touched(t, t');
    }
    ListingAgrees(order, t, t', p);
  }

  lemma OneMoreListing(order: seq<Id>, depth: map<Id, nat>, t0: Table, t: Table, t': Table, kind: Kind, root: Id,
                       explicit: bool, user: User, c: Id)
    requires OneMore(order, depth, t0, t, t', kind, root, explicit, user, c)
    ensures forall x :: x in t && x != c && t[x].parent == Some(root) ==> t'[x] == t[x]
    ensures LiveChildren(order, t', root) == Keep(LiveChildren(order, t, root), {c})
  {
    TouchedAdds(order, depth, t0, t, t', kind, root, explicit, user, c);
    forall x | x in t && x != c && t[x].parent == Some(root)
      ensures t'[x] == t[x]
    {
      assert x !in Touched(t, t');
    }
    assert t'[c].isDeleted;
    ListingShrinks(order, t, t', root, {c});
  }

  lemma OneMoreChild(order: seq<Id>, depth: map<Id, nat>, t0: Table, t: Table, t': Table, kind: Kind, root: Id,
                     explicit: bool, user: User, c: Id)
    requires OneMore(order, depth, t0, t, t', kind, root, explicit, user, c)
    ensures Partial(order, t0, t', kind, root, explicit, user)
    ensures forall x :: x in t && x != c && t[x].parent == Some(root) ==> t'[x] == t[x]
    ensures LiveChildren(order, t', root) == Keep(LiveChildren(order, t, root), {c})
  {
    TouchedAdds(order, depth, t0, t, t', kind, root, explicit, user, c);
    OneMoreMarks(order, depth, t0, t, t', kind, root, explicit, user, c);
    OneMoreListing(order, depth, t0, t, t', kind, root, explicit, user, c);
    forall p | p in Touched(t0, t') && p != root
      ensures ChildrenSwept(order, t0, t', user, p)
    {
      if p in Touched(t, t') {
        OneMoreSweepsNew(order, depth, t0, t, t', kind, root, explicit, user, c, p);
      } else {
        OneMoreKeepsOld(order, depth, t0, t, t', kind, root, explicit, user, c, p);
      }
    }
  }

  // ----- One page -----

  function Page(s: seq<Id>, offset: nat): seq<Id> {
    FirstOf(AfterFirst(s, offset), PAGE_SIZE)
  }

  /** The listing while a page is being worked through: the children before the page, those on it that
      stayed, the rest of the page, and the children after it. */
  function Midway(s: seq<Id>, offset: nat, i: nat, ok: set<Id>): seq<Id>
    requires i <= |Page(s, offset)|
  {
    var page := Page(s, offset);
    FirstOf(s, offset) + Keep(page[..i], ok) + page[i..] + AfterFirst(AfterFirst(s, offset), PAGE_SIZE)
  }

  lemma MidwayStarts(s: seq<Id>, offset: nat, ok: set<Id>)
    ensures Midway(s, offset, 0, ok) == s
    ensures Midway(s, offset, |Page(s, offset)|, ok) == PageDone(s, offset, ok)
  {
    var page := Page(s, offset);
    assert page[..|page|] == page;
  }

  lemma MovesOver(before: seq<Id>, kept: seq<Id>, c: Id, rest: seq<Id>, after: seq<Id>)
    ensures before + (kept + [c]) + rest + after == before + kept + ([c] + rest) + after
  {
  }

  lemma MidwayStays(s: seq<Id>, offset: nat, i: nat, ok: set<Id>)
    requires i < |Page(s, offset)| && Page(s, offset)[i] !in ok
    ensures Midway(s, offset, i + 1, ok) == Midway(s, offset, i, ok)
  {
    var page := Page(s, offset);
    assert page[..i + 1] == page[..i] + [page[i]];
    KeepSplit(page[..i], [page[i]], ok);
    assert Keep(page[..i + 1], ok) == Keep(page[..i], ok) + [page[i]];
    assert page[i..] == [page[i]] + page[i + 1..];
    MovesOver(FirstOf(s, offset), Keep(page[..i], ok), page[i], page[i + 1..], AfterFirst(AfterFirst(s, offset), PAGE_SIZE));
  }

  lemma {:induction false} KeepWithoutOne(before: seq<Id>, c: Id, after: seq<Id>)
    requires c !in before && c !in after
    ensures Keep(before + [c] + after, {c}) == before + after
  {
    var s := before + [c] + after;
    if before == [] {
      assert s[1..] == after;
      KeepNone(after, {c});
    } else {
      assert s[0] == before[0] && before[0] in before;
      assert s[1..] == before[1..] + [c] + after;
      KeepWithoutOne(before[1..], c, after);
      assert before + after == [before[0]] + (before[1..] + after);
    }
  }

  lemma MidwayParts(s: seq<Id>, offset: nat, i: nat, ok: set<Id>)
    requires i < |Page(s, offset)|
    ensures var page := Page(s, offset);
            var after := page[i + 1..] + AfterFirst(AfterFirst(s, offset), PAGE_SIZE);
            Midway(s, offset, i, ok) == FirstOf(s, offset) + Keep(page[..i], ok) + [page[i]] + after
  {
    var page := Page(s, offset);
    assert page[i..] == [page[i]] + page[i + 1..];
  }

  lemma MidwayPartsNext(s: seq<Id>, offset: nat, i: nat, ok: set<Id>)
    requires i < |Page(s, offset)| && Page(s, offset)[i] in ok
    ensures var page := Page(s, offset);
            var after := page[i + 1..] + AfterFirst(AfterFirst(s, offset), PAGE_SIZE);
            Midway(s, offset, i + 1, ok) == FirstOf(s, offset) + Keep(page[..i], ok) + after
  {
    var page := Page(s, offset);
    assert page[..i + 1] == page[..i] + [page[i]];
    KeepSplit(page[..i], [page[i]], ok);
    assert Keep([page[i]], ok) == [];
  }

  lemma ListingParts(s: seq<Id>, offset: nat, i: nat)
    requires i < |Page(s, offset)|
    ensures var page := Page(s, offset);
            var after := page[i + 1..] + AfterFirst(AfterFirst(s, offset), PAGE_SIZE);
            s == FirstOf(s, offset) + page[..i] + [page[i]] + after
  {
    var rest := AfterFirst(s, offset);
    var page := Page(s, offset);
    assert page == page[..i] + [page[i]] + page[i + 1..];
    assert rest == page + AfterFirst(rest, PAGE_SIZE);
  }

  lemma MidwayGoes(s: seq<Id>, offset: nat, i: nat, ok: set<Id>)
    requires i < |Page(s, offset)| && Page(s, offset)[i] in ok && NoDuplicates(s)
    ensures Midway(s, offset, i + 1, ok) == Keep(Midway(s, offset, i, ok), {Page(s, offset)[i]})
  {
    var page := Page(s, offset);
    var before := FirstOf(s, offset) + Keep(page[..i], ok);
    var after := page[i + 1..] + AfterFirst(AfterFirst(s, offset), PAGE_SIZE);
    MidwayParts(s, offset, i, ok);
    MidwayPartsNext(s, offset, i, ok);
    ListingParts(s, offset, i);
    Once(FirstOf(s, offset) + page[..i], page[i], after);
    KeepMembers(page[..i], ok);
    KeepWithoutOne(before, page[i], after);
  }

  /** The state after i objects of a page of the root's listing. */
  ghost predicate PageState(order: seq<Id>, t0: Table, t: Table, kind: Kind, root: Id, explicit: bool, user: User,
                            children: seq<Id>, offset: nat, i: nat) {
    && i <= |Page(children, offset)|
    && Partial(order, t0, t, kind, root, explicit, user)
    && LiveChildren(order, t, root) == Midway(children, offset, i, Deletable(t0, user))
    && forall k :: i <= k < |Page(children, offset)| ==>
         var x := Page(children, offset)[k];
         IsLiveChild(t, x, root) && x in t0 && t[x] == t0[x]
  }

  lemma PageStarts(order: seq<Id>, t0: Table, t: Table, kind: Kind, root: Id, explicit: bool, user: User,
                   children: seq<Id>, offset: nat)
    requires Partial(order, t0, t, kind, root, explicit, user) && children == LiveChildren(order, t, root)
    ensures PageState(order, t0, t, kind, root, explicit, user, children, offset, 0)
  {
    MidwayStarts(children, offset, Deletable(t0, user));
    ListingMembers(order, t, root);
    forall k | 0 <= k < |Page(children, offset)|
      ensures var x := Page(children, offset)[k];
              IsLiveChild(t, x, root) && x in t0 && t[x] == t0[x]
    {
      var x := Page(children, offset)[k];
      assert x in children;
      assert x !in Touched(t0, t);
    }
  }

  lemma PageObjectGoes(order: seq<Id>, depth: map<Id, nat>, t0: Table, t: Table, t': Table, kind: Kind, root: Id,
                       explicit: bool, user: User, children: seq<Id>, offset: nat, i: nat)
    requires i < |Page(children, offset)| && NoDuplicates(children)
    requires PageState(order, t0, t, kind, root, explicit, user, children, offset, i)
    requires OneMore(order, depth, t0, t, t', kind, root, explicit, user, Page(children, offset)[i])
    ensures PageState(order, t0, t', kind, root, explicit, user, children, offset, i + 1)
  {
    var page := Page(children, offset);
    var c := page[i];
    OneMoreChild(order, depth, t0, t, t', kind, root, explicit, user, c);
    MidwayGoes(children, offset, i, Deletable(t0, user));
    forall k | i < k < |page|
      ensures page[k] != c
    {
      PageHasNoDuplicates(children, offset, i, k);
    }
  }

  lemma PageHasNoDuplicates(s: seq<Id>, offset: nat, i: nat, k: nat)
    requires NoDuplicates(s) && i < k < |Page(s, offset)|
    ensures Page(s, offset)[i] != Page(s, offset)[k]
  {
    assert offset < |s|;
    assert Page(s, offset)[i] == s[offset + i];
    assert Page(s, offset)[k] == s[offset + k];
  }

  lemma PageObjectStays(order: seq<Id>, t0: Table, t: Table, kind: Kind, root: Id, explicit: bool, user: User,
                        children: seq<Id>, offset: nat, i: nat)
    requires i < |Page(children, offset)|
    requires PageState(order, t0, t, kind, root, explicit, user, children, offset, i)
    requires Page(children, offset)[i] !in Deletable(t0, user)
    ensures PageState(order, t0, t, kind, root, explicit, user, children, offset, i + 1)
  {
    MidwayStays(children, offset, i, Deletable(t0, user));
  }

  lemma Once(a: seq<Id>, c: Id, b: seq<Id>)
    requires NoDuplicates(a + [c] + b)
    ensures c !in a && c !in b
  {
    var s := a + [c] + b;
    assert s[|a|] == c;
    forall i | 0 <= i < |a|
      ensures a[i] != c
    {
      assert s[i] == a[i];
    }
    forall i | 0 <= i < |b|
      ensures b[i] != c
    {
      assert s[|a| + 1 + i] == b[i];
    }
  }

  /** A live child is never turned away, so a cascade that has begun runs to its end. */
  lemma ChildProceeds(t: Table, depth: map<Id, nat>, c: Id, parent: Id, kind: Kind)
    requires Forest(t, depth) && ExpungedAreDeleted(t) && IsLiveChild(t, c, parent)
    ensures Proceeds(t, c, t[c].changeCount, kind, false)
    ensures Verdict(t, c, t[c].changeCount, kind, false) == Ok
    ensures parent in t && depth[parent] < depth[c]
  {
  }

  /** The listed ids with their rows as they stand. */
  ghost predicate IsPage(objects: seq<Listed>, t: Table, page: seq<Id>) {
    && |objects| == |page|
    && forall i :: 0 <= i < |page| ==> objects[i].id == page[i] && page[i] in t && objects[i].row == t[page[i]]
  }

  /** The hundred listed ids from an offset on, or as many as there are, with their rows as they stand. */
  ghost predicate IsPageOf(objects: seq<Listed>, t: Table, children: seq<Id>, offset: nat) {
    && (if |children| < offset + 100 then offset + |objects| == |children| || (objects == [] && |children| <= offset)
        else |objects| == 100)
    && forall i :: 0 <= i < |objects| ==>
         && offset + i < |children| && objects[i].id == children[offset + i]
         && children[offset + i] in t && objects[i].row == t[children[offset + i]]
  }

  lemma PageIsPart(s: seq<Id>, offset: nat)
    ensures |Page(s, offset)| == if |s| <= offset then 0 else if |s| - offset < 100 then |s| - offset else 100
    ensures forall i :: 0 <= i < |Page(s, offset)| ==> offset + i < |s| && Page(s, offset)[i] == s[offset + i]
  {
  }

  lemma PageIsListed(s: seq<Id>, offset: nat)
    ensures forall x :: x in FirstOf(AfterFirst(s, offset), PAGE_SIZE) ==> x in s
  {
  }

  /** What is still to come of the loop, given its two flags. */
  function ToSweep(s: seq<Id>, ok: set<Id>, hasUndeletedChildren: bool, deletedAtLeastOne: bool): seq<Id> {
    if !hasUndeletedChildren then s
    else if deletedAtLeastOne then Left(s, ok)
    else PageDone(s, PAGE_SIZE, ok)
  }

  /** The root is marked, and finishing the loop will leave of its listing what it should. */
  ghost predicate Sweeping(order: seq<Id>, t0: Table, t: Table, kind: Kind, root: Id, explicit: bool, user: User,
                           hasUndeletedChildren: bool, deletedAtLeastOne: bool) {
    && Partial(order, t0, t, kind, root, explicit, user)
    && ToSweep(LiveChildren(order, t, root), Deletable(t0, user), hasUndeletedChildren, deletedAtLeastOne)
       == Left(LiveChildren(order, t0, root), Deletable(t0, user))
  }

  lemma OnlyPage(s: seq<Id>, ok: set<Id>)
    requires |s| <= PAGE_SIZE
    ensures PageDone(s, 0, ok) == Left(s, ok)
  {
    assert AfterFirst(s, 0) == s;
  }

  /** Once a full first page is done, it comes round again if its last object went; otherwise the second
      page is still to be done. */
  lemma FirstOfMany(s: seq<Id>, ok: set<Id>)
    requires PAGE_SIZE < |s|
    ensures var s' := PageDone(s, 0, ok);
            if s[PAGE_SIZE - 1] in ok then Left(s', ok) == Left(s, ok) && |s'| < |s|
            else PageDone(s', PAGE_SIZE, ok) == Left(s, ok)
  {
    if s[PAGE_SIZE - 1] in ok {
      KeepDropsOne(s[..PAGE_SIZE], PAGE_SIZE - 1, ok);
    }
  }

  lemma FirstPageEnds(s: seq<Id>)
    requires PAGE_SIZE < |s|
    ensures |Page(s, 0)| == PAGE_SIZE && Page(s, 0)[PAGE_SIZE - 1] == s[PAGE_SIZE - 1]
  {
  }

  /** One turn of the loop keeps what is to come: the first page may come round again, and once its last
      object stays the second page is the last. */
  lemma TurnSweeps(s: seq<Id>, ok: set<Id>, pageCount: nat, deletedAtLeastOne: bool)
    requires |s| <= pageCount * PAGE_SIZE
    requires 0 < pageCount ==> (pageCount - 1) * PAGE_SIZE < |s|
    ensures var pageNumber := if deletedAtLeastOne then 1 else 2;
            var offset := (pageNumber - 1) * PAGE_SIZE;
            var s' := PageDone(s, offset, ok);
            var page := Page(s, offset);
            var more := pageNumber < pageCount && deletedAtLeastOne;
            var last := if page == [] then deletedAtLeastOne else page[|page| - 1] in ok;
            && ToSweep(s', ok, more, last) == ToSweep(s, ok, true, deletedAtLeastOne)
            && (more && last ==> |s'| < |s|)
  {
    if deletedAtLeastOne {
      if |s| <= PAGE_SIZE {
        assert pageCount <= 1;
        OnlyPage(s, ok);
      } else {
        FirstPageEnds(s);
        FirstOfMany(s, ok);
      }
    }
  }

  lemma RootMarked(order: seq<Id>, depth: map<Id, nat>, t0: Table, t: Table, kind: Kind, root: Id, explicit: bool,
                   user: User)
    requires Forest(t0, depth) && root in t0
    requires t == t0[root := Marked(t0[root], kind, explicit)]
    ensures Forest(t, depth)
    ensures Sweeping(order, t0, t, kind, root, explicit, user, true, true)
  {
    assert Touched(t0, t) == {root};
    ListingAgrees(order, t0, t, root);
  }

  predicate Proceeds(t: Table, id: Id, changeToken: nat, kind: Kind, explicit: bool) {
    && id in t && changeToken == t[id].changeCount && !AlreadyDone(t[id], kind)
    && TriggerAccepts(t, id, Marked(t[id], kind, explicit))
  }

  function Verdict(t: Table, id: Id, changeToken: nat, kind: Kind, explicit: bool): Result {
    if id !in t then Err(NotFound)
    else if changeToken != t[id].changeCount then Err(StaleChangeToken)
    else if AlreadyDone(t[id], kind) then Ok
    else if !TriggerAccepts(t, id, Marked(t[id], kind, explicit)) then Err(RejectedByTrigger)
    else Ok
  }
}
