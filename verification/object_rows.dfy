/** The object table as values: rows, the listing of a parent's live children, and what the delete,
    expunge and undelete statements write (dao/dao.DeleteObject.go, dao/dao.ExpungeObject.go,
    dao/dao.UndeleteObject.go, dao/dao.GetChildObjects.go). */
module ObjectRows {

  type Id = int

  datatype Option<+T> = None | Some(value: T)

  datatype Permission = Permission(grantee: string, allowDelete: bool, isDeleted: bool)

  datatype Row = Row(
    parent: Option<Id>,
    isDeleted: bool,
    isAncestorDeleted: bool,
    isExpunged: bool,
    changeCount: nat,
    permissions: seq<Permission>)

  type Table = map<Id, Row>

  /** The values of the user's f_share snippet, the groups the user is a member of. */
  datatype User = User(shares: seq<string>)

  datatype Kind = Delete | Expunge

  function ToLower(s: string): string {
    seq(|s|, i requires 0 <= i < |s| => if 'A' <= s[i] <= 'Z' then (s[i] as int + 32) as char else s[i])
  }

  predicate IsUserMemberOf(user: User, groupName: string) {
    exists v :: v in user.shares && ToLower(v) == ToLower(groupName)
  }

  /** Some permission in force lets the user delete the object. */
  predicate MayDelete(user: User, row: Row) {
    exists p :: p in row.permissions && !p.isDeleted && p.allowDelete && IsUserMemberOf(user, p.grantee)
  }

  predicate IsLiveChild(t: Table, x: Id, parent: Id) {
    x in t && !t[x].isDeleted && t[x].parent == Some(parent)
  }

  /** The live children of an object in listing order. */
  function LiveChildren(order: seq<Id>, t: Table, parent: Id): seq<Id> {
    if order == [] then []
    else if IsLiveChild(t, order[0], parent) then [order[0]] + LiveChildren(order[1..], t, parent)
    else LiveChildren(order[1..], t, parent)
  }

  /** The children a cascade may go on to: authorised, and not marked as deleted with an ancestor. */
  function Deletable(t: Table, user: User): set<Id> {
    set x | x in t && !t[x].isAncestorDeleted && MayDelete(user, t[x])
  }

  function AlreadyDone(row: Row, kind: Kind): bool {
    if kind.Delete? then row.isDeleted else row.isExpunged
  }

  /** What the update statement writes, with the change count the row trigger adds. */
  function Marked(row: Row, kind: Kind, explicit: bool): Row {
    row.(isDeleted := true,
         isAncestorDeleted := !explicit,
         isExpunged := row.isExpunged || kind.Expunge?,
         changeCount := row.changeCount + 1)
  }

  function Unmarked(row: Row): Row {
    row.(isDeleted := false, isAncestorDeleted := false, changeCount := row.changeCount + 1)
  }

  /** The row trigger lets an update through when the parent is live, or the deleted flag flips. */
  predicate TriggerAccepts(t: Table, id: Id, row: Row)
    requires id in t
  {
    match t[id].parent
    case None => true
    case Some(p) => p in t && (!t[p].isDeleted || row.isDeleted != t[id].isDeleted)
  }

  /** Parents exist and lie strictly nearer the root. */
  ghost predicate Forest(t: Table, depth: map<Id, nat>) {
    && t.Keys == depth.Keys
    && forall x :: x in t && t[x].parent.Some? ==> t[x].parent.value in t && depth[t[x].parent.value] < depth[x]
  }

  ghost predicate NoDuplicates(s: seq<Id>) {
    forall i, j :: 0 <= i < j < |s| ==> s[i] != s[j]
  }

  // ----- Listings -----

  lemma {:induction false} ListingMembers(order: seq<Id>, t: Table, parent: Id)
    ensures forall x :: x in LiveChildren(order, t, parent) <==> x in order && IsLiveChild(t, x, parent)
  {
    if order != [] {
      ListingMembers(order[1..], t, parent);
    }
  }

  /** The children come in the order of the listing. */
  lemma {:induction false} ListingInOrder(order: seq<Id>, t: Table, parent: Id, i: nat, j: nat)
    requires i < j < |LiveChildren(order, t, parent)|
    ensures var children := LiveChildren(order, t, parent);
            exists a, b :: 0 <= a < b < |order| && order[a] == children[i] && order[b] == children[j]
  {
    var rest := LiveChildren(order[1..], t, parent);
    if !IsLiveChild(t, order[0], parent) {
      ListingInOrder(order[1..], t, parent, i, j);
      var a, b :| 0 <= a < b < |order[1..]| && order[1..][a] == rest[i] && order[1..][b] == rest[j];
      assert order[a + 1] == rest[i] && order[b + 1] == rest[j];
    } else if 0 < i {
      ListingInOrder(order[1..], t, parent, i - 1, j - 1);
      var a, b :| 0 <= a < b < |order[1..]| && order[1..][a] == rest[i - 1] && order[1..][b] == rest[j - 1];
      assert order[a + 1] == rest[i - 1] && order[b + 1] == rest[j - 1];
    } else {
      ListingMembers(order[1..], t, parent);
      assert rest[j - 1] in rest;
      var b :| 0 <= b < |order[1..]| && order[1..][b] == rest[j - 1];
      assert order[0] == LiveChildren(order, t, parent)[0] && order[b + 1] == rest[j - 1];
    }
  }

  lemma {:induction false} ListingHasNoDuplicates(order: seq<Id>, t: Table, parent: Id)
    requires NoDuplicates(order)
    ensures NoDuplicates(LiveChildren(order, t, parent))
  {
    if order != [] {
      ListingHasNoDuplicates(order[1..], t, parent);
      ListingMembers(order[1..], t, parent);
      var rest := LiveChildren(order[1..], t, parent);
      assert order[0] !in order[1..];
      assert order[0] !in rest;
    }
  }

  /** The same children are live, so the listing is the same. */
  lemma {:induction false} ListingAgrees(order: seq<Id>, t: Table, t': Table, parent: Id)
    requires forall x :: x in order ==> (IsLiveChild(t, x, parent) <==> IsLiveChild(t', x, parent))
    ensures LiveChildren(order, t, parent) == LiveChildren(order, t', parent)
  {
    if order != [] {
      ListingAgrees(order[1..], t, t', parent);
    }
  }

  /** Drops the listed ids that are in the set, keeping the order. */
  function Keep(s: seq<Id>, gone: set<Id>): seq<Id> {
    if s == [] then []
    else if s[0] in gone then Keep(s[1..], gone)
    else [s[0]] + Keep(s[1..], gone)
  }

  lemma {:induction false} KeepMembers(s: seq<Id>, gone: set<Id>)
    ensures forall x :: x in Keep(s, gone) <==> x in s && x !in gone
    ensures |Keep(s, gone)| <= |s|
  {
    if s != [] {
      KeepMembers(s[1..], gone);
    }
  }

  /** One live child after another disappears from the listing, the others stay in place. */
  lemma {:induction false} ListingShrinks(order: seq<Id>, t: Table, t': Table, parent: Id, gone: set<Id>)
    requires forall x :: x in order ==> (IsLiveChild(t', x, parent) <==> IsLiveChild(t, x, parent) && x !in gone)
    ensures LiveChildren(order, t', parent) == Keep(LiveChildren(order, t, parent), gone)
  {
    if order != [] {
      ListingShrinks(order[1..], t, t', parent, gone);
    }
  }

  lemma Regroup(x: Id, a: seq<Id>, b: seq<Id>)
    ensures [x] + (a + b) == ([x] + a) + b
  {
  }

  lemma {:induction false} KeepSplit(a: seq<Id>, b: seq<Id>, gone: set<Id>)
    ensures Keep(a + b, gone) == Keep(a, gone) + Keep(b, gone)
  {
    if a == [] {
      assert a + b == b;
    } else {
      KeepSplit(a[1..], b, gone);
      assert (a + b)[1..] == a[1..] + b;
      Regroup(a[0], Keep(a[1..], gone), Keep(b, gone));
    }
  }

  lemma {:induction false} KeepAgrees(s: seq<Id>, gone: set<Id>, gone': set<Id>)
    requires forall x :: x in s ==> (x in gone <==> x in gone')
    ensures Keep(s, gone) == Keep(s, gone')
  {
    if s != [] {
      var head := s[0];
      assert head in s;
      KeepAgrees(s[1..], gone, gone');
    }
  }

  lemma {:induction false} KeepNone(s: seq<Id>, gone: set<Id>)
    requires forall x :: x in s ==> x !in gone
    ensures Keep(s, gone) == s
  {
    if s != [] {
      var head := s[0];
      assert head in s && s == [head] + s[1..];
      KeepNone(s[1..], gone);
    }
  }

  lemma {:induction false} KeepDropsOne(s: seq<Id>, k: nat, gone: set<Id>)
    requires k < |s| && s[k] in gone
    ensures |Keep(s, gone)| < |s|
  {
    if k == 0 {
      KeepMembers(s[1..], gone);
    } else {
      KeepDropsOne(s[1..], k - 1, gone);
    }
  }

  lemma {:induction false} KeepDropsAll(s: seq<Id>, gone: set<Id>)
    requires forall x :: x in s ==> x in gone
    ensures Keep(s, gone) == []
  {
    if s != [] {
      var head := s[0];
      assert head in s;
      KeepDropsAll(s[1..], gone);
    }
  }

  // ----- The paging loop -----

  const PAGE_SIZE: nat := 100

  function FirstOf(s: seq<Id>, n: nat): seq<Id> {
    if |s| <= n then s else s[..n]
  }

  function AfterFirst(s: seq<Id>, n: nat): seq<Id> {
    if |s| <= n then [] else s[n..]
  }

  /** What is left of a listing once the page at this offset has been worked through. */
  function PageDone(s: seq<Id>, offset: nat, ok: set<Id>): seq<Id> {
    var rest := AfterFirst(s, offset);
    FirstOf(s, offset) + Keep(FirstOf(rest, PAGE_SIZE), ok) + AfterFirst(rest, PAGE_SIZE)
  }

  /** What the whole loop leaves of a listing: the first page again and again while its last object is
      deleted; once that object stays, one more page and no further. */
  function Left(s: seq<Id>, ok: set<Id>): seq<Id>
    decreases |s|
  {
    if |s| <= PAGE_SIZE then Keep(s, ok)
    else if s[PAGE_SIZE - 1] in ok then
      KeepDropsOne(s[..PAGE_SIZE], PAGE_SIZE - 1, ok);
      Left(PageDone(s, 0, ok), ok)
    else PageDone(PageDone(s, 0, ok), PAGE_SIZE, ok)
  }

  lemma {:induction false} LeftAgrees(s: seq<Id>, ok: set<Id>, ok': set<Id>)
    requires forall x :: x in s ==> (x in ok <==> x in ok')
    ensures Left(s, ok) == Left(s, ok')
    decreases |s|
  {
    PageDoneAgrees(s, 0, ok, ok');
    if PAGE_SIZE < |s| {
      KeepDropsNone(s, ok);
      if s[PAGE_SIZE - 1] in ok {
        KeepDropsOne(s[..PAGE_SIZE], PAGE_SIZE - 1, ok);
        LeftAgrees(PageDone(s, 0, ok), ok, ok');
      } else {
        PageDoneAgrees(PageDone(s, 0, ok), PAGE_SIZE, ok, ok');
      }
    } else {
      KeepAgrees(s, ok, ok');
    }
  }

  lemma KeepDropsNone(s: seq<Id>, ok: set<Id>)
    ensures forall x :: x in PageDone(s, 0, ok) ==> x in s
  {
    KeepMembers(FirstOf(s, PAGE_SIZE), ok);
  }

  lemma PageDoneAgrees(s: seq<Id>, offset: nat, ok: set<Id>, ok': set<Id>)
    requires forall x :: x in s ==> (x in ok <==> x in ok')
    ensures PageDone(s, offset, ok) == PageDone(s, offset, ok')
  {
    KeepAgrees(FirstOf(AfterFirst(s, offset), PAGE_SIZE), ok, ok');
  }

  /** When every listed child may be deleted, none is left, however many pages they fill. */
  lemma {:induction false} LeftNone(s: seq<Id>, ok: set<Id>)
    requires forall x :: x in s ==> x in ok
    ensures Left(s, ok) == []
    decreases |s|
  {
    if |s| <= PAGE_SIZE {
      KeepDropsAll(s, ok);
    } else {
      var last := s[PAGE_SIZE - 1];
      assert last in s;
      KeepDropsOne(s[..PAGE_SIZE], PAGE_SIZE - 1, ok);
      KeepDropsNone(s, ok);
      LeftNone(PageDone(s, 0, ok), ok);
    }
  }

  /** Within one page, exactly the children that may not be deleted are left. */
  lemma LeftOnePage(s: seq<Id>, ok: set<Id>)
    requires |s| <= PAGE_SIZE
    ensures forall x :: x in Left(s, ok) <==> x in s && x !in ok
  {
    KeepMembers(s, ok);
  }

  /** Beyond one page this can fail: when the last child on the first page has to stay but one before
      it goes, the listing moves up under the loop, and the first child of the second page is passed
      over although it may be deleted. */
  lemma LeftStrands(s: seq<Id>, ok: set<Id>, k: nat)
    requires 100 < |s| && s[99] !in ok && s[100] in ok
    requires k < 100 && s[k] in ok
    ensures s[100] in Left(s, ok)
  {
    var kept := Keep(s[..PAGE_SIZE], ok);
    KeepDropsOne(s[..PAGE_SIZE], k, ok);
    var s' := PageDone(s, 0, ok);
    assert s' == kept + s[PAGE_SIZE..];
    assert s'[|kept|] == s[PAGE_SIZE];
    assert FirstOf(s', PAGE_SIZE)[|kept|] == s[PAGE_SIZE];
  }

  predicate NoneOf(s: seq<Id>, ok: set<Id>) {
    forall x :: x in s ==> x !in ok
  }

  /** Where in the listing, as it was, the first page ends once those before index m that may be deleted are
      gone and the others have moved up. */
  function PageEnd(s: seq<Id>, ok: set<Id>, m: nat): nat
    requires m <= |s| && |Keep(s[..m], ok)| <= PAGE_SIZE
  {
    m + PAGE_SIZE - |Keep(s[..m], ok)|
  }

  lemma {:induction false} KeepGrows(s: seq<Id>, ok: set<Id>, m: nat, n: nat)
    requires m <= n <= |s|
    ensures |Keep(s[..m], ok)| <= |Keep(s[..n], ok)| <= |Keep(s[..m], ok)| + (n - m)
  {
    assert s[..n] == s[..m] + s[m..n];
    KeepSplit(s[..m], s[m..n], ok);
    KeepMembers(s[m..n], ok);
  }

  lemma PageEndMoves(s: seq<Id>, ok: set<Id>, m: nat)
    requires 0 < m < |s| && |Keep(s[..m - 1], ok)| < PAGE_SIZE && s[m - 1] in ok
    ensures |Keep(s[..m], ok)| < PAGE_SIZE && m < PageEnd(s, ok, m)
    ensures PageEnd(s, ok, m) <= |s| ==> |Keep(s[..PageEnd(s, ok, m) - 1], ok)| < PAGE_SIZE
  {
    assert s[..m] == s[..m - 1] + [s[m - 1]];
    KeepSplit(s[..m - 1], [s[m - 1]], ok);
    if PageEnd(s, ok, m) <= |s| {
      KeepGrows(s, ok, m, PageEnd(s, ok, m) - 1);
    }
  }

  lemma PageEndBound(s: seq<Id>, ok: set<Id>, m: nat)
    requires 0 < m <= |s| && |Keep(s[..m - 1], ok)| < PAGE_SIZE
    ensures |Keep(s[..m], ok)| <= PAGE_SIZE
  {
    KeepGrows(s, ok, m - 1, m);
  }

  /** Where the first page ends when the loop first meets one whose last child has to stay, or some index
      from the end of the listing on. */
  function Sticks(s: seq<Id>, ok: set<Id>, m: nat): (stuck: nat)
    requires 0 < m && (m <= |s| ==> |Keep(s[..m - 1], ok)| < PAGE_SIZE)
    ensures m <= stuck && (stuck <= |s| ==> |Keep(s[..stuck], ok)| <= PAGE_SIZE)
    decreases if m < |s| then |s| - m else 0
  {
    if |s| <= m || s[m - 1] !in ok then
      if m <= |s| then PageEndBound(s, ok, m); m else m
    else
      PageEndMoves(s, ok, m);
      Sticks(s, ok, PageEnd(s, ok, m))
  }

  /** With the first page stuck at this index, the children that move up to it stay, and those beyond the
      page after it. */
  predicate PassedOver(s: seq<Id>, ok: set<Id>, stuck: nat, i: nat)
    requires stuck < |s| && |Keep(s[..stuck], ok)| <= PAGE_SIZE && i < |s|
  {
    s[i] in ok && (stuck <= i < PageEnd(s, ok, stuck) || PageEnd(s, ok, stuck) + PAGE_SIZE <= i)
  }

  /** The loop passes nothing over: no page sticks before the last, or none of those may be deleted. */
  predicate PassesNothingOver(s: seq<Id>, ok: set<Id>) {
    var stuck := StuckAt(s, ok);
    stuck < |s| ==> forall i :: 0 <= i < |s| ==> !PassedOver(s, ok, stuck, i)
  }

  function StuckAt(s: seq<Id>, ok: set<Id>): (stuck: nat)
    ensures stuck <= |s| ==> |Keep(s[..stuck], ok)| <= PAGE_SIZE
  {
    if PAGE_SIZE <= |s| then
      KeepMembers(s[..PAGE_SIZE - 1], ok);
      Sticks(s, ok, PAGE_SIZE)
    else |s| + 1
  }

  /** The listing once everything that may be deleted is gone from the part before m. */
  function Worked(s: seq<Id>, ok: set<Id>, m: nat): seq<Id>
    requires m <= |s|
  {
    Keep(s[..m], ok) + s[m..]
  }

  lemma {:induction false} KeepTwice(s: seq<Id>, ok: set<Id>)
    ensures Keep(Keep(s, ok), ok) == Keep(s, ok)
  {
    KeepMembers(s, ok);
    KeepNone(Keep(s, ok), ok);
  }

  /** Working through the first page moves on to where it ended. */
  lemma WorkedPage(s: seq<Id>, ok: set<Id>, p: nat)
    requires p <= |s| && |Keep(s[..p], ok)| < PAGE_SIZE && PageEnd(s, ok, p) < |s|
    ensures var m := PageEnd(s, ok, p);
            && PAGE_SIZE < |Worked(s, ok, p)| && Worked(s, ok, p)[PAGE_SIZE - 1] == s[m - 1]
            && PageDone(Worked(s, ok, p), 0, ok) == Worked(s, ok, m)
  {
    var m, kept, listing := PageEnd(s, ok, p), Keep(s[..p], ok), Worked(s, ok, p);
    assert FirstOf(listing, PAGE_SIZE) == kept + s[p..m];
    assert AfterFirst(listing, PAGE_SIZE) == s[m..];
    KeepSplit(kept, s[p..m], ok);
    KeepTwice(s[..p], ok);
    assert s[..m] == s[..p] + s[p..m];
    KeepSplit(s[..p], s[p..m], ok);
    assert FirstOf(listing, 0) == [] && AfterFirst(listing, 0) == listing;
  }

  /** What is passed over once a page sticks. */
  lemma StuckLeaves(s: seq<Id>, ok: set<Id>, stuck: nat)
    requires stuck < |s| && |Keep(s[..stuck], ok)| <= PAGE_SIZE
    ensures NoneOf(PageDone(Worked(s, ok, stuck), PAGE_SIZE, ok), ok) <==>
            forall i :: 0 <= i < |s| ==> !PassedOver(s, ok, stuck, i)
  {
    var rest, kept, m := Worked(s, ok, stuck), Keep(s[..stuck], ok), PageEnd(s, ok, stuck);
    SecondPageMembers(rest, ok);
    KeepMembers(s[..stuck], ok);
    var first, third := FirstOf(rest, PAGE_SIZE), AfterFirst(AfterFirst(rest, PAGE_SIZE), PAGE_SIZE);
    if NoneOf(first, ok) && NoneOf(third, ok) {
      forall i | 0 <= i < |s|
        ensures !PassedOver(s, ok, stuck, i)
      {
        if stuck <= i < m {
          assert first[|kept| + i - stuck] == s[i];
        } else if m + PAGE_SIZE <= i {
          assert third[i - m - PAGE_SIZE] == s[i];
        }
      }
    }
    if forall i :: 0 <= i < |s| ==> !PassedOver(s, ok, stuck, i) {
      forall k | 0 <= k < |first|
        ensures first[k] !in ok
      {
        if k < |kept| {
          assert first[k] == kept[k] && kept[k] in kept;
        } else {
          assert first[k] == s[stuck + k - |kept|];
          assert !PassedOver(s, ok, stuck, stuck + k - |kept|);
        }
      }
      forall k | 0 <= k < |third|
        ensures third[k] !in ok
      {
        assert third[k] == s[m + PAGE_SIZE + k];
        assert !PassedOver(s, ok, stuck, m + PAGE_SIZE + k);
      }
    }
  }

  lemma {:induction false} LeftFrom(s: seq<Id>, ok: set<Id>, p: nat)
    requires p <= |s| && |Keep(s[..p], ok)| < PAGE_SIZE
    requires PageEnd(s, ok, p) <= |s| ==> |Keep(s[..PageEnd(s, ok, p) - 1], ok)| < PAGE_SIZE
    ensures var stuck := Sticks(s, ok, PageEnd(s, ok, p));
            NoneOf(Left(Worked(s, ok, p), ok), ok) <==>
            (stuck < |s| ==> forall i :: 0 <= i < |s| ==> !PassedOver(s, ok, stuck, i))
    decreases |s| - p
  {
    var m := PageEnd(s, ok, p);
    if |s| <= m {
      KeepMembers(Worked(s, ok, p), ok);
    } else {
      WorkedPage(s, ok, p);
      if s[m - 1] in ok {
        PageEndMoves(s, ok, m);
        LeftFrom(s, ok, m);
      } else {
        PageEndBound(s, ok, m);
        StuckLeaves(s, ok, m);
      }
    }
  }

  /** Every child that may be deleted goes exactly when nothing is passed over. */
  lemma LeftExactly(s: seq<Id>, ok: set<Id>)
    ensures NoneOf(Left(s, ok), ok) <==> PassesNothingOver(s, ok)
  {
    if PAGE_SIZE <= |s| {
      KeepMembers(s[..PAGE_SIZE - 1], ok);
      assert s[..0] == [] && Worked(s, ok, 0) == s;
      LeftFrom(s, ok, 0);
    } else {
      KeepMembers(s, ok);
    }
  }

  lemma SecondPageMembers(s: seq<Id>, ok: set<Id>)
    ensures NoneOf(PageDone(s, PAGE_SIZE, ok), ok) <==>
            NoneOf(FirstOf(s, PAGE_SIZE), ok) && NoneOf(AfterFirst(AfterFirst(s, PAGE_SIZE), PAGE_SIZE), ok)
  {
    var rest := AfterFirst(s, PAGE_SIZE);
    var first, second, third := FirstOf(s, PAGE_SIZE), Keep(FirstOf(rest, PAGE_SIZE), ok), AfterFirst(rest, PAGE_SIZE);
    KeepMembers(FirstOf(rest, PAGE_SIZE), ok);
    forall x
      ensures x in PageDone(s, PAGE_SIZE, ok) <==> x in first || x in second || x in third
    {
    }
  }
}
