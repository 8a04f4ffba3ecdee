/** What undelete does to the object table (dao/dao.UndeleteObject.go). */
module ObjectRestore {
  import opened ObjectRows

  /** Marked as deleted with an ancestor, and not expunged: what the undelete query selects. */
  predicate Selectable(row: Row) {
    row.isAncestorDeleted && !row.isExpunged
  }

  /** x is reached from r by going down through selectable objects only. */
  ghost predicate Below(t: Table, depth: map<Id, nat>, r: Id, x: Id)
    requires Forest(t, depth) && x in t
    decreases depth[x]
  {
    && Selectable(t[x])
    && t[x].parent.Some?
    && (t[x].parent.value == r || Below(t, depth, r, t[x].parent.value))
  }

  ghost function AllBelow(t: Table, depth: map<Id, nat>, r: Id): set<Id>
    requires Forest(t, depth)
  {
    set x | x in t && Below(t, depth, r, x)
  }

  /** The update joins the permission table, so an object without a permission row is not touched. */
  function UnmarkedIf(row: Row, chosen: bool): Row {
    if chosen && row.permissions != [] then Unmarked(row) else row
  }

  ghost predicate Unmarks(t: Table, t': Table, ids: set<Id>) {
    && t'.Keys == t.Keys
    && forall x :: x in t ==> t'[x] == UnmarkedIf(t[x], x in ids)
  }

  function SelectChildren(order: seq<Id>, t: Table, id: Id): seq<Id> {
    if order == [] then []
    else if order[0] in t && Selectable(t[order[0]]) && t[order[0]].parent == Some(id)
      then [order[0]] + SelectChildren(order[1..], t, id)
    else SelectChildren(order[1..], t, id)
  }

  lemma {:induction false} SelectMembers(order: seq<Id>, t: Table, id: Id)
    requires NoDuplicates(order)
    ensures forall x :: x in SelectChildren(order, t, id) <==>
                        x in order && x in t && Selectable(t[x]) && t[x].parent == Some(id)
    ensures NoDuplicates(SelectChildren(order, t, id))
  {
    if order != [] {
      SelectMembers(order[1..], t, id);
      var head := order[0];
      assert head !in order[1..];
    }
  }

  /** Everything below the first k of these objects. */
  ghost function BelowFirst(t: Table, depth: map<Id, nat>, kids: seq<Id>, k: nat): set<Id>
    requires Forest(t, depth) && k <= |kids|
  {
    if k == 0 then {} else BelowFirst(t, depth, kids, k - 1) + AllBelow(t, depth, kids[k - 1])
  }

  lemma {:induction false} BelowIsDeeper(t: Table, depth: map<Id, nat>, r: Id, x: Id)
    requires Forest(t, depth) && x in t && r in t && Below(t, depth, r, x)
    ensures depth[r] < depth[x]
    decreases depth[x]
  {
    if t[x].parent.value != r {
      BelowIsDeeper(t, depth, r, t[x].parent.value);
    }
  }

  /** Nothing lies below two different children of one object. */
  lemma {:induction false} BelowOneChild(t: Table, depth: map<Id, nat>, id: Id, c: Id, c': Id, x: Id)
    requires Forest(t, depth) && x in t && c in t && c' in t
    requires t[c].parent == Some(id) && t[c'].parent == Some(id)
    requires Below(t, depth, c, x) && Below(t, depth, c', x)
    ensures c == c'
    decreases depth[x]
  {
    var p := t[x].parent.value;
    if p == c {
      if c != c' {
        assert Below(t, depth, c', c);
        assert id in t && id != c';
        BelowIsDeeper(t, depth, c', id);
      }
    } else if p == c' {
      assert Below(t, depth, c, c');
      assert id in t && id != c;
      BelowIsDeeper(t, depth, c, id);
    } else {
      BelowOneChild(t, depth, id, c, c', p);
    }
  }

  /** What lies below an object is its selectable children and what lies below each of them. */
  lemma {:induction false} BelowThroughChildren(t: Table, depth: map<Id, nat>, id: Id, x: Id)
    requires Forest(t, depth) && x in t
    ensures Below(t, depth, id, x) <==>
            || (Selectable(t[x]) && t[x].parent == Some(id))
            || exists c :: c in t && Selectable(t[c]) && t[c].parent == Some(id) && Below(t, depth, c, x)
    decreases depth[x]
  {
    if Selectable(t[x]) && t[x].parent.Some? {
      var p := t[x].parent.value;
      BelowThroughChildren(t, depth, id, p);
      if Below(t, depth, id, x) && p != id {
        if Selectable(t[p]) && t[p].parent == Some(id) {
          assert Below(t, depth, p, x);
        } else {
          var c :| c in t && Selectable(t[c]) && t[c].parent == Some(id) && Below(t, depth, c, p);
          assert Below(t, depth, c, x);
        }
      }
      if c :| c in t && Selectable(t[c]) && t[c].parent == Some(id) && Below(t, depth, c, x) {
        assert p == c || Below(t, depth, c, p);
      }
    }
  }

  /** Unmarking objects that do not lie below c leaves what lies below c as it was. */
  lemma {:induction false} BelowUnaffected(t: Table, t': Table, depth: map<Id, nat>, ids: set<Id>, c: Id, x: Id)
    requires Forest(t, depth) && x in t && Unmarks(t, t', ids)
    requires forall y :: y in ids && y in t ==> !Below(t, depth, c, y)
    ensures Forest(t', depth)
    ensures Below(t', depth, c, x) <==> Below(t, depth, c, x)
    decreases depth[x]
  {
    UnmarkKeepsForest(t, t', depth, ids);
    if t[x].parent.Some? && t[x].parent.value != c {
      BelowUnaffected(t, t', depth, ids, c, t[x].parent.value);
    }
  }

  lemma UnmarkKeepsForest(t: Table, t': Table, depth: map<Id, nat>, ids: set<Id>)
    requires Forest(t, depth) && Unmarks(t, t', ids)
    ensures Forest(t', depth)
  {
  }

  lemma UnmarkTwice(t: Table, t1: Table, t2: Table, a: set<Id>, b: set<Id>)
    requires Unmarks(t, t1, a) && Unmarks(t1, t2, b) && a !! b
    ensures Unmarks(t, t2, a + b)
  {
  }

  /** Rows marked as deleted with an ancestor are deleted rows. */
  ghost predicate AncestorDeletedAreDeleted(t: Table) {
    forall x :: x in t && t[x].isAncestorDeleted ==> t[x].isDeleted
  }

  function Ids(s: seq<Id>): set<Id> {
    set x | x in s
  }

  lemma IdsSnoc(s: seq<Id>, i: nat)
    requires i < |s|
    ensures Ids(s[..i + 1]) == Ids(s[..i]) + {s[i]}
  {
    assert s[..i + 1] == s[..i] + [s[i]];
  }

  /** The selected children of an object, each once. */
  ghost predicate AreKids(t: Table, id: Id, kids: seq<Id>) {
    && NoDuplicates(kids)
    && forall x :: x in kids <==> x in t && Selectable(t[x]) && t[x].parent == Some(id)
  }

  lemma {:induction false} BelowFirstMembers(t: Table, depth: map<Id, nat>, kids: seq<Id>, k: nat)
    requires Forest(t, depth) && k <= |kids|
    ensures forall x :: x in BelowFirst(t, depth, kids, k) <==>
                        x in t && exists i :: 0 <= i < k && Below(t, depth, kids[i], x)
  {
    if k != 0 {
      BelowFirstMembers(t, depth, kids, k - 1);
    }
  }

  /** What has been unmarked when the children and what lies below the first i of them are done. */
  ghost function Done(t: Table, depth: map<Id, nat>, kids: seq<Id>, i: nat): set<Id>
    requires Forest(t, depth) && i <= |kids|
  {
    Ids(kids) + BelowFirst(t, depth, kids, i)
  }

  /** The next child's part is disjoint from what is done. */
  lemma BelowNextApart(t: Table, depth: map<Id, nat>, id: Id, kids: seq<Id>, i: nat, y: Id)
    requires Forest(t, depth) && id in t && AreKids(t, id, kids) && i < |kids|
    requires y in t && y in Done(t, depth, kids, i)
    ensures !Below(t, depth, kids[i], y)
  {
    var c := kids[i];
    assert c in kids;
    BelowFirstMembers(t, depth, kids, i);
    if Below(t, depth, c, y) {
      if y in kids {
        BelowIsDeeper(t, depth, c, y);
        assert t[y].parent == Some(id);
        if id != c {
          BelowIsDeeper(t, depth, c, id);
        }
      } else {
        var j :| 0 <= j < i && Below(t, depth, kids[j], y);
        assert kids[j] in kids;
        BelowOneChild(t, depth, id, c, kids[j], y);
      }
    }
  }

  lemma BelowNext(t: Table, t1: Table, depth: map<Id, nat>, id: Id, kids: seq<Id>, i: nat)
    requires Forest(t, depth) && id in t && AreKids(t, id, kids) && i < |kids|
    requires Unmarks(t, t1, Done(t, depth, kids, i))
    ensures kids[i] in t && depth[id] < depth[kids[i]]
    ensures Done(t, depth, kids, i) !! AllBelow(t, depth, kids[i])
    ensures Forest(t1, depth)
    ensures AllBelow(t1, depth, kids[i]) == AllBelow(t, depth, kids[i])
  {
    var c := kids[i];
    assert c in kids;
    forall y | y in Done(t, depth, kids, i) && y in t
      ensures !Below(t, depth, c, y)
    {
      BelowNextApart(t, depth, id, kids, i, y);
    }
    UnmarkKeepsForest(t, t1, depth, Done(t, depth, kids, i));
    forall x | x in t
      ensures Below(t1, depth, c, x) <==> Below(t, depth, c, x)
    {
      BelowUnaffected(t, t1, depth, Done(t, depth, kids, i), c, x);
    }
  }

  lemma RestoresNext(t: Table, t1: Table, t2: Table, depth: map<Id, nat>, id: Id, kids: seq<Id>, i: nat)
    requires Forest(t, depth) && id in t && AreKids(t, id, kids) && i < |kids|
    requires Unmarks(t, t1, Done(t, depth, kids, i)) && Forest(t1, depth)
    requires Unmarks(t1, t2, AllBelow(t1, depth, kids[i]))
    ensures Unmarks(t, t2, Done(t, depth, kids, i + 1))
  {
    BelowNext(t, t1, depth, id, kids, i);
    UnmarkTwice(t, t1, t2, Done(t, depth, kids, i), AllBelow(t, depth, kids[i]));
    assert Done(t, depth, kids, i) + AllBelow(t, depth, kids[i]) == Done(t, depth, kids, i + 1);
  }

  lemma BelowAllChildren(t: Table, depth: map<Id, nat>, id: Id, kids: seq<Id>)
    requires Forest(t, depth) && AreKids(t, id, kids)
    ensures Done(t, depth, kids, |kids|) == AllBelow(t, depth, id)
  {
    BelowFirstMembers(t, depth, kids, |kids|);
    forall x | x in t
      ensures x in Done(t, depth, kids, |kids|) <==> Below(t, depth, id, x)
    {
      BelowThroughChildren(t, depth, id, x);
      if c :| c in t && Selectable(t[c]) && t[c].parent == Some(id) && Below(t, depth, c, x) {
        assert c in kids;
        var i :| 0 <= i < |kids| && kids[i] == c;
        assert Below(t, depth, kids[i], x);
      }
    }
  }

  /** The first statement of an undelete: only the deleted flag of the object itself. */
  function Revived(row: Row): Row {
    row.(isDeleted := false, changeCount := row.changeCount + 1)
  }

  /** What a whole undelete does to the table. */
  ghost predicate Undeleted(depth: map<Id, nat>, t: Table, t': Table, r: Id) {
    && r in t
    && var t1 := t[r := Revived(t[r])];
       Forest(t1, depth) && Unmarks(t1, t', AllBelow(t1, depth, r))
  }
}
