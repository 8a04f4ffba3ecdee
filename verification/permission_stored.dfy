/** What normalising does to the permissions that are stored already: an update of the object deletes from the
    database just those it finds marked deleted (auth/aacoff.go, dao/dao.UpdateObject.go). */
module PermissionStored {
  import opened PermissionList

  /** The permissions that are in the database. */
  function Stored(list: seq<Permission>): seq<Permission> {
    if list == [] then []
    else Stored(list[..|list| - 1]) + (if list[|list| - 1].id != 0 then [list[|list| - 1]] else [])
  }

  /** A stored permission is to go if it is marked so already or grants nothing; if others read than everyone
      and it lets everyone read; or if everyone reads and it lets another read. */
  predicate ToGo(p: Permission, share: seq<Grantee>) {
    || p.isDeleted
    || p.grants == {}
    || (Read in p.grants && (if share == [] then p.grantee != "_everyone" else p.grantee == "_everyone"))
  }

  /** Each stored permission, in place, with nothing changed but that mark. On an object just being created what
      grants nothing is left out. */
  function Fates(permissions: seq<Permission>, share: seq<Grantee>, isCreating: bool): seq<Permission> {
    if permissions == [] then []
    else
      var p := permissions[|permissions| - 1];
      Fates(permissions[..|permissions| - 1], share, isCreating)
      + (if isCreating && p.grants == {} then [] else [p.(isDeleted := ToGo(p, share))])
  }

  lemma StoredSnoc(list: seq<Permission>, p: Permission)
    ensures Stored(list + [p]) == Stored(list) + (if p.id != 0 then [p] else [])
  {
    assert (list + [p])[..|list|] == list;
  }

  lemma StoredSnocNew(list: seq<Permission>, p: Permission)
    requires p.id == 0
    ensures Stored(list + [p]) == Stored(list)
  {
    StoredSnoc(list, p);
  }

  lemma Regrouped(a: seq<Permission>, b: seq<Permission>, c: seq<Permission>)
    ensures (a + b) + c == a + (b + c)
  {
  }

  lemma {:induction false} StoredSplit(a: seq<Permission>, b: seq<Permission>)
    ensures Stored(a + b) == Stored(a) + Stored(b)
  {
    if b == [] {
      assert a + b == a;
    } else {
      var n := |b| - 1;
      var front, p := b[..n], b[n];
      StoredSplit(a, front);
      Regrouped(a, front, [p]);
      assert b == front + [p];
      StoredSnoc(a + front, p);
      StoredSnoc(front, p);
      Regrouped(Stored(a), Stored(front), if p.id != 0 then [p] else []);
    }
  }

  lemma StoredOfOne(p: Permission)
    ensures Stored([p]) == if p.id != 0 then [p] else []
  {
    StoredSnoc([], p);
    assert [] + [p] == [p];
  }

  lemma {:induction false} ShareIsNew(share: seq<Grantee>)
    ensures Stored(FromShare(share)) == []
  {
    if share != [] {
      var n := |share| - 1;
      ShareIsNew(share[..n]);
      StoredSnoc(FromShare(share[..n]), ForReading(share[n]));
    }
  }

  lemma {:induction false} ReplacementsNew(list: seq<Permission>, i: nat, all: bool)
    requires i <= |list|
    ensures Stored(Replacements(list, i, all)) == []
    decreases |list| - i
  {
    if i < |list| {
      var rest := Replacements(list, i + 1, all);
      ReplacementsNew(list, i + 1, all);
      StoredSnoc(rest, WithoutRead(list[i]));
      assert rest + [] == rest;
    }
  }

  lemma {:induction false} RetireStored(list: seq<Permission>, all: bool)
    ensures Stored(Retire(list, all)) == Retire(Stored(list), all)
  {
    if list != [] {
      var n := |list| - 1;
      RetireStored(list[..n], all);
      assert Retire(list, all) == Retire(list[..n], all) + [Retired(list[n], all)];
      StoredSnoc(Retire(list[..n], all), Retired(list[n], all));
      if list[n].id != 0 {
        assert Retire(Stored(list[..n]) + [list[n]], all) == Retire(Stored(list[..n]), all) + [Retired(list[n], all)];
      } else {
        assert Stored(list) == Stored(list[..n]);
      }
    }
  }

  lemma {:induction false} PrunedSplit(a: seq<Permission>, b: seq<Permission>, isCreating: bool)
    ensures Pruned(a + b, isCreating) == Pruned(a, isCreating) + Pruned(b, isCreating)
  {
    if a == [] {
      assert a + b == b;
    } else {
      PrunedSplit(a[1..], b, isCreating);
      assert (a + b)[1..] == a[1..] + b;
    }
  }

  lemma PrunedOfOne(p: Permission, isCreating: bool)
    ensures Pruned([p], isCreating) == Prune(p, isCreating)
  {
    assert [p][1..] == [];
  }

  lemma PruneStored(p: Permission, isCreating: bool)
    ensures Stored(Prune(p, isCreating)) == if p.id != 0 then Prune(p, isCreating) else []
  {
    StoredOfOne(p);
    StoredOfOne(p.(isDeleted := true));
  }

  lemma PrunedSnoc(list: seq<Permission>, p: Permission, isCreating: bool)
    ensures Pruned(list + [p], isCreating) == Pruned(list, isCreating) + Prune(p, isCreating)
  {
    PrunedSplit(list, [p], isCreating);
    PrunedOfOne(p, isCreating);
  }

  lemma PrunedStoredOne(front: seq<Permission>, p: Permission, isCreating: bool)
    requires Stored(Pruned(front, isCreating)) == Pruned(Stored(front), isCreating)
    ensures Stored(Pruned(front + [p], isCreating)) == Pruned(Stored(front + [p]), isCreating)
  {
    PrunedSnoc(front, p, isCreating);
    StoredSplit(Pruned(front, isCreating), Prune(p, isCreating));
    PruneStored(p, isCreating);
    if p.id != 0 {
      StoredSnoc(front, p);
      PrunedSnoc(Stored(front), p, isCreating);
    } else {
      StoredSnocNew(front, p);
    }
  }

  lemma {:induction false} PrunedStored(list: seq<Permission>, isCreating: bool)
    ensures Stored(Pruned(list, isCreating)) == Pruned(Stored(list), isCreating)
  {
    if list != [] {
      var n := |list| - 1;
      PrunedStored(list[..n], isCreating);
      PrunedStoredOne(list[..n], list[n], isCreating);
      assert list == list[..n] + [list[n]];
    }
  }

  lemma StoredOfThree(a: seq<Permission>, b: seq<Permission>, c: seq<Permission>, d: seq<Permission>)
    ensures Stored(a + b + c + d) == Stored(a) + Stored(b) + Stored(c) + Stored(d)
  {
    StoredSplit(a, b);
    StoredSplit(a + b, c);
    StoredSplit(a + b + c, d);
  }

  lemma OnlyTheSecond(a: seq<Permission>, b: seq<Permission>, c: seq<Permission>, d: seq<Permission>)
    requires a == [] && c == [] && d == []
    ensures a + b + c + d == b
  {
  }

  lemma CollectedStored(owner: Grantee, permissions: seq<Permission>, share: seq<Grantee>)
    ensures Stored(Collected(owner, permissions, share)) == Stored(Kept(permissions, share == []))
  {
    var kept := Kept(permissions, share == []);
    var everyone := if share == [] && EVERYONE !in Readers(permissions) then [ForReading(EVERYONE)] else [];
    ShareIsNew(share);
    StoredOfThree(FromShare(share), kept, everyone, [ForOwner(owner)]);
    StoredOfOne(ForReading(EVERYONE));
    StoredOfOne(ForOwner(owner));
    OnlyTheSecond(Stored(FromShare(share)), Stored(kept), Stored(everyone), Stored([ForOwner(owner)]));
  }

  lemma AdjustedStored(list: seq<Permission>, all: bool)
    ensures Stored(Adjusted(list, all)) == Retire(Stored(list), all)
  {
    StoredSplit(Retire(list, all), Replacements(list, 0, all));
    ReplacementsNew(list, 0, all);
    RetireStored(list, all);
  }

  lemma FateOfOne(p: Permission, share: seq<Grantee>, isCreating: bool)
    requires p.id != 0
    ensures Prune(Retired(GivenUp(p, share == []), share == []), isCreating) ==
            if isCreating && p.grants == {} then [] else [p.(isDeleted := ToGo(p, share))]
  {
  }

  lemma KeptStored(list: seq<Permission>, p: Permission, all: bool)
    requires p.id != 0
    ensures Stored(Kept(list + [p], all)) == Stored(Kept(list, all)) + [GivenUp(p, all)]
  {
    KeptOneMore(list, p, all);
    StoredSnoc(Kept(list, all), GivenUp(p, all));
  }

  lemma KeptNew(list: seq<Permission>, p: Permission, all: bool)
    requires p.id == 0
    ensures Stored(Kept(list + [p], all)) == Stored(Kept(list, all))
  {
    KeptOneMore(list, p, all);
    StoredSnocNew(Kept(list, all), GivenUp(p, all));
    assert Kept(list, all) + [] == Kept(list, all);
  }

  lemma RetireSnoc(list: seq<Permission>, p: Permission, all: bool)
    ensures Retire(list + [p], all) == Retire(list, all) + [Retired(p, all)]
  {
  }

  lemma FatesSnoc(list: seq<Permission>, p: Permission, share: seq<Grantee>, isCreating: bool)
    ensures Fates(list + [p], share, isCreating) ==
            Fates(list, share, isCreating)
            + (if isCreating && p.grants == {} then [] else [p.(isDeleted := ToGo(p, share))])
  {
    assert (list + [p])[..|list|] == list;
  }

  lemma {:induction false} KeptFates(permissions: seq<Permission>, share: seq<Grantee>, isCreating: bool)
    ensures Pruned(Retire(Stored(Kept(permissions, share == [])), share == []), isCreating) ==
            Fates(Stored(permissions), share, isCreating)
  {
    if permissions != [] {
      var n, all := |permissions| - 1, share == [];
      var front, p := permissions[..n], permissions[n];
      var done := Stored(Kept(front, all));
      KeptFates(front, share, isCreating);
      assert permissions == front + [p];
      if p.id != 0 {
        KeptStored(front, p, all);
        StoredSnoc(front, p);
        RetireSnoc(done, GivenUp(p, all), all);
        PrunedSnoc(Retire(done, all), Retired(GivenUp(p, all), all), isCreating);
        FateOfOne(p, share, isCreating);
        FatesSnoc(Stored(front), p, share, isCreating);
      } else {
        KeptNew(front, p, all);
        StoredSnocNew(front, p);
      }
    }
  }

  /** The stored permissions of the normalised list are those given, in order, each with its fate. */
  lemma StoredFates(owner: Grantee, permissions: seq<Permission>, share: seq<Grantee>, isCreating: bool)
    ensures Stored(Normalized(owner, permissions, share, isCreating)) == Fates(Stored(permissions), share, isCreating)
  {
    var collected := Collected(owner, permissions, share);
    PrunedStored(Adjusted(collected, share == []), isCreating);
    AdjustedStored(collected, share == []);
    CollectedStored(owner, permissions, share);
    KeptFates(permissions, share, isCreating);
  }

  lemma {:induction false} StoredMembers(list: seq<Permission>, p: Permission)
    ensures p in Stored(list) <==> p in list && p.id != 0
  {
    if list != [] {
      var n := |list| - 1;
      StoredMembers(list[..n], p);
      assert list == list[..n] + [list[n]];
    }
  }

  lemma {:induction false} FatesMembers(permissions: seq<Permission>, share: seq<Grantee>, q: Permission)
    ensures q in Fates(permissions, share, false) <==>
            exists p :: p in permissions && q == p.(isDeleted := ToGo(p, share))
  {
    if permissions != [] {
      var n := |permissions| - 1;
      FatesMembers(permissions[..n], share, q);
      assert permissions == permissions[..n] + [permissions[n]];
    }
  }

  /** Once an object exists no stored permission is lost from the list, and none is changed but for the mark by
      which the database is told to delete it. */
  lemma NoneLost(owner: Grantee, permissions: seq<Permission>, share: seq<Grantee>, q: Permission)
    requires q.id != 0
    ensures q in Normalized(owner, permissions, share, false) <==>
            exists p :: p in permissions && q == p.(isDeleted := ToGo(p, share))
  {
    var list := Normalized(owner, permissions, share, false);
    StoredFates(owner, permissions, share, false);
    StoredMembers(list, q);
    FatesMembers(Stored(permissions), share, q);
    forall p
      ensures p in Stored(permissions) <==> p in permissions && p.id != 0
    {
      StoredMembers(permissions, p);
    }
  }
}
