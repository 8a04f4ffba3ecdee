/** What normalising a permission list does to the rights each grantee has (auth/aacoff.go,
    server/createObject.go). */
module PermissionLaws {
  import opened PermissionList

  lemma GrantsInEither(a: seq<Permission>, b: seq<Permission>, g: Grantee, x: Right)
    ensures Grants(a + b, g, x) <==> Grants(a, g, x) || Grants(b, g, x)
  {
    if Grants(a, g, x) {
      var p :| p in a && !p.isDeleted && p.grantee == g && x in p.grants;
      assert p in a + b;
    }
    if Grants(b, g, x) {
      var p :| p in b && !p.isDeleted && p.grantee == g && x in p.grants;
      assert p in a + b;
    }
  }

  lemma GrantsOfOne(p: Permission, g: Grantee, x: Right)
    ensures Grants([p], g, x) <==> !p.isDeleted && p.grantee == g && x in p.grants
  {
    assert p in [p];
  }

  lemma ReadersGrant(list: seq<Permission>, g: Grantee)
    ensures g in Readers(list) <==> Grants(list, g, Read)
  {
  }

  lemma {:induction false} FromShareGrants(share: seq<Grantee>, g: Grantee, x: Right)
    ensures Grants(FromShare(share), g, x) <==> x == Read && g in share
  {
    if share != [] {
      var last := |share| - 1;
      FromShareGrants(share[..last], g, x);
      GrantsInEither(FromShare(share[..last]), [ForReading(share[last])], g, x);
      GrantsOfOne(ForReading(share[last]), g, x);
      assert share == share[..last] + [share[last]];
    }
  }

  /** A right granted by a permission that is not given up. */
  ghost predicate StillGrants(list: seq<Permission>, acmSaysEveryone: bool, g: Grantee, x: Right) {
    exists p :: p in list && !p.isDeleted && p.grantee == g && x in p.grants && (acmSaysEveryone || !ReadsEveryone(p))
  }

  lemma StillGrantsOneMore(list: seq<Permission>, p: Permission, acmSaysEveryone: bool, g: Grantee, x: Right)
    ensures StillGrants(list + [p], acmSaysEveryone, g, x) <==>
            || StillGrants(list, acmSaysEveryone, g, x)
            || (!p.isDeleted && p.grantee == g && x in p.grants && (acmSaysEveryone || !ReadsEveryone(p)))
  {
    assert forall q :: q in list + [p] <==> q in list || q == p;
  }

  lemma {:induction false} KeptGrants(list: seq<Permission>, acmSaysEveryone: bool, g: Grantee, x: Right)
    ensures Grants(Kept(list, acmSaysEveryone), g, x) <==> StillGrants(list, acmSaysEveryone, g, x)
  {
    if list != [] {
      var n := |list| - 1;
      var kept := Kept(list[..n], acmSaysEveryone);
      var last := GivenUp(list[n], acmSaysEveryone);
      KeptGrants(list[..n], acmSaysEveryone, g, x);
      GrantsInEither(kept, [last], g, x);
      GrantsInEither(kept, [], g, x);
      GrantsOfOne(last, g, x);
      assert list == list[..n] + [list[n]];
      StillGrantsOneMore(list[..n], list[n], acmSaysEveryone, g, x);
    }
  }

  lemma {:induction false} ReplacementsGrant(list: seq<Permission>, i: nat, all: bool, g: Grantee, x: Right)
    requires i <= |list|
    ensures Grants(Replacements(list, i, all), g, x) <==>
            exists k :: i <= k < |list| && Redundant(list[k], all) && list[k].grantee == g && x in list[k].grants && x != Read
    decreases |list| - i
  {
    if i < |list| {
      var rest := Replacements(list, i + 1, all);
      ReplacementsGrant(list, i + 1, all, g, x);
      GrantsInEither(rest, [WithoutRead(list[i])], g, x);
      GrantsInEither(rest, [], g, x);
      GrantsOfOne(WithoutRead(list[i]), g, x);
    }
  }

  lemma RetireGrants(list: seq<Permission>, all: bool, g: Grantee, x: Right)
    ensures Grants(Retire(list, all), g, x) <==>
            exists k :: 0 <= k < |list| && !Redundant(list[k], all) && !list[k].isDeleted && list[k].grantee == g && x in list[k].grants
  {
    var out := Retire(list, all);
    if Grants(out, g, x) {
      var p :| p in out && !p.isDeleted && p.grantee == g && x in p.grants;
      var k :| 0 <= k < |out| && out[k] == p;
      assert Retired(list[k], all) == p;
    }
    if k :| 0 <= k < |list| && !Redundant(list[k], all) && !list[k].isDeleted && list[k].grantee == g && x in list[k].grants {
      assert out[k] in out;
    }
  }

  lemma AdjustedGrants(list: seq<Permission>, all: bool, g: Grantee, x: Right)
    ensures Grants(Adjusted(list, all), g, x) <==> Grants(list, g, x) && !(all && x == Read && g != EVERYONE)
  {
    RetireGrants(list, all, g, x);
    ReplacementsGrant(list, 0, all, g, x);
    GrantsInEither(Retire(list, all), Replacements(list, 0, all), g, x);
    if Grants(list, g, x) {
      var p :| p in list && !p.isDeleted && p.grantee == g && x in p.grants;
      var k :| 0 <= k < |list| && list[k] == p;
      assert Redundant(list[k], all) || !Redundant(list[k], all);
    }
  }

  lemma {:induction false} PrunedGrants(list: seq<Permission>, isCreating: bool, g: Grantee, x: Right)
    ensures Grants(Pruned(list, isCreating), g, x) <==> Grants(list, g, x)
  {
    if list != [] {
      PrunedGrants(list[1..], isCreating, g, x);
      GrantsInEither(Prune(list[0], isCreating), Pruned(list[1..], isCreating), g, x);
      GrantsInEither([list[0]], list[1..], g, x);
      assert list == [list[0]] + list[1..];
      GrantsOfOne(list[0], g, x);
      GrantsOfOne(list[0].(isDeleted := true), g, x);
    }
  }

  lemma CollectedGrants(owner: Grantee, permissions: seq<Permission>, share: seq<Grantee>, g: Grantee, x: Right)
    ensures Grants(Collected(owner, permissions, share), g, x) <==>
            || (x == Read && g in share)
            || StillGrants(permissions, share == [], g, x)
            || (share == [] && EVERYONE !in Readers(permissions) && x == Read && g == EVERYONE)
            || g == owner
  {
    var everyone := if share == [] && EVERYONE !in Readers(permissions) then [ForReading(EVERYONE)] else [];
    FromShareGrants(share, g, x);
    KeptGrants(permissions, share == [], g, x);
    GrantsInEither(FromShare(share), Kept(permissions, share == []), g, x);
    GrantsInEither(FromShare(share) + Kept(permissions, share == []), everyone, g, x);
    GrantsInEither(FromShare(share) + Kept(permissions, share == []) + everyone, [ForOwner(owner)], g, x);
    GrantsOfOne(ForReading(EVERYONE), g, x);
    GrantsOfOne(ForOwner(owner), g, x);
  }

  lemma NormalizedFromCollected(owner: Grantee, permissions: seq<Permission>, share: seq<Grantee>, isCreating: bool, g: Grantee, x: Right)
    ensures Grants(Normalized(owner, permissions, share, isCreating), g, x) <==>
            Grants(Collected(owner, permissions, share), g, x) && !(share == [] && x == Read && g != EVERYONE)
  {
    var collected := Collected(owner, permissions, share);
    AdjustedGrants(collected, share == [], g, x);
    PrunedGrants(Adjusted(collected, share == []), isCreating, g, x);
  }

  /** With no share, everyone reads and nobody else needs to; other rights are those given, and the
      owner's. */
  lemma NormalizedForEveryone(owner: Grantee, permissions: seq<Permission>, isCreating: bool, g: Grantee, x: Right)
    ensures Grants(Normalized(owner, permissions, [], isCreating), g, x) <==>
            if x == Read then g == EVERYONE else g == owner || Grants(permissions, g, x)
  {
    NormalizedFromCollected(owner, permissions, [], isCreating, g, x);
    CollectedGrants(owner, permissions, [], g, x);
    ReadersGrant(permissions, EVERYONE);
  }

  /** With a share, its grantees read, the owner may do anything, and the rights given stay, except those
      of permissions by which everyone would read. */
  lemma NormalizedForShare(owner: Grantee, permissions: seq<Permission>, share: seq<Grantee>, isCreating: bool, g: Grantee, x: Right)
    requires share != []
    ensures Grants(Normalized(owner, permissions, share, isCreating), g, x) <==>
            (x == Read && g in share) || g == owner || StillGrants(permissions, false, g, x)
  {
    NormalizedFromCollected(owner, permissions, share, isCreating, g, x);
    CollectedGrants(owner, permissions, share, g, x);
  }

  // ----- The list and the marking agree -----

  /** With no share only everyone reads, and the marking still has no share. */
  lemma EveryoneAgrees(owner: Grantee, permissions: seq<Permission>, isCreating: bool)
    ensures Readers(Normalized(owner, permissions, [], isCreating)) == {EVERYONE}
    ensures ShareOf(Normalized(owner, permissions, [], isCreating)) == {}
  {
    var list := Normalized(owner, permissions, [], isCreating);
    forall g
      ensures g in Readers(list) <==> g == EVERYONE
    {
      ReadersGrant(list, g);
      NormalizedForEveryone(owner, permissions, isCreating, g, Read);
    }
  }

  /** With a share that does not name everyone, everyone does not read, and the marking names exactly those
      who do: the share as it was, the owner, and whoever was given read access besides. */
  lemma ShareAgrees(owner: Grantee, permissions: seq<Permission>, share: seq<Grantee>, isCreating: bool)
    requires share != [] && EVERYONE !in share && owner != EVERYONE
    ensures var list := Normalized(owner, permissions, share, isCreating);
            && ShareOf(list) == Readers(list)
            && Readers(list) == (set g | g in share) + {owner} + (Readers(permissions) - {EVERYONE})
  {
    var list := Normalized(owner, permissions, share, isCreating);
    forall g
      ensures g in Readers(list) <==> g in share || g == owner || (g in Readers(permissions) && g != EVERYONE)
    {
      ReadersGrant(list, g);
      ReadersGrant(permissions, g);
      NormalizedForShare(owner, permissions, share, isCreating, g, Read);
    }
  }

  /** The owner always may create, update, delete and share, and reads too unless everyone does. */
  lemma OwnerKeepsRights(owner: Grantee, permissions: seq<Permission>, share: seq<Grantee>, isCreating: bool, x: Right)
    requires x != Read || share != []
    ensures Grants(Normalized(owner, permissions, share, isCreating), owner, x)
  {
    if share == [] {
      NormalizedForEveryone(owner, permissions, isCreating, owner, x);
    } else {
      NormalizedForShare(owner, permissions, share, isCreating, owner, x);
    }
  }

  // ----- What is in the list -----

  lemma {:induction false} PrunedMembers(list: seq<Permission>, isCreating: bool, p: Permission)
    requires p in Pruned(list, isCreating)
    ensures (p in list && p.grants != {}) || (p.isDeleted && p.grants == {})
  {
    if p !in Prune(list[0], isCreating) {
      PrunedMembers(list[1..], isCreating, p);
    }
  }

  /** No live permission grants nothing. */
  lemma EveryLivePermissionGrants(owner: Grantee, permissions: seq<Permission>, share: seq<Grantee>, isCreating: bool, p: Permission)
    requires p in Normalized(owner, permissions, share, isCreating) && !p.isDeleted
    ensures p.grants != {}
  {
    PrunedMembers(Adjusted(Collected(owner, permissions, share), share == []), isCreating, p);
  }

  lemma {:induction false} ReplacementsAreNew(list: seq<Permission>, i: nat, all: bool, p: Permission)
    requires i <= |list| && p in Replacements(list, i, all)
    ensures IsCreating(p)
    decreases |list| - i
  {
    if i < |list| && p in Replacements(list, i + 1, all) {
      ReplacementsAreNew(list, i + 1, all, p);
    }
  }

  lemma {:induction false} FromShareIsNew(share: seq<Grantee>, p: Permission)
    requires p in FromShare(share)
    ensures IsCreating(p)
  {
    if p != ForReading(share[|share| - 1]) {
      FromShareIsNew(share[..|share| - 1], p);
    }
  }

  lemma {:induction false} KeptMembers(list: seq<Permission>, acmSaysEveryone: bool, p: Permission)
    requires p in Kept(list, acmSaysEveryone) && !p.isDeleted
    ensures p in list
  {
    var n := |list| - 1;
    if p in Kept(list[..n], acmSaysEveryone) {
      KeptMembers(list[..n], acmSaysEveryone, p);
    }
  }

  /** A stored permission is live afterwards only if it was given, and live, before. */
  lemma NothingRevived(owner: Grantee, permissions: seq<Permission>, share: seq<Grantee>, isCreating: bool, p: Permission)
    requires p in Normalized(owner, permissions, share, isCreating) && !p.isDeleted && !IsCreating(p)
    ensures p in permissions
  {
    var collected := Collected(owner, permissions, share);
    PrunedMembers(Adjusted(collected, share == []), isCreating, p);
    if p in Replacements(collected, 0, share == []) {
      ReplacementsAreNew(collected, 0, share == [], p);
    }
    assert p in Retire(collected, share == []);
    var k :| 0 <= k < |collected| && Retired(collected[k], share == []) == p;
    assert collected[k] == p && p in collected;
    if p in FromShare(share) {
      FromShareIsNew(share, p);
    }
    KeptMembers(permissions, share == [], p);
  }

  // ----- Normalising twice -----

  /** The same rights for everyone, and the same share. */
  ghost predicate SameRights(a: seq<Permission>, b: seq<Permission>) {
    && (forall g, x :: Grants(a, g, x) <==> Grants(b, g, x))
    && ShareOf(a) == ShareOf(b)
  }

  lemma SameGrantsSameRights(a: seq<Permission>, b: seq<Permission>)
    requires forall g, x :: Grants(a, g, x) <==> Grants(b, g, x)
    ensures SameRights(a, b)
  {
    forall g
      ensures g in Readers(a) <==> g in Readers(b)
    {
      ReadersGrant(a, g);
      ReadersGrant(b, g);
    }
    assert Readers(a) == Readers(b);
  }

  lemma AgainForEveryone(owner: Grantee, permissions: seq<Permission>, isCreating: bool, again: bool)
    ensures var list := Normalized(owner, permissions, [], isCreating);
            SameRights(Normalized(owner, list, [], again), list)
  {
    var list := Normalized(owner, permissions, [], isCreating);
    forall g, x
      ensures Grants(Normalized(owner, list, [], again), g, x) <==> Grants(list, g, x)
    {
      NormalizedForEveryone(owner, permissions, isCreating, g, x);
      NormalizedForEveryone(owner, list, again, g, x);
    }
    SameGrantsSameRights(Normalized(owner, list, [], again), list);
  }

  lemma AgainForShare(owner: Grantee, permissions: seq<Permission>, share: seq<Grantee>, isCreating: bool, share': seq<Grantee>, again: bool)
    requires share != [] && EVERYONE !in share && owner != EVERYONE
    requires (set g | g in share') == ShareOf(Normalized(owner, permissions, share, isCreating))
    ensures var list := Normalized(owner, permissions, share, isCreating);
            SameRights(Normalized(owner, list, share', again), list)
  {
    var list := Normalized(owner, permissions, share, isCreating);
    ShareAgrees(owner, permissions, share, isCreating);
    assert owner in set g | g in share';
    forall g, x
      ensures Grants(Normalized(owner, list, share', again), g, x) <==> Grants(list, g, x)
    {
      NormalizedForShare(owner, list, share', again, g, x);
      assert g in share' <==> g in Readers(list);
      ReadersGrant(list, g);
      OwnerKeepsRights(owner, permissions, share, isCreating, x);
      NoReadForEveryone(list);
    }
    SameGrantsSameRights(Normalized(owner, list, share', again), list);
  }

  lemma NoReadForEveryone(list: seq<Permission>)
    requires EVERYONE !in Readers(list)
    ensures forall g, x :: StillGrants(list, false, g, x) <==> Grants(list, g, x)
  {
    forall p | p in list
      ensures !ReadsEveryone(p)
    {
      if Reads(p) {
        assert p.grantee in Readers(list);
      }
    }
  }

  lemma AgainForBoth(owner: Grantee, permissions: seq<Permission>, share: seq<Grantee>, isCreating: bool, again: bool)
    requires EVERYONE in share && owner != EVERYONE
    ensures var list := Normalized(owner, permissions, share, isCreating);
            && ShareOf(list) == {}
            && Grants(list, owner, Read) && !Grants(Normalized(owner, list, [], again), owner, Read)
  {
    var list := Normalized(owner, permissions, share, isCreating);
    NormalizedForShare(owner, permissions, share, isCreating, EVERYONE, Read);
    ReadersGrant(list, EVERYONE);
    OwnerKeepsRights(owner, permissions, share, isCreating, Read);
    NormalizedForEveryone(owner, list, again, owner, Read);
  }

  lemma NamesSomebody(share: seq<Grantee>)
    ensures share != [] ==> (set g | g in share) != {}
  {
    if share != [] {
      var named := set g | g in share;
      assert share[0] in named;
    }
  }

  /** Normalising the outcome again, with the share it led to in whatever order, changes nobody's rights
      and not the share, exactly when the share did not name everyone next to others. (Everyone cannot be
      an object's owner, server/createObject.go:443-445.) */
  lemma NormalizedTwice(owner: Grantee, permissions: seq<Permission>, share: seq<Grantee>, isCreating: bool, share': seq<Grantee>, again: bool)
    requires owner != EVERYONE
    requires (set g | g in share') == ShareOf(Normalized(owner, permissions, share, isCreating))
    ensures var list := Normalized(owner, permissions, share, isCreating);
            SameRights(Normalized(owner, list, share', again), list) <==> EVERYONE !in share
  {
    var list := Normalized(owner, permissions, share, isCreating);
    if EVERYONE in share {
      AgainForBoth(owner, permissions, share, isCreating, again);
      NamesSomebody(share');
    } else if share == [] {
      EveryoneAgrees(owner, permissions, isCreating);
      NamesSomebody(share');
      AgainForEveryone(owner, permissions, isCreating, again);
    } else {
      AgainForShare(owner, permissions, share, isCreating, share', again);
    }
  }

  // ----- Consolidation -----

  predicate SameChange(a: Permission, b: Permission) {
    !a.isDeleted && IsCreating(a) && IsCreating(b) && a.grantee == b.grantee
  }

  /** The permission merged into every new one for its grantee. */
  function Merged(list: seq<Permission>, p: Permission): (out: seq<Permission>)
    ensures |out| == |list|
  {
    seq(|list|, i requires 0 <= i < |list| =>
      if SameChange(list[i], p) then list[i].(grants := list[i].grants + p.grants) else list[i])
  }

  ghost predicate Found(list: seq<Permission>, p: Permission) {
    !p.isDeleted && exists i :: 0 <= i < |list| && SameChange(list[i], p)
  }

  ghost function Consolidated(list: seq<Permission>): seq<Permission> {
    if list == [] then []
    else
      var done := Consolidated(list[..|list| - 1]);
      var p := list[|list| - 1];
      if Found(done, p) then Merged(done, p) else done + [p]
  }

  /** createObject.go:530-552. */
  method ConsolidateChangingPermissions(permissions: seq<Permission>) returns (consolidated: seq<Permission>)
    ensures consolidated == Consolidated(permissions)
  {
    consolidated := [];
    for i := 0 to |permissions|
      invariant consolidated == Consolidated(permissions[..i])
    {
      var perm := permissions[i];
      ghost var done := consolidated;
      assert permissions[..i + 1][..i] == permissions[..i];
      var found := false;
      if !perm.isDeleted {
        for c := 0 to |consolidated|
          invariant |consolidated| == |done|
          invariant forall k :: 0 <= k < c ==> consolidated[k] == Merged(done, perm)[k]
          invariant forall k :: c <= k < |done| ==> consolidated[k] == done[k]
          invariant found <==> exists k :: 0 <= k < c && SameChange(done[k], perm)
        {
          var cPerm := consolidated[c];
          if !cPerm.isDeleted && cPerm.id == 0 && perm.id == 0 && cPerm.grantee == perm.grantee {
            found := true;
            assert SameChange(done[c], perm);
            consolidated := consolidated[c := cPerm.(grants := cPerm.grants + perm.grants)];
          }
        }
      }
      if !found {
        assert consolidated == done;
        consolidated := consolidated + [perm];
      } else {
        assert consolidated == Merged(done, perm);
      }
    }
    assert permissions[..|permissions|] == permissions;
  }

  lemma MergedGrants(list: seq<Permission>, p: Permission, g: Grantee, x: Right)
    requires Found(list, p)
    ensures Grants(Merged(list, p), g, x) <==> Grants(list, g, x) || (p.grantee == g && x in p.grants)
  {
    var out := Merged(list, p);
    var at :| 0 <= at < |list| && SameChange(list[at], p);
    assert out[at] in out;
    if Grants(list, g, x) {
      var q :| q in list && !q.isDeleted && q.grantee == g && x in q.grants;
      var k :| 0 <= k < |list| && list[k] == q;
      assert out[k] in out;
    }
    if Grants(out, g, x) {
      var q :| q in out && !q.isDeleted && q.grantee == g && x in q.grants;
      var k :| 0 <= k < |list| && out[k] == q;
      assert list[k] in list;
    }
  }

  /** Consolidating changes nobody's rights. */
  lemma {:induction false} ConsolidatedGrants(list: seq<Permission>, g: Grantee, x: Right)
    ensures Grants(Consolidated(list), g, x) <==> Grants(list, g, x)
  {
    if list != [] {
      var n := |list| - 1;
      var done := Consolidated(list[..n]);
      var p := list[n];
      ConsolidatedGrants(list[..n], g, x);
      GrantsInEither(list[..n], [p], g, x);
      GrantsOfOne(p, g, x);
      assert list == list[..n] + [p];
      if Found(done, p) {
        MergedGrants(done, p, g, x);
      } else {
        GrantsInEither(done, [p], g, x);
      }
    }
  }

  /** It leaves each grantee at most one live permission that is still to be stored. */
  ghost predicate OneChangeEach(list: seq<Permission>) {
    forall i, j :: 0 <= i < j < |list| && !list[i].isDeleted && !list[j].isDeleted && IsCreating(list[i]) && IsCreating(list[j]) ==>
      list[i].grantee != list[j].grantee
  }

  lemma {:induction false} ConsolidatedOnce(list: seq<Permission>)
    ensures OneChangeEach(Consolidated(list))
  {
    if list != [] {
      ConsolidatedOnce(list[..|list| - 1]);
    }
  }

  /** Nothing but new permissions is merged: what is stored stays in the list as it was. */
  lemma {:induction false} ConsolidatedKeepsStored(list: seq<Permission>, p: Permission)
    requires !IsCreating(p)
    ensures p in Consolidated(list) <==> p in list
  {
    if list != [] {
      var n := |list| - 1;
      var done := Consolidated(list[..n]);
      ConsolidatedKeepsStored(list[..n], p);
      assert list == list[..n] + [list[n]];
      if Found(done, list[n]) {
        MergedKeepsStored(done, list[n], p);
      }
    }
  }

  lemma MergedKeepsStored(list: seq<Permission>, q: Permission, p: Permission)
    requires !IsCreating(p)
    ensures p in Merged(list, q) <==> p in list
  {
    var out := Merged(list, q);
    if p in list {
      var k :| 0 <= k < |list| && list[k] == p;
      assert out[k] in out;
    }
    if p in out {
      var k :| 0 <= k < |list| && out[k] == p;
      assert list[k] in list;
    }
  }

  // ----- Adding a share -----

  /** Rights a grantee has already, of its own or through everyone. */
  ghost predicate HasAlready(existing: seq<Permission>, g: Grantee, x: Right) {
    Grants(existing, g, x) || Grants(existing, EVERYONE, x)
  }

  /** addObjectShare.go:207-240: a new permission keeps just the rights its grantee does not have yet. */
  method ReduceGrantsLeavesNone(existing: seq<Permission>, permission: Permission) returns (reduced: Permission, none: bool)
    ensures reduced == permission.(grants := reduced.grants)
    ensures none <==> reduced.grants == {}
    ensures forall x :: x in reduced.grants <==> x in permission.grants && !HasAlready(existing, permission.grantee, x)
  {
    reduced := permission;
    for i := 0 to |existing|
      invariant reduced == permission.(grants := reduced.grants)
      invariant forall x :: x in reduced.grants <==> x in permission.grants && !HasAlready(existing[..i], permission.grantee, x)
    {
      var e := existing[i];
      assert existing[..i + 1] == existing[..i] + [e];
      forall x
        ensures HasAlready(existing[..i + 1], permission.grantee, x) <==>
                HasAlready(existing[..i], permission.grantee, x)
                || (!e.isDeleted && (e.grantee == permission.grantee || e.grantee == EVERYONE) && x in e.grants)
      {
        GrantsInEither(existing[..i], [e], permission.grantee, x);
        GrantsInEither(existing[..i], [e], EVERYONE, x);
        GrantsOfOne(e, permission.grantee, x);
        GrantsOfOne(e, EVERYONE, x);
      }
      if !e.isDeleted && (e.grantee == permission.grantee || e.grantee == EVERYONE) {
        reduced := reduced.(grants := reduced.grants - e.grants);
      }
      assert forall x :: x in reduced.grants <==> x in permission.grants && !HasAlready(existing[..i + 1], permission.grantee, x);
      if reduced.grants == {} {
        forall x | x in permission.grants
          ensures HasAlready(existing[..i + 1], permission.grantee, x)
        {
          assert x !in reduced.grants;
        }
        NothingMoreToReduce(existing, i + 1, permission);
        return reduced, true;
      }
    }
    assert existing[..|existing|] == existing;
    none := reduced.grants == {};
  }

  lemma NothingMoreToReduce(existing: seq<Permission>, i: nat, permission: Permission)
    requires i <= |existing|
    requires forall x :: x in permission.grants ==> HasAlready(existing[..i], permission.grantee, x)
    ensures forall x :: x in permission.grants ==> HasAlready(existing, permission.grantee, x)
  {
    forall x | x in permission.grants
      ensures HasAlready(existing, permission.grantee, x)
    {
      GrantsInEither(existing[..i], existing[i..], permission.grantee, x);
      GrantsInEither(existing[..i], existing[i..], EVERYONE, x);
      assert existing == existing[..i] + existing[i..];
    }
  }

  /** So adding what is left gives the grantee just what was asked for, on top of what it had. */
  lemma ReducedSuffices(existing: seq<Permission>, permission: Permission, reduced: Permission, x: Right)
    requires !permission.isDeleted && reduced == permission.(grants := reduced.grants)
    requires forall y :: y in reduced.grants <==> y in permission.grants && !HasAlready(existing, permission.grantee, y)
    ensures HasAlready(existing + [reduced], permission.grantee, x) <==> HasAlready(existing + [permission], permission.grantee, x)
  {
    GrantsInEither(existing, [reduced], permission.grantee, x);
    GrantsInEither(existing, [permission], permission.grantee, x);
    GrantsInEither(existing, [reduced], EVERYONE, x);
    GrantsInEither(existing, [permission], EVERYONE, x);
    GrantsOfOne(reduced, permission.grantee, x);
    GrantsOfOne(permission, permission.grantee, x);
    GrantsOfOne(reduced, EVERYONE, x);
    GrantsOfOne(permission, EVERYONE, x);
  }
}
