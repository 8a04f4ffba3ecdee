/** Bringing an object's permission list and the share of its access control marking into agreement
    (auth/aacoff.go). Grantees go by their flattened names; a share is the set of the grantees it names,
    and a marking with no share lets everyone read. */
module PermissionList {
  type Grantee = string

  const EVERYONE: Grantee := "_everyone"

  datatype Right = Create | Read | Update | Delete | Share

  /** A permission not stored yet has no id, written 0. */
  datatype Permission = Permission(id: nat, grantee: Grantee, grants: set<Right>, isDeleted: bool)

  const CRUDS: set<Right> := {Create, Read, Update, Delete, Share}

  predicate IsCreating(p: Permission) {
    p.id == 0
  }

  predicate Reads(p: Permission) {
    !p.isDeleted && Read in p.grants
  }

  predicate ReadsEveryone(p: Permission) {
    Reads(p) && p.grantee == EVERYONE
  }

  function ForReading(g: Grantee): Permission {
    Permission(0, g, {Read}, false)
  }

  function ForOwner(owner: Grantee): Permission {
    Permission(0, owner, CRUDS, false)
  }

  function WithoutRead(p: Permission): Permission {
    Permission(0, p.grantee, p.grants - {Read}, false)
  }

  /** Some live permission in the list grants the right to the grantee. */
  ghost predicate Grants(list: seq<Permission>, g: Grantee, x: Right) {
    exists p :: p in list && !p.isDeleted && p.grantee == g && x in p.grants
  }

  /** The grantees of live read permissions. */
  function Readers(list: seq<Permission>): set<Grantee> {
    set p | p in list && Reads(p) :: p.grantee
  }

  /** What the marking is to say: no share when everyone reads, and else everyone that does. */
  function ShareOf(list: seq<Permission>): set<Grantee> {
    if EVERYONE in Readers(list) then {} else Readers(list)
  }

  // ----- First pass: the permissions of the share, those given, and the owner's -----

  function FromShare(share: seq<Grantee>): seq<Permission> {
    if share == [] then []
    else FromShare(share[..|share| - 1]) + [ForReading(share[|share| - 1])]
  }

  /** A read permission for everyone is given up if the marking names others. */
  function GivenUp(p: Permission, acmSaysEveryone: bool): Permission {
    if ReadsEveryone(p) && !acmSaysEveryone then p.(isDeleted := true) else p
  }

  function Kept(permissions: seq<Permission>, acmSaysEveryone: bool): seq<Permission> {
    if permissions == [] then []
    else
      var last := GivenUp(permissions[|permissions| - 1], acmSaysEveryone);
      Kept(permissions[..|permissions| - 1], acmSaysEveryone) + (if !last.isDeleted || !IsCreating(last) then [last] else [])
  }

  function Collected(owner: Grantee, permissions: seq<Permission>, share: seq<Grantee>): seq<Permission> {
    FromShare(share) + Kept(permissions, share == [])
    + (if share == [] && EVERYONE !in Readers(permissions) then [ForReading(EVERYONE)] else [])
    + [ForOwner(owner)]
  }

  // ----- Second pass: when everyone reads, nobody else needs to -----

  predicate Redundant(p: Permission, acmSaysEveryone: bool) {
    acmSaysEveryone && Reads(p) && p.grantee != EVERYONE
  }

  function Retired(p: Permission, acmSaysEveryone: bool): Permission {
    if Redundant(p, acmSaysEveryone) then p.(isDeleted := true) else p
  }

  function Retire(list: seq<Permission>, acmSaysEveryone: bool): (out: seq<Permission>)
    ensures |out| == |list|
  {
    seq(|list|, i requires 0 <= i < |list| => Retired(list[i], acmSaysEveryone))
  }

  /** What replaces the retired ones, last first, from position i on. */
  function Replacements(list: seq<Permission>, i: nat, acmSaysEveryone: bool): seq<Permission>
    requires i <= |list|
    decreases |list| - i
  {
    if i == |list| then []
    else Replacements(list, i + 1, acmSaysEveryone)
         + (if Redundant(list[i], acmSaysEveryone) then [WithoutRead(list[i])] else [])
  }

  function Adjusted(list: seq<Permission>, acmSaysEveryone: bool): seq<Permission> {
    Retire(list, acmSaysEveryone) + Replacements(list, 0, acmSaysEveryone)
  }

  // ----- Third pass: what grants nothing goes -----

  function Prune(p: Permission, isCreating: bool): seq<Permission> {
    if p.grants != {} then [p]
    else if isCreating || IsCreating(p) then []
    else [p.(isDeleted := true)]
  }

  function Pruned(list: seq<Permission>, isCreating: bool): seq<Permission> {
    if list == [] then [] else Prune(list[0], isCreating) + Pruned(list[1..], isCreating)
  }

  function Normalized(owner: Grantee, permissions: seq<Permission>, share: seq<Grantee>, isCreating: bool): seq<Permission> {
    Pruned(Adjusted(Collected(owner, permissions, share), share == []), isCreating)
  }

  // ----- The code -----

  /** aacoff.go:210-234: each live reader is combined into the share, until one is everyone. */
  method InjectPermissionsIntoACM(permissions: seq<Permission>) returns (share: set<Grantee>)
    ensures share == ShareOf(permissions)
  {
    share := {};
    for i := 0 to |permissions|
      invariant share == Readers(permissions[..i]) && EVERYONE !in share
    {
      var permission := permissions[i];
      assert permissions[..i + 1] == permissions[..i] + [permission];
      if permission.isDeleted || Read !in permission.grants {
        continue;
      }
      if permission.grantee == EVERYONE {
        assert permission in permissions && Reads(permission);
        return {};
      }
      share := share + {permission.grantee};
    }
    assert permissions[..|permissions|] == permissions;
  }

  method FoundInShare(permission: Permission, sharePermissions: seq<Permission>) returns (found: bool)
    ensures found <==> exists s :: s in sharePermissions && s.grantee == permission.grantee
  {
    found := false;
    for i := 0 to |sharePermissions|
      invariant !found && forall k :: 0 <= k < i ==> sharePermissions[k].grantee != permission.grantee
    {
      if permission.grantee == sharePermissions[i].grantee {
        return true;
      }
    }
  }

  /** Without explicit permissions, only those of the share, of everyone and of the owner are there, so
      the test for the others never succeeds. */
  ghost predicate NamedInShare(list: seq<Permission>, sharePermissions: seq<Permission>) {
    forall p :: p in list && p.grantee != EVERYONE ==> exists s :: s in sharePermissions && s.grantee == p.grantee
  }

  /** The list once the positions from i on have been seen to. */
  ghost function AdjustedFrom(was: seq<Permission>, i: nat, all: bool): seq<Permission>
    requires i <= |was|
  {
    was[..i] + Retire(was, all)[i..] + Replacements(was, i, all)
  }

  lemma ReplaceMiddle(before: seq<Permission>, x: Permission, y: Permission, after: seq<Permission>)
    ensures (before + [x] + after)[|before|] == x
    ensures (before + [x] + after)[|before| := y] == before + [y] + after
  {
  }

  lemma Regroup(before: seq<Permission>, x: Permission, a: seq<Permission>, b: seq<Permission>, last: seq<Permission>)
    ensures before + ([x] + a) + (b + last) == before + [x] + (a + b) + last
    ensures (before + [x]) + a + b == before + [x] + (a + b)
  {
  }

  lemma RetireOne(was: seq<Permission>, i: nat, all: bool)
    requires i < |was|
    ensures AdjustedFrom(was, i + 1, all)[i] == was[i]
    ensures AdjustedFrom(was, i, all) ==
            if Redundant(was[i], all) then AdjustedFrom(was, i + 1, all)[i := was[i].(isDeleted := true)] + [WithoutRead(was[i])]
            else AdjustedFrom(was, i + 1, all)
  {
    var retired := Retire(was, all);
    assert was[..i + 1] == was[..i] + [was[i]];
    assert retired[i..] == [retired[i]] + retired[i + 1..];
    var rest, added := retired[i + 1..], Replacements(was, i + 1, all);
    var after := rest + added;
    Regroup(was[..i], was[i], rest, added, []);
    Regroup(was[..i], retired[i], rest, added, if Redundant(was[i], all) then [WithoutRead(was[i])] else []);
    ReplaceMiddle(was[..i], was[i], retired[i], after);
  }

  /** aacoff.go:323-342, from the last permission to the first; replacements go to the end. */
  method Adjust(was: seq<Permission>, sharePermissions: seq<Permission>, hasExplicitPermissions: bool, acmSaysEveryone: bool)
    returns (list: seq<Permission>)
    requires !hasExplicitPermissions ==> NamedInShare(was, sharePermissions)
    ensures list == Adjusted(was, acmSaysEveryone)
  {
    list := was;
    for i := |was| downto 0
      invariant list == AdjustedFrom(was, i, acmSaysEveryone)
    {
      RetireOne(was, i, acmSaysEveryone);
      var permission := list[i];
      assert permission in was;
      var foundInShare := FoundInShare(permission, sharePermissions);
      if && ((!hasExplicitPermissions && !foundInShare) || acmSaysEveryone)
         && !permission.isDeleted && Read in permission.grants && permission.grantee != EVERYONE {
        var replacement := WithoutRead(permission);
        list := list[i := permission.(isDeleted := true)];
        list := list + [replacement];
      }
    }
  }

  ghost function PrunedFrom(was: seq<Permission>, i: nat, isCreating: bool): seq<Permission>
    requires i <= |was|
  {
    was[..i] + Pruned(was[i..], isCreating)
  }

  lemma DropMiddle(before: seq<Permission>, x: Permission, after: seq<Permission>)
    ensures var s := before + [x] + after;
            s[..|before|] == before && s[|before| + 1..] == after
  {
  }

  lemma PruneOne(was: seq<Permission>, i: nat, isCreating: bool)
    requires i < |was|
    ensures var before := PrunedFrom(was, i + 1, isCreating);
            && i < |before| && before[i] == was[i]
            && PrunedFrom(was, i, isCreating) ==
               if was[i].grants != {} then before
               else if isCreating || was[i].id == 0 then before[..i] + before[i + 1..]
               else before[i := was[i].(isDeleted := true)]
  {
    assert was[..i + 1] == was[..i] + [was[i]];
    assert was[i..][0] == was[i] && was[i..][1..] == was[i + 1..];
    var after := Pruned(was[i + 1..], isCreating);
    assert PrunedFrom(was, i, isCreating) == was[..i] + Prune(was[i], isCreating) + after;
    DropMiddle(was[..i], was[i], after);
    ReplaceMiddle(was[..i], was[i], was[i].(isDeleted := true), after);
  }

  /** aacoff.go:344-358, from the last permission to the first, removing in place. */
  method PruneList(was: seq<Permission>, isCreating: bool) returns (list: seq<Permission>)
    ensures list == Pruned(was, isCreating)
  {
    list := was;
    for i := |was| downto 0
      invariant list == PrunedFrom(was, i, isCreating)
    {
      PruneOne(was, i, isCreating);
      var permission := list[i];
      if permission.grants == {} {
        if isCreating || permission.id == 0 {
          list := list[..i] + list[i + 1..];
        } else {
          list := list[i := permission.(isDeleted := true)];
        }
      }
    }
  }

  lemma CollectedNamedInShare(owner: Grantee, share: seq<Grantee>)
    ensures NamedInShare(Collected(owner, [], share), FromShare(share) + [ForOwner(owner)])
  {
    forall p | p in Collected(owner, [], share) && p.grantee != EVERYONE
      ensures exists s :: s in FromShare(share) + [ForOwner(owner)] && s.grantee == p.grantee
    {
      assert p in FromShare(share) + [ForOwner(owner)];
    }
  }

  /** aacoff.go:292-295. */
  method ReadPermissions(share: seq<Grantee>) returns (sharePermissions: seq<Permission>)
    ensures sharePermissions == FromShare(share) && |sharePermissions| == |share|
  {
    sharePermissions := [];
    for i := 0 to |share|
      invariant sharePermissions == FromShare(share[..i]) && |sharePermissions| == i
    {
      sharePermissions := sharePermissions + [ForReading(share[i])];
      assert share[..i + 1][..i] == share[..i];
    }
    assert share[..|share|] == share;
  }

  lemma OneMoreReader(list: seq<Permission>, p: Permission)
    ensures EVERYONE in Readers(list + [p]) <==> EVERYONE in Readers(list) || ReadsEveryone(p)
  {
    assert forall q :: q in list + [p] <==> q in list || q == p;
    if ReadsEveryone(p) {
      assert p in list + [p];
    }
  }

  lemma KeptOneMore(list: seq<Permission>, p: Permission, acmSaysEveryone: bool)
    ensures Kept(list + [p], acmSaysEveryone) ==
            var last := GivenUp(p, acmSaysEveryone);
            Kept(list, acmSaysEveryone) + (if !last.isDeleted || last.id != 0 then [last] else [])
  {
    assert (list + [p])[..|list|] == list;
  }

  /** aacoff.go:297-312. */
  method KeepPermissions(permissions: seq<Permission>, acmSaysEveryone: bool) returns (kept: seq<Permission>, hasEveryone: bool)
    ensures kept == Kept(permissions, acmSaysEveryone)
    ensures hasEveryone <==> EVERYONE in Readers(permissions)
  {
    kept, hasEveryone := [], false;
    for i := 0 to |permissions|
      invariant kept == Kept(permissions[..i], acmSaysEveryone)
      invariant hasEveryone <==> EVERYONE in Readers(permissions[..i])
    {
      var permission := permissions[i];
      assert permissions[..i + 1] == permissions[..i] + [permission];
      OneMoreReader(permissions[..i], permission);
      KeptOneMore(permissions[..i], permission, acmSaysEveryone);
      if !permission.isDeleted && Read in permission.grants && permission.grantee == EVERYONE {
        hasEveryone := true;
        if !acmSaysEveryone {
          permission := permission.(isDeleted := true);
        }
      }
      if !permission.isDeleted || permission.id != 0 {
        kept := kept + [permission];
      }
    }
    assert permissions[..|permissions|] == permissions;
  }

  /** aacoff.go:275-367. The share is given as the grantees the marking names, in any order. */
  method NormalizePermissionsFromACM(owner: Grantee, permissions: seq<Permission>, share: seq<Grantee>, isCreating: bool)
    returns (list: seq<Permission>, newShare: set<Grantee>)
    ensures list == Normalized(owner, permissions, share, isCreating)
    ensures newShare == ShareOf(list)
  {
    var sharePermissions := ReadPermissions(share);
    var acmSaysEveryone := |sharePermissions| == 0;
    var kept, hasEveryone := KeepPermissions(permissions, acmSaysEveryone);
    list := sharePermissions + kept;
    if acmSaysEveryone && !hasEveryone {
      list := list + [ForReading(EVERYONE)];
    }
    list := list + [ForOwner(owner)];
    sharePermissions := sharePermissions + [ForOwner(owner)];
    assert list == Collected(owner, permissions, share);

    CollectedNamedInShare(owner, share);
    list := Adjust(list, sharePermissions, |permissions| > 0, acmSaysEveryone);
    list := PruneList(list, isCreating);
    newShare := InjectPermissionsIntoACM(list);
  }
}
