/** The walk up the parent chain that guards a move, and the chain shown as breadcrumbs
    (dao/dao.Logic.go, dao/dao.GetParents.go). */
module ObjectAncestors {
  import opened ObjectRows

  datatype Answer = Yes | No | Missing

  /** isParentIDADescendentInTransaction. A missing object comes back as an error, which the caller
      treats as a cycle. */
  function IsParentADescendent(t: Table, depth: map<Id, nat>, id: Id, target: Option<Id>): Answer
    requires Forest(t, depth)
    decreases match target case None => 0 case Some(p) => if p in depth then depth[p] + 1 else 0
  {
    match target
    case None => No
    case Some(p) =>
      if p !in t then Missing
      else if t[p].parent == Some(id) then Yes
      else IsParentADescendent(t, depth, id, t[p].parent)
  }

  /** A chain of parents: each is the parent of the next, and the first has none. */
  ghost predicate IsChain(t: Table, parents: seq<Id>) {
    && parents != []
    && (forall i :: 0 <= i < |parents| ==> parents[i] in t)
    && t[parents[0]].parent == None
    && forall i :: 0 < i < |parents| ==> t[parents[i]].parent == Some(parents[i - 1])
  }

  /** The parents of an object, root first, immediate parent last. */
  ghost function Chain(t: Table, depth: map<Id, nat>, p: Id): (parents: seq<Id>)
    requires Forest(t, depth) && p in t
    ensures IsChain(t, parents) && parents[|parents| - 1] == p
    decreases depth[p]
  {
    match t[p].parent
    case None => [p]
    case Some(q) => Chain(t, depth, q) + [p]
  }

  /** getParentsInTransaction: the loop puts each parent found in front of those found before. */
  method GetParents(t: Table, ghost depth: map<Id, nat>, parent: Id) returns (parents: seq<Id>)
    requires Forest(t, depth) && parent in t
    ensures parents == Chain(t, depth, parent)
    ensures IsChain(t, parents) && parents[|parents| - 1] == parent
  {
    parents := [];
    var queryId := parent;
    while true
      invariant queryId in t
      invariant Chain(t, depth, parent) == Chain(t, depth, queryId) + parents
      decreases depth[queryId]
    {
      parents := [queryId] + parents;
      if t[queryId].parent == None {
        break;
      }
      queryId := t[queryId].parent.value;
    }
  }

  /** The check answers yes exactly when the object is among the target's own parents. */
  lemma {:induction false} CheckMatchesChain(t: Table, depth: map<Id, nat>, id: Id, p: Id)
    requires Forest(t, depth) && p in t
    ensures IsParentADescendent(t, depth, id, Some(p)) != Missing
    ensures IsParentADescendent(t, depth, id, Some(p)) == Yes <==>
            t[p].parent.Some? && id in Chain(t, depth, t[p].parent.value)
    decreases depth[p]
  {
    match t[p].parent
    case None =>
    case Some(q) =>
      CheckMatchesChain(t, depth, id, q);
      match t[q].parent
      case None =>
      case Some(_) =>
  }

  /** Hanging id, with everything under it, below target. */
  function Move(t: Table, id: Id, target: Option<Id>): Table
    requires id in t
  {
    t[id := t[id].(parent := target, changeCount := t[id].changeCount + 1)]
  }

  ghost predicate Under(t: Table, depth: map<Id, nat>, id: Id, x: Id)
    requires Forest(t, depth) && x in t
    decreases depth[x]
  {
    x == id || (t[x].parent.Some? && Under(t, depth, id, t[x].parent.value))
  }

  lemma {:induction false} UnderMeansYes(t: Table, depth: map<Id, nat>, id: Id, p: Id)
    requires Forest(t, depth) && p in t && p != id && Under(t, depth, id, p)
    ensures IsParentADescendent(t, depth, id, Some(p)) == Yes
    decreases depth[p]
  {
    if t[p].parent.value != id {
      UnderMeansYes(t, depth, id, t[p].parent.value);
    }
  }

  /** Depths after the move: everything moved goes deeper than the target. */
  ghost function MovedDepth(t: Table, depth: map<Id, nat>, id: Id, target: Option<Id>): map<Id, nat>
    requires Forest(t, depth)
    requires target.Some? ==> target.value in t
  {
    var drop: nat := if target.Some? then depth[target.value] + 1 else 0;
    map x | x in t :: if Under(t, depth, id, x) then depth[x] + drop else depth[x]
  }

  /** A move that the check lets through, to another object, leaves a forest. */
  lemma MoveKeepsForest(t: Table, depth: map<Id, nat>, id: Id, target: Option<Id>)
    requires Forest(t, depth) && id in t
    requires IsParentADescendent(t, depth, id, target) == No && target != Some(id)
    ensures Forest(Move(t, id, target), MovedDepth(t, depth, id, target))
  {
    var t' := Move(t, id, target);
    var depth' := MovedDepth(t, depth, id, target);
    if target.Some? {
      assert !Under(t, depth, id, target.value) by {
        if Under(t, depth, id, target.value) {
          UnderMeansYes(t, depth, id, target.value);
        }
      }
    }
    forall x | x in t' && t'[x].parent.Some?
      ensures t'[x].parent.value in t' && depth'[t'[x].parent.value] < depth'[x]
    {
      if x != id {
        assert Under(t, depth, id, x) <==> Under(t, depth, id, t[x].parent.value);
      }
    }
  }

  /** Without the second guard the check is not enough: an object may be hung below itself. */
  lemma MoveOntoItself(t: Table, depth: map<Id, nat>, id: Id)
    requires Forest(t, depth) && id in t
    ensures IsParentADescendent(t, depth, id, Some(id)) == No
    ensures !exists d :: Forest(Move(t, id, Some(id)), d)
  {
    NotItsOwnAncestor(t, depth, id, id);
    forall d: map<Id, nat>
      ensures !Forest(Move(t, id, Some(id)), d)
    {
      var t' := Move(t, id, Some(id));
      assert t'[id].parent == Some(id);
    }
  }

  lemma {:induction false} NotItsOwnAncestor(t: Table, depth: map<Id, nat>, id: Id, p: Id)
    requires Forest(t, depth) && id in t && p in t && depth[p] <= depth[id]
    ensures IsParentADescendent(t, depth, id, Some(p)) == No
    decreases depth[p]
  {
    match t[p].parent
    case None =>
    case Some(q) => NotItsOwnAncestor(t, depth, id, q);
  }

  lemma {:induction false} YesMeansUnder(t: Table, depth: map<Id, nat>, id: Id, p: Id)
    requires Forest(t, depth) && p in t && IsParentADescendent(t, depth, id, Some(p)) == Yes
    ensures Under(t, depth, id, p)
    decreases depth[p]
  {
    if t[p].parent != Some(id) {
      YesMeansUnder(t, depth, id, t[p].parent.value);
    } else {
      assert Under(t, depth, id, id);
    }
  }

  /** However depths are given to the table after a move, what was under the object stays below it. */
  lemma {:induction false} StaysBelow(t: Table, depth: map<Id, nat>, id: Id, target: Option<Id>, d: map<Id, nat>, x: Id)
    requires Forest(t, depth) && id in t && x in t && Under(t, depth, id, x)
    requires Forest(Move(t, id, target), d)
    ensures d[id] <= d[x]
    decreases depth[x]
  {
    if x != id {
      assert Move(t, id, target)[x] == t[x];
      StaysBelow(t, depth, id, target, d, t[x].parent.value);
    }
  }

  /** A move leaves a forest exactly when both guards let it through. */
  lemma MoveLeavesForestExactly(t: Table, depth: map<Id, nat>, id: Id, target: Option<Id>)
    requires Forest(t, depth) && id in t
    ensures (exists d :: Forest(Move(t, id, target), d)) <==>
            IsParentADescendent(t, depth, id, target) == No && target != Some(id)
  {
    if IsParentADescendent(t, depth, id, target) == No && target != Some(id) {
      MoveKeepsForest(t, depth, id, target);
    }
    if d :| Forest(Move(t, id, target), d) {
      assert Move(t, id, target)[id].parent == target;
      if target.Some? {
        assert target.value in t && d[target.value] < d[id];
        if Under(t, depth, id, target.value) {
          StaysBelow(t, depth, id, target, d, target.value);
        }
        assert !Under(t, depth, id, target.value);
        CheckMatchesChain(t, depth, id, target.value);
        if IsParentADescendent(t, depth, id, target) == Yes {
          YesMeansUnder(t, depth, id, target.value);
        }
      }
    }
  }

  /** Moves made one after another; None once the check refuses one. However many go through, the table
      is a forest, so the next check and every walk up to the root still end. */
  ghost function MoveAll(t: Table, depth: map<Id, nat>, moves: seq<(Id, Option<Id>)>)
      : (r: Option<(Table, map<Id, nat>)>)
    requires Forest(t, depth)
    ensures r.Some? ==> Forest(r.value.0, r.value.1)
    decreases |moves|
  {
    if moves == [] then Some((t, depth))
    else
      var (id, target) := moves[0];
      if id in t && target != Some(id) && IsParentADescendent(t, depth, id, target) == No then
        MoveKeepsForest(t, depth, id, target);
        MoveAll(Move(t, id, target), MovedDepth(t, depth, id, target), moves[1..])
      else None
  }

  /** The parent an object ends with: the target of its last move. */
  function Targeted(moves: seq<(Id, Option<Id>)>, x: Id, parent: Option<Id>): Option<Id> {
    if moves == [] then parent
    else Targeted(moves[1..], x, if moves[0].0 == x then moves[0].1 else parent)
  }

  function TimesMoved(moves: seq<(Id, Option<Id>)>, x: Id): nat {
    if moves == [] then 0 else TimesMoved(moves[1..], x) + if moves[0].0 == x then 1 else 0
  }

  /** The same objects, each below the target of its last move and otherwise as it was. */
  ghost predicate Moved(t: Table, t': Table, moves: seq<(Id, Option<Id>)>) {
    && t'.Keys == t.Keys
    && forall x :: x in t ==>
         t'[x] == t[x].(parent := Targeted(moves, x, t[x].parent), changeCount := t[x].changeCount + TimesMoved(moves, x))
  }

  lemma MovedOneMore(t: Table, t': Table, moves: seq<(Id, Option<Id>)>)
    requires moves != [] && moves[0].0 in t && Moved(Move(t, moves[0].0, moves[0].1), t', moves[1..])
    ensures Moved(t, t', moves)
  {
  }

  /** Any number of moves that the server lets through leave a forest of the same objects, each below the
      target of its last move and otherwise as it was. */
  lemma {:induction false} MovesKeepForest(t: Table, depth: map<Id, nat>, moves: seq<(Id, Option<Id>)>)
    requires Forest(t, depth)
    ensures var r := MoveAll(t, depth, moves);
            r.Some? ==> Forest(r.value.0, r.value.1) && Moved(t, r.value.0, moves)
    decreases |moves|
  {
    if moves != [] {
      var (id, target) := moves[0];
      if id in t && target != Some(id) && IsParentADescendent(t, depth, id, target) == No {
        MoveKeepsForest(t, depth, id, target);
        MovesKeepForest(Move(t, id, target), MovedDepth(t, depth, id, target), moves[1..]);
        var r := MoveAll(t, depth, moves);
        if r.Some? {
          MovedOneMore(t, r.value.0, moves);
        }
      }
    }
  }
}
