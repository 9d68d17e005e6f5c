/** The object registry the game code calls GameObjectManager. Its source
    is not part of this model: it is modelled as a map from unique id to
    object, ordered by id like a std::map, with the set of ids queued for
    removal. */
module Registry {
  import opened Common
  import opened GameObjects

  /** A non-empty set of ids has an element. */
  lemma NonEmptyHasElement(s: set<int>)
    requires s != {}
    ensures exists y :: y in s
  {
    if forall y :: y !in s {
      assert false;
    }
  }

  /** The smallest element of a non-empty set of ids. */
  lemma {:induction false} MinimumExists(s: set<int>)
    requires s != {}
    ensures exists m :: m in s && forall j :: j in s ==> m <= j
    decreases |s|
  {
    NonEmptyHasElement(s);
    var x :| x in s;
    if s != {x} {
      var rest := s - {x};
      assert forall j :: j in s ==> j == x || j in rest;
      MinimumExists(rest);
      var m :| m in rest && forall j :: j in rest ==> m <= j;
      if x < m {
        assert forall j :: j in s ==> x <= j;
      } else {
        assert forall j :: j in s ==> m <= j;
      }
    } else {
      assert forall j :: j in s ==> x <= j;
    }
  }

  class GameObjectManager {
    var objects: map<int, GameObject>
    /** The ids handed to addReadyToRemoveGameObject. */
    var readyToRemove: set<int>

    /** Every object is filed under its own unique id and is well formed. */
    ghost predicate Valid()
      reads this, objects.Values
    {
      forall id :: id in objects ==> objects[id].uniqueID == id && objects[id].Valid()
    }

    constructor ()
      ensures Valid() && objects == map[] && readyToRemove == {}
    {
      objects := map[];
      readyToRemove := {};
    }

    method AddGameObject(o: GameObject)
      requires Valid() && o.Valid() && o.uniqueID !in objects
      modifies this`objects
      ensures Valid() && objects == old(objects)[o.uniqueID := o]
    {
      objects := objects[o.uniqueID := o];
    }

    method RemoveGameObjectBy(id: int)
      requires Valid()
      modifies this`objects
      ensures Valid() && objects == old(objects) - {id}
    {
      objects := objects - {id};
    }

    method AddReadyToRemoveGameObject(id: int)
      modifies this`readyToRemove
      ensures readyToRemove == old(readyToRemove) + {id}
    {
      readyToRemove := readyToRemove + {id};
    }

    /** The action manager's tick of a registered object: its delayed calls
        run as in RunActions, and a removal call that fires
        (Building::addToRemoveQueue) hands the object's id to
        addReadyToRemoveGameObject. The registered objects stay the same. */
    method TickActions(o: GameObject, delta: real)
      requires Valid() && o.uniqueID in objects && objects[o.uniqueID] == o
      modifies this`readyToRemove, o`statusVisible, o`status, o`hpBarVisible, o`progressBarVisible, o`actions
      ensures Valid() && objects == old(objects)
      ensures readyToRemove == old(readyToRemove)
                               + (if AddToRemoveQueue in Fired(old(o.actions), delta) then {o.uniqueID} else {})
      ensures o.actions == Remaining(old(o.actions), delta)
      ensures old(o.PendingFitsStatus()) ==> o.PendingFitsStatus()
      ensures old(o.PendingFitsStatus()) && o.objectType == GameObjectType.Building ==>
                o.status == old(o.status)
                || (old(o.status) == BuildingStatus.BeingBuilt && o.status == BuildingStatus.Working)
    {
      var removeRequested := o.RunActions(delta);
      if removeRequested {
        AddReadyToRemoveGameObject(o.uniqueID);
      }
    }

    /** The registered ids in increasing order, the order in which a loop
        over the std::map visits them. */
    method SortedIDs() returns (ids: seq<int>)
      ensures forall i, j :: 0 <= i < j < |ids| ==> ids[i] < ids[j]
      ensures forall i :: 0 <= i < |ids| ==> ids[i] in objects
      ensures forall id :: id in objects ==> id in ids
    {
      var rest := objects.Keys;
      ids := [];
      while rest != {}
        invariant rest <= objects.Keys
        invariant forall i, j :: 0 <= i < j < |ids| ==> ids[i] < ids[j]
        invariant forall i, r :: 0 <= i < |ids| && r in rest ==> ids[i] < r
        invariant forall i :: 0 <= i < |ids| ==> ids[i] in objects
        invariant forall id :: id in ids <==> id in objects && id !in rest
        decreases rest
      {
        MinimumExists(rest);
        var m :| m in rest && forall j :: j in rest ==> m <= j;
        ids := ids + [m];
        rest := rest - {m};
      }
    }
  }
}
