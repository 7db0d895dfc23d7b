/**
 * The adapter instance as an object whose methods change the store step by
 * step, the way `initialObjects`, `resetLinkedObjectsStatus`,
 * `generateLinkedObjects` and `createLinkedObject` do. Each method is proved
 * to leave the store exactly as the matching function of `Reconcile`
 * describes; `ReconcileProofs` proves what those functions promise.
 *
 * The store's enumerations (`getAdapterObjectsAsync`,
 * `getForeignObjectsAsync('')`) are the id sequences the methods take: the
 * order in which the store lists its objects. Each method takes its snapshot
 * of the objects when it starts, as the source's awaited enumeration does.
 */
module Adapter {
  import opened StoreModel
  import opened LinkIds
  import opened Reconcile

  class Linkeddevices {
    /** The instance namespace, e.g. `linkeddevices.0`. */
    const namespace: string
    /** The store's objects by id. */
    var objects: map<string, Obj>
    /** The store's states by id. */
    var states: map<string, State>
    /** The configuration errors the instance has logged, in order. */
    var errors: seq<ConfigError>

    /** The store and log as one value. */
    function Current(): Store
      reads this
    {
      Store(objects, states, errors)
    }

    /** An instance over a store, with nothing logged yet. */
    constructor (namespace: string, objects: map<string, Obj>, states: map<string, State>)
      ensures this.namespace == namespace
      ensures Current() == Store(objects, states, [])
    {
      this.namespace := namespace;
      this.objects := objects;
      this.states := states;
      this.errors := [];
    }

    /**
     * `resetLinkedObjectsStatus`: for every own object the store enumerates
     * (`ownIds`), in order, write it back with `linked: false` in its own
     * custom block, when it has one.
     */
    method ResetLinkedObjectsStatus(ownIds: seq<string>)
      requires forall k | k in ownIds :: k in objects
      modifies this
      ensures objects == Reset(namespace, old(objects), ownIds, old(objects))
      ensures states == old(states) && errors == old(errors)
    {
      var linkedObjList := objects;
      var i := 0;
      while i < |ownIds|
        invariant 0 <= i <= |ownIds|
        invariant Reset(namespace, linkedObjList, ownIds[i..], objects) == Reset(namespace, linkedObjList, ownIds, linkedObjList)
        invariant states == old(states) && errors == old(errors)
      {
        var idLinkedObj := ownIds[i];
        var linkedObj := linkedObjList[idLinkedObj];
        if namespace in linkedObj.common.custom {
          var block := linkedObj.common.custom[namespace];
          block := block.(linked := Some(false));
          linkedObj := linkedObj.(common := linkedObj.common.(custom := linkedObj.common.custom[namespace := block]));
          objects := objects[idLinkedObj := linkedObj];
        }
        assert ownIds[i..][1..] == ownIds[i + 1..];
        i := i + 1;
      }
    }

    /**
     * `generateLinkedObjects`: visit every object the store enumerates
     * (`parentIds`), in order; log the parents whose configured id is missing
     * or illegal, hand the others to the builder, and stop at the first
     * parent the builder aborts on.
     */
    method GenerateLinkedObjects(parentIds: seq<string>) returns (outcome: Outcome)
      requires forall k | k in parentIds :: k in objects
      modifies this
      ensures Run(Current(), outcome) == Generate(namespace, old(objects), parentIds, old(Current()))
    {
      var parentObjList := objects;
      ghost var start := Current();
      var i := 0;
      while i < |parentIds|
        invariant 0 <= i <= |parentIds|
        invariant Generate(namespace, parentObjList, parentIds[i..], Current()) == Generate(namespace, parentObjList, parentIds, start)
      {
        var idParentObj := parentIds[i];
        var parentObj := parentObjList[idParentObj];
        ghost var before := Current();
        if !Contains(idParentObj, namespace) && namespace in parentObj.common.custom && parentObj.common.custom[namespace].enabled {
          var custom := parentObj.common.custom[namespace];
          if custom.id == None || custom.id == Some("") {
            errors := errors + [MissingLinkId(idParentObj)];
          } else {
            var linkedId := LinkedObjectId(namespace, custom.id.value);
            if HasIllegalChar(linkedId) {
              errors := errors + [InvalidLinkId(idParentObj, linkedId)];
            } else {
              outcome := CreateLinkedObject(idParentObj, parentObj);
              if outcome.Aborted? {
                return;
              }
            }
          }
        }
        assert Visit(namespace, idParentObj, parentObj, before) == Run(Current(), Completed);
        assert parentIds[i..][1..] == parentIds[i + 1..];
        i := i + 1;
      }
      outcome := Completed;
    }

    /**
     * `createLinkedObject` for the parent `parentObj` stored under `parentId`:
     * upsert the linked object at the derived id, then copy the parent's
     * state, acknowledged, when it has one. A parent without a custom name
     * aborts before anything is written.
     */
    method CreateLinkedObject(parentId: string, parentObj: Obj) returns (outcome: Outcome)
      requires namespace in parentObj.common.custom && parentObj.common.custom[namespace].id.Some?
      modifies this
      ensures Run(Current(), outcome) == Create(namespace, parentId, parentObj, old(Current()))
    {
      var linkedId := LinkedObjectId(namespace, parentObj.common.custom[namespace].id.value);
      var custom := parentObj.common.custom[namespace];
      var name: string;
      if custom.name == None {
        // the source reads the length of the absent name, which throws
        return Aborted(parentId);
      } else if custom.name.value != "" {
        name := custom.name.value;
      } else {
        name := parentObj.common.name;
      }
      var common := parentObj.common.(name := name);
      common := common.(desc := Some(Provenance));
      common := common.(custom := common.custom[namespace := LinkStatus(parentId)]);
      var linkedObj := Obj(parentObj.kind, common, map[]);
      objects := objects[linkedId := linkedObj];
      if parentId in states {
        var parentObjState := states[parentId];
        states := states[linkedId := LinkedState(parentObjState)];
      }
      outcome := Completed;
    }

    /**
     * `initialObjects`: the status reset over the enumerated own objects,
     * then generation over all objects the store enumerates afterwards.
     */
    method InitialObjects(ownIds: seq<string>, allIds: seq<string>) returns (outcome: Outcome)
      requires forall k | k in ownIds :: k in objects
      requires forall k | k in allIds :: k in objects
      modifies this
      ensures Run(Current(), outcome) == Pass(namespace, old(Current()), ownIds, allIds)
    {
      ResetLinkedObjectsStatus(ownIds);
      outcome := GenerateLinkedObjects(allIds);
    }
  }
}
