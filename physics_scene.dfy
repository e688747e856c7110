/** The scene component (components/PhysicsScene.tsx): the registry of live
    body handles, the force-gesture arrow, and the handlers for clicks and
    pointer moves on the empty ground plane. Impulses handed to the physics
    engine are recorded in a log instead of being simulated. */
module Scene {
  import opened Types
  import opened SimulationStore

  const FORCE_MULTIPLIER: real := 5.0

  /** The height at which a click on the ground places a new object. */
  const SpawnHeight: real := 0.5

  /** The physics engine's reference to a rigid body; only its identity matters. */
  datatype Handle = Handle(body: nat)

  /** The yellow arrow drawn while a force gesture is dragged. */
  datatype ForceVisual = ForceVisual(start: Vec3, end: Vec3)

  /** One `applyImpulse` call made on the physics engine. */
  datatype AppliedImpulse = AppliedImpulse(body: Handle, impulse: Vec3)

  /** The impulse a drag from `start` to `end` applies: the drag vector
      (`end.sub(start)`) scaled by FORCE_MULTIPLIER. A drag that ends where
      it started pushes nothing, and only such a drag. */
  function ImpulseFor(start: Vec3, end: Vec3): (r: Vec3)
    ensures r == Zero <==> start == end
  {
    var drag := Difference(end, start);
    Vec3(drag.x * FORCE_MULTIPLIER, drag.y * FORCE_MULTIPLIER, drag.z * FORCE_MULTIPLIER)
  }

  /** Dividing FORCE_MULTIPLIER back out of the impulse and adding it to the
      start point gives the point where the drag ended. */
  lemma ImpulseRecoversDrag(start: Vec3, end: Vec3)
    ensures var r := ImpulseFor(start, end);
            Sum(start, Vec3(r.x / FORCE_MULTIPLIER, r.y / FORCE_MULTIPLIER, r.z / FORCE_MULTIPLIER)) == end
  {
  }

  /** The registry after the mount/unmount callback for `id`: a present
      handle is stored (replacing any older one), an absent one deletes the
      entry; every other id keeps its entry. */
  function RefReady(refs: map<string, Handle>, id: string, ref: Option<Handle>): (r: map<string, Handle>)
    ensures ref.Some? ==> id in r && r[id] == ref.value
    ensures ref.None? ==> id !in r
    ensures forall k :: k != id ==> (k in r <==> k in refs)
    ensures forall k :: k != id && k in r ==> r[k] == refs[k]
  {
    if ref.Some? then refs[id := ref.value] else refs - {id}
  }

  /** Unmounting undoes mounting: a body registered and then deregistered
      leaves the registry as if it had only been deregistered. */
  lemma UnmountUndoesMount(refs: map<string, Handle>, id: string, h: Handle)
    ensures RefReady(RefReady(refs, id, Some(h)), id, None) == RefReady(refs, id, None)
    ensures id !in refs ==> RefReady(RefReady(refs, id, Some(h)), id, None) == refs
  {
  }

  /** A later mount of the same id wins over an earlier one. */
  lemma RemountOverwrites(refs: map<string, Handle>, id: string, h1: Handle, h2: Handle)
    ensures RefReady(RefReady(refs, id, Some(h1)), id, Some(h2)) == RefReady(refs, id, Some(h2))
  {
  }

  /** A re-run of a body's mount effect (its cleanup, then the mount again)
      leaves the registry as a single mount would. */
  lemma RemountAfterUnmount(refs: map<string, Handle>, id: string, h: Handle)
    ensures RefReady(RefReady(refs, id, None), id, Some(h)) == RefReady(refs, id, Some(h))
  {
  }

  class PhysicsScene {
    const store: SimulationState
    /** `bodyRefs`: object id to live body handle. */
    var bodyRefs: map<string, Handle>
    var forceVectorVisual: Option<ForceVisual>
    /** Every impulse handed to the physics engine, oldest first. */
    ghost var applied: seq<AppliedImpulse>

    constructor (store: SimulationState)
      ensures this.store == store
      ensures bodyRefs == map[] && forceVectorVisual == None && applied == []
    {
      this.store := store;
      bodyRefs := map[];
      forceVectorVisual := None;
      applied := [];
    }

    /** The callback each body calls on mount (with its handle) and unmount
        (with none). */
    method OnRefReady(id: string, ref: Option<Handle>)
      modifies this
      ensures bodyRefs == RefReady(old(bodyRefs), id, ref)
      ensures forceVectorVisual == old(forceVectorVisual) && applied == old(applied)
    {
      if ref.Some? {
        bodyRefs := bodyRefs[id := ref.value];
      } else {
        bodyRefs := bodyRefs - {id};
      }
    }

    /** A click on the empty ground: in `add` mode a new object appears above
        the clicked point at SpawnHeight (the click's own height is dropped)
        and the mode becomes `select`; in `select` and `force` mode the
        selection is cleared, which also switches to `select`. The new
        object's id is the caller's clock reading. */
    method HandleSceneClick(point: Vec3, newId: string)
      modifies store
      ensures old(store.interactionMode) == Add ==>
                store.State() == old(store.State()).(
                  objects := old(store.objects) + [InteractiveObject(newId, DefaultMass, Vec3(point.x, SpawnHeight, point.z))],
                  interactionMode := Select)
      ensures old(store.interactionMode) != Add ==>
                store.State() == old(store.State()).(selectedObjectId := None, interactionMode := Select)
    {
      if store.interactionMode == Add {
        store.AddObject(newId, Vec3(point.x, SpawnHeight, point.z));
      } else if store.interactionMode == Select || store.interactionMode == Force {
        store.SelectObject(None);
      }
    }

    /** While a gesture is active the arrow runs from its start point to the
        pointer; otherwise nothing changes. */
    method HandlePointerMove(point: Vec3)
      modifies this
      ensures store.forceState.Some? ==>
                forceVectorVisual == Some(ForceVisual(store.forceState.value.startPoint, point))
      ensures store.forceState.None? ==> forceVectorVisual == old(forceVectorVisual)
      ensures bodyRefs == old(bodyRefs) && applied == old(applied)
    {
      if store.forceState.Some? {
        forceVectorVisual := Some(ForceVisual(store.forceState.value.startPoint, point));
      }
    }

    /** Ends a gesture, but only when both the gesture and an arrow exist.
        The arrow may be stale: mode changes, clearing and resetting drop the
        gesture but not the arrow. Then the impulse from the
        gesture's start point to the arrow's end is applied if, and only if,
        the body's handle is registered, and the gesture and the arrow are
        cleared either way. Otherwise nothing happens. */
    method HandlePointerUp()
      modifies this, store
      ensures bodyRefs == old(bodyRefs)
      ensures old(store.forceState).None? || old(forceVectorVisual).None? ==>
                store.State() == old(store.State()) &&
                forceVectorVisual == old(forceVectorVisual) &&
                applied == old(applied)
      ensures old(store.forceState).Some? && old(forceVectorVisual).Some? ==>
                var gesture := old(store.forceState).value;
                store.State() == old(store.State()).(forceState := None) &&
                forceVectorVisual == None &&
                applied == old(applied) +
                  if gesture.objectId in bodyRefs
                  then [AppliedImpulse(bodyRefs[gesture.objectId],
                                       ImpulseFor(gesture.startPoint, old(forceVectorVisual).value.end))]
                  else []
    {
      if store.forceState.Some? && forceVectorVisual.Some? {
        var gesture := store.forceState.value;
        if gesture.objectId in bodyRefs {
          var impulse := ImpulseFor(gesture.startPoint, forceVectorVisual.value.end);
          applied := applied + [AppliedImpulse(bodyRefs[gesture.objectId], impulse)];
        }
        store.SetForceState(None);
        forceVectorVisual := None;
      }
    }
  }
}
