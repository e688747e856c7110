/** One user-placed body (components/FallingSphere.tsx, component
    PointParticle): it registers its engine handle with the scene while
    mounted, highlights itself when selected, selects itself on click and
    starts a force gesture on pointer-down in `force` mode. */
module FallingSphere {
  import opened Types
  import opened SimulationStore
  import opened Scene

  class PointParticle {
    const objectData: InteractiveObject
    const store: SimulationState
    /** The scene whose `onRefReady` callback this body was given. */
    const scene: PhysicsScene

    /** There is one global store: the scene and every body read and write
        the same one. */
    constructor (objectData: InteractiveObject, store: SimulationState, scene: PhysicsScene)
      requires scene.store == store
      ensures this.objectData == objectData && this.store == store && this.scene == scene
    {
      this.objectData := objectData;
      this.store := store;
      this.scene := scene;
    }

    /** The body is drawn highlighted exactly when the store selects its id. */
    function IsSelected(): bool
      reads store
    {
      store.selectedObjectId == Some(objectData.id)
    }

    /** The mount effect: registers the body's handle, if the engine has
        created one by then (`current`); with no handle it does nothing. */
    method Mount(current: Option<Handle>)
      modifies scene
      ensures current.Some? ==> scene.bodyRefs == old(scene.bodyRefs)[objectData.id := current.value]
      ensures current.None? ==> scene.bodyRefs == old(scene.bodyRefs)
      ensures scene.forceVectorVisual == old(scene.forceVectorVisual) && scene.applied == old(scene.applied)
    {
      if current.Some? {
        scene.OnRefReady(objectData.id, current);
      }
    }

    /** The effect's cleanup on unmount: always deregisters the body's id,
        leaving every other entry alone. */
    method Unmount()
      modifies scene
      ensures scene.bodyRefs == old(scene.bodyRefs) - {objectData.id}
      ensures scene.forceVectorVisual == old(scene.forceVectorVisual) && scene.applied == old(scene.applied)
    {
      scene.OnRefReady(objectData.id, None);
    }

    /** A click on the body selects it, switching to `select` mode. Afterwards
        exactly the bodies on the same store that carry this body's id are
        drawn highlighted: this one and any other with a duplicate id. */
    method HandleClick()
      modifies store
      ensures IsSelected() && store.interactionMode == Select
      ensures forall b: PointParticle :: b.store == store ==> (b.IsSelected() <==> b.objectData.id == objectData.id)
      ensures store.State() == old(store.State()).(selectedObjectId := Some(objectData.id), interactionMode := Select)
    {
      store.SelectObject(Some(objectData.id));
    }

    /** In `force` mode a pointer-down on the body starts a gesture at the
        pointer's world position; in the other modes nothing changes. */
    method HandlePointerDown(point: Vec3)
      modifies store
      ensures old(store.interactionMode) == Force ==>
                store.State() == old(store.State()).(forceState := Some(ForceState(objectData.id, point)))
      ensures old(store.interactionMode) != Force ==> store.State() == old(store.State())
    {
      if store.interactionMode == Force {
        store.SetForceState(Some(ForceState(objectData.id, point)));
      }
    }
  }

  /** With no selection, which is what entering `add` mode, clearing the
      scene and resetting leave behind, no body on that store is highlighted. */
  lemma NothingHighlightedWithoutSelection(store: SimulationState)
    requires store.selectedObjectId == None
    ensures forall b: PointParticle :: b.store == store ==> !b.IsSelected()
  {
  }
}
