/** Client code: user interactions played against the store, the scene and
    the bodies, showing what callers can conclude from the contracts alone. */
module Scenarios {
  import opened Types
  import opened SimulationStore
  import opened Scene
  import opened FallingSphere

  /** Names the impulse of one concrete drag, so that the scenarios below
      need no arithmetic of their own. */
  lemma ImpulseOfDrag(start: Vec3, end: Vec3, impulse: Vec3)
    requires (end.x - start.x) * 5.0 == impulse.x
    requires (end.y - start.y) * 5.0 == impulse.y
    requires (end.z - start.z) * 5.0 == impulse.z
    ensures ImpulseFor(start, end) == impulse
  {
  }

  /** Drag an object from (0, 1, 0) to (2, 1, 0) in `force` mode: the engine
      receives (2, 0, 0) times FORCE_MULTIPLIER and the gesture ends. */
  method ForceDrag(h: Handle)
  {
    var store := new SimulationState();
    var scene := new PhysicsScene(store);
    store.AddObject("a", Vec3(0.0, 0.5, 0.0));
    var a := new PointParticle(store.objects[0], store, scene);
    a.Mount(Some(h));
    store.SetInteractionMode(Force);
    assert scene.bodyRefs == map["a" := h];
    a.HandlePointerDown(Vec3(0.0, 1.0, 0.0));
    assert store.forceState == Some(ForceState("a", Vec3(0.0, 1.0, 0.0)));
    scene.HandlePointerMove(Vec3(2.0, 1.0, 0.0));
    assert scene.forceVectorVisual == Some(ForceVisual(Vec3(0.0, 1.0, 0.0), Vec3(2.0, 1.0, 0.0)));
    ImpulseOfDrag(Vec3(0.0, 1.0, 0.0), Vec3(2.0, 1.0, 0.0), Vec3(10.0, 0.0, 0.0));
    scene.HandlePointerUp();
    assert scene.applied == [AppliedImpulse(h, Vec3(10.0, 0.0, 0.0))];
    assert store.forceState == None && scene.forceVectorVisual == None;
  }

  /** A pointer-up with no move in between applies nothing and leaves the
      gesture in place. */
  method ReleaseWithoutMove(h: Handle)
  {
    var store := new SimulationState();
    var scene := new PhysicsScene(store);
    store.AddObject("a", Vec3(0.0, 0.5, 0.0));
    var a := new PointParticle(store.objects[0], store, scene);
    a.Mount(Some(h));
    store.SetInteractionMode(Force);
    a.HandlePointerDown(Vec3(0.0, 1.0, 0.0));
    scene.HandlePointerUp();
    assert store.forceState == Some(ForceState("a", Vec3(0.0, 1.0, 0.0)));
    assert scene.applied == [];
  }

  /** A gesture left in place survives the switch to `select` that a click on
      the ground makes, and a later move and release still push the body. */
  method GestureOutlivesForceMode(h: Handle)
  {
    var store := new SimulationState();
    var scene := new PhysicsScene(store);
    scene.OnRefReady("a", Some(h));
    store.SetInteractionMode(Force);
    store.SetForceState(Some(ForceState("a", Vec3(0.0, 1.0, 0.0))));
    scene.HandleSceneClick(Vec3(3.0, 0.0, 3.0), "b");
    assert store.interactionMode == Select;
    assert store.forceState == Some(ForceState("a", Vec3(0.0, 1.0, 0.0)));
    scene.HandlePointerMove(Vec3(1.0, 1.0, 0.0));
    assert scene.forceVectorVisual == Some(ForceVisual(Vec3(0.0, 1.0, 0.0), Vec3(1.0, 1.0, 0.0)));
    assert scene.bodyRefs == map["a" := h];
    ImpulseOfDrag(Vec3(0.0, 1.0, 0.0), Vec3(1.0, 1.0, 0.0), Vec3(5.0, 0.0, 0.0));
    scene.HandlePointerUp();
    assert scene.applied == [AppliedImpulse(h, Vec3(5.0, 0.0, 0.0))];
  }

  /** A drag interrupted by a mode change leaves its arrow behind: the mode
      change drops the gesture but not the arrow. A new gesture released
      without any move then pushes with the stale arrow's end point, here
      (2, 1, 0) - (1, 1, 0) times FORCE_MULTIPLIER. */
  method StaleArrow(h: Handle)
  {
    var store := new SimulationState();
    var scene := new PhysicsScene(store);
    store.AddObject("a", Vec3(0.0, 0.5, 0.0));
    var a := new PointParticle(store.objects[0], store, scene);
    a.Mount(Some(h));
    store.SetInteractionMode(Force);
    assert scene.bodyRefs == map["a" := h];
    a.HandlePointerDown(Vec3(0.0, 1.0, 0.0));
    assert store.forceState == Some(ForceState("a", Vec3(0.0, 1.0, 0.0)));
    scene.HandlePointerMove(Vec3(2.0, 1.0, 0.0));
    assert scene.forceVectorVisual == Some(ForceVisual(Vec3(0.0, 1.0, 0.0), Vec3(2.0, 1.0, 0.0)));
    store.SetInteractionMode(Force);
    assert store.forceState == None && store.interactionMode == Force;
    a.HandlePointerDown(Vec3(1.0, 1.0, 0.0));
    assert store.forceState == Some(ForceState("a", Vec3(1.0, 1.0, 0.0)));
    assert scene.forceVectorVisual == Some(ForceVisual(Vec3(0.0, 1.0, 0.0), Vec3(2.0, 1.0, 0.0)));
    assert scene.bodyRefs == map["a" := h];
    ImpulseOfDrag(Vec3(1.0, 1.0, 0.0), Vec3(2.0, 1.0, 0.0), Vec3(5.0, 0.0, 0.0));
    scene.HandlePointerUp();
    assert scene.applied == [AppliedImpulse(h, Vec3(5.0, 0.0, 0.0))];
  }

  /** A click highlights every body carrying the clicked id (duplicates
      included) and no other; entering `add` mode, clearing the scene and
      resetting each leave no body highlighted. */
  method SelectionHighlight()
  {
    var store := new SimulationState();
    var scene := new PhysicsScene(store);
    store.AddObject("a", Vec3(0.0, 0.5, 0.0));
    store.AddObject("b", Vec3(1.0, 0.5, 0.0));
    store.AddObject("a", Vec3(2.0, 0.5, 0.0));
    var a1 := new PointParticle(store.objects[0], store, scene);
    var b := new PointParticle(store.objects[1], store, scene);
    var a2 := new PointParticle(store.objects[2], store, scene);
    a1.HandleClick();
    assert a1.IsSelected() && a2.IsSelected() && !b.IsSelected();
    store.SetInteractionMode(Add);
    NothingHighlightedWithoutSelection(store);
    assert !a1.IsSelected() && !a2.IsSelected();
    b.HandleClick();
    assert b.IsSelected() && !a1.IsSelected();
    store.ClearScene();
    NothingHighlightedWithoutSelection(store);
    assert !b.IsSelected();
    a2.HandleClick();
    store.TriggerReset();
    NothingHighlightedWithoutSelection(store);
    assert !a1.IsSelected() && !a2.IsSelected();
  }

  /** A gesture on a body whose handle is gone still ends, pushing nothing. */
  method ReleaseAfterUnmount(h: Handle)
  {
    var store := new SimulationState();
    var scene := new PhysicsScene(store);
    store.AddObject("a", Vec3(0.0, 0.5, 0.0));
    var a := new PointParticle(store.objects[0], store, scene);
    a.Mount(Some(h));
    store.SetInteractionMode(Force);
    a.HandlePointerDown(Vec3(0.0, 1.0, 0.0));
    scene.HandlePointerMove(Vec3(2.0, 1.0, 0.0));
    a.Unmount();
    scene.HandlePointerUp();
    assert scene.applied == [] && scene.bodyRefs == map[];
    assert store.forceState == None && scene.forceVectorVisual == None;
  }

  /** Three clicks in `add` mode place three unit-mass objects at height 0.5;
      equal clock readings give equal ids, and a mass update then rewrites
      every object carrying that id. */
  method AddThree()
  {
    var store := new SimulationState();
    var scene := new PhysicsScene(store);
    store.SetInteractionMode(Add);
    scene.HandleSceneClick(Vec3(0.0, 0.0, 0.0), "1");
    store.SetInteractionMode(Add);
    scene.HandleSceneClick(Vec3(1.0, 7.0, 1.0), "1");
    store.SetInteractionMode(Add);
    scene.HandleSceneClick(Vec3(2.0, 0.0, 2.0), "2");
    assert |store.objects| == 3 && store.interactionMode == Select;
    assert store.objects[1] == InteractiveObject("1", 1.0, Vec3(1.0, 0.5, 1.0));
    store.UpdateObjectMass("1", 3.0);
    assert store.objects[0].mass == 3.0 && store.objects[1].mass == 3.0;
    assert store.objects[2].mass == 1.0;
  }

  /** Pausing twice restores the state; a reset from a populated state
      restores the initial one, and resetting again changes nothing. */
  method PauseAndReset()
  {
    var store := new SimulationState();
    store.AddObject("x", Vec3(0.0, 0.5, 0.0));
    store.SetGravityY(-1.0);
    var before := store.State();
    store.TogglePause();
    store.TogglePause();
    assert store.State() == before;
    store.TriggerReset();
    assert store.State() == InitialState;
    store.TriggerReset();
    assert store.State() == InitialState;
  }
}
