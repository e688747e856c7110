/** The global simulation store (store/useSimulationStore.ts): gravity, pause,
    the user-placed objects, the selection, the interaction mode and the
    in-progress force gesture. Every action overwrites some fields of the one
    record and leaves the rest alone; the contracts below say which. */
module SimulationStore {
  import opened Types

  datatype Mode = Select | Add | Force

  /** A force gesture in progress: the body it started on and the start point. */
  datatype ForceState = ForceState(objectId: string, startPoint: Vec3)

  /** A snapshot of the store's six data fields. */
  datatype StoreState = StoreState(
    gravityY: real,
    paused: bool,
    objects: seq<InteractiveObject>,
    selectedObjectId: Option<string>,
    interactionMode: Mode,
    forceState: Option<ForceState>)

  /** The mass every new object starts with. */
  const DefaultMass: real := 1.0

  /** The state the store is created with, and the one `triggerReset` restores. */
  const InitialState: StoreState := StoreState(-9.81, false, [], None, Select, None)

  /** The objects with every entry whose id is `id` given mass `mass`, in
      place; ids need not be unique, so every match is rewritten. */
  function MassesUpdated(objects: seq<InteractiveObject>, id: string, mass: real): (r: seq<InteractiveObject>)
    ensures |r| == |objects|
    ensures forall i :: 0 <= i < |r| ==>
              r[i].id == objects[i].id && r[i].position == objects[i].position
    ensures forall i :: 0 <= i < |r| && objects[i].id == id ==> r[i].mass == mass
    ensures forall i :: 0 <= i < |r| && objects[i].id != id ==> r[i] == objects[i]
  {
    if objects == [] then []
    else
      var head := if objects[0].id == id then objects[0].(mass := mass) else objects[0];
      [head] + MassesUpdated(objects[1..], id, mass)
  }

  /** Updating the mass of an id no object carries changes nothing. */
  lemma MassesUpdatedAbsent(objects: seq<InteractiveObject>, id: string, mass: real)
    requires forall i :: 0 <= i < |objects| ==> objects[i].id != id
    ensures MassesUpdated(objects, id, mass) == objects
  {
    var r := MassesUpdated(objects, id, mass);
    assert forall i :: 0 <= i < |r| ==> r[i] == objects[i];
  }

  /** Setting the same mass twice is the same as setting it once. */
  lemma MassesUpdatedIdempotent(objects: seq<InteractiveObject>, id: string, mass: real)
    ensures MassesUpdated(MassesUpdated(objects, id, mass), id, mass) == MassesUpdated(objects, id, mass)
  {
    var once := MassesUpdated(objects, id, mass);
    var twice := MassesUpdated(once, id, mass);
    forall i | 0 <= i < |twice| ensures twice[i] == once[i] {
      if once[i].id == id {
        assert twice[i] == InteractiveObject(id, mass, once[i].position);
        assert once[i] == InteractiveObject(id, mass, once[i].position);
      }
    }
  }

  class SimulationState {
    var gravityY: real
    var paused: bool
    var objects: seq<InteractiveObject>
    var selectedObjectId: Option<string>
    var interactionMode: Mode
    var forceState: Option<ForceState>

    function State(): StoreState
      reads this
    {
      StoreState(gravityY, paused, objects, selectedObjectId, interactionMode, forceState)
    }

    constructor ()
      ensures State() == InitialState
    {
      gravityY := -9.81;
      paused := false;
      objects := [];
      selectedObjectId := None;
      interactionMode := Select;
      forceState := None;
    }

    method SetGravityY(g: real)
      modifies this
      ensures State() == old(State()).(gravityY := g)
    {
      gravityY := g;
    }

    /** Flips `paused` and nothing else, so two calls restore the state. */
    method TogglePause()
      modifies this
      ensures paused == !old(paused)
      ensures State() == old(State()).(paused := !old(paused))
    {
      paused := !paused;
    }

    /** Any mode change drops the force gesture; entering `add` also drops
        the selection, while `select` and `force` keep it. */
    method SetInteractionMode(mode: Mode)
      modifies this
      ensures interactionMode == mode && forceState == None
      ensures selectedObjectId == None <==> mode == Add || old(selectedObjectId) == None
      ensures mode != Add ==> selectedObjectId == old(selectedObjectId)
      ensures State() == old(State()).(interactionMode := mode,
                                       selectedObjectId := if mode == Add then None else old(selectedObjectId),
                                       forceState := None)
    {
      interactionMode := mode;
      selectedObjectId := if mode == Add then None else selectedObjectId;
      forceState := None;
    }

    method SetForceState(state: Option<ForceState>)
      modifies this
      ensures State() == old(State()).(forceState := state)
    {
      forceState := state;
    }

    /** Appends one object of the default mass at `position` and switches to
        `select`. The id is the clock reading the caller supplies; nothing
        makes it differ from the ids already present. */
    method AddObject(id: string, position: Vec3)
      modifies this
      ensures |objects| == |old(objects)| + 1
      ensures objects[..|old(objects)|] == old(objects)
      ensures objects[|old(objects)|] == InteractiveObject(id, DefaultMass, position)
      ensures State() == old(State()).(objects := objects, interactionMode := Select)
    {
      objects := objects + [InteractiveObject(id, DefaultMass, position)];
      interactionMode := Select;
    }

    /** Gives every object whose id is `id` the new mass; order, ids,
        positions and all other objects stay as they were. */
    method UpdateObjectMass(id: string, mass: real)
      modifies this
      ensures objects == MassesUpdated(old(objects), id, mass)
      ensures State() == old(State()).(objects := objects)
    {
      objects := MassesUpdated(objects, id, mass);
    }

    /** Selects `id` (or nothing) and forces `select` mode; an ongoing force
        gesture is kept. */
    method SelectObject(id: Option<string>)
      modifies this
      ensures State() == old(State()).(selectedObjectId := id, interactionMode := Select)
    {
      selectedObjectId := id;
      interactionMode := Select;
    }

    /** Empties the scene; gravity, pause and the mode are kept. */
    method ClearScene()
      modifies this
      ensures State() == old(State()).(objects := [], selectedObjectId := None, forceState := None)
    {
      objects := [];
      selectedObjectId := None;
      forceState := None;
    }

    /** Restores every field to its initial value, whatever the prior state;
        a second reset therefore changes nothing. */
    method TriggerReset()
      modifies this
      ensures State() == InitialState
    {
      objects := [];
      selectedObjectId := None;
      paused := false;
      gravityY := -9.81;
      interactionMode := Select;
      forceState := None;
    }
  }
}
