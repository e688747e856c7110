# Physics sandbox interaction core, modelled in Dafny

This project models the stateful core of a browser physics sandbox. A user places
particles on a ground plane, selects them, and flicks them with a drag gesture.
A live chart shows the energy of a double pendulum.

The model covers four parts:

- **Simulation store** (`SimulationStore.SimulationState`). One global record holds
  gravity, the pause flag, the placed objects, the selection, the interaction mode
  (`select`, `add`, `force`) and the force gesture in progress. Each action
  overwrites some fields and keeps the rest. Every method states its whole new
  state as `old(State())` with exactly those fields replaced.
- **Energy history store** (`DataStore.DataState`). This is a sliding window of
  energy samples capped at `MAX_HISTORY` = 200. A ghost log records every call
  made on the store. The store's invariant is that the history equals `Replay`
  of that log. The lemma `ReplayIsRecentWindow` then shows what the history holds
  after any sequence of calls: exactly the latest 200 samples added since the
  last clear, in arrival order.
- **Scene** (`Scene.PhysicsScene`). This holds the registry from object ids to
  physics-engine body handles, the force arrow, and the ground-plane handlers for
  click, pointer-move and pointer-up. The physics engine is not modelled. Each
  `applyImpulse` call is recorded in a ghost log `applied` instead.
- **Per-body component** (`FallingSphere.PointParticle`). It covers the selection
  highlight, the click that selects the body, the pointer-down that starts a
  force gesture, and the mount and unmount callbacks that register and deregister
  the body's handle.

Coordinates, masses, gravity and energies are exact `real`s. Body handles are
opaque values. Object ids and timestamps come from the wall clock in the
program, so here the caller supplies them as parameters. Nothing in the model
makes object ids unique. `MassesUpdated` rewrites every object that carries the
id, and the `AddThree` scenario shows two objects with the same id.

`Scenarios` holds client methods. They play user interactions against the
contracts alone: a force drag, a release without a move, a gesture that
outlives `force` mode, a push with a stale arrow, a release after the body
unmounted, the selection highlight, three placements, and pause and reset.

In these places the code behaves differently from what one might expect, and
the model follows the code:

- Switching to `select` mode also clears the force gesture, like every other
  mode change (store/useSimulationStore.ts:38-44).
- Pointer-up acts only when a gesture and an arrow both exist
  (components/PhysicsScene.tsx:39). Otherwise nothing happens and a gesture
  stays active. A later move and release then still push the body, even after
  `selectObject` has switched the mode to `select` (scenarios
  `ReleaseWithoutMove` and `GestureOutlivesForceMode`).
- The arrow is cleared only by a pointer-up that acts
  (components/PhysicsScene.tsx:50). Mode changes, `clearScene` and
  `triggerReset` clear the gesture but not the arrow
  (store/useSimulationStore.ts:42, 63, 71). So when a drag is interrupted,
  its arrow stays behind. A new gesture released without any move then pushes
  by the distance from the new start point to the old arrow's end, times 5
  (scenario `StaleArrow`).
- `selectObject` and `addObject` switch the mode to `select` without clearing the
  gesture. So a gesture can outlive `force` mode.
- `triggerReset` resets only the six store fields. It does not touch the energy
  history, and the store has no pendulum masses or trail flag to reset.

## Model

| member | source | states |
|---|---|---|
| SimulationStore.MassesUpdated | store/useSimulationStore.ts:54-59 | same length; every object keeps its id and position; each object whose id matches gets the new mass, and every other object is unchanged |
| SimulationStore.MassesUpdatedAbsent | store/useSimulationStore.ts:54-59 | updating the mass of an id that no object carries leaves the list unchanged |
| SimulationStore.MassesUpdatedIdempotent | store/useSimulationStore.ts:54-59 | setting the same mass for the same id twice gives the same list as setting it once |
| SimulationStore.SimulationState.constructor | store/useSimulationStore.ts:28-34 | initial state: gravityY = -9.81, not paused, no objects, no selection, mode `select`, no gesture |
| SimulationStore.SimulationState.SetGravityY | store/useSimulationStore.ts:36 | only gravityY changes, to the given value |
| SimulationStore.SimulationState.TogglePause | store/useSimulationStore.ts:37 | only `paused` changes and is negated, so two calls restore the state |
| SimulationStore.SimulationState.SetInteractionMode | store/useSimulationStore.ts:38-44 | mode becomes m and the gesture is always cleared; the selection is cleared iff m is `add` (or it was already empty) and is otherwise kept; objects, gravity and pause are unchanged |
| SimulationStore.SimulationState.SetForceState | store/useSimulationStore.ts:45 | only the gesture changes, to the given value |
| SimulationStore.SimulationState.AddObject | store/useSimulationStore.ts:46-53 | the old objects stay as a prefix, followed by exactly one new object with mass 1 at the given position; the mode becomes `select`; selection and gesture are unchanged |
| SimulationStore.SimulationState.UpdateObjectMass | store/useSimulationStore.ts:54-59 | objects become `MassesUpdated` of the old list; nothing else changes |
| SimulationStore.SimulationState.SelectObject | store/useSimulationStore.ts:60-62 | the selection becomes the argument, including none, and the mode becomes `select`; the gesture and objects are unchanged |
| SimulationStore.SimulationState.ClearScene | store/useSimulationStore.ts:63 | objects empty, no selection, no gesture; gravity, pause and mode are unchanged |
| SimulationStore.SimulationState.TriggerReset | store/useSimulationStore.ts:64-73 | all six fields equal the initial state whatever the prior state, so a second reset changes nothing |
| DataStore.Recent | store/useDataStore.ts:18-24 | the window has min(length, 200) entries and is the tail of its input |
| DataStore.RecentOfShortAppend | store/useDataStore.ts:18-24 | for a history within the cap, appending and windowing keeps everything when there is room and drops exactly the oldest entry when the history held 200, which is what the append-then-shift code does |
| DataStore.RecentAppend | store/useDataStore.ts:15-26 | trimming to the window after every append keeps the same samples as trimming once at the end |
| DataStore.ReplayIsRecentWindow | store/useDataStore.ts:5-27 | after any sequence of add and clear calls from the empty start, the history is the latest 200 samples added since the last clear, in order, and never longer than 200 |
| DataStore.DataState.constructor | store/useDataStore.ts:14 | the history starts empty |
| DataStore.DataState.AddEnergyDataPoint | store/useDataStore.ts:15-26 | the last entry is the sample with the supplied time; below 200 entries the sample is appended and the length grows by one; at 200 the oldest entry is dropped and the length stays 200; the length never exceeds 200 |
| DataStore.DataState.ClearHistory | store/useDataStore.ts:27 | the history is empty, from any state |
| Scene.ImpulseFor | components/PhysicsScene.tsx:43-46 | the impulse is zero exactly when the drag ends where it started |
| Scene.ImpulseRecoversDrag | components/PhysicsScene.tsx:43-46 | dividing the impulse by FORCE_MULTIPLIER (5, line 10) and adding the start point gives the drag's end point, so the impulse is exactly five times the drag vector |
| Scene.RefReady | components/PhysicsScene.tsx:82-85 | a present handle is stored under the id and overwrites any old entry; an absent one removes the id; all other entries are untouched |
| Scene.UnmountUndoesMount | components/PhysicsScene.tsx:82-85 | registering and then deregistering an id is the same as only deregistering it, and restores the registry if the id was absent |
| Scene.RemountOverwrites | components/PhysicsScene.tsx:82-85 | of two registrations of one id, the later handle wins |
| Scene.RemountAfterUnmount | components/PhysicsScene.tsx:82-85 | a cleanup followed by a mount with a handle leaves the registry exactly as the mount alone would |
| Scene.PhysicsScene.constructor | components/PhysicsScene.tsx:14-15 | the registry starts empty and there is no force arrow |
| Scene.PhysicsScene.OnRefReady | components/PhysicsScene.tsx:82-85 | the registry becomes `RefReady` of the old one; the arrow and the impulse log are unchanged |
| Scene.PhysicsScene.HandleSceneClick | components/PhysicsScene.tsx:17-26 | in `add` mode one object with mass 1 is appended at (x, 0.5, z) of the click, ignoring the click's height, and the mode becomes `select`; in `select` or `force` mode the selection is cleared and the mode becomes `select`; nothing else changes |
| Scene.PhysicsScene.HandlePointerMove | components/PhysicsScene.tsx:28-36 | with a gesture, the arrow runs from the gesture's start point to the pointer; without one, nothing changes |
| Scene.PhysicsScene.HandlePointerUp | components/PhysicsScene.tsx:38-52 | if the gesture or the arrow is missing, nothing changes and no impulse is applied; otherwise the impulse from the gesture's start point to the arrow's end is applied iff the object's handle is registered, and the gesture and arrow are cleared either way |
| FallingSphere.PointParticle.constructor | components/FallingSphere.tsx:13-15 | the body keeps its object data, the store and the scene that receives its callbacks; the scene must share the body's store, since there is one global store |
| FallingSphere.PointParticle.Mount | components/FallingSphere.tsx:20-23 | with a handle, the registry maps the body's id to it; without one, the registry is unchanged |
| FallingSphere.PointParticle.Unmount | components/FallingSphere.tsx:24-26 | the body's id is removed from the registry and every other entry is untouched |
| FallingSphere.PointParticle.HandleClick | components/FallingSphere.tsx:18-33 | the body becomes the selection and the mode becomes `select`, and nothing else changes; afterwards a body on the same store is drawn highlighted iff its id equals the clicked body's id, so duplicates of that id light up too and no other body does |
| FallingSphere.NothingHighlightedWithoutSelection | components/FallingSphere.tsx:18 | with no selection, which `setInteractionMode('add')`, `clearScene` and `triggerReset` leave behind, no body on that store is drawn highlighted |
| FallingSphere.PointParticle.HandlePointerDown | components/FallingSphere.tsx:35-46 | in `force` mode a gesture starts on this body's id at the pointer's point; in `select` and `add` mode nothing changes |

## Left out

- The double-pendulum component (components/DoublePendulum.tsx) is not part of this model. It holds floating-point energy formulas, rod geometry, engine joints and a 100 ms sampling timer. Only the store that its samples feed is modelled.
- The energy chart (components/EnergyChart.tsx), the control panel (components/Controls.tsx) and App.tsx are not part of this model. They are UI markup and slider clamps. The control panel reads a simulation mode, pendulum masses and a trail flag that the store does not define. No preset, mass or trail-buffer logic exists in the store, so none is modelled.
- Object ids and sample times come from `Date.now()`. Here they are caller-supplied parameters. Clock monotonicity and id uniqueness are not modelled.
- The physics engine is not modelled. This covers impulse physics, body stepping, and gravity and pause forwarded to the engine. A handle is an opaque value, and an applied impulse is an entry in a ghost log.
- Pointer capture and release, `stopPropagation`, and ray hits on several meshes are not modelled.
- The handlers read the store when they run. In the program they read the values captured at the last render, so a handler that runs between a store change and the next render would see older values. That timing is not modelled.
- The mount effect re-runs whenever the scene hands the body a new callback. Each re-run is an unmount followed by a mount. Those re-runs are not scheduled by the model. Their effect on the registry is covered by `Scene.RemountAfterUnmount` (a re-run with a handle leaves the registry as one mount would), `Scene.UnmountUndoesMount` and `Scene.RemountOverwrites`.
- Coordinates and masses are exact reals. IEEE rounding is not modelled.
