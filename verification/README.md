# AR ghast game: a Dafny model of the per-frame game logic

This project models the core of a browser augmented-reality mini-game built on three.js and
WebXR. Hostile "ghasts" would spawn around the viewer on each tap and pursue the camera, but
as written the tap handler is never registered (see ## Findings). Every few seconds each ghast
shoots a fireball at the camera. A shared 3-second gaze countdown drains while the nearest
object under the viewer's gaze is hit; when it runs out it resets, and the first ghast that is
that object or its direct parent is removed (a hit deeper in a ghast's mesh tree removes
nothing). A second, small core is the WebXR hit-test dispatcher. It requests a hit-test source
once and then, on each call, fires at most one of two callbacks: the "ready" one when a source,
a reference space and a first hit with a pose exist, the "empty" one when a source gives no
hits, and neither otherwise. The scene never calls the dispatcher.

The model is functional. An immutable `Scene.Game` record holds the state that `createScene`
keeps in closure variables:
- the previous timestamp;
- the pursuer pool, an ordered sequence;
- the set of objects in the scene;
- the gaze countdown;
- the fireball accumulator;
- the projectile list;
- whether the ghast and fireball models have loaded.

One call of `renderLoop` is `Scene.Frame`. It is the composition of pure stage functions that
run in the source's order: frame time, pursuit (`PursueStage`), gaze (`GazeStage`), firing
(`FireStage`), and projectile flight and expiry (`ProjectileStage`). Removal of a pursuer or
of a projectile is sequence filtering. The invariant `Scene.Valid` states that the scene holds
exactly the static objects (two lights and the camera), the pursuers and the projectile meshes,
with no object in two roles. Every operation preserves it. The source's removal loop walks the
projectile list backwards with `splice`. `Fireballs.AdvanceProjectiles` models that loop as it
is written, and its proof shows it computes the functional filter `Fireballs.Survivors`.

Modelling choices:
- Arithmetic is on exact `real`s.
- A pursuer is its object id and its scalar distance to the camera along its line of approach.
  Moving `step` along the normalised direction lowers that distance by exactly `step`, so no
  square roots are needed.
- A projectile carries its distance to the camera, its speed and its time to live. The speed
  is 1.5, except for a shooter that has already reached the camera: its direction to the camera
  is the zero vector, which `normalize()` leaves at zero, so its projectile has speed 0. The
  distance to the camera after each frame's move is a frame input (`postDist`, keyed by the
  projectile's mesh). That input covers the camera moving while the fireball flies.
- The gaze raycast is a frame input: `Option<Hit>`, the nearest object hit and its direct parent.
- `Math.random()` is an input `rand` in [0, 1) to `Scene.OnSelect`.
- Fresh objects made by `clone()` get ids from a counter in the state (`nextId`).
- Asset loading is reduced to two events that set the "loaded" flags. A failed load never
  sends its event.
- The module-level variables of `hitTest.ts` become an explicit `HitTest.HitTestState`. The
  asynchronous promise chain that produces the source is a separate `Resolve` event. It can
  only happen after the request.

Three points of the code's behaviour are easy to miss:
- A new projectile's time to live after the frame that fires it is 5 − dt. The code advances
  every projectile in the same frame, new ones included (`Scene.FirstVolleyAfterFourSeconds`).
- A frame without a ray hit leaves the gaze countdown unchanged and only hides the bar
  (`Gaze.GazeStep`).
- Gaze removal takes the first pool entry that is the object hit or its direct parent
  (`Gaze.FindTarget`).

## Model

| member | source | states |
|---|---|---|
| `Pursuit.Approach` | src/scene.ts:79-90 | inside the 0.01 arrival radius a pursuer stays put; otherwise it moves 0.1·dt closer, clamped at the camera (`max(dist − step, 0)`); for dt ≥ 0 the distance never grows and never goes below zero, and it strictly shrinks outside the radius when dt > 0 |
| `Pursuit.AdvancePool` | src/scene.ts:79-92 | every pursuer takes one approach step; the pool keeps its length, its members, their order and their distinctness |
| `Pursuit.PursuitConverges` | src/scene.ts:82-89 | after n equal frames a pursuer is never past the camera and is at most max(dist − n·0.1·dt, 0.01) away |
| `Pursuit.PursuitFromTenUnits` | src/scene.ts:48-48 | an entity 10 units away, after 2000 frames of 0.05 s, ends within 0.01 of the camera and never overshoots |
| `Gaze.FindTarget` | src/scene.ts:104-104 | returns the first pool index whose entry is the object hit or its parent, or None exactly when no entry is |
| `Gaze.BarWidth` | src/scene.ts:120-120 | a countdown in (0, 3] gives a bar width in (0, 100] percent, and a full countdown a full bar |
| `Gaze.GazeStep` | src/scene.ts:96-127 | no hit: countdown and pool unchanged, bar hidden; a hit with countdown > 0 drains it by dt; on reaching ≤ 0 it resets to exactly 3 and removes the first targeted entry if there is one (pool unchanged otherwise); with dt ≥ 0 the countdown stays in (0, 3]; the bar shows the new countdown |
| `Gaze.RemoveAtIds` | src/scene.ts:105-108 | in a pool with distinct ids, removing an entry removes exactly its id and keeps ids distinct |
| `Gaze.GazeRemovalIdempotent` | src/scene.ts:104-108 | when at most one entry is targeted, after a removal no entry is targeted any more and a second depletion leaves the pool unchanged |
| `Gaze.GazeTimerSharedAcrossTargets` | src/scene.ts:97-103 | the countdown moves the same whichever pursuer is hit: switching targets does not restart it |
| `Fireballs.Fire` | src/scene.ts:129-141 | the accumulator grows by dt; a volley fires if and only if it is ≥ 4, there is a shooter and the fireball model is loaded; firing resets it to 0 and spawns exactly one projectile per shooter, at that shooter's distance, with time to live 5, a fresh mesh id, and speed `LaunchSpeed`: 1.5, or 0 for a shooter at distance 0, which src/scene.ts:88 puts exactly on the camera and whose normalised zero direction (src/scene.ts:136-137) stays zero; otherwise it keeps the grown value and nothing is spawned |
| `Fireballs.FiringKeepsAccumulatorBelowInterval` | src/scene.ts:129-131 | with shooters and the model loaded, the accumulator ends every frame below 4, and a frame spawns nothing or one projectile per shooter |
| `Fireballs.Survivors` | src/scene.ts:143-151 | every kept projectile is a `Moved` projectile of the list (its post-move distance, ttl − dt, src/scene.ts:145-146) and has not expired; every projectile that has not expired after moving is kept |
| `Fireballs.SurvivorsAppend` | src/scene.ts:143-151 | filtering distributes over concatenation, so survivors keep their relative order |
| `Fireballs.SurvivorsPartition` | src/scene.ts:147-150 | with distinct meshes, the meshes split exactly into surviving and expelled ones; survivors stay distinct |
| `Fireballs.AdvanceProjectiles` | src/scene.ts:143-151 | the backwards splice loop computes exactly the survivors and the set of meshes removed from the scene |
| `Scene.Init` | src/scene.ts:21-55 | the initial state satisfies the scene invariant; there is no previous timestamp, so the first frame has dt 0; the countdown is 3 and the accumulator 0; neither model is loaded; the scene holds exactly the two lights and the camera; there are no pursuers or projectiles |
| `Scene.DeltaTime` | src/scene.ts:75-75 | the first frame has dt = 0; later frames have dt·1000 = ts − lastTs, which is ≥ 0 when time does not run backwards |
| `Scene.ElapsedTelescopes` | src/scene.ts:74-76 | over consecutive frames the dts add up to the wall-clock span in seconds |
| `Scene.PursueStage` | src/scene.ts:78-92 | only the pool changes; pool ids and length are unchanged, no distance grows for dt ≥ 0, and the scene invariant is kept |
| `Scene.GazeStage` | src/scene.ts:94-110 | only pool, scene and countdown change; at most one pursuer leaves, and it leaves pool and scene together; no hit changes nothing |
| `Scene.RemovePursuerValid` | src/scene.ts:105-108 | removing a pursuer from both the pool and the scene keeps the scene invariant |
| `Scene.FireStage` | src/scene.ts:129-141 | the old projectiles stay as a prefix; the list grows if and only if a volley fires, and then the accumulator is 0 and the volley is appended and added to the scene as fresh objects; otherwise only the accumulator changes |
| `Scene.AddVolleyValid` | src/scene.ts:132-140 | adding a volley to both the list and the scene keeps the scene invariant |
| `Scene.ProjectileStage` | src/scene.ts:143-151 | exactly the non-expired moved projectiles remain, and the expired ones leave the list and the scene together |
| `Scene.Frame` | src/scene.ts:74-155 | the timestamp is always recorded; when not presenting nothing else changes and nothing is rendered; when presenting the frame renders once and shows or hides the bar as the ray hit or missed; pursuers only leave; a miss keeps the countdown and pool ids; the countdown stays in (0, 3]; the scene invariant holds |
| `Scene.GazedPursuerDoesNotFire` | src/scene.ts:94-141 | gaze runs before firing, so a frame spawns either nothing or one fresh projectile per pursuer still in the pool at its end; a lone pursuer removed by gaze fires nothing in that frame |
| `Scene.FrameBarInRange` | src/scene.ts:120-120 | with the countdown in range and time not running backwards, a shown bar has a width in (0, 100] |
| `Scene.FrameProjectiles` | src/scene.ts:129-151 | after a frame the list is the survivors of the old projectiles followed by the survivors of the new volley |
| `Scene.OnSelect` | src/scene.ts:170-185 | without the ghast model nothing changes; otherwise exactly one fresh pursuer is appended to the pool and the scene at a distance in [3, 4.5), nothing but the pool, the scene and the id counter changes, and the invariant is kept |
| `Scene.Apply` | src/scene.ts:56-66 | any event (frame, select, model loaded) keeps the scene invariant |
| `Scene.RunPreservesValid` | src/scene.ts:74-185 | every run of events keeps the scene in step with the pool and the projectile list |
| `Scene.GazeTimerStaysInRange` | src/scene.ts:97-103 | while timestamps do not run backwards, the countdown stays in (0, 3] over any run |
| `Scene.ApplyAsWritten` | src/scene.ts:66-66 | as wired in the source, a select event changes nothing |
| `Scene.NoPursuersAsWritten` | src/scene.ts:66-66 | as written, a game with no pursuers never gets any, and never gets a projectile |
| `Scene.SelectIgnoredAsWritten` | src/scene.ts:66-66 | after the ghast model loads and the user selects, the pool is empty as written and holds one pursuer with `onSelect` registered |
| `Scene.SelectSpawnsOnceLoaded` | src/scene.ts:170-185 | with `onSelect` registered, a select after the ghast model loads adds exactly one fresh pursuer |
| `Scene.GazeRemovesAfterThreeSeconds` | src/scene.ts:97-108 | gazing at a sub-mesh of a pursuer for three 1 s frames drains the countdown to 2, then 1, then removes the pursuer from pool and scene, resets to 3 and shows a full bar |
| `Scene.FirstVolleyAfterFourSeconds` | src/scene.ts:129-151 | one shooter, four 1 s frames: no projectile after three frames; after the fourth the shooter stands at 4.6 and exactly one projectile flies, launched at speed 1.5; its post-move distance is the supplied `postDist`, 3.1, where a still camera would put it; its time to live is 5 − 1, the accumulator is 0 and its mesh is in the scene |
| `HitTest.HandleXRHitTest` | src/utils/hitTest.ts:12-44 | the request is issued if and only if there is a session and it was not issued before, and the flag then stays set; no source: no callback; an empty result list: the empty callback only; a non-empty list fires ready if and only if there is a reference space and the first hit has a pose, with that pose's matrix |
| `HitTest.Replay` | src/utils/hitTest.ts:3-25 | over any run, once requested the flag stays set and a source never exists without a request: a `Resolved` event sets the source through `Resolve`, only after the request and only once, so a source once set never changes |
| `HitTest.RequestedAtMostOnce` | src/utils/hitTest.ts:17-25 | over any run the source is requested at most once, and never again once requested |
| `HitTest.NoSessionDefersRequest` | src/utils/hitTest.ts:17-17 | calls without a session leave the flag false, so the first later call with a session issues the request |
| `HitTest.NoSessionCallsChangeNothing` | src/utils/hitTest.ts:17-25 | a call without a session never changes the dispatcher's state |

## Left out

- Camera motion between frames for pursuers: a pursuer's distance is measured along its line of approach to a camera that does not move between frames. Projectiles take their post-move distance as an input, so they do not depend on this.
- Spawn height: a ghast spawns at the camera's height (src/scene.ts:178), so its horizontal distance from the camera is its distance, which is what the model keeps.
- Orientation: `lookAt` on pursuers (src/scene.ts:91, 181) and the spawn angle from `Math.random`, `cos` and `sin` (src/scene.ts:174-177). They are trigonometry and a foreign library, and they do not affect distances.
- `getScreenPos` and the DOM writes for the progress bar (src/scene.ts:112-121, 157-168). They are floating-point screen projection and DOM I/O. The model keeps only the bar's visibility and its width percentage. It assumes the overlay elements exist.
- Projectile flight (`position += velocity·dt`, src/scene.ts:145) is not modelled: the post-move distance is the `postDist` input. The launch speed is recorded but nothing reads it.
- Three.js `Raycaster` intersection and vector normalisation or length. They are foreign code. Their results are frame inputs.
- Double-precision floating point: all arithmetic is exact `real`.
- The `fireballModel` re-check inside the volley loop (src/scene.ts:133) is not modelled separately. The loop only runs once the same check has passed, so it cannot fire.
- Asset loading (src/scene.ts:56-64) is reduced to "loaded" events. Scaling the loaded models is visual only.
- Renderer, camera and light construction (src/scene.ts:21-33) and the marker (src/scene.ts:68-70). They are platform plumbing. The marker hangs off the camera, not the scene, so it is not in the scene set. src/scene.ts:1 imports `createMarker`, which src/objects/marker/index.ts does not export (it exports `createPlaneMarker`). The marker module is not part of this model.
- The `hit && hit !== null` guard (src/utils/hitTest.ts:33). Entries of a WebXR result list are never null, so each result is modelled as present.
- `frame.getHitTestResults` and `hit.getPose` are foreign WebXR calls. Their results are the `poses` input.
- src/utils/domUtils.ts, src/index.ts and webpack.config.js: DOM messages, capability probe, renderer setup and build configuration.
- Console output: the load-failure warnings (src/scene.ts:59, 64) and the log line on a gaze removal (src/scene.ts:102). They are I/O with no effect on the state.
- `handleXRHitTest` is imported at src/scene.ts:3 but never called in src/scene.ts. The dispatcher is modelled on its own; nothing in the scene model feeds it.
- src/scene.ts:68 calls `createMarker()`, which the broken import at src/scene.ts:1 leaves undefined, so `createScene` as written would throw there, before `scene.add(camera)` (src/scene.ts:71) and `renderer.setAnimationLoop` (src/scene.ts:187). `Scene.Init` and the frame model describe the state as if `createScene` ran to completion.
- `Pursuit.Approach`: for a negative dt, which only backwards timestamps can produce, the contract gives the exact value but no bound.

## Findings

| source | as written | input that shows it | evidently intended | confidence | as-written member | corrected member |
|---|---|---|---|---|---|---|
| src/scene.ts:66 | `onSelect` is named as a bare expression statement and is never registered as the handler of the XR controller's select event, so nothing can spawn a ghast and the pursuit, gaze and fireball logic never has anything to act on | the ghast model loads, then the user taps (selects): the pool stays empty (`Scene.SelectIgnoredAsWritten`, `Scene.NoPursuersAsWritten`) | `onSelect` registered as the select handler, so each tap spawns one ghast once the model is loaded | high (not executed) | `Scene.ApplyAsWritten` | `Scene.Apply` |
