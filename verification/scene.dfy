/**
  The per-frame game loop of `createScene`: the explicit game state, the stages one
  rendered frame runs in fixed order, the spawn operation bound to the controller's
  select event, and runs of frames and events.
*/
module Scene {
  import opened Common
  import opened Pursuit
  import opened Gaze
  import opened Fireballs

  /** Objects added to the scene once, when it is created: two lights and the camera. */
  const AmbientLight: ObjId := 0
  const DirectionalLight: ObjId := 1
  const Camera: ObjId := 2
  const StaticObjects: set<ObjId> := {AmbientLight, DirectionalLight, Camera}

  /**
    The state `createScene` keeps between frames. `nextId` stands for the allocation of
    fresh objects by `clone()`; the two flags record whether the ghast and fireball
    models have finished loading.
  */
  datatype Game = Game(
    lastTs: Option<real>,
    pool: seq<Pursuer>,
    scene: set<ObjId>,
    gazeTimer: real,
    fireballAcc: real,
    projectiles: seq<Projectile>,
    ghastLoaded: bool,
    fireballLoaded: bool,
    nextId: nat)

  /** The state right after `createScene`: no frame seen, nothing spawned, no model loaded. */
  function Init(): (g: Game)
    ensures Valid(g)
    ensures g.lastTs.None? && DeltaTime(g.lastTs, 0.0) == 0.0
    ensures g.gazeTimer == GazeDuration && g.fireballAcc == 0.0
    ensures g.pool == [] && g.projectiles == [] && g.scene == StaticObjects
    ensures !g.ghastLoaded && !g.fireballLoaded
  {
    Game(None, [], StaticObjects, GazeDuration, 0.0, [], false, false, Camera + 1)
  }

  /**
    The scene holds exactly the static objects, the pursuers and the projectiles; no
    object is in two of these roles or twice in one; every object id was allocated.
  */
  predicate Valid(g: Game)
  {
    && DistinctIds(g.pool)
    && DistinctMeshes(g.projectiles)
    && Ids(g.pool) !! Meshes(g.projectiles)
    && StaticObjects !! Ids(g.pool) + Meshes(g.projectiles)
    && g.scene == StaticObjects + Ids(g.pool) + Meshes(g.projectiles)
    && forall x :: x in g.scene ==> x < g.nextId
  }

  /** Seconds elapsed since the previous frame; the first frame counts as zero. */
  function DeltaTime(lastTs: Option<real>, ts: real): (dt: real)
    ensures lastTs.None? ==> dt == 0.0
    ensures lastTs.Some? ==> dt * 1000.0 == ts - lastTs.value
    ensures lastTs.Some? && lastTs.value <= ts ==> dt >= 0.0
  {
    match lastTs
    case None => 0.0
    case Some(last) => (ts - last) / 1000.0
  }

  /** Sum of the frame times of consecutive frames at timestamps `tss`. */
  function Elapsed(lastTs: Option<real>, tss: seq<real>): real
    decreases |tss|
  {
    if |tss| == 0 then 0.0 else DeltaTime(lastTs, tss[0]) + Elapsed(Some(tss[0]), tss[1..])
  }

  /**
    Frame times add up to the wall-clock span, in seconds, from the previous frame (or
    from the first frame, when there was none) to the last one.
  */
  lemma {:induction false} ElapsedTelescopes(lastTs: Option<real>, tss: seq<real>)
    requires |tss| > 0
    ensures Elapsed(lastTs, tss) * 1000.0
            == tss[|tss| - 1] - (if lastTs.Some? then lastTs.value else tss[0])
    decreases |tss|
  {
    if |tss| > 1 {
      ElapsedTelescopes(Some(tss[0]), tss[1..]);
      assert tss[1..][|tss[1..]| - 1] == tss[|tss| - 1];
    }
  }

  /** Stage 2: every pursuer moves toward the camera; nothing else changes. */
  function PursueStage(g: Game, dt: real): (r: Game)
    ensures r.(pool := g.pool) == g
    ensures Ids(r.pool) == Ids(g.pool) && |r.pool| == |g.pool|
    ensures dt >= 0.0 ==> forall i :: 0 <= i < |r.pool| && g.pool[i].dist >= 0.0 ==> 0.0 <= r.pool[i].dist <= g.pool[i].dist
    ensures Valid(g) ==> Valid(r)
  {
    g.(pool := AdvancePool(g.pool, dt))
  }

  /**
    Stage 3: gaze targeting. A pursuer the countdown removes leaves the pool and the
    scene together; nothing but the pool, the scene and the countdown changes.
  */
  function GazeStage(g: Game, dt: real, ray: Option<Hit>): (r: (Game, Bar))
    ensures r.0.(pool := g.pool, scene := g.scene, gazeTimer := g.gazeTimer) == g
    ensures ray.None? ==> r.0 == g && r.1 == BarHidden
    ensures Valid(g) ==> Valid(r.0)
    ensures Valid(g) ==> Ids(r.0.pool) <= Ids(g.pool) && |Ids(g.pool) - Ids(r.0.pool)| <= 1
    ensures 0.0 < g.gazeTimer <= GazeDuration && dt >= 0.0 ==> 0.0 < r.0.gazeTimer <= GazeDuration
  {
    var o := GazeStep(g.gazeTimer, dt, ray, g.pool);
    var scene := match o.removed case Some(id) => g.scene - {id} case None => g.scene;
    var r := g.(pool := o.pool, scene := scene, gazeTimer := o.timer);
    GazeStageValid(g, dt, ray);
    (r, o.bar)
  }

  lemma GazeStageValid(g: Game, dt: real, ray: Option<Hit>)
    ensures
      var o := GazeStep(g.gazeTimer, dt, ray, g.pool);
      var scene := match o.removed case Some(id) => g.scene - {id} case None => g.scene;
      Valid(g) ==>
        && Valid(g.(pool := o.pool, scene := scene, gazeTimer := o.timer))
        && Ids(o.pool) <= Ids(g.pool) && |Ids(g.pool) - Ids(o.pool)| <= 1
  {
    var o := GazeStep(g.gazeTimer, dt, ray, g.pool);
    if Valid(g) && o.removed.Some? {
      var i :| 0 <= i < |g.pool| && g.pool[i].obj == o.removed.value && Targets(g.pool[i], ray.value)
               && o.pool == g.pool[..i] + g.pool[i + 1..];
      assert o.pool == RemoveAt(g.pool, i);
      RemovePursuerValid(g, i);
    }
  }

  /** Taking one pursuer out of both the pool and the scene keeps them in step. */
  lemma RemovePursuerValid(g: Game, i: nat)
    requires Valid(g) && i < |g.pool|
    ensures Valid(g.(pool := RemoveAt(g.pool, i), scene := g.scene - {g.pool[i].obj}))
    ensures Ids(RemoveAt(g.pool, i)) == Ids(g.pool) - {g.pool[i].obj}
  {
  }

  lemma MeshesAppend(a: seq<Projectile>, b: seq<Projectile>)
    ensures Meshes(a + b) == Meshes(a) + Meshes(b)
    ensures DistinctMeshes(a) && DistinctMeshes(b) && Meshes(a) !! Meshes(b) ==> DistinctMeshes(a + b)
  {
    assert forall p :: p in a + b <==> p in a || p in b;
    if DistinctMeshes(a) && DistinctMeshes(b) && Meshes(a) !! Meshes(b) {
      forall i, j | 0 <= i < j < |a + b| ensures (a + b)[i].mesh != (a + b)[j].mesh {
        if j < |a| {
          assert (a + b)[i] == a[i] && (a + b)[j] == a[j];
        } else if i >= |a| {
          assert (a + b)[i] == b[i - |a|] && (a + b)[j] == b[j - |a|];
        } else {
          assert (a + b)[i] == a[i] && (a + b)[j] == b[j - |a|];
          assert a[i].mesh in Meshes(a) && b[j - |a|].mesh in Meshes(b);
        }
      }
    }
  }

  /**
    Stage 4: the fireball accumulator; on a volley every new projectile is added to the
    list and to the scene, as a fresh object.
  */
  function FireStage(g: Game, dt: real): (r: Game)
    ensures r.(fireballAcc := g.fireballAcc, projectiles := g.projectiles, scene := g.scene, nextId := g.nextId) == g
    ensures |r.projectiles| >= |g.projectiles| && r.projectiles[..|g.projectiles|] == g.projectiles
    ensures |r.projectiles| > |g.projectiles| <==> g.fireballAcc + dt >= FireballInterval && |g.pool| > 0 && g.fireballLoaded
    ensures |r.projectiles| > |g.projectiles| ==>
              r.fireballAcc == 0.0 && r.projectiles[|g.projectiles|..] == Volley(g.pool, g.nextId)
    ensures |r.projectiles| == |g.projectiles| ==> r.fireballAcc == g.fireballAcc + dt && r == g.(fireballAcc := r.fireballAcc)
    ensures r.nextId == g.nextId + (|r.projectiles| - |g.projectiles|)
    ensures |r.projectiles| == |g.projectiles| || |r.projectiles| == |g.projectiles| + |g.pool|
    ensures Valid(g) ==> Valid(r)
  {
    var f := Fire(g.fireballAcc, dt, g.pool, g.fireballLoaded, g.nextId);
    FireStageFacts(g, f.volley);
    g.(fireballAcc := f.acc, projectiles := g.projectiles + f.volley,
       scene := g.scene + Meshes(f.volley), nextId := g.nextId + |f.volley|)
  }

  lemma FireStageFacts(g: Game, volley: seq<Projectile>)
    requires volley == [] || volley == Volley(g.pool, g.nextId)
    ensures (g.projectiles + volley)[..|g.projectiles|] == g.projectiles
    ensures (g.projectiles + volley)[|g.projectiles|..] == volley
    ensures volley == [] ==> g.projectiles + volley == g.projectiles && g.scene + Meshes(volley) == g.scene
    ensures Valid(g) ==>
              Valid(g.(projectiles := g.projectiles + volley, scene := g.scene + Meshes(volley), nextId := g.nextId + |volley|))
  {
    if volley == [] {
      assert Meshes(volley) == {};
      assert g.projectiles + volley == g.projectiles;
    } else if Valid(g) {
      AddVolleyValid(g);
    }
  }

  /** Adding a volley of fresh projectiles to both the list and the scene keeps them in step. */
  lemma AddVolleyValid(g: Game)
    requires Valid(g)
    ensures
      var v := Volley(g.pool, g.nextId);
      Valid(g.(projectiles := g.projectiles + v, scene := g.scene + Meshes(v), nextId := g.nextId + |v|))
  {
    var v := Volley(g.pool, g.nextId);
    assert Meshes(v) == IdRange(g.nextId, |g.pool|);
    assert forall x :: x in Meshes(v) ==> x >= g.nextId;
    assert Meshes(v) !! g.scene;
    MeshesAppend(g.projectiles, v);
    var ps := g.projectiles + v;
    assert DistinctMeshes(ps);
    assert Meshes(ps) == Meshes(g.projectiles) + Meshes(v);
    assert g.scene + Meshes(v) == StaticObjects + Ids(g.pool) + Meshes(ps);
  }

  /**
    Stage 5: every projectile moves and loses `dt` of its time to live; exactly the
    expired ones leave the list and the scene, and the rest keep their order.
  */
  function ProjectileStage(g: Game, dt: real, postDist: ObjId -> real): (r: Game)
    ensures r.(projectiles := g.projectiles, scene := g.scene) == g
    ensures forall q :: q in r.projectiles ==> !Expired(q)
    ensures forall q :: q in r.projectiles ==> exists p :: p in g.projectiles && q == Moved(p, dt, postDist)
    ensures forall p :: p in g.projectiles && !Expired(Moved(p, dt, postDist)) ==> Moved(p, dt, postDist) in r.projectiles
    ensures Valid(g) ==> Valid(r)
    ensures Valid(g) ==> r.scene == g.scene - Expelled(g.projectiles, dt, postDist)
  {
    var kept := Survivors(g.projectiles, dt, postDist);
    ProjectileStageFacts(g, dt, postDist);
    g.(projectiles := kept, scene := g.scene - Expelled(g.projectiles, dt, postDist))
  }

  lemma ProjectileStageFacts(g: Game, dt: real, postDist: ObjId -> real)
    ensures Valid(g) ==>
              && Valid(g.(projectiles := Survivors(g.projectiles, dt, postDist),
                          scene := g.scene - Expelled(g.projectiles, dt, postDist)))
  {
    if Valid(g) {
      SurvivorsPartition(g.projectiles, dt, postDist);
    }
  }

  /** What a frame shows: whether the scene was rendered, and what it did to the gaze bar (None: untouched). */
  datatype FrameOutput = FrameOutput(rendered: bool, bar: Option<Bar>)

  /**
    One call of `renderLoop`. The timestamp is always recorded; when the session is not
    presenting nothing else happens. Otherwise the stages run in order (pursuit, gaze,
    firing, projectiles) and the scene is rendered once.
  */
  function Frame(g: Game, ts: real, presenting: bool, ray: Option<Hit>, postDist: ObjId -> real): (r: (Game, FrameOutput))
    ensures r.0.lastTs == Some(ts)
    ensures r.1.rendered == presenting
    ensures !presenting ==> r.0 == g.(lastTs := Some(ts)) && r.1.bar.None?
    ensures presenting ==> r.1.bar.Some? && (r.1.bar.value.BarHidden? <==> ray.None?)
    ensures r.0.ghastLoaded == g.ghastLoaded && r.0.fireballLoaded == g.fireballLoaded
    ensures Valid(g) ==> Valid(r.0)
    ensures Valid(g) ==> Ids(r.0.pool) <= Ids(g.pool)
    ensures ray.None? ==> Ids(r.0.pool) == Ids(g.pool) && r.0.gazeTimer == g.gazeTimer
    ensures 0.0 < g.gazeTimer <= GazeDuration && DeltaTime(g.lastTs, ts) >= 0.0 ==>
              0.0 < r.0.gazeTimer <= GazeDuration
  {
    var dt := DeltaTime(g.lastTs, ts);
    var g0 := g.(lastTs := Some(ts));
    if !presenting then
      (g0, FrameOutput(false, None))
    else
      var g1 := PursueStage(g0, dt);
      var (g2, bar) := GazeStage(g1, dt, ray);
      var g3 := FireStage(g2, dt);
      var g4 := ProjectileStage(g3, dt, postDist);
      assert bar.BarShown? ==> 0.0 < g2.gazeTimer <= GazeDuration ==> 0.0 < bar.widthPercent <= 100.0;
      (g4, FrameOutput(true, Some(bar)))
  }

  /**
    A presenting frame is the composition of its stages, in the order the source runs them.
    This only unfolds `Frame` once, as a first step for the scenario lemmas below.
  */
  lemma FrameStages(g: Game, ts: real, ray: Option<Hit>, postDist: ObjId -> real)
    ensures
      var dt := DeltaTime(g.lastTs, ts);
      Frame(g, ts, true, ray, postDist).0
        == ProjectileStage(FireStage(GazeStage(PursueStage(g.(lastTs := Some(ts)), dt), dt, ray).0, dt), dt, postDist)
  {
  }

  /**
    Gaze runs before firing: the volley of a frame comes from the pursuers still in the
    pool after gaze, so a frame spawns either nothing or one fresh projectile per
    pursuer left at its end, and a pursuer removed by gaze fires nothing in that frame.
    (`nextId` counts the objects created.)
  */
  lemma GazedPursuerDoesNotFire(g: Game, ts: real, ray: Option<Hit>, postDist: ObjId -> real)
    ensures
      var r := Frame(g, ts, true, ray, postDist).0;
      r.nextId == g.nextId || r.nextId == g.nextId + |r.pool|
    ensures
      var r := Frame(g, ts, true, ray, postDist).0;
      |g.pool| == 1 && r.pool == [] ==> r.nextId == g.nextId
  {
  }

  /**
    With the countdown in range and time not running backwards, the gaze bar a frame
    shows is between empty (exclusive) and full.
  */
  lemma FrameBarInRange(g: Game, ts: real, ray: Option<Hit>, postDist: ObjId -> real)
    requires 0.0 < g.gazeTimer <= GazeDuration
    requires g.lastTs.None? || g.lastTs.value <= ts
    ensures Frame(g, ts, true, ray, postDist).1.bar.value.BarShown? ==>
              0.0 < Frame(g, ts, true, ray, postDist).1.bar.value.widthPercent <= 100.0
  {
  }

  /**
    The projectile list after a presenting frame: the survivors of the old projectiles,
    in order, followed by the survivors of this frame's volley, which have also lost `dt`
    of their time to live.
  */
  lemma FrameProjectiles(g: Game, ts: real, ray: Option<Hit>, postDist: ObjId -> real)
    ensures
      var dt := DeltaTime(g.lastTs, ts);
      var g2 := GazeStage(PursueStage(g.(lastTs := Some(ts)), dt), dt, ray).0;
      var f := Fire(g.fireballAcc, dt, g2.pool, g.fireballLoaded, g.nextId);
      Frame(g, ts, true, ray, postDist).0.projectiles
        == Survivors(g.projectiles, dt, postDist) + Survivors(f.volley, dt, postDist)
  {
    var dt := DeltaTime(g.lastTs, ts);
    var g2 := GazeStage(PursueStage(g.(lastTs := Some(ts)), dt), dt, ray).0;
    var f := Fire(g.fireballAcc, dt, g2.pool, g.fireballLoaded, g.nextId);
    SurvivorsAppend(g.projectiles, f.volley, dt, postDist);
  }

  /**
    `onSelect`: without the ghast model nothing happens; otherwise one fresh pursuer is
    appended to the pool and added to the scene, at a distance from the camera drawn from
    [3, 4.5). `rand` is the value `Math.random()` returns for the distance.
  */
  function OnSelect(g: Game, rand: real): (r: Game)
    requires 0.0 <= rand < 1.0
    ensures !g.ghastLoaded ==> r == g
    ensures g.ghastLoaded ==>
              && |r.pool| == |g.pool| + 1
              && r.pool[..|g.pool|] == g.pool
              && r.scene == g.scene + {r.pool[|g.pool|].obj}
              && 3.0 <= r.pool[|g.pool|].dist < 4.5
              && r.(pool := g.pool, scene := g.scene, nextId := g.nextId) == g
    ensures Valid(g) && g.ghastLoaded ==> r.pool[|g.pool|].obj !in g.scene
    ensures Valid(g) ==> Valid(r)
  {
    if !g.ghastLoaded then g
    else
      var spawned := Pursuer(g.nextId, 3.0 + rand * 1.5);
      var r := g.(pool := g.pool + [spawned], scene := g.scene + {g.nextId}, nextId := g.nextId + 1);
      assert r.pool[..|g.pool|] == g.pool;
      assert Ids(r.pool) == Ids(g.pool) + {g.nextId} by {
        assert forall p :: p in r.pool <==> p in g.pool || p == spawned;
      }
      r
  }

  /** The inputs the game reacts to: frames, the controller's select, and models finishing loading. */
  datatype Event =
    | Tick(ts: real, presenting: bool, ray: Option<Hit>, postDist: ObjId -> real)
    | Select(rand: real)
    | GhastModelLoaded
    | FireballModelLoaded

  /** Every select event carries a value `Math.random()` can return. */
  predicate RandomsInRange(evs: seq<Event>)
  {
    forall i :: 0 <= i < |evs| && evs[i].Select? ==> 0.0 <= evs[i].rand < 1.0
  }

  /** One event, with the select event dispatched to `onSelect`. */
  function Apply(g: Game, e: Event): (r: Game)
    requires e.Select? ==> 0.0 <= e.rand < 1.0
    ensures Valid(g) ==> Valid(r)
  {
    match e
    case Tick(ts, presenting, ray, postDist) => Frame(g, ts, presenting, ray, postDist).0
    case Select(rand) => OnSelect(g, rand)
    case GhastModelLoaded => g.(ghastLoaded := true)
    case FireballModelLoaded => g.(fireballLoaded := true)
  }

  /** A run of events, with the select event dispatched to `onSelect`. */
  function Run(g: Game, evs: seq<Event>): Game
    requires RandomsInRange(evs)
    decreases |evs|
  {
    if |evs| == 0 then g else Run(Apply(g, evs[0]), evs[1..])
  }

  /** Every run of events keeps the scene in step with the pool and the projectile list. */
  lemma {:induction false} RunPreservesValid(g: Game, evs: seq<Event>)
    requires Valid(g) && RandomsInRange(evs)
    ensures Valid(Run(g, evs))
    decreases |evs|
  {
    if |evs| > 0 {
      RunPreservesValid(Apply(g, evs[0]), evs[1..]);
    }
  }

  /** The timestamps of the frames never run backwards, starting from `lastTs`. */
  predicate TicksInOrder(lastTs: Option<real>, evs: seq<Event>)
    decreases |evs|
  {
    |evs| == 0 ||
    if evs[0].Tick? then
      (lastTs.None? || lastTs.value <= evs[0].ts) && TicksInOrder(Some(evs[0].ts), evs[1..])
    else
      TicksInOrder(lastTs, evs[1..])
  }

  /** While time does not run backwards the gaze countdown stays in (0, 3] forever. */
  lemma {:induction false} GazeTimerStaysInRange(g: Game, evs: seq<Event>)
    requires 0.0 < g.gazeTimer <= GazeDuration
    requires RandomsInRange(evs) && TicksInOrder(g.lastTs, evs)
    ensures 0.0 < Run(g, evs).gazeTimer <= GazeDuration
    decreases |evs|
  {
    if |evs| > 0 {
      var g' := Apply(g, evs[0]);
      assert g'.lastTs == (if evs[0].Tick? then Some(evs[0].ts) else g.lastTs);
      GazeTimerStaysInRange(g', evs[1..]);
    }
  }

  /**
    The game as the source wires it: `onSelect` is named but never registered as a
    handler, so a select event changes nothing.
  */
  function ApplyAsWritten(g: Game, e: Event): (r: Game)
    ensures e.Select? ==> r == g
    ensures Valid(g) ==> Valid(r)
  {
    match e
    case Tick(ts, presenting, ray, postDist) => Frame(g, ts, presenting, ray, postDist).0
    case Select(_) => g
    case GhastModelLoaded => g.(ghastLoaded := true)
    case FireballModelLoaded => g.(fireballLoaded := true)
  }

  function RunAsWritten(g: Game, evs: seq<Event>): Game
    decreases |evs|
  {
    if |evs| == 0 then g else RunAsWritten(ApplyAsWritten(g, evs[0]), evs[1..])
  }

  /**
    As written, a game that starts without pursuers never gets any, whatever the user
    does, and so never sees a fireball either.
  */
  lemma {:induction false} NoPursuersAsWritten(g: Game, evs: seq<Event>)
    requires g.pool == [] && g.projectiles == []
    ensures RunAsWritten(g, evs).pool == [] && RunAsWritten(g, evs).projectiles == []
    decreases |evs|
  {
    if |evs| > 0 {
      var g' := ApplyAsWritten(g, evs[0]);
      if evs[0].Tick? {
        var e := evs[0];
        var dt := DeltaTime(g.lastTs, e.ts);
        var g1 := PursueStage(g.(lastTs := Some(e.ts)), dt);
        assert g1.pool == [];
        var g2 := GazeStage(g1, dt, e.ray).0;
        assert g2.pool == [] by {
          assert GazeStep(g1.gazeTimer, dt, e.ray, g1.pool).removed.None?;
        }
        assert FireStage(g2, dt).projectiles == [];
      }
      NoPursuersAsWritten(g', evs[1..]);
    }
  }

  /**
    The discrepancy in one run: the ghast model loads and the user selects. As written
    the pool stays empty; with `onSelect` registered a pursuer appears.
  */
  lemma SelectIgnoredAsWritten()
    ensures RunAsWritten(Init(), [GhastModelLoaded, Select(0.5)]).pool == []
    ensures Run(Init(), [GhastModelLoaded, Select(0.5)]).pool == [Pursuer(3, 3.75)]
  {
  }

  /** With `onSelect` registered, a select after the ghast model loaded always spawns a pursuer. */
  lemma SelectSpawnsOnceLoaded(g: Game, rand: real)
    requires Valid(g) && 0.0 <= rand < 1.0
    ensures
      var r := Run(g, [GhastModelLoaded, Select(rand)]);
      |r.pool| == |g.pool| + 1 && Ids(r.pool) == Ids(g.pool) + {g.nextId} && g.nextId !in g.scene
  {
    var evs := [GhastModelLoaded, Select(rand)];
    assert evs[1..] == [Select(rand)];
    assert evs[1..][1..] == [];
    var g1 := g.(ghastLoaded := true);
    assert Apply(g, evs[0]) == g1;
    var r := OnSelect(g1, rand);
    assert Apply(g1, evs[1..][0]) == r;
    assert Run(g, evs) == Run(g1, evs[1..]) == Run(r, evs[1..][1..]) == r;
    assert Ids(r.pool) == Ids(g.pool) + {g.nextId} by {
      assert forall p :: p in r.pool <==> p in g.pool || p == r.pool[|g.pool|];
    }
  }

  /** A scene with one pursuer (object 3) at `dist` from the camera, both models loaded, one second after a frame at time 0. */
  function OnePursuer(dist: real): (g: Game)
    ensures Valid(g)
  {
    var g := Game(Some(0.0), [Pursuer(3, dist)], StaticObjects + {3}, GazeDuration, 0.0, [], true, true, 4);
    assert Ids(g.pool) == {3};
    g
  }

  /**
    Gaze scenario: a sub-mesh of the only pursuer stays under the gaze ray for three
    frames of one second each. The pursuer survives the first two frames and is gone from
    the pool and the scene after the third, when the countdown is back at 3 and the bar full.
  */
  lemma GazeRemovesAfterThreeSeconds(postDist: ObjId -> real)
    ensures
      var ray := Some(Hit(7, Some(3)));
      var f1 := Frame(OnePursuer(10.0), 1000.0, true, ray, postDist);
      var f2 := Frame(f1.0, 2000.0, true, ray, postDist);
      var f3 := Frame(f2.0, 3000.0, true, ray, postDist);
      && f1.0.gazeTimer == 2.0 && Ids(f1.0.pool) == {3}
      && f2.0.gazeTimer == 1.0 && Ids(f2.0.pool) == {3}
      && f3.0.gazeTimer == GazeDuration && f3.0.pool == [] && 3 !in f3.0.scene
      && f3.1.bar == Some(BarShown(100.0))
  {
    var ray := Some(Hit(7, Some(3)));
    var g0 := OnePursuer(10.0);
    GazedSecond(g0, 1000.0, postDist);
    var g1 := Frame(g0, 1000.0, true, ray, postDist).0;
    assert g1 == Game(Some(1000.0), [Pursuer(3, 9.9)], StaticObjects + {3}, 2.0, 1.0, [], true, true, 4);
    assert Ids(g1.pool) == {3};
    GazedSecond(g1, 2000.0, postDist);
    var g2 := Frame(g1, 2000.0, true, ray, postDist).0;
    assert g2 == Game(Some(2000.0), [Pursuer(3, 9.8)], StaticObjects + {3}, 1.0, 2.0, [], true, true, 4);
    assert Ids(g2.pool) == {3};
    GazeDepletingSecond(g2, postDist);
  }

  /** A one-second frame with the gaze on a sub-mesh of the only pursuer, the countdown above one second. */
  lemma GazedSecond(g: Game, ts: real, postDist: ObjId -> real)
    requires g.lastTs == Some(ts - 1000.0)
    requires |g.pool| == 1 && g.pool[0].obj == 3 && g.pool[0].dist > 1.0
    requires g.projectiles == [] && g.fireballAcc + 1.0 < FireballInterval && g.gazeTimer > 1.0
    ensures Frame(g, ts, true, Some(Hit(7, Some(3))), postDist).0
            == g.(lastTs := Some(ts), pool := [Pursuer(3, g.pool[0].dist - 0.1)],
                  gazeTimer := g.gazeTimer - 1.0, fireballAcc := g.fireballAcc + 1.0)
  {
    var ray := Some(Hit(7, Some(3)));
    FrameStages(g, ts, ray, postDist);
    assert DeltaTime(g.lastTs, ts) == 1.0;
    var g1 := PursueStage(g.(lastTs := Some(ts)), 1.0);
    assert g1 == g.(lastTs := Some(ts), pool := [Pursuer(3, g.pool[0].dist - 0.1)]);
    var g2 := GazeStage(g1, 1.0, ray).0;
    assert g2 == g1.(gazeTimer := g.gazeTimer - 1.0);
    var g3 := FireStage(g2, 1.0);
    assert g3 == g2.(fireballAcc := g.fireballAcc + 1.0);
    assert ProjectileStage(g3, 1.0, postDist) == g3;
  }

  /** The third gazed second: the countdown runs out, the pursuer leaves pool and scene, the bar is full. */
  lemma GazeDepletingSecond(g2: Game, postDist: ObjId -> real)
    requires g2 == Game(Some(2000.0), [Pursuer(3, 9.8)], StaticObjects + {3}, 1.0, 2.0, [], true, true, 4)
    ensures Frame(g2, 3000.0, true, Some(Hit(7, Some(3))), postDist).0.gazeTimer == GazeDuration
    ensures Frame(g2, 3000.0, true, Some(Hit(7, Some(3))), postDist).0.pool == []
    ensures 3 !in Frame(g2, 3000.0, true, Some(Hit(7, Some(3))), postDist).0.scene
    ensures Frame(g2, 3000.0, true, Some(Hit(7, Some(3))), postDist).1.bar == Some(BarShown(100.0))
  {
    var ray := Some(Hit(7, Some(3)));
    FrameStages(g2, 3000.0, ray, postDist);
    assert DeltaTime(g2.lastTs, 3000.0) == 1.0;
    var p3 := AdvancePool(g2.pool, 1.0);
    assert p3 == [Pursuer(3, 9.7)];
    assert FindTarget(p3, ray.value) == Some(0);
    var gz := GazeStage(PursueStage(g2.(lastTs := Some(3000.0)), 1.0), 1.0, ray);
    assert gz.0.pool == [] && gz.0.scene == StaticObjects && gz.0.gazeTimer == GazeDuration;
    assert gz.1 == BarShown(100.0);
  }

  /** A one-second frame with one shooter, no ray hit, no projectile and no volley due. */
  lemma QuietSecond(g: Game, ts: real, postDist: ObjId -> real)
    requires g.lastTs == Some(ts - 1000.0)
    requires |g.pool| == 1 && g.pool[0].dist > 1.0
    requires g.projectiles == [] && g.fireballAcc + 1.0 < FireballInterval
    ensures Frame(g, ts, true, None, postDist).0
            == g.(lastTs := Some(ts), pool := [g.pool[0].(dist := g.pool[0].dist - 0.1)], fireballAcc := g.fireballAcc + 1.0)
  {
  }

  /**
    Firing scenario: one shooter five units away; after four one-second frames the
    accumulator reaches the interval and exactly one projectile is in flight, spawned at
    the shooter's position with speed 1.5 and a time to live of 5 from which that frame's
    second has already been taken. Its distance after the frame is the supplied post-move
    distance, 3.1, which is where a still camera would put it after one second at 1.5.
  */
  lemma FirstVolleyAfterFourSeconds()
    ensures
      var postDist := (x: ObjId) => 3.1;
      var f1 := Frame(OnePursuer(5.0), 1000.0, true, None, postDist);
      var f2 := Frame(f1.0, 2000.0, true, None, postDist);
      var f3 := Frame(f2.0, 3000.0, true, None, postDist);
      var f4 := Frame(f3.0, 4000.0, true, None, postDist);
      && f3.0.projectiles == []
      && f4.0.pool == [Pursuer(3, 4.6)]
      && f4.0.projectiles == [Projectile(4, 3.1, FireballSpeed, FireballTtl - 1.0)]
      && f4.0.fireballAcc == 0.0
      && 4 in f4.0.scene
  {
    var postDist := (x: ObjId) => 3.1;
    var g3 := Frame(Frame(Frame(OnePursuer(5.0), 1000.0, true, None, postDist).0, 2000.0, true, None, postDist).0,
                    3000.0, true, None, postDist).0;
    ThreeQuietSeconds(postDist);
    VolleySecond(g3, postDist);
  }

  lemma ThreeQuietSeconds(postDist: ObjId -> real)
    ensures
      Frame(Frame(Frame(OnePursuer(5.0), 1000.0, true, None, postDist).0, 2000.0, true, None, postDist).0,
            3000.0, true, None, postDist).0
      == Game(Some(3000.0), [Pursuer(3, 4.7)], StaticObjects + {3}, GazeDuration, 3.0, [], true, true, 4)
  {
    var g0 := OnePursuer(5.0);
    QuietSecond(g0, 1000.0, postDist);
    var g1 := Frame(g0, 1000.0, true, None, postDist).0;
    assert g1 == Game(Some(1000.0), [Pursuer(3, 4.9)], StaticObjects + {3}, GazeDuration, 1.0, [], true, true, 4);
    QuietSecond(g1, 2000.0, postDist);
    var g2 := Frame(g1, 2000.0, true, None, postDist).0;
    assert g2 == Game(Some(2000.0), [Pursuer(3, 4.8)], StaticObjects + {3}, GazeDuration, 2.0, [], true, true, 4);
    QuietSecond(g2, 3000.0, postDist);
  }

  lemma VolleySecond(g3: Game, postDist: ObjId -> real)
    requires g3 == Game(Some(3000.0), [Pursuer(3, 4.7)], StaticObjects + {3}, GazeDuration, 3.0, [], true, true, 4)
    requires postDist(4) == 3.1
    ensures Frame(g3, 4000.0, true, None, postDist).0.pool == [Pursuer(3, 4.6)]
    ensures Frame(g3, 4000.0, true, None, postDist).0.projectiles == [Projectile(4, 3.1, FireballSpeed, FireballTtl - 1.0)]
    ensures Frame(g3, 4000.0, true, None, postDist).0.fireballAcc == 0.0
    ensures 4 in Frame(g3, 4000.0, true, None, postDist).0.scene
  {
    FrameStages(g3, 4000.0, None, postDist);
    assert DeltaTime(g3.lastTs, 4000.0) == 1.0;
    var g2 := GazeStage(PursueStage(g3.(lastTs := Some(4000.0)), 1.0), 1.0, None).0;
    VolleySecondPursuit(g3, g2);
    var g4 := FireStage(g2, 1.0);
    VolleySecondFiring(g2, g4);
    VolleySecondFlight(g4, postDist);
  }

  lemma VolleySecondPursuit(g3: Game, g2: Game)
    requires g3 == Game(Some(3000.0), [Pursuer(3, 4.7)], StaticObjects + {3}, GazeDuration, 3.0, [], true, true, 4)
    requires g2 == GazeStage(PursueStage(g3.(lastTs := Some(4000.0)), 1.0), 1.0, None).0
    ensures g2 == Game(Some(4000.0), [Pursuer(3, 4.6)], StaticObjects + {3}, GazeDuration, 3.0, [], true, true, 4)
  {
  }

  lemma VolleySecondFiring(g2: Game, g4: Game)
    requires g2 == Game(Some(4000.0), [Pursuer(3, 4.6)], StaticObjects + {3}, GazeDuration, 3.0, [], true, true, 4)
    requires g4 == FireStage(g2, 1.0)
    ensures g4.projectiles == [Projectile(4, 4.6, FireballSpeed, FireballTtl)]
    ensures g4.fireballAcc == 0.0 && 4 in g4.scene && g4.pool == [Pursuer(3, 4.6)]
  {
    var v := Projectile(4, 4.6, FireballSpeed, FireballTtl);
    assert Volley([Pursuer(3, 4.6)], 4) == [v];
    assert Meshes([v]) == {4};
  }

  lemma VolleySecondFlight(g4: Game, postDist: ObjId -> real)
    requires g4.projectiles == [Projectile(4, 4.6, FireballSpeed, FireballTtl)]
    requires g4.fireballAcc == 0.0 && 4 in g4.scene
    requires postDist(4) == 3.1
    ensures ProjectileStage(g4, 1.0, postDist).projectiles == [Projectile(4, 3.1, FireballSpeed, FireballTtl - 1.0)]
    ensures ProjectileStage(g4, 1.0, postDist).fireballAcc == 0.0
    ensures 4 in ProjectileStage(g4, 1.0, postDist).scene
  {
  }
}
