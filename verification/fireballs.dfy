/**
  Fireballs: every pursuer periodically shoots a projectile at the camera; projectiles fly
  until their time-to-live runs out or they come within contact range of the camera.

  A projectile is represented by its distance to the camera. Its velocity has the fixed
  magnitude `FireballSpeed` and points at the camera's position at firing time; where the
  projectile ends up relative to the (possibly moving) camera after a frame is taken as an
  input, `postDist`, keyed by the projectile's mesh.
*/
module Fireballs {
  import opened Common
  import opened Pursuit

  /** Seconds between volleys (`FIREBALL_INTERVAL`). */
  const FireballInterval: real := 4.0
  /** Magnitude of a projectile's velocity (`FIREBALL_SPEED`). */
  const FireballSpeed: real := 1.5
  /** Initial time-to-live of a projectile, in seconds (`FIREBALL_TTL`). */
  const FireballTtl: real := 5.0
  /** A projectile closer than this to the camera has hit it. */
  const ContactRange: real := 0.3

  datatype Projectile = Projectile(mesh: ObjId, dist: real, speed: real, ttl: real)

  /** The meshes of a projectile list. */
  function Meshes(ps: seq<Projectile>): set<ObjId>
  {
    set p | p in ps :: p.mesh
  }

  /** No mesh appears twice in the list. */
  predicate DistinctMeshes(ps: seq<Projectile>)
  {
    forall i, j :: 0 <= i < j < |ps| ==> ps[i].mesh != ps[j].mesh
  }

  /** The ids `first`, ..., `first + n - 1`. */
  function IdRange(first: nat, n: nat): (r: set<ObjId>)
    ensures forall x :: x in r <==> first <= x < first + n
  {
    if n == 0 then {} else IdRange(first, n - 1) + {first + n - 1}
  }

  /**
    The speed a projectile is launched with. Its velocity is the normalised direction from
    the shooter to the camera times `FireballSpeed`; a shooter that pursuit has snapped
    onto the camera has a zero direction, which normalises to zero, so its projectile
    does not move.
  */
  function LaunchSpeed(shooterDist: real): real
  {
    if shooterDist == 0.0 then 0.0 else FireballSpeed
  }

  /** One fresh projectile per shooter, at that shooter's distance, with fresh mesh ids from `nextId` on. */
  function Volley(shooters: seq<Pursuer>, nextId: ObjId): (r: seq<Projectile>)
    ensures |r| == |shooters|
    ensures forall i :: 0 <= i < |r| ==>
              r[i] == Projectile(nextId + i, shooters[i].dist, LaunchSpeed(shooters[i].dist), FireballTtl)
    ensures Meshes(r) == IdRange(nextId, |shooters|)
    ensures DistinctMeshes(r)
  {
    var r := seq(|shooters|, i requires 0 <= i < |shooters| =>
                   Projectile(nextId + i, shooters[i].dist, LaunchSpeed(shooters[i].dist), FireballTtl));
    assert Meshes(r) == IdRange(nextId, |shooters|) by {
      forall x | x in IdRange(nextId, |shooters|) ensures x in Meshes(r) {
        assert r[x - nextId].mesh == x;
      }
    }
    r
  }

  /** The result of the firing stage: the new accumulator and the projectiles spawned. */
  datatype Firing = Firing(acc: real, volley: seq<Projectile>)

  /**
    The firing stage. The accumulator grows by `dt`; a volley is fired exactly when it has
    reached the interval, there is at least one shooter and the fireball model is loaded.
    Firing resets the accumulator to zero; otherwise it keeps growing.
  */
  function Fire(acc: real, dt: real, shooters: seq<Pursuer>, loaded: bool, nextId: ObjId): (r: Firing)
    ensures r.volley != [] <==> acc + dt >= FireballInterval && |shooters| > 0 && loaded
    ensures r.volley != [] ==> r.acc == 0.0 && r.volley == Volley(shooters, nextId)
    ensures r.volley != [] ==>
              && |r.volley| == |shooters|
              && (forall i :: 0 <= i < |r.volley| ==>
                    r.volley[i].dist == shooters[i].dist && r.volley[i].ttl == FireballTtl)
              && (forall i :: 0 <= i < |r.volley| && shooters[i].dist != 0.0 ==> r.volley[i].speed == FireballSpeed)
              && (forall i :: 0 <= i < |r.volley| && shooters[i].dist == 0.0 ==> r.volley[i].speed == 0.0)
              && Meshes(r.volley) == IdRange(nextId, |shooters|)
    ensures r.volley == [] ==> r.acc == acc + dt
  {
    var a := acc + dt;
    if a >= FireballInterval && |shooters| > 0 && loaded then
      Firing(0.0, Volley(shooters, nextId))
    else
      Firing(a, [])
  }

  /**
    With shooters present and the model loaded, the accumulator never reaches the interval
    at the end of a frame: every time it does, a volley goes out and it restarts from zero.
  */
  lemma FiringKeepsAccumulatorBelowInterval(acc: real, dt: real, shooters: seq<Pursuer>, nextId: ObjId)
    requires |shooters| > 0
    ensures Fire(acc, dt, shooters, true, nextId).acc < FireballInterval
    ensures |Fire(acc, dt, shooters, true, nextId).volley| == 0 || |Fire(acc, dt, shooters, true, nextId).volley| == |shooters|
  {
  }

  /** A projectile after a frame: it is at its new distance and has `dt` less to live. */
  function Moved(p: Projectile, dt: real, postDist: ObjId -> real): Projectile
  {
    p.(dist := postDist(p.mesh), ttl := p.ttl - dt)
  }

  /** A projectile is removed once its time is up or it has reached the camera. */
  predicate Expired(p: Projectile)
  {
    p.ttl <= 0.0 || p.dist < ContactRange
  }

  /**
    The projectiles still in flight after a frame: every projectile is moved, and exactly
    the ones that have not expired stay, in their original order.
  */
  function Survivors(ps: seq<Projectile>, dt: real, postDist: ObjId -> real): (r: seq<Projectile>)
    ensures |r| <= |ps|
    ensures forall q :: q in r ==> !Expired(q)
    ensures forall q :: q in r ==> exists p :: p in ps && q == Moved(p, dt, postDist)
    ensures forall p :: p in ps && !Expired(Moved(p, dt, postDist)) ==> Moved(p, dt, postDist) in r
    ensures Meshes(r) <= Meshes(ps)
  {
    if |ps| == 0 then []
    else
      var q := Moved(ps[0], dt, postDist);
      var rest := Survivors(ps[1..], dt, postDist);
      assert forall p :: p in ps[1..] ==> p in ps;
      assert forall p :: p in ps ==> p == ps[0] || p in ps[1..];
      if Expired(q) then rest else [q] + rest
  }

  /** The meshes removed from the scene in a frame: those of the projectiles that expired. */
  function Expelled(ps: seq<Projectile>, dt: real, postDist: ObjId -> real): set<ObjId>
  {
    set p | p in ps && Expired(Moved(p, dt, postDist)) :: p.mesh
  }

  /** Survivors respect concatenation, so projectiles keep their relative order. */
  lemma {:induction false} SurvivorsAppend(a: seq<Projectile>, b: seq<Projectile>, dt: real, postDist: ObjId -> real)
    ensures Survivors(a + b, dt, postDist) == Survivors(a, dt, postDist) + Survivors(b, dt, postDist)
    decreases |a|
  {
    if |a| > 0 {
      assert (a + b)[0] == a[0];
      assert (a + b)[1..] == a[1..] + b;
      SurvivorsAppend(a[1..], b, dt, postDist);
    } else {
      assert a + b == b;
    }
  }

  /**
    On a list with distinct meshes, the survivors keep distinct meshes, and the meshes
    split exactly into the surviving ones and the expelled ones.
  */
  lemma {:induction false} SurvivorsPartition(ps: seq<Projectile>, dt: real, postDist: ObjId -> real)
    requires DistinctMeshes(ps)
    ensures DistinctMeshes(Survivors(ps, dt, postDist))
    ensures Meshes(Survivors(ps, dt, postDist)) == Meshes(ps) - Expelled(ps, dt, postDist)
    ensures Expelled(ps, dt, postDist) <= Meshes(ps)
    decreases |ps|
  {
    if |ps| > 0 {
      var tail := ps[1..];
      DistinctUncons(ps);
      SurvivorsPartition(tail, dt, postDist);
      ExpelledUncons(ps, dt, postDist);
      var q := Moved(ps[0], dt, postDist);
      if !Expired(q) {
        DistinctCons(q, Survivors(tail, dt, postDist));
      }
    }
  }

  lemma DistinctUncons(ps: seq<Projectile>)
    requires |ps| > 0 && DistinctMeshes(ps)
    ensures DistinctMeshes(ps[1..])
    ensures ps[0].mesh !in Meshes(ps[1..])
    ensures Meshes(ps) == {ps[0].mesh} + Meshes(ps[1..])
  {
  }

  lemma ExpelledUncons(ps: seq<Projectile>, dt: real, postDist: ObjId -> real)
    requires |ps| > 0
    ensures Expelled(ps, dt, postDist)
            == (if Expired(Moved(ps[0], dt, postDist)) then {ps[0].mesh} else {}) + Expelled(ps[1..], dt, postDist)
  {
  }

  lemma DistinctCons(q: Projectile, rest: seq<Projectile>)
    requires DistinctMeshes(rest) && q.mesh !in Meshes(rest)
    ensures DistinctMeshes([q] + rest)
    ensures Meshes([q] + rest) == {q.mesh} + Meshes(rest)
  {
  }

  /**
    The source's removal loop (scene.ts:143-151): it walks the list from the back, moves
    each projectile, and splices out the ones that expired, telling the scene to drop their
    meshes. It computes exactly the survivors and the expelled meshes.
  */
  method AdvanceProjectiles(ps: seq<Projectile>, dt: real, postDist: ObjId -> real)
    returns (kept: seq<Projectile>, removed: set<ObjId>)
    ensures kept == Survivors(ps, dt, postDist)
    ensures removed == Expelled(ps, dt, postDist)
  {
    kept := ps;
    removed := {};
    var i := |ps|;
    while i > 0
      invariant 0 <= i <= |ps|
      invariant kept == ps[..i] + Survivors(ps[i..], dt, postDist)
      invariant removed == Expelled(ps[i..], dt, postDist)
      decreases i
    {
      i := i - 1;
      var p := Moved(kept[i], dt, postDist);
      assert kept[i] == ps[i];
      assert ps[i..][0] == ps[i] && ps[i..][1..] == ps[i + 1..];
      assert forall x :: x in ps[i..] <==> x == ps[i] || x in ps[i + 1..];
      if Expired(p) {
        kept := kept[..i] + kept[i + 1..];
        removed := removed + {p.mesh};
      } else {
        kept := kept[..i] + [p] + kept[i + 1..];
      }
      assert ps[..i + 1] == ps[..i] + [ps[i]];
    }
    assert ps[0..] == ps;
  }
}
