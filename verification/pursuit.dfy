/**
  Pursuit of the camera by the pursuing entities ("ghasts").

  Each pursuer is represented by its scalar distance to the camera along its line of
  approach. Moving by `step` along the normalised direction to the camera changes that
  distance by exactly `step`, and snapping to the camera makes it zero, so the model needs
  neither square roots nor normalisation.
*/
module Pursuit {
  import opened Common

  /** Distance covered per second (`BASE_SPEED`). */
  const BaseSpeed: real := 0.1
  /** A pursuer closer than this to the camera no longer moves. */
  const ArrivalEpsilon: real := 0.01

  datatype Pursuer = Pursuer(obj: ObjId, dist: real)

  /** The identities of the pool's entries. */
  function Ids(pool: seq<Pursuer>): set<ObjId>
  {
    set p | p in pool :: p.obj
  }

  /** No object appears twice in the pool. */
  predicate DistinctIds(pool: seq<Pursuer>)
  {
    forall i, j :: 0 <= i < j < |pool| ==> pool[i].obj != pool[j].obj
  }

  /**
    One pursuer's distance after a frame of `dt` seconds: outside the arrival radius it
    moves `BaseSpeed * dt` toward the camera, clamped so that it never passes it.
  */
  function Approach(dist: real, dt: real): (r: real)
    ensures dist <= ArrivalEpsilon ==> r == dist
    ensures dist > ArrivalEpsilon ==> r == Max(dist - BaseSpeed * dt, 0.0)
    ensures dist >= 0.0 && dt >= 0.0 ==> 0.0 <= r <= dist
    ensures dist > ArrivalEpsilon && dt > 0.0 ==> r < dist
  {
    if dist > ArrivalEpsilon then
      var step := BaseSpeed * dt;
      if step < dist then dist - step else 0.0
    else
      dist
  }

  /** Every pursuer of the pool takes one step; the pool keeps its members and their order. */
  function AdvancePool(pool: seq<Pursuer>, dt: real): (r: seq<Pursuer>)
    ensures |r| == |pool|
    ensures forall i :: 0 <= i < |r| ==> r[i].obj == pool[i].obj
    ensures forall i :: 0 <= i < |r| ==> r[i].dist == Approach(pool[i].dist, dt)
    ensures Ids(r) == Ids(pool)
    ensures DistinctIds(pool) ==> DistinctIds(r)
  {
    var r := seq(|pool|, i requires 0 <= i < |pool| => pool[i].(dist := Approach(pool[i].dist, dt)));
    assert Ids(r) == Ids(pool) by {
      forall x | x in Ids(pool) ensures x in Ids(r) {
        var i :| 0 <= i < |pool| && pool[i].obj == x;
        assert r[i].obj == x;
      }
    }
    r
  }

  /** The distance of a single pursuer after `n` frames of `dt` seconds each. */
  function Pursue(dist: real, dt: real, n: nat): real
    decreases n
  {
    if n == 0 then dist else Pursue(Approach(dist, dt), dt, n - 1)
  }

  /**
    Pursuit converges without overshooting: after `n` equal frames a pursuer is never
    behind the camera and is no further than `n` steps short of it, or inside the arrival
    radius.
  */
  lemma {:induction false} PursuitConverges(dist: real, dt: real, n: nat)
    requires dist >= 0.0 && dt >= 0.0
    ensures 0.0 <= Pursue(dist, dt, n) <= Max(dist - (n as real) * (BaseSpeed * dt), ArrivalEpsilon)
    decreases n
  {
    if n > 0 {
      var step := BaseSpeed * dt;
      var a := Approach(dist, dt);
      PursuitConverges(a, dt, n - 1);
      assert a <= Max(dist - step, ArrivalEpsilon);
      assert (n as real) * step == ((n - 1) as real) * step + step;
    }
  }

  /**
    An entity ten units away, pursuing at 0.1 units per second for 2000 frames of 0.05
    seconds, ends within the arrival radius of the camera and never beyond it.
  */
  lemma PursuitFromTenUnits()
    ensures 0.0 <= Pursue(10.0, 0.05, 2000) <= ArrivalEpsilon
  {
    PursuitConverges(10.0, 0.05, 2000);
  }
}
