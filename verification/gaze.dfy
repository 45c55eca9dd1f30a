/**
  Gaze targeting: a ray from the camera along its facing direction; while it hits a
  pursuer, one global countdown drains, and when it runs out the gazed pursuer is removed
  and the countdown starts again.
*/
module Gaze {
  import opened Common
  import opened Pursuit

  /** Seconds of gaze needed to remove a pursuer; also the countdown's initial value. */
  const GazeDuration: real := 3.0

  /**
    The nearest ray intersection: the object hit, which may be a sub-mesh of a pursuer,
    and that object's direct parent, if any.
  */
  datatype Hit = Hit(obj: ObjId, parent: Option<ObjId>)

  /** What the progress overlay shows after a frame with a ray hit or without one. */
  datatype Bar = BarHidden | BarShown(widthPercent: real)

  /** The outcome of one gaze evaluation. */
  datatype GazeOutcome = GazeOutcome(timer: real, pool: seq<Pursuer>, removed: Option<ObjId>, bar: Bar)

  /** A pool entry is the target of a hit when it is the object hit or that object's parent. */
  predicate Targets(p: Pursuer, h: Hit)
  {
    p.obj == h.obj || h.parent == Some(p.obj)
  }

  /** The first index of the pool whose entry the hit targets, or None when there is none. */
  function FindTarget(pool: seq<Pursuer>, h: Hit): (r: Option<nat>)
    ensures r.Some? ==> r.value < |pool| && Targets(pool[r.value], h)
    ensures r.Some? ==> forall j :: 0 <= j < r.value ==> !Targets(pool[j], h)
    ensures r.None? <==> forall j :: 0 <= j < |pool| ==> !Targets(pool[j], h)
  {
    if |pool| == 0 then None
    else if Targets(pool[0], h) then Some(0)
    else
      match FindTarget(pool[1..], h)
      case None => None
      case Some(i) => Some(i + 1)
  }

  /** The pool without its entry at index `i`; the others keep their order. */
  function RemoveAt(pool: seq<Pursuer>, i: nat): (r: seq<Pursuer>)
    requires i < |pool|
    ensures |r| == |pool| - 1
    ensures forall j :: 0 <= j < i ==> r[j] == pool[j]
    ensures forall j :: i <= j < |r| ==> r[j] == pool[j + 1]
  {
    pool[..i] + pool[i + 1..]
  }

  /** Width of the progress bar, in percent, for a countdown value. */
  function BarWidth(timer: real): (w: real)
    ensures 0.0 < timer <= GazeDuration ==> 0.0 < w <= 100.0
    ensures timer == GazeDuration ==> w == 100.0
  {
    (timer / GazeDuration) * 100.0
  }

  /**
    One frame of gaze targeting. Without a hit nothing changes but the bar is hidden.
    With a hit and a positive countdown, the countdown drains by `dt`; when it reaches
    zero it is reset and the first pool entry the hit targets, if any, is removed.
  */
  function GazeStep(timer: real, dt: real, ray: Option<Hit>, pool: seq<Pursuer>): (r: GazeOutcome)
    ensures ray.None? ==> r == GazeOutcome(timer, pool, None, BarHidden)
    ensures ray.Some? ==> r.bar == BarShown(BarWidth(r.timer))
    ensures ray.Some? && timer > 0.0 && timer - dt <= 0.0 ==> r.timer == GazeDuration
    ensures ray.Some? && timer > 0.0 && timer - dt > 0.0 ==> r.timer == timer - dt && r.pool == pool
    ensures ray.Some? && timer <= 0.0 ==> r.timer == timer && r.pool == pool
    ensures 0.0 < timer <= GazeDuration && dt >= 0.0 ==> 0.0 < r.timer <= GazeDuration
    ensures r.removed.Some? <==>
              ray.Some? && timer > 0.0 && timer - dt <= 0.0
              && exists j :: 0 <= j < |pool| && Targets(pool[j], ray.value)
    ensures r.removed.None? ==> r.pool == pool
    ensures r.removed.Some? ==>
              exists i :: 0 <= i < |pool| && pool[i].obj == r.removed.value && Targets(pool[i], ray.value)
                          && (forall j :: 0 <= j < i ==> !Targets(pool[j], ray.value))
                          && r.pool == pool[..i] + pool[i + 1..]
  {
    match ray
    case None => GazeOutcome(timer, pool, None, BarHidden)
    case Some(h) =>
      if timer > 0.0 then
        var t := timer - dt;
        if t <= 0.0 then
          match FindTarget(pool, h)
          case None => GazeOutcome(GazeDuration, pool, None, BarShown(BarWidth(GazeDuration)))
          case Some(i) => GazeOutcome(GazeDuration, RemoveAt(pool, i), Some(pool[i].obj), BarShown(BarWidth(GazeDuration)))
        else
          GazeOutcome(t, pool, None, BarShown(BarWidth(t)))
      else
        GazeOutcome(timer, pool, None, BarShown(BarWidth(timer)))
  }

  /** Removing an entry of a pool with distinct identities takes exactly that identity out. */
  lemma RemoveAtIds(pool: seq<Pursuer>, i: nat)
    requires i < |pool| && DistinctIds(pool)
    ensures Ids(RemoveAt(pool, i)) == Ids(pool) - {pool[i].obj}
    ensures DistinctIds(RemoveAt(pool, i))
  {
  }

  /**
    Removal by gaze is idempotent: when at most one entry of the pool is targeted by a hit,
    a second depletion with the same hit finds nothing left to remove.
  */
  lemma GazeRemovalIdempotent(timer: real, dt: real, h: Hit, pool: seq<Pursuer>)
    requires forall i, j :: 0 <= i < |pool| && 0 <= j < |pool| && Targets(pool[i], h) && Targets(pool[j], h) ==> i == j
    requires GazeStep(timer, dt, Some(h), pool).removed.Some?
    ensures FindTarget(GazeStep(timer, dt, Some(h), pool).pool, h).None?
    ensures GazeStep(GazeDuration, GazeDuration, Some(h), GazeStep(timer, dt, Some(h), pool).pool).pool
            == GazeStep(timer, dt, Some(h), pool).pool
  {
  }

  /**
    The countdown is one value shared by all targets: which pursuer the ray hits has no
    bearing on how the countdown moves, so switching targets does not restart it.
  */
  lemma GazeTimerSharedAcrossTargets(timer: real, dt: real, h1: Hit, h2: Hit, pool1: seq<Pursuer>, pool2: seq<Pursuer>)
    ensures GazeStep(timer, dt, Some(h1), pool1).timer == GazeStep(timer, dt, Some(h2), pool2).timer
  {
  }
}
