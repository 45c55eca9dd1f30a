/** Shared vocabulary of the game model: optional values and scene-graph object identities. */
module Common {

  /** The conventional Some/None datatype, standing in for a nullable reference. */
  datatype Option<+T> = None | Some(value: T)

  /** Identity of a three.js scene-graph object (a mesh, a light, the camera, a clone of a model). */
  type ObjId = nat

  function Max(a: real, b: real): (m: real)
    ensures m >= a && m >= b
    ensures m == a || m == b
  {
    if a >= b then a else b
  }
}
