/**
 * Entities and the vector and transform types of the engine, over the reals.
 * The engine computes in 32-bit floats; this model does not round.
 */
module Geometry {

  /** An entity handle, allocated by the host; the model only compares handles. */
  type Entity = nat

  datatype Vec2 = Vec2(x: real, y: real)

  datatype Vec3 = Vec3(x: real, y: real, z: real)

  /** A rotation, carried along unchanged by every operation of the model. */
  datatype Quat = Quat(x: real, y: real, z: real, w: real)

  datatype Transform = Transform(translation: Vec3, rotation: Quat, scale: Vec3)

  /** The transform that leaves every point where it is. */
  const Identity := Transform(Vec3(0.0, 0.0, 0.0), Quat(0.0, 0.0, 0.0, 1.0), Vec3(1.0, 1.0, 1.0))

  function Abs(r: real): real {
    if r < 0.0 then -r else r
  }

  function Add2(a: Vec2, b: Vec2): Vec2 {
    Vec2(a.x + b.x, a.y + b.y)
  }

  function Sub2(a: Vec2, b: Vec2): Vec2 {
    Vec2(a.x - b.x, a.y - b.y)
  }

  function Add3(a: Vec3, b: Vec3): Vec3 {
    Vec3(a.x + b.x, a.y + b.y, a.z + b.z)
  }

  /** `Vec2::extend`: the planar vector lifted to depth `z`. */
  function Extend(v: Vec2, z: real): Vec3 {
    Vec3(v.x, v.y, z)
  }

  /** `Vec3::truncate`: the planar part, depth dropped. */
  function Truncate(v: Vec3): Vec2 {
    Vec2(v.x, v.y)
  }

  /** `Vec2::distance_squared`: the squared Euclidean distance. */
  function DistanceSquared(a: Vec2, b: Vec2): (d: real)
    ensures 0.0 <= d
    ensures a == b ==> d == 0.0
  {
    var dx, dy := a.x - b.x, a.y - b.y;
    dx * dx + dy * dy
  }

  /** The transform moved in the plane by `d`, with depth, rotation and scale kept. */
  function Translated(t: Transform, d: Vec2): Transform {
    t.(translation := Add3(t.translation, Extend(d, 0.0)))
  }

  /** The transform with its planar scale multiplied by `k`; the depth scale is kept. */
  function ScaledXY(t: Transform, k: real): Transform {
    t.(scale := Vec3(t.scale.x * k, t.scale.y * k, t.scale.z))
  }
}
