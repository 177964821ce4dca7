/** Points and displacements in 3-space: one row of the engine's n-by-3 position array.
    Coordinates are exact reals; floating-point rounding is not modelled. */
module Geometry {

  datatype Vec3 = Vec3(x: real, y: real, z: real)

  const Zero := Vec3(0.0, 0.0, 0.0)

  function Add(a: Vec3, b: Vec3): Vec3 {
    Vec3(a.x + b.x, a.y + b.y, a.z + b.z)
  }

  function Sub(a: Vec3, b: Vec3): Vec3 {
    Vec3(a.x - b.x, a.y - b.y, a.z - b.z)
  }

  function Scale(a: Vec3, s: real): Vec3 {
    Vec3(a.x * s, a.y * s, a.z * s)
  }

  function Div(a: Vec3, c: real): Vec3
    requires c != 0.0
  {
    Vec3(a.x / c, a.y / c, a.z / c)
  }

  /** Negates the X coordinate: the reflection across the plane X = 0. */
  function ReflectX(a: Vec3): Vec3 {
    Vec3(-a.x, a.y, a.z)
  }

  /** The midpoint of a and b, computed as (a + b) * 0.5 as numpy does it. */
  function Mid(a: Vec3, b: Vec3): Vec3 {
    Scale(Add(a, b), 0.5)
  }
}
