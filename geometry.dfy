/**
 * View-space vectors, boxes and light spheres used by the cluster builder.
 * Values (Vec3, Box, Sphere) stand for the three.js objects that are only
 * read; Vector3 is the one object the builder updates in place.
 */
module Geometry {

  datatype Vec3 = Vec3(x: real, y: real, z: real)

  /** An axis-aligned box given by its minimum and maximum corners (three.js Box3). */
  datatype Box = Box(lo: Vec3, hi: Vec3)

  /** A light's bounding sphere in view space (three.js Sphere). */
  datatype Sphere = Sphere(center: Vec3, radius: real)

  function Scale(v: Vec3, s: real): Vec3 {
    Vec3(v.x * s, v.y * s, v.z * s)
  }

  function Add(a: Vec3, b: Vec3): Vec3 {
    Vec3(a.x + b.x, a.y + b.y, a.z + b.z)
  }

  function Dot(a: Vec3, b: Vec3): real {
    a.x * b.x + a.y * b.y + a.z * b.z
  }

  /** v lies on the line through the origin and w. */
  predicate Collinear(v: Vec3, w: Vec3) {
    && v.x * w.y == v.y * w.x
    && v.y * w.z == v.z * w.y
    && v.x * w.z == v.z * w.x
  }

  /** Componentwise a <= b. */
  predicate Below(a: Vec3, b: Vec3) {
    a.x <= b.x && a.y <= b.y && a.z <= b.z
  }

  predicate Contains(b: Box, p: Vec3) {
    Below(b.lo, p) && Below(p, b.hi)
  }

  function Min(a: real, b: real): real { if a <= b then a else b }

  function Max(a: real, b: real): real { if a <= b then b else a }

  /** Math.min with four arguments. */
  function Min4(a: real, b: real, c: real, d: real): (m: real)
    ensures m <= a && m <= b && m <= c && m <= d
    ensures m == a || m == b || m == c || m == d
  {
    Min(Min(Min(a, b), c), d)
  }

  /** Math.max with four arguments. */
  function Max4(a: real, b: real, c: real, d: real): (m: real)
    ensures a <= m && b <= m && c <= m && d <= m
    ensures m == a || m == b || m == c || m == d
  {
    Max(Max(Max(a, b), c), d)
  }

  /** A three.js Vector3: a mutable triple of coordinates. */
  class Vector3 {
    var x: real
    var y: real
    var z: real

    function Value(): Vec3
      reads this
    {
      Vec3(x, y, z)
    }

    constructor (v: Vec3)
      ensures Value() == v
    {
      x, y, z := v.x, v.y, v.z;
    }
  }
}
