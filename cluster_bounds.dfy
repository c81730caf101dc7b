/**
 * The geometry of one cluster: the exponential depth slices, the point
 * where a view ray meets a plane of constant depth, and the box spanned by
 * the four such points of a screen tile.
 */
module ClusterBounds {
  import opened Geometry

  /**
   * The camera inputs of the builder. corner(gx, gy) is the view-space point
   * that the screen-grid corner (gx * tileSizePx, gy * tileSizePy) unprojects
   * to; pow stands for Math.pow.
   */
  datatype CameraView = CameraView(
    corner: (nat, nat) -> Vec3,
    zNear: real,
    zFar: real,
    pow: (real, real) -> real)
  {
    /**
     * Depth (view-space z) of the near plane of slice z out of zSlices. When
     * pow(b, 0) is 1, slice 0 starts at the camera's near plane.
     */
    function TileNear(z: nat, zSlices: nat): (d: real)
      requires zNear != 0.0 && 0 < zSlices
      ensures z == 0 && pow(zFar / zNear, 0.0) == 1.0 ==> d == -zNear
    {
      -zNear * pow(zFar / zNear, (z as real) / (zSlices as real))
    }

    /**
     * Depth (view-space z) of the far plane of slice z out of zSlices. When
     * pow(b, 1) is b, the last slice ends at the camera's far plane.
     */
    function TileFar(z: nat, zSlices: nat): (d: real)
      requires zNear != 0.0 && 0 < zSlices
      ensures z + 1 == zSlices && pow(zFar / zNear, 1.0) == zFar / zNear ==> d == -zFar
    {
      assert zNear * (zFar / zNear) == zFar;
      assert z + 1 == zSlices ==> ((z + 1) as real) / (zSlices as real) == 1.0;
      -zNear * pow(zFar / zNear, ((z + 1) as real) / (zSlices as real))
    }

    /**
     * No division by zero occurs while building an xSlices by ySlices by
     * zSlices grid: the corner rays are not parallel to the depth planes and
     * no slice's near plane passes through the eye.
     */
    predicate Builds(xSlices: nat, ySlices: nat, zSlices: nat) {
      && zNear != 0.0
      && (forall gx: nat, gy: nat :: gx <= xSlices && gy <= ySlices ==> corner(gx, gy).z != 0.0)
      && (forall z: nat :: z < zSlices ==> TileNear(z, zSlices) != 0.0)
    }
  }

  /** Math.pow(base, e) grows with e. */
  ghost predicate IncreasingPow(pow: (real, real) -> real, base: real) {
    forall a: real, b: real :: a < b ==> pow(base, a) < pow(base, b)
  }

  /** The far plane of slice z is the near plane of slice z + 1: the slices tile the depth range. */
  lemma AdjacentSlicesShareBoundary(cam: CameraView, z: nat, zSlices: nat)
    requires cam.zNear != 0.0 && 0 < zSlices
    ensures cam.TileFar(z, zSlices) == cam.TileNear(z + 1, zSlices)
  {
  }

  /** With 0 < zNear and Math.pow increasing, each slice lies beyond (more negative than) the previous one. */
  lemma SliceDepthsDecrease(cam: CameraView, z: nat, zSlices: nat)
    requires 0.0 < cam.zNear && 0 < zSlices
    requires IncreasingPow(cam.pow, cam.zFar / cam.zNear)
    ensures cam.TileFar(z, zSlices) < cam.TileNear(z, zSlices)
    ensures cam.TileNear(z + 1, zSlices) < cam.TileNear(z, zSlices)
  {
    var base, n := cam.zFar / cam.zNear, zSlices as real;
    var a, b := (z as real) / n, ((z + 1) as real) / n;
    assert a < b by {
      assert b - a == 1.0 / n;
    }
    assert cam.pow(base, a) < cam.pow(base, b);
    MulNegative(-cam.zNear, cam.pow(base, a), cam.pow(base, b));
  }

  lemma MulNegative(k: real, p: real, q: real)
    requires k < 0.0 && p < q
    ensures k * q < k * p
  {
    assert k * q - k * p == k * (q - p);
  }

  /**
   * The point where the line through the eye (the origin) and b meets the
   * plane of constant depth d: the t * b with t = d / b.z. When b.z and d
   * have the same sign, t is positive and the point lies on the ray from
   * the eye through b, in front of the eye.
   */
  function ZPlanePoint(b: Vec3, d: real): (p: Vec3)
    requires b.z != 0.0
    ensures p.z == d
    ensures Collinear(p, b)
    ensures b.z * d > 0.0 ==> Dot(p, b) > 0.0
  {
    var t := d / b.z;
    assert Dot(Scale(b, t), b) == t * Dot(b, b);
    assert Dot(b, b) >= b.z * b.z > 0.0;
    assert b.z * d > 0.0 ==> t > 0.0 by {
      if b.z * d > 0.0 {
        assert t * (b.z * b.z) == d * b.z;
      }
    }
    Scale(b, t)
  }

  /** The line through the eye and b meets the depth plane d in exactly one point. */
  lemma {:induction false} ZPlanePointUnique(b: Vec3, d: real, p: Vec3)
    requires b.z != 0.0 && p.z == d && Collinear(p, b)
    ensures p == ZPlanePoint(b, d)
  {
    var t := d / b.z;
    assert p.x * b.z == d * b.x;
    assert p.y * b.z == d * b.y;
    assert p.x == t * b.x by {
      assert p.x == p.x * b.z / b.z;
    }
    assert p.y == t * b.y by {
      assert p.y == p.y * b.z / b.z;
    }
  }

  /**
   * Intersecting a point already moved onto the plane n (n != 0) with the
   * plane f gives the point where the original ray meets f: the in-place
   * scaling of the direction by the first intersection does not move the ray.
   */
  lemma {:induction false} RepeatedIntersectionStaysOnRay(b: Vec3, n: real, f: real)
    requires b.z != 0.0 && n != 0.0
    ensures ZPlanePoint(b, n).z != 0.0
    ensures ZPlanePoint(ZPlanePoint(b, n), f) == ZPlanePoint(b, f)
  {
    var p := ZPlanePoint(b, n);
    var t1, t2 := n / b.z, f / n;
    assert t2 * t1 == f / b.z;
    assert ZPlanePoint(p, f) == Scale(p, t2);
    assert Scale(p, t2) == Scale(b, t2 * t1) by {
      assert (b.x * t1) * t2 == b.x * (t2 * t1);
      assert (b.y * t1) * t2 == b.y * (t2 * t1);
      assert (b.z * t1) * t2 == b.z * (t2 * t1);
    }
  }

  /**
   * The cluster box as written: its minimum is the componentwise minimum of
   * all four intersection points, its maximum that of the two points on the
   * maximum corner's ray only.
   */
  function CornerBox(minNear: Vec3, minFar: Vec3, maxNear: Vec3, maxFar: Vec3): (b: Box)
    ensures Below(b.lo, minNear) && Below(b.lo, minFar) && Below(b.lo, maxNear) && Below(b.lo, maxFar)
    ensures b.lo.x == minNear.x || b.lo.x == minFar.x || b.lo.x == maxNear.x || b.lo.x == maxFar.x
    ensures b.lo.y == minNear.y || b.lo.y == minFar.y || b.lo.y == maxNear.y || b.lo.y == maxFar.y
    ensures b.lo.z == minNear.z || b.lo.z == minFar.z || b.lo.z == maxNear.z || b.lo.z == maxFar.z
    ensures Below(maxNear, b.hi) && Below(maxFar, b.hi)
    ensures b.hi.x == maxNear.x || b.hi.x == maxFar.x
    ensures b.hi.y == maxNear.y || b.hi.y == maxFar.y
    ensures b.hi.z == maxNear.z || b.hi.z == maxFar.z
    ensures Below(b.lo, b.hi)
  {
    Box(
      Vec3(
        Min4(minNear.x, minFar.x, maxNear.x, maxFar.x),
        Min4(minNear.y, minFar.y, maxNear.y, maxFar.y),
        Min4(minNear.z, minFar.z, maxNear.z, maxFar.z)),
      Vec3(
        Max4(maxNear.x, maxFar.x, maxNear.x, maxFar.x),
        Max4(maxNear.y, maxFar.y, maxNear.y, maxFar.y),
        Max4(maxNear.z, maxFar.z, maxNear.z, maxFar.z)))
  }

  /**
   * The box of the cluster whose screen tile has corner rays minDir and
   * maxDir and whose depth slice lies between the planes near and far,
   * computed as the builder does: each far point is taken from the
   * direction already scaled onto the near plane.
   */
  function ClusterBox(minDir: Vec3, maxDir: Vec3, near: real, far: real): (b: Box)
    requires minDir.z != 0.0 && maxDir.z != 0.0 && near != 0.0
    ensures Below(b.lo, ZPlanePoint(minDir, near)) && Below(b.lo, ZPlanePoint(minDir, far))
    ensures Below(b.lo, ZPlanePoint(maxDir, near)) && Below(b.lo, ZPlanePoint(maxDir, far))
    ensures Below(ZPlanePoint(maxDir, near), b.hi) && Below(ZPlanePoint(maxDir, far), b.hi)
    ensures b.lo.z == Min(near, far) && b.hi.z == Max(near, far)
    ensures b == CornerBox(ZPlanePoint(minDir, near), ZPlanePoint(minDir, far), ZPlanePoint(maxDir, near), ZPlanePoint(maxDir, far))
  {
    RepeatedIntersectionStaysOnRay(minDir, near, far);
    RepeatedIntersectionStaysOnRay(maxDir, near, far);
    var minNear := ZPlanePoint(minDir, near);
    var maxNear := ZPlanePoint(maxDir, near);
    CornerBox(minNear, ZPlanePoint(minNear, far), maxNear, ZPlanePoint(maxNear, far))
  }

  /**
   * The smallest box holding all four intersection points: the box the
   * cluster needs, with the maximum taken over every point.
   */
  function EnclosingBox(minNear: Vec3, minFar: Vec3, maxNear: Vec3, maxFar: Vec3): (b: Box)
    ensures Contains(b, minNear) && Contains(b, minFar) && Contains(b, maxNear) && Contains(b, maxFar)
    ensures forall c: Box ::
              (Contains(c, minNear) && Contains(c, minFar) && Contains(c, maxNear) && Contains(c, maxFar))
              ==> (Below(c.lo, b.lo) && Below(b.hi, c.hi))
  {
    Box(
      Vec3(
        Min4(minNear.x, minFar.x, maxNear.x, maxFar.x),
        Min4(minNear.y, minFar.y, maxNear.y, maxFar.y),
        Min4(minNear.z, minFar.z, maxNear.z, maxFar.z)),
      Vec3(
        Max4(minNear.x, minFar.x, maxNear.x, maxFar.x),
        Max4(minNear.y, minFar.y, maxNear.y, maxFar.y),
        Max4(minNear.z, minFar.z, maxNear.z, maxFar.z)))
  }

  /** The corrected cluster box: it holds the four points on the two original corner rays. */
  function EnclosingClusterBox(minDir: Vec3, maxDir: Vec3, near: real, far: real): (b: Box)
    requires minDir.z != 0.0 && maxDir.z != 0.0
    ensures Contains(b, ZPlanePoint(minDir, near)) && Contains(b, ZPlanePoint(minDir, far))
    ensures Contains(b, ZPlanePoint(maxDir, near)) && Contains(b, ZPlanePoint(maxDir, far))
    ensures b.lo.z == Min(near, far) && b.hi.z == Max(near, far)
  {
    EnclosingBox(ZPlanePoint(minDir, near), ZPlanePoint(minDir, far), ZPlanePoint(maxDir, near), ZPlanePoint(maxDir, far))
  }

  /**
   * The box as written can miss the tile's own corner. Screen y grows
   * downward and view y upward, so the minimum screen corner's ray is the
   * upper one; with minDir = (-1, 1, -1), maxDir = (1, -1, -1) and the
   * slice between depths -1 and -2, the point (-1, 1, -1) where the upper
   * ray meets the near plane lies above the box.
   */
  lemma ClusterBoxMissesUpperCorner()
    ensures ClusterBox(Vec3(-1.0, 1.0, -1.0), Vec3(1.0, -1.0, -1.0), -1.0, -2.0)
            == Box(Vec3(-2.0, -2.0, -2.0), Vec3(2.0, -1.0, -1.0))
    ensures ClusterBox(Vec3(-1.0, 1.0, -1.0), Vec3(1.0, -1.0, -1.0), -1.0, -2.0).hi.y
            < ZPlanePoint(Vec3(-1.0, 1.0, -1.0), -1.0).y
  {
    var minDir, maxDir := Vec3(-1.0, 1.0, -1.0), Vec3(1.0, -1.0, -1.0);
    UnitDepthRay(minDir);
    UnitDepthBox(minDir, maxDir);
  }

  /** On a ray through a point at depth -1, the depth planes -1 and -2 meet it at that point and at twice it. */
  lemma UnitDepthRay(v: Vec3)
    requires v.z == -1.0
    ensures ZPlanePoint(v, -1.0) == v
    ensures ZPlanePoint(v, -2.0) == Scale(v, 2.0)
  {
  }

  lemma UnitDepthBox(minDir: Vec3, maxDir: Vec3)
    requires minDir.z == -1.0 && maxDir.z == -1.0
    ensures ClusterBox(minDir, maxDir, -1.0, -2.0) == CornerBox(minDir, Scale(minDir, 2.0), maxDir, Scale(maxDir, 2.0))
  {
    UnitDepthRay(minDir);
    UnitDepthRay(maxDir);
  }
}
