/**
 * The renderer's cluster state: the view-space box of every cluster, built
 * when the projection is set, and the cluster texture, rewritten every
 * frame with each cluster's light count and light indices.
 */
module Renderer {
  import opened Geometry
  import opened ClusterIndex
  import opened ClusterBounds
  import opened Texture
  import opened Assignment

  class BaseRenderer {
    const xSlices: nat
    const ySlices: nat
    const zSlices: nat
    const clusterTexture: TextureBuffer
    var clusterAABB: seq<Box>

    function ClusterCount(): nat {
      xSlices * ySlices * zSlices
    }

    /** The box of the cluster with linear index i: the enclosing box of its tile's corner rays between its slice planes. */
    function BoxAt(cam: CameraView, i: int): Box
      requires cam.Builds(xSlices, ySlices, zSlices) && 0 <= i < ClusterCount()
    {
      var (x, y, z) := Decompose(i, xSlices, ySlices, zSlices);
      EnclosingClusterBox(cam.corner(x, y), cam.corner(x + 1, y + 1), cam.TileNear(z, zSlices), cam.TileFar(z, zSlices))
    }

    /** The texture has one element of MaxLightsPerCluster + 1 floats per cluster, and there is one box per cluster. */
    ghost predicate Shaped()
      reads this, clusterTexture
    {
      && clusterTexture.Valid()
      && clusterTexture.elementCount == ClusterCount()
      && clusterTexture.pixelsPerElement == PixelsFor(MaxLightsPerCluster + 1)
      && |clusterAABB| == ClusterCount()
    }

    /** Shaped, and no cluster's count exceeds MaxLightsPerCluster. */
    ghost predicate Valid()
      reads this, clusterTexture, clusterTexture.buffer
    {
      && Shaped()
      && forall i :: 0 <= i < ClusterCount() ==> 0 <= clusterTexture.Count(i) <= MaxLightsPerCluster
    }

    /**
     * Part way through the light pass: clusters below n hold their final
     * light lists and clusters from n on are still empty.
     */
    ghost predicate Filled(n: int, lists: seq<seq<nat>>)
      reads this, clusterTexture, clusterTexture.buffer
      requires Shaped() && 0 <= n <= ClusterCount() == |lists|
    {
      && (forall k :: 0 <= k < n ==> clusterTexture.Holds(k, lists[k]))
      && (forall k :: n <= k < ClusterCount() ==> clusterTexture.Count(k) == 0)
    }

    constructor (xSlices: nat, ySlices: nat, zSlices: nat, cam: CameraView)
      requires cam.Builds(xSlices, ySlices, zSlices)
      ensures Valid() && fresh(clusterTexture) && fresh(clusterTexture.buffer)
      ensures this.xSlices == xSlices && this.ySlices == ySlices && this.zSlices == zSlices
      ensures forall i :: 0 <= i < ClusterCount() ==> clusterTexture.Count(i) == 0
      ensures forall i :: 0 <= i < ClusterCount() ==> clusterAABB[i] == BoxAt(cam, i)
    {
      this.xSlices := xSlices;
      this.ySlices := ySlices;
      this.zSlices := zSlices;
      clusterTexture := new TextureBuffer(xSlices * ySlices * zSlices, MaxLightsPerCluster + 1);
      clusterAABB := [];
      new;
      AssembleClusters(cam);
    }

    /**
     * Moves B along the line through the eye and B onto the plane of depth zDistance
     * and returns a copy of the moved point.
     */
    method LineIntersectionToZPlane(B: Vector3, zDistance: real) returns (result: Vec3)
      requires B.z != 0.0
      modifies B
      ensures result == ZPlanePoint(old(B.Value()), zDistance)
      ensures B.Value() == result
    {
      var normal := Vec3(0.0, 0.0, 1.0);
      var eye := Vec3(0.0, 0.0, 0.0);
      var t := zDistance / Dot(normal, B.Value());
      B.x, B.y, B.z := B.x * t, B.y * t, B.z * t;
      result := Add(eye, B.Value());
    }

    /**
     * The body of the cluster loop of assembleClusters: the box of the
     * cluster at (x, y, z). Although each corner vector is scaled in place
     * by its first intersection, the four points are those of the original
     * corner rays. The box is the enclosing box of the four points (the
     * code takes the maximum over the maximum corner's two points only;
     * see ClusterBox).
     */
    method BuildClusterBox(cam: CameraView, x: nat, y: nat, z: nat) returns (box: Box)
      requires cam.Builds(xSlices, ySlices, zSlices) && x < xSlices && y < ySlices && z < zSlices
      ensures box == EnclosingClusterBox(cam.corner(x, y), cam.corner(x + 1, y + 1), cam.TileNear(z, zSlices), cam.TileFar(z, zSlices))
    {
      var maxPoint := new Vector3(cam.corner(x + 1, y + 1));
      var minPoint := new Vector3(cam.corner(x, y));
      var tileNear := cam.TileNear(z, zSlices);
      var tileFar := cam.TileFar(z, zSlices);
      var minPointNear := LineIntersectionToZPlane(minPoint, tileNear);
      var minPointFar := LineIntersectionToZPlane(minPoint, tileFar);
      var maxPointNear := LineIntersectionToZPlane(maxPoint, tileNear);
      var maxPointFar := LineIntersectionToZPlane(maxPoint, tileFar);
      RepeatedIntersectionStaysOnRay(cam.corner(x, y), tileNear, tileFar);
      RepeatedIntersectionStaysOnRay(cam.corner(x + 1, y + 1), tileNear, tileFar);
      box := EnclosingBox(minPointNear, minPointFar, maxPointNear, maxPointFar);
    }

    /** Rebuilds the box list: one box per cluster, in linear index order. */
    method AssembleClusters(cam: CameraView)
      requires cam.Builds(xSlices, ySlices, zSlices)
      modifies this
      ensures |clusterAABB| == ClusterCount()
      ensures forall i :: 0 <= i < ClusterCount() ==> clusterAABB[i] == BoxAt(cam, i)
    {
      clusterAABB := [];
      var z := 0;
      while z < zSlices
        invariant z <= zSlices
        invariant |clusterAABB| == LinearIndex(0, 0, z, xSlices, ySlices) <= ClusterCount()
        invariant forall i :: 0 <= i < |clusterAABB| ==> clusterAABB[i] == BoxAt(cam, i)
      {
        var y := 0;
        while y < ySlices
          invariant y <= ySlices
          invariant |clusterAABB| == LinearIndex(0, y, z, xSlices, ySlices) <= ClusterCount()
          invariant forall i :: 0 <= i < |clusterAABB| ==> clusterAABB[i] == BoxAt(cam, i)
        {
          var x := 0;
          while x < xSlices
            invariant x <= xSlices
            invariant |clusterAABB| == LinearIndex(x, y, z, xSlices, ySlices) <= ClusterCount()
            invariant forall i :: 0 <= i < |clusterAABB| ==> clusterAABB[i] == BoxAt(cam, i)
          {
            var box := BuildClusterBox(cam, x, y, z);
            DecomposeLinearIndex(x, y, z, xSlices, ySlices, zSlices);
            clusterAABB := clusterAABB + [box];
            x := x + 1;
          }
          NextRow(y, z, xSlices, ySlices);
          y := y + 1;
        }
        NextSlice(z, xSlices, ySlices);
        z := z + 1;
      }
      GridEnd(xSlices, ySlices, zSlices);
    }

    /** The first pass of updateClusters: every cluster's count becomes 0; no other cell changes. */
    method ResetClusterCounts()
      requires Shaped()
      modifies clusterTexture.buffer
      ensures forall i :: 0 <= i < ClusterCount() ==> clusterTexture.Count(i) == 0
      ensures forall i, p, l ::
                0 <= i < ClusterCount() && 0 <= p < clusterTexture.pixelsPerElement && 0 <= l < 4 && (p != 0 || l != 0)
                ==> clusterTexture.buffer[i, p, l] == old(clusterTexture.buffer[i, p, l])
    {
      var buf := clusterTexture.buffer;
      var z := 0;
      while z < zSlices
        invariant z <= zSlices
        invariant LinearIndex(0, 0, z, xSlices, ySlices) <= ClusterCount()
        invariant forall i :: 0 <= i < LinearIndex(0, 0, z, xSlices, ySlices) ==> buf[i, 0, 0] == 0
        invariant forall i, p, l ::
                    0 <= i < ClusterCount() && 0 <= p < buf.Length1 && 0 <= l < 4 && (p != 0 || l != 0)
                    ==> buf[i, p, l] == old(buf[i, p, l])
      {
        var y := 0;
        while y < ySlices
          invariant y <= ySlices
          invariant LinearIndex(0, y, z, xSlices, ySlices) <= ClusterCount()
          invariant forall i :: 0 <= i < LinearIndex(0, y, z, xSlices, ySlices) ==> buf[i, 0, 0] == 0
          invariant forall i, p, l ::
                      0 <= i < ClusterCount() && 0 <= p < buf.Length1 && 0 <= l < 4 && (p != 0 || l != 0)
                      ==> buf[i, p, l] == old(buf[i, p, l])
        {
          var x := 0;
          while x < xSlices
            invariant x <= xSlices
            invariant LinearIndex(x, y, z, xSlices, ySlices) <= ClusterCount()
            invariant forall i :: 0 <= i < LinearIndex(x, y, z, xSlices, ySlices) ==> buf[i, 0, 0] == 0
            invariant forall i, p, l ::
                        0 <= i < ClusterCount() && 0 <= p < buf.Length1 && 0 <= l < 4 && (p != 0 || l != 0)
                        ==> buf[i, p, l] == old(buf[i, p, l])
          {
            var i := LinearIndex(x, y, z, xSlices, ySlices);
            LinearIndexInRange(x, y, z, xSlices, ySlices, zSlices);
            buf[i, 0, 0] := 0;
            x := x + 1;
          }
          NextRow(y, z, xSlices, ySlices);
          y := y + 1;
        }
        NextSlice(z, xSlices, ySlices);
        z := z + 1;
      }
      GridEnd(xSlices, ySlices, zSlices);
    }

    /**
     * One append of the light loop of updateClusters: cluster i, which holds
     * list and has room, gets light as its next entry. Only the count and
     * the new entry's cell are written.
     */
    method StoreLight(i: nat, light: nat, ghost list: seq<nat>)
      requires Shaped() && i < ClusterCount()
      requires clusterTexture.Holds(i, list) && |list| < MaxLightsPerCluster
      modifies clusterTexture.buffer
      ensures clusterTexture.Holds(i, list + [light])
      ensures forall k, p, l ::
                0 <= k < ClusterCount() && 0 <= p < clusterTexture.pixelsPerElement && 0 <= l < 4
                && (k != i || 4 * p + l > |list| + 1)
                ==> clusterTexture.buffer[k, p, l] == old(clusterTexture.buffer[k, p, l])
    {
      var buf := clusterTexture.buffer;
      var curLights := buf[i, 0, 0];
      buf[i, 0, 0] := curLights + 1;
      var (row, txlIdx) := WriterSlot(curLights);
      buf[i, row, txlIdx] := light;
    }

    /**
     * The light loop of updateClusters for cluster i, when the clusters
     * before it are filled and it and those after it are empty: afterwards
     * the cluster holds the capped first-come list of the lights meeting
     * its box (lists[i]), the other clusters are as they were, no count has
     * dropped, and no cell past its cluster's count has changed.
     */
    method AppendClusterLights(i: nat, lights: seq<Sphere>, intersects: (Box, Sphere) -> bool, ghost lists: seq<seq<nat>>)
      requires Shaped() && i < ClusterCount()
      requires lists == AssignAll(clusterAABB, lights, intersects) && Filled(i, lists)
      modifies clusterTexture.buffer
      ensures Filled(i + 1, lists)
      ensures forall k :: 0 <= k < ClusterCount() ==> old(clusterTexture.Count(k)) <= clusterTexture.Count(k)
      ensures forall k, p, l ::
                0 <= k < ClusterCount() && 0 <= p < clusterTexture.pixelsPerElement && 0 <= l < 4
                && 4 * p + l > clusterTexture.Count(k)
                ==> clusterTexture.buffer[k, p, l] == old(clusterTexture.buffer[k, p, l])
    {
      var tex := clusterTexture;
      var buf := tex.buffer;
      var j := 0;
      while j < |lights|
        invariant j <= |lights|
        invariant tex.Holds(i, AssignedLights(clusterAABB[i], lights, intersects, j))
        invariant forall k, p, l ::
                    0 <= k < ClusterCount() && 0 <= p < buf.Length1 && 0 <= l < 4
                    && (k != i || 4 * p + l > tex.Count(i))
                    ==> buf[k, p, l] == old(buf[k, p, l])
      {
        if intersects(clusterAABB[i], lights[j]) {
          if buf[i, 0, 0] < MaxLightsPerCluster {
            StoreLight(i, j, AssignedLights(clusterAABB[i], lights, intersects, j));
          }
        }
        j := j + 1;
      }
      forall k, m | 0 <= k < i && 0 <= m < |lists[k]|
        ensures tex.Component(k, m + 1) == lists[k][m]
      {
        assert old(tex.Component(k, m + 1)) == lists[k][m];
      }
      forall k | i + 1 <= k < ClusterCount()
        ensures tex.Count(k) == 0
      {
        assert old(tex.Count(k)) == 0;
      }
    }

    /**
     * The per-frame pass: reset every count, then walk the clusters in
     * z, y, x order and the lights in index order, appending each light
     * that meets the cluster's box while the cluster has room.
     */
    method UpdateClusters(lights: seq<Sphere>, intersects: (Box, Sphere) -> bool)
      requires Valid()
      modifies clusterTexture.buffer
      ensures Valid()
      ensures forall i :: 0 <= i < ClusterCount() ==>
                clusterTexture.Holds(i, AssignedLights(clusterAABB[i], lights, intersects, |lights|))
      ensures forall i, p, l ::
                0 <= i < ClusterCount() && 0 <= p < clusterTexture.pixelsPerElement && 0 <= l < 4
                && 4 * p + l > clusterTexture.Count(i)
                ==> clusterTexture.buffer[i, p, l] == old(clusterTexture.buffer[i, p, l])
    {
      var tex := clusterTexture;
      var buf := tex.buffer;
      ghost var lists := AssignAll(clusterAABB, lights, intersects);
      ResetClusterCounts();
      ghost var n := 0;
      var z := 0;
      while z < zSlices
        invariant z <= zSlices && n == LinearIndex(0, 0, z, xSlices, ySlices)
        invariant 0 <= n <= ClusterCount() == |lists|
        invariant Filled(n, lists)
        invariant forall k, p, l ::
                    0 <= k < ClusterCount() && 0 <= p < buf.Length1 && 0 <= l < 4 && 4 * p + l > tex.Count(k)
                    ==> buf[k, p, l] == old(buf[k, p, l])
      {
        var y := 0;
        while y < ySlices
          invariant y <= ySlices && n == LinearIndex(0, y, z, xSlices, ySlices)
          invariant 0 <= n <= ClusterCount() == |lists|
          invariant Filled(n, lists)
          invariant forall k, p, l ::
                      0 <= k < ClusterCount() && 0 <= p < buf.Length1 && 0 <= l < 4 && 4 * p + l > tex.Count(k)
                      ==> buf[k, p, l] == old(buf[k, p, l])
        {
          var x := 0;
          while x < xSlices
            invariant x <= xSlices && n == LinearIndex(x, y, z, xSlices, ySlices)
            invariant 0 <= n <= ClusterCount() == |lists|
            invariant Filled(n, lists)
            invariant forall k, p, l ::
                        0 <= k < ClusterCount() && 0 <= p < buf.Length1 && 0 <= l < 4 && 4 * p + l > tex.Count(k)
                        ==> buf[k, p, l] == old(buf[k, p, l])
          {
            var i := LinearIndex(x, y, z, xSlices, ySlices);
            LinearIndexInRange(x, y, z, xSlices, ySlices, zSlices);
            AppendClusterLights(i, lights, intersects, lists);
            n := n + 1;
            x := x + 1;
          }
          NextRow(y, z, xSlices, ySlices);
          y := y + 1;
        }
        NextSlice(z, xSlices, ySlices);
        z := z + 1;
      }
      GridEnd(xSlices, ySlices, zSlices);
      forall k | 0 <= k < ClusterCount()
        ensures 0 <= tex.Count(k) <= MaxLightsPerCluster
      {
        assert tex.Holds(k, lists[k]);
      }
    }
  }
}
