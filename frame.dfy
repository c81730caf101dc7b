/**
 * One frame seen from one cluster: the renderer's light pass writes the
 * cluster texture, then a shader handed the cluster coordinates (cx, cy, cz)
 * decodes that cluster's light list from it. What the shader reads is
 * exactly what the pass assigned to the cluster at those coordinates, in
 * the same order; whether they are the coordinates of the cluster the
 * fragment lies in is not part of this model.
 */
module Frame {
  import opened Geometry
  import opened Assignment
  import opened Renderer
  import opened ClusterDecode

  method RenderedClusterLights(renderer: BaseRenderer, lights: seq<Sphere>, intersects: (Box, Sphere) -> bool,
                               cx: int, cy: int, cz: int)
    returns (lightIdx: seq<int>)
    requires renderer.Valid()
    requires 0 <= cx < renderer.xSlices && 0 <= cy < renderer.ySlices && 0 <= cz < renderer.zSlices
    modifies renderer.clusterTexture.buffer
    ensures renderer.Valid()
    ensures lightIdx == AssignedLights(
                          renderer.clusterAABB[ClusterIdx(cx, cy, cz, renderer.xSlices, renderer.ySlices, renderer.zSlices)],
                          lights, intersects, |lights|)
  {
    renderer.UpdateClusters(lights, intersects);
    var tex := renderer.clusterTexture;
    var clusterIdx := ClusterIdx(cx, cy, cz, renderer.xSlices, renderer.ySlices, renderer.zSlices);
    lightIdx := ClusterLights(tex, renderer.xSlices, renderer.ySlices, renderer.zSlices, MaxLightsPerCluster, |lights|, cx, cy, cz);
    assert tex.Holds(clusterIdx, AssignedLights(renderer.clusterAABB[clusterIdx], lights, intersects, |lights|));
  }
}
