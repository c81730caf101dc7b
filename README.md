# Clustered light table of a WebGL forward+/deferred renderer

The renderer splits the view frustum into `xSlices × ySlices × zSlices`
clusters: a uniform grid of screen tiles, each cut into depth slices that
grow exponentially from the near plane to the far plane. Once per
projection it computes a view-space axis-aligned box for every cluster.
Every frame it writes the **cluster texture**. For each cluster, in linear
index order `x + y·X + z·X·Y`, the texture holds a light count in
component 0 and then the indices of the lights whose sphere meets the
cluster's box, first come first served, at most `MAX_LIGHTS_PER_CLUSTER`
(100) of them. Component `c` of a cluster lives in texel row `c / 4`, lane
`c % 4`. The deferred and forward+ fragment shaders decode the same table.
For the cluster coordinates they compute, they read the count and then
components `1..count`.

This project models both halves and the contract between them:

- `Geometry`: vectors, boxes and spheres as values, and the mutable
  three.js `Vector3` as a class.
- `ClusterIndex`: the linear cluster index, its range, and its inverse.
- `ClusterBounds`: the exponential depth slices, the ray/plane
  intersection, the box as the code builds it, and the enclosing box it
  was meant to be (see Findings).
- `Texture`: the cluster texture as a class over an
  `array3<int>` of (cluster, texel row, lane) cells.
- `Assignment`: the per-cluster light list as a specification (capped,
  first-come, in increasing light index), and the writer's texel slot.
- `Renderer`: `BaseRenderer`, with its constructor,
  `lineIntersectionToZPlane` (which scales its argument in place),
  `assembleClusters`, and `updateClusters` (reset pass, then capped append).
  Each is proved against the specification functions above.
- `ClusterDecode`: the shaders' `ExtractFloat`, with GLSL's truncating
  integer division, and the `cluster_idx`, `bufWidth` and `bufHeight`
  expressions. It also holds the light-list loop with its `break`.
- `Frame`: the round trip. After `updateClusters`, the list a shader
  decodes for the cluster coordinates it computes equals the list the pass
  assigned to the cluster at those coordinates, in the same order. Whether
  those coordinates are the cluster the fragment lies in is a separate
  question (see Left out).

A cluster's box must contain all four points where its tile's two corner
rays meet its two slice planes. The code takes the minimum over all four
points (src/renderers/base.js:138-142), but the maximum repeats the two
points on the maximum corner's ray (src/renderers/base.js:144-148), so the
two points on the minimum corner's ray never enter it. Screen y is flipped
when unprojecting (src/renderers/base.js:55), so that left-out ray is the
tile's upper one. `ClusterBounds.ClusterBox` models the code as
written, and a concrete tile shows the points it misses (see Findings).
`AssembleClusters` builds the corrected enclosing box, which the rest of the
model uses.

## Model

The forward+ fragment shader carries the deferred shader's decoder code
unchanged, so each `ClusterDecode` row below also covers its copy in
`src/shaders/forwardPlus.frag.glsl.js`: `ExtractFloat` at lines 41-56, the
split at 43-46, `cluster_idx` at 113-114, `bufHeight` at 116, and the
light-list loop at 119-130.

| member | source | states |
|---|---|---|
| Geometry.Min4 | src/renderers/base.js:139-141 | The result is at most each of the four arguments and equals one of them (Math.min of four). |
| Geometry.Max4 | src/renderers/base.js:145-147 | The result is at least each of the four arguments and equals one of them (Math.max of four). |
| ClusterIndex.LinearIndex | src/renderers/base.js:240 | The index x + y·X + z·X·Y of cluster (x, y, z); for in-grid x and y it lies in slice z's block [z·X·Y, z·X·Y + X·Y). The same expression recurs at src/renderers/base.js:250 and as cluster_idx in the shaders. |
| ClusterIndex.LinearIndexInRange | src/renderers/base.js:240 | For in-grid x, y, z, the index x + y·X + z·X·Y lies in [0, X·Y·Z). |
| ClusterIndex.Decompose | src/renderers/base.js:250 | For an index i in [0, X·Y·Z), the result is an in-grid cluster coordinate whose linear index is i. |
| ClusterIndex.DecomposeLinearIndex | src/renderers/base.js:102-106 | The linear index is injective on the grid: decomposing the index of (x, y, z) gives back (x, y, z). |
| ClusterBounds.CameraView.TileNear | src/renderers/base.js:128 | The near depth of slice z, -zNear·pow(zFar / zNear, z / Z); when pow(b, 0) is 1, slice 0 starts at the near plane -zNear. |
| ClusterBounds.CameraView.TileFar | src/renderers/base.js:129 | The far depth of slice z, -zNear·pow(zFar / zNear, (z + 1) / Z); when pow(b, 1) is b, the last slice ends at the far plane -zFar. |
| ClusterBounds.AdjacentSlicesShareBoundary | src/renderers/base.js:128-129 | The far plane of slice z is the near plane of slice z + 1, whatever Math.pow computes. |
| ClusterBounds.SliceDepthsDecrease | src/renderers/base.js:128-129 | With a positive zNear and an increasing Math.pow, a slice's far plane is deeper (more negative) than its near plane, and slice z + 1 starts deeper than slice z. |
| ClusterBounds.ZPlanePoint | src/renderers/base.js:72-90 | For B.z ≠ 0, the point has depth zDistance and lies on the line through the eye and B; when B.z and zDistance have the same sign (as for every call the builder makes, where both are negative) it lies on the ray from the eye through B, in front of the eye. |
| ClusterBounds.ZPlanePointUnique | src/renderers/base.js:72-90 | Any point of depth d on the line through the eye and B is that point, so the intersection is the only one. |
| ClusterBounds.RepeatedIntersectionStaysOnRay | src/renderers/base.js:132-135 | Intersecting the already-moved direction with the far plane gives the point where the original ray meets the far plane. |
| ClusterBounds.CornerBox | src/renderers/base.js:138-148 | The minimum is below all four points and on each axis equals one of them. The maximum is above the two max-corner points and on each axis equals one of those two, so the min-corner points do not enter it. Minimum ≤ maximum. |
| ClusterBounds.ClusterBox | src/renderers/base.js:128-148 | For one tile and slice as the code computes them, in-place scaling included: the box is CornerBox of the four points where the original corner rays meet the two slice planes, so its maximum is taken over the max-corner ray's two points only. The minimum is below all four points and the z extent is exactly the slice's [far, near]. |
| ClusterBounds.EnclosingBox | src/renderers/base.js:138-148 | The corrected box contains all four points and lies inside every box that contains them. |
| ClusterBounds.EnclosingClusterBox | src/renderers/base.js:128-148 | The corrected cluster box contains the four points where the two corner rays meet the two slice planes, with z extent [far, near]. |
| ClusterBounds.ClusterBoxMissesUpperCorner | src/renderers/base.js:144-148 | A concrete tile whose box as written leaves out the point where its upper corner ray meets the near plane. |
| Texture.PixelsFor | src/renderers/base.js:13 | An element of `size` floats gets the fewest texels of four lanes that hold it. |
| Texture.TextureBuffer.Count | src/renderers/base.js:319 | The cell bufferIndex(i, 0) read as the cluster's light count; it is component 0 of the element. |
| Texture.TextureBuffer.Component | src/renderers/base.js:327 | Component c of element i is the cell bufferIndex(i, p) + l of the pixel p and lane l with 4·p + l = c. |
| Texture.TextureBuffer.constructor | src/renderers/base.js:13 | One element per cluster, enough texel rows for MAX_LIGHTS_PER_CLUSTER + 1 floats, every cell zero. |
| Assignment.Hits | src/renderers/base.js:317 | Reference list of the lights meeting the box: at most n entries, each below n. |
| Assignment.HitsAreTheHits | src/renderers/base.js:317 | A light index is in the reference list iff it is below n and its sphere meets the box, and the list is strictly increasing. |
| Assignment.AssignedLights | src/renderers/base.js:299-331 | The per-cluster list holds at most MAX_LIGHTS_PER_CLUSTER indices, each below n and each of a light meeting the box. |
| Assignment.AssignAll | src/renderers/base.js:247-250 | One list per cluster box, each the box's AssignedLights over all lights. |
| Assignment.AssignedIsFirstHits | src/renderers/base.js:299-331 | The capped append keeps exactly the first min(MAX, #hits) intersecting lights, in increasing index order. |
| Assignment.DroppedOnlyWhenFull | src/renderers/base.js:317-320 | A light meeting the box is left out of the cluster's list only if the list is full. |
| Assignment.QuarterFloor | src/renderers/base.js:325 | Math.floor of a float division by 4 equals integer division by 4. |
| Assignment.WriterSlot | src/renderers/base.js:325-327 | The slot has row ≥ 0 and lane in 0..3, and 4·row + lane is count + 1. |
| Assignment.WriterSlotsDisjoint | src/renderers/base.js:319-327 | Different counts write different cells, never the count's own cell, and below the cap always a row inside the element. |
| Renderer.BaseRenderer.constructor | src/renderers/base.js:11-21 | The renderer is valid and every count is zero. Box i is the enclosing box of the cluster whose linear index is i. |
| Renderer.BaseRenderer.LineIntersectionToZPlane | src/renderers/base.js:72-90 | Returns the point where the line through the eye and B's old value meets the plane, and leaves B itself moved to that point. |
| Renderer.BaseRenderer.BuildClusterBox | src/renderers/base.js:108-148 | The two corner vectors are scaled in place, yet the result is the enclosing box of the four points where the original corner rays meet the slice planes (the corrected maximum). |
| Renderer.BaseRenderer.AssembleClusters | src/renderers/base.js:102-156 | Exactly X·Y·Z boxes. The box at position i is the enclosing box of the cluster whose linear index is i. |
| Renderer.BaseRenderer.ResetClusterCounts | src/renderers/base.js:237-245 | Every cluster's count becomes 0 and no other cell changes. |
| Renderer.BaseRenderer.StoreLight | src/renderers/base.js:319-327 | A cluster holding `list` with room now holds `list + [light]`. Nothing else changes except the count and that one cell. |
| Renderer.BaseRenderer.AppendClusterLights | src/renderers/base.js:299-336 | With the clusters before i holding their lists and the rest empty, afterwards cluster i holds its AssignedLights list too, earlier clusters keep theirs and later ones stay empty. No count decreases, and no cell past a cluster's count changes. |
| Renderer.BaseRenderer.UpdateClusters | src/renderers/base.js:217-346 | The renderer stays valid (counts ≤ MAX). Every cluster holds exactly its AssignedLights list in components 1..count. No cell past a cluster's count changes. |
| ClusterDecode.TruncDiv | src/shaders/deferred.frag.glsl.js:30 | GLSL integer division by a positive divisor: the remainder takes the dividend's sign and is smaller than the divisor. |
| ClusterDecode.TruncReal | src/shaders/deferred.frag.glsl.js:127 | GLSL int() of a float truncates toward zero. |
| ClusterDecode.SplitComponent | src/shaders/deferred.frag.glsl.js:30-33 | 4·pixel + pixelComponent = component. For component ≥ 0 the lane is in 0..3, so a branch always returns. A negative component gets a lane in -3..0. |
| ClusterDecode.SplitMatchesTexture | src/shaders/deferred.frag.glsl.js:30-33 | For component ≥ 0 the split is the texture's own addressing: row c / 4, lane c % 4. |
| ClusterDecode.ReadSlotMatchesWriteSlot | src/shaders/deferred.frag.glsl.js:141 | Reading component c + 1 addresses the same (row, lane) that the writer used for the light it stored at count c. |
| ClusterDecode.ExtractFloat | src/shaders/deferred.frag.glsl.js:28-43 | For a component whose row is inside the texture, a value comes back iff component ≥ 0, and that value is the stored component. Components -3..-1 fall off the four branches (None). |
| ClusterDecode.BufHeight | src/shaders/deferred.frag.glsl.js:127 | For maxLights ≥ -1, bufHeight is (maxLights + 1) / 4 + 1 in integer arithmetic. |
| ClusterDecode.BufHeightCoversComponents | src/shaders/deferred.frag.glsl.js:127 | Every component in 0..maxLights lies in a row below bufHeight. |
| ClusterDecode.BufHeightMatchesTexture | src/shaders/deferred.frag.glsl.js:127 | With maxLights = MAX_LIGHTS_PER_CLUSTER, bufHeight equals the texture's row count per cluster. |
| ClusterDecode.ClusterIdx | src/shaders/deferred.frag.glsl.js:124-125 | For in-range cx, cy, cz, cluster_idx lies in [0, bufWidth) and is the renderer's linear index. |
| ClusterDecode.ClusterLightIndices | src/shaders/deferred.frag.glsl.js:130-141 | Reads the count from component 0. The result has min(count, numLights) entries (0 if that is negative). Entry k is component k + 1. |
| ClusterDecode.ClusterLights | src/shaders/deferred.frag.glsl.js:124-141 | For an in-range cluster whose count is within the cap, the shader reads min(count, numLights) indices, entry k being component k + 1 of that cluster. |
| Frame.RenderedClusterLights | src/renderers/base.js:217-346 | Round trip: after the light pass, the indices the shader decodes for the cluster coordinates (cx, cy, cz) it computes are exactly the AssignedLights list of the cluster at those coordinates, in the same order. |

## Left out

- `screen2View` (src/renderers/base.js:47-70) depends on the camera's inverse projection matrix and the global canvas. The view-space corner of every screen-grid point is an input function, `CameraView.corner`.
- Frame.RenderedClusterLights: the round trip holds for the coordinates handed to the shader, not for the cluster the fragment lies in. As written, the shader computes `cz = int(Z − Z·log(−z / zNear) / log(zFar / zNear))` (src/shaders/deferred.frag.glsl.js:114-117, src/shaders/forwardPlus.frag.glsl.js:103-106), while the builder puts depth −z in slice s when `Z·log(−z / zNear) / log(zFar / zNear)` lies in [s, s + 1] (src/renderers/base.js:128-129). A fragment inside builder slice s therefore gets `cz = Z − 1 − s`, the mirrored slice, and generally decodes another slice's list; a fragment exactly on the near plane gets `cz = Z`, outside the grid. This is not modelled because the `log` and `pow` arithmetic is transcendental floating point.
- `Math.pow` is a parameter of `CameraView`, because it is transcendental floating-point. Only its monotonicity is assumed, and only where stated. The shaders' `log`-based `cz` and their `cx`/`cy` from `gl_FragCoord` are not modelled. The cluster coordinates are inputs to `ClusterLights`, so agreement between the shader's `cz` and the builder's slice order is not claimed.
- `Sphere.intersectsBox` (three.js) is the `intersects` parameter. The light transform by `camera.matrixWorldInverse` (src/renderers/base.js:305-307) is also out: lights are given as view-space spheres.
- `NUM_LIGHTS` and the scene's light list are the `lights` sequence. The shaders' `numLights` is passed as `|lights|` in `Frame`.
- `textureBuffer.js` is not part of this model. Its `bufferIndex` layout and `update()` (the GPU upload) are left out. The texture is (cluster, row, lane) cells, with `ceil(size / 4)` rows per element.
- Texture values are stored as integers. The float32 texture holds these small counts and indices exactly.
- `ExtractFloat`: the `u`/`v` texture sampling is modelled as fetching the exact cell. This requires the width and height passed to be the texture's own.
- Floating-point arithmetic is modelled over `real`, with no rounding, NaN or infinity. Divisions by zero are excluded by the `CameraView.Builds` precondition rather than modelled.
- Renderer.BaseRenderer.AssembleClusters, Renderer.BaseRenderer.BuildClusterBox, Renderer.BaseRenderer.constructor: they compute and store the corrected box. The box as written is `ClusterBounds.ClusterBox`, and the light pass is not modelled over those boxes.
- `ClusterDecode.ClusterLights` requires `maxLights == MAX_LIGHTS_PER_CLUSTER`, because the shader is built from a separate parameter and nothing shown ties the two together.
- `UnpackLight`, the light-buffer read of the radius, `cubicGaussian`, the Lambert term, the normal map and the `fragColor` accumulation are lighting numerics and are left out.
- `getNormalForTriangle`, `getDotForFrustumCheck`, `rad`, the unused size variables of `updateClusters` (src/renderers/base.js:229-235), `_clusterMins`/`_clusterMaxs`, and commented-out code have no effect on the table.

## Findings

| source | as written | input that shows it | evidently intended | confidence | as-written member | corrected member |
|---|---|---|---|---|---|---|
| src/renderers/base.js:144-148 | The box maximum is `Math.max(maxPointNear, maxPointFar, maxPointNear, maxPointFar)` per axis, leaving out the two points on the minimum corner's ray. Screen y grows downward and view y upward, so the minimum corner's ray is the tile's upper ray, and its points can lie above the box. | minDir = (-1, 1, -1), maxDir = (1, -1, -1), near = -1, far = -2: the box as written is [(-2, -2, -2), (2, -1, -1)], but the near point of the upper ray, (-1, 1, -1), has y = 1 > -1. | The maximum over all four intersection points: the smallest box containing the cluster's four corner points. | medium, not executed | ClusterBounds.ClusterBoxMissesUpperCorner | ClusterBounds.EnclosingClusterBox |

`EnclosingBox` and `EnclosingClusterBox` prove the corrected definition: it
contains all four points and is the smallest box that does.
`Renderer.BaseRenderer.AssembleClusters` builds this corrected box, so the
light pass tests the boxes the cluster needs.
