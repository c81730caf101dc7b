/**
 * The reader half of the cluster texture, as both fragment shaders (the
 * deferred one and the forward+ one carry the same code) decode it:
 * splitting a component number into a texel row and a lane, sizing the
 * texture, and reading one cluster's light list.
 */
module ClusterDecode {
  import opened Optional
  import opened ClusterIndex
  import opened Texture
  import opened Assignment

  /** GLSL integer division: the quotient is truncated toward zero. */
  function TruncDiv(a: int, b: int): (q: int)
    requires b != 0
    ensures b > 0 && a >= 0 ==> 0 <= a - q * b < b
    ensures b > 0 && a < 0 ==> -b < a - q * b <= 0
  {
    if a >= 0 then a / b else -((-a) / b)
  }

  /** GLSL int(x) of a float: the value truncated toward zero. */
  function TruncReal(x: real): (n: int)
    ensures x >= 0.0 ==> n as real <= x < n as real + 1.0
    ensures x < 0.0 ==> n as real - 1.0 < x <= n as real
  {
    if x >= 0.0 then x.Floor else -((-x).Floor)
  }

  /**
   * pixel = component / 4 and pixelComponent = component - pixel * 4. The two
   * always rebuild the component; a non-negative component gets a lane in
   * 0..3, so one of ExtractFloat's four branches is taken, while a negative
   * one gets a lane in -3..0.
   */
  function SplitComponent(component: int): (split: (int, int))
    ensures 4 * split.0 + split.1 == component
    ensures component >= 0 ==> 0 <= split.0 && 0 <= split.1 <= 3
    ensures component < 0 ==> split.0 <= 0 && -3 <= split.1 <= 0
  {
    var pixel := TruncDiv(component, 4);
    (pixel, component - pixel * 4)
  }

  /** On a non-negative component the split is the texture's own addressing: row c / 4, lane c % 4. */
  lemma SplitMatchesTexture(component: int)
    requires component >= 0
    ensures SplitComponent(component) == (component / 4, component % 4)
  {
  }

  /**
   * Reading component c + 1 addresses the very cell the writer used for the
   * light it stored when the count was c.
   */
  lemma ReadSlotMatchesWriteSlot(c: nat)
    ensures SplitComponent(c + 1) == WriterSlot(c)
  {
    var w := WriterSlot(c);
    var s := SplitComponent(c + 1);
    assert 4 * s.0 + s.1 == 4 * w.0 + w.1;
  }

  /**
   * ExtractFloat on the cluster texture: the texel of element index and row
   * pixel, then the lane pixelComponent. The GLSL function falls off its
   * end when no branch matches, which is None here. The texel fetch stands
   * for the sample at (u, v), which lands in that cell when the width and
   * height passed are the texture's own.
   */
  function ExtractFloat(tex: TextureBuffer, textureWidth: int, textureHeight: int, index: int, component: int): (r: Option<int>)
    reads tex, tex.buffer
    requires tex.Valid() && textureWidth == tex.elementCount && textureHeight == tex.pixelsPerElement
    requires 0 <= index < textureWidth && 0 <= SplitComponent(component).0 < textureHeight
    ensures r.Some? <==> component >= 0
    ensures r.Some? ==> r.value == tex.Component(index, component)
  {
    var pixel := SplitComponent(component).0;
    var pixelComponent := SplitComponent(component).1;
    if pixelComponent == 0 then Some(tex.buffer[index, pixel, 0])
    else if pixelComponent == 1 then Some(tex.buffer[index, pixel, 1])
    else if pixelComponent == 2 then Some(tex.buffer[index, pixel, 2])
    else if pixelComponent == 3 then Some(tex.buffer[index, pixel, 3])
    else None
  }

  /** A component below 4 * height lies in a row below height. */
  lemma SplitRowBelow(component: int, height: int)
    requires 0 <= component < 4 * height
    ensures 0 <= SplitComponent(component).0 < height
  {
  }

  /** bufHeight = int(float(maxLights + 1) / 4.0) + 1, which covers the rows of components 0..maxLights. */
  function BufHeight(maxLights: int): (h: int)
    ensures maxLights >= -1 ==> h == (maxLights + 1) / 4 + 1
  {
    TruncReal(((maxLights + 1) as real) / 4.0) + 1
  }

  /** Every component from the count to the last light index lies in a row below bufHeight. */
  lemma BufHeightCoversComponents(maxLights: nat, c: int)
    requires 0 <= c <= maxLights
    ensures 0 <= SplitComponent(c).0 < BufHeight(maxLights)
  {
    assert c / 4 <= (maxLights + 1) / 4;
  }

  /** With the cap the renderer uses, bufHeight is the texture's row count per cluster. */
  lemma BufHeightMatchesTexture()
    ensures BufHeight(MaxLightsPerCluster) == PixelsFor(MaxLightsPerCluster + 1)
  {
  }

  /** cluster_idx = cx + cy * X + cz * X * Y, which lies in [0, bufWidth) for in-range cluster coordinates. */
  function ClusterIdx(cx: int, cy: int, cz: int, xSlices: nat, ySlices: nat, zSlices: nat): (idx: int)
    requires 0 <= cx < xSlices && 0 <= cy < ySlices && 0 <= cz < zSlices
    ensures 0 <= idx < xSlices * ySlices * zSlices
    ensures idx == LinearIndex(cx, cy, cz, xSlices, ySlices)
  {
    LinearIndexInRange(cx, cy, cz, xSlices, ySlices, zSlices);
    cx + cy * xSlices + cz * xSlices * ySlices
  }

  /**
   * The light-list loop of the shaders' main: read the count from component
   * 0, then components 1, 2, ... in order, stopping at the count or after
   * numLights reads, whichever comes first.
   */
  method ClusterLightIndices(tex: TextureBuffer, bufWidth: int, bufHeight: int, clusterIdx: int, numLights: int)
    returns (lightIdx: seq<int>)
    requires tex.Valid() && bufWidth == tex.elementCount && bufHeight == tex.pixelsPerElement
    requires 0 <= clusterIdx < bufWidth && tex.Count(clusterIdx) < 4 * bufHeight
    ensures |lightIdx| == if MinInt(tex.Count(clusterIdx), numLights) < 0 then 0 else MinInt(tex.Count(clusterIdx), numLights)
    ensures forall k :: 0 <= k < |lightIdx| ==> lightIdx[k] == tex.Component(clusterIdx, k + 1)
  {
    SplitRowBelow(0, bufHeight);
    var numLightsInCluster := ExtractFloat(tex, bufWidth, bufHeight, clusterIdx, 0).value;
    assert numLightsInCluster == tex.Count(clusterIdx);
    lightIdx := [];
    var i := 0;
    while i < numLights
      invariant 0 <= i
      invariant i == 0 || (i <= numLights && i <= numLightsInCluster)
      invariant |lightIdx| == i
      invariant forall k :: 0 <= k < i ==> lightIdx[k] == tex.Component(clusterIdx, k + 1)
    {
      if i >= numLightsInCluster {
        break;
      }
      SplitRowBelow(i + 1, bufHeight);
      var lightIndex := ExtractFloat(tex, bufWidth, bufHeight, clusterIdx, i + 1).value;
      lightIdx := lightIdx + [lightIndex];
      i := i + 1;
    }
  }

  /**
   * The cluster part of the shaders' main for the cluster (cx, cy, cz):
   * cluster_idx, bufWidth and bufHeight, then the light-list loop. The
   * shader is built with maxLights equal to the renderer's cap, and the
   * cluster's count is within the cap, as the renderer keeps it.
   */
  method ClusterLights(tex: TextureBuffer, xSlices: nat, ySlices: nat, zSlices: nat, maxLights: int, numLights: nat,
                       cx: int, cy: int, cz: int)
    returns (lightIdx: seq<int>)
    requires tex.Valid() && tex.elementCount == xSlices * ySlices * zSlices
    requires maxLights == MaxLightsPerCluster && tex.pixelsPerElement == PixelsFor(MaxLightsPerCluster + 1)
    requires 0 <= cx < xSlices && 0 <= cy < ySlices && 0 <= cz < zSlices
    requires 0 <= tex.Count(ClusterIdx(cx, cy, cz, xSlices, ySlices, zSlices)) <= maxLights
    ensures |lightIdx| == MinInt(tex.Count(ClusterIdx(cx, cy, cz, xSlices, ySlices, zSlices)), numLights)
    ensures forall k :: 0 <= k < |lightIdx| ==>
              lightIdx[k] == tex.Component(ClusterIdx(cx, cy, cz, xSlices, ySlices, zSlices), k + 1)
  {
    var clusterIdx := ClusterIdx(cx, cy, cz, xSlices, ySlices, zSlices);
    var bufWidth := xSlices * ySlices * zSlices;
    var bufHeight := BufHeight(maxLights);
    BufHeightMatchesTexture();
    assert bufHeight == tex.pixelsPerElement && bufWidth == tex.elementCount;
    lightIdx := ClusterLightIndices(tex, bufWidth, bufHeight, clusterIdx, numLights);
  }
}
