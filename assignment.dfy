/**
 * What the light assignment pass stores for one cluster: the capped,
 * first-come list of the lights whose sphere meets the cluster's box, and
 * the texel slot each stored index goes to.
 */
module Assignment {
  import opened Geometry
  import opened Texture

  /** The most lights one cluster records; further lights meeting it are dropped. */
  const MaxLightsPerCluster: nat := 100

  /** The smaller of two integers. */
  function MinInt(a: int, b: int): (m: int)
    ensures m <= a && m <= b && (m == a || m == b)
  {
    if a <= b then a else b
  }

  /** The indices j < n, in increasing order, of the lights whose sphere meets the box (see HitsAreTheHits). */
  function Hits(box: Box, lights: seq<Sphere>, intersects: (Box, Sphere) -> bool, n: nat): (r: seq<nat>)
    requires n <= |lights|
    ensures |r| <= n
    ensures forall k :: 0 <= k < |r| ==> r[k] < n
  {
    if n == 0 then []
    else Hits(box, lights, intersects, n - 1) + (if intersects(box, lights[n - 1]) then [n - 1] else [])
  }

  /** Hits holds every light index below n whose sphere meets the box and nothing else, in strictly increasing order. */
  lemma {:induction false} HitsAreTheHits(box: Box, lights: seq<Sphere>, intersects: (Box, Sphere) -> bool, n: nat)
    requires n <= |lights|
    ensures forall j: nat :: j in Hits(box, lights, intersects, n) <==> j < n && intersects(box, lights[j])
    ensures forall a, b :: 0 <= a < b < |Hits(box, lights, intersects, n)| ==>
              Hits(box, lights, intersects, n)[a] < Hits(box, lights, intersects, n)[b]
  {
    if n > 0 {
      HitsAreTheHits(box, lights, intersects, n - 1);
      var h := Hits(box, lights, intersects, n - 1);
      if intersects(box, lights[n - 1]) {
        assert Hits(box, lights, intersects, n) == h + [n - 1];
      } else {
        assert Hits(box, lights, intersects, n) == h;
      }
    }
  }

  /**
   * The list the pass builds for one cluster after visiting lights 0 to
   * n - 1: a light is appended when it meets the box and fewer than
   * MaxLightsPerCluster lights are stored; otherwise the list is unchanged.
   */
  function AssignedLights(box: Box, lights: seq<Sphere>, intersects: (Box, Sphere) -> bool, n: nat): (r: seq<nat>)
    requires n <= |lights|
    ensures |r| <= MaxLightsPerCluster && |r| <= n
    ensures forall k :: 0 <= k < |r| ==> r[k] < n && intersects(box, lights[r[k]])
  {
    if n == 0 then []
    else
      var prev := AssignedLights(box, lights, intersects, n - 1);
      if intersects(box, lights[n - 1]) && |prev| < MaxLightsPerCluster then prev + [n - 1] else prev
  }

  /** The light list of every cluster, box by box. */
  function AssignAll(boxes: seq<Box>, lights: seq<Sphere>, intersects: (Box, Sphere) -> bool): (r: seq<seq<nat>>)
    ensures |r| == |boxes|
    ensures forall k :: 0 <= k < |boxes| ==> r[k] == AssignedLights(boxes[k], lights, intersects, |lights|)
  {
    if boxes == [] then []
    else AssignAll(boxes[..|boxes| - 1], lights, intersects) + [AssignedLights(boxes[|boxes| - 1], lights, intersects, |lights|)]
  }

  /**
   * The capped append keeps exactly the first min(MaxLightsPerCluster, #hits)
   * intersecting lights, in increasing index order.
   */
  lemma {:induction false} AssignedIsFirstHits(box: Box, lights: seq<Sphere>, intersects: (Box, Sphere) -> bool, n: nat)
    requires n <= |lights|
    ensures AssignedLights(box, lights, intersects, n)
            == Hits(box, lights, intersects, n)[..MinInt(MaxLightsPerCluster, |Hits(box, lights, intersects, n)|)]
  {
    if n > 0 {
      AssignedIsFirstHits(box, lights, intersects, n - 1);
      var h := Hits(box, lights, intersects, n - 1);
      if intersects(box, lights[n - 1]) {
        assert Hits(box, lights, intersects, n) == h + [n - 1];
        CappedAppendStep(h, n - 1);
      } else {
        assert Hits(box, lights, intersects, n) == h;
      }
    }
  }

  /**
   * One more hit: appending it while the first min(cap, #hits) hits number
   * fewer than the cap gives the first min(cap, #hits + 1) hits.
   */
  lemma CappedAppendStep(h: seq<nat>, j: nat)
    ensures var a := h[..MinInt(MaxLightsPerCluster, |h|)];
            (if |a| < MaxLightsPerCluster then a + [j] else a)
            == (h + [j])[..MinInt(MaxLightsPerCluster, |h + [j]|)]
  {
    var a := h[..MinInt(MaxLightsPerCluster, |h|)];
    if |a| < MaxLightsPerCluster {
      assert a == h;
      assert (h + [j])[..|h + [j]|] == h + [j];
    } else {
      assert (h + [j])[..MaxLightsPerCluster] == h[..MaxLightsPerCluster];
    }
  }

  /** A light meeting the box is missing from the cluster's list only when the list is full. */
  lemma DroppedOnlyWhenFull(box: Box, lights: seq<Sphere>, intersects: (Box, Sphere) -> bool, n: nat, j: nat)
    requires n <= |lights| && j < n && intersects(box, lights[j])
    ensures j in AssignedLights(box, lights, intersects, n) || |AssignedLights(box, lights, intersects, n)| == MaxLightsPerCluster
  {
    AssignedIsFirstHits(box, lights, intersects, n);
    HitsAreTheHits(box, lights, intersects, n);
    var h := Hits(box, lights, intersects, n);
    var a := AssignedLights(box, lights, intersects, n);
    if |h| < MaxLightsPerCluster {
      assert a == h;
    }
  }

  /** Math.floor(n / 4) computed on floats agrees with integer division by 4. */
  lemma QuarterFloor(n: int)
    ensures ((n as real) / 4.0).Floor == n / 4
  {
    var q, r := n / 4, n % 4;
    assert (n as real) / 4.0 == (q as real) + (r as real) / 4.0;
  }

  /**
   * The texel row and lane where the pass stores the light that raises a
   * cluster's count from `count` to count + 1: row Math.floor((count + 1) / 4),
   * lane count + 1 - 4 * row. It is the place of component count + 1.
   */
  function WriterSlot(count: nat): (slot: (int, int))
    ensures 0 <= slot.0 && 0 <= slot.1 < 4
    ensures 4 * slot.0 + slot.1 == count + 1
  {
    QuarterFloor(count + 1);
    var row := (((count + 1) as real) / 4.0).Floor;
    (row, count + 1 - row * 4)
  }

  /**
   * Distinct counts write distinct cells, none of them the count's own cell,
   * and every count below the cap writes inside a texture element of
   * MaxLightsPerCluster + 1 floats.
   */
  lemma WriterSlotsDisjoint(c: nat, d: nat)
    ensures c != d ==> WriterSlot(c) != WriterSlot(d)
    ensures WriterSlot(c) != (0, 0)
    ensures c < MaxLightsPerCluster ==> WriterSlot(c).0 < PixelsFor(MaxLightsPerCluster + 1)
  {
  }
}
