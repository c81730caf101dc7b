/**
 * The cluster texture: a fixed-size table of floats, four to a texel. The
 * CPU writes it and the fragment shaders sample it. A cell is addressed by
 * (element, pixel, lane): the element is the cluster, the pixel the texel
 * row within the element, the lane the component within the texel.
 * Component c of an element lives at pixel c / 4, lane c % 4.
 */
module Texture {

  /** Texels needed to hold `size` floats, four to a texel. */
  function PixelsFor(size: nat): (p: nat)
    ensures size <= 4 * p
    ensures 0 < p ==> 4 * (p - 1) < size
  {
    (size + 3) / 4
  }

  class TextureBuffer {
    const elementCount: nat
    const pixelsPerElement: nat
    const buffer: array3<int>

    ghost predicate Valid()
      reads this
    {
      && buffer.Length0 == elementCount
      && 0 < buffer.Length1 == pixelsPerElement
      && buffer.Length2 == 4
    }

    /** A texture for elementCount elements of elementSize floats each, all zero. */
    constructor (elementCount: nat, elementSize: nat)
      requires 0 < elementSize
      ensures Valid() && fresh(buffer)
      ensures this.elementCount == elementCount && pixelsPerElement == PixelsFor(elementSize)
      ensures forall i, p, l :: 0 <= i < elementCount && 0 <= p < pixelsPerElement && 0 <= l < 4 ==> buffer[i, p, l] == 0
    {
      this.elementCount := elementCount;
      pixelsPerElement := PixelsFor(elementSize);
      buffer := new int[elementCount, PixelsFor(elementSize), 4]((i, p, l) => 0);
    }

    /** Component 0 of element i: the number of lights of cluster i. */
    function Count(i: int): (n: int)
      reads this, buffer
      requires Valid() && 0 <= i < elementCount
      ensures n == Component(i, 0)
    {
      buffer[i, 0, 0]
    }

    /** Component c of element i: the cell of the pixel p and lane l with 4 * p + l == c. */
    function Component(i: int, c: int): (v: int)
      reads this, buffer
      requires Valid() && 0 <= i < elementCount && 0 <= c < 4 * pixelsPerElement
      ensures forall p, l :: 0 <= l < 4 && c == 4 * p + l ==> v == buffer[i, p, l]
    {
      buffer[i, c / 4, c % 4]
    }

    /** Element i holds the light list: its count, then the indices in components 1 to |list|. */
    ghost predicate Holds(i: int, list: seq<nat>)
      reads this, buffer
      requires Valid() && 0 <= i < elementCount
    {
      && Count(i) == |list|
      && |list| < 4 * pixelsPerElement
      && forall k :: 0 <= k < |list| ==> Component(i, k + 1) == list[k]
    }
  }
}
