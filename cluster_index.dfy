/**
 * The linear cluster index x + y*X + z*X*Y shared by the CPU builder and
 * the fragment shaders, and its inverse.
 */
module ClusterIndex {

  /**
   * Linear index of cluster (x, y, z) in a grid of X by Y by any number of
   * slices. Slice z owns the block of X * Y indices starting at z * X * Y.
   */
  function LinearIndex(x: int, y: int, z: int, X: int, Y: int): (i: int)
    ensures 0 <= x < X && 0 <= y < Y ==> z * X * Y <= i < z * X * Y + X * Y
  {
    if 0 <= x < X && 0 <= y < Y then
      MulMonotone(y + 1, Y, X);
      assert (y + 1) * X == y * X + X;
      assert Y * X == X * Y;
      x + y * X + z * X * Y
    else
      x + y * X + z * X * Y
  }

  /** Quotient and remainder are determined by the division identity. */
  lemma DivModUnique(n: int, d: int, q: int, r: int)
    requires 0 < d && 0 <= r < d && n == q * d + r
    ensures n / d == q && n % d == r
  {
    var q0, r0 := n / d, n % d;
    assert n == q0 * d + r0;
    if q0 < q {
      assert (q0 + 1) * d == q0 * d + d;
      MulMonotone(q0 + 1, q, d);
      assert false;
    } else if q < q0 {
      assert (q + 1) * d == q * d + d;
      MulMonotone(q + 1, q0, d);
      assert false;
    }
  }

  lemma MulMonotone(a: int, b: int, d: int)
    requires a <= b && 0 <= d
    ensures a * d <= b * d
  {
    assert b * d - a * d == (b - a) * d;
  }

  /** The cluster with coordinates (x, y, z) of an X by Y by Z grid has a linear index inside the grid. */
  lemma LinearIndexInRange(x: int, y: int, z: int, X: int, Y: int, Z: int)
    requires 0 <= x < X && 0 <= y < Y && 0 <= z < Z
    ensures 0 <= LinearIndex(x, y, z, X, Y) < X * Y * Z
  {
    MulMonotone(y, Y - 1, X);
    assert x + y * X < X * Y by {
      assert (Y - 1) * X == X * Y - X;
    }
    MulMonotone(z, Z - 1, X * Y);
    assert z * X * Y == z * (X * Y);
    assert (Z - 1) * (X * Y) == X * Y * Z - X * Y;
    assert 0 <= y * X && 0 <= z * (X * Y);
  }

  /** Coordinates of the cluster with linear index i in an X by Y by Z grid. */
  function Decompose(i: int, X: nat, Y: nat, Z: nat): (c: (int, int, int))
    requires 0 <= i < X * Y * Z
    ensures 0 <= c.0 < X && 0 <= c.1 < Y && 0 <= c.2 < Z
    ensures LinearIndex(c.0, c.1, c.2, X, Y) == i
  {
    PositiveFactors(X, Y, Z);
    DecomposeBounds(i, X, Y, Z, i % X, i / X, (i / X) % Y, (i / X) / Y);
    (i % X, (i / X) % Y, (i / X) / Y)
  }

  lemma DecomposeBounds(i: int, X: nat, Y: nat, Z: nat, x: int, q: int, y: int, z: int)
    requires 0 < X && 0 < Y && 0 <= i < X * Y * Z
    requires x == i % X && q == i / X && y == q % Y && z == q / Y
    ensures 0 <= x < X && 0 <= y < Y && 0 <= z < Z
    ensures LinearIndex(x, y, z, X, Y) == i
  {
    assert 0 <= q;
    Recombine(i, X, Y, x, q, y, z);
    SliceInGrid(i, X * Y, Z, z, x + y * X);
  }

  /** An index below XY * Z that is z * XY plus a non-negative rest has z < Z. */
  lemma SliceInGrid(i: int, XY: int, Z: int, z: int, rest: int)
    requires 0 < XY && 0 <= rest && i == z * XY + rest && i < XY * Z
    ensures z < Z
  {
    if Z <= z {
      assert Z * XY == XY * Z;
      MulMonotone(Z, z, XY);
      assert false;
    }
  }

  lemma PositiveFactors(X: nat, Y: nat, Z: nat)
    requires 0 < X * Y * Z
    ensures 0 < X && 0 < Y && 0 < Z
  {
  }

  lemma Recombine(i: int, X: int, Y: int, x: int, q: int, y: int, z: int)
    requires 0 < X && 0 < Y
    requires i == q * X + x && 0 <= x && q == z * Y + y && 0 <= y
    ensures i == x + y * X + z * X * Y
    ensures i == z * (X * Y) + (x + y * X)
    ensures 0 <= x + y * X
  {
    assert q * X == z * Y * X + y * X;
    assert z * Y * X == z * X * Y == z * (X * Y);
  }

  /** Decompose inverts LinearIndex on the grid: distinct clusters have distinct indices. */
  lemma {:induction false} DecomposeLinearIndex(x: int, y: int, z: int, X: nat, Y: nat, Z: nat)
    requires 0 <= x < X && 0 <= y < Y && 0 <= z < Z
    ensures 0 <= LinearIndex(x, y, z, X, Y) < X * Y * Z
    ensures Decompose(LinearIndex(x, y, z, X, Y), X, Y, Z) == (x, y, z)
  {
    var i := LinearIndex(x, y, z, X, Y);
    LinearIndexInRange(x, y, z, X, Y, Z);
    var q := y + z * Y;
    assert i == q * X + x by {
      assert q * X == y * X + z * Y * X;
      assert z * Y * X == z * X * Y;
    }
    DivModUnique(i, X, q, x);
    DivModUnique(q, Y, z, y);
  }

  /** Stepping past the last cluster of a row lands on the first cluster of the next row. */
  lemma NextRow(y: int, z: int, X: int, Y: int)
    ensures LinearIndex(X, y, z, X, Y) == LinearIndex(0, y + 1, z, X, Y)
  {
    assert (y + 1) * X == y * X + X;
  }

  /** Stepping past the last row of a slice lands on the first cluster of the next slice. */
  lemma NextSlice(z: int, X: int, Y: int)
    ensures LinearIndex(0, Y, z, X, Y) == LinearIndex(0, 0, z + 1, X, Y)
  {
    assert (z + 1) * X * Y == z * X * Y + X * Y;
    assert Y * X == X * Y;
  }

  /** Stepping past the last slice lands one past the last cluster of the grid. */
  lemma GridEnd(X: int, Y: int, Z: int)
    ensures LinearIndex(0, 0, Z, X, Y) == X * Y * Z
  {
    assert Z * X * Y == X * Y * Z;
  }
}
