/**
 * Cell indices, cell counts and the real-valued coordinates shared by every
 * grid: the Index / Vector2ui / Vector2d / AlignedBox3d vocabulary of the
 * library, the row-major cell layout and the numeric conversions the queries
 * perform.
 */
module GridIndex {

  /** Values of a 32-bit unsigned integer (the component type of Vector2ui). */
  type uint32 = n: int | 0 <= n < 0x1_0000_0000

  /** A cell index: two signed integers. */
  datatype Index = Index(x: int, y: int)

  /** The number of cells along x (width) and along y (height). */
  datatype Size = Size(w: uint32, h: uint32)

  /** A pair of reals; used for the resolution, the physical size of one cell. */
  datatype Vec2 = Vec2(x: real, y: real)

  datatype Point3 = Point3(x: real, y: real, z: real)

  /** An axis-aligned box given by its minimum and maximum corner. */
  datatype Box = Box(min: Point3, max: Point3)

  function Min(a: int, b: int): int { if a <= b then a else b }

  function Max(a: int, b: int): int { if a >= b then a else b }

  /** The index addresses a cell of a grid of size sz. */
  predicate InGrid(idx: Index, sz: Size) {
    0 <= idx.x < sz.w && 0 <= idx.y < sz.h
  }

  /**
   * Position of a cell in a grid's flat cell vector: rows follow each other
   * and x runs fastest, so cell (x, y) sits at y * width + x.
   */
  function Offset(idx: Index, sz: Size): (i: nat)
    requires InGrid(idx, sz)
    ensures i < sz.w * sz.h
  {
    MulStep(idx.y, sz.h - 1, sz.w);
    idx.y * sz.w + idx.x
  }

  /** Two different cells of one grid never share a position in the flat vector. */
  lemma OffsetInjective(a: Index, b: Index, sz: Size)
    requires InGrid(a, sz) && InGrid(b, sz)
    ensures Offset(a, sz) == Offset(b, sz) <==> a == b
  {
    if a.y < b.y {
      MulStep(a.y, b.y - 1, sz.w);
    } else if b.y < a.y {
      MulStep(b.y, a.y - 1, sz.w);
    }
  }

  lemma MulStep(a: int, b: int, c: nat)
    requires 0 <= a <= b
    ensures a * c + c <= b * c + c
  {
    assert (b - a) * c >= 0;
  }

  /**
   * The double-to-int conversion of Eigen's cast<int>: truncation toward
   * zero (not flooring), so -0.5 becomes 0 and -1.5 becomes -1.
   */
  function Trunc(r: real): (n: int)
    ensures 0.0 <= r ==> n as real <= r < n as real + 1.0
    ensures r < 0.0 ==> n as real - 1.0 < r <= n as real
  {
    if r >= 0.0 then r.Floor else -((-r).Floor)
  }

  /**
   * A 32-bit unsigned value converted to a signed 32-bit int, as cast<int>
   * of a Vector2ui component does: values of 2^31 and more become negative.
   * Storing the result back into a 32-bit unsigned field gives the value back.
   */
  function ToInt32(u: uint32): (n: int)
    ensures -0x8000_0000 <= n < 0x8000_0000
    ensures ToUInt32(n) == u
    ensures n <= u
  {
    if u < 0x8000_0000 then u else u - 0x1_0000_0000
  }

  /**
   * A signed value stored into a 32-bit unsigned field, as when an int
   * difference initialises a Vector2ui: it is taken modulo 2^32.
   */
  function ToUInt32(n: int): (u: uint32)
    ensures 0 <= n < 0x1_0000_0000 ==> u == n
    ensures -0x1_0000_0000 <= n < 0 ==> u == n + 0x1_0000_0000
  {
    n % 0x1_0000_0000
  }
}
