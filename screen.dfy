/**
 * Geometry of the 144x168 one-byte-per-pixel frame buffer, the C integer
 * widths the raster engine computes in, and the small arithmetic facts the
 * other modules share.
 */
module Screen {

  /** Width and height of the frame buffer in pixels (one byte each). */
  const XREZ: int := 144
  const YREZ: int := 168
  /** Number of bytes in the frame buffer. */
  const FRAME_BYTES: int := XREZ * YREZ

  type UInt8 = x: int | 0 <= x < 0x100
  type UInt16 = x: int | 0 <= x < 0x1_0000
  type Int16 = x: int | -0x8000 <= x < 0x8000
  type UInt32 = x: int | 0 <= x < 0x1_0000_0000

  datatype Option<T> = None | Some(value: T)

  /** An int stored into an `int16_t`: two's complement wrap-around. */
  function Wrap16(v: int): (r: Int16)
    ensures -0x8000 <= v < 0x8000 ==> r == v
    ensures (r - v) % 0x1_0000 == 0
  {
    (v + 0x8000) % 0x1_0000 - 0x8000
  }

  /** A `uint32_t` value converted to `int`: two's complement, as the ARM compilers do. */
  function SignedOf(v: UInt32): (r: int)
    ensures -0x8000_0000 <= r < 0x8000_0000
    ensures (r - v) % 0x1_0000_0000 == 0
  {
    if v < 0x8000_0000 then v else v - 0x1_0000_0000
  }

  /** Byte offset of pixel (cx, cy) in the frame buffer. */
  function Offset(cx: int, cy: int): int
  {
    cy * XREZ + cx
  }

  /** A positive multiple of a positive number is at least that number. */
  lemma MulAtLeast(a: int, d: int)
    requires a >= 1 && d > 0
    ensures a * d >= d
  {
    assert a * d == (a - 1) * d + d;
    assert (a - 1) * d >= 0;
  }

  /** Division with a remainder in range determines quotient and remainder. */
  lemma DivModUnique(n: int, d: int, q: int, r: int)
    requires 0 < d && 0 <= r < d && n == q * d + r
    ensures n / d == q && n % d == r
  {
    var q', r' := n / d, n % d;
    assert n == q' * d + r';
    if q' < q {
      assert (q - q') * d == q * d - q' * d;
      MulAtLeast(q - q', d);
    } else if q' > q {
      assert (q' - q) * d == q' * d - q * d;
      MulAtLeast(q' - q, d);
    }
  }

  /** Multiplication by a non-negative number is monotonic. */
  lemma MulLe(a: int, b: int, c: int)
    requires a <= b && 0 <= c
    ensures a * c <= b * c
  {
    assert b * c - a * c == (b - a) * c;
  }

  /** A strict inequality between multiples of the same positive number holds between the factors. */
  lemma MulCancel(a: int, b: int, c: int)
    requires a * c < b * c && 0 < c
    ensures a < b
  {
    if a >= b {
      MulLe(b, a, c);
    }
  }

  /** An int16 shifted right by 4 (arithmetic shift): the floor of a sixteenth, the integer part of a 12.4 value. */
  function Shr4(v: Int16): (r: Int16)
    ensures -0x800 <= r < 0x800
    ensures r * 16 <= v < r * 16 + 16
  {
    DivModUnique(v, 16, v / 16, v % 16);
    v / 16
  }

  /** Adding to an int16 that has already wrapped wraps like adding to the unwrapped value. */
  lemma WrapAdd(a: int, t: int)
    ensures Wrap16(Wrap16(a) + t) == Wrap16(a + t)
  {
    ModAdd(a + 0x8000, t, 0x1_0000);
  }

  /** One more row of b cells: (a + 1) * b == a * b + b. */
  lemma MulSucc(a: int, b: int)
    ensures (a + 1) * b == a * b + b
  {
  }

  /** A number below n * d has a quotient by d below n. */
  lemma DivBelow(q: int, d: int, n: int)
    requires 0 <= q < n * d && 0 < d
    ensures 0 <= q / d < n
  {
    DivModUnique(q, d, q / d, q % d);
    if q / d >= n {
      MulLe(n, q / d, d);
    }
  }

  /** Every pixel of the screen has its own offset, and the offset gives the pixel back. */
  lemma CellOf(cx: int, cy: int)
    requires 0 <= cx < XREZ
    ensures Offset(cx, cy) % XREZ == cx && Offset(cx, cy) / XREZ == cy
  {
    DivModUnique(Offset(cx, cy), XREZ, cy, cx);
  }

  /** Adding to a value already reduced modulo m does not change the sum modulo m. */
  lemma ModAdd(a: int, b: int, m: int)
    requires 0 < m
    ensures (a % m + b) % m == (a + b) % m
  {
    DivModUnique(a % m + b, m, (a % m + b) / m, (a % m + b) % m);
    var k := a / m;
    assert a == k * m + a % m;
    DivModUnique(a + b, m, k + (a % m + b) / m, (a % m + b) % m);
  }

  /** Row j of h rows of n cells each starts at j * n, ends at (j + 1) * n, and fits in len when h * n does. */
  lemma NextRow(j: int, h: int, n: int, len: int)
    requires 0 <= j < h && 0 <= n && h * n <= len
    ensures (j + 1) * n == j * n + n
    ensures 0 <= j * n && j * n + n <= len
  {
    MulLe(j + 1, h, n);
  }

  /** rows[0], rows[1], .. rows[m - 1], one after another. */
  function Flat(rows: seq<seq<bv8>>, m: nat): seq<bv8>
    requires m <= |rows|
  {
    if m == 0 then [] else Flat(rows, m - 1) + rows[m - 1]
  }

  /** Row i's bytes follow the bytes of rows 0 .. i - 1. */
  lemma {:induction false} FlatAt(rows: seq<seq<bv8>>, m: nat, i: nat, x: int)
    requires i < m <= |rows| && 0 <= x < |rows[i]|
    ensures |Flat(rows, i)| + x < |Flat(rows, m)|
    ensures Flat(rows, m)[|Flat(rows, i)| + x] == rows[i][x]
  {
    var front, last := Flat(rows, m - 1), rows[m - 1];
    var k := |Flat(rows, i)| + x;
    assert Flat(rows, m) == front + last;
    if i < m - 1 {
      FlatAt(rows, m - 1, i, x);
      assert (front + last)[k] == front[k];
    } else {
      assert (front + last)[k] == last[x];
    }
  }

  /** The cells of m rows of w cells each, counted row by row. */
  function Cells(m: nat, w: nat): nat
  {
    if m == 0 then 0 else Cells(m - 1, w) + w
  }

  /** m rows of w cells are m * w cells. */
  lemma {:induction false} CellsIs(m: nat, w: nat)
    ensures Cells(m, w) == m * w
  {
    if m > 0 {
      CellsIs(m - 1, w);
      MulSucc(m - 1, w);
    }
  }

  /** Row i of h rows of w cells ends inside the h * w cells. */
  lemma CellsRoom(i: nat, h: nat, w: nat)
    requires i < h
    ensures Cells(i, w) + w <= h * w
  {
    CellsIs(i + 1, w);
    MulLe(i + 1, h, w);
  }

  /** m rows of at most w bytes flatten to at most m * w bytes, and to exactly that many when every row has w. */
  lemma {:induction false} FlatLength(rows: seq<seq<bv8>>, m: nat, w: nat)
    requires m <= |rows| && forall i | 0 <= i < m :: |rows[i]| <= w
    ensures |Flat(rows, m)| <= Cells(m, w)
    ensures |Flat(rows, m)| == Cells(m, w) <==> forall i | 0 <= i < m :: |rows[i]| == w
  {
    if m > 0 {
      FlatLength(rows, m - 1, w);
      assert |Flat(rows, m)| == |Flat(rows, m - 1)| + |rows[m - 1]|;
      if |Flat(rows, m)| == Cells(m, w) {
        forall i | 0 <= i < m
          ensures |rows[i]| == w
        {
        }
      }
    }
  }
}
