/** Integer and bit helpers shared by the driver model.

    The driver works on `uint8_t` values and on signed `int`s. Dafny's integers are
    unbounded and its `/` is Euclidean, so the two C behaviours that matter here are
    written out: the 8-bit range of a byte, and division that truncates toward zero.
 */
module Bits {

  /** An unsigned 8-bit value: `uint8_t`, and also `char`, which is unsigned on the
      ARM target this driver is built for. */
  type Byte = b: int | 0 <= b < 256

  /** C's `a / 2` on a signed `int`: the quotient is truncated toward zero, so for a
      negative odd `a` it is one more than Dafny's Euclidean `a / 2`. */
  function TruncHalf(a: int): (q: int)
    ensures a >= 0 ==> 0 <= 2 * q <= a <= 2 * q + 1
    ensures a < 0 ==> 2 * q - 1 <= a <= 2 * q <= 0
  {
    if a >= 0 then a / 2 else -((-a) / 2)
  }

  /** The two divisions part ways on negative odd numbers: C gives -5 for -11 / 2. */
  lemma TruncHalfIsNotEuclidean()
    ensures TruncHalf(-11) == -5 && -11 / 2 == -6
    ensures TruncHalf(115) == 57 && TruncHalf(-12) == -6
  {
  }

  function Pow2(n: nat): (p: nat)
    ensures p >= 1
  {
    if n == 0 then 1 else 2 * Pow2(n - 1)
  }

  /** `b >> n` on an unsigned byte. */
  function Shr(b: Byte, n: nat): (r: Byte)
    ensures r <= b
  {
    DivBound(b, Pow2(n));
    b / Pow2(n)
  }

  lemma DivBound(b: nat, p: nat)
    requires p >= 1
    ensures 0 <= b / p <= b
  {
    var q := b / p;
    assert b == p * q + b % p;
    if q > b {
      MulLeq(1, p, q);
      assert false;
    }
  }

  /** `(b >> i) & 1`, as a truth value. */
  predicate Bit(b: Byte, i: nat) {
    Shr(b, i) % 2 == 1
  }

  /** For a positive block size, `d / size == i` exactly when `d` lies in the `i`-th
      block `[i * size, i * size + size)`. Used to locate the source pixel of a scaled
      glyph cell. */
  lemma BlockIndex(d: int, size: int, i: int)
    requires size > 0 && i >= 0
    ensures (i * size <= d < i * size + size) <==> d / size == i
  {
    var q := d / size;
    assert d == size * q + d % size;
    if i * size <= d < i * size + size {
      if q > i {
        MulLeq(i + 1, q, size);
        assert false;
      } else if q < i {
        MulLeq(q + 1, i, size);
        assert false;
      }
    }
  }

  /** `d / size < n` exactly when `d < n * size` (for positive `size`). */
  lemma BlockBound(d: int, size: int, n: int)
    requires size > 0 && n >= 0
    ensures d / size < n <==> d < n * size
  {
    var q := d / size;
    assert d == size * q + d % size;
    if q < n {
      MulLeq(q + 1, n, size);
    } else {
      MulLeq(n, q, size);
    }
  }

  lemma MulLeq(a: int, b: int, c: int)
    requires a <= b && c >= 0
    ensures a * c <= b * c
  {
    assert b * c - a * c == (b - a) * c;
  }

  /** Row-major addressing: entry `c` of row `row` of a table of `h` rows of `stride`
      entries lies inside the table. */
  lemma RowMajor(row: int, h: int, c: int, stride: int)
    requires 0 <= row < h && 0 <= c < stride
    ensures 0 <= row * stride + c < h * stride
  {
    MulLeq(row + 1, h, stride);
    MulLeq(0, row, stride);
  }
}
