/** Types and arithmetic facts shared by the modules of the frame pipeline. */
module Common {

  /** An 8-bit sample read as unsigned: the Java code reads every byte as
      `0xff & b`, the native code uses `uint8_t`. */
  type Byte = b: int | 0 <= b < 256

  /** A value or its absence (a Java `null`, a failed native call). */
  datatype Option<T> = None | Some(value: T)

  /** Multiplication by a non-negative factor keeps the order. */
  lemma MulLeftMonotone(a: int, b: int, c: int)
    requires a <= b && c >= 0
    ensures a * c <= b * c
  {
    assert b * c - a * c == (b - a) * c;
  }

  /** In a row-major layout with `w` columns, index `j * w + i` has row `j`
      and column `i`. */
  lemma RowMajorDivMod(i: int, j: int, w: int)
    requires w > 0 && 0 <= i < w && 0 <= j
    ensures (j * w + i) / w == j && (j * w + i) % w == i
  {
    var x := j * w + i;
    var q, r := x / w, x % w;
    assert x == q * w + r;
    if q > j {
      MulLeftMonotone(j + 1, q, w);
      assert false;
    } else if q < j {
      MulLeftMonotone(q + 1, j, w);
      assert false;
    }
  }

  /** A pixel index inside a `w` by `h` frame lies in a row below `h`. */
  lemma RowBelowHeight(p: int, w: int, h: int)
    requires w > 0 && 0 <= p < w * h
    ensures 0 <= p / w < h && 0 <= p % w < w
  {
    if p / w >= h {
      MulLeftMonotone(h, p / w, w);
      assert false;
    }
  }
}
