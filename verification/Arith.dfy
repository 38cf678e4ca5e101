/** Small facts about products, quotients and remainders. */
module Arith {

  lemma MultipleIsFar(a: int, n: int)
    requires 0 <= n
    ensures 1 <= a ==> n <= a * n
    ensures a <= -1 ==> a * n <= -n
  {
    if 1 <= a {
      assert 0 <= (a - 1) * n;
    } else if a <= -1 {
      assert 0 <= (-1 - a) * n;
    }
  }

  /** Quotient and remainder are determined by the division identity. */
  lemma DivisionUnique(at: int, q: int, length: nat, r: nat)
    requires at == q * length + r && r < length
    ensures at / length == q && at % length == r
  {
    var k := at / length;
    assert k * length + at % length == at;
    assert (k - q) * length == k * length - q * length;
    MultipleIsFar(k - q, length);
  }

  lemma NextIndex(index: nat, count: nat)
    requires index < count
    ensures (index + 1) % count == if index + 1 == count then 0 else index + 1
  {
  }

  /** A cell of a row-major table lies inside it. */
  lemma RowMajor(row: nat, rows: nat, column: nat, width: nat)
    requires row < rows && column < width
    ensures 0 <= row * width + column < rows * width
  {
    assert 0 <= row * width;
    assert (rows - row) * width == rows * width - row * width;
    MultipleIsFar(rows - row, width);
  }

  lemma ProductTooLarge(left: nat, right: nat, limit: nat)
    requires left != 0 && right > limit / left
    ensures left * right > limit
  {
    MultipleIsFar(right - limit / left, left);
    assert (right - limit / left) * left == right * left - limit / left * left;
  }

  lemma ProductFits(left: nat, right: nat, limit: nat)
    requires left != 0 ==> right <= limit / left
    ensures 0 <= left * right <= limit
  {
    if left != 0 {
      assert 0 <= (limit / left - right) * left == limit / left * left - right * left;
    }
  }

  lemma ProductBound(a: nat, b: nat, most: nat, times: nat)
    requires a <= most && b <= times
    ensures 0 <= a * b <= most * times
  {
    assert 0 <= (most - a) * b == most * b - a * b;
    assert 0 <= most * (times - b) == most * times - most * b;
  }

  lemma NextRow(stride: nat, y: nat, height: nat)
    requires y < height
    ensures 0 <= stride * y && stride * (y + 1) == stride * y + stride && stride * y + stride <= stride * height
  {
    ProductBound(stride, y + 1, stride, height);
  }
}
