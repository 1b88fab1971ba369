/** How a range of `total` rows is cut into `count` blocks whose sizes differ by at most one. */
module Blocks {

  function BlockSize(total: int, count: int, i: int): int
    requires count >= 1
  {
    if i < total % count then total / count + 1 else total / count
  }

  function BlockStart(total: int, count: int, i: int): int
    requires count >= 1
  {
    if i < total % count then (total / count + 1) * i
    else (total / count + 1) * (total % count) + (total / count) * (i - total % count)
  }

  /** The larger blocks come first, and they are larger by one. */
  lemma NearEqual(total: int, count: int, i: int, j: int)
    requires count >= 1 && 0 <= i <= j < count
    ensures BlockSize(total, count, j) <= BlockSize(total, count, i) <= BlockSize(total, count, j) + 1
  {
  }

  lemma StartStep(q: int, rem: int, i: int)
    ensures (q + 1) * (i + 1) == (q + 1) * i + (q + 1) && q * (i + 1 - rem) == q * (i - rem) + q
    ensures (q + 1) * rem == (q + 1) * (rem - 1) + (q + 1) && q * 0 == 0
  {
  }

  lemma StartNext(total: int, count: int, i: int)
    requires count >= 1 && total >= 0 && 0 <= i
    ensures BlockSize(total, count, i) >= 0
    ensures BlockStart(total, count, i + 1) == BlockStart(total, count, i) + BlockSize(total, count, i)
  {
    var q, rem := total / count, total % count;
    QuotientIs(total, count, q);
    if q < 0 { MulCompare(q, -1, count); }
    StartStep(q, rem, i);
  }

  /** The blocks start at 0, end at total, and come one after the other. */
  lemma StartEnds(total: int, count: int)
    requires count >= 1 && total >= 0
    ensures BlockStart(total, count, 0) == 0 && BlockStart(total, count, count) == total
  {
    var q, rem := total / count, total % count;
    assert (q + 1) * rem + q * (count - rem) == q * count + rem;
    assert q * 0 == 0 && (q + 1) * 0 == 0;
  }

  lemma {:induction false} StartMonotone(total: int, count: int, i: int, j: int)
    requires count >= 1 && total >= 0 && 0 <= i <= j
    ensures BlockStart(total, count, i) <= BlockStart(total, count, j)
    decreases j - i
  {
    if i < j {
      StartNext(total, count, j - 1);
      StartMonotone(total, count, i, j - 1);
    }
  }

  /** Every index below total lies in exactly one block. */
  lemma {:induction false} FindBlock(total: int, count: int, x: int, upTo: int) returns (i: int)
    requires count >= 1 && total >= 0 && 0 <= upTo <= count
    requires 0 <= x < BlockStart(total, count, upTo)
    ensures 0 <= i < upTo
    ensures BlockStart(total, count, i) <= x < BlockStart(total, count, i + 1)
    decreases upTo
  {
    StartEnds(total, count);
    if upTo > 0 {
      StartNext(total, count, upTo - 1);
      if x < BlockStart(total, count, upTo - 1) {
        i := FindBlock(total, count, x, upTo - 1);
      } else {
        i := upTo - 1;
      }
    }
  }

  function Max(x: int, y: int): int { if x < y then y else x }

  lemma Distribute(x: int, y: int, z: int)
    ensures (x + y) * z == x * z + y * z
  {
  }

  lemma MulGrows(d: int, n: int)
    requires d >= 1 && n >= 0
    ensures d * n >= n
  {
  }

  /** Row-major flat indices of an n-column matrix determine row and column. */
  lemma SameCell(n: int, r: int, c: int, r': int, c': int)
    requires 0 <= c < n && 0 <= c' < n && r * n + c == r' * n + c'
    ensures r == r' && c == c'
  {
    Distribute(r, r' - r, n);
    Distribute(r', r - r', n);
    if r < r' { MulGrows(r' - r, n); }
    if r' < r { MulGrows(r - r', n); }
  }

  lemma MulCompare(a: int, b: int, n: int)
    requires n > 0
    ensures a * n <= b * n <==> a <= b
  {
    Distribute(a, b - a, n);
    if a < b { MulGrows(b - a, n); }
    if b < a { Distribute(b, a - b, n); MulGrows(a - b, n); }
  }

  /** k / d == q exactly when k lies in the q-th stretch of d numbers. */
  lemma QuotientIs(k: int, d: int, q: int)
    requires d > 0
    ensures k / d == q <==> q * d <= k < q * d + d
  {
    var e := k / d;
    Distribute(q, e - q, d);
    if e > q { MulGrows(e - q, d); }
    if e < q { Distribute(e, q - e, d); MulGrows(q - e, d); }
  }

  lemma Commute(a: int, b: int)
    ensures a * b == b * a
  {
  }

  lemma Reassociate(a: int, b: int, c: int)
    ensures (a * b) * c == a * (b * c)
  {
  }
}
