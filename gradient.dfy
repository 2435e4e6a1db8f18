/** The colour table `PngWriter::cutFill` builds for a gradient: one entry per
    value of `i` from 0 below the line count in steps of `step`. The running
    colour starts out white and the entry written is `$fill`, which starts out
    as `''` and is reallocated only when the colour changes, so entries
    before the first non-white colour are the placeholder `''`. */
module Gradients {
  import opened Helper
  import opened Php

  /** An entry of the table: the `''` placeholder or an allocated colour. */
  datatype Fill = Placeholder | Allocated(rgb: Rgb)

  const White := Rgb(255, 255, 255)

  /** `intval(c1 + (c2 - c1) * (i / n))`, or `c1` when the channels agree:
      the exact value `(c1 * n + (c2 - c1) * i) / n` truncated toward zero. */
  function Interpolate(c1: int, c2: int, i: int, n: int): (v: int)
    requires n > 0
    ensures var e := c1 * n + (c2 - c1) * i;
      && (0 <= e ==> v * n <= e < v * n + n)
      && (e < 0 ==> v * n - n < e <= v * n)
    ensures c2 == c1 ==> v == c1
  {
    if c2 - c1 != 0 then TruncDiv(c1 * n + (c2 - c1) * i, n) else c1
  }

  /** The colour interpolated at `i` of `n` lines. */
  function ColorAt(start: Rgb, end: Rgb, i: int, n: int): Rgb
    requires n > 0
  {
    Rgb(Interpolate(start.r, end.r, i, n), Interpolate(start.g, end.g, i, n), Interpolate(start.b, end.b, i, n))
  }

  /** The number of iterations of `for ($i = 0; $i < n; $i += step)`. */
  function EntryCount(n: int, step: int): (c: nat)
    requires n <= 0 || step > 0
    ensures n > 0 ==> (c - 1) * step < n <= c * step
  {
    if n <= 0 then 0
    else
      DivBounds(n + step - 1, step);
      (n + step - 1) / step
  }

  /** Every colour of entries 0..k is white. */
  predicate WhiteThrough(start: Rgb, end: Rgb, n: int, step: int, k: nat)
    requires n > 0
  {
    ColorAt(start, end, k * step, n) == White && (k == 0 || WhiteThrough(start, end, n, step, k - 1))
  }

  /** What entry k of the table holds. */
  function ExpectedFill(start: Rgb, end: Rgb, n: int, step: int, k: nat): Fill
    requires n > 0
  {
    if WhiteThrough(start, end, n, step, k) then Placeholder
    else Allocated(ColorAt(start, end, k * step, n))
  }

  /** The whole table for `n` lines and the given step. */
  function GradientTable(start: Rgb, end: Rgb, n: int, step: int): seq<Fill>
    requires n <= 0 || step > 0
  {
    seq(EntryCount(n, step), k requires 0 <= k < EntryCount(n, step) => ExpectedFill(start, end, n, step, k))
  }

  /** The loop's step: the entry after k keeps the allocated colour when the
      colour does not change, and otherwise allocates the new colour. */
  lemma ExpectedFillStep(start: Rgb, end: Rgb, n: int, step: int, k: nat)
    requires n > 0
    ensures var prev := ColorAt(start, end, k * step, n);
            var next := ColorAt(start, end, (k + 1) * step, n);
      ExpectedFill(start, end, n, step, k + 1)
        == if prev != next then Allocated(next) else ExpectedFill(start, end, n, step, k)
  {
    var prev := ColorAt(start, end, k * step, n);
    var next := ColorAt(start, end, (k + 1) * step, n);
    assert WhiteThrough(start, end, n, step, k + 1) <==> next == White && WhiteThrough(start, end, n, step, k);
    assert WhiteThrough(start, end, n, step, k) ==> prev == White;
  }

  /** Under rounding the table is built over `inner_height = block_size *
      block_count` lines with step `block_size`: one entry per row. */
  lemma EntryCountPerRow(blockSize: int, blockCount: int)
    requires blockSize >= 1 && blockCount >= 1
    ensures EntryCount(blockSize * blockCount, blockSize) == blockCount
  {
    var n := blockSize * blockCount;
    var c := EntryCount(n, blockSize);
    assert (c - 1) * blockSize < blockCount * blockSize <= c * blockSize;
    if c < blockCount {
      MulMonotone(c, blockCount - 1, blockSize);
      assert false;
    } else if c > blockCount {
      MulMonotone(blockCount, c - 1, blockSize);
      assert false;
    }
  }

  lemma MulMonotone(a: int, b: int, n: int)
    requires a <= b && n >= 0
    ensures a * n <= b * n
  {
    assert b * n - a * n == (b - a) * n;
  }

  /** The interpolated numerator is a weighted sum of the two channels. */
  lemma Weighted(c1: int, c2: int, i: int, n: int)
    ensures c1 * n + (c2 - c1) * i == c1 * (n - i) + c2 * i
  {
    assert (c2 - c1) * i == c2 * i - c1 * i;
    assert c1 * (n - i) == c1 * n - c1 * i;
  }

  lemma MulNonNegative(a: int, b: int)
    requires a >= 0 && b >= 0
    ensures a * b >= 0
  {
  }

  /** With non-negative channels `intval` is the floor, so Euclidean
      division gives the same value. */
  lemma InterpolateIsFloor(c1: int, c2: int, i: int, n: int)
    requires n > 0 && c1 >= 0 && c2 >= 0 && 0 <= i <= n
    ensures Interpolate(c1, c2, i, n) == (c1 * n + (c2 - c1) * i) / n
  {
    if c2 - c1 != 0 {
      Weighted(c1, c2, i, n);
      MulNonNegative(c1, n - i);
      MulNonNegative(c2, i);
    } else {
      DivBounds(c1 * n, n);
      QuotientUnique(c1 * n, n, c1);
    }
  }

  /** The only q with q * n <= a < q * n + n is the floor. */
  lemma QuotientUnique(a: int, n: int, q: int)
    requires n > 0 && a >= 0 && q * n <= a < q * n + n
    ensures a / n == q
  {
    DivBounds(a, n);
    var d := a / n;
    if d < q {
      MulMonotone(d + 1, q, n);
      assert false;
    } else if d > q {
      MulMonotone(q + 1, d, n);
      assert false;
    }
  }

  /** A truncated quotient of a value between lo * n and hi * n lies
      between lo and hi. */
  lemma QuotientBetween(a: int, n: int, lo: int, hi: int)
    requires n > 0 && lo * n <= a <= hi * n
    ensures lo <= TruncDiv(a, n) <= hi
  {
    var q := TruncDiv(a, n);
    if q < lo {
      if a >= 0 {
        MulMonotone(q + 1, lo, n);
      } else {
        MulMonotone(q, lo - 1, n);
      }
      assert false;
    }
    if q > hi {
      MulMonotone(hi + 1, q, n);
      assert false;
    }
  }

  lemma WeightedBetween(c1: int, c2: int, i: int, n: int, lo: int, hi: int)
    requires 0 <= i <= n
    requires lo <= c1 <= hi && lo <= c2 <= hi
    ensures lo * n <= c1 * (n - i) + c2 * i <= hi * n
  {
    MulMonotone(lo, c1, n - i);
    MulMonotone(lo, c2, i);
    MulMonotone(c1, hi, n - i);
    MulMonotone(c2, hi, i);
    assert lo * (n - i) + lo * i == lo * n;
    assert hi * (n - i) + hi * i == hi * n;
  }

  /** Every channel lies between the start and the end channel. */
  lemma InterpolateBetween(c1: int, c2: int, i: int, n: int)
    requires n > 0 && 0 <= i <= n
    ensures var v := Interpolate(c1, c2, i, n);
      (c1 <= c2 ==> c1 <= v <= c2) && (c2 <= c1 ==> c2 <= v <= c1)
  {
    if c2 - c1 != 0 {
      var lo := if c1 <= c2 then c1 else c2;
      var hi := if c1 <= c2 then c2 else c1;
      Weighted(c1, c2, i, n);
      WeightedBetween(c1, c2, i, n, lo, hi);
      QuotientBetween(c1 * n + (c2 - c1) * i, n, lo, hi);
    }
  }

  /** Entry 0 is the start colour, or the placeholder when the start colour
      is white. */
  lemma FirstEntry(start: Rgb, end: Rgb, n: int, step: int)
    requires n > 0
    ensures ExpectedFill(start, end, n, step, 0) == if start == White then Placeholder else Allocated(start)
  {
    assert ColorAt(start, end, 0, n) == start by {
      StartColor(start.r, end.r, n);
      StartColor(start.g, end.g, n);
      StartColor(start.b, end.b, n);
    }
  }

  lemma StartColor(c1: int, c2: int, n: int)
    requires n > 0
    ensures Interpolate(c1, c2, 0, n) == c1
  {
    if c2 - c1 != 0 {
      assert c1 * n + (c2 - c1) * 0 == c1 * n;
      QuotientBetween(c1 * n, n, c1, c1);
    }
  }

  /** Once a colour has been allocated the placeholder never comes back: the
      placeholders form a prefix of the table. */
  lemma {:induction false} PlaceholdersArePrefix(start: Rgb, end: Rgb, n: int, step: int, j: nat, k: nat)
    requires n > 0 && j <= k
    requires ExpectedFill(start, end, n, step, k) == Placeholder
    ensures ExpectedFill(start, end, n, step, j) == Placeholder
    decreases k
  {
    if j < k {
      PlaceholdersArePrefix(start, end, n, step, j, k - 1);
    }
  }

  /** A start colour other than white leaves no placeholder in the table. */
  lemma {:induction false} NoPlaceholderUnlessWhiteStart(start: Rgb, end: Rgb, n: int, step: int, k: nat)
    requires n > 0 && start != White
    ensures ExpectedFill(start, end, n, step, k).Allocated?
    decreases k
  {
    if k == 0 {
      FirstEntry(start, end, n, step);
    } else {
      NoPlaceholderUnlessWhiteStart(start, end, n, step, k - 1);
    }
  }

  /** Entries inside the table hold colours whose channels lie between the
      channels of the two ends. */
  lemma EntryBetween(start: Rgb, end: Rgb, n: int, step: int, k: nat)
    requires n > 0 && step > 0 && k < EntryCount(n, step)
    requires ExpectedFill(start, end, n, step, k).Allocated?
    ensures var c := ExpectedFill(start, end, n, step, k).rgb;
      && (start.r <= end.r ==> start.r <= c.r <= end.r) && (end.r <= start.r ==> end.r <= c.r <= start.r)
      && (start.g <= end.g ==> start.g <= c.g <= end.g) && (end.g <= start.g ==> end.g <= c.g <= start.g)
      && (start.b <= end.b ==> start.b <= c.b <= end.b) && (end.b <= start.b ==> end.b <= c.b <= start.b)
  {
    var i := k * step;
    assert 0 <= i < n by {
      MulMonotone(k, EntryCount(n, step) - 1, step);
    }
    InterpolateBetween(start.r, end.r, i, n);
    InterpolateBetween(start.g, end.g, i, n);
    InterpolateBetween(start.b, end.b, i, n);
  }
}
