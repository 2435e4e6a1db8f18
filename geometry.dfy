/** The arithmetic half of `QrCode::getData`: block size, inner and outer
    sizes and the horizontal margins derived from the module count, the target
    size and the margin. */
module Geometry {

  datatype Geometry = Geometry(
    blockCount: int,
    blockSize: int,
    innerWidth: int,
    innerHeight: int,
    outerWidth: int,
    outerHeight: int,
    marginLeft: int,
    marginRight: int)

  /** `getData` with `roundBlockSize` set: the block size and the left margin
      are floored (`intval(floor(..))`; Dafny's `/` by a positive divisor is
      the floor), the right margin takes the remainder. */
  function Derive(size: int, margin: int, blockCount: int): (g: Geometry)
    requires blockCount > 0
    ensures g.blockCount == blockCount
    ensures g.blockSize * blockCount <= size < (g.blockSize + 1) * blockCount
    ensures g.innerWidth == g.innerHeight == g.blockSize * blockCount
    ensures g.outerWidth == g.outerHeight == size + 2 * margin
    ensures 2 * g.marginLeft <= g.outerWidth - g.innerWidth < 2 * g.marginLeft + 2
    ensures g.marginLeft + g.innerWidth + g.marginRight == g.outerWidth
    ensures 0 <= g.marginRight - g.marginLeft <= 1
  {
    var blockSize := size / blockCount;
    var inner := blockSize * blockCount;
    var outer := size + 2 * margin;
    var marginLeft := (outer - inner) / 2;
    Geometry(blockCount, blockSize, inner, inner, outer, outer, marginLeft, outer - inner - marginLeft)
  }

  /** With a non-negative size the symbol fits inside `size`, the unused
      width is less than one pixel per module (`size - inner < blockCount`),
      and both margins are at least the requested margin. */
  lemma DeriveFits(size: int, margin: int, blockCount: int)
    requires blockCount > 0 && size >= 0
    ensures var g := Derive(size, margin, blockCount);
      && 0 <= g.blockSize
      && 0 <= size - g.innerWidth < blockCount
      && g.marginLeft >= margin
      && g.marginRight >= margin
  {
    var g := Derive(size, margin, blockCount);
    assert g.blockSize >= 0 by {
      if g.blockSize < 0 {
        MulNonPositive(g.blockSize + 1, blockCount);
        assert false;
      }
    }
    assert size - g.innerWidth < blockCount by {
      assert size < g.blockSize * blockCount + blockCount;
    }
  }

  lemma MulNonPositive(a: int, b: int)
    requires a <= 0 && b > 0
    ensures a * b <= 0
  {
  }

  /** Placing the inner image at `(marginLeft, marginLeft)` reuses the left
      margin as the top offset. Since the outer image is square and so is the
      inner one, the bottom band is then exactly as wide as the right band. */
  lemma TopOffsetReuseIsSymmetric(size: int, margin: int, blockCount: int)
    requires blockCount > 0
    ensures var g := Derive(size, margin, blockCount);
      g.outerHeight - (g.marginLeft + g.innerHeight) == g.marginRight
  {
  }

  /** The same derivation without rounding, in exact arithmetic: the block
      size is a fraction, the inner size is exactly `size` and both margins
      equal the requested margin. */
  datatype ExactGeometry = ExactGeometry(
    blockSize: real,
    inner: real,
    outer: real,
    marginLeft: real,
    marginRight: real)

  function DeriveExact(size: int, margin: int, blockCount: int): (g: ExactGeometry)
    requires blockCount > 0
    ensures g.blockSize * blockCount as real == size as real
    ensures g.inner == size as real
    ensures g.marginLeft == g.marginRight == margin as real
  {
    var blockSize := size as real / blockCount as real;
    var inner := blockSize * blockCount as real;
    var outer := (size + 2 * margin) as real;
    var marginLeft := (outer - inner) / 2.0;
    ExactGeometry(blockSize, inner, outer, marginLeft, outer - inner - marginLeft)
  }
}
