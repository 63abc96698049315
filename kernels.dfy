/** 3x3 convolution as the sharpen, blur and gradient passes compute it:
    `sum += sample(x + kx, y + ky) * kernel[ky + 1][kx + 1]` for `ky` in
    -1..1 (outer) and `kx` in -1..1 (inner).  The nine kernel entries are
    kept row by row in a sequence, so entry `i` weighs the sample at offset
    `(i % 3 - 1, i / 3 - 1)`. */
module Kernels {

  /** The first `n` terms of the integer convolution sum. */
  function ConvInt(sample: (int, int) -> int, x: int, y: int, k: seq<int>, n: nat): int
    requires |k| == 9 && n <= 9
  {
    if n == 0 then 0
    else ConvInt(sample, x, y, k, n - 1) + sample(x + (n - 1) % 3 - 1, y + (n - 1) / 3 - 1) * k[n - 1]
  }

  /** The first `n` terms of the convolution sum with a fractional kernel. */
  function ConvReal(sample: (int, int) -> int, x: int, y: int, k: seq<real>, n: nat): real
    requires |k| == 9 && n <= 9
  {
    if n == 0 then 0.0
    else ConvReal(sample, x, y, k, n - 1)
         + sample(x + (n - 1) % 3 - 1, y + (n - 1) / 3 - 1) as real * k[n - 1]
  }

  /** All nine terms of the sum. */
  lemma ConvIntTerms(s: (int, int) -> int, x: int, y: int, k: seq<int>)
    requires |k| == 9
    ensures ConvInt(s, x, y, k, 9)
         == s(x - 1, y - 1) * k[0] + s(x, y - 1) * k[1] + s(x + 1, y - 1) * k[2]
            + s(x - 1, y) * k[3] + s(x, y) * k[4] + s(x + 1, y) * k[5]
            + s(x - 1, y + 1) * k[6] + s(x, y + 1) * k[7] + s(x + 1, y + 1) * k[8]
  {
    assert ConvInt(s, x, y, k, 1) == ConvInt(s, x, y, k, 0) + s(x - 1, y - 1) * k[0];
    assert ConvInt(s, x, y, k, 2) == ConvInt(s, x, y, k, 1) + s(x, y - 1) * k[1];
    assert ConvInt(s, x, y, k, 3) == ConvInt(s, x, y, k, 2) + s(x + 1, y - 1) * k[2];
    assert ConvInt(s, x, y, k, 4) == ConvInt(s, x, y, k, 3) + s(x - 1, y) * k[3];
    assert ConvInt(s, x, y, k, 5) == ConvInt(s, x, y, k, 4) + s(x, y) * k[4];
    assert ConvInt(s, x, y, k, 6) == ConvInt(s, x, y, k, 5) + s(x + 1, y) * k[5];
    assert ConvInt(s, x, y, k, 7) == ConvInt(s, x, y, k, 6) + s(x - 1, y + 1) * k[6];
    assert ConvInt(s, x, y, k, 8) == ConvInt(s, x, y, k, 7) + s(x, y + 1) * k[7];
    assert ConvInt(s, x, y, k, 9) == ConvInt(s, x, y, k, 8) + s(x + 1, y + 1) * k[8];
  }

  /** All nine terms of the sum. */
  lemma ConvRealTerms(s: (int, int) -> int, x: int, y: int, k: seq<real>)
    requires |k| == 9
    ensures ConvReal(s, x, y, k, 9)
         == s(x - 1, y - 1) as real * k[0] + s(x, y - 1) as real * k[1] + s(x + 1, y - 1) as real * k[2]
            + s(x - 1, y) as real * k[3] + s(x, y) as real * k[4] + s(x + 1, y) as real * k[5]
            + s(x - 1, y + 1) as real * k[6] + s(x, y + 1) as real * k[7] + s(x + 1, y + 1) as real * k[8]
  {
    assert ConvReal(s, x, y, k, 1) == ConvReal(s, x, y, k, 0) + s(x - 1, y - 1) as real * k[0];
    assert ConvReal(s, x, y, k, 2) == ConvReal(s, x, y, k, 1) + s(x, y - 1) as real * k[1];
    assert ConvReal(s, x, y, k, 3) == ConvReal(s, x, y, k, 2) + s(x + 1, y - 1) as real * k[2];
    assert ConvReal(s, x, y, k, 4) == ConvReal(s, x, y, k, 3) + s(x - 1, y) as real * k[3];
    assert ConvReal(s, x, y, k, 5) == ConvReal(s, x, y, k, 4) + s(x, y) as real * k[4];
    assert ConvReal(s, x, y, k, 6) == ConvReal(s, x, y, k, 5) + s(x + 1, y) as real * k[5];
    assert ConvReal(s, x, y, k, 7) == ConvReal(s, x, y, k, 6) + s(x - 1, y + 1) as real * k[6];
    assert ConvReal(s, x, y, k, 8) == ConvReal(s, x, y, k, 7) + s(x, y + 1) as real * k[7];
    assert ConvReal(s, x, y, k, 9) == ConvReal(s, x, y, k, 8) + s(x + 1, y + 1) as real * k[8];
  }

  /** The sum of the eight samples around `(x, y)`. */
  function Ring8(s: (int, int) -> int, x: int, y: int): int
  {
    s(x - 1, y - 1) + s(x, y - 1) + s(x + 1, y - 1) + s(x - 1, y)
    + s(x + 1, y) + s(x - 1, y + 1) + s(x, y + 1) + s(x + 1, y + 1)
  }

  /** The sum of the four side samples around `(x, y)`. */
  function Cross4(s: (int, int) -> int, x: int, y: int): int
  {
    s(x, y - 1) + s(x - 1, y) + s(x + 1, y) + s(x, y + 1)
  }

  /** The "sharpen" kernel: -1 around a centre of 9. */
  const Sharpen: seq<int> := [-1, -1, -1, -1, 9, -1, -1, -1, -1]

  /** The Gaussian kernel, to be divided by 16. */
  const Gauss: seq<int> := [1, 2, 1, 2, 4, 2, 1, 2, 1]

  /** Horizontal and vertical Sobel kernels. */
  const SobelX: seq<int> := [-1, 0, 1, -2, 0, 2, -1, 0, 1]
  const SobelY: seq<int> := [-1, -2, -1, 0, 0, 0, 1, 2, 1]

  /** A kernel that weighs the centre by `centre`, the four side cells by
      `-side` and the corners by 0. */
  function CrossKernel(side: real, centre: real): (k: seq<real>)
    ensures |k| == 9
  {
    [0.0, -side, 0.0, -side, centre, -side, 0.0, -side, 0.0]
  }

  /** The sharpen sum is nine times the centre less its eight neighbours. */
  lemma SharpenSum(s: (int, int) -> int, x: int, y: int)
    ensures ConvInt(s, x, y, Sharpen, 9) == 9 * s(x, y) - Ring8(s, x, y)
  {
    ConvIntTerms(s, x, y, Sharpen);
  }

  /** The Gaussian sum written out. */
  lemma GaussSum(s: (int, int) -> int, x: int, y: int)
    ensures ConvInt(s, x, y, Gauss, 9)
         == 4 * s(x, y) + 2 * Cross4(s, x, y)
            + s(x - 1, y - 1) + s(x + 1, y - 1) + s(x - 1, y + 1) + s(x + 1, y + 1)
  {
    ConvIntTerms(s, x, y, Gauss);
  }

  /** The Sobel sums: right column less left column, bottom row less top row,
      the middle row or column counting twice. */
  lemma SobelSums(s: (int, int) -> int, x: int, y: int)
    ensures ConvInt(s, x, y, SobelX, 9)
         == s(x + 1, y - 1) + 2 * s(x + 1, y) + s(x + 1, y + 1)
            - s(x - 1, y - 1) - 2 * s(x - 1, y) - s(x - 1, y + 1)
    ensures ConvInt(s, x, y, SobelY, 9)
         == s(x - 1, y + 1) + 2 * s(x, y + 1) + s(x + 1, y + 1)
            - s(x - 1, y - 1) - 2 * s(x, y - 1) - s(x + 1, y - 1)
  {
    ConvIntTerms(s, x, y, SobelX);
    ConvIntTerms(s, x, y, SobelY);
  }

  /** `centre * v - side * n`: the value of a cross-shaped kernel over a
      centre sample `v` whose four side samples sum to `n`. */
  function CrossValue(centre: real, v: int, side: real, n: int): real
  {
    centre * v as real - side * n as real
  }

  /** A cross-shaped kernel sums to `centre * c - side * (four sides)`. */
  lemma CrossSum(s: (int, int) -> int, x: int, y: int, side: real, centre: real)
    ensures ConvReal(s, x, y, CrossKernel(side, centre), 9) == CrossValue(centre, s(x, y), side, Cross4(s, x, y))
  {
    ConvRealTerms(s, x, y, CrossKernel(side, centre));
  }
}
