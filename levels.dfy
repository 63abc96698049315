/** The per-channel step quantizers `Math.round(v / k) * k` of the
    conversion pipelines (k = 16 and k = 4), stored into a byte: the
    rounded multiple of `k`, where the top step `256` saturates to 255. */
module Levels {
  import opened Pixels

  function Level(v: byte, k: nat): byte
    requires k > 0
  {
    ClampInt(RoundDiv(v, k) * k)
  }

  /** The product `q * k` is a multiple of `k`. */
  lemma MultipleMod(q: int, k: int)
    requires k > 0
    ensures (q * k) % k == 0
  {
    var m := (q * k) % k;
    var d := (q * k) / k;
    assert q * k == d * k + m && 0 <= m < k;
    assert (q - d) * k == m;
    if q - d > 0 {
      MulLe(1, q - d, k);
    } else if q - d < 0 {
      MulLe(q - d, -1, k);
    }
  }

  /** A level is a multiple of `k` or the saturated 255, and lies within
      half a step of the input. */
  lemma LevelFacts(v: byte, k: nat)
    requires k > 0
    ensures Level(v, k) % k == 0 || Level(v, k) == 255
    ensures 2 * Abs(Level(v, k) - v) <= k
  {
    var q := RoundDiv(v, k);
    assert k * (2 * q - 1) == 2 * (q * k) - k;
    assert k * (2 * q + 1) == 2 * (q * k) + k;
    MultipleMod(q, k);
  }

  /** With sixteen-wide steps the values are 0, 16, ..., 240 and 255. */
  lemma Level16Values(v: byte)
    ensures Level(v, 16) == 255 || (Level(v, 16) % 16 == 0 && Level(v, 16) <= 240)
  {
    LevelFacts(v, 16);
  }

  /** Quantizing twice is quantizing once. */
  lemma LevelIdempotent(v: byte, k: nat)
    requires k == 4 || k == 16
    ensures Level(Level(v, k), k) == Level(v, k)
  {
    LevelFacts(v, k);
    var l := Level(v, k);
    if l != 255 {
      var m := l / k;
      assert l == m * k;
      assert 2 * l + k == (2 * k) * m + k;
      assert RoundDiv(l, k) == m;
    } else if k == 4 {
      assert RoundDiv(255, 4) == 64;
    } else {
      assert RoundDiv(255, 16) == 16;
    }
  }
}
