/** The loudness meter of `VoiceScreen.js`'s `tick`: the sum over the
    time-domain byte samples of the squared deviation from the mid-point
    128, and the clamped volume derived from it.

    The source divides each deviation by 128 before squaring, takes the
    mean, a square root and a gain of 3, and clamps with `Math.min(1, …)`.
    Squaring the clamped value removes the root: the model's `Level` is
    `min(1, 9 * sum / (128 * 128 * n))`, the square of the volume the screen
    renders, computed in exact rationals. */
module Meter {
  import opened Bytes

  /** The analyser's FFT size, and the number of samples each read delivers
      (its `frequencyBinCount`, half the FFT size). */
  const FftSize: nat := 256
  const BinCount: nat := FftSize / 2

  const Midpoint: int := 128

  /** A read of the analyser: `BinCount` byte samples. */
  type Window = s: seq<byte> | |s| == BinCount witness seq(BinCount, _ => 128 as byte)

  function Deviation(b: byte): int {
    b as int - Midpoint
  }

  /** The sum of the squared deviations of the samples from the mid-point. */
  function SquaredDeviations(d: seq<byte>): nat {
    if |d| == 0 then 0
    else SquaredDeviations(d[..|d| - 1]) + Deviation(d[|d| - 1]) * Deviation(d[|d| - 1])
  }

  /** The accumulation loop of `tick`, over integers. */
  method DeviationSum(d: seq<byte>) returns (sum: int)
    ensures sum == SquaredDeviations(d)
    ensures 0 <= sum <= Midpoint * Midpoint * |d|
  {
    sum := 0;
    var i := 0;
    while i < |d|
      invariant 0 <= i <= |d|
      invariant sum == SquaredDeviations(d[..i])
      invariant sum <= Midpoint * Midpoint * i
    {
      var v := Deviation(d[i]);
      SquareAtMost(v);
      assert d[..i + 1][..i] == d[..i];
      sum := sum + v * v;
      i := i + 1;
    }
    assert d[..i] == d;
  }

  lemma SquareAtMost(v: int)
    requires -Midpoint <= v <= Midpoint
    ensures v * v <= Midpoint * Midpoint
  {
    if v >= 0 {
      assert v * v <= v * Midpoint;
    } else {
      assert v * v == (-v) * (-v) <= (-v) * Midpoint;
    }
  }

  /** The sum is zero exactly when every sample sits at the mid-point. */
  lemma {:induction false} SilenceIffZero(d: seq<byte>)
    ensures SquaredDeviations(d) == 0 <==> forall i :: 0 <= i < |d| ==> d[i] == 128
  {
    if |d| > 0 {
      var front := d[..|d| - 1];
      SilenceIffZero(front);
      assert forall i :: 0 <= i < |d| - 1 ==> d[i] == front[i];
    }
  }

  /** When every squared deviation is at least `m`, the sum is at least
      `m` per sample. */
  lemma {:induction false} SumAtLeast(d: seq<byte>, m: nat)
    requires forall i :: 0 <= i < |d| ==> Deviation(d[i]) * Deviation(d[i]) >= m
    ensures SquaredDeviations(d) >= m * |d|
  {
    if |d| > 0 {
      var front := d[..|d| - 1];
      assert forall i :: 0 <= i < |front| ==> front[i] == d[i];
      SumAtLeast(front, m);
    }
  }

  /** `Math.min(1, 3 * sqrt(sum / (128 * 128) / n))`, squared. */
  function Level(sum: nat, n: nat): (v: real)
    requires n > 0
    ensures 0.0 <= v <= 1.0
    ensures v == 0.0 <==> sum == 0
    ensures v == 1.0 <==> 9 * sum >= Midpoint * Midpoint * n
  {
    var raw := (9 * sum) as real / (Midpoint * Midpoint * n) as real;
    if raw < 1.0 then raw else 1.0
  }

  /** The level of one read of the analyser. */
  function WindowLevel(w: Window): real {
    Level(SquaredDeviations(w), |w|)
  }

  /** A window with every sample at the mid-point reads as silence. */
  lemma SilenceReadsZero(w: Window)
    requires forall i :: 0 <= i < |w| ==> w[i] == 128
    ensures WindowLevel(w) == 0.0
  {
    SilenceIffZero(w);
  }

  /** A window of saturated samples (each 0 or 255, for instance
      alternating) reads at the clamp. */
  lemma SaturatedReadsOne(w: Window)
    requires forall i :: 0 <= i < |w| ==> w[i] == 0 || w[i] == 255
    ensures WindowLevel(w) == 1.0
  {
    SumAtLeast(w, 127 * 127);
  }
}
