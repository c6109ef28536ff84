/** The per-variant calibration constants and the affine calibration that
    turns forward and reverse network outputs into the two reported scores. */
module Calibration {

  /** The four constants of one model variant. */
  datatype Config = Config(detrendInt: real, detrendSlope: real, normalMean: real, normalStd: real)

  /** The constants of the original model (DNAcycP). */
  const OriginalConfig: Config :=
    Config(0.029905550181865692, 0.973293125629425, -0.18574825868055558, 0.4879013326394626)

  /** The constants of the smoothed model (DNAcycP2). */
  const SmoothConfig: Config :=
    Config(0.001641373848542571, 1.0158132314682007, -0.011196041799376931, 0.651684644408004)

  /** The variant chosen by the `smooth` flag; both variants have a positive
      slope and a positive standard deviation. */
  function ConfigFor(smooth: bool): (cfg: Config)
    ensures cfg.detrendSlope > 0.0 && cfg.normalStd > 0.0
  {
    if smooth then SmoothConfig else OriginalConfig
  }

  /** `detrend_int + (f + r) * detrend_slope / 2`, the "norm" score. */
  function Detrend(cfg: Config, forward: real, reverse: real): real {
    cfg.detrendInt + (forward + reverse) * cfg.detrendSlope / 2.0
  }

  /** `x * normal_std + normal_mean`, the "unnorm" score. */
  function Unnormalize(cfg: Config, x: real): real {
    x * cfg.normalStd + cfg.normalMean
  }

  /** The elementwise detrend of two aligned score batches. */
  function Normalized(cfg: Config, forward: seq<real>, reverse: seq<real>): (norm: seq<real>)
    requires |forward| == |reverse|
    ensures |norm| == |forward|
  {
    seq(|forward|, k requires 0 <= k < |forward| => Detrend(cfg, forward[k], reverse[k]))
  }

  /** The elementwise rescaling of a batch of norm scores. */
  function Unnormalized(cfg: Config, norm: seq<real>): (unnorm: seq<real>)
    ensures |unnorm| == |norm|
  {
    seq(|norm|, k requires 0 <= k < |norm| => Unnormalize(cfg, norm[k]))
  }

  /** The detrended score depends on the two strands only through their sum. */
  lemma DetrendStrandSymmetric(cfg: Config, forward: real, reverse: real)
    ensures Detrend(cfg, forward, reverse) == Detrend(cfg, reverse, forward)
    ensures Detrend(cfg, forward, reverse) == Detrend(cfg, (forward + reverse) / 2.0, (forward + reverse) / 2.0)
  {
  }

  /** With a positive slope (both variants) the norm score orders windows as
      the mean of their two strand outputs does, and the unnorm score orders
      them as the norm score does. */
  lemma CalibrationMonotone(smooth: bool, f1: real, r1: real, f2: real, r2: real)
    ensures f1 + r1 <= f2 + r2 <==>
      Detrend(ConfigFor(smooth), f1, r1) <= Detrend(ConfigFor(smooth), f2, r2)
    ensures Detrend(ConfigFor(smooth), f1, r1) <= Detrend(ConfigFor(smooth), f2, r2) <==>
      Unnormalize(ConfigFor(smooth), Detrend(ConfigFor(smooth), f1, r1))
        <= Unnormalize(ConfigFor(smooth), Detrend(ConfigFor(smooth), f2, r2))
  {
    var cfg := ConfigFor(smooth);
    var d1, d2 := Detrend(cfg, f1, r1), Detrend(cfg, f2, r2);
    assert d2 - d1 == ((f2 + r2) - (f1 + r1)) * (cfg.detrendSlope / 2.0);
    ScaleSign((f2 + r2) - (f1 + r1), cfg.detrendSlope / 2.0);
    assert Unnormalize(cfg, d2) - Unnormalize(cfg, d1) == (d2 - d1) * cfg.normalStd;
    ScaleSign(d2 - d1, cfg.normalStd);
  }

  lemma ScaleSign(x: real, a: real)
    requires a > 0.0
    ensures x >= 0.0 <==> x * a >= 0.0
  {
  }

  /** Both calibration steps can be undone: the norm score gives back the sum
      of the strand outputs, and the unnorm score gives back the norm score. */
  lemma CalibrationInvertible(smooth: bool, forward: real, reverse: real)
    ensures var cfg := ConfigFor(smooth);
      (Detrend(cfg, forward, reverse) - cfg.detrendInt) * 2.0 / cfg.detrendSlope == forward + reverse
    ensures var cfg := ConfigFor(smooth); var norm := Detrend(cfg, forward, reverse);
      (Unnormalize(cfg, norm) - cfg.normalMean) / cfg.normalStd == norm
  {
  }

  /** Calibrating a batch keeps its alignment: score `k` of either output comes
      from outputs `k` of the two strands alone. */
  lemma CalibrationAligned(cfg: Config, forward: seq<real>, reverse: seq<real>, k: nat)
    requires |forward| == |reverse| && k < |forward|
    ensures Normalized(cfg, forward, reverse)[k] == Detrend(cfg, forward[k], reverse[k])
    ensures Unnormalized(cfg, Normalized(cfg, forward, reverse))[k]
      == Unnormalize(cfg, Detrend(cfg, forward[k], reverse[k]))
  {
  }

  /** Calibrating concatenated batches is concatenating their calibrations, so
      the pieces of a split batch can be calibrated apart or together. */
  lemma CalibrationAppend(cfg: Config, f1: seq<real>, r1: seq<real>, f2: seq<real>, r2: seq<real>)
    requires |f1| == |r1| && |f2| == |r2|
    ensures Normalized(cfg, f1 + f2, r1 + r2) == Normalized(cfg, f1, r1) + Normalized(cfg, f2, r2)
    ensures Unnormalized(cfg, Normalized(cfg, f1 + f2, r1 + r2))
      == Unnormalized(cfg, Normalized(cfg, f1, r1)) + Unnormalized(cfg, Normalized(cfg, f2, r2))
  {
  }
}
