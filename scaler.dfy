/** The downscale planner of set_downscale: a decimation stage halving the
    crop size up to three times, then a downsize stage of at most 8x
    driven by a fixed-point ratio and a divider. */
module Scaler {
  import opened Arith

  const MAX_DECIMATION_RATIO: nat := 8
  const MAX_DOWNSIZE_RATIO: nat := 8
  const HVRATIO_CONS: nat := 8192
  const HVRATIO_MAX: nat := 65535
  const HVDIV_CONS: nat := 1024
  const HVDIV_MAX: nat := 1023

  /** `size >> k`: `size` halved `k` times, rounding down each time. */
  function Shr(size: nat, k: nat): nat
  {
    if k == 0 then size else Shr(size / 2, k - 1)
  }

  /** One more halving halves the result once more. */
  lemma {:induction false} ShrStep(size: nat, k: nat)
    ensures Shr(size, k + 1) == Shr(size, k) / 2
  {
    if k > 0 {
      ShrStep(size / 2, k - 1);
    }
  }

  /** The number of halvings the decimation loop of set_downscale makes:
      it halves while the size exceeds eight times the target, so it makes
      none exactly when the size is already within eight times the target. */
  function DecimationOf(size: nat, target: nat): (d: nat)
    ensures d == 0 <==> size <= target * MAX_DOWNSIZE_RATIO
    decreases size
  {
    if target * MAX_DOWNSIZE_RATIO < size then 1 + DecimationOf(size / 2, target) else 0
  }

  /** The decimation is the least number of halvings after which the size
      is at most eight times the target. */
  lemma {:induction false} DecimationMinimal(size: nat, target: nat)
    ensures target * MAX_DOWNSIZE_RATIO >= Shr(size, DecimationOf(size, target))
    ensures forall k :: 0 <= k < DecimationOf(size, target) ==> target * MAX_DOWNSIZE_RATIO < Shr(size, k)
    decreases size
  {
    if target * MAX_DOWNSIZE_RATIO < size {
      DecimationMinimal(size / 2, target);
      forall k | 0 < k < DecimationOf(size, target)
        ensures target * MAX_DOWNSIZE_RATIO < Shr(size, k)
      {
        assert Shr(size, k) == Shr(size / 2, k - 1);
      }
    }
  }

  /** One decimation loop of set_downscale. */
  method Decimate(size: nat, target: nat) returns (dec: nat, post: nat)
    ensures dec == DecimationOf(size, target)
    ensures post == Shr(size, dec)
    ensures post <= target * MAX_DOWNSIZE_RATIO
    ensures forall k :: 0 <= k < dec ==> target * MAX_DOWNSIZE_RATIO < Shr(size, k)
  {
    dec, post := 0, size;
    while target * MAX_DOWNSIZE_RATIO < post
      invariant post == Shr(size, dec)
      invariant DecimationOf(size, target) == dec + DecimationOf(post, target)
      decreases post
    {
      ShrStep(size, dec);
      dec := dec + 1;
      post := post / 2;
    }
    DecimationMinimal(size, target);
  }

  /** When the target is at least 1/64 of the size, three halvings suffice:
      the decimation fits the hardware's 1/2/4/8 choices. */
  lemma DecimationAtMostThree(size: nat, target: nat)
    requires size <= MAX_DECIMATION_RATIO * MAX_DOWNSIZE_RATIO * target
    ensures DecimationOf(size, target) <= 3
  {
    assert Shr(size, 3) == Shr(size / 2, 2) == Shr(size / 2 / 2, 1) == size / 2 / 2 / 2;
    assert Shr(size, 3) <= target * MAX_DOWNSIZE_RATIO;
    DecimationMinimal(size, target);
  }

  /** For a target no larger than the size, the decimated size stays within
      the downsizer's range: at least the target and at most eight times it. */
  lemma {:induction false} PostDecimationRange(size: nat, target: nat)
    requires 1 <= target <= size
    ensures target <= Shr(size, DecimationOf(size, target)) <= MAX_DOWNSIZE_RATIO * target
    decreases size
  {
    DecimationMinimal(size, target);
    if target * MAX_DOWNSIZE_RATIO < size {
      PostDecimationRange(size / 2, target);
    }
  }

  /** A positive size stays positive through decimation towards a positive target. */
  lemma {:induction false} PostDecimationPositive(size: nat, target: nat)
    requires 1 <= size && 1 <= target
    ensures 1 <= Shr(size, DecimationOf(size, target))
    decreases size
  {
    if target * MAX_DOWNSIZE_RATIO < size {
      PostDecimationPositive(size / 2, target);
    }
  }

  /** The HRATIO/VRATIO field: 8192 times the downsize factor, saturated. */
  function DownsizeRatio(post: nat, target: nat): (r: nat)
    requires 1 <= target
    ensures r <= HVRATIO_MAX
  {
    var q := post * HVRATIO_CONS / target;
    if q > HVRATIO_MAX then HVRATIO_MAX else q
  }

  /** The HDIV/VDIV field: 1024 over the downsize factor, saturated. */
  function DownsizeDiv(post: nat, target: nat): (r: nat)
    requires 1 <= post
    ensures r <= HVDIV_MAX
  {
    var q := HVDIV_CONS * target / post;
    if q > HVDIV_MAX then HVDIV_MAX else q
  }

  /** Within the downsizer's range the ratio saturates only at exactly 8x. */
  lemma RatioSaturatesOnlyAtEightfold(post: nat, target: nat)
    requires 1 <= target && post <= MAX_DOWNSIZE_RATIO * target
    ensures post * HVRATIO_CONS / target > HVRATIO_MAX <==> post == MAX_DOWNSIZE_RATIO * target
  {
    if post == MAX_DOWNSIZE_RATIO * target {
      DivAtLeast(post * HVRATIO_CONS, target, HVRATIO_MAX + 1);
    } else {
      DivAtMost(post * HVRATIO_CONS, target, HVRATIO_MAX);
    }
  }

  /** Within the downsizer's range the divider saturates only when there is
      nothing to downsize. */
  lemma DivSaturatesOnlyAtOneToOne(post: nat, target: nat)
    requires 1 <= target <= post
    ensures HVDIV_CONS * target / post > HVDIV_MAX <==> post == target
  {
    if post == target {
      DivAtLeast(HVDIV_CONS * target, post, HVDIV_MAX + 1);
    } else {
      DivAtMost(HVDIV_CONS * target, post, HVDIV_MAX);
    }
  }

  /** Unsaturated fields are the truncated fixed-point factors: the ratio
      and the divider each bracket the exact scale factor. */
  lemma DownsizeFieldsReconstruct(post: nat, target: nat)
    requires 1 <= target < post < MAX_DOWNSIZE_RATIO * target
    ensures var r := DownsizeRatio(post, target);
            r * target <= post * HVRATIO_CONS < (r + 1) * target
    ensures var d := DownsizeDiv(post, target);
            d * post <= HVDIV_CONS * target < (d + 1) * post
  {
    RatioSaturatesOnlyAtEightfold(post, target);
    DivSaturatesOnlyAtOneToOne(post, target);
    var q := post * HVRATIO_CONS / target;
    assert post * HVRATIO_CONS == q * target + post * HVRATIO_CONS % target;
    assert (q + 1) * target == q * target + target;
    var e := HVDIV_CONS * target / post;
    assert HVDIV_CONS * target == e * post + HVDIV_CONS * target % post;
    assert (e + 1) * post == e * post + post;
  }

  /** The decimation and downsize fields set_downscale programs. */
  datatype DownscalePlan = DownscalePlan(hdec: nat, vdec: nat, hratio: nat, vratio: nat, hdiv: nat, vdiv: nat)

  /** The plan set_downscale computes from the crop and compose sizes: each
      decimation brings its crop size within the downsizer's eightfold range
      of the compose size, decimates only when the crop size exceeds that
      range, and the ratio and divider fields fit their 16- and 10-bit
      hardware fields. */
  function PlanDownscale(cropW: nat, cropH: nat, composeW: nat, composeH: nat): (p: DownscalePlan)
    requires 1 <= cropW && 1 <= cropH && 1 <= composeW && 1 <= composeH
    ensures Shr(cropW, p.hdec) <= MAX_DOWNSIZE_RATIO * composeW
    ensures Shr(cropH, p.vdec) <= MAX_DOWNSIZE_RATIO * composeH
    ensures p.hdec == 0 <==> cropW <= MAX_DOWNSIZE_RATIO * composeW
    ensures p.vdec == 0 <==> cropH <= MAX_DOWNSIZE_RATIO * composeH
    ensures p.hratio <= HVRATIO_MAX && p.vratio <= HVRATIO_MAX
    ensures p.hdiv <= HVDIV_MAX && p.vdiv <= HVDIV_MAX
  {
    DecimationMinimal(cropW, composeW);
    DecimationMinimal(cropH, composeH);
    var hdec := DecimationOf(cropW, composeW);
    var vdec := DecimationOf(cropH, composeH);
    PostDecimationPositive(cropW, composeW);
    PostDecimationPositive(cropH, composeH);
    var hpost := Shr(cropW, hdec);
    var vpost := Shr(cropH, vdec);
    DownscalePlan(hdec, vdec,
                  DownsizeRatio(hpost, composeW), DownsizeRatio(vpost, composeH),
                  DownsizeDiv(hpost, composeW), DownsizeDiv(vpost, composeH))
  }

  /** The computing half of set_downscale: both decimation loops, then the
      saturated ratio and divider of what is left. */
  method ComputePlan(cropW: nat, cropH: nat, composeW: nat, composeH: nat) returns (p: DownscalePlan)
    requires 1 <= cropW && 1 <= cropH && 1 <= composeW && 1 <= composeH
    ensures p == PlanDownscale(cropW, cropH, composeW, composeH)
  {
    var hdec, hpost := Decimate(cropW, composeW);
    var vdec, vpost := Decimate(cropH, composeH);
    PostDecimationPositive(cropW, composeW);
    PostDecimationPositive(cropH, composeH);
    var hratio := hpost * HVRATIO_CONS / composeW;
    if hratio > HVRATIO_MAX {
      hratio := HVRATIO_MAX;
    }
    assert hratio == DownsizeRatio(hpost, composeW);
    var vratio := vpost * HVRATIO_CONS / composeH;
    if vratio > HVRATIO_MAX {
      vratio := HVRATIO_MAX;
    }
    assert vratio == DownsizeRatio(vpost, composeH);
    var hdiv := HVDIV_CONS * composeW / hpost;
    if hdiv > HVDIV_MAX {
      hdiv := HVDIV_MAX;
    }
    assert hdiv == DownsizeDiv(hpost, composeW);
    var vdiv := HVDIV_CONS * composeH / vpost;
    if vdiv > HVDIV_MAX {
      vdiv := HVDIV_MAX;
    }
    assert vdiv == DownsizeDiv(vpost, composeH);
    p := DownscalePlan(hdec, vdec, hratio, vratio, hdiv, vdiv);
  }

  /** For a compose between 1/64 of the crop and the crop, every field fits
      its hardware range: decimation in 0..3, ratio in 8192..65535 (1x to
      8x) and divider in 128..1023. */
  lemma PlanWithinHardwareRange(cropW: nat, cropH: nat, composeW: nat, composeH: nat)
    requires 1 <= composeW <= cropW <= MAX_DECIMATION_RATIO * MAX_DOWNSIZE_RATIO * composeW
    requires 1 <= composeH <= cropH <= MAX_DECIMATION_RATIO * MAX_DOWNSIZE_RATIO * composeH
    ensures var p := PlanDownscale(cropW, cropH, composeW, composeH);
            p.hdec <= 3 && p.vdec <= 3
            && HVRATIO_CONS <= p.hratio <= HVRATIO_MAX && HVRATIO_CONS <= p.vratio <= HVRATIO_MAX
            && 128 <= p.hdiv <= HVDIV_MAX && 128 <= p.vdiv <= HVDIV_MAX
  {
    DecimationAtMostThree(cropW, composeW);
    DecimationAtMostThree(cropH, composeH);
    PostDecimationRange(cropW, composeW);
    PostDecimationRange(cropH, composeH);
    FieldRanges(Shr(cropW, DecimationOf(cropW, composeW)), composeW);
    FieldRanges(Shr(cropH, DecimationOf(cropH, composeH)), composeH);
  }

  /** Ratio and divider ranges for a decimated size within the downsizer's range. */
  lemma FieldRanges(post: nat, target: nat)
    requires 1 <= target <= post <= MAX_DOWNSIZE_RATIO * target
    ensures HVRATIO_CONS <= DownsizeRatio(post, target)
    ensures 128 <= DownsizeDiv(post, target)
  {
    DivAtLeast(post * HVRATIO_CONS, target, HVRATIO_CONS);
    DivAtLeast(HVDIV_CONS * target, post, 128);
  }

  /** At 1:1 there is no decimation, the ratio is exactly 8192 and the
      divider saturates to 1023 instead of 1024. */
  lemma PlanIdentity(w: nat, h: nat)
    requires 1 <= w && 1 <= h
    ensures PlanDownscale(w, h, w, h) == DownscalePlan(0, 0, 8192, 8192, 1023, 1023)
  {
    DivExact(w, HVRATIO_CONS);
    DivExact(h, HVRATIO_CONS);
    DivExact(w, HVDIV_CONS);
    DivExact(h, HVDIV_CONS);
  }

  /** An exact 8x downscale (640x480 to 80x60) needs no decimation: the
      downsizer alone does it, with a saturated ratio. */
  lemma PlanEightfoldExample()
    ensures PlanDownscale(640, 480, 80, 60) == DownscalePlan(0, 0, 65535, 65535, 128, 128)
  {
  }
}
