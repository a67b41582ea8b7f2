/** The pixel-processor sub-device: its device record, the try state the
    V4L2 core hands to it, and the pad, selection, frame-interval and
    stream operations that negotiate and program it. */
module PixelProc {
  import opened Kernel
  import opened V4l2
  import opened PixMap
  import opened Geometry
  import opened Scaler
  import opened FrameRate
  import opened Registers
  import opened Stream

  const FMT_WIDTH_DEFAULT: nat := 640
  const FMT_HEIGHT_DEFAULT: nat := 480

  /** fmt_default, with the pad's default code as init_cfg and ent_init
      install it. */
  function DefaultFormat(pad: Pad): (f: Format)
    ensures InTable(f.code, pad) && f.code == DefaultCode(pad)
    ensures f.width == FMT_WIDTH_DEFAULT && f.height == FMT_HEIGHT_DEFAULT && f.field == FieldNone
  {
    Format(DefaultCode(pad), FMT_WIDTH_DEFAULT, FMT_HEIGHT_DEFAULT, FieldNone,
           Colorimetry(COLORSPACE_REC709, XFER_FUNC_DEFAULT, YCBCR_ENC_DEFAULT, QUANTIZATION_DEFAULT))
  }

  /** name_to_pipe_id: pipe 1 for a "main" entity, pipe 2 for an "aux"
      one, -EINVAL otherwise; "main" wins when both occur. */
  function NameToPipeId(name: string): (id: int)
    ensures id == 1 <==> Contains(name, "main")
    ensures id == 2 <==> !Contains(name, "main") && Contains(name, "aux")
    ensures id == -EINVAL <==> !Contains(name, "main") && !Contains(name, "aux")
  {
    if Contains(name, "main") then 1 else if Contains(name, "aux") then 2 else -EINVAL
  }

  /** enum_mbus_code: the code of entry `index` of the pad's table. */
  function EnumMbusCode(pad: Pad, index: nat): (r: Result<MbusCode>)
    ensures r.Err? <==> index >= |Table(pad)|
    ensures r.Err? ==> r.errno == -EINVAL
    ensures r.Ok? ==> r.value == Table(pad)[index].code && InTable(r.value, pad)
  {
    match PixMapByIndex(index, pad)
    case None => Err(-EINVAL)
    case Some(e) =>
      IndexThenCode(index, pad);
      Ok(e.code)
  }

  /** The enumeration lists exactly the codes the pad accepts. */
  lemma EnumMbusCodeListsAccepted(pad: Pad, code: MbusCode)
    ensures InTable(code, pad) <==> exists i: nat :: EnumMbusCode(pad, i) == Ok(code)
  {
    LookupCodeFindsFirst(code, pad);
    if InTable(code, pad) {
      var i :| 0 <= i < |Table(pad)| && Table(pad)[i] == LookupCode(code, pad).value
               && LookupCode(code, pad).value.code == code;
      assert EnumMbusCode(pad, i) == Ok(code);
    }
  }

  /** enum_frame_size: one size range, the frame limits, for a code the pad
      accepts. */
  function EnumFrameSize(pad: Pad, index: nat, code: MbusCode, limits: FrameLimits): (r: Result<FrameLimits>)
    ensures r.Err? <==> index != 0 || !InTable(code, pad)
    ensures r.Err? ==> r.errno == -EINVAL
    ensures r.Ok? ==> r.value == limits
  {
    if index != 0 then Err(-EINVAL)
    else if LookupCode(code, pad).None? then Err(-EINVAL)
    else Ok(limits)
  }

  /** A format whose code and size the enumeration offers is kept by the
      format adjustment: the enumerated range is the accepted one. */
  lemma EnumeratedSizeKept(f: Format, pad: Pad, limits: FrameLimits, colorClamp: Colorimetry -> Colorimetry)
    requires limits.Valid()
    requires EnumFrameSize(pad, 0, f.code, limits).Ok?
    requires limits.minWidth <= f.width <= limits.maxWidth && limits.minHeight <= f.height <= limits.maxHeight
    ensures var r := AdjustFmt(f, pad, limits, colorClamp);
            r.code == f.code && r.width == f.width && r.height == f.height
  {
  }

  /** Setting the active sink format, with the source format it propagates
      and the crop and compose reset to the full frame, keeps the
      configuration consistent. */
  lemma SinkFormatKeepsConfig(s: Snapshot, out: Format)
    requires s.Valid() && 1 <= out.width && 1 <= out.height && InTable(PropagateToSource(out).code, Source)
    ensures s.(sinkFmt := out, srcFmt := PropagateToSource(out),
               crop := Rect(0, 0, out.width, out.height), compose := Rect(0, 0, out.width, out.height)).Valid()
  {
  }

  /** Setting the active source format to one with an accepted code keeps
      the configuration consistent. */
  lemma SourceFormatKeepsConfig(s: Snapshot, out: Format)
    requires s.Valid() && InTable(out.code, Source)
    ensures s.(srcFmt := out).Valid()
  {
  }

  /** The pipe is chosen by where the words occur in the entity name. */
  lemma NameToPipeIdByOccurrence(name: string)
    ensures NameToPipeId(name) == 1 <==> exists i: nat :: OccursAt(name, "main", i)
    ensures NameToPipeId(name) == 2 <==> (forall i: nat :: !OccursAt(name, "main", i)) && exists i: nat :: OccursAt(name, "aux", i)
  {
    ContainsIff(name, "main");
    ContainsIff(name, "aux");
  }

  /** A zero-filled format and rectangle. */
  const ZERO_FORMAT: Format := Format(UnlistedCode(0), 0, 0, FieldAny, Colorimetry(0, 0, 0, 0))
  const ZERO_RECT: Rect := Rect(0, 0, 0, 0)

  /** The try copy of the pad configuration (the sub-device state the V4L2
      core allocates zero-filled for each file handle). */
  class SubdevState {
    var sinkFmt: Format
    var srcFmt: Format
    var sinkCrop: Rect
    var sinkCompose: Rect

    constructor ()
      ensures sinkFmt == ZERO_FORMAT && srcFmt == ZERO_FORMAT
      ensures sinkCrop == ZERO_RECT && sinkCompose == ZERO_RECT
    {
      sinkFmt, srcFmt := ZERO_FORMAT, ZERO_FORMAT;
      sinkCrop, sinkCompose := ZERO_RECT, ZERO_RECT;
    }
  }

  /** Every field of the device record but the register log. */
  datatype Snapshot = Snapshot(sinkFmt: Format, srcFmt: Format, streaming: bool,
                               srcInterval: Fract, sinkInterval: Fract, frate: nat,
                               crop: Rect, compose: Rect)
  {
    /** The invariant of the active configuration: a non-empty sink frame,
        a crop and a compose inside it, a compose within a 64x downscale
        of the crop, a source code the packer knows, and a source interval
        the skip table delivers. */
    predicate Valid()
    {
      1 <= sinkFmt.width && 1 <= sinkFmt.height
      && Inside(crop, CropBound(sinkFmt)) && Inside(compose, CropBound(sinkFmt))
      && 1 <= compose.width <= crop.width <= MAX_DOWNSCALE_RATIO * compose.width
      && 1 <= compose.height <= crop.height <= MAX_DOWNSCALE_RATIO * compose.height
      && InTable(srcFmt.code, Source)
      && Positive(sinkInterval) && frate < |FRATES|
      && srcInterval == SourceInterval(sinkInterval, frate)
    }
  }

  /** struct dcmipp_pixelproc_device. `regLog` records, in order, every
      register operation the driver has issued. */
  class Device {
    const pipeId: nat
    /** DCMIPP_FRAME_MIN/MAX_* of the common header. */
    const limits: FrameLimits
    /** dcmipp_colorimetry_clamp. */
    const colorClamp: Colorimetry -> Colorimetry

    var sinkFmt: Format
    var srcFmt: Format
    var streaming: bool
    var srcInterval: Fract
    var sinkInterval: Fract
    var frate: nat
    var crop: Rect
    var compose: Rect
    var regLog: seq<RegOp>

    /** The device invariant: a known pipe, valid frame limits and a
        consistent active configuration. */
    predicate Valid()
      reads this`sinkFmt, this`srcFmt, this`streaming, this`srcInterval, this`sinkInterval, this`frate, this`crop, this`compose
    {
      (pipeId == 1 || pipeId == 2) && limits.Valid() && State().Valid()
    }

    function State(): Snapshot
      reads this`sinkFmt, this`srcFmt, this`streaming, this`srcInterval, this`sinkInterval, this`frate, this`crop, this`compose
    {
      Snapshot(sinkFmt, srcFmt, streaming, srcInterval, sinkInterval, frate, crop, compose)
    }

    /** The downscale plan of the active crop and compose. */
    function Plan(): DownscalePlan
      reads this`crop, this`compose
      requires 1 <= crop.width && 1 <= crop.height && 1 <= compose.width && 1 <= compose.height
    {
      PlanDownscale(crop.width, crop.height, compose.width, compose.height)
    }

    /** The default state ent_init installs. */
    constructor (pipeId: nat, limits: FrameLimits, colorClamp: Colorimetry -> Colorimetry)
      requires pipeId == 1 || pipeId == 2
      requires limits.Valid()
      ensures Valid()
      ensures this.pipeId == pipeId && this.limits == limits && this.colorClamp == colorClamp
      ensures sinkFmt == DefaultFormat(Sink) && srcFmt == DefaultFormat(Source)
      ensures crop == Rect(0, 0, FMT_WIDTH_DEFAULT, FMT_HEIGHT_DEFAULT) && compose == crop
      ensures sinkInterval == Fract(1, 30) && srcInterval == Fract(1, 30)
      ensures frate == 0 && !streaming && regLog == []
    {
      this.pipeId := pipeId;
      this.limits := limits;
      this.colorClamp := colorClamp;
      sinkFmt := DefaultFormat(Sink);
      srcFmt := DefaultFormat(Source);
      crop := Rect(0, 0, FMT_WIDTH_DEFAULT, FMT_HEIGHT_DEFAULT);
      compose := Rect(0, 0, FMT_WIDTH_DEFAULT, FMT_HEIGHT_DEFAULT);
      sinkInterval := Fract(1, 30);
      srcInterval := Fract(1, 30);
      frate := 0;
      streaming := false;
      regLog := [];
    }

    /** ent_init: -EIO unless the entity name selects a pipe. */
    static method EntInit(name: string, limits: FrameLimits, colorClamp: Colorimetry -> Colorimetry)
      returns (r: Result<Device>)
      requires limits.Valid()
      ensures r.Err? <==> NameToPipeId(name) != 1 && NameToPipeId(name) != 2
      ensures r.Err? ==> r.errno == -EIO
      ensures r.Ok? ==> fresh(r.value) && r.value.Valid() && r.value.pipeId == NameToPipeId(name)
                        && r.value.State() == Snapshot(DefaultFormat(Sink), DefaultFormat(Source), false,
                                                       Fract(1, 30), Fract(1, 30), 0,
                                                       Rect(0, 0, FMT_WIDTH_DEFAULT, FMT_HEIGHT_DEFAULT),
                                                       Rect(0, 0, FMT_WIDTH_DEFAULT, FMT_HEIGHT_DEFAULT))
                        && r.value.regLog == []
    {
      var id := NameToPipeId(name);
      if id != 1 && id != 2 {
        return Err(-EIO);
      }
      var d := new Device(id, limits, colorClamp);
      return Ok(d);
    }

    /** init_cfg: both try formats become the default format with their
        pad's default code. */
    method InitCfg(state: SubdevState)
      modifies state
      ensures state.sinkFmt == DefaultFormat(Sink) && state.srcFmt == DefaultFormat(Source)
      ensures state.sinkCrop == old(state.sinkCrop) && state.sinkCompose == old(state.sinkCompose)
    {
      for i := 0 to 2
        invariant i >= 1 ==> state.sinkFmt == DefaultFormat(Sink)
        invariant i >= 2 ==> state.srcFmt == DefaultFormat(Source)
        invariant state.sinkCrop == old(state.sinkCrop) && state.sinkCompose == old(state.sinkCompose)
      {
        if i == 0 {
          state.sinkFmt := DefaultFormat(Sink);
        } else {
          state.srcFmt := DefaultFormat(Source);
        }
      }
    }

    /** get_fmt: the format of a pad in the addressed copy
        (ActiveFormatsUsable gives what it returns for the active copy). */
    function GetFmt(state: SubdevState, which: Which, pad: Pad): Format
      reads this`sinkFmt, this`srcFmt, state`sinkFmt, state`srcFmt
    {
      if which == Try then (if pad == Sink then state.sinkFmt else state.srcFmt)
      else (if pad == Sink then sinkFmt else srcFmt)
    }

    /** set_fmt. Returns the error code and the format handed back to the
        caller. */
    method SetFmt(state: SubdevState, which: Which, pad: Pad, fmt: Format) returns (ret: int, out: Format)
      requires Valid()
      modifies this`sinkFmt, this`srcFmt, this`crop, this`compose, state`sinkFmt, state`srcFmt
      ensures Valid() && regLog == old(regLog)
      ensures which == Active && old(streaming) ==> ret == -EBUSY && out == fmt && unchanged(this) && unchanged(state)
      ensures !(which == Active && old(streaming)) ==>
                ret == 0 && out == AdjustFmt(fmt, pad, limits, colorClamp) && GetFmt(state, which, pad) == out
      ensures !(which == Active && old(streaming)) && pad == Sink ==> GetFmt(state, which, Source) == PropagateToSource(out)
      ensures !(which == Active && old(streaming)) && pad == Source ==> GetFmt(state, which, Sink) == old(GetFmt(state, which, Sink))
      ensures which == Try ==>
                unchanged(this) && state.sinkCrop == old(state.sinkCrop) && state.sinkCompose == old(state.sinkCompose)
      ensures which == Active && !old(streaming) ==>
                unchanged(state)
                && streaming == old(streaming) && sinkInterval == old(sinkInterval)
                && srcInterval == old(srcInterval) && frate == old(frate)
                && (pad == Sink ==> crop == Rect(0, 0, out.width, out.height) && compose == crop)
                && (pad == Source ==> crop == old(crop) && compose == old(compose))
    {
      if which == Active && streaming {
        return -EBUSY, fmt;
      }
      if pad == Sink {
        out := SetSinkFmt(state, which, fmt);
      } else {
        out := SetSourceFmt(state, which, fmt);
      }
      ret := 0;
    }

    /** The sink-pad half of set_fmt: store the adjusted format, propagate it
        to the source pad and, on the active copy, reset crop and compose to
        the full frame. */
    method SetSinkFmt(state: SubdevState, which: Which, fmt: Format) returns (out: Format)
      requires Valid() && !(which == Active && streaming)
      modifies this`sinkFmt, this`srcFmt, this`crop, this`compose, state`sinkFmt, state`srcFmt
      ensures Valid()
      ensures out == AdjustFmt(fmt, Sink, limits, colorClamp)
      ensures GetFmt(state, which, Sink) == out && GetFmt(state, which, Source) == PropagateToSource(out)
      ensures which == Try ==>
                sinkFmt == old(sinkFmt) && srcFmt == old(srcFmt) && crop == old(crop) && compose == old(compose)
      ensures which == Active ==>
                state.sinkFmt == old(state.sinkFmt) && state.srcFmt == old(state.srcFmt)
                && crop == Rect(0, 0, out.width, out.height) && compose == crop
    {
      out := AdjustFmt(fmt, Sink, limits, colorClamp);
      SinkPropagation(fmt, limits, colorClamp);
      if which == Active {
        ghost var s0 := State();
        SinkFormatKeepsConfig(s0, out);
        srcFmt := PropagateToSource(out);
        sinkFmt := out;
        crop := Rect(0, 0, out.width, out.height);
        compose := Rect(0, 0, out.width, out.height);
        assert State() == s0.(sinkFmt := out, srcFmt := PropagateToSource(out),
                              crop := Rect(0, 0, out.width, out.height), compose := Rect(0, 0, out.width, out.height));
      } else {
        state.srcFmt := PropagateToSource(out);
        state.sinkFmt := out;
      }
    }

    /** The source-pad half of set_fmt: store the adjusted format. */
    method SetSourceFmt(state: SubdevState, which: Which, fmt: Format) returns (out: Format)
      requires Valid() && !(which == Active && streaming)
      modifies this`srcFmt, state`srcFmt
      ensures Valid()
      ensures out == AdjustFmt(fmt, Source, limits, colorClamp)
      ensures GetFmt(state, which, Source) == out
      ensures which == Try ==> srcFmt == old(srcFmt)
      ensures which == Active ==> state.srcFmt == old(state.srcFmt)
    {
      out := AdjustFmt(fmt, Source, limits, colorClamp);
      if which == Active {
        ghost var s0 := State();
        SourceFormatKeepsConfig(s0, out);
        srcFmt := out;
        assert State() == s0.(srcFmt := out);
      } else {
        state.srcFmt := out;
      }
    }

    /** get_selection: crop, crop bounds and compose of the sink pad. */
    function GetSelection(state: SubdevState, which: Which, pad: Pad, target: SelTarget): (r: Result<Rect>)
      reads this, state
      ensures r.Err? <==> pad == Source || !(target in {SelCrop, SelCropBounds, SelCropDefault, SelCompose})
      ensures r.Err? ==> r.errno == -EINVAL
      ensures r.Ok? && (target == SelCropBounds || target == SelCropDefault) ==>
                r.value == CropBound(GetFmt(state, which, Sink))
      ensures r.Ok? && target == SelCrop ==> r.value == (if which == Active then crop else state.sinkCrop)
      ensures r.Ok? && target == SelCompose ==> r.value == (if which == Active then compose else state.sinkCompose)
      ensures r.Ok? && which == Active && Valid() ==> Inside(r.value, CropBound(sinkFmt))
    {
      if pad == Source then Err(-EINVAL)
      else
        var f := GetFmt(state, which, Sink);
        var c := if which == Active then crop else state.sinkCrop;
        var k := if which == Active then compose else state.sinkCompose;
        match target
        case SelCrop => Ok(c)
        case SelCropBounds => Ok(CropBound(f))
        case SelCropDefault => Ok(CropBound(f))
        case SelCompose => Ok(k)
        case _ => Err(-EINVAL)
    }

    /** set_selection on the sink pad. It takes no lock and does not check
        `streaming`. Returns the error code and the rectangle handed back. */
    method SetSelection(state: SubdevState, which: Which, pad: Pad, target: SelTarget, r: Rect)
      returns (ret: int, out: Rect)
      requires Valid()
      modifies this, state
      ensures Valid() && regLog == old(regLog)
      ensures which == Try ==> unchanged(this) && state.sinkFmt == old(state.sinkFmt)
      ensures which == Active ==>
                unchanged(state) && sinkFmt == old(sinkFmt) && streaming == old(streaming)
                && sinkInterval == old(sinkInterval) && srcInterval == old(srcInterval) && frate == old(frate)
                && srcFmt.code == old(srcFmt.code)
      ensures pad == Source || !(target in {SelCrop, SelCompose}) ==>
                ret == -EINVAL && out == r && unchanged(this) && unchanged(state)
      ensures pad == Sink && target == SelCrop ==>
                ret == 0 && out == AdjustCrop(r, old(GetFmt(state, which, Sink)), limits)
                && (which == Active ==> crop == out && compose == out)
                && (which == Try ==> state.sinkCrop == out && state.sinkCompose == out)
      ensures pad == Sink && target == SelCompose ==>
                ret == 0
                && out == AdjustCompose(r, if which == Active then old(crop) else old(state.sinkCrop))
                && (which == Active ==> crop == old(crop) && compose == out)
                && (which == Try ==> state.sinkCrop == old(state.sinkCrop) && state.sinkCompose == out)
      ensures pad == Sink && target in {SelCrop, SelCompose} ==>
                GetFmt(state, which, Source) == old(GetFmt(state, which, Source)).(width := out.width, height := out.height)
    {
      if pad == Source {
        return -EINVAL, r;
      }
      match target {
        case SelCrop =>
          out := AdjustCrop(r, GetFmt(state, which, Sink), limits);
          if which == Active {
            crop := out;
            compose := out;
            srcFmt := srcFmt.(width := out.width, height := out.height);
          } else {
            state.sinkCrop := out;
            state.sinkCompose := out;
            state.srcFmt := state.srcFmt.(width := out.width, height := out.height);
          }
        case SelCompose =>
          if which == Active {
            out := AdjustCompose(r, crop);
            compose := out;
            srcFmt := srcFmt.(width := out.width, height := out.height);
          } else {
            out := AdjustCompose(r, state.sinkCrop);
            state.sinkCompose := out;
            state.srcFmt := state.srcFmt.(width := out.width, height := out.height);
          }
        case _ =>
          return -EINVAL, r;
      }
      ret := 0;
    }

    /** enum_frame_interval: the sink interval on the sink pad; on the
        source pad, the interval of each entry of the skip table. */
    function EnumFrameInterval(pad: Pad, index: nat, width: nat, height: nat): (r: Result<Fract>)
      reads this
      ensures r.Err? <==> index >= (if pad == Source then |FRATES| else 1)
                          || width > limits.maxWidth || height > limits.maxHeight
      ensures r.Err? ==> r.errno == -EINVAL
      ensures r.Ok? && pad == Sink ==> r.value == sinkInterval
      ensures r.Ok? && pad == Source ==> r.value.numerator == sinkInterval.numerator * FRATES[index]
                                         && r.value.denominator == sinkInterval.denominator
    {
      if index >= (if pad == Source then |FRATES| else 1) || width > limits.maxWidth || height > limits.maxHeight
      then Err(-EINVAL)
      else if pad == Sink then Ok(sinkInterval)
      else Ok(SourceInterval(sinkInterval, index))
    }

    /** g_frame_interval. */
    function GFrameInterval(pad: Pad): (r: Fract)
      reads this
      ensures Valid() && pad == Source ==> r == SourceInterval(sinkInterval, frate)
      ensures pad == Sink ==> r == sinkInterval
    {
      if pad == Sink then sinkInterval else srcInterval
    }

    /** s_frame_interval. Returns the error code and the interval handed
        back to the caller (the request, or the sink interval in place of
        a request with a zero part). */
    method SFrameInterval(pad: Pad, interval: Fract) returns (ret: int, out: Fract)
      requires Valid()
      modifies this
      ensures Valid() && regLog == old(regLog)
      ensures sinkFmt == old(sinkFmt) && srcFmt == old(srcFmt) && crop == old(crop) && compose == old(compose)
      ensures streaming == old(streaming)
      ensures old(streaming) ==> ret == -EBUSY && out == interval && unchanged(this)
      ensures !old(streaming) ==> ret == 0 && out == NormalizeInterval(interval, old(sinkInterval))
      ensures !old(streaming) && pad == Sink ==> frate == 0 && sinkInterval == out && srcInterval == out
      ensures !old(streaming) && pad == Source ==>
                sinkInterval == old(sinkInterval)
                && frate == FrateOf(SkipRatio(old(sinkInterval), out))
                && srcInterval == SourceInterval(sinkInterval, frate)
    {
      if streaming {
        return -EBUSY, interval;
      }
      out := NormalizeInterval(interval, sinkInterval);
      if pad == Sink {
        frate := 0;
        sinkInterval := out;
        srcInterval := sinkInterval;
      } else {
        var ratio := SkipRatio(sinkInterval, out);
        frate := if ratio >= 8 then 3 else if ratio >= 4 then 2 else if ratio >= 2 then 1 else 0;
        var skip := FRATES[frate];
        srcInterval := Fract(sinkInterval.numerator * skip, sinkInterval.denominator);
      }
      ret := 0;
    }

    /** configure_framerate. */
    method ConfigureFramerate()
      requires Valid()
      modifies this`regLog
      ensures regLog == old(regLog) + FrameRateOps(pipeId, frate)
    {
      regLog := regLog + [ClearBits(Fctcr(pipeId), FCTCR_FRATE_MASK)];
      regLog := regLog + [SetBits(Fctcr(pipeId), U32(frate))];
    }

    /** set_downscale: compute the plan (the two decimation loops, then
        the saturated ratio and divider fields), then write it. */
    method SetDownscale()
      requires 1 <= crop.width && 1 <= crop.height && 1 <= compose.width && 1 <= compose.height
      modifies this`regLog
      ensures regLog == old(regLog) + DownscaleOps(pipeId, Plan(), compose)
    {
      var p := ComputePlan(crop.width, crop.height, compose.width, compose.height);
      WriteDownscale(p);
    }

    /** The register writes of set_downscale for a computed plan. */
    method WriteDownscale(p: DownscalePlan)
      modifies this`regLog
      ensures regLog == old(regLog) + DownscaleOps(pipeId, p, compose)
    {
      var ops := [ClearBits(Dccr(pipeId), DCCR_ENABLE)];
      if p.hdec != 0 || p.vdec != 0 {
        ops := ops + [Write(Dccr(pipeId), DccrValue(U32(p.hdec), U32(p.vdec)))];
      }
      assert ops == [ClearBits(Dccr(pipeId), DCCR_ENABLE)] + DecimationOps(pipeId, p);
      ops := ops + [ClearBits(Dscr(pipeId), DSCR_ENABLE)];
      ops := ops + [Write(Dsrtior(pipeId), DsrtiorValue(U32(p.hratio), U32(p.vratio)))];
      ops := ops + [Write(Dsszr(pipeId), DsszrValue(U32(compose.width), U32(compose.height)))];
      ops := ops + [Write(Dscr(pipeId), DscrValue(U32(p.hdiv), U32(p.vdiv)))];
      regLog := regLog + ops;
    }

    /** colorconv_config: ask the colour-conversion helper for the
        configuration of the current formats, then write the six
        coefficients and the control word. */
    method ColorconvConfig(colorconv: (Format, Format) -> (int, ColorConvConfig)) returns (ret: int)
      modifies this`regLog
      ensures ret == colorconv(sinkFmt, srcFmt).0
      ensures ret != 0 ==> regLog == old(regLog)
      ensures ret == 0 ==> regLog == old(regLog) + ColorConvOps(colorconv(sinkFmt, srcFmt).1)
    {
      var cc := colorconv(sinkFmt, srcFmt);
      if cc.0 != 0 {
        return cc.0;
      }
      var cfg := cc.1;
      for i := 0 to 6
        invariant regLog == old(regLog) + CoefficientOps(cfg.convMatrix)[..i]
      {
        regLog := regLog + [Write(P1YUVRR1 + 4 * i, cfg.convMatrix[i])];
        assert CoefficientOps(cfg.convMatrix)[..i + 1] == CoefficientOps(cfg.convMatrix)[..i] + [CoefficientOps(cfg.convMatrix)[i]];
      }
      var val: bv32 := 0;
      if cfg.clamping {
        val := val | YUVCR_CLAMP;
      }
      if cfg.clampingAsRgb {
        val := val | YUVCR_TYPE_RGB;
      }
      if cfg.enable {
        val := val | YUVCR_ENABLE;
      }
      assert val == YuvcrValue(cfg.clamping, cfg.clampingAsRgb, cfg.enable);
      regLog := regLog + [Write(P1YUVCR, val)];
      return 0;
    }

    /** The crop start and size writes of s_stream. */
    method ConfigureCrop()
      modifies this`regLog
      ensures regLog == old(regLog) + CropOps(pipeId, crop)
    {
      regLog := regLog + [Write(Crstr(pipeId), CrstrValue(U32(crop.top), U32(crop.left)))];
      regLog := regLog + [Write(Crszr(pipeId), CrszrValue(U32(crop.width), U32(crop.height)))];
    }

    /** The pixel-packer step of s_stream: look the source code up in the
        source table, fail with -EINVAL when it is missing, otherwise write
        PPCR and return what the control handler setup returns. */
    method ConfigurePacker(ctrlRet: int) returns (ret: int)
      modifies this`regLog
      ensures var st := PackerStage(pipeId, old(regLog), srcFmt.code, ctrlRet);
              ret == st.ret && regLog == st.ops
    {
      var vpix := PixMapByCode(srcFmt.code, Source);
      if vpix.None? {
        return -EINVAL;
      }
      var val: bv32 := U32(vpix.value.ppcrFmt);
      PpcrValueBuilt(val);
      if vpix.value.swapUv {
        val := val | PPCR_SWAPRB;
      }
      regLog := regLog + [Write(Ppcr(pipeId), val)];
      ret := ctrlRet;
    }

    /** The first three steps of s_stream: frame skipping, crop and downscale. */
    method ConfigureSetup()
      requires Valid()
      modifies this`regLog
      ensures regLog == old(regLog) + SetupOps(pipeId, frate, crop, compose, Plan())
    {
      ConfigureFramerate();
      ConfigureCrop();
      SetDownscale();
      AppendThree(old(regLog), FrameRateOps(pipeId, frate), CropOps(pipeId, crop), DownscaleOps(pipeId, Plan(), compose));
    }

    /** The steps of s_stream after the setup writes: colour conversion on
        pipe 1, then the pixel packer. */
    method ConfigureOutput(colorconv: (Format, Format) -> (int, ColorConvConfig), ctrlRet: int) returns (ret: int)
      modifies this`regLog
      ensures var st := AfterSetup(pipeId, old(regLog), srcFmt.code, colorconv(sinkFmt, srcFmt), ctrlRet);
              ret == st.ret && regLog == st.ops
    {
      ghost var cc := colorconv(sinkFmt, srcFmt);
      if pipeId == 1 {
        ret := ColorconvConfig(colorconv);
        if ret != 0 {
          return;
        }
      }
      assert regLog == ConvStageOps(pipeId, old(regLog), cc);
      ret := ConfigurePacker(ctrlRet);
    }

    /** s_stream. `colorconv` stands for dcmipp_colorconv_configure and
        `ctrlRet` for the result of v4l2_ctrl_handler_setup. */
    method SStream(enable: bool, colorconv: (Format, Format) -> (int, ColorConvConfig), ctrlRet: int) returns (ret: int)
      requires Valid()
      modifies this`regLog
      ensures var out := StreamProgram(enable, pipeId, frate, crop, compose, Plan(), srcFmt.code,
                                       colorconv(sinkFmt, srcFmt), ctrlRet);
              ret == out.ret && regLog == old(regLog) + out.ops
    {
      if !enable {
        return 0;
      }
      ConfigureSetup();
      ret := ConfigureOutput(colorconv, ctrlRet);
      AfterSetupAfterPrefix(pipeId, old(regLog), SetupOps(pipeId, frate, crop, compose, Plan()), srcFmt.code,
                            colorconv(sinkFmt, srcFmt), ctrlRet);
    }
  }

  /** What get_fmt reports for the active copy of a consistent device: a
      source code the source pad accepts, a sink format of at least 1x1,
      and a sink frame that holds the active crop and compose. */
  lemma ActiveFormatsUsable(d: Device, state: SubdevState)
    requires d.Valid()
    ensures InTable(d.GetFmt(state, Active, Source).code, Source)
    ensures var f := d.GetFmt(state, Active, Sink);
            1 <= f.width && 1 <= f.height
            && Inside(d.crop, CropBound(f)) && Inside(d.compose, CropBound(f))
  {
  }

  /** The active crop and compose always give a downscale plan that fits
      the hardware fields, so DCCR reads back the decimation codes. */
  lemma ActivePlanFitsHardware(d: Device)
    requires d.Valid()
    ensures var p := d.Plan();
            p.hdec <= 3 && p.vdec <= 3
            && HVRATIO_CONS <= p.hratio <= HVRATIO_MAX && HVRATIO_CONS <= p.vratio <= HVRATIO_MAX
            && 128 <= p.hdiv <= HVDIV_MAX && 128 <= p.vdiv <= HVDIV_MAX
    ensures var p := d.Plan();
            (DccrValue(U32(p.hdec), U32(p.vdec)) >> 1) & 3 == U32(p.hdec)
            && (DccrValue(U32(p.hdec), U32(p.vdec)) >> 3) & 3 == U32(p.vdec)
  {
    var p := d.Plan();
    PlanWithinHardwareRange(d.crop.width, d.crop.height, d.compose.width, d.compose.height);
    DccrCountsReadBack(p.hdec, p.vdec);
  }

  /** For the active configuration s_stream never fails its source-code
      lookup: when colour conversion succeeds, the stream ends with the
      PPCR write of the source format's entry. */
  lemma ActiveStreamReachesPacker(d: Device, colorconv: (Format, Format) -> (int, ColorConvConfig), ctrlRet: int)
    requires d.Valid()
    requires !(d.pipeId == 1 && colorconv(d.sinkFmt, d.srcFmt).0 != 0)
    ensures var out := StreamProgram(true, d.pipeId, d.frate, d.crop, d.compose, d.Plan(), d.srcFmt.code,
                                     colorconv(d.sinkFmt, d.srcFmt), ctrlRet);
            out.ret == ctrlRet && |out.ops| > 0
            && out.ops[|out.ops| - 1] == PackerOp(d.pipeId, LookupCode(d.srcFmt.code, Source).value)
  {
    PackerProgrammedLast(d.pipeId, d.frate, d.crop, d.compose, d.Plan(), d.srcFmt.code,
                         colorconv(d.sinkFmt, d.srcFmt), ctrlRet);
  }

  /** With the lower compose bound rounded down, a crop of 32 accepts a
      compose size of 0, which set_downscale then divides by; rounding the
      bound up keeps the compose size at least 1. */
  lemma ComposeFloorAdmitsZero()
    ensures ComposeSizeAsWritten(0, 32) == 0
    ensures ComposeSize(0, 32) == 1
  {
  }

  /** With the lower compose bound rounded down, a crop of 127 accepts a
      compose size of 1, the decimation search then stops at 4, and a code
      of 4 does not fit the DCCR field; rounding the bound up gives a
      compose size of 2 and a decimation of 3. */
  lemma ComposeFloorOverflowsDecimation()
    ensures ComposeSizeAsWritten(1, 127) == 1 && DecimationOf(127, 1) == 4
    ensures (DccrValue(4, 0) >> 1) & 3 == 0
    ensures ComposeSize(1, 127) == 2 && DecimationOf(127, 2) == 3
  {
    DccrHdecOverflow(0);
  }
}
