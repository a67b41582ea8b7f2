/** The register programme of s_stream: the ordered writes that configure
    frame skipping, cropping, downscaling, colour conversion and the pixel
    packer when a stream starts, as a log of register operations. */
module Stream {
  import opened Kernel
  import opened V4l2
  import opened PixMap
  import opened Scaler
  import opened Registers

  /** The six colour-conversion coefficients, in register order. */
  type ConvMatrix = m: seq<bv32> | |m| == 6 witness [0, 0, 0, 0, 0, 0]

  /** What dcmipp_colorconv_configure fills in. */
  datatype ColorConvConfig = ColorConvConfig(convMatrix: ConvMatrix, clamping: bool, clampingAsRgb: bool, enable: bool)

  /** configure_framerate: clear the 2-bit skip field, then set the code. */
  function FrameRateOps(pipe: nat, frate: nat): seq<RegOp>
  {
    [ClearBits(Fctcr(pipe), FCTCR_FRATE_MASK), SetBits(Fctcr(pipe), U32(frate))]
  }

  /** The crop start and size writes, the size with its enable bit. */
  function CropOps(pipe: nat, crop: Rect): seq<RegOp>
  {
    [Write(Crstr(pipe), CrstrValue(U32(crop.top), U32(crop.left))),
     Write(Crszr(pipe), CrszrValue(U32(crop.width), U32(crop.height)))]
  }

  /** The DCCR write of set_downscale, present only when some decimation
      is needed. */
  function DecimationOps(pipe: nat, p: DownscalePlan): seq<RegOp>
  {
    if p.hdec != 0 || p.vdec != 0 then [Write(Dccr(pipe), DccrValue(U32(p.hdec), U32(p.vdec)))] else []
  }

  /** set_downscale's writes: disable decimation, re-enable it with its
      codes if needed, disable the downsizer, write ratio and size, then
      the dividers with the enable bit. */
  function DownscaleOps(pipe: nat, p: DownscalePlan, compose: Rect): seq<RegOp>
  {
    [ClearBits(Dccr(pipe), DCCR_ENABLE)]
    + DecimationOps(pipe, p)
    + [ClearBits(Dscr(pipe), DSCR_ENABLE),
       Write(Dsrtior(pipe), DsrtiorValue(U32(p.hratio), U32(p.vratio))),
       Write(Dsszr(pipe), DsszrValue(U32(compose.width), U32(compose.height))),
       Write(Dscr(pipe), DscrValue(U32(p.hdiv), U32(p.vdiv)))]
  }

  /** The coefficient writes of colorconv_config: coefficient `i` goes to
      the register 4 * i bytes after P1YUVRR1. Every coefficient is written
      once, in matrix order, to its own word-aligned register of the block
      P1YUVRR1 .. P1YUVRR1 + 20, so no coefficient overwrites another and
      none reaches the control word P1YUVCR below the block. */
  function CoefficientOps(m: ConvMatrix): (ops: seq<RegOp>)
    ensures |ops| == 6
    ensures forall i :: 0 <= i < 6 ==> ops[i].Write? && ops[i].value == m[i]
    ensures forall i :: 0 <= i < 6 ==>
              P1YUVRR1 <= ops[i].offset <= P1YUVRR1 + 20 && (ops[i].offset - P1YUVRR1) % 4 == 0
    ensures forall i, j :: 0 <= i < j < 6 ==> ops[i].offset < ops[j].offset
  {
    seq(6, i requires 0 <= i < 6 => Write(P1YUVRR1 + 4 * i, m[i]))
  }

  /** colorconv_config's writes: the coefficients, then the control word. */
  function ColorConvOps(cfg: ColorConvConfig): seq<RegOp>
  {
    CoefficientOps(cfg.convMatrix) + [Write(P1YUVCR, YuvcrValue(cfg.clamping, cfg.clampingAsRgb, cfg.enable))]
  }

  /** The PPCR write for a source-table entry. */
  function PackerOp(pipe: nat, e: PixMapEntry): RegOp
  {
    Write(Ppcr(pipe), PpcrValue(U32(e.ppcrFmt), e.swapUv))
  }

  /** The return value of s_stream and the register operations it issues. */
  datatype StreamOutcome = StreamOutcome(ret: int, ops: seq<RegOp>)

  /** The writes up to and including downscaling, common to every started
      stream; `plan` is what set_downscale computes from crop and compose. */
  function SetupOps(pipe: nat, frate: nat, crop: Rect, compose: Rect, plan: DownscalePlan): seq<RegOp>
  {
    FrameRateOps(pipe, frate) + CropOps(pipe, crop) + DownscaleOps(pipe, plan, compose)
  }

  /** The writes from colour conversion on, once the setup writes `conv`
      (with the colour-conversion group for pipe 1) are issued. */
  function PackerStage(pipe: nat, conv: seq<RegOp>, srcCode: MbusCode, ctrlRet: int): StreamOutcome
  {
    match LookupCode(srcCode, Source)
    case None => StreamOutcome(-EINVAL, conv)
    case Some(e) => StreamOutcome(ctrlRet, conv + [PackerOp(pipe, e)])
  }

  /** s_stream, given the downscale plan of the current crop and compose.
      `cc` is what dcmipp_colorconv_configure returns for the current
      formats and `ctrlRet` what v4l2_ctrl_handler_setup returns; neither
      is part of this model. */
  function StreamProgram(enable: bool, pipe: nat, frate: nat, crop: Rect, compose: Rect, plan: DownscalePlan,
                         srcCode: MbusCode, cc: (int, ColorConvConfig), ctrlRet: int): StreamOutcome
  {
    if !enable then StreamOutcome(0, [])
    else AfterSetup(pipe, SetupOps(pipe, frate, crop, compose, plan), srcCode, cc, ctrlRet)
  }

  /** What s_stream does once the setup writes `setup` are issued: pipe 1
      stops at a colour-conversion failure or appends the colour-conversion
      group, then the packer stage follows. */
  function AfterSetup(pipe: nat, setup: seq<RegOp>, srcCode: MbusCode, cc: (int, ColorConvConfig), ctrlRet: int): StreamOutcome
  {
    if pipe == 1 && cc.0 != 0 then StreamOutcome(cc.0, setup)
    else PackerStage(pipe, ConvStageOps(pipe, setup, cc), srcCode, ctrlRet)
  }

  /** No operation of `ops` touches register `o`. */
  predicate Untouched(ops: seq<RegOp>, o: nat)
  {
    forall i :: 0 <= i < |ops| ==> ops[i].Offset() != o
  }

  /** Stopping a stream returns 0 and touches no register. */
  lemma StreamOffDoesNothing(pipe: nat, frate: nat, crop: Rect, compose: Rect, plan: DownscalePlan,
                             srcCode: MbusCode, cc: (int, ColorConvConfig), ctrlRet: int)
    ensures StreamProgram(false, pipe, frate, crop, compose, plan, srcCode, cc, ctrlRet) == StreamOutcome(0, [])
  {
  }

  /** A started stream always begins with the skip code, then the crop,
      then the downscale group, in that order. */
  lemma StreamStartsWithSetup(pipe: nat, frate: nat, crop: Rect, compose: Rect, plan: DownscalePlan,
                              srcCode: MbusCode, cc: (int, ColorConvConfig), ctrlRet: int)
    ensures var out := StreamProgram(true, pipe, frate, crop, compose, plan, srcCode, cc, ctrlRet);
            var setup := FrameRateOps(pipe, frate) + CropOps(pipe, crop) + DownscaleOps(pipe, plan, compose);
            |setup| <= |out.ops| && out.ops[..|setup|] == setup
  {
    var setup := SetupOps(pipe, frate, crop, compose, plan);
    var conv := if pipe == 1 && cc.0 == 0 then setup + ColorConvOps(cc.1) else setup;
    assert conv[..|setup|] == setup;
    match LookupCode(srcCode, Source)
    case None =>
    case Some(e) =>
      assert (conv + [PackerOp(pipe, e)])[..|setup|] == setup;
  }

  /** The DCCR decimation register receives a plain write exactly when a
      decimation is needed in some direction. */
  lemma DecimationWrittenIffNeeded(pipe: nat, p: DownscalePlan, compose: Rect)
    ensures (exists i :: 0 <= i < |DownscaleOps(pipe, p, compose)| && DownscaleOps(pipe, p, compose)[i] == Write(Dccr(pipe), DccrValue(U32(p.hdec), U32(p.vdec))))
            <==> (p.hdec != 0 || p.vdec != 0)
  {
    var ops := DownscaleOps(pipe, p, compose);
    if p.hdec != 0 || p.vdec != 0 {
      assert ops[1] == Write(Dccr(pipe), DccrValue(U32(p.hdec), U32(p.vdec)));
    } else {
      assert |ops| == 5;
      assert Dccr(pipe) != Dsrtior(pipe) && Dccr(pipe) != Dsszr(pipe) && Dccr(pipe) != Dscr(pipe);
    }
  }

  /** The downsizer's ratio and size are written before the write that
      re-enables it, and nothing follows that write within the group. */
  lemma DownsizerEnabledLast(pipe: nat, p: DownscalePlan, compose: Rect)
    ensures var ops := DownscaleOps(pipe, p, compose);
            var n := |ops|;
            n >= 4
            && ops[n - 4] == ClearBits(Dscr(pipe), DSCR_ENABLE)
            && ops[n - 3].Write? && ops[n - 3].offset == Dsrtior(pipe)
            && ops[n - 2].Write? && ops[n - 2].offset == Dsszr(pipe)
            && ops[n - 1] == Write(Dscr(pipe), DscrValue(U32(p.hdiv), U32(p.vdiv)))
  {
  }

  /** The setup writes touch only the skip, crop, decimation and downsizer
      registers of their pipe. */
  lemma SetupUntouched(pipe: nat, frate: nat, crop: Rect, compose: Rect, plan: DownscalePlan, o: nat)
    requires o != Fctcr(pipe) && o != Crstr(pipe) && o != Crszr(pipe)
    requires o != Dccr(pipe) && o != Dscr(pipe) && o != Dsrtior(pipe) && o != Dsszr(pipe)
    ensures Untouched(SetupOps(pipe, frate, crop, compose, plan), o)
  {
    UntouchedAppend(FrameRateOps(pipe, frate), CropOps(pipe, crop), o);
    DownscaleUntouched(pipe, plan, compose, o);
    UntouchedAppend(FrameRateOps(pipe, frate) + CropOps(pipe, crop), DownscaleOps(pipe, plan, compose), o);
  }

  /** When the colour conversion of pipe 1 fails, s_stream returns its
      error and programs neither the colour-conversion nor the packer
      registers. */
  lemma ColorConvFailureStopsStream(frate: nat, crop: Rect, compose: Rect, plan: DownscalePlan,
                                    srcCode: MbusCode, cc: (int, ColorConvConfig), ctrlRet: int)
    requires cc.0 != 0
    ensures var out := StreamProgram(true, 1, frate, crop, compose, plan, srcCode, cc, ctrlRet);
            out.ret == cc.0 && Untouched(out.ops, Ppcr(1)) && Untouched(out.ops, P1YUVCR)
  {
    SetupUntouched(1, frate, crop, compose, plan, Ppcr(1));
    SetupUntouched(1, frate, crop, compose, plan, P1YUVCR);
  }

  /** A source code missing from the source table makes s_stream return
      -EINVAL without programming the packer. */
  lemma UnknownSourceCodeRejected(pipe: nat, frate: nat, crop: Rect, compose: Rect, plan: DownscalePlan,
                                  srcCode: MbusCode, cc: (int, ColorConvConfig), ctrlRet: int)
    requires pipe == 1 || pipe == 2
    requires !(pipe == 1 && cc.0 != 0)
    requires !InTable(srcCode, Source)
    ensures var out := StreamProgram(true, pipe, frate, crop, compose, plan, srcCode, cc, ctrlRet);
            out.ret == -EINVAL && Untouched(out.ops, Ppcr(pipe))
  {
    var setup := SetupOps(pipe, frate, crop, compose, plan);
    SetupUntouched(pipe, frate, crop, compose, plan, Ppcr(pipe));
    if pipe == 1 {
      ColorConvUntouched(cc.1, Ppcr(1));
      UntouchedAppend(setup, ColorConvOps(cc.1), Ppcr(1));
    }
  }

  /** A started stream whose source code is in the source table ends with
      the PPCR write of the first matching entry and returns what the
      control setup returns (PackerRegisterHolds gives the register's
      final contents). */
  lemma PackerProgrammedLast(pipe: nat, frate: nat, crop: Rect, compose: Rect, plan: DownscalePlan,
                             srcCode: MbusCode, cc: (int, ColorConvConfig), ctrlRet: int)
    requires !(pipe == 1 && cc.0 != 0)
    requires InTable(srcCode, Source)
    ensures var out := StreamProgram(true, pipe, frate, crop, compose, plan, srcCode, cc, ctrlRet);
            var e := LookupCode(srcCode, Source).value;
            out.ret == ctrlRet
            && out.ops == ConvStageOps(pipe, SetupOps(pipe, frate, crop, compose, plan), cc) + [PackerOp(pipe, e)]
            && e in SRC_PIX_MAP && e.code == srcCode
  {
    StreamReachesPacker(pipe, frate, crop, compose, plan, srcCode, cc, ctrlRet);
    LookupInSourceTable(srcCode);
  }

  /** The setup writes followed, on pipe 1, by the colour-conversion group. */
  function ConvStageOps(pipe: nat, setup: seq<RegOp>, cc: (int, ColorConvConfig)): seq<RegOp>
  {
    if pipe == 1 then setup + ColorConvOps(cc.1) else setup
  }

  /** Without a colour-conversion failure a started stream goes on to the
      packer stage. */
  lemma StreamReachesPacker(pipe: nat, frate: nat, crop: Rect, compose: Rect, plan: DownscalePlan,
                            srcCode: MbusCode, cc: (int, ColorConvConfig), ctrlRet: int)
    requires !(pipe == 1 && cc.0 != 0)
    ensures StreamProgram(true, pipe, frate, crop, compose, plan, srcCode, cc, ctrlRet)
            == PackerStage(pipe, ConvStageOps(pipe, SetupOps(pipe, frate, crop, compose, plan), cc), srcCode, ctrlRet)
  {
  }

  /** Operations issued before the setup stay in front: the stages after
      the setup only append. */
  lemma AfterSetupAfterPrefix(pipe: nat, prefix: seq<RegOp>, setup: seq<RegOp>, srcCode: MbusCode,
                              cc: (int, ColorConvConfig), ctrlRet: int)
    ensures var st := AfterSetup(pipe, setup, srcCode, cc, ctrlRet);
            AfterSetup(pipe, prefix + setup, srcCode, cc, ctrlRet) == StreamOutcome(st.ret, prefix + st.ops)
  {
    if !(pipe == 1 && cc.0 != 0) {
      ConvStageAfterPrefix(pipe, prefix, setup, cc);
      if pipe == 1 {
        AppendTwo(prefix, setup, ColorConvOps(cc.1));
      }
      PackerStageAfterPrefix(pipe, prefix, ConvStageOps(pipe, setup, cc), srcCode, ctrlRet);
    }
  }

  /** The colour-conversion group goes after whatever precedes the setup. */
  lemma ConvStageAfterPrefix(pipe: nat, prefix: seq<RegOp>, setup: seq<RegOp>, cc: (int, ColorConvConfig))
    ensures prefix + ConvStageOps(pipe, setup, cc)
            == (if pipe == 1 then prefix + setup + ColorConvOps(cc.1) else prefix + setup)
  {
    if pipe == 1 {
      AppendTwo(prefix, setup, ColorConvOps(cc.1));
    }
  }

  /** Operations issued before the packer stage stay in front of it: the
      stage only appends. */
  lemma PackerStageAfterPrefix(pipe: nat, prefix: seq<RegOp>, conv: seq<RegOp>, srcCode: MbusCode, ctrlRet: int)
    ensures var st := PackerStage(pipe, conv, srcCode, ctrlRet);
            PackerStage(pipe, prefix + conv, srcCode, ctrlRet) == StreamOutcome(st.ret, prefix + st.ops)
  {
    match LookupCode(srcCode, Source)
    case None =>
    case Some(e) =>
      AppendTwo(prefix, conv, [PackerOp(pipe, e)]);
  }

  /** The entry found for an accepted source code is a source-table entry. */
  lemma LookupInSourceTable(code: MbusCode)
    requires InTable(code, Source)
    ensures LookupCode(code, Source).value in SRC_PIX_MAP
  {
  }

  /** After a log ending with the packer write of a source-table entry, the
      packer register holds that entry's format and swap flag. */
  lemma PackerRegisterHolds(regs: map<nat, bv32>, conv: seq<RegOp>, pipe: nat, e: PixMapEntry)
    requires e in SRC_PIX_MAP
    ensures var r := Read(ApplyAll(regs, conv + [PackerOp(pipe, e)]), Ppcr(pipe));
            r & 0xF == e.ppcrFmt as bv32 && (r & PPCR_SWAPRB != 0 <==> e.swapUv)
  {
    PackerWriteReadsBack(regs, conv, pipe, e);
    SourcePackerFormatsFit(e);
    PpcrOfFormat(e.ppcrFmt, e.swapUv);
  }

  /** The last write of a log decides its register. */
  lemma PackerWriteReadsBack(regs: map<nat, bv32>, conv: seq<RegOp>, pipe: nat, e: PixMapEntry)
    ensures Read(ApplyAll(regs, conv + [PackerOp(pipe, e)]), Ppcr(pipe)) == PpcrValue(U32(e.ppcrFmt), e.swapUv)
  {
    assert conv + [PackerOp(pipe, e)] == conv + [PackerOp(pipe, e)] + [];
    LastWriteWins(regs, conv, Ppcr(pipe), PpcrValue(U32(e.ppcrFmt), e.swapUv), []);
  }

  /** A packer format of at most 4 bits reads back from PPCR, and so does
      the swap flag. */
  lemma PpcrOfFormat(fmt: nat, swapUv: bool)
    requires fmt <= 0xF
    ensures PpcrValue(U32(fmt), swapUv) & 0xF == fmt as bv32
    ensures (PpcrValue(U32(fmt), swapUv) & PPCR_SWAPRB != 0) <==> swapUv
  {
    U32Exact(fmt);
    PpcrFields(U32(fmt), swapUv);
  }

  /** Every packer format of the source table fits the 4-bit field. */
  lemma SourcePackerFormatsFit(e: PixMapEntry)
    requires e in SRC_PIX_MAP
    ensures e.ppcrFmt <= 0xF
  {
  }

  /** A 2-bit skip code has no bit outside the FCTCR skip field. */
  lemma SkipCodeFits(frate: nat)
    requires frate < 4
    ensures U32(frate) == frate as bv32
    ensures U32(frate) & !FCTCR_FRATE_MASK == 0
  {
    U32Exact(frate);
    if frate == 0 {
    } else if frate == 1 {
    } else if frate == 2 {
    } else {
    }
  }

  /** configure_framerate followed by writes that leave FCTCR alone: the
      skip field holds the code and every other bit of FCTCR is kept. */
  lemma FrameSkipProgrammed(regs: map<nat, bv32>, pipe: nat, frate: nat, rest: seq<RegOp>)
    requires frate < 4
    requires Untouched(rest, Fctcr(pipe))
    ensures var r := Read(ApplyAll(regs, FrameRateOps(pipe, frate) + rest), Fctcr(pipe));
            r & FCTCR_FRATE_MASK == frate as bv32
            && r & !FCTCR_FRATE_MASK == Read(regs, Fctcr(pipe)) & !FCTCR_FRATE_MASK
  {
    ApplyAllAppend(regs, FrameRateOps(pipe, frate), rest);
    ApplyAllUntouched(ApplyAll(regs, FrameRateOps(pipe, frate)), rest, Fctcr(pipe));
    SkipCodeFits(frate);
    ClearThenSet(regs, Fctcr(pipe), FCTCR_FRATE_MASK, U32(frate));
  }

  /** Every started stream, whether it then fails or not, begins with
      configure_framerate and touches FCTCR nowhere else, so FCTCR ends up
      holding the skip code (FrameSkipProgrammed). */
  lemma StreamProgramsFrameSkip(pipe: nat, frate: nat, crop: Rect, compose: Rect, plan: DownscalePlan,
                                srcCode: MbusCode, cc: (int, ColorConvConfig), ctrlRet: int)
    requires pipe == 1 || pipe == 2
    ensures var out := StreamProgram(true, pipe, frate, crop, compose, plan, srcCode, cc, ctrlRet);
            |out.ops| >= 2 && out.ops[..2] == FrameRateOps(pipe, frate) && Untouched(out.ops[2..], Fctcr(pipe))
  {
    var setup := SetupOps(pipe, frate, crop, compose, plan);
    SetupHead(pipe, frate, crop, compose, plan);
    if pipe == 1 && cc.0 != 0 {
      assert StreamProgram(true, pipe, frate, crop, compose, plan, srcCode, cc, ctrlRet).ops == setup;
    } else {
      var conv := ConvStageOps(pipe, setup, cc);
      if pipe == 1 {
        ColorConvUntouched(cc.1, Fctcr(1));
        KeepHead(setup, ColorConvOps(cc.1), Fctcr(1));
      }
      assert |conv| >= 2 && conv[..2] == FrameRateOps(pipe, frate) && Untouched(conv[2..], Fctcr(pipe));
      StreamReachesPacker(pipe, frate, crop, compose, plan, srcCode, cc, ctrlRet);
      PackerStageKeepsHead(pipe, conv, srcCode, ctrlRet, Fctcr(pipe));
    }
  }

  /** The packer stage only appends a PPCR write to what came before. */
  lemma PackerStageKeepsHead(pipe: nat, conv: seq<RegOp>, srcCode: MbusCode, ctrlRet: int, o: nat)
    requires |conv| >= 2 && Untouched(conv[2..], o) && o != Ppcr(pipe)
    ensures var ops := PackerStage(pipe, conv, srcCode, ctrlRet).ops;
            |ops| >= 2 && ops[..2] == conv[..2] && Untouched(ops[2..], o)
  {
    match LookupCode(srcCode, Source)
    case None =>
    case Some(e) =>
      KeepHead(conv, [PackerOp(pipe, e)], o);
  }

  /** The setup writes begin with configure_framerate and do not touch
      FCTCR afterwards. */
  lemma SetupHead(pipe: nat, frate: nat, crop: Rect, compose: Rect, plan: DownscalePlan)
    requires pipe == 1 || pipe == 2
    ensures var setup := SetupOps(pipe, frate, crop, compose, plan);
            |setup| >= 2 && setup[..2] == FrameRateOps(pipe, frate)
            && Untouched(setup[2..], Fctcr(pipe))
  {
    var fr := FrameRateOps(pipe, frate);
    var tail := CropOps(pipe, crop) + DownscaleOps(pipe, plan, compose);
    assert SetupOps(pipe, frate, crop, compose, plan) == fr + tail;
    assert (fr + tail)[2..] == tail;
    assert (fr + tail)[..2] == fr;
    DownscaleUntouched(pipe, plan, compose, Fctcr(pipe));
    UntouchedAppend(CropOps(pipe, crop), DownscaleOps(pipe, plan, compose), Fctcr(pipe));
  }

  /** Appending writes that leave `o` alone keeps the first two operations
      and keeps `o` untouched after them. */
  lemma KeepHead(xs: seq<RegOp>, ys: seq<RegOp>, o: nat)
    requires |xs| >= 2 && Untouched(xs[2..], o) && Untouched(ys, o)
    ensures (xs + ys)[..2] == xs[..2] && (xs + ys)[2..] == xs[2..] + ys
    ensures Untouched((xs + ys)[2..], o)
  {
    assert (xs + ys)[2..] == xs[2..] + ys;
    UntouchedAppend(xs[2..], ys, o);
  }

  /** `Untouched` distributes over concatenation. */
  lemma UntouchedAppend(a: seq<RegOp>, b: seq<RegOp>, o: nat)
    requires Untouched(a, o) && Untouched(b, o)
    ensures Untouched(a + b, o)
  {
    forall i | 0 <= i < |a + b|
      ensures (a + b)[i].Offset() != o
    {
      if i < |a| {
        assert (a + b)[i] == a[i];
      } else {
        assert (a + b)[i] == b[i - |a|];
      }
    }
  }

  /** The downscale group touches only the decimation and downsizer
      registers of its pipe. */
  lemma DownscaleUntouched(pipe: nat, p: DownscalePlan, compose: Rect, o: nat)
    requires o != Dccr(pipe) && o != Dscr(pipe) && o != Dsrtior(pipe) && o != Dsszr(pipe)
    ensures Untouched(DownscaleOps(pipe, p, compose), o)
  {
    var tail := [ClearBits(Dscr(pipe), DSCR_ENABLE),
                 Write(Dsrtior(pipe), DsrtiorValue(U32(p.hratio), U32(p.vratio))),
                 Write(Dsszr(pipe), DsszrValue(U32(compose.width), U32(compose.height))),
                 Write(Dscr(pipe), DscrValue(U32(p.hdiv), U32(p.vdiv)))];
    UntouchedAppend([ClearBits(Dccr(pipe), DCCR_ENABLE)], DecimationOps(pipe, p), o);
    UntouchedAppend([ClearBits(Dccr(pipe), DCCR_ENABLE)] + DecimationOps(pipe, p), tail, o);
  }

  /** The colour-conversion group touches only the colour-conversion
      registers of pipe 1, which lie between 0x980 and 0x998. */
  lemma ColorConvUntouched(cfg: ColorConvConfig, o: nat)
    requires o < P1YUVCR || o > P1YUVRR1 + 20
    ensures Untouched(ColorConvOps(cfg), o)
  {
    UntouchedAppend(CoefficientOps(cfg.convMatrix), [Write(P1YUVCR, YuvcrValue(cfg.clamping, cfg.clampingAsRgb, cfg.enable))], o);
  }
}
