/** The pixel processor's registers: per-pipe offsets, the field layout of
    each value the driver writes, and the effect of a log of register
    operations on a register file. */
module Registers {
  import opened Kernel

  /** One access to the register block: a plain write, or a
      read-modify-write that sets or clears the bits of a mask. */
  datatype RegOp =
    | Write(offset: nat, value: bv32)
    | SetBits(offset: nat, mask: bv32)
    | ClearBits(offset: nat, mask: bv32)
  {
    function Offset(): nat
    {
      match this
      case Write(o, _) => o
      case SetBits(o, _) => o
      case ClearBits(o, _) => o
    }
  }

  /** The per-pipe register macros: pipe 1 selects its own bank, every
      other identifier selects pipe 2's. */
  function PipeReg(pipe: nat, p1: nat, p2: nat): nat
  {
    if pipe == 1 then p1 else p2
  }

  function Fctcr(pipe: nat): nat { PipeReg(pipe, 0x900, 0xD00) }
  function Crstr(pipe: nat): nat { PipeReg(pipe, 0x904, 0xD04) }
  function Crszr(pipe: nat): nat { PipeReg(pipe, 0x908, 0xD08) }
  function Dccr(pipe: nat): nat { PipeReg(pipe, 0x90C, 0xD0C) }
  function Dscr(pipe: nat): nat { PipeReg(pipe, 0x910, 0xD10) }
  function Dsrtior(pipe: nat): nat { PipeReg(pipe, 0x914, 0xD14) }
  function Dsszr(pipe: nat): nat { PipeReg(pipe, 0x918, 0xD18) }
  function Ppcr(pipe: nat): nat { PipeReg(pipe, 0x9C0, 0xDC0) }

  /** Colour-conversion registers, which exist on pipe 1 only. */
  const P1YUVCR: nat := 0x980
  const P1YUVRR1: nat := 0x984

  const FCTCR_FRATE_MASK: bv32 := 0x3
  const CRSZR_ENABLE: bv32 := 0x8000_0000
  const DCCR_ENABLE: bv32 := 0x1
  const DSCR_ENABLE: bv32 := 0x8000_0000
  const YUVCR_ENABLE: bv32 := 0x1
  const YUVCR_TYPE_RGB: bv32 := 0x2
  const YUVCR_CLAMP: bv32 := 0x4
  const PPCR_SWAPRB: bv32 := 0x10

  /** CRSTR: vertical start in the upper half, horizontal start in the lower. */
  function CrstrValue(top: bv32, left: bv32): bv32
  {
    (top << 16) | left
  }

  /** CRSZR: crop width, height and the enable bit. */
  function CrszrValue(width: bv32, height: bv32): bv32
  {
    width | (height << 16) | CRSZR_ENABLE
  }

  /** DCCR: 2-bit decimation codes at bits 1 and 3, and the enable bit. */
  function DccrValue(hdec: bv32, vdec: bv32): bv32
  {
    (hdec << 1) | (vdec << 3) | DCCR_ENABLE
  }

  /** DSRTIOR: horizontal ratio in the lower half, vertical in the upper. */
  function DsrtiorValue(hratio: bv32, vratio: bv32): bv32
  {
    hratio | (vratio << 16)
  }

  /** DSSZR: downsized width in the lower half, height in the upper. */
  function DsszrValue(width: bv32, height: bv32): bv32
  {
    width | (height << 16)
  }

  /** DSCR: the two dividers and the enable bit. */
  function DscrValue(hdiv: bv32, vdiv: bv32): bv32
  {
    hdiv | (vdiv << 16) | DSCR_ENABLE
  }

  /** YUVCR: clamp, RGB-type and enable flags. */
  function YuvcrValue(clamping: bool, clampingAsRgb: bool, enable: bool): bv32
  {
    (if clamping then YUVCR_CLAMP else 0)
    | (if clampingAsRgb then YUVCR_TYPE_RGB else 0)
    | (if enable then YUVCR_ENABLE else 0)
  }

  /** PPCR: packer format, with the red/blue swap bit for swapped entries. */
  function PpcrValue(ppcrFmt: bv32, swapUv: bool): bv32
  {
    ppcrFmt | (if swapUv then PPCR_SWAPRB else 0)
  }

  /** A small count converts to the 32-bit value of the same magnitude. */
  lemma U32Exact(x: nat)
    requires x < U32_MODULUS
    ensures U32(x) == x as bv32
  {
  }

  /** Each decimation code lands in its own 2-bit field when it is at most
      3, and the enable bit is set. */
  lemma DccrFields(hdec: bv32, vdec: bv32)
    requires hdec <= 3 && vdec <= 3
    ensures (DccrValue(hdec, vdec) >> 1) & 3 == hdec
    ensures (DccrValue(hdec, vdec) >> 3) & 3 == vdec
    ensures DccrValue(hdec, vdec) & DCCR_ENABLE == DCCR_ENABLE
  {
  }

  /** Decimation counts of at most 3, converted as set_downscale converts
      them, read back from their DCCR fields. */
  lemma DccrCountsReadBack(hdec: nat, vdec: nat)
    requires hdec <= 3 && vdec <= 3
    ensures (DccrValue(U32(hdec), U32(vdec)) >> 1) & 3 == U32(hdec)
    ensures (DccrValue(U32(hdec), U32(vdec)) >> 3) & 3 == U32(vdec)
  {
    U32Exact(hdec);
    U32Exact(vdec);
    DccrFields(U32(hdec), U32(vdec));
  }

  /** A horizontal decimation code of 4 does not fit its field: it reads
      back as 0 and ORs 1 into the vertical field, whatever vertical code
      of at most 3 goes with it (an even one reads back one higher, an odd
      one unchanged). */
  lemma DccrHdecOverflow(vdec: bv32)
    requires vdec <= 3
    ensures (DccrValue(4, vdec) >> 1) & 3 == 0
    ensures (DccrValue(4, vdec) >> 3) & 3 == vdec | 1
  {
  }

  /** Crop sizes of at most 15 bits read back from their halves, and the
      enable bit is set. */
  lemma CrszrFields(width: bv32, height: bv32)
    requires width <= 0x7FFF && height <= 0x7FFF
    ensures CrszrValue(width, height) & 0xFFFF == width
    ensures (CrszrValue(width, height) >> 16) & 0x7FFF == height
    ensures CrszrValue(width, height) & CRSZR_ENABLE == CRSZR_ENABLE
  {
  }

  /** Ratios of at most 16 bits each read back from their halves. */
  lemma DsrtiorFields(hratio: bv32, vratio: bv32)
    requires hratio <= 0xFFFF && vratio <= 0xFFFF
    ensures DsrtiorValue(hratio, vratio) & 0xFFFF == hratio
    ensures DsrtiorValue(hratio, vratio) >> 16 == vratio
  {
  }

  /** Dividers of at most 10 bits read back from their fields, and the
      enable bit is set. */
  lemma DscrFields(hdiv: bv32, vdiv: bv32)
    requires hdiv <= 0x3FF && vdiv <= 0x3FF
    ensures DscrValue(hdiv, vdiv) & 0x3FF == hdiv
    ensures (DscrValue(hdiv, vdiv) >> 16) & 0x3FF == vdiv
    ensures DscrValue(hdiv, vdiv) & DSCR_ENABLE == DSCR_ENABLE
  {
  }

  /** The PPCR value as s_stream builds it: the format, with the swap bit
      or-ed in for swapped entries. */
  lemma PpcrValueBuilt(ppcrFmt: bv32)
    ensures PpcrValue(ppcrFmt, false) == ppcrFmt
    ensures PpcrValue(ppcrFmt, true) == ppcrFmt | PPCR_SWAPRB
  {
  }

  /** A 4-bit packer format reads back from the format field and the swap
      flag from the swap bit. */
  lemma PpcrFields(ppcrFmt: bv32, swapUv: bool)
    requires ppcrFmt <= 0xF
    ensures PpcrValue(ppcrFmt, swapUv) & 0xF == ppcrFmt
    ensures (PpcrValue(ppcrFmt, swapUv) & PPCR_SWAPRB != 0) <==> swapUv
  {
  }

  /** The value a register holds before it is first written in the model. */
  function Read(regs: map<nat, bv32>, offset: nat): bv32
  {
    if offset in regs then regs[offset] else 0
  }

  /** The register file after one operation. */
  function Apply(regs: map<nat, bv32>, op: RegOp): (r: map<nat, bv32>)
    ensures forall o :: o != op.Offset() ==> Read(r, o) == Read(regs, o)
    ensures op.Write? ==> Read(r, op.offset) == op.value
  {
    match op
    case Write(o, v) => regs[o := v]
    case SetBits(o, m) => regs[o := Read(regs, o) | m]
    case ClearBits(o, m) => regs[o := Read(regs, o) & !m]
  }

  /** The register file after a log of operations, applied in order. */
  function ApplyAll(regs: map<nat, bv32>, ops: seq<RegOp>): map<nat, bv32>
    decreases |ops|
  {
    if |ops| == 0 then regs else ApplyAll(Apply(regs, ops[0]), ops[1..])
  }

  /** Applying two logs one after the other is applying their concatenation. */
  lemma {:induction false} ApplyAllAppend(regs: map<nat, bv32>, a: seq<RegOp>, b: seq<RegOp>)
    ensures ApplyAll(regs, a + b) == ApplyAll(ApplyAll(regs, a), b)
    decreases |a|
  {
    if |a| > 0 {
      assert (a + b)[0] == a[0];
      assert (a + b)[1..] == a[1..] + b;
      ApplyAllAppend(Apply(regs, a[0]), a[1..], b);
    } else {
      assert a + b == b;
    }
  }

  /** A register no operation of the log touches keeps its value. */
  lemma {:induction false} ApplyAllUntouched(regs: map<nat, bv32>, ops: seq<RegOp>, o: nat)
    requires forall i :: 0 <= i < |ops| ==> ops[i].Offset() != o
    ensures Read(ApplyAll(regs, ops), o) == Read(regs, o)
    decreases |ops|
  {
    if |ops| > 0 {
      assert ops[0].Offset() != o;
      ApplyAllUntouched(Apply(regs, ops[0]), ops[1..], o);
    }
  }

  /** The last write to a register decides its final value when nothing
      after it touches that register. */
  lemma LastWriteWins(regs: map<nat, bv32>, a: seq<RegOp>, o: nat, v: bv32, b: seq<RegOp>)
    requires forall i :: 0 <= i < |b| ==> b[i].Offset() != o
    ensures Read(ApplyAll(regs, a + [Write(o, v)] + b), o) == v
  {
    ApplyAllAppend(regs, a + [Write(o, v)], b);
    ApplyAllAppend(regs, a, [Write(o, v)]);
    ApplyAllUntouched(ApplyAll(regs, a + [Write(o, v)]), b, o);
  }

  /** A log of two operations applies them one after the other. */
  lemma ApplyTwo(regs: map<nat, bv32>, p: RegOp, q: RegOp)
    ensures ApplyAll(regs, [p, q]) == Apply(Apply(regs, p), q)
  {
    assert [p, q][1..] == [q];
    assert [q][1..] == [];
    assert ApplyAll(regs, [p, q]) == ApplyAll(Apply(regs, p), [q]);
    assert ApplyAll(Apply(regs, p), [q]) == ApplyAll(Apply(Apply(regs, p), q), []);
  }

  /** What a read-modify-write leaves in the register it touches. */
  lemma ReadAfterRmw(regs: map<nat, bv32>, o: nat, m: bv32)
    ensures Read(Apply(regs, ClearBits(o, m)), o) == Read(regs, o) & !m
    ensures Read(Apply(regs, SetBits(o, m)), o) == Read(regs, o) | m
  {
  }

  /** Clearing a mask and then setting bits inside it leaves exactly those
      bits in the mask and every bit outside it as it was. */
  lemma ClearThenSet(regs: map<nat, bv32>, o: nat, mask: bv32, bits: bv32)
    requires bits & !mask == 0
    ensures var r := ApplyAll(regs, [ClearBits(o, mask), SetBits(o, bits)]);
            Read(r, o) & mask == bits && Read(r, o) & !mask == Read(regs, o) & !mask
  {
    ApplyTwo(regs, ClearBits(o, mask), SetBits(o, bits));
    var r1 := Apply(regs, ClearBits(o, mask));
    ReadAfterRmw(regs, o, mask);
    ReadAfterRmw(r1, o, bits);
    MaskedUpdate(Read(regs, o), mask, bits);
  }

  /** Bit algebra of a clear followed by a set inside the cleared mask. */
  lemma MaskedUpdate(x: bv32, mask: bv32, bits: bv32)
    requires bits & !mask == 0
    ensures ((x & !mask) | bits) & mask == bits
    ensures ((x & !mask) | bits) & !mask == x & !mask
  {
  }
}
