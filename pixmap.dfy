/** The pixel-map tables of the pixel processor: for each pad, the media-bus
    codes it accepts, each with the pixel-packer format code and the
    channel-swap flag the source pad programs into PPCR. */
module PixMap {
  import opened Kernel
  import opened V4l2

  datatype PixMapEntry = PixMapEntry(code: MbusCode, ppcrFmt: nat, swapUv: bool)

  // Pixel-packer format codes (PPCR FORMAT field).
  const PPCR_FORMAT_RGB888_OR_YUV444_1BUFFER: nat := 0x0
  const PPCR_FORMAT_RGB565: nat := 0x1
  const PPCR_FORMAT_ARGB8888: nat := 0x2
  const PPCR_FORMAT_RGBA8888: nat := 0x3
  const PPCR_FORMAT_Y8: nat := 0x4
  const PPCR_FORMAT_YUV444: nat := 0x5
  const PPCR_FORMAT_YUYV: nat := 0x6
  const PPCR_FORMAT_NV61: nat := 0x7
  const PPCR_FORMAT_NV21: nat := 0x8
  const PPCR_FORMAT_YV12: nat := 0x9
  const PPCR_FORMAT_UYVY: nat := 0xa

  const SINK_PIX_MAP: seq<PixMapEntry> := [
    PixMapEntry(RGB888_1X24, 0, false),
    PixMapEntry(YUV8_1X24, 0, false)
  ]

  /** Several codes share one packer code: the semi-planar and planar
      layouts have no media-bus code of their own and borrow the 1_5X8 and
      1X16 packed codes, told apart only by the swap flag. */
  const SRC_PIX_MAP: seq<PixMapEntry> := [
    PixMapEntry(RGB888_1X24, PPCR_FORMAT_RGB888_OR_YUV444_1BUFFER, true),
    PixMapEntry(BGR888_1X24, PPCR_FORMAT_RGB888_OR_YUV444_1BUFFER, false),
    PixMapEntry(RGB565_2X8_LE, PPCR_FORMAT_RGB565, false),
    PixMapEntry(YUYV8_2X8, PPCR_FORMAT_YUYV, false),
    PixMapEntry(YVYU8_2X8, PPCR_FORMAT_YUYV, true),
    PixMapEntry(UYVY8_2X8, PPCR_FORMAT_UYVY, false),
    PixMapEntry(VYUY8_2X8, PPCR_FORMAT_UYVY, true),
    PixMapEntry(Y8_1X8, PPCR_FORMAT_Y8, false),
    PixMapEntry(YUYV8_1_5X8, PPCR_FORMAT_NV21, false),
    PixMapEntry(YVYU8_1_5X8, PPCR_FORMAT_NV21, true),
    PixMapEntry(YUYV8_1X16, PPCR_FORMAT_NV61, false),
    PixMapEntry(YVYU8_1X16, PPCR_FORMAT_NV61, true),
    PixMapEntry(UYVY8_1_5X8, PPCR_FORMAT_YV12, false),
    PixMapEntry(VYUY8_1_5X8, PPCR_FORMAT_YV12, true)
  ]

  /** The table of a pad: the source table for the source pad, else the sink table. */
  function Table(pad: Pad): seq<PixMapEntry>
  {
    if pad == Source then SRC_PIX_MAP else SINK_PIX_MAP
  }

  /** Entry `i` of the pad's table; nothing past its end (end of enumeration). */
  function PixMapByIndex(i: nat, pad: Pad): (r: Option<PixMapEntry>)
    ensures r.None? <==> i >= (if pad == Source then 14 else 2)
    ensures r.Some? ==> r.value == Table(pad)[i]
  {
    var t := Table(pad);
    if i >= |t| then None else Some(t[i])
  }

  /** Index of the first entry at or after `start` whose code is `code`,
      or |t| when there is none. */
  function IndexOfCodeFrom(t: seq<PixMapEntry>, code: MbusCode, start: nat): (k: nat)
    requires start <= |t|
    ensures start <= k <= |t|
    ensures forall j :: start <= j < k ==> t[j].code != code
    ensures k < |t| ==> t[k].code == code
    decreases |t| - start
  {
    if start == |t| then |t|
    else if t[start].code == code then start
    else IndexOfCodeFrom(t, code, start + 1)
  }

  /** The entry pix_map_by_code finds: the first one of the pad's table
      whose code is `code`, if any. */
  function LookupCode(code: MbusCode, pad: Pad): Option<PixMapEntry>
  {
    var t := Table(pad);
    var k := IndexOfCodeFrom(t, code, 0);
    if k < |t| then Some(t[k]) else None
  }

  /** The search by code fails exactly when no entry has the code, and
      otherwise finds the first entry that has it. */
  lemma LookupCodeFindsFirst(code: MbusCode, pad: Pad)
    ensures var r := LookupCode(code, pad);
            r.None? <==> forall j :: 0 <= j < |Table(pad)| ==> Table(pad)[j].code != code
    ensures var r := LookupCode(code, pad);
            r.Some? ==> exists i :: 0 <= i < |Table(pad)| && Table(pad)[i] == r.value
                                    && r.value.code == code
                                    && forall j :: 0 <= j < i ==> Table(pad)[j].code != code
  {
    var t := Table(pad);
    var k := IndexOfCodeFrom(t, code, 0);
    if k < |t| {
      assert t[k] == LookupCode(code, pad).value;
    }
  }

  /** The code is accepted on the pad: some entry of the pad's table has it
      (LookupCodeFindsFirst: exactly when the search by code finds an entry). */
  predicate InTable(code: MbusCode, pad: Pad)
  {
    exists i :: 0 <= i < |Table(pad)| && Table(pad)[i].code == code
  }

  /** pix_map_by_code: the pad's table, searched front to back. */
  method PixMapByCode(code: MbusCode, pad: Pad) returns (r: Option<PixMapEntry>)
    ensures r == LookupCode(code, pad)
  {
    r := SearchByCode(Table(pad), code);
  }

  /** The loop of pix_map_by_code: the first entry whose code matches. */
  method SearchByCode(t: seq<PixMapEntry>, code: MbusCode) returns (r: Option<PixMapEntry>)
    ensures r.None? <==> forall j :: 0 <= j < |t| ==> t[j].code != code
    ensures r.Some? ==> r.value.code == code && r.value in t
    ensures r == (var k := IndexOfCodeFrom(t, code, 0); if k < |t| then Some(t[k]) else None)
  {
    for i := 0 to |t|
      invariant forall j :: 0 <= j < i ==> t[j].code != code
    {
      if t[i].code == code {
        FirstMatchIsIndex(t, code, i);
        return Some(t[i]);
      }
    }
    return None;
  }

  /** The index the search reports is the position of the first match. */
  lemma FirstMatchIsIndex(t: seq<PixMapEntry>, code: MbusCode, i: nat)
    requires i < |t| && t[i].code == code
    requires forall j :: 0 <= j < i ==> t[j].code != code
    ensures IndexOfCodeFrom(t, code, 0) == i
  {
  }

  /** Search by code inverts enumeration by index: no code appears twice
      in a table, so looking up the code of entry `i` finds entry `i`. */
  lemma IndexThenCode(i: nat, pad: Pad)
    requires i < |Table(pad)|
    ensures LookupCode(Table(pad)[i].code, pad) == PixMapByIndex(i, pad)
  {
    TableCodesDistinct(pad);
    FirstMatchIsIndex(Table(pad), Table(pad)[i].code, i);
  }

  /** No code appears twice in a table. */
  lemma TableCodesDistinct(pad: Pad)
    ensures forall j, k :: 0 <= j < k < |Table(pad)| ==> Table(pad)[j].code != Table(pad)[k].code
  {
  }
}
