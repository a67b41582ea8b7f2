/** Geometry rules of the pixel processor: format adjustment for a pad,
    sink-to-source format propagation, the crop bound, crop adjustment and
    the compose clamp. */
module Geometry {
  import opened Kernel
  import opened V4l2
  import opened PixMap

  /** DCMIPP_FRAME_MIN/MAX_WIDTH/HEIGHT from the driver's common header,
      which is not part of this model: given as parameters. */
  datatype FrameLimits = FrameLimits(minWidth: nat, maxWidth: nat, minHeight: nat, maxHeight: nat)
  {
    predicate Valid()
    {
      1 <= minWidth <= maxWidth && 1 <= minHeight <= maxHeight
    }
  }

  const SRC_FMT_DEFAULT: MbusCode := RGB565_2X8_LE
  const SINK_FMT_DEFAULT: MbusCode := RGB888_1X24

  /** The code a pad falls back to when it does not accept the requested one. */
  function DefaultCode(pad: Pad): (c: MbusCode)
    ensures InTable(c, pad)
  {
    if pad == Source then
      assert Table(Source)[2].code == SRC_FMT_DEFAULT;
      SRC_FMT_DEFAULT
    else
      assert Table(Sink)[0].code == SINK_FMT_DEFAULT;
      SINK_FMT_DEFAULT
  }

  /** clamp_t: `x` brought into [lo, hi]. */
  function Clamp(x: nat, lo: nat, hi: nat): nat
    requires lo <= hi
  {
    if x < lo then lo else if x > hi then hi else x
  }

  /** adjust_fmt: the format as the pad accepts it. `colorClamp` stands for
      dcmipp_colorimetry_clamp, which is not part of this model. */
  function AdjustFmt(f: Format, pad: Pad, limits: FrameLimits, colorClamp: Colorimetry -> Colorimetry): (r: Format)
    requires limits.Valid()
    ensures InTable(f.code, pad) ==> r.code == f.code
    ensures !InTable(f.code, pad) ==> r.code == DefaultCode(pad)
    ensures InTable(r.code, pad)
    ensures limits.minWidth <= r.width <= limits.maxWidth
    ensures limits.minHeight <= r.height <= limits.maxHeight
    ensures limits.minWidth <= f.width <= limits.maxWidth ==> r.width == f.width
    ensures limits.minHeight <= f.height <= limits.maxHeight ==> r.height == f.height
    ensures f.width <= limits.minWidth ==> r.width == limits.minWidth
    ensures f.width >= limits.maxWidth ==> r.width == limits.maxWidth
    ensures f.height <= limits.minHeight ==> r.height == limits.minHeight
    ensures f.height >= limits.maxHeight ==> r.height == limits.maxHeight
    ensures r.field != FieldAny && r.field != FieldAlternate
    ensures f.field != FieldAny && f.field != FieldAlternate ==> r.field == f.field
    ensures r.color == colorClamp(f.color)
  {
    var code := if InTable(f.code, pad) then f.code else DefaultCode(pad);
    var field := if f.field == FieldAny || f.field == FieldAlternate then FieldNone else f.field;
    Format(code,
           Clamp(f.width, limits.minWidth, limits.maxWidth),
           Clamp(f.height, limits.minHeight, limits.maxHeight),
           field,
           colorClamp(f.color))
  }

  /** Adjusting an adjusted format changes neither its code, size nor field;
      it changes nothing at all when the colorimetry clamp is idempotent. */
  lemma AdjustFmtIdempotent(f: Format, pad: Pad, limits: FrameLimits, colorClamp: Colorimetry -> Colorimetry)
    requires limits.Valid()
    ensures var g := AdjustFmt(f, pad, limits, colorClamp);
            var h := AdjustFmt(g, pad, limits, colorClamp);
            h.code == g.code && h.width == g.width && h.height == g.height && h.field == g.field
            && (colorClamp(colorClamp(f.color)) == colorClamp(f.color) ==> h == g)
  {
  }

  /** The code set_fmt forces on the source pad when the sink format is set:
      a code the source pad accepts, of the sink code's colour family. */
  function PropagatedSourceCode(sinkCode: MbusCode): (c: MbusCode)
    ensures InTable(c, Source)
    ensures InYuvRange(c) == InYuvRange(sinkCode)
  {
    if InYuvRange(sinkCode) then
      assert Table(Source)[3].code == YUYV8_2X8;
      YUYV8_2X8
    else
      assert Table(Source)[2].code == RGB565_2X8_LE;
      RGB565_2X8_LE
  }

  /** The source format set_fmt derives from a (clamped) sink format: the
      sink's size, field and colorimetry with a source-pad code of the same
      colour family. */
  function PropagateToSource(sink: Format): (p: Format)
    ensures p.width == sink.width && p.height == sink.height
    ensures p.field == sink.field && p.color == sink.color
    ensures InTable(p.code, Source)
    ensures InYuvRange(p.code) == InYuvRange(sink.code)
  {
    sink.(code := PropagatedSourceCode(sink.code))
  }

  /** Propagating an adjusted sink format yields a source format of the same
      size, field and colorimetry, with a code the source pad accepts:
      YUYV8_2X8 for the YUV sink code and RGB565_2X8_LE for the RGB one. */
  lemma SinkPropagation(f: Format, limits: FrameLimits, colorClamp: Colorimetry -> Colorimetry)
    requires limits.Valid()
    ensures var s := AdjustFmt(f, Sink, limits, colorClamp);
            var p := PropagateToSource(s);
            p.width == s.width && p.height == s.height && p.field == s.field && p.color == s.color
            && InTable(p.code, Source)
            && p.code == (if s.code == YUV8_1X24 then YUYV8_2X8 else RGB565_2X8_LE)
  {
    var s := AdjustFmt(f, Sink, limits, colorClamp);
    assert s.code == RGB888_1X24 || s.code == YUV8_1X24;
  }

  /** get_crop_bound: the full frame of a format. */
  function CropBound(f: Format): Rect
  {
    Rect(0, 0, f.width, f.height)
  }

  /** `r` lies entirely inside `b`. */
  predicate Inside(r: Rect, b: Rect)
  {
    b.left <= r.left && r.left + r.width <= b.left + b.width
    && b.top <= r.top && r.top + r.height <= b.top + b.height
  }

  /** A rectangle lies inside the crop bound exactly when it starts at a
      non-negative offset and ends within the frame: the bound is the
      whole frame and nothing beyond it. */
  lemma CropBoundContains(r: Rect, f: Format)
    ensures Inside(r, CropBound(f))
            <==> 0 <= r.left && 0 <= r.top && r.left + r.width <= f.width && r.top + r.height <= f.height
  {
  }

  /** v4l2_rect_set_min_size, as include/media/v4l2-rect.h defines it. */
  function RectSetMinSize(r: Rect, minSize: Rect): Rect
  {
    r.(width := if r.width < minSize.width then minSize.width else r.width,
       height := if r.height < minSize.height then minSize.height else r.height)
  }

  /** v4l2_rect_set_max_size, as include/media/v4l2-rect.h defines it. */
  function RectSetMaxSize(r: Rect, maxSize: Rect): Rect
  {
    r.(width := if r.width > maxSize.width then maxSize.width else r.width,
       height := if r.height > maxSize.height then maxSize.height else r.height)
  }

  /** v4l2_rect_map_inside, as include/media/v4l2-rect.h defines it: shrink
      to the boundary, then move the origin so the rectangle fits. */
  function RectMapInside(r: Rect, boundary: Rect): (m: Rect)
    ensures Inside(m, boundary)
  {
    var s := RectSetMaxSize(r, boundary);
    var left := if s.left < boundary.left then boundary.left else s.left;
    var top := if s.top < boundary.top then boundary.top else s.top;
    var left' := if left + s.width > boundary.left + boundary.width
                 then boundary.left + boundary.width - s.width else left;
    var top' := if top + s.height > boundary.top + boundary.height
                then boundary.top + boundary.height - s.height else top;
    Rect(left', top', s.width, s.height)
  }

  /** adjust_crop: at least the minimum size, then mapped inside the frame. */
  function AdjustCrop(r: Rect, f: Format, limits: FrameLimits): (c: Rect)
    ensures Inside(c, CropBound(f))
    ensures limits.minWidth <= f.width ==> limits.minWidth <= c.width
    ensures limits.minHeight <= f.height ==> limits.minHeight <= c.height
    ensures f.width < limits.minWidth ==> c.width == f.width
    ensures f.height < limits.minHeight ==> c.height == f.height
    ensures limits.minWidth <= r.width <= f.width ==> c.width == r.width
    ensures limits.minHeight <= r.height <= f.height ==> c.height == r.height
    ensures Inside(r, CropBound(f)) && limits.minWidth <= r.width && limits.minHeight <= r.height ==> c == r
  {
    RectMapInside(RectSetMinSize(r, Rect(0, 0, limits.minWidth, limits.minHeight)), CropBound(f))
  }

  /** Adjusting an adjusted crop leaves it as it is, also when the frame is
      smaller than the minimum crop. */
  lemma AdjustCropIdempotent(r: Rect, f: Format, limits: FrameLimits)
    ensures AdjustCrop(AdjustCrop(r, f, limits), f, limits) == AdjustCrop(r, f, limits)
  {
  }

  const MAX_DOWNSCALE_RATIO: nat := 64

  /** The compose clamp of set_selection as the driver writes it: the lower
      bound `crop / 64` is rounded down. The result never exceeds the crop
      and keeps any request between the two bounds. */
  function ComposeSizeAsWritten(req: nat, crop: nat): (r: nat)
    ensures r <= crop
    ensures crop / MAX_DOWNSCALE_RATIO <= r
    ensures req > crop ==> r == crop
    ensures crop / MAX_DOWNSCALE_RATIO <= req <= crop ==> r == req
    ensures req < crop / MAX_DOWNSCALE_RATIO ==> r == crop / MAX_DOWNSCALE_RATIO
  {
    if req > crop then crop
    else if req < crop / MAX_DOWNSCALE_RATIO then crop / MAX_DOWNSCALE_RATIO
    else req
  }

  /** The compose clamp with the lower bound rounded up, so that the total
      downscale never exceeds 64. */
  function ComposeSize(req: nat, crop: nat): (r: nat)
    ensures r <= crop
    ensures crop / MAX_DOWNSCALE_RATIO <= r
    ensures crop <= MAX_DOWNSCALE_RATIO * r
    ensures 1 <= crop ==> 1 <= r
    ensures req > crop ==> r == crop
    ensures crop <= MAX_DOWNSCALE_RATIO * req && req <= crop ==> r == req
    ensures MAX_DOWNSCALE_RATIO * req < crop ==> r == (crop + MAX_DOWNSCALE_RATIO - 1) / MAX_DOWNSCALE_RATIO
  {
    var lo := (crop + MAX_DOWNSCALE_RATIO - 1) / MAX_DOWNSCALE_RATIO;
    if req > crop then crop else if req < lo then lo else req
  }

  /** The two clamps differ only for a request below 1/64 of a crop size
      that is not a multiple of 64. */
  lemma ComposeSizeMatchesAsWritten(req: nat, crop: nat)
    requires crop <= MAX_DOWNSCALE_RATIO * req || crop % MAX_DOWNSCALE_RATIO == 0
    ensures ComposeSize(req, crop) == ComposeSizeAsWritten(req, crop)
  {
  }

  /** The compose rectangle set_selection stores: clamped against the crop,
      anchored at the origin. */
  function AdjustCompose(r: Rect, crop: Rect): (c: Rect)
    ensures c.left == 0 && c.top == 0
    ensures c.width <= crop.width && c.height <= crop.height
    ensures crop.width <= MAX_DOWNSCALE_RATIO * c.width && crop.height <= MAX_DOWNSCALE_RATIO * c.height
    ensures crop.width / MAX_DOWNSCALE_RATIO <= c.width && crop.height / MAX_DOWNSCALE_RATIO <= c.height
    ensures 1 <= crop.width ==> 1 <= c.width
    ensures 1 <= crop.height ==> 1 <= c.height
    ensures r.width > crop.width ==> c.width == crop.width
    ensures r.height > crop.height ==> c.height == crop.height
    ensures crop.width <= MAX_DOWNSCALE_RATIO * r.width && r.width <= crop.width ==> c.width == r.width
    ensures crop.height <= MAX_DOWNSCALE_RATIO * r.height && r.height <= crop.height ==> c.height == r.height
    ensures MAX_DOWNSCALE_RATIO * r.width < crop.width ==> c.width == (crop.width + MAX_DOWNSCALE_RATIO - 1) / MAX_DOWNSCALE_RATIO
    ensures MAX_DOWNSCALE_RATIO * r.height < crop.height ==> c.height == (crop.height + MAX_DOWNSCALE_RATIO - 1) / MAX_DOWNSCALE_RATIO
  {
    Rect(0, 0, ComposeSize(r.width, crop.width), ComposeSize(r.height, crop.height))
  }
}
