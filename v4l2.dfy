/** Value types of the V4L2 sub-device interface the pixel processor
    negotiates with: media-bus codes, field orders, frame formats,
    rectangles, frame intervals, pads and selection targets. */
module V4l2 {

  /** Media-bus pixel codes. The named ones are those the pixel processor
      refers to; `UnlistedCode` stands for any other 32-bit code a caller
      may pass in. Its `raw` value is meant to be none of the named codes'
      values: the type does not enforce that, and no operation of the model
      looks at `raw`, so an unlisted code is never mistaken for a named one
      (it is simply outside both pad tables and outside the YUV range). */
  datatype MbusCode =
    | RGB565_2X8_LE | RGB888_1X24 | BGR888_1X24
    | Y8_1X8
    | UYVY8_1_5X8 | VYUY8_1_5X8 | YUYV8_1_5X8 | YVYU8_1_5X8
    | UYVY8_2X8 | VYUY8_2X8 | YUYV8_2X8 | YVYU8_2X8
    | YUYV8_1X16 | YVYU8_1X16
    | YUV8_1X24
    | SBGGR8_1X8
    | UnlistedCode(raw: nat)

  /** The numeric range test `Y8_1X8 <= code < SBGGR8_1X8` of set_fmt. In the
      media-bus numbering that range is the YUV family, which holds every
      YUV code named here and none of the RGB ones; its end point SBGGR8_1X8
      itself is outside. The test is only ever applied to a code that
      format adjustment has already replaced by a sink-table code, so an
      unlisted code is taken to be outside. */
  predicate InYuvRange(c: MbusCode)
  {
    match c
    case RGB565_2X8_LE => false
    case RGB888_1X24 => false
    case BGR888_1X24 => false
    case SBGGR8_1X8 => false
    case UnlistedCode(_) => false
    case _ => true
  }

  /** Field orders of a frame. */
  datatype Field =
    | FieldAny | FieldNone | FieldTop | FieldBottom | FieldInterlaced
    | FieldSeqTB | FieldSeqBT | FieldAlternate | FieldInterlacedTB | FieldInterlacedBT

  /** Colour space, transfer function, Y'CbCr encoding and quantization,
      kept as the raw enumeration values the V4L2 interface uses. */
  datatype Colorimetry = Colorimetry(colorspace: nat, xferFunc: nat, ycbcrEnc: nat, quantization: nat)

  const COLORSPACE_REC709: nat := 3
  const XFER_FUNC_DEFAULT: nat := 0
  const YCBCR_ENC_DEFAULT: nat := 0
  const QUANTIZATION_DEFAULT: nat := 0

  /** A media-bus frame format (`struct v4l2_mbus_framefmt`). */
  datatype Format = Format(code: MbusCode, width: nat, height: nat, field: Field, color: Colorimetry)

  /** A rectangle (`struct v4l2_rect`): signed origin, unsigned size. */
  datatype Rect = Rect(left: int, top: int, width: nat, height: nat)

  /** A frame interval in seconds (`struct v4l2_fract`). */
  datatype Fract = Fract(numerator: nat, denominator: nat)

  /** Pad 0 is the sink (input), pad 1 the source (output). */
  datatype Pad = Sink | Source

  /** Which copy of the negotiated state an operation addresses. */
  datatype Which = Try | Active

  /** Selection targets. */
  datatype SelTarget =
    | SelCrop | SelCropDefault | SelCropBounds | SelNativeSize
    | SelCompose | SelComposeDefault | SelComposeBounds | SelComposePadded
}
