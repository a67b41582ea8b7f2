# DCMIPP pixel processor — a Dafny model

This Dafny model covers the pixel-processor sub-device of the STM32 DCMIPP camera
pipeline (`dcmipp-pixelproc.c`). The driver serves two pipes ("main" and "aux").
For each pipe it does the following:

- It negotiates a sink and a source media-bus format. Either one can be the
  active copy in the device record or the try copy of a file handle.
- It negotiates the sink crop and compose rectangles.
- It picks a frame-skip code that gives the requested source frame interval.
- When a stream starts, it programs the hardware in a fixed order: frame
  skipping, crop, decimation and downsizing, colour conversion (pipe 1 only),
  then the pixel packer.

The model is split into these modules:

- `Kernel`: `Option`, `Result`, errno values, 32-bit truncation and `strstr`.
- `V4l2`: media-bus codes, formats, rectangles, fractions, pads and selection targets.
- `PixMap`: the sink table (2 entries) and the source table (14 entries). It has
  the index lookup, and the linear search by code as a method with a loop.
- `Geometry`: `adjust_fmt`, sink-to-source propagation, the crop bound,
  `adjust_crop` and the compose clamp.
- `Scaler`: the decimation loops and the saturated ratio and divider fields of
  `set_downscale`.
- `FrameRate`: the skip table `{1, 2, 4, 8}`, the threshold choice and the
  delivered source interval.
- `Registers`: register offsets, field layouts, and how a log of
  write/set/clear operations changes a register file.
- `Stream`: the ordered register programme of `s_stream`, as a function.
- `PixelProc`: the device record as a class. The driver operations are methods
  that update its fields, and every register access is appended to a log field,
  `regLog`. The try state is a separate class, `SubdevState`.

## What stands in for code outside this file

- The header constants are parameters. `DCMIPP_FRAME_MIN/MAX_*` form a
  `FrameLimits` record with 1 ≤ min ≤ max.
- `dcmipp_colorimetry_clamp` is a function held in the device
  (`colorClamp`).
- `dcmipp_colorconv_configure` is a function argument to `SStream`. It returns
  an error code and a configuration.
- `v4l2_ctrl_handler_setup` is an integer argument to `SStream`: the value that
  call returns.
- `v4l2_rect_set_min_size`, `v4l2_rect_set_max_size` and `v4l2_rect_map_inside`
  are written out as `include/media/v4l2-rect.h` defines them. That header is not
  part of this model.
- Media-bus codes are an enumeration plus `UnlistedCode(raw)` for any other value.
  `InYuvRange` says which codes lie in `[MEDIA_BUS_FMT_Y8_1X8,
  MEDIA_BUS_FMT_SBGGR8_1X8)`.
- `streaming` is a field that the caller chooses. No operation of the driver
  sets it, and no operation of the model does either.

## Where the code and the design description differ (the model follows the code)

- At 1:1 scaling the divider saturates to 1023, not 1024 (`Scaler.PlanIdentity`).
- Downscaling 640×480 to 80×60 gives no decimation and a saturated ratio of
  65535, not a decimation of 3 (`Scaler.PlanEightfoldExample`). The decimation
  loop halves only while the size is strictly above eight times the compose size.
- A source request of 1/240 s against a 1/30 s sink interval is faster than the
  sink, so the ratio is 0 and the code is 0. A request of 8/30 s gives code 3
  (`FrameRate.DefaultIntervalExamples`).
- `set_selection` takes no lock and does not check `streaming`. The model
  does not add a check.

## Model

| member | source | states |
|---|---|---|
| PixMap.PixMapByIndex | drivers/media/platform/st/stm32/stm32-dcmipp/dcmipp-pixelproc.c:165-183 | nothing is found exactly when the index is at least the table size (2 for the sink pad, 14 for the source pad); otherwise the result is that table entry |
| PixMap.SearchByCode | drivers/media/platform/st/stm32/stm32-dcmipp/dcmipp-pixelproc.c:197-205 | the loop finds nothing exactly when no entry has the code; otherwise it returns an entry of the table with that code, namely the first one |
| PixMap.PixMapByCode | drivers/media/platform/st/stm32/stm32-dcmipp/dcmipp-pixelproc.c:185-206 | the search of the pad's table returns the first entry with the code (`LookupCode`) |
| PixMap.LookupCodeFindsFirst | drivers/media/platform/st/stm32/stm32-dcmipp/dcmipp-pixelproc.c:185-206 | the lookup by code fails exactly when no entry of the pad's table has the code; otherwise it yields an entry at some index i that has the code, with no earlier entry having it |
| PixMap.IndexThenCode | drivers/media/platform/st/stm32/stm32-dcmipp/dcmipp-pixelproc.c:143-206 | looking up the code of table entry i finds entry i again, because no code appears twice in a table |
| PixMap.TableCodesDistinct | drivers/media/platform/st/stm32/stm32-dcmipp/dcmipp-pixelproc.c:143-163 | no media-bus code occurs twice in either table (several entries share a packer code) |
| PixelProc.EnumMbusCode | drivers/media/platform/st/stm32/stm32-dcmipp/dcmipp-pixelproc.c:363-375 | -EINVAL exactly when the index is past the pad's table; otherwise the code of that entry, which the pad accepts |
| PixelProc.EnumMbusCodeListsAccepted | drivers/media/platform/st/stm32/stm32-dcmipp/dcmipp-pixelproc.c:363-375 | a code is enumerated at some index exactly when the pad accepts it |
| PixelProc.EnumFrameSize | drivers/media/platform/st/stm32/stm32-dcmipp/dcmipp-pixelproc.c:377-398 | -EINVAL exactly when the index is non-zero or the pad does not accept the code; otherwise the frame limits |
| PixelProc.EnumeratedSizeKept | drivers/media/platform/st/stm32/stm32-dcmipp/dcmipp-pixelproc.c:325-398 | a code and size that enum_frame_size offers pass through adjust_fmt unchanged |
| PixelProc.DefaultFormat | drivers/media/platform/st/stm32/stm32-dcmipp/dcmipp-pixelproc.c:231-240 | the default format is 640x480, progressive, with the pad's default code, which the pad accepts |
| Geometry.AdjustFmt | drivers/media/platform/st/stm32/stm32-dcmipp/dcmipp-pixelproc.c:325-344 | an accepted code is kept and any other is replaced by the pad default; width and height are clamped into the limits, kept when inside them and set to the bound they cross; an ANY or ALTERNATE field becomes NONE and other fields are kept; the colorimetry is the clamp's |
| Geometry.DefaultCode | drivers/media/platform/st/stm32/stm32-dcmipp/dcmipp-pixelproc.c:128-129 | each pad's fallback code is one its own table accepts |
| Geometry.AdjustFmtIdempotent | drivers/media/platform/st/stm32/stm32-dcmipp/dcmipp-pixelproc.c:325-344 | adjusting twice gives the same code, size and field as adjusting once, and the same format when the colorimetry clamp is idempotent |
| Geometry.SinkPropagation | drivers/media/platform/st/stm32/stm32-dcmipp/dcmipp-pixelproc.c:449-471 | the source format derived from an adjusted sink format has the same size, field and colorimetry, and a code the source accepts: YUYV8_2X8 for the YUV sink code, RGB565_2X8_LE otherwise |
| Geometry.PropagatedSourceCode | drivers/media/platform/st/stm32/stm32-dcmipp/dcmipp-pixelproc.c:459-463 | the code forced on the source pad is one the source table accepts and is of the sink code's colour family (YUV exactly when the sink code is in the YUV range) |
| Geometry.PropagateToSource | drivers/media/platform/st/stm32/stm32-dcmipp/dcmipp-pixelproc.c:458-463 | the source format keeps the sink's size, field and colorimetry and takes a source-table code of the sink code's colour family |
| Geometry.CropBoundContains | drivers/media/platform/st/stm32/stm32-dcmipp/dcmipp-pixelproc.c:301-312 | a rectangle lies inside the crop bound exactly when it starts at a non-negative offset and ends within the frame's width and height |
| Geometry.RectMapInside | drivers/media/platform/st/stm32/stm32-dcmipp/dcmipp-pixelproc.c:322 | the mapped rectangle lies inside the boundary |
| Geometry.AdjustCrop | drivers/media/platform/st/stm32/stm32-dcmipp/dcmipp-pixelproc.c:301-323 | the crop lies inside the full frame and is at least the minimum size when the frame is; a request that already fits is kept, and the width and height are each kept when they lie between the minimum and the frame |
| Geometry.AdjustCropIdempotent | drivers/media/platform/st/stm32/stm32-dcmipp/dcmipp-pixelproc.c:314-323 | adjusting a crop twice gives what adjusting it once gives |
| Geometry.ComposeSizeAsWritten | drivers/media/platform/st/stm32/stm32-dcmipp/dcmipp-pixelproc.c:583-591 | the driver's clamp never exceeds the crop and is at least the rounded-down crop/64: a request above the crop gives the crop, a request below the floor gives exactly the rounded-down crop/64, and a request between the bounds is kept |
| Geometry.ComposeSize | drivers/media/platform/st/stm32/stm32-dcmipp/dcmipp-pixelproc.c:583-591 | the corrected clamp: at most the crop size and at least crop/64; the crop is at most 64 times the compose size; at least 1 for a non-empty crop; a request above the crop gives the crop, a request below 1/64 of the crop gives exactly crop/64 rounded up, and a request inside the 64x range is kept |
| Geometry.ComposeSizeMatchesAsWritten | drivers/media/platform/st/stm32/stm32-dcmipp/dcmipp-pixelproc.c:583-591 | the corrected clamp equals the driver's whenever the request is within 64x of the crop or the crop is a multiple of 64 |
| Geometry.AdjustCompose | drivers/media/platform/st/stm32/stm32-dcmipp/dcmipp-pixelproc.c:582-595 | the compose rectangle with the corrected clamp: origin 0,0; per dimension at most the crop's size and at least 1/64 of it (at least 1 for a non-empty crop); a request above the crop gives the crop, a request inside the 64x range is kept, and a request below 1/64 of the crop gives crop/64 rounded up |
| Scaler.Decimate | drivers/media/platform/st/stm32/stm32-dcmipp/dcmipp-pixelproc.c:697-705 | the loop count is the decimation, the remaining size is the crop shifted right by it and at most 8 times the compose size, and every smaller count leaves a size above that |
| Scaler.DecimationOf | drivers/media/platform/st/stm32/stm32-dcmipp/dcmipp-pixelproc.c:697-705 | the decimation loop makes no halving exactly when the size is within 8 times the target |
| Scaler.DecimationMinimal | drivers/media/platform/st/stm32/stm32-dcmipp/dcmipp-pixelproc.c:697-705 | the decimation is the smallest number of halvings after which the size is at most 8 times the target |
| Scaler.DecimationAtMostThree | drivers/media/platform/st/stm32/stm32-dcmipp/dcmipp-pixelproc.c:697-705 | a crop of at most 64 times the compose size needs at most 3 halvings |
| Scaler.PostDecimationRange | drivers/media/platform/st/stm32/stm32-dcmipp/dcmipp-pixelproc.c:697-705 | after decimation the size lies between the target and 8 times the target when the target is at most the size |
| Scaler.PostDecimationPositive | drivers/media/platform/st/stm32/stm32-dcmipp/dcmipp-pixelproc.c:697-705 | decimation never halves a positive size down to 0 |
| Scaler.DownsizeRatio | drivers/media/platform/st/stm32/stm32-dcmipp/dcmipp-pixelproc.c:708-713 | the saturated ratio never exceeds 65535 |
| Scaler.DownsizeDiv | drivers/media/platform/st/stm32/stm32-dcmipp/dcmipp-pixelproc.c:714-719 | the saturated divider never exceeds 1023 |
| Scaler.RatioSaturatesOnlyAtEightfold | drivers/media/platform/st/stm32/stm32-dcmipp/dcmipp-pixelproc.c:708-713 | within the 8x range the ratio saturates exactly at an 8x downsize |
| Scaler.DivSaturatesOnlyAtOneToOne | drivers/media/platform/st/stm32/stm32-dcmipp/dcmipp-pixelproc.c:714-719 | for a downsize the divider saturates exactly at 1:1 |
| Scaler.DownsizeFieldsReconstruct | drivers/media/platform/st/stm32/stm32-dcmipp/dcmipp-pixelproc.c:708-719 | strictly between 1:1 and 8x, the ratio and the divider bracket the post-decimation size and the target size as truncating fixed-point values |
| Scaler.ComputePlan | drivers/media/platform/st/stm32/stm32-dcmipp/dcmipp-pixelproc.c:689-723 | the two halving loops and the saturating ratio and divider computation give the downscale plan `PlanDownscale` |
| Scaler.PlanDownscale | drivers/media/platform/st/stm32/stm32-dcmipp/dcmipp-pixelproc.c:689-723 | after each decimation the crop size is within 8 times the compose size; a direction is decimated exactly when its crop exceeds 8 times its compose; ratios are at most 65535 and dividers at most 1023 |
| Scaler.PlanWithinHardwareRange | drivers/media/platform/st/stm32/stm32-dcmipp/dcmipp-pixelproc.c:689-723 | for a compose within 64x of the crop: decimations of at most 3, ratios within 8192..65535 and dividers within 128..1023 |
| Scaler.FieldRanges | drivers/media/platform/st/stm32/stm32-dcmipp/dcmipp-pixelproc.c:708-719 | inside the 8x range the ratio is at least 8192 and the divider at least 128 |
| Scaler.PlanIdentity | drivers/media/platform/st/stm32/stm32-dcmipp/dcmipp-pixelproc.c:689-723 | at 1:1 there is no decimation, the ratios are 8192 and the dividers saturate to 1023 |
| Scaler.PlanEightfoldExample | drivers/media/platform/st/stm32/stm32-dcmipp/dcmipp-pixelproc.c:689-723 | 640x480 to 80x60 needs no decimation; the ratios saturate to 65535 and the dividers are 128 |
| FrameRate.FrateOf | drivers/media/platform/st/stm32/stm32-dcmipp/dcmipp-pixelproc.c:812-815 | the code is below 4; its table entry is at most the ratio unless the code is 0; every larger code's entry exceeds the ratio |
| FrameRate.NormalizeInterval | drivers/media/platform/st/stm32/stm32-dcmipp/dcmipp-pixelproc.c:792-793 | a request with a zero part is replaced by the sink interval; any other is kept |
| FrameRate.SkipRatio | drivers/media/platform/st/stm32/stm32-dcmipp/dcmipp-pixelproc.c:806-810 | the ratio is the number of whole sink intervals that fit in the requested interval: that many fit, one more does not |
| FrameRate.SourceInterval | drivers/media/platform/st/stm32/stm32-dcmipp/dcmipp-pixelproc.c:817-823 | the delivered interval is the sink interval scaled by the skip entry, never shorter than the sink interval (the output rate never exceeds the input rate), and positive for a positive sink interval |
| FrameRate.SourceIntervalMonotone | drivers/media/platform/st/stm32/stm32-dcmipp/dcmipp-pixelproc.c:817-823 | a larger skip code never delivers a shorter interval |
| FrameRate.ChosenSkipNotAboveRequest | drivers/media/platform/st/stm32/stm32-dcmipp/dcmipp-pixelproc.c:806-823 | for a request at least the sink interval, the delivered source interval is at most the request |
| FrameRate.NextSkipAboveRequest | drivers/media/platform/st/stm32/stm32-dcmipp/dcmipp-pixelproc.c:806-823 | the next entry of the table would give an interval above the request, so the choice is the largest achievable one |
| FrameRate.EnumeratedIntervalRoundTrip | drivers/media/platform/st/stm32/stm32-dcmipp/dcmipp-pixelproc.c:613-644 | requesting the i-th enumerated source interval selects skip code i again |
| FrameRate.DefaultIntervalExamples | drivers/media/platform/st/stm32/stm32-dcmipp/dcmipp-pixelproc.c:806-823 | at 1/30 s, a request of 1/30 s gives code 0, 8/30 s gives code 3 and delivers 8/30 s, and 1/240 s gives code 0 |
| PixelProc.NameToPipeId | drivers/media/platform/st/stm32/stm32-dcmipp/dcmipp-pixelproc.c:914-922 | the result is 1 exactly when the name contains "main"; it is 2 exactly when the name contains "aux" and not "main"; it is -EINVAL exactly when the name contains neither |
| PixelProc.NameToPipeIdByOccurrence | drivers/media/platform/st/stm32/stm32-dcmipp/dcmipp-pixelproc.c:914-922 | the same choice in terms of positions at which the words occur |
| PixelProc.Device.constructor | drivers/media/platform/st/stm32/stm32-dcmipp/dcmipp-pixelproc.c:955-969 | the default sink and source formats, a full 640x480 crop and compose, 1/30 s on both pads, skip code 0, not streaming, and a consistent state |
| PixelProc.Device.EntInit | drivers/media/platform/st/stm32/stm32-dcmipp/dcmipp-pixelproc.c:924-969 | -EIO exactly when the name selects no pipe; otherwise a fresh, consistent device on that pipe in the default state, with no register written |
| PixelProc.SubdevState.constructor | drivers/media/platform/st/stm32/stm32-dcmipp/dcmipp-pixelproc.c:346-361 | the try state starts zero-filled |
| PixelProc.Device.InitCfg | drivers/media/platform/st/stm32/stm32-dcmipp/dcmipp-pixelproc.c:346-361 | both try formats become the default format with their pad's code; the try crop and compose are untouched |
| PixelProc.ActiveFormatsUsable | drivers/media/platform/st/stm32/stm32-dcmipp/dcmipp-pixelproc.c:400-420 | what get_fmt reports for the active copy of a consistent device: a source code the source table accepts, a sink format of at least 1x1, and a sink frame that holds the active crop and compose |
| PixelProc.Device.SetFmt | drivers/media/platform/st/stm32/stm32-dcmipp/dcmipp-pixelproc.c:422-505 | ACTIVE while streaming gives -EBUSY and changes nothing. Otherwise the result is 0 and the adjusted format, which the addressed copy then holds. A sink write sets that copy's source format to the propagated one. A source write keeps the sink format. TRY changes no device field. ACTIVE on the sink resets crop and compose to the full frame. The device stays consistent and no register is written |
| PixelProc.Device.SetSinkFmt | drivers/media/platform/st/stm32/stm32-dcmipp/dcmipp-pixelproc.c:447-499 | the adjusted sink format is stored and propagated to the source pad of the same copy; on the active copy crop and compose become the full frame, and the other copy is left alone |
| PixelProc.Device.SetSourceFmt | drivers/media/platform/st/stm32/stm32-dcmipp/dcmipp-pixelproc.c:447-485 | the adjusted source format is stored in the addressed copy only, and the sink side is left alone |
| PixelProc.SinkFormatKeepsConfig | drivers/media/platform/st/stm32/stm32-dcmipp/dcmipp-pixelproc.c:485-499 | a new active sink format, its propagated source format and a full-frame crop and compose keep the configuration consistent |
| PixelProc.SourceFormatKeepsConfig | drivers/media/platform/st/stm32/stm32-dcmipp/dcmipp-pixelproc.c:485 | an accepted active source format keeps the configuration consistent |
| PixelProc.Device.GetSelection | drivers/media/platform/st/stm32/stm32-dcmipp/dcmipp-pixelproc.c:507-544 | -EINVAL exactly for the source pad or another target; CROP returns the addressed copy's stored crop and COMPOSE its stored compose; the bounds and default are the full frame of the addressed sink format; every active rectangle lies inside the active sink frame |
| PixelProc.Device.SetSelection | drivers/media/platform/st/stm32/stm32-dcmipp/dcmipp-pixelproc.c:546-609 | -EINVAL and no change for the source pad or another target; CROP stores the adjusted crop as both crop and compose; COMPOSE stores the clamped compose and keeps the crop; either sets that copy's source size to the result; the other copy, the sink format and the intervals are kept and the device stays consistent |
| PixelProc.Device.EnumFrameInterval | drivers/media/platform/st/stm32/stm32-dcmipp/dcmipp-pixelproc.c:613-644 | -EINVAL exactly for an index past 1 entry (sink) or 4 entries (source) or a size above the maximum; the sink interval on the sink pad; the sink interval scaled by the i-th skip on the source pad |
| PixelProc.Device.GFrameInterval | drivers/media/platform/st/stm32/stm32-dcmipp/dcmipp-pixelproc.c:765-777 | the sink interval on the sink pad; on the source pad, the interval the current skip code delivers |
| PixelProc.Device.SFrameInterval | drivers/media/platform/st/stm32/stm32-dcmipp/dcmipp-pixelproc.c:779-829 | -EBUSY and no change while streaming; otherwise the result is the normalised request; a sink write resets the skip code to 0 and sets both intervals; a source write picks the code by the thresholds and delivers the matching interval; formats, crop and compose are untouched and the state stays consistent |
| PixelProc.Device.ConfigureFramerate | drivers/media/platform/st/stm32/stm32-dcmipp/dcmipp-pixelproc.c:755-763 | appends the clear of the 2-bit skip field and the set of the code |
| PixelProc.Device.ConfigureCrop | drivers/media/platform/st/stm32/stm32-dcmipp/dcmipp-pixelproc.c:846-853 | appends the crop start write and the crop size write with the enable bit |
| PixelProc.Device.SetDownscale | drivers/media/platform/st/stm32/stm32-dcmipp/dcmipp-pixelproc.c:689-753 | appends the downscale group of the plan for the current crop and compose |
| PixelProc.Device.WriteDownscale | drivers/media/platform/st/stm32/stm32-dcmipp/dcmipp-pixelproc.c:733-752 | appends the decimation disable, the DCCR write when some decimation is needed, the downsizer disable, ratio and size, then the dividers with the enable bit |
| PixelProc.Device.ColorconvConfig | drivers/media/platform/st/stm32/stm32-dcmipp/dcmipp-pixelproc.c:657-683 | returns the helper's error code; on failure writes nothing; otherwise appends the six coefficient writes at 4-byte steps and then the control word |
| PixelProc.Device.ConfigurePacker | drivers/media/platform/st/stm32/stm32-dcmipp/dcmipp-pixelproc.c:865-879 | -EINVAL without a write for a source code outside the table; otherwise appends the PPCR write of the first matching entry and returns the control setup's result |
| PixelProc.Device.ConfigureSetup | drivers/media/platform/st/stm32/stm32-dcmipp/dcmipp-pixelproc.c:843-856 | appends frame skip, crop and downscale writes in that order |
| PixelProc.Device.ConfigureOutput | drivers/media/platform/st/stm32/stm32-dcmipp/dcmipp-pixelproc.c:858-879 | on pipe 1 stops at a colour-conversion failure, else appends its group; then the packer stage |
| PixelProc.Device.SStream | drivers/media/platform/st/stm32/stm32-dcmipp/dcmipp-pixelproc.c:831-885 | the return value and the appended log are those of the register programme `StreamProgram` for the current state |
| Stream.CoefficientOps | drivers/media/platform/st/stm32/stm32-dcmipp/dcmipp-pixelproc.c:669-671 | six writes, one per coefficient, in matrix order, each to its own word-aligned register between P1YUVRR1 and P1YUVRR1 + 20 at strictly increasing offsets, so no coefficient write lands on another's register or on P1YUVCR |
| Stream.StreamOffDoesNothing | drivers/media/platform/st/stm32/stm32-dcmipp/dcmipp-pixelproc.c:838-839 | s_stream(0) returns 0 and issues no operation |
| Stream.StreamStartsWithSetup | drivers/media/platform/st/stm32/stm32-dcmipp/dcmipp-pixelproc.c:843-856 | every started stream begins with the skip, crop and downscale writes in that order |
| Stream.DecimationWrittenIffNeeded | drivers/media/platform/st/stm32/stm32-dcmipp/dcmipp-pixelproc.c:733-739 | the DCCR value write occurs exactly when some decimation is needed |
| Stream.DownsizerEnabledLast | drivers/media/platform/st/stm32/stm32-dcmipp/dcmipp-pixelproc.c:741-752 | the downsizer is disabled, its ratio and size are written, and the enabling divider write comes last |
| Stream.SetupUntouched | drivers/media/platform/st/stm32/stm32-dcmipp/dcmipp-pixelproc.c:843-856 | the setup touches only the skip, crop, decimation and downsizer registers of its pipe |
| Stream.ColorConvFailureStopsStream | drivers/media/platform/st/stm32/stm32-dcmipp/dcmipp-pixelproc.c:858-863 | a colour-conversion failure on pipe 1 is returned, and neither the colour-conversion control nor PPCR is written |
| Stream.UnknownSourceCodeRejected | drivers/media/platform/st/stm32/stm32-dcmipp/dcmipp-pixelproc.c:865-870 | a source code outside the table gives -EINVAL and no PPCR write |
| Stream.PackerProgrammedLast | drivers/media/platform/st/stm32/stm32-dcmipp/dcmipp-pixelproc.c:865-879 | for an accepted source code the programme ends with the PPCR write of the first matching table entry and returns the control setup's result |
| Stream.StreamReachesPacker | drivers/media/platform/st/stm32/stm32-dcmipp/dcmipp-pixelproc.c:858-866 | without a colour-conversion failure a started stream reaches the packer stage after the setup and, on pipe 1, the colour-conversion group |
| Stream.AfterSetupAfterPrefix | drivers/media/platform/st/stm32/stm32-dcmipp/dcmipp-pixelproc.c:858-879 | the stages after the setup only append to what was issued before |
| Stream.LookupInSourceTable | drivers/media/platform/st/stm32/stm32-dcmipp/dcmipp-pixelproc.c:866 | the entry found for an accepted code belongs to the source table |
| Stream.PackerRegisterHolds | drivers/media/platform/st/stm32/stm32-dcmipp/dcmipp-pixelproc.c:872-876 | after the packer write, PPCR holds the entry's packer format in bits 0-3 and the swap bit is set exactly for swapped entries |
| Stream.PpcrOfFormat | drivers/media/platform/st/stm32/stm32-dcmipp/dcmipp-pixelproc.c:872-876 | a 4-bit packer format and the swap flag read back from the PPCR value |
| Stream.SourcePackerFormatsFit | drivers/media/platform/st/stm32/stm32-dcmipp/dcmipp-pixelproc.c:104-163 | every packer format of the source table fits in 4 bits |
| Stream.SkipCodeFits | drivers/media/platform/st/stm32/stm32-dcmipp/dcmipp-pixelproc.c:755-763 | a skip code below 4 has no bit outside the FCTCR skip field |
| Stream.FrameSkipProgrammed | drivers/media/platform/st/stm32/stm32-dcmipp/dcmipp-pixelproc.c:755-763 | after configure_framerate and writes that leave FCTCR alone, its skip field holds the code and every other bit is as before |
| Stream.StreamProgramsFrameSkip | drivers/media/platform/st/stm32/stm32-dcmipp/dcmipp-pixelproc.c:843-885 | every started stream, failing or not, begins with configure_framerate and touches FCTCR nowhere else |
| Stream.DownscaleUntouched | drivers/media/platform/st/stm32/stm32-dcmipp/dcmipp-pixelproc.c:733-752 | the downscale group touches only the decimation and downsizer registers |
| Stream.ColorConvUntouched | drivers/media/platform/st/stm32/stm32-dcmipp/dcmipp-pixelproc.c:657-683 | the colour-conversion group touches only the registers 0x980 to 0x998 |
| Registers.DccrFields | drivers/media/platform/st/stm32/stm32-dcmipp/dcmipp-pixelproc.c:736-739 | decimation codes of at most 3 read back from their 2-bit DCCR fields, and the enable bit is set |
| Registers.DccrCountsReadBack | drivers/media/platform/st/stm32/stm32-dcmipp/dcmipp-pixelproc.c:736-739 | counts of at most 3, truncated to 32 bits as the driver does, read back from DCCR |
| Registers.DccrHdecOverflow | drivers/media/platform/st/stm32/stm32-dcmipp/dcmipp-pixelproc.c:736-739 | with a horizontal code of 4 and any vertical code of at most 3, HDEC reads back as 0 and VDEC as the vertical code with its low bit set |
| Registers.CrszrFields | drivers/media/platform/st/stm32/stm32-dcmipp/dcmipp-pixelproc.c:850-853 | crop sizes of at most 15 bits read back from CRSZR, and the enable bit is set |
| Registers.DsrtiorFields | drivers/media/platform/st/stm32/stm32-dcmipp/dcmipp-pixelproc.c:743-745 | 16-bit ratios read back from DSRTIOR |
| Registers.DscrFields | drivers/media/platform/st/stm32/stm32-dcmipp/dcmipp-pixelproc.c:749-752 | 10-bit dividers read back from DSCR, and the enable bit is set |
| Registers.PpcrValueBuilt | drivers/media/platform/st/stm32/stm32-dcmipp/dcmipp-pixelproc.c:872-874 | the PPCR value is the packer format, with SWAPRB or-ed in for swapped entries |
| Registers.PpcrFields | drivers/media/platform/st/stm32/stm32-dcmipp/dcmipp-pixelproc.c:872-874 | a 4-bit format reads back from PPCR, and the swap bit is set exactly when swapping |
| Registers.Apply | drivers/media/platform/st/stm32/stm32-dcmipp/dcmipp-pixelproc.c:759-762 | one operation changes only its own register; a write leaves its value there |
| Registers.ApplyAllAppend | drivers/media/platform/st/stm32/stm32-dcmipp/dcmipp-pixelproc.c:843-876 | applying two logs in turn is applying their concatenation |
| Registers.ApplyAllUntouched | drivers/media/platform/st/stm32/stm32-dcmipp/dcmipp-pixelproc.c:843-876 | a register that no operation touches keeps its value |
| Registers.LastWriteWins | drivers/media/platform/st/stm32/stm32-dcmipp/dcmipp-pixelproc.c:843-876 | the last write to a register decides its value when nothing after it touches the register |
| Registers.ClearThenSet | drivers/media/platform/st/stm32/stm32-dcmipp/dcmipp-pixelproc.c:759-762 | clearing a mask and then setting bits inside it leaves exactly those bits in the mask and every other bit as it was |
| PixelProc.ActivePlanFitsHardware | drivers/media/platform/st/stm32/stm32-dcmipp/dcmipp-pixelproc.c:689-739 | in every consistent state the downscale plan fits the hardware fields, and both decimation codes read back from DCCR |
| PixelProc.ActiveStreamReachesPacker | drivers/media/platform/st/stm32/stm32-dcmipp/dcmipp-pixelproc.c:831-885 | in every consistent state a stream without colour-conversion failure ends with the packer write of the source code's entry and returns the control setup's result |
| PixelProc.ComposeFloorAdmitsZero | drivers/media/platform/st/stm32/stm32-dcmipp/dcmipp-pixelproc.c:582-591 | the driver's clamp accepts a compose of 0 for a crop of 32; the corrected clamp gives 1 |
| PixelProc.ComposeFloorOverflowsDecimation | drivers/media/platform/st/stm32/stm32-dcmipp/dcmipp-pixelproc.c:582-591 | the driver's clamp accepts compose 1 for crop 127. That needs a decimation of 4, which does not fit in DCCR. The corrected clamp gives compose 2 and a decimation of 3 |

## Left out

- Register MMIO, `pm_runtime_*` and the gamma control (`s_ctrl`, GMCR): register
  accesses are a log of operations, and the re-application of controls at
  stream start is only its return value.
- The mutex: each operation is one atomic step of a sequential model.
- Registration plumbing: `kzalloc`/`kfree`, the control-handler initialisation
  and its error, `dcmipp_ent_sd_register` and its error, `ent_release`, the
  event subscription and the operation tables. `EntInit` models only the pipe
  check and the default state.
- `dev_dbg` and `dev_err`, which have no effect on the state.
- PixelProc.Device.SFrameInterval: the u32 products and the ratio in
  `s_frame_interval` and `enum_frame_interval` are unbounded integers. Wrap-around
  of very large intervals is not modelled.
- PixelProc.Device.SetSelection: the compose clamp rounds the lower bound
  `crop/64` up, not down as the driver does (see Findings); Geometry.AdjustCompose
  and Geometry.ComposeSize are that corrected clamp, and
  Geometry.ComposeSizeAsWritten is the driver's. Without that
  correction the compose size can be 0, and `set_downscale` then divides by it.
- PixelProc.Device.SStream: it requires a consistent state. In that state the
  compose is non-empty and within 64 times the crop, so the downscale plan is
  defined. With the driver's clamp a state outside that range is reachable (see Findings).
- The `pad > 1` test of `enum_frame_interval`: pads are a two-valued type, so
  no other pad exists.
- The try state holds the sink crop and compose only, because the driver never
  reads the try crop or compose of the source pad.
- Crop and size values wider than their register fields are truncated to 32
  bits (`U32`) and or-ed in as the driver does. No field masking beyond that is
  modelled.

## Findings

| source | as written | input that shows it | evidently intended | confidence | as-written member | corrected member |
|---|---|---|---|---|---|---|
| drivers/media/platform/st/stm32/stm32-dcmipp/dcmipp-pixelproc.c:583-591 | the compose lower bound is `crop / 64`, rounded down, so a crop below 64 accepts a compose of 0 | COMPOSE request of width 0 with a crop width of 32: compose width 0, then `set_downscale` divides by `compose.width` (lines 708-709) | compose at least 1, at least crop/64 rounded up, so that crop ≤ 64·compose | not executed | PixelProc.ComposeFloorAdmitsZero | Geometry.ComposeSize |
| drivers/media/platform/st/stm32/stm32-dcmipp/dcmipp-pixelproc.c:583-591 | with the rounded-down bound, the total downscale can exceed 64: a crop of 127 accepts a compose of 1 | crop width 127, COMPOSE request of width 1: the decimation loop stops at hdec 4, which does not fit the 2-bit HDEC field of DCCR (lines 735-739), so the hardware sees hdec 0 and the vertical code with its low bit set (an even vdec reads back one higher, an odd one unchanged) | decimation of at most 3 whenever a compose was accepted | not executed | PixelProc.ComposeFloorOverflowsDecimation | PixelProc.ActivePlanFitsHardware |
