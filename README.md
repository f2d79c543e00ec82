# Video-to-GIF fitting and commission calculator, modelled in Dafny

This project models two parts of a small media and sales toolbox.

The first is `mp4_to_gif`. It cuts a time window out of a video and samples
one frame in every `frame_interval`. It then encodes the frames as a GIF,
and while the GIF is over the size budget it degrades the plan and samples
again. A degrade step first lowers the frame rate by 2 while it is above 5,
and after that shrinks the scale by 0.8. The call gives up once the scale is
below 0.3 at 5 fps or less. The temporary input video and the temporary GIF
are removed on every failure.

The second is `calculate_commission`. It looks up an ROI rate in half-open
bands `[lo, hi)` and a GMV multiplier in bands `(lo, hi]`. The USD commission
is `gmv * rate * multiplier`, and the CNY commission is 7 times that. A
separate task bonus is paid on the ratio of GMV to a positive target.

Files:

- `format_conversion.dfy`, module `GifConversion`: the conversion.
  - `Mp4ToGif` is the degrade loop, as a method.
  - `SampleFrames` is the frame-reading loop, as a method.
  - Both are proved against specification functions: `Prepare`, `Degrade`,
    `Sampled`, `AfterDegrade` and the trace predicate `Conforms`.
- `roi_function.dfy`, module `Commission`: the calculator, as functions.
  Each band chain is proved equal to an independent sorted step table
  (`StepAt`), and monotonicity is proved once, for any rising table.
- `real_arith.dfy`, module `RealArith`: three product inequalities on reals
  that both modules use.

Decoding, resizing and encoding are outside the model. They appear as three
parameters:

- `VideoInfo` holds the capture's metadata.
- `available` is the number of frames the reader returns after the seek.
- `encodedSize` maps each encode, an `Attempt` of a plan and the kept frame
  indices, to its byte size.

The two temporary files are ghost booleans. `outputBefore` says whether a GIF
is already at the fixed output path when the call starts.

Points where the code is easy to misread, and which the model keeps as written:

- The rate can go down to 4, because 6 is above 5 and drops by 2.
- Dimensions are truncated by `int()`, not rounded.
- A frame is kept when its absolute index is a multiple of the interval, not
  its offset from the start frame.
- A first sampling that keeps no frame returns the output path without
  encoding anything.
- A re-sampling that keeps no frame fails at `frames[0]`, after the
  unattainability guard has been checked.
- `start_time` is not required to be non-negative.

## Model

| member | source | states |
|---|---|---|
| GifConversion.Trunc | FormatConversion/format_conversion.py:78-79 | `int()` of a float truncates toward zero: the result is within 1 of `x`, on the side of 0 |
| GifConversion.ClampEnd | FormatConversion/format_conversion.py:59-60 | the end time is never past the duration; an absent or too late end becomes the duration, and any other end is kept |
| GifConversion.QuotientIsDivision | FormatConversion/format_conversion.py:75 | the quotient used for the interval is floor division `fps // target_fps` |
| GifConversion.IntervalIsFloorDivision | FormatConversion/format_conversion.py:75 | the interval is `max(1, fps // target_fps)` with floor division |
| GifConversion.IntervalRate | FormatConversion/format_conversion.py:74-75 | keeping one frame in `max(1, fps // t)` gives between `t` and `2t` frames per second when `t <= fps` |
| GifConversion.QuotientAntitone | FormatConversion/format_conversion.py:115-118 | a lower target rate never gives a smaller interval |
| GifConversion.InitialPlan | FormatConversion/format_conversion.py:65-75 | the initial plan is consistent; the rate is `min(10, fps)`; a requested width is kept exactly, the scale is `target_width / original_width` and the height is `int(original_height * scale)`; without one the scale is 1.0 and the source dimensions are kept |
| GifConversion.ConsistentDimensions | FormatConversion/format_conversion.py:66-67 | the dimensions of every plan the loop holds are `int(original * scale)` |
| GifConversion.WidthScalesBack | FormatConversion/format_conversion.py:65-67 | scaling the source width by `target_width / original_width` gives back exactly `target_width` |
| GifConversion.CrossBound | FormatConversion/format_conversion.py:66-67 | two dimensions truncated from one scale, cross-multiplied with the source dimensions, differ by less than one source dimension |
| GifConversion.PlanAspect | FormatConversion/format_conversion.py:65-71 | every consistent plan keeps the source aspect ratio to within one pixel of either dimension |
| GifConversion.Degrade | FormatConversion/format_conversion.py:115-123 | a degrade step never raises the rate, and a rate step never takes it below 4 |
| GifConversion.ShrinkDimension | FormatConversion/format_conversion.py:121-123 | shrinking the scale by 0.8 never enlarges a truncated dimension |
| GifConversion.DegradeRateStep | FormatConversion/format_conversion.py:115-118 | above 5 fps the rate drops by exactly 2, the interval does not shrink, and scale and dimensions are unchanged |
| GifConversion.DegradeScaleStep | FormatConversion/format_conversion.py:119-123 | at 5 fps or less the scale is multiplied by 0.8; rate and interval are unchanged; neither dimension grows |
| GifConversion.DegradeStep | FormatConversion/format_conversion.py:115-123 | a degrade step keeps the plan consistent, changes exactly one of rate and scale, and never raises the rate, the scale or a dimension |
| GifConversion.SelectedMembers | FormatConversion/format_conversion.py:83-94 | a frame is kept exactly when its index is in the window and a multiple of the interval |
| GifConversion.SelectedIncreasing | FormatConversion/format_conversion.py:83-94 | kept frames come in strictly increasing index order |
| GifConversion.SampledFrames | FormatConversion/format_conversion.py:82-94 | a pass keeps, in increasing order, exactly the frames of the window before the end of the stream whose index is a multiple of the interval; it fails exactly when there is such a frame and the size is empty |
| GifConversion.SampleFrames | FormatConversion/format_conversion.py:82-94 | the reading loop yields the kept frames up to the window end or the end of the stream, or fails when a kept frame would be resized to an empty size |
| GifConversion.AfterDegradeFailures | FormatConversion/format_conversion.py:101-146 | after a degrade the call fails on a failed re-sampling first, then on the guard `scale < 0.3 and target_fps <= 5`, then on a re-sampling that kept no frame; otherwise it encodes the kept frames |
| GifConversion.Fits | FormatConversion/format_conversion.py:110-112 | the size in MiB is within the budget exactly when the byte size is at most `max_size_mb * 1024 * 1024` |
| GifConversion.ScaleStepsExact | FormatConversion/format_conversion.py:121-145 | the scale-step count is exactly the number of shrinks by 0.8 that keep the scale at 0.3 or more |
| GifConversion.DegradeSpendsBudget | FormatConversion/format_conversion.py:115-146 | every degrade that passes the guard uses up exactly one unit of the encode budget |
| GifConversion.GuardFiresWhenSpent | FormatConversion/format_conversion.py:115-146 | once the encode budget is spent, the next degrade makes the guard `scale < 0.3 and target_fps <= 5` fire |
| GifConversion.FullQualityBudget | FormatConversion/format_conversion.py:115-123 | for a capture of at least 10 fps without a requested width, the initial plan's rate goes 10, 8, 6, 4, and the plan allows 8 more encodes after the first |
| GifConversion.Prepare | FormatConversion/format_conversion.py:52-80 | a call that passes validation starts from a consistent plan and a frame window whose start is not after its end |
| GifConversion.WindowOrdered | FormatConversion/format_conversion.py:78-79 | a non-empty time window gives a start frame not after the end frame |
| GifConversion.PrepareFailures | FormatConversion/format_conversion.py:56-66 | a 0-fps capture fails first; then a clamped window that is empty fails; then a requested width of a 0-pixel-wide source fails; nothing else fails before reading |
| GifConversion.FirstSampling | FormatConversion/format_conversion.py:52-94 | a validated call first samples, in increasing order, exactly the frames from `int(start_time * fps)` up to before both `int(end_time * fps)` of the clamped end and the end of the stream whose index is a multiple of the initial interval; it fails instead exactly when there is such a frame and the initial plan has an empty size |
| GifConversion.FrameIndexIsProduct | FormatConversion/format_conversion.py:78-79 | the frame index of a time is `int(t * fps)` |
| GifConversion.EndWithinVideo | FormatConversion/format_conversion.py:56-60 | with the duration `total_frames / fps`, the end frame of the clamped window is never past the last frame of the video |
| GifConversion.TraceExtend | FormatConversion/format_conversion.py:100-146 | a chain of encodes, each following the last, stays one when the next encode follows |
| GifConversion.OnlyLastFits | FormatConversion/format_conversion.py:100-112 | after a successful call the last GIF is within the budget; every earlier GIF, and every GIF of a failed call, is over it |
| GifConversion.TraceRejectsAllButLast | FormatConversion/format_conversion.py:110-112 | in a chain of encodes every encode but the last was over the budget |
| GifConversion.TraceWithinBudget | FormatConversion/format_conversion.py:100-146 | a chain of encodes is at most one longer than the budget of its first plan, so the loop terminates |
| GifConversion.TraceNeverIncreases | FormatConversion/format_conversion.py:115-123 | along the chain every plan is consistent, and rate, scale, width and height never increase |
| GifConversion.Mp4ToGif | FormatConversion/format_conversion.py:30-156 | a failed validation fails with no encode; otherwise the encodes follow the degrade loop, end in one that fits or in the failure of the step after, and number at most 1 plus the budget; the temporary video never survives the call; after a failure the temporary GIF is gone, and after a success it exists exactly when it existed before or was written |
| GifConversion.HalfWidthClip | FormatConversion/format_conversion.py:52-79 | a 10 s clip at 30 fps, 960 pixels wide, cut to 5 s at 480 pixels starts at 10 fps, one frame in 3, scale 0.5 and 480 by 270 pixels, over frames 0 to 149 |
| Commission.RoiRate | ROI/ROIfunction.py:14-38 | the ROI rate lies between 0 and 0.02 |
| Commission.GmvMultiplier | ROI/ROIfunction.py:41-59 | the GMV multiplier lies between 0.6 and 2.0 |
| Commission.BonusForRatio | ROI/ROIfunction.py:74-81 | the bonus is one of 0, 0.03, 0.05, 0.1 and 0.2 |
| Commission.TaskBonus | ROI/ROIfunction.py:71-81 | without a positive target there is no bonus; the bonus is between 0 and 0.2 |
| Commission.CommissionRate | ROI/ROIfunction.py:62 | the commission rate lies between 0 and 0.04 |
| Commission.Usd | ROI/ROIfunction.py:62-65 | the USD commission is `gmv * roi_rate * gmv_multiplier`; for a non-negative GMV it is between 0 and 4% of the GMV, and for a non-positive GMV it is not positive |
| Commission.CalculateCommission | ROI/ROIfunction.py:1-83 | the USD commission is `gmv * roi_rate * gmv_multiplier`; the CNY commission is 7 times the USD one; the bonus is the task bonus, and 0 without a positive target |
| Commission.RoiRateIsTable | ROI/ROIfunction.py:14-38 | the ROI chain equals the sorted ROI table with lower bounds included |
| Commission.GmvMultiplierIsTable | ROI/ROIfunction.py:41-59 | the GMV chain equals the sorted GMV table with lower bounds excluded |
| Commission.BonusForRatioIsTable | ROI/ROIfunction.py:74-81 | the bonus tiers equal the sorted bonus table with thresholds included |
| Commission.StepAtBand | ROI/ROIfunction.py:14-38 | in the band between two consecutive thresholds a sorted table yields the value of the lower step |
| Commission.StepAtMonotone | ROI/ROIfunction.py:14-59 | a table whose values never decrease is a non-decreasing step function |
| Commission.RoiRateMonotone | ROI/ROIfunction.py:14-38 | a higher ROI never earns a lower rate |
| Commission.GmvMultiplierMonotone | ROI/ROIfunction.py:41-59 | a higher GMV never earns a lower multiplier |
| Commission.TaskBonusMonotone | ROI/ROIfunction.py:71-81 | for a fixed positive target a higher GMV never earns a lower bonus |
| Commission.TaskBonusEarned | ROI/ROIfunction.py:72-81 | a bonus is paid exactly when the target is positive and at least met |
| Commission.CommissionRateMonotone | ROI/ROIfunction.py:62 | for a fixed GMV a higher ROI never gives a lower commission rate |
| Commission.UsdBounds | ROI/ROIfunction.py:61-65 | for a non-negative GMV the USD commission is between 0 and 4% of the GMV |
| Commission.UsdMonotoneInRoi | ROI/ROIfunction.py:61-68 | for a fixed non-negative GMV a higher ROI never earns a lower USD, and so CNY, commission |

## Left out

- Decoding, seeking, resizing, colour conversion and GIF encoding are foreign library calls. A frame is identified by its counter value, the reader by how many frames it returns after the seek, and the encoder by an arbitrary size function.
- Writing the uploaded bytes, `os.path.getsize` and `os.remove` are file-system effects. The two temporary files are ghost booleans; a failing write or remove is not modelled.
- The message texts of the exceptions are not modelled. Every failure is one `Failure` value, re-raised as one wrapped exception.
- The per-frame duration handed to the encoder (`1000 / target_fps`) is not modelled. It only changes the encoded bytes, which the size function stands for.
- Any failure inside the foreign calls (an unreadable source, a failing encoder) is not modelled. `ResizeFailed` covers only a resize to an empty size.
- Floating point is modelled as exact reals. This covers the MiB division, `int()` of products, the 0.8 factor and all commission arithmetic. Float rounding at a band boundary, NaN and infinities are not modelled.
- `webp_to_jpg` in the same file is a plain image-library call with no logic of its own.
- The example call and prints after `calculate_commission` (lines 85-90) are I/O.
- The user interface files, the download tool, the CSV script and the other ROI scripts are not part of this model.
- GifConversion.PlanAspect: requires both source dimensions to be positive. A 0-pixel side has no aspect ratio to keep.
- GifConversion.Mp4ToGif: kept frames are described by their indices. The pixel content of the frames is not modelled.
