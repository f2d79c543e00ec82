/**
 * Model of `mp4_to_gif`, the controller that turns a clip of a video into a GIF
 * no larger than a byte budget, lowering the frame rate and then the size until
 * the encoded file fits.
 *
 * Decoding, resizing, colour conversion and GIF encoding are foreign library
 * calls and stay abstract here:
 *  - a frame is identified by the value of the frame counter when it was read;
 *  - after the seek the reader returns `available` frames and then reports the
 *    end of the stream;
 *  - the byte size of an encoded GIF is an arbitrary function `encodedSize` of
 *    what is handed to the encoder (an `Attempt`);
 *  - the two temporary files are ghost booleans saying whether they exist.
 */
module GifConversion {

  import opened RealArith

  datatype Option<T> = None | Some(value: T)
  datatype Result<T, E> = Ok(value: T) | Err(error: E)

  type pos = n: int | n >= 1 witness 1

  // Constants of the degradation policy and of the size check.
  const MaxTargetFps := 10
  const FpsFloor := 5
  const FpsStep := 2
  const ScaleStep := 0.8
  const ScaleFloor := 0.3
  const BytesPerMb := 1048576.0
  const TempOutput := "temp_output.gif"

  /** Properties read from the capture, each truncated to an integer. */
  datatype VideoInfo = VideoInfo(fps: nat, totalFrames: nat, width: nat, height: nat)

  /** The parameters the retry loop reassigns: `target_fps`, `frame_interval`,
      `scale`, `target_width` and `target_height`. */
  datatype Plan = Plan(fps: int, interval: pos, scale: real, width: int, height: int)

  /** One call of the encoder: the plan in effect and the kept frames. */
  datatype Attempt = Attempt(plan: Plan, frames: seq<int>)

  /** Why a call fails; every one is re-raised wrapped in one generic exception. */
  datatype Failure =
    | ZeroFps           // the capture reports 0 fps: division by zero for the duration
    | InvalidTimeRange  // the start time is not before the clamped end time
    | ZeroSourceWidth   // a target width is requested of a 0-pixel-wide source
    | ResizeFailed      // a kept frame is resized to an empty size
    | NoFramesToEncode  // a re-sampling kept no frame, so `frames[0]` fails
    | SizeUnattainable  // both degradation floors are reached

  datatype Outcome = Done(path: string) | Failed(reason: Failure)

  /** The frame window and the initial plan, fixed before any frame is read. */
  datatype Setup = Setup(startFrame: int, endFrame: int, plan: Plan)

  function Min(a: int, b: int): int { if a <= b then a else b }

  /** Python's `int()` on a float: truncation toward zero. */
  function Trunc(x: real): (n: int)
    ensures 0.0 <= x ==> 0 <= n && n as real <= x < n as real + 1.0
    ensures x < 0.0 ==> n <= 0 && n as real - 1.0 < x <= n as real
  {
    if x >= 0.0 then x.Floor else -((-x).Floor)
  }

  lemma TruncMonotone(x: real, y: real)
    requires x <= y
    ensures Trunc(x) <= Trunc(y)
  {
  }

  /** `n` copies of `s` added up, the product `n * s` of a count (pixels,
      frames per second) and a real (a scale, a time). It is defined by
      recursion so that only the lemmas below reason about products. */
  function Scaled(n: nat, s: real): real
    decreases n
  {
    if n == 0 then 0.0 else Scaled(n - 1, s) + s
  }

  lemma {:induction false} ScaledIsProduct(n: nat, s: real)
    ensures Scaled(n, s) == n as real * s
    decreases n
  {
    if n > 0 {
      ScaledIsProduct(n - 1, s);
      assert (n - 1) as real * s + s == n as real * s;
    }
  }

  lemma {:induction false} ScaledMonotone(n: nat, s: real, t: real)
    requires s <= t
    ensures Scaled(n, s) <= Scaled(n, t)
    decreases n
  {
    if n > 0 {
      ScaledMonotone(n - 1, s, t);
    }
  }

  lemma {:induction false} ScaledNonnegative(n: nat, s: real)
    requires 0.0 <= s
    ensures 0.0 <= Scaled(n, s)
    decreases n
  {
    if n > 0 {
      ScaledNonnegative(n - 1, s);
    }
  }

  function Duration(v: VideoInfo): real
    requires v.fps > 0
  {
    v.totalFrames as real / v.fps as real
  }

  /** The end of the window: the requested end, unless it is absent or past the
      end of the video. */
  function ClampEnd(endTime: Option<real>, duration: real): (t: real)
    ensures t <= duration
    ensures t == duration || endTime == Some(t)
    ensures endTime.Some? && endTime.value <= duration ==> t == endTime.value
  {
    if endTime.None? || endTime.value > duration then duration else endTime.value
  }

  /** Python truthiness of `target_width`: absent and 0 both keep the source width. */
  predicate Requested(targetWidth: Option<nat>)
  {
    targetWidth.Some? && targetWidth.value != 0
  }

  /** `a // d` on naturals, by repeated subtraction. */
  function Quotient(a: nat, d: pos): nat
    decreases a
  {
    if a < d then 0 else 1 + Quotient(a - d, d)
  }

  lemma MulLe(x: int, y: int, c: nat)
    requires x <= y
    ensures x * c <= y * c
  {
    assert y * c - x * c == (y - x) * c;
  }

  /** Floor division is the one `q` with `q * d <= a < (q + 1) * d`. */
  lemma DivisionUnique(a: nat, d: pos, q: nat)
    requires q * d <= a < (q + 1) * d
    ensures a / d == q
  {
    var r := a / d;
    assert r * d <= a < (r + 1) * d;
    if r < q {
      MulLe(r + 1, q, d);
      assert false;
    } else if r > q {
      MulLe(q + 1, r, d);
      assert false;
    }
  }

  /** The quotient is Python's (and Dafny's) floor division. */
  lemma QuotientIsDivision(a: nat, d: pos)
    ensures Quotient(a, d) == a / d
  {
    QuotientBounds(a, d);
    DivisionUnique(a, d, Quotient(a, d));
  }

  /** The quotient is the number of whole `d`s in `a`. */
  lemma {:induction false} QuotientBounds(a: nat, d: pos)
    ensures Quotient(a, d) * d <= a < (Quotient(a, d) + 1) * d
    decreases a
  {
    if a >= d {
      var q := Quotient(a - d, d);
      QuotientBounds(a - d, d);
      assert (q + 1) * d == q * d + d;
      assert (q + 2) * d == (q + 1) * d + d;
    }
  }

  /** A larger dividend never gives a smaller quotient. */
  lemma {:induction false} QuotientMonotone(a: nat, b: nat, d: pos)
    requires a <= b
    ensures Quotient(a, d) <= Quotient(b, d)
    decreases a
  {
    if a >= d {
      QuotientMonotone(a - d, b - d, d);
    }
  }

  /** A larger divisor never gives a larger quotient. */
  lemma {:induction false} QuotientAntitone(a: nat, d: pos, e: pos)
    requires d <= e
    ensures Quotient(a, e) <= Quotient(a, d)
    decreases a
  {
    if a >= e {
      QuotientAntitone(a - e, d, e);
      QuotientMonotone(a - e, a - d, d);
    }
  }

  /** `max(1, fps // target_fps)`: the stride that brings the source rate down
      to about the target rate. */
  function IntervalFor(sourceFps: nat, targetFps: pos): pos
  {
    var q := Quotient(sourceFps, targetFps);
    if q >= 1 then q else 1
  }

  /** The interval is `max(1, fps // target_fps)` with floor division. */
  lemma IntervalIsFloorDivision(sourceFps: nat, targetFps: pos)
    ensures IntervalFor(sourceFps, targetFps)
      == if sourceFps / targetFps >= 1 then sourceFps / targetFps else 1
  {
    QuotientIsDivision(sourceFps, targetFps);
  }

  /** Keeping one frame in `IntervalFor(fps, t)` gives a rate of at least `t`
      and less than `2 * t` frames per second, when `t <= fps`. */
  lemma IntervalRate(sourceFps: nat, targetFps: pos)
    requires targetFps <= sourceFps
    ensures IntervalFor(sourceFps, targetFps) * targetFps <= sourceFps
    ensures sourceFps < (IntervalFor(sourceFps, targetFps) + 1) * targetFps
  {
    QuotientBounds(sourceFps, targetFps);
  }

  /** What every plan the loop holds satisfies: the rate is positive and at most
      the initial target, the interval matches the rate, and both dimensions are
      the truncated source dimensions times the scale. */
  predicate Consistent(p: Plan, v: VideoInfo)
  {
    1 <= p.fps <= Min(MaxTargetFps, v.fps)
    && p.interval == IntervalFor(v.fps, p.fps)
    && 0.0 < p.scale
    && p.width == Trunc(Scaled(v.width, p.scale))
    && p.height == Trunc(Scaled(v.height, p.scale))
  }

  /** The dimensions of a consistent plan are `int(original * scale)`. */
  lemma ConsistentDimensions(p: Plan, v: VideoInfo)
    requires Consistent(p, v)
    ensures p.width == Trunc(v.width as real * p.scale)
    ensures p.height == Trunc(v.height as real * p.scale)
  {
    ScaledIsProduct(v.width, p.scale);
    ScaledIsProduct(v.height, p.scale);
  }

  lemma RatioPositive(w: nat, d: nat)
    requires d > 0 && w > 0
    ensures 0.0 < w as real / d as real
  {
  }

  lemma WidthScalesBack(w: nat, d: nat)
    requires d > 0
    ensures Trunc(Scaled(d, w as real / d as real)) == w
  {
    ScaledIsProduct(d, w as real / d as real);
    var x := d as real * (w as real / d as real);
    assert x == w as real;
    assert Trunc(w as real) == w;
  }

  /** The plan before the first encode (lines 65-75). */
  function InitialPlan(v: VideoInfo, targetWidth: Option<nat>): (p: Plan)
    requires v.fps > 0
    requires Requested(targetWidth) ==> v.width > 0
    ensures Consistent(p, v)
    ensures p.fps == Min(MaxTargetFps, v.fps)
    ensures Requested(targetWidth) ==> p.width == targetWidth.value
    ensures Requested(targetWidth) ==>
      p.scale == targetWidth.value as real / v.width as real
      && p.height == Trunc(v.height as real * p.scale)
    ensures !Requested(targetWidth) ==> p.scale == 1.0 && p.width == v.width && p.height == v.height
  {
    var fps := Min(MaxTargetFps, v.fps);
    if Requested(targetWidth) then
      var w := targetWidth.value;
      var scale := w as real / v.width as real;
      RequestedPlanConsistent(v, w);
      ScaledIsProduct(v.height, scale);
      Plan(fps, IntervalFor(v.fps, fps), scale, w, Trunc(Scaled(v.height, scale)))
    else
      KeptPlanConsistent(v);
      Plan(fps, IntervalFor(v.fps, fps), 1.0, v.width, v.height)
  }

  lemma RequestedPlanConsistent(v: VideoInfo, w: nat)
    requires v.fps > 0 && v.width > 0 && w > 0
    ensures var fps := Min(MaxTargetFps, v.fps);
      var scale := w as real / v.width as real;
      Consistent(Plan(fps, IntervalFor(v.fps, fps), scale, w, Trunc(Scaled(v.height, scale))), v)
  {
    RatioPositive(w, v.width);
    WidthScalesBack(w, v.width);
  }

  lemma KeptPlanConsistent(v: VideoInfo)
    requires v.fps > 0
    ensures var fps := Min(MaxTargetFps, v.fps);
      Consistent(Plan(fps, IntervalFor(v.fps, fps), 1.0, v.width, v.height), v)
  {
    ScaledIsProduct(v.width, 1.0);
    ScaledIsProduct(v.height, 1.0);
    assert Trunc(v.width as real) == v.width;
    assert Trunc(v.height as real) == v.height;
  }

  /** The real arithmetic behind `CrossBound`: `w <= W * s` and
      `H * s < h + 1` give `w * H < (h + 1) * W`. */
  lemma CrossCore(w: real, h: real, W: real, H: real, s: real)
    requires 0.0 < W && 0.0 <= H
    requires w <= W * s && H * s < h + 1.0
    ensures w * H < h * W + W
  {
    MulMonotone(w, W * s, H);
    MulStrict(H * s, h + 1.0, W);
    calc {
      w * H;
    <=
      (W * s) * H;
    ==
      (H * s) * W;
    <
      (h + 1.0) * W;
    ==
      h * W + W;
    }
  }

  /** `CrossCore` for two truncated dimensions, stated on integer products. */
  lemma CrossReal(w: int, h: int, width: nat, height: nat, s: real)
    requires 0 < width
    requires w as real <= Scaled(width, s) && Scaled(height, s) < h as real + 1.0
    ensures (w * height) as real < (h * width) as real + width as real
  {
    ScaledIsProduct(width, s);
    ScaledIsProduct(height, s);
    CrossCore(w as real, h as real, width as real, height as real, s);
    RealProduct(w, height);
    RealProduct(h, width);
  }

  lemma RealProduct(a: int, b: int)
    ensures (a * b) as real == a as real * b as real
  {
  }

  /** Two dimensions truncated from the same scale, cross-multiplied with the
      source dimensions, differ by less than one source dimension. */
  lemma CrossBound(w: int, h: int, width: nat, height: nat, s: real)
    requires 0.0 < s && 0 < width
    requires w == Trunc(Scaled(width, s)) && h == Trunc(Scaled(height, s))
    ensures w * height - h * width < width
  {
    ScaledNonnegative(width, s);
    CrossReal(w, h, width, height, s);
  }

  /** Every consistent plan keeps the source aspect ratio up to truncation:
      `width / height` and `v.width / v.height` agree to within one pixel of
      either dimension. */
  lemma PlanAspect(p: Plan, v: VideoInfo)
    requires Consistent(p, v) && v.width > 0 && v.height > 0
    ensures p.width * v.height - p.height * v.width < v.width
    ensures p.height * v.width - p.width * v.height < v.height
  {
    CrossBound(p.width, p.height, v.width, v.height, p.scale);
    CrossBound(p.height, p.width, v.height, v.width, p.scale);
  }

  /** One degrade step (lines 115-123): first the rate drops by 2, and only once
      it is at most 5 the scale shrinks by a factor 0.8. */
  function Degrade(p: Plan, v: VideoInfo): (q: Plan)
    ensures q.fps <= p.fps
    ensures q.fps >= 4 || q.fps == p.fps
  {
    if p.fps > FpsFloor then
      p.(fps := p.fps - FpsStep, interval := IntervalFor(v.fps, p.fps - FpsStep))
    else
      var scale := p.scale * ScaleStep;
      p.(scale := scale,
         width := Trunc(Scaled(v.width, scale)),
         height := Trunc(Scaled(v.height, scale)))
  }

  lemma ShrinkDimension(n: nat, s: real)
    requires 0.0 < s
    ensures Trunc(Scaled(n, s * ScaleStep)) <= Trunc(Scaled(n, s))
  {
    ScaledMonotone(n, s * ScaleStep, s);
    TruncMonotone(Scaled(n, s * ScaleStep), Scaled(n, s));
  }

  /** A rate step lowers the rate by 2, keeps scale and dimensions, and keeps
      one frame in at least as many as before. */
  lemma DegradeRateStep(p: Plan, v: VideoInfo)
    requires Consistent(p, v) && p.fps > FpsFloor
    ensures var q := Degrade(p, v);
      Consistent(q, v) && q.fps == p.fps - FpsStep && q.interval >= p.interval
      && q.scale == p.scale && q.width == p.width && q.height == p.height
  {
    QuotientAntitone(v.fps, p.fps - FpsStep, p.fps);
  }

  /** A scale step shrinks the scale by the factor 0.8, keeps rate and
      interval, and never enlarges a dimension. */
  lemma DegradeScaleStep(p: Plan, v: VideoInfo)
    requires Consistent(p, v) && p.fps <= FpsFloor
    ensures var q := Degrade(p, v);
      Consistent(q, v) && q.fps == p.fps && q.interval == p.interval
      && q.scale == p.scale * ScaleStep && q.width <= p.width && q.height <= p.height
  {
    ShrinkDimension(v.width, p.scale);
    ShrinkDimension(v.height, p.scale);
  }

  /** A degrade step keeps the plan consistent, changes exactly one of rate and
      scale, and never raises the rate, the scale or a dimension. */
  lemma DegradeStep(p: Plan, v: VideoInfo)
    requires Consistent(p, v)
    ensures var q := Degrade(p, v);
      Consistent(q, v)
      && q.fps <= p.fps && q.scale <= p.scale
      && q.width <= p.width && q.height <= p.height && q.interval >= p.interval
      && ((q.fps < p.fps && q.scale == p.scale)
          || (q.fps == p.fps && q.scale < p.scale && q.interval == p.interval))
  {
    if p.fps > FpsFloor {
      DegradeRateStep(p, v);
    } else {
      DegradeScaleStep(p, v);
    }
  }

  /** The unattainability guard of line 145. */
  predicate GivesUp(p: Plan)
  {
    p.scale < ScaleFloor && p.fps <= FpsFloor
  }

  /** The last counter value the reading loop reaches: the end of the window,
      or where the reader reports the end of the stream. */
  function StopFrame(startFrame: int, endFrame: int, available: nat): int
  {
    Min(endFrame, startFrame + available)
  }

  /** The counter values in [lo, hi) that are multiples of k, in the order read. */
  function Selected(lo: int, hi: int, k: pos): seq<int>
    decreases hi - lo
  {
    if hi <= lo then [] else Selected(lo, hi - 1, k) + (if (hi - 1) % k == 0 then [hi - 1] else [])
  }

  /** Selection keeps exactly the indices of the window divisible by the interval. */
  lemma {:induction false} SelectedMembers(lo: int, hi: int, k: pos, i: int)
    ensures i in Selected(lo, hi, k) <==> lo <= i < hi && i % k == 0
    decreases hi - lo
  {
    if hi > lo {
      SelectedMembers(lo, hi - 1, k, i);
    }
  }

  /** Selection lists the kept indices in strictly increasing order. */
  lemma {:induction false} SelectedIncreasing(lo: int, hi: int, k: pos)
    ensures forall a, b :: 0 <= a < b < |Selected(lo, hi, k)| ==> Selected(lo, hi, k)[a] < Selected(lo, hi, k)[b]
    decreases hi - lo
  {
    if hi > lo {
      SelectedIncreasing(lo, hi - 1, k);
      var prev := Selected(lo, hi - 1, k);
      forall a | 0 <= a < |prev|
        ensures prev[a] < hi - 1
      {
        SelectedMembers(lo, hi - 1, k, prev[a]);
      }
    }
  }

  /** One pass of the reading loop (lines 82-94 and 126-141): the kept frames,
      or a resize failure when a kept frame would get an empty size. */
  function Sampled(startFrame: int, endFrame: int, available: nat, p: Plan): Result<seq<int>, Failure>
  {
    var kept := Selected(startFrame, StopFrame(startFrame, endFrame, available), p.interval);
    if kept != [] && (p.width <= 0 || p.height <= 0) then Err(ResizeFailed) else Ok(kept)
  }

  /** Frame `i` is one a pass over [lo, hi) keeps under interval `k`. */
  predicate Kept(i: int, lo: int, hi: int, k: pos)
  {
    lo <= i < hi && i % k == 0
  }

  /** A pass keeps, in increasing order, exactly the frames of the window
      before the end of the stream whose index is a multiple of the interval;
      it fails exactly when there is such a frame and the size is empty. */
  lemma SampledFrames(startFrame: int, endFrame: int, available: nat, p: Plan, i: int)
    ensures var r := Sampled(startFrame, endFrame, available, p);
      var hi := Min(endFrame, startFrame + available);
      (r.Ok? ==> (i in r.value <==> startFrame <= i < hi && i % p.interval == 0))
      && (r.Ok? ==> forall a, b :: 0 <= a < b < |r.value| ==> r.value[a] < r.value[b])
      && (r.Err? ==> r == Err(ResizeFailed) && (p.width <= 0 || p.height <= 0))
      && (r.Err? ==> exists j :: Kept(j, startFrame, hi, p.interval))
      && (startFrame <= i < hi && i % p.interval == 0 && (p.width <= 0 || p.height <= 0) ==> r.Err?)
  {
    var hi := StopFrame(startFrame, endFrame, available);
    var kept := Selected(startFrame, hi, p.interval);
    SelectedMembers(startFrame, hi, p.interval, i);
    SelectedIncreasing(startFrame, hi, p.interval);
    if kept != [] {
      SelectedMembers(startFrame, hi, p.interval, kept[0]);
      assert Kept(kept[0], startFrame, hi, p.interval);
    }
  }

  /** The reading loop: seek to `startFrame`, read until `endFrame` or the end
      of the stream, and keep every frame whose counter is a multiple of the
      interval, resized to the plan's dimensions. */
  method SampleFrames(startFrame: int, endFrame: int, available: nat, p: Plan)
    returns (r: Result<seq<int>, Failure>)
    ensures r == Sampled(startFrame, endFrame, available, p)
  {
    var frames := [];
    var count := startFrame;
    while count < endFrame
      invariant startFrame <= count
      invariant count - startFrame <= available
      invariant count <= endFrame || count == startFrame
      invariant frames == Selected(startFrame, count, p.interval)
      invariant p.width <= 0 || p.height <= 0 ==> frames == []
      decreases endFrame - count
    {
      if count - startFrame == available {
        break;  // the reader reports the end of the stream
      }
      if count % p.interval == 0 {
        if p.width <= 0 || p.height <= 0 {
          SelectedMembers(startFrame, StopFrame(startFrame, endFrame, available), p.interval, count);
          return Err(ResizeFailed);
        }
        frames := frames + [count];
      }
      count := count + 1;
    }
    return Ok(frames);
  }

  /** The steps after a degrade (lines 125-146) and the `frames[0]` of the next
      pass (line 101): the frames of the next encode, or why the call fails. */
  function AfterDegrade(s: Setup, available: nat, p: Plan): Result<seq<int>, Failure>
  {
    match Sampled(s.startFrame, s.endFrame, available, p)
    case Err(e) => Err(e)
    case Ok(frames) =>
      if GivesUp(p) then Err(SizeUnattainable)
      else if frames == [] then Err(NoFramesToEncode)
      else Ok(frames)
  }

  /** After a degrade the call fails, in this order: when re-sampling fails;
      else when the guard of line 145 fires; else when no frame was kept. */
  lemma AfterDegradeFailures(s: Setup, available: nat, p: Plan)
    ensures var sampled := Sampled(s.startFrame, s.endFrame, available, p);
      (AfterDegrade(s, available, p) == Err(ResizeFailed) <==> sampled.Err?)
      && (AfterDegrade(s, available, p) == Err(SizeUnattainable) <==> sampled.Ok? && GivesUp(p))
      && (AfterDegrade(s, available, p) == Err(NoFramesToEncode)
          <==> sampled == Ok([]) && !GivesUp(p))
      && (AfterDegrade(s, available, p).Ok? <==> sampled.Ok? && sampled.value != [] && !GivesUp(p))
  {
    SampledFrames(s.startFrame, s.endFrame, available, p, 0);
  }

  /** The size test of lines 110-111, on the size in MiB. */
  predicate Fits(size: nat, maxSizeMb: real)
    ensures Fits(size, maxSizeMb) <==> size as real <= maxSizeMb * BytesPerMb
  {
    size as real / BytesPerMb <= maxSizeMb
  }

  /** Number of rate decrements from `fps` before the rate is at most 5. */
  function FpsSteps(fps: int): nat
    decreases fps
  {
    if fps > FpsFloor then 1 + FpsSteps(fps - FpsStep) else 0
  }

  /** Number of factors 0.8 that `scale` takes before it is below 0.3. */
  function ScaleSteps(scale: real): nat
    decreases if scale < ScaleFloor then 0 else (scale * 20.0).Floor
  {
    if scale < ScaleFloor then 0 else 1 + ScaleSteps(scale * ScaleStep)
  }

  /** `scale` shrunk n times by the factor 0.8. */
  function Shrunk(scale: real, n: nat): real
    decreases n
  {
    if n == 0 then scale else Shrunk(scale * ScaleStep, n - 1)
  }

  /** ScaleSteps counts exactly the shrinks that keep the scale at 0.3 or more. */
  lemma {:induction false} ScaleStepsExact(scale: real)
    ensures Shrunk(scale, ScaleSteps(scale)) < ScaleFloor
    ensures forall j :: 0 <= j < ScaleSteps(scale) ==> Shrunk(scale, j) >= ScaleFloor
    decreases if scale < ScaleFloor then 0 else (scale * 20.0).Floor
  {
    if scale >= ScaleFloor {
      ScaleStepsExact(scale * ScaleStep);
      forall j | 0 < j < ScaleSteps(scale)
        ensures Shrunk(scale, j) >= ScaleFloor
      {
        assert Shrunk(scale, j) == Shrunk(scale * ScaleStep, j - 1);
      }
    }
  }

  /** Encodes still possible after the one for plan `p`, if none fits. */
  function Budget(p: Plan): nat
  {
    FpsSteps(p.fps) + ScaleSteps(p.scale * ScaleStep)
  }

  /** Every degrade step that passes the guard uses up one unit of the budget,
      which is what makes the loop terminate. */
  lemma DegradeSpendsBudget(p: Plan, v: VideoInfo)
    requires !GivesUp(Degrade(p, v))
    ensures Budget(Degrade(p, v)) + 1 == Budget(p)
  {
    if p.fps <= FpsFloor {
      assert ScaleSteps(p.scale * ScaleStep) == 1 + ScaleSteps(p.scale * ScaleStep * ScaleStep);
    }
  }

  /** Once the budget is spent, the next degrade makes the guard of line 145
      fire, so the loop cannot encode again. */
  lemma GuardFiresWhenSpent(p: Plan, v: VideoInfo)
    requires Budget(p) == 0
    ensures GivesUp(Degrade(p, v))
  {
    assert FpsSteps(p.fps) == 0 && ScaleSteps(p.scale * ScaleStep) == 0;
  }

  /** From full quality at 10 fps the rate goes 10, 8, 6, 4 and the scale then
      shrinks 5 times before the guard fires: at most 9 encodes. */
  lemma FullQualityBudget(v: VideoInfo)
    requires v.fps >= MaxTargetFps
    ensures FpsSteps(10) == 3
    ensures var p := InitialPlan(v, None);
      p.fps == 10 && p.scale == 1.0
      && Degrade(p, v).fps == 8 && Degrade(Degrade(p, v), v).fps == 6
      && Degrade(Degrade(Degrade(p, v), v), v).fps == 4
      && Budget(p) == 8
  {
    assert FpsSteps(4) == 0;
    assert ScaleSteps(0.8 * 0.8 * 0.8 * 0.8 * 0.8 * 0.8) == 0;
    assert ScaleSteps(0.8 * 0.8 * 0.8 * 0.8 * 0.8) == 1;
    assert ScaleSteps(0.8 * 0.8 * 0.8 * 0.8) == 2;
    assert ScaleSteps(0.8 * 0.8 * 0.8) == 3;
    assert ScaleSteps(0.8 * 0.8) == 4;
    assert ScaleSteps(1.0 * 0.8) == 5;
  }

  /** The part of lines 52-79 before any frame is read: validation of the time
      window, the frame window and the initial plan. */
  function Prepare(v: VideoInfo, startTime: real, endTime: Option<real>, targetWidth: Option<nat>)
    : (r: Result<Setup, Failure>)
    ensures r.Ok? ==> Consistent(r.value.plan, v) && r.value.startFrame <= r.value.endFrame
  {
    if v.fps == 0 then Err(ZeroFps)
    else
      var endT := ClampEnd(endTime, Duration(v));
      if startTime >= endT then Err(InvalidTimeRange)
      else if Requested(targetWidth) && v.width == 0 then Err(ZeroSourceWidth)
      else
        WindowOrdered(startTime, endT, v.fps);
        var first, last := FrameIndex(startTime, v.fps), FrameIndex(endT, v.fps);
        assert first <= last;
        Ok(Setup(first, last, InitialPlan(v, targetWidth)))
  }

  /** The frame index of time `t` (seconds) at `fps` frames per second,
      truncated toward zero like `int(t * fps)`. */
  function FrameIndex(t: real, fps: nat): int { Trunc(Scaled(fps, t)) }

  /** The frame index is `int(t * fps)`. */
  lemma FrameIndexIsProduct(t: real, fps: nat)
    ensures FrameIndex(t, fps) == Trunc(fps as real * t)
  {
    ScaledIsProduct(fps, t);
  }

  /** The clamped end of the window is never past the last frame of the video. */
  lemma EndWithinVideo(v: VideoInfo, endTime: Option<real>)
    requires v.fps > 0
    ensures FrameIndex(ClampEnd(endTime, Duration(v)), v.fps) <= v.totalFrames
  {
    var d := Duration(v);
    ScaledMonotone(v.fps, ClampEnd(endTime, d), d);
    TruncMonotone(Scaled(v.fps, ClampEnd(endTime, d)), Scaled(v.fps, d));
    ScaledIsProduct(v.fps, d);
    assert v.fps as real * d == v.totalFrames as real;
    assert Trunc(v.totalFrames as real) == v.totalFrames;
  }

  /** A non-empty time window gives a frame window whose start is not after
      its end. */
  lemma WindowOrdered(startTime: real, endTime: real, fps: nat)
    requires startTime < endTime && fps > 0
    ensures FrameIndex(startTime, fps) <= FrameIndex(endTime, fps)
  {
    ScaledMonotone(fps, startTime, endTime);
    TruncMonotone(Scaled(fps, startTime), Scaled(fps, endTime));
  }

  /** A 0-fps capture fails first (the division for the duration); then a
      window that is empty once clamped fails before any frame is read; then a
      requested width of a 0-pixel-wide source fails (the division for the
      scale). */
  lemma PrepareFailures(v: VideoInfo, startTime: real, endTime: Option<real>, targetWidth: Option<nat>)
    ensures Prepare(v, startTime, endTime, targetWidth) == Err(ZeroFps) <==> v.fps == 0
    ensures v.fps > 0 ==>
      (Prepare(v, startTime, endTime, targetWidth) == Err(InvalidTimeRange)
       <==> startTime >= ClampEnd(endTime, Duration(v)))
    ensures v.fps > 0 && startTime < ClampEnd(endTime, Duration(v)) ==>
      (Prepare(v, startTime, endTime, targetWidth).Err?
       <==> Requested(targetWidth) && v.width == 0)
  {
  }

  /** A call that passes validation samples, in increasing order, exactly the
      frames `i` with `int(start_time * fps) <= i`, `i` before both
      `int(end_time * fps)` (with the clamped end) and the end of the stream,
      and `i % frame_interval == 0`, under the initial plan; it fails instead
      exactly when such a frame exists and the plan has an empty size.
      `FrameIndexIsProduct` shows that `FrameIndex(t, fps)` is `int(t * fps)`. */
  lemma FirstSampling(v: VideoInfo, startTime: real, endTime: Option<real>, targetWidth: Option<nat>,
                      available: nat, i: int)
    requires Prepare(v, startTime, endTime, targetWidth).Ok?
    ensures var s := Prepare(v, startTime, endTime, targetWidth).value;
      var lo := FrameIndex(startTime, v.fps);
      var hi := Min(FrameIndex(ClampEnd(endTime, Duration(v)), v.fps), lo + available);
      var r := Sampled(s.startFrame, s.endFrame, available, s.plan);
      s.plan == InitialPlan(v, targetWidth)
      && (r.Ok? ==> (i in r.value <==> lo <= i < hi && i % s.plan.interval == 0))
      && (r.Ok? ==> forall a, b :: 0 <= a < b < |r.value| ==> r.value[a] < r.value[b])
      && (r.Err? ==> r == Err(ResizeFailed) && (s.plan.width <= 0 || s.plan.height <= 0))
      && (r.Err? ==> exists j :: Kept(j, lo, hi, s.plan.interval))
      && (lo <= i < hi && i % s.plan.interval == 0 && (s.plan.width <= 0 || s.plan.height <= 0) ==> r.Err?)
  {
    var s := Prepare(v, startTime, endTime, targetWidth).value;
    SampledFrames(s.startFrame, s.endFrame, available, s.plan, i);
  }

  /** What a call sees besides the plan: the video, the frame window, the
      reader's bound, the size of each encode and the budget in MiB. */
  datatype Env = Env(v: VideoInfo, s: Setup, available: nat, encodedSize: Attempt -> nat, maxSizeMb: real)

  /** The encode `next` comes from `prev`: `prev` did not fit, the plan was
      degraded, and re-sampling under the new plan passed the guard. */
  predicate Follows(e: Env, prev: Attempt, next: Attempt)
  {
    !Fits(e.encodedSize(prev), e.maxSizeMb)
    && next.plan == Degrade(prev.plan, e.v)
    && AfterDegrade(e.s, e.available, next.plan) == Ok(next.frames)
  }

  /** Every encode after the first comes from the one before it. */
  predicate TraceFollows(e: Env, attempts: seq<Attempt>)
    decreases |attempts|
  {
    |attempts| <= 1 || (Follows(e, attempts[0], attempts[1]) && TraceFollows(e, attempts[1..]))
  }

  lemma {:induction false} TraceExtend(e: Env, attempts: seq<Attempt>, next: Attempt)
    requires attempts != [] && TraceFollows(e, attempts)
    requires Follows(e, attempts[|attempts| - 1], next)
    ensures TraceFollows(e, attempts + [next])
    decreases |attempts|
  {
    if |attempts| > 1 {
      assert (attempts + [next])[1..] == attempts[1..] + [next];
      TraceExtend(e, attempts[1..], next);
    }
  }

  /** What a call that passed validation does: no encode and a returned path
      when the first sampling keeps nothing; otherwise a chain of encodes from
      the initial plan, ending either in one that fits (success) or in the
      failure of the step after the last. */
  predicate Conforms(e: Env, r: Outcome, attempts: seq<Attempt>)
  {
    var first := Sampled(e.s.startFrame, e.s.endFrame, e.available, e.s.plan);
    (r.Done? ==> r.path == TempOutput)
    && if attempts == [] then
         (first == Ok([]) && r.Done?) || (first.Err? && r == Failed(first.error))
       else
         first == Ok(attempts[0].frames) && attempts[0].frames != [] && attempts[0].plan == e.s.plan
         && TraceFollows(e, attempts)
         && var last := attempts[|attempts| - 1];
            (r.Done? <==> Fits(e.encodedSize(last), e.maxSizeMb))
            && (r.Failed? ==> AfterDegrade(e.s, e.available, Degrade(last.plan, e.v)) == Err(r.reason))
  }

  /** A successful call that encoded anything left a GIF within the budget, and
      a failed one never had an encode within it. */
  lemma {:induction false} OnlyLastFits(e: Env, r: Outcome, attempts: seq<Attempt>)
    requires Conforms(e, r, attempts)
    ensures r.Done? && attempts != [] ==>
      e.encodedSize(attempts[|attempts| - 1]) as real <= e.maxSizeMb * BytesPerMb
    ensures forall k :: 0 <= k < |attempts| && (r.Failed? || k < |attempts| - 1) ==>
      e.encodedSize(attempts[k]) as real > e.maxSizeMb * BytesPerMb
  {
    if attempts != [] {
      TraceRejectsAllButLast(e, attempts);
    }
  }

  lemma {:induction false} TraceRejectsAllButLast(e: Env, attempts: seq<Attempt>)
    requires TraceFollows(e, attempts)
    ensures forall k :: 0 <= k < |attempts| - 1 ==> !Fits(e.encodedSize(attempts[k]), e.maxSizeMb)
    decreases |attempts|
  {
    if |attempts| > 1 {
      TraceRejectsAllButLast(e, attempts[1..]);
      forall k | 0 < k < |attempts| - 1
        ensures !Fits(e.encodedSize(attempts[k]), e.maxSizeMb)
      {
        assert attempts[k] == attempts[1..][k - 1];
      }
    }
  }

  /** The number of encodes is bounded by the rate steps plus the scale steps. */
  lemma {:induction false} TraceWithinBudget(e: Env, attempts: seq<Attempt>)
    requires TraceFollows(e, attempts)
    requires attempts != []
    ensures |attempts| <= 1 + Budget(attempts[0].plan)
    decreases |attempts|
  {
    if |attempts| > 1 {
      TraceWithinBudget(e, attempts[1..]);
      DegradeSpendsBudget(attempts[0].plan, e.v);
    }
  }

  /** Along the chain of encodes no quality ever increases: rate, scale, width
      and height only go down, and every plan stays consistent. */
  lemma {:induction false} TraceNeverIncreases(e: Env, attempts: seq<Attempt>)
    requires TraceFollows(e, attempts)
    requires attempts != [] && Consistent(attempts[0].plan, e.v)
    ensures forall j :: 0 <= j < |attempts| ==> Consistent(attempts[j].plan, e.v)
    ensures forall i, j :: 0 <= i <= j < |attempts| ==>
      attempts[j].plan.fps <= attempts[i].plan.fps && attempts[j].plan.scale <= attempts[i].plan.scale
      && attempts[j].plan.width <= attempts[i].plan.width && attempts[j].plan.height <= attempts[i].plan.height
    decreases |attempts|
  {
    if |attempts| > 1 {
      var tail := attempts[1..];
      DegradeStep(attempts[0].plan, e.v);
      TraceNeverIncreases(e, tail);
      forall j | 0 < j < |attempts|
        ensures attempts[j] == tail[j - 1]
      {
      }
    }
  }

  /**
   * `mp4_to_gif` (lines 30-156). The source is written to the temporary video
   * file, validated and sampled; while frames were kept, they are encoded, and
   * a GIF over the budget makes the plan degrade and the frames be re-read.
   * `outputBefore` says whether a GIF from an earlier call is already at the
   * fixed output path; `videoLeft` and `outputLeft` say whether each temporary
   * file exists when the call returns.
   */
  method Mp4ToGif(v: VideoInfo, available: nat, encodedSize: Attempt -> nat, maxSizeMb: real,
                  startTime: real, endTime: Option<real>, targetWidth: Option<nat>,
                  ghost outputBefore: bool)
    returns (r: Outcome, attempts: seq<Attempt>, ghost videoLeft: bool, ghost outputLeft: bool)
    ensures Prepare(v, startTime, endTime, targetWidth).Err? ==>
      r == Failed(Prepare(v, startTime, endTime, targetWidth).error) && attempts == []
    ensures Prepare(v, startTime, endTime, targetWidth).Ok? ==>
      var e := Env(v, Prepare(v, startTime, endTime, targetWidth).value, available, encodedSize, maxSizeMb);
      Conforms(e, r, attempts) && |attempts| <= 1 + Budget(e.s.plan)
    ensures !videoLeft
    ensures r.Failed? ==> !outputLeft
    ensures r.Done? ==> outputLeft == (outputBefore || attempts != [])
  {
    videoLeft, outputLeft := true, outputBefore;  // the source is written to the temporary video
    attempts := [];
    var prepared := Prepare(v, startTime, endTime, targetWidth);
    if prepared.Err? {
      r := Failed(prepared.error);
      videoLeft, outputLeft := false, false;
      return;
    }
    var s := prepared.value;
    ghost var e := Env(v, s, available, encodedSize, maxSizeMb);
    var plan := s.plan;
    var sampled := SampleFrames(s.startFrame, s.endFrame, available, plan);
    if sampled.Err? {
      r := Failed(sampled.error);
      videoLeft, outputLeft := false, false;
      return;
    }
    var frames := sampled.value;
    if frames != [] {
      while true
        invariant attempts == [] ==> plan == s.plan && frames == sampled.value
        invariant attempts != [] ==>
          attempts[0] == Attempt(s.plan, sampled.value)
          && TraceFollows(e, attempts)
          && !Fits(encodedSize(attempts[|attempts| - 1]), maxSizeMb)
          && plan == Degrade(attempts[|attempts| - 1].plan, v)
          && AfterDegrade(s, available, plan) == Ok(frames)
        invariant |attempts| + Budget(plan) == Budget(s.plan)
        invariant outputLeft == (outputBefore || attempts != [])
        decreases Budget(plan)
      {
        var attempt := Attempt(plan, frames);
        if attempts != [] {
          TraceExtend(e, attempts, attempt);
        }
        attempts := attempts + [attempt];
        outputLeft := true;
        if Fits(encodedSize(attempt), maxSizeMb) {
          break;
        }
        var next := Degrade(plan, v);
        var resampled := SampleFrames(s.startFrame, s.endFrame, available, next);
        if resampled.Err? {
          r := Failed(resampled.error);
          videoLeft, outputLeft := false, false;
          return;
        }
        if GivesUp(next) {
          r := Failed(SizeUnattainable);
          videoLeft, outputLeft := false, false;
          return;
        }
        if resampled.value == [] {
          // the next `frames[0]` raises before anything is written
          r := Failed(NoFramesToEncode);
          videoLeft, outputLeft := false, false;
          return;
        }
        DegradeSpendsBudget(plan, v);
        plan, frames := next, resampled.value;
      }
    }
    videoLeft := false;
    r := Done(TempOutput);
  }

  /** A 10 s clip at 30 fps, 960 pixels wide, cut to its first 5 s at 480
      pixels: rate 10, one frame in 3, half scale, frames 0 to 149. */
  lemma HalfWidthClip()
    ensures Prepare(VideoInfo(30, 300, 960, 540), 0.0, Some(5.0), Some(480))
      == Ok(Setup(0, 150, Plan(10, 3, 0.5, 480, 270)))
  {
    var v := VideoInfo(30, 300, 960, 540);
    assert Duration(v) == 10.0;
    assert ClampEnd(Some(5.0), 10.0) == 5.0;
    ScaledIsProduct(30, 0.0);
    ScaledIsProduct(30, 5.0);
    ScaledIsProduct(540, 0.5);
    assert FrameIndex(0.0, 30) == 0;
    assert FrameIndex(5.0, 30) == 150;
    assert Quotient(30, 10) == 3;
    assert 480 as real / 960 as real == 0.5;
    assert InitialPlan(v, Some(480)) == Plan(10, 3, 0.5, 480, 270);
  }
}
