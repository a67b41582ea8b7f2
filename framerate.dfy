/** The frame-skip controller: the skip table {1, 2, 4, 8}, the choice of a
    2-bit skip code from a requested source interval, and the intervals
    the source pad can actually deliver. */
module FrameRate {
  import opened V4l2
  import opened Arith

  /** dcmipp_frates: keep one frame in 1, 2, 4 or 8. */
  const FRATES: seq<nat> := [1, 2, 4, 8]

  /** A usable interval: neither part is zero. */
  predicate Positive(f: Fract)
  {
    f.numerator > 0 && f.denominator > 0
  }

  /** `a` is at most `b` as a fraction. */
  predicate IntervalLe(a: Fract, b: Fract)
  {
    a.numerator * b.denominator <= b.numerator * a.denominator
  }

  /** The frame-skip code chosen for a normalised ratio: the largest table
      entry not above the ratio, or the first entry when none is. */
  function FrateOf(ratio: nat): (f: nat)
    ensures f < |FRATES|
    ensures FRATES[f] <= ratio || f == 0
    ensures forall k :: f < k < |FRATES| ==> ratio < FRATES[k]
  {
    if ratio >= 8 then 3 else if ratio >= 4 then 2 else if ratio >= 2 then 1 else 0
  }

  /** The interval s_frame_interval works with: a request with a zero part
      is replaced by the sink interval. */
  function NormalizeInterval(req: Fract, sink: Fract): (r: Fract)
    ensures Positive(sink) ==> Positive(r)
    ensures Positive(req) ==> r == req
    ensures !Positive(req) ==> r == sink
  {
    if req.numerator == 0 || req.denominator == 0 then sink else req
  }

  /** How many sink frames fit in one requested source frame, rounded down:
      that many sink intervals fit in the requested interval, one more does
      not. Intervals are compared by cross-multiplication, the request
      `rn/rd` against the sink `sn/sd` as `sd * rn` against `sn * rd`. */
  function SkipRatio(sink: Fract, req: Fract): (r: nat)
    requires sink.numerator > 0 && req.denominator > 0
    ensures r * (sink.numerator * req.denominator) <= sink.denominator * req.numerator
    ensures sink.denominator * req.numerator < (r + 1) * (sink.numerator * req.denominator)
  {
    SkipBracket(sink.denominator * req.numerator, sink.numerator, req.denominator)
  }

  /** The quotient of `a` by `x * y`, with its Euclidean bracket. */
  function SkipBracket(a: nat, x: nat, y: nat): (q: nat)
    requires x > 0 && y > 0
    ensures q * (x * y) <= a < (q + 1) * (x * y)
    ensures q == a / (x * y)
  {
    MulMonotone(1, x, y);
    DivBracket(a, x * y);
    a / (x * y)
  }

  /** The source interval the hardware delivers with skip code `f`. */
  function SourceInterval(sink: Fract, f: nat): (r: Fract)
    requires f < |FRATES|
    ensures r.denominator == sink.denominator
    ensures r.numerator == sink.numerator * FRATES[f]
    ensures Positive(sink) ==> Positive(r)
    ensures IntervalLe(sink, r)
  {
    Fract(sink.numerator * FRATES[f], sink.denominator)
  }

  /** A larger skip code never delivers a shorter interval: the output rate
      falls as the code grows. */
  lemma SourceIntervalMonotone(sink: Fract, f: nat, g: nat)
    requires f <= g < |FRATES|
    ensures IntervalLe(SourceInterval(sink, f), SourceInterval(sink, g))
  {
    assert FRATES[f] <= FRATES[g];
    MulMonotone(sink.numerator * FRATES[f], sink.numerator * FRATES[g], sink.denominator);
  }

  /** Skipping nothing delivers the sink interval itself. */
  lemma NoSkipIsSinkInterval(sink: Fract)
    ensures SourceInterval(sink, 0) == sink
  {
  }

  /** `f * x * y` regrouped as `f * (x * y)`. */
  lemma MulRegroup(x: nat, f: nat, y: nat)
    ensures (x * f) * y == f * (x * y)
  {
  }

  /** The chosen skip never makes the source slower than requested when the
      request is at least the sink interval. */
  lemma ChosenSkipNotAboveRequest(sink: Fract, req: Fract)
    requires Positive(sink) && Positive(req) && IntervalLe(sink, req)
    ensures IntervalLe(SourceInterval(sink, FrateOf(SkipRatio(sink, req))), req)
  {
    var a := sink.denominator * req.numerator;
    var b := sink.numerator * req.denominator;
    var ratio := SkipRatio(sink, req);
    var f := FrateOf(ratio);
    DivBracket(a, b);
    DivAtLeast(a, b, 1);
    MulMonotone(FRATES[f], ratio, b);
    MulRegroup(sink.numerator, FRATES[f], req.denominator);
  }

  /** The next entry of the skip table would make the source slower than
      requested: the delivered interval is the largest achievable one not
      above the request. */
  lemma NextSkipAboveRequest(sink: Fract, req: Fract)
    requires Positive(sink) && Positive(req)
    requires FrateOf(SkipRatio(sink, req)) + 1 < |FRATES|
    ensures !IntervalLe(SourceInterval(sink, FrateOf(SkipRatio(sink, req)) + 1), req)
  {
    var a := sink.denominator * req.numerator;
    var b := sink.numerator * req.denominator;
    var ratio := SkipRatio(sink, req);
    var f := FrateOf(ratio);
    DivBracket(a, b);
    MulMonotone(ratio + 1, FRATES[f + 1], b);
    MulRegroup(sink.numerator, FRATES[f + 1], req.denominator);
  }

  /** Requesting one of the enumerated source intervals selects exactly that
      entry of the skip table. */
  lemma EnumeratedIntervalRoundTrip(sink: Fract, i: nat)
    requires Positive(sink) && i < |FRATES|
    ensures SkipRatio(sink, SourceInterval(sink, i)) == FRATES[i]
    ensures FrateOf(SkipRatio(sink, SourceInterval(sink, i))) == i
  {
    var b := sink.numerator * sink.denominator;
    assert sink.denominator * (sink.numerator * FRATES[i]) == FRATES[i] * b;
    DivExact(b, FRATES[i]);
  }

  /** At the default 30 frames per second, a request for 1/30 s skips
      nothing and a request for 8/30 s keeps one frame in eight. */
  lemma DefaultIntervalExamples()
    ensures FrateOf(SkipRatio(Fract(1, 30), Fract(1, 30))) == 0
    ensures FrateOf(SkipRatio(Fract(1, 30), Fract(8, 30))) == 3
    ensures SourceInterval(Fract(1, 30), 3) == Fract(8, 30)
    ensures FrateOf(SkipRatio(Fract(1, 30), Fract(1, 240))) == 0
  {
  }
}
