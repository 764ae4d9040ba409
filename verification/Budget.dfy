/** Memory budgets: effective analysis scales, output reservations and admission of a generator. */
module Budget {
  import opened Common
  import opened Arithmetic

  type Positive = n: nat | 1 <= n witness 1
  type Dimension = n: nat | 1 <= n < 0x1_0000_0000 witness 1
  type Bytes = n: nat | 1 <= n < U64_LIMIT witness 1
  type Factor = n: nat | 2 <= n <= 8 witness 2

  const U32_LIMIT: nat := 0x1_0000_0000

  datatype Limits = Limits(
    maxSourceFrames: Positive,
    maxDimension: Dimension,
    maxPixels: Bytes,
    maxDecoded: Bytes,
    maxNormalized: Bytes,
    maxCombined: Bytes,
    maxOutputEach: Bytes,
    maxOutputTotal: Bytes,
    maxWallNanos: nat)

  datatype Size = Size(width: Dimension, height: Dimension)

  /** What an epoch plan costs: image size, frame count and decoded bytes. */
  datatype Source = Source(image: Size, frames: Positive, decoded: nat)

  datatype Scale = Identity | Down(factor: Factor) | FitLimits

  datatype Normalization = Normalization(scale: Scale, crop: Option<Size>)

  datatype OutputLimits = OutputLimits(size: Size, maxEncoded: Bytes)

  datatype Kind = StoryboardImage | BeforeDuringAfter | DifferenceImage | FilmstripImage | MotionImage

  datatype Sampling = Exhaustive | UniformBounded

  datatype Reference = FirstFrame | LastFrame | NamedFrame(id: Id)

  datatype Generator =
    | Storyboard(output: OutputLimits, norm: Normalization, noiseFloor: nat, tileLimit: Positive, orientation: bool)
    | RegionFilmstrip(output: OutputLimits, tileLimit: Positive, locator: Option<Id>)
    | DifferenceMap(output: OutputLimits, norm: Normalization, noiseFloor: nat, perPixelTotals: bool,
                    sampling: Sampling, reference: Reference)
    | MotionHistory(output: OutputLimits, norm: Normalization, noiseFloor: nat, sampling: Sampling, reference: Reference)

  function OutputKinds(g: Generator): seq<Kind> {
    match g
    case Storyboard(_, _, _, _, orientation) =>
      if orientation then [StoryboardImage, BeforeDuringAfter] else [StoryboardImage]
    case RegionFilmstrip(_, _, _) => [FilmstripImage]
    case DifferenceMap(_, _, _, _, _, _) => [DifferenceImage]
    case MotionHistory(_, _, _, _, _) => [MotionImage]
  }

  /** The consistency rules a scheduler is created under. */
  predicate ValidLimits(l: Limits) {
    && l.maxWallNanos > 0
    && l.maxDecoded <= l.maxCombined && l.maxNormalized <= l.maxCombined
    && l.maxOutputTotal <= l.maxCombined && l.maxOutputEach <= l.maxOutputTotal
    && l.maxCombined < U32_LIMIT
  }

  /** Frames of one epoch have one size, so they decode to frames * width * height * 4 bytes. */
  predicate Accounted(s: Source) {
    s.decoded == s.frames * (s.image.width * s.image.height * 4) && s.decoded < U64_LIMIT
  }

  // Scales

  /** The factors in 2..upTo that divide both dimensions, in order. */
  function CommonFactors(size: Size, upTo: nat): (r: seq<nat>)
    ensures forall f :: f in r ==> 2 <= f <= upTo
  {
    if upTo < 2 then []
    else if Divides(upTo, size.width) && Divides(upTo, size.height) then CommonFactors(size, upTo - 1) + [upTo]
    else CommonFactors(size, upTo - 1)
  }

  lemma {:induction false} CommonFactorsExact(size: Size, upTo: nat, f: nat)
    ensures f in CommonFactors(size, upTo) <==> 2 <= f <= upTo && Divides(f, size.width) && Divides(f, size.height)
  {
    if upTo >= 2 { CommonFactorsExact(size, upTo - 1, f); }
  }

  /** Euclid's loop followed by a scan of every representable factor. */
  method CommonDownscaleFactors(size: Size) returns (factors: seq<nat>)
    ensures factors == CommonFactors(size, 255)
  {
    var gcd := Gcd(size.width, size.height);
    factors := [];
    var factor: nat := 2;
    while factor <= 255
      invariant 2 <= factor <= 256
      invariant factors == CommonFactors(size, factor - 1)
    {
      assert Divides(factor, gcd) <==> Divides(factor, size.width) && Divides(factor, size.height);
      if gcd % factor == 0 {
        factors := factors + [factor];
      }
      factor := factor + 1;
    }
  }

  function UpToEight(factors: seq<nat>): seq<nat> {
    if factors == [] then []
    else
      var last := factors[|factors| - 1];
      var before := UpToEight(factors[..|factors| - 1]);
      if last <= 8 then before + [last] else before
  }

  lemma UpToEightAppend(factors: seq<nat>, x: nat)
    ensures UpToEight(factors + [x]) == if x <= 8 then UpToEight(factors) + [x] else UpToEight(factors)
  {
    assert (factors + [x])[..|factors + [x]| - 1] == factors;
  }

  lemma {:induction false} AdmissibleAreCommon(size: Size, upTo: nat)
    ensures UpToEight(CommonFactors(size, upTo)) == CommonFactors(size, if upTo <= 8 then upTo else 8)
  {
    if upTo >= 2 {
      AdmissibleAreCommon(size, upTo - 1);
      UpToEightAppend(CommonFactors(size, upTo - 1), upTo);
      hide UpToEight, Divides;
    }
  }

  function AnalysisSize(norm: Normalization, source: Source): Size {
    if norm.crop.Some? then norm.crop.value else source.image
  }

  /** One is the identity; the other candidates divide both dimensions. */
  predicate Admissible(size: Size, f: nat) {
    f == 1 || (2 <= f <= 8 && Divides(f, size.width) && Divides(f, size.height))
  }

  function ScaleOf(f: nat): Scale
    requires 1 <= f <= 8
  {
    if f == 1 then Identity else Down(f)
  }

  function FactorOf(scale: Scale): Positive
    requires !scale.FitLimits?
  {
    if scale.Identity? then 1 else scale.factor
  }

  function ScaledPixels(size: Size, f: Positive): nat {
    var width: nat, height: nat := size.width / f, size.height / f;
    width * height
  }

  predicate FitsAt(norm: Normalization, source: Source, l: Limits, budget: nat, f: Positive) {
    var pixels := ScaledPixels(AnalysisSize(norm, source), f);
    pixels <= l.maxPixels && pixels * 6 * source.frames <= budget
  }

  function CheckedMul(a: nat, b: nat): Option<nat> {
    if a * b < U64_LIMIT then Some(a * b) else None
  }

  /** Width times height after scaling; an unmaterialised or inexact scale is an error. */
  function NormalizedPixels(norm: Normalization, source: Source): Result<nat> {
    var size := AnalysisSize(norm, source);
    match norm.scale
    case Identity => Ok(size.width * size.height)
    case Down(f) =>
      if size.width % f == 0 && size.height % f == 0 then Ok((size.width / f) * (size.height / f))
      else Err(ArtifactGenerationFailed)
    case FitLimits => Err(ArtifactGenerationFailed)
  }

  function CheckedSix(pixels: nat, frames: nat): Option<nat> {
    var perFrame := CheckedMul(pixels, 6);
    if perFrame.None? then None else CheckedMul(perFrame.value, frames)
  }

  /** The retained bytes of a normalised sequence, if they stay within a budget. */
  function ValidateNormalized(norm: Normalization, source: Source, l: Limits, budget: nat): Result<nat> {
    var pixels := NormalizedPixels(norm, source);
    if pixels.Err? then pixels
    else
      var retained := CheckedSix(pixels.value, source.frames);
      if retained.None? || pixels.value > l.maxPixels || retained.value > budget then Err(ResourceLimitExceeded)
      else Ok(retained.value)
  }

  lemma ValidateMeaning(norm: Normalization, source: Source, l: Limits, budget: nat, f: Positive)
    requires f <= 8 && budget < U64_LIMIT && Admissible(AnalysisSize(norm, source), f)
    ensures var r := ValidateNormalized(norm.(scale := ScaleOf(f)), source, l, budget);
      && (r.Ok? <==> FitsAt(norm, source, l, budget, f))
      && (r.Ok? ==> r.value == ScaledPixels(AnalysisSize(norm, source), f) * 6 * source.frames)
  {
    var size := AnalysisSize(norm, source);
    var pixels := ScaledPixels(size, f);
    assert f == 1 ==> pixels == size.width * size.height;
    assert NormalizedPixels(norm.(scale := ScaleOf(f)), source) == Ok(pixels);
    hide ScaledPixels, NormalizedPixels, Admissible, AnalysisSize;
    MulMonotone(pixels * 6, 1, source.frames);
  }

  /** What the combined limit leaves for normalised frames. */
  function NormalizedBudget(source: Source, l: Limits, reserved: nat): Option<nat> {
    if source.decoded + reserved > l.maxCombined then None
    else Some(if l.maxCombined - source.decoded - reserved <= l.maxNormalized
              then l.maxCombined - source.decoded - reserved else l.maxNormalized)
  }

  ghost predicate LeastFitting(norm: Normalization, source: Source, l: Limits, budget: nat, f: Positive) {
    && Admissible(AnalysisSize(norm, source), f) && FitsAt(norm, source, l, budget, f)
    && forall g: nat :: 1 <= g < f && Admissible(AnalysisSize(norm, source), g) ==> !FitsAt(norm, source, l, budget, g)
  }

  ghost predicate NothingFits(norm: Normalization, source: Source, l: Limits, budget: nat) {
    forall g: nat :: g >= 1 && Admissible(AnalysisSize(norm, source), g) ==> !FitsAt(norm, source, l, budget, g)
  }

  ghost predicate IsLeastScale(scale: Scale, norm: Normalization, source: Source, l: Limits, budget: nat) {
    !scale.FitLimits? && LeastFitting(norm, source, l, budget, FactorOf(scale))
  }

  /** The first candidate that fits, which is the least admissible factor that does. */
  method FitScale(norm: Normalization, source: Source, l: Limits, reserved: nat) returns (r: Result<Scale>)
    ensures var budget := NormalizedBudget(source, l, reserved);
      && (budget.None? ==> r == Err(ResourceLimitExceeded))
      && (budget.Some? && r.Err? ==> NothingFits(norm, source, l, budget.value) && r.error == ResourceLimitExceeded)
      && (r.Ok? ==> budget.Some? && IsLeastScale(r.value, norm, source, l, budget.value))
  {
    var budget := NormalizedBudget(source, l, reserved);
    if budget.None? {
      return Err(ResourceLimitExceeded);
    }
    var size := AnalysisSize(norm, source);
    var common := CommonDownscaleFactors(size);
    AdmissibleAreCommon(size, 255);
    var candidates := [1] + UpToEight(common);
    hide UpToEight, Admissible, NormalizedBudget, FitsAt, ValidateNormalized;
    var i := 0;
    while i < |candidates|
      invariant 0 <= i <= |candidates|
      invariant forall j :: 0 <= j < i ==> candidates[j] >= 1 && !FitsAt(norm, source, l, budget.value, candidates[j])
    {
      CandidateAdmissible(size, candidates, i);
      BudgetBounded(source, l, reserved);
      ValidateMeaning(norm, source, l, budget.value, candidates[i]);
      var scale := ScaleOf(candidates[i]);
      if ValidateNormalized(norm.(scale := scale), source, l, budget.value).Ok? {
        forall g: nat | 1 <= g < candidates[i] && Admissible(size, g) ensures !FitsAt(norm, source, l, budget.value, g) {
          CandidatePosition(size, candidates, g, i);
        }
        assert LeastFitting(norm, source, l, budget.value, candidates[i]);
        return Ok(scale);
      }
      i := i + 1;
    }
    forall g: nat | g >= 1 && Admissible(size, g) ensures !FitsAt(norm, source, l, budget.value, g) {
      CandidatePosition(size, candidates, g, |candidates|);
    }
    r := Err(ResourceLimitExceeded);
  }

  lemma BudgetBounded(source: Source, l: Limits, reserved: nat)
    ensures var b := NormalizedBudget(source, l, reserved); b.Some? ==> b.value < U64_LIMIT
  {
  }

  lemma CandidateAdmissible(size: Size, candidates: seq<nat>, i: nat)
    requires candidates == [1] + CommonFactors(size, 8) && i < |candidates|
    ensures 1 <= candidates[i] <= 8 && Admissible(size, candidates[i])
  {
    if i > 0 { CommonFactorsExact(size, 8, candidates[i]); }
  }

  /** Every admissible factor is a candidate, and smaller ones come first. */
  lemma CandidatePosition(size: Size, candidates: seq<nat>, g: nat, before: nat)
    requires candidates == [1] + CommonFactors(size, 8) && Admissible(size, g) && before <= |candidates|
    requires before == |candidates| || g < candidates[before]
    ensures exists j :: 0 <= j < before && candidates[j] == g
  {
    if g == 1 {
      assert candidates[0] == 1;
    } else {
      CommonFactorsExact(size, 8, g);
      var k :| 0 <= k < |CommonFactors(size, 8)| && CommonFactors(size, 8)[k] == g;
      assert candidates[k + 1] == g;
      if before <= k + 1 { FactorsIncrease(size, 8, before - 1, k); }
    }
  }

  lemma {:induction false} FactorsIncrease(size: Size, upTo: nat, i: int, j: nat)
    requires 0 <= i <= j < |CommonFactors(size, upTo)|
    ensures CommonFactors(size, upTo)[i] <= CommonFactors(size, upTo)[j]
  {
    if upTo >= 2 {
      var before := CommonFactors(size, upTo - 1);
      if j < |before| { FactorsIncrease(size, upTo - 1, i, j); } else if i < |before| { assert before[i] in before; }
    }
  }

  // Preparing a generator

  /** The output bytes set aside for a generator: each output capped, and their sum capped. */
  function OutputReservation(g: Generator, l: Limits): Result<nat> {
    var perOutput := if g.output.maxEncoded <= l.maxOutputEach then g.output.maxEncoded else l.maxOutputEach;
    var all := CheckedMul(perOutput, |OutputKinds(g)|);
    if all.None? then Err(ResourceLimitExceeded)
    else Ok(if all.value <= l.maxOutputTotal then all.value else l.maxOutputTotal)
  }

  predicate OutputAllowed(g: Generator, l: Limits) {
    && g.output.size.width <= l.maxDimension && g.output.size.height <= l.maxDimension
    && g.output.maxEncoded <= l.maxOutputEach
  }

  predicate Normalizes(g: Generator) {
    !g.RegionFilmstrip?
  }

  /** Only an unmaterialised scale changes, into the least one that fits; every scale passed its check. */
  ghost predicate Materialized(g: Generator, p: Generator, source: Source, l: Limits) {
    && OutputReservation(g, l).Ok?
    && if !Normalizes(g) then p == g
       else
         && Normalizes(p) && p == g.(norm := p.norm) && p.norm == g.norm.(scale := p.norm.scale)
         && ValidateNormalized(p.norm, source, l, l.maxNormalized).Ok?
         && if g.norm.scale.FitLimits? then
              var budget := NormalizedBudget(source, l, OutputReservation(g, l).value);
              budget.Some? && IsLeastScale(p.norm.scale, g.norm, source, l, budget.value)
            else p.norm.scale == g.norm.scale
  }

  /** No concrete scale passes, or the output reservation overflows. */
  ghost predicate CannotMaterialize(g: Generator, source: Source, l: Limits) {
    || OutputReservation(g, l).Err?
    || (Normalizes(g) && if g.norm.scale.FitLimits? then
          var budget := NormalizedBudget(source, l, OutputReservation(g, l).value);
          budget.None? || NothingFits(g.norm, source, l, budget.value)
        else ValidateNormalized(g.norm, source, l, l.maxNormalized).Err?)
  }

  /** A prepared generator has a materialised scale and an allowed output request. */
  ghost predicate Prepared(g: Generator, p: Generator, source: Source, l: Limits) {
    OutputAllowed(g, l) && Materialized(g, p, source, l)
  }

  ghost predicate CannotPrepare(g: Generator, source: Source, l: Limits) {
    !OutputAllowed(g, l) || CannotMaterialize(g, source, l)
  }

  /** Preparation reports an explicit scale's own error, and a resource limit otherwise. */
  function PrepareError(g: Generator, source: Source, l: Limits): ErrorCode {
    if OutputReservation(g, l).Ok? && Normalizes(g) && !g.norm.scale.FitLimits?
       && ValidateNormalized(g.norm, source, l, l.maxNormalized).Err?
    then ValidateNormalized(g.norm, source, l, l.maxNormalized).error
    else ResourceLimitExceeded
  }

  /** There is at most one way to materialise a generator, and none when it cannot be. */
  lemma MaterializedUnique(g: Generator, p: Generator, q: Generator, source: Source, l: Limits)
    requires Materialized(g, p, source, l)
    ensures !CannotMaterialize(g, source, l)
    ensures Materialized(g, q, source, l) ==> q == p
  {
    if Normalizes(g) && g.norm.scale.FitLimits? {
      var budget := NormalizedBudget(source, l, OutputReservation(g, l).value).value;
      hide ValidateNormalized, NormalizedBudget, OutputReservation, FitsAt, Admissible, AnalysisSize;
      assert FitsAt(g.norm, source, l, budget, FactorOf(p.norm.scale));
      if Materialized(g, q, source, l) {
        assert FactorOf(p.norm.scale) == FactorOf(q.norm.scale);
      }
    }
  }

  /** Materialisation does not look at the output request; preparation refuses a large one afterwards. */
  method MaterializeEffectiveScales(g: Generator, source: Source, l: Limits) returns (r: Result<Generator>)
    ensures r.Ok? ==> Materialized(g, r.value, source, l)
    ensures r.Err? ==> CannotMaterialize(g, source, l) && r.error == PrepareError(g, source, l)
  {
    hide ValidateNormalized, NormalizedBudget, LeastFitting, NothingFits;
    var reserved := OutputReservation(g, l);
    if reserved.Err? {
      return Err(reserved.error);
    }
    hide OutputReservation;
    var effective := g;
    if Normalizes(g) {
      var norm := g.norm;
      if norm.scale.FitLimits? {
        var scale := FitScale(norm, source, l, reserved.value);
        if scale.Err? {
          return Err(scale.error);
        }
        norm := norm.(scale := scale.value);
        FittedPassesLimit(g.norm, norm.scale, source, l, reserved.value);
      }
      var retained := ValidateNormalized(norm, source, l, l.maxNormalized);
      if retained.Err? {
        return Err(retained.error);
      }
      effective := g.(norm := norm);
    }
    r := Ok(effective);
  }

  /** A scale that fits the combined budget also fits the normalised limit. */
  lemma FittedPassesLimit(norm: Normalization, scale: Scale, source: Source, l: Limits, reserved: nat)
    requires var budget := NormalizedBudget(source, l, reserved);
      budget.Some? && IsLeastScale(scale, norm, source, l, budget.value)
    ensures ValidateNormalized(norm.(scale := scale), source, l, l.maxNormalized).Ok?
    ensures source.decoded + reserved + NormalizedBytes(norm.(scale := scale), source) <= l.maxCombined
  {
    var budget := NormalizedBudget(source, l, reserved).value;
    var f := FactorOf(scale);
    assert ScaleOf(f) == scale && budget <= l.maxNormalized;
    ValidateMeaning(norm, source, l, budget, f);
    ValidateMeaning(norm, source, l, l.maxNormalized, f);
    EstimateAgrees(norm.(scale := scale), source, l, l.maxNormalized);
    hide ValidateNormalized, NormalizedBytes, IsLeastScale, LeastFitting, Admissible, ScaledPixels, AnalysisSize;
  }

  method PrepareGenerator(g: Generator, source: Source, l: Limits) returns (r: Result<Generator>)
    ensures r.Ok? ==> Prepared(g, r.value, source, l)
    ensures r.Err? ==> CannotPrepare(g, source, l) && r.error == PrepareError(g, source, l)
  {
    var effective := MaterializeEffectiveScales(g, source, l);
    if effective.Err? {
      return effective;
    }
    hide OutputReservation, NormalizedBudget, NothingFits, IsLeastScale;
    if !OutputAllowed(g, l) {
      return Err(ResourceLimitExceeded);
    }
    r := effective;
  }

  // Admission by the flight

  /** Normalised bytes of a concrete scale, six a pixel and frame. */
  function NormalizedBytes(norm: Normalization, source: Source): nat {
    var pixels := NormalizedPixels(norm, source);
    if pixels.Ok? then pixels.value * 6 * source.frames else 0
  }

  function EstimatedNormalized(g: Generator, source: Source): Result<nat> {
    if !Normalizes(g) then Ok(0)
    else
      var pixels := NormalizedPixels(g.norm, source);
      if pixels.Err? then pixels
      else
        var bytes := CheckedSix(pixels.value, source.frames);
        if bytes.None? then Err(ResourceLimitExceeded) else Ok(bytes.value)
  }

  /** The flight's estimate is the number the preparation validated. */
  lemma EstimateAgrees(norm: Normalization, source: Source, l: Limits, budget: nat)
    requires ValidateNormalized(norm, source, l, budget).Ok?
    ensures ValidateNormalized(norm, source, l, budget) == Ok(NormalizedBytes(norm, source))
    ensures NormalizedBytes(norm, source) <= budget
  {
  }

  /** One bit a pixel, rounded up to bytes, for every adjacent pair of frames. */
  function EstimatedMask(source: Source): Result<nat> {
    var bytes := CheckedMul(source.frames - 1, (source.image.width * source.image.height + 7) / 8);
    if source.image.width * source.image.height + 7 >= U64_LIMIT || bytes.None? then Err(ResourceLimitExceeded)
    else Ok(bytes.value)
  }

  /** The flight aborts on an estimate error, refuses a group over the limits, or admits it. */
  datatype Admission = Aborts(error: ErrorCode) | Refused | Admitted(base: nat, normalized: nat, mask: nat)

  function SharedMask(estimate: nat, normalized: nat, base: nat, l: Limits): nat {
    if normalized + estimate <= l.maxNormalized && base + estimate <= l.maxCombined then estimate else 0
  }

  function AdmitGroup(p: Generator, source: Source, l: Limits, wantsSharedMask: bool): Admission {
    var normalized := EstimatedNormalized(p, source);
    var reserved := OutputReservation(p, l);
    if normalized.Err? then Aborts(normalized.error)
    else if reserved.Err? then Aborts(reserved.error)
    else
      var base := source.decoded + normalized.value + reserved.value;
      var estimate := if wantsSharedMask then EstimatedMask(source) else Ok(0);
      if base >= U64_LIMIT then Aborts(ResourceLimitExceeded)
      else if estimate.Err? then Aborts(estimate.error)
      else
        var mask := SharedMask(estimate.value, normalized.value, base, l);
        if normalized.value > l.maxNormalized || base + mask > l.maxCombined then Refused
        else Admitted(base, normalized.value, mask)
  }

  /** Permits for a memory reservation; zero, oversized and unrepresentable reservations are errors. */
  function MemoryPermits(bytes: nat, l: Limits): Result<nat> {
    if bytes == 0 || bytes > l.maxCombined then Err(ResourceLimitExceeded)
    else if bytes >= U32_LIMIT then Err(ResourceLimitExceeded)
    else Ok(bytes)
  }

  lemma MaskSmall(frames: Positive, pixels: Positive)
    ensures 0 <= (frames - 1) * ((pixels + 7) / 8) <= frames * (pixels * 4)
  {
    MulMonotone(frames - 1, (pixels + 7) / 8, pixels * 4);
    MulMonotone(frames - 1, 0, (pixels + 7) / 8);
    MulMonotone(pixels * 4, frames - 1, frames);
  }

  lemma MaskNeverOverflows(source: Source)
    requires Accounted(source)
    ensures EstimatedMask(source).Ok? && EstimatedMask(source).value <= source.decoded
  {
    var w: nat, h: nat := source.image.width, source.image.height;
    MulMonotone(w, h, U32_LIMIT - 1);
    MulMonotone(w, 1, h);
    MaskSmall(source.frames, w * h);
  }

  lemma DecodedPositive(source: Source)
    requires Accounted(source)
    ensures source.decoded > 0
  {
    var w: nat, h: nat := source.image.width, source.image.height;
    MulMonotone(w, 1, h);
    MulMonotone(w * h * 4, 1, source.frames);
  }

  /** The budget a prepared generator asks the flight for. */
  function Demand(p: Generator, source: Source, l: Limits): nat
    requires OutputReservation(p, l).Ok?
  {
    source.decoded + (if Normalizes(p) then NormalizedBytes(p.norm, source) else 0) + OutputReservation(p, l).value
  }

  /** The flight admits a prepared generator exactly when its demand fits the combined limit. */
  lemma AdmittedIffDemandFits(g: Generator, p: Generator, source: Source, l: Limits, wantsSharedMask: bool)
    requires ValidLimits(l) && Accounted(source) && source.decoded <= l.maxDecoded && Prepared(g, p, source, l)
    ensures OutputReservation(p, l).Ok? && !AdmitGroup(p, source, l, wantsSharedMask).Aborts?
    ensures AdmitGroup(p, source, l, wantsSharedMask).Admitted? <==> Demand(p, source, l) <= l.maxCombined
  {
    PreparedCosts(g, p, source, l);
    MaskNeverOverflows(source);
    hide Prepared, OutputReservation, NormalizedBytes, EstimatedMask, Accounted, EstimatedNormalized;
  }

  lemma PreparedCosts(g: Generator, p: Generator, source: Source, l: Limits)
    requires Prepared(g, p, source, l)
    ensures OutputReservation(p, l) == OutputReservation(g, l) && OutputReservation(p, l).Ok?
    ensures OutputReservation(p, l).value <= l.maxOutputTotal && OutputReservation(p, l).value > 0
    ensures EstimatedNormalized(p, source) == Ok(if Normalizes(p) then NormalizedBytes(p.norm, source) else 0)
    ensures Normalizes(p) ==> NormalizedBytes(p.norm, source) <= l.maxNormalized
  {
    assert OutputKinds(p) == OutputKinds(g) && p.output == g.output;
    if Normalizes(p) { EstimateAgrees(p.norm, source, l, l.maxNormalized); }
  }

  /** What admission means: the scheduler can represent the reservation, and every limit holds. */
  lemma AdmissionIsSafe(p: Generator, source: Source, l: Limits, wantsSharedMask: bool)
    requires ValidLimits(l) && source.decoded > 0
    ensures var a := AdmitGroup(p, source, l, wantsSharedMask);
      a.Admitted? ==>
        && MemoryPermits(a.base, l) == Ok(a.base)
        && a.base + a.mask <= l.maxCombined && a.normalized + a.mask <= l.maxNormalized
        && (a.mask > 0 ==> MemoryPermits(a.mask, l) == Ok(a.mask))
  {
    hide EstimatedNormalized, OutputReservation, EstimatedMask;
  }

  /** A generator prepared under fitted limits is never refused by the flight's memory checks. */
  lemma FittedIsAdmitted(g: Generator, p: Generator, source: Source, l: Limits, wantsSharedMask: bool)
    requires ValidLimits(l) && Accounted(source) && source.decoded <= l.maxDecoded && Prepared(g, p, source, l)
    requires Normalizes(g) && g.norm.scale.FitLimits?
    ensures var a := AdmitGroup(p, source, l, wantsSharedMask);
      && a.Admitted? && MemoryPermits(a.base, l) == Ok(a.base)
      && a.base == Demand(p, source, l) && a.base + a.mask <= l.maxCombined
      && a.normalized + a.mask <= l.maxNormalized
  {
    PreparedCosts(g, p, source, l);
    FittedPassesLimit(g.norm, p.norm.scale, source, l, OutputReservation(g, l).value);
    AdmittedIffDemandFits(g, p, source, l, wantsSharedMask);
    DecodedPositive(source);
    AdmissionIsSafe(p, source, l, wantsSharedMask);
    hide Prepared, OutputReservation, NormalizedBytes, EstimatedMask, Accounted, EstimatedNormalized;
  }

  const MIB: nat := 1024 * 1024

  const DEFAULT_LIMITS := Limits(240, 8192, 16_777_216, 1536 * MIB, 512 * MIB, 2048 * MIB, 64 * MIB, 256 * MIB, 15_000_000_000)

  /** An explicit scale can pass preparation under the default limits and still be refused. */
  lemma ExplicitScaleCanBeRefused() returns (g: Generator, source: Source)
    ensures ValidLimits(DEFAULT_LIMITS) && Accounted(source) && source.decoded <= DEFAULT_LIMITS.maxDecoded
    ensures Normalizes(g) && g.norm.scale.Identity? && Prepared(g, g, source, DEFAULT_LIMITS)
    ensures AdmitGroup(g, source, DEFAULT_LIMITS, false).Refused?
  {
    source := Source(Size(2048, 2048), 96, 1536 * MIB);
    g := MotionHistory(OutputLimits(Size(512, 512), 64 * MIB), Normalization(Identity, Some(Size(900, 1000))), 0,
                       UniformBounded, FirstFrame);
    assert ValidateNormalized(g.norm, source, DEFAULT_LIMITS, DEFAULT_LIMITS.maxNormalized) == Ok(518_400_000);
  }

  /**
   * Admission looks at one group at a time, but a flight keeps the permits of its shared masks until
   * it ends. Two generators sharing masks and a third with a fitted scale are each admitted, yet the
   * third reservation and the held mask together exceed every permit there is.
   */
  lemma HeldMaskCanStarve() returns (sharing: Generator, fitted: Generator, source: Source)
    ensures ValidLimits(DEFAULT_LIMITS) && Accounted(source) && source.decoded <= DEFAULT_LIMITS.maxDecoded
    ensures Normalizes(sharing) && sharing.norm.scale.FitLimits? && Normalizes(fitted) && fitted.norm.scale.FitLimits?
    ensures
      var p, q := sharing.(norm := sharing.norm.(scale := Identity)), fitted.(norm := fitted.norm.(scale := Identity));
      && Prepared(sharing, p, source, DEFAULT_LIMITS) && Prepared(fitted, q, source, DEFAULT_LIMITS)
      && AdmitGroup(p, source, DEFAULT_LIMITS, true).Admitted? && AdmitGroup(q, source, DEFAULT_LIMITS, false).Admitted?
      && AdmitGroup(p, source, DEFAULT_LIMITS, true).mask + AdmitGroup(q, source, DEFAULT_LIMITS, false).base
         > DEFAULT_LIMITS.maxCombined
  {
    source := Source(Size(2048, 2048), 96, 1536 * MIB);
    var output := OutputLimits(Size(512, 512), 64 * MIB);
    sharing := MotionHistory(output, Normalization(FitLimits, Some(Size(100, 100))), 0, UniformBounded, FirstFrame);
    fitted := MotionHistory(output, Normalization(FitLimits, Some(Size(815, 1000))), 0, UniformBounded, FirstFrame);
    IdentityFits(sharing, source, 5_760_000);
    IdentityFits(fitted, source, 469_440_000);
    assert EstimatedMask(source) == Ok(49_807_360);
  }

  lemma IdentityFits(g: Generator, source: Source, bytes: nat)
    requires g.MotionHistory? && g.norm.scale.FitLimits? && g.norm.crop.Some?
    requires g.output == OutputLimits(Size(512, 512), 64 * MIB)
    requires source.decoded == 1536 * MIB && bytes <= 448 * MIB && source.frames == 96
    requires g.norm.crop.value.width * g.norm.crop.value.height * 6 * 96 == bytes
    ensures Prepared(g, g.(norm := g.norm.(scale := Identity)), source, DEFAULT_LIMITS)
    ensures EstimatedNormalized(g.(norm := g.norm.(scale := Identity)), source) == Ok(bytes)
    ensures OutputReservation(g.(norm := g.norm.(scale := Identity)), DEFAULT_LIMITS) == Ok(64 * MIB)
  {
    assert OutputReservation(g, DEFAULT_LIMITS) == Ok(64 * MIB);
    assert NormalizedBudget(source, DEFAULT_LIMITS, 64 * MIB) == Some(448 * MIB);
    assert ScaledPixels(g.norm.crop.value, 1) == g.norm.crop.value.width * g.norm.crop.value.height;
    assert FitsAt(g.norm, source, DEFAULT_LIMITS, 448 * MIB, 1);
    assert LeastFitting(g.norm, source, DEFAULT_LIMITS, 448 * MIB, 1);
  }
}
