/** Choosing the frames a generator works on, so that what is decoded stays within its limit. */
module GeneratorPlan {
  import opened Common
  import opened Arithmetic
  import opened EpochTypes
  import opened EpochSelection
  import opened EpochBounded
  import opened EpochGaps
  import opened EpochPartition
  import opened EpochPlanning
  import opened Budget

  /** All frames of an epoch have one image size, and its decoded bytes are their sum. */
  predicate Sized(plan: EpochPlan, image: Size) {
    && (forall k :: 0 <= k < |plan.frames| ==> plan.frames[k].width == image.width && plan.frames[k].height == image.height)
    && plan.decodedBytes == DecodedSum(plan.frames, |plan.frames|)
  }

  function FrameBytes(image: Size): (r: nat)
    ensures r >= 4
  {
    var width: nat, height: nat := image.width, image.height;
    MulMonotone(width, 1, height);
    width * height * 4
  }

  function SourceOf(plan: EpochPlan, image: Size): Source
    requires plan.frames != []
  {
    Source(image, |plan.frames|, plan.decodedBytes)
  }

  lemma {:induction false} UniformSum(frames: seq<FrameMeta>, image: Size, k: nat)
    requires k <= |frames|
    requires forall i :: 0 <= i < |frames| ==> frames[i].width == image.width && frames[i].height == image.height
    ensures DecodedSum(frames, k) == k * FrameBytes(image)
  {
    if k > 0 {
      UniformSum(frames, image, k - 1);
      assert frames[k - 1].width * frames[k - 1].height * 4 == FrameBytes(image);
      hide FrameBytes;
    }
  }

  lemma SizedIsAccounted(plan: EpochPlan, image: Size)
    requires Sized(plan, image) && plan.frames != [] && plan.decodedBytes < U64_LIMIT
    ensures Accounted(SourceOf(plan, image))
  {
    UniformSum(plan.frames, image, |plan.frames|);
  }

  /** Frames of one geometry have one image size. */
  predicate GeometryFixesSize(frames: seq<FrameMeta>, image: Size, geometry: Id) {
    forall k :: 0 <= k < |frames| && frames[k].geometry == geometry ==>
      frames[k].width == image.width && frames[k].height == image.height
  }

  /** Every planned epoch is sound and sized by its geometry, so generators may be planned on it. */
  lemma PlannedEpochIsSized(
    range: ResolvedRange, frames: seq<FrameMeta>, markers: seq<Marker>,
    spans: seq<Span>, owners: seq<seq<nat>>, plans: seq<EpochPlan>, e: nat, image: Size)
    requires Proper(range.gaps) && Chronological(frames) && e < |plans|
    requires Planned(range, frames, markers, spans, owners, plans) && spans[e].start < |frames|
    requires GeometryFixesSize(frames, image, frames[spans[e].start].geometry)
    ensures SoundPlan(plans[e]) && Sized(plans[e], image)
  {
    assert PlannedAt(range, frames, markers, spans, owners, plans, e) && Uniform(frames, spans[e]);
    hide SoundPlan, Partition, OwnedBy, Bounds, PlanEpoch;
    EpochIsSized(range, frames, markers, spans[e], e, owners[e], image);
  }

  lemma EpochIsSized(
    range: ResolvedRange, frames: seq<FrameMeta>, markers: seq<Marker>, span: Span, index: nat, owned: seq<nat>, image: Size)
    requires Proper(range.gaps) && Chronological(frames) && Uniform(frames, span)
    requires forall p :: p in owned ==> p < |range.gaps|
    requires GeometryFixesSize(frames, image, frames[span.start].geometry)
    ensures var plan := PlanEpoch(range, frames[span.start..span.end], markers, index, owned);
      SoundPlan(plan) && Sized(plan, image)
  {
    var own := frames[span.start..span.end];
    var plan := PlanEpoch(range, own, markers, index, owned);
    assert plan.frames == own && plan.decodedBytes == DecodedSum(own, |own|);
    assert Chronological(own);
    PlanEpochIsSound(range, own, markers, index, owned);
    hide PlanEpoch, SoundPlan, Chronological, DecodedSum, Proper;
    forall k | 0 <= k < |own| ensures own[k].width == image.width && own[k].height == image.height {
      assert own[k] == frames[span.start + k];
      assert frames[span.start + k].geometry == frames[span.start].geometry;
    }
  }

  /** Restricting a sized plan keeps it sized and scales its bytes with the frames kept. */
  lemma RestrictSized(plan: EpochPlan, image: Size, indices: seq<nat>)
    requires Sized(plan, image) && |plan.sourceIndices| == |plan.frames|
    requires indices != [] && InRange(indices, |plan.frames|)
    ensures Sized(Restrict(plan, indices), image)
    ensures Restrict(plan, indices).decodedBytes == |indices| * FrameBytes(image)
  {
    var q := Restrict(plan, indices);
    UniformSum(q.frames, image, |indices|);
  }

  /** The largest decoded frame, or an error if one frame's size overflows. */
  function LargestFrame(frames: seq<FrameMeta>, k: nat): Result<nat>
    requires k <= |frames|
  {
    if k == 0 then Ok(0)
    else
      var before := LargestFrame(frames, k - 1);
      var len := DecodedLen(frames[k - 1]);
      if before.Err? then before else if len.Err? then len else Ok(if len.value >= before.value then len.value else before.value)
  }

  lemma {:induction false} LargestOfUniform(frames: seq<FrameMeta>, image: Size, k: nat)
    requires k <= |frames|
    requires forall i :: 0 <= i < |frames| ==> frames[i].width == image.width && frames[i].height == image.height
    ensures LargestFrame(frames, k) ==
      if k == 0 then Ok(0) else if FrameBytes(image) < U64_LIMIT then Ok(FrameBytes(image)) else Err(ResourceLimitExceeded)
  {
    if k > 0 {
      LargestOfUniform(frames, image, k - 1);
      assert frames[k - 1].width * frames[k - 1].height * 4 == FrameBytes(image);
      hide FrameBytes;
    }
  }

  function FrameAllowance(largest: nat, l: Limits): Positive {
    var byBytes := l.maxDecoded / (if largest >= 1 then largest else 1);
    var allowed := if l.maxSourceFrames <= byBytes then l.maxSourceFrames else byBytes;
    if allowed >= 1 then allowed else 1
  }

  method AnalysisEffectiveMaxFrames(plan: EpochPlan, l: Limits) returns (r: Result<Positive>)
    ensures var largest := LargestFrame(plan.frames, |plan.frames|);
      r == if largest.Ok? then Ok(FrameAllowance(largest.value, l)) else Err(largest.error)
  {
    var largest: Result<nat> := Ok(0);
    var k := 0;
    while k < |plan.frames|
      invariant 0 <= k <= |plan.frames|
      invariant largest == LargestFrame(plan.frames, k)
    {
      var len := DecodedLen(plan.frames[k]);
      if largest.Ok? {
        largest := if len.Err? then len else if len.value >= largest.value then len else largest;
      }
      k := k + 1;
    }
    if largest.Err? {
      return Err(largest.error);
    }
    r := Ok(FrameAllowance(largest.value, l));
  }

  /** As many allowed frames as fit decode within the limit, unless a single one already does not. */
  lemma AllowanceFits(image: Size, l: Limits)
    ensures var n := FrameAllowance(FrameBytes(image), l);
      && n <= l.maxSourceFrames
      && (FrameBytes(image) <= l.maxDecoded ==> n * FrameBytes(image) <= l.maxDecoded)
      && (FrameBytes(image) > l.maxDecoded ==> n == 1)
  {
    var b := FrameBytes(image);
    var n, q := FrameAllowance(b, l), l.maxDecoded / b;
    hide FrameBytes;
    assert b * q <= l.maxDecoded < b * (q + 1);
    if b <= l.maxDecoded {
      LessFromProduct(b, 1, q + 1);
      MulMonotone(b, n, q);
    } else {
      LessFromProduct(b, q, 1);
    }
  }

  /** The most frames of a size that the limits allow, and never less than one. */
  predicate IsAllowance(n: Positive, frameBytes: nat, l: Limits) {
    && n <= l.maxSourceFrames && (n * frameBytes <= l.maxDecoded || n == 1)
    && (n == l.maxSourceFrames || (n + 1) * frameBytes > l.maxDecoded)
  }

  /** The allowance is not just within the limits: one more frame would exceed one of them. */
  lemma AllowanceExact(image: Size, l: Limits)
    ensures IsAllowance(FrameAllowance(FrameBytes(image), l), FrameBytes(image), l)
  {
    AllowanceFits(image, l);
    var b := FrameBytes(image);
    var n, q := FrameAllowance(b, l), l.maxDecoded / b;
    hide FrameBytes;
    assert l.maxDecoded < b * (q + 1);
    if n < l.maxSourceFrames {
      assert n + 1 >= q + 1;
      MulMonotone(b, q + 1, n + 1);
    }
  }

  function RequiredFrame(g: Generator): Option<Id> {
    match g
    case Storyboard(_, _, _, _, _) => None
    case RegionFilmstrip(_, _, locator) => locator
    case DifferenceMap(_, _, _, _, _, reference) => if reference.NamedFrame? then Some(reference.id) else None
    case MotionHistory(_, _, _, _, reference) => if reference.NamedFrame? then Some(reference.id) else None
  }

  predicate Analyzes(g: Generator) {
    g.DifferenceMap? || g.MotionHistory?
  }

  /** Exhaustive sampling and per-pixel totals need every frame. */
  predicate NeedsEveryFrame(g: Generator) {
    (g.DifferenceMap? && g.perPixelTotals) || (Analyzes(g) && g.sampling.Exhaustive?)
  }

  /** How many frames a generator may take from its epoch. */
  function FrameCap(g: Generator, image: Size, l: Limits): Positive {
    if Analyzes(g) then FrameAllowance(FrameBytes(image), l) else g.tileLimit
  }

  /** What a generator works on: the whole plan, or a bounded selection of its frames. */
  ghost predicate WorksOn(g: Generator, plan: EpochPlan, image: Size, l: Limits, q: EpochPlan)
    requires SoundPlan(plan)
  {
    var cap := FrameCap(g, image, l);
    if |plan.frames| <= cap then q == plan
    else
      var indices := BoundedIndices(plan, cap, RequiredFrame(g));
      && !NeedsEveryFrame(g)
      && indices != [] && InRange(indices, |plan.frames|) && q == Restrict(plan, indices)
  }

  /** The frames kept times their size, before the limits are checked. */
  function KeptFrames(g: Generator, plan: EpochPlan, image: Size, l: Limits): nat {
    var cap := FrameCap(g, image, l);
    if |plan.frames| <= cap then |plan.frames| else cap
  }

  /** The request asks for this frame by its identifier. */
  predicate NamesFrame(g: Generator, id: Id) {
    match g
    case Storyboard(_, _, _, _, _) => false
    case RegionFilmstrip(_, _, locator) => locator == Some(id)
    case DifferenceMap(_, _, _, _, _, reference) => reference == NamedFrame(id)
    case MotionHistory(_, _, _, _, reference) => reference == NamedFrame(id)
  }

  predicate HasFrame(frames: seq<FrameMeta>, id: Id) {
    exists k :: 0 <= k < |frames| && frames[k].id == id
  }

  /** All frames, or n evenly spaced ones. */
  ghost predicate EvenlyChosen(plan: EpochPlan, n: nat, q: EpochPlan) {
    if n >= |plan.frames| then q == plan else exists at :: KeepsEvenly(plan, n, q, at)
  }

  predicate KeepsEvenly(plan: EpochPlan, n: nat, q: EpochPlan, at: seq<nat>) {
    && |at| == n > 0 && EvenPositions(|plan.frames|, at)
    && InRange(at, |plan.frames|) && |plan.sourceIndices| == |plan.frames| && q == Restrict(plan, at)
  }

  lemma {:induction false} PositionFound(frames: seq<FrameMeta>, id: Id)
    ensures HasFrame(frames, id) <==> PositionOf(frames, id) < |frames|
  {
    if PositionOf(frames, id) < |frames| { assert frames[PositionOf(frames, id)].id == id; }
    hide PositionOf;
  }

  /** The frames a generator works on include every frame its request names, and are evenly spaced if it names none. */
  lemma WorkKeepsNamed(g: Generator, plan: EpochPlan, image: Size, l: Limits, q: EpochPlan)
    requires SoundPlan(plan) && WorksOn(g, plan, image, l, q)
    ensures forall id :: NamesFrame(g, id) && HasFrame(plan.frames, id) ==> HasFrame(q.frames, id)
    ensures (forall id :: !NamesFrame(g, id)) ==> EvenlyChosen(plan, |q.frames|, q)
  {
    var cap := FrameCap(g, image, l);
    if |plan.frames| > cap {
      assert |plan.frames| == |plan.sourceIndices|;
      var indices := BoundedIndices(plan, cap, RequiredFrame(g));
      BoundedIndicesMeaning(plan, cap, RequiredFrame(g));
      hide SoundPlan, BoundedIndices, FrameCap, Restrict, Increasing, RequiredFrame, NamesFrame, HasFrame, EvenlyChosen;
      assert |q.frames| == cap by { RestrictCount(plan, indices); }
      forall id | NamesFrame(g, id) && HasFrame(plan.frames, id) ensures HasFrame(q.frames, id) {
        RequiredIsNamed(g, id);
        PositionFound(plan.frames, id);
        PickedFrame(plan, indices, id);
      }
      if forall id :: !NamesFrame(g, id) {
        NothingRequired(g);
        UnnamedIsEven(plan, cap, q);
      }
    }
  }

  lemma RestrictCount(plan: EpochPlan, indices: seq<nat>)
    requires |plan.sourceIndices| == |plan.frames| && indices != [] && InRange(indices, |plan.frames|)
    ensures |Restrict(plan, indices).frames| == |indices|
  {
  }

  lemma RequiredIsNamed(g: Generator, id: Id)
    requires NamesFrame(g, id)
    ensures RequiredFrame(g) == Some(id)
  {
  }

  lemma PickedFrame(plan: EpochPlan, indices: seq<nat>, id: Id)
    requires |plan.sourceIndices| == |plan.frames| && indices != [] && InRange(indices, |plan.frames|)
    requires PositionOf(plan.frames, id) < |plan.frames| && PositionOf(plan.frames, id) in indices
    ensures HasFrame(Restrict(plan, indices).frames, id)
  {
    var k :| 0 <= k < |indices| && indices[k] == PositionOf(plan.frames, id);
    assert Restrict(plan, indices).frames[k] == plan.frames[indices[k]];
    hide PositionOf, Restrict;
  }

  lemma UnnamedIsEven(plan: EpochPlan, cap: Positive, q: EpochPlan)
    requires |plan.sourceIndices| == |plan.frames| && cap < |plan.frames|
    requires var indices := BoundedIndices(plan, cap, None);
      indices != [] && InRange(indices, |plan.frames|) && q == Restrict(plan, indices)
    ensures |q.frames| == cap && EvenlyChosen(plan, cap, q)
  {
    var indices := SelectIndices(|plan.frames|, cap);
    SelectIndicesContract(|plan.frames|, cap);
    SelectIsEven(|plan.frames|, cap);
    hide SelectIndices, EvenPositions, Restrict;
    RestrictCount(plan, indices);
    assert KeepsEvenly(plan, cap, q, indices);
  }

  lemma NothingRequired(g: Generator)
    requires forall id :: !NamesFrame(g, id)
    ensures RequiredFrame(g).None?
  {
    if RequiredFrame(g).Some? { assert NamesFrame(g, RequiredFrame(g).value); }
  }

  /** More frames are needed than allowed, or the frames kept decode to too many bytes. */
  predicate PlanRefused(g: Generator, plan: EpochPlan, image: Size, l: Limits) {
    || (NeedsEveryFrame(g) && |plan.frames| > FrameCap(g, image, l))
    || KeptFrames(g, plan, image, l) * FrameBytes(image) > l.maxDecoded
  }

  /**
   * The frames a generator works on decode within the limit and number at most its cap. It is
   * refused exactly when it needs more frames than allowed or its frames decode to too many bytes.
   */
  method PlanForGenerator(g: Generator, plan: EpochPlan, image: Size, l: Limits) returns (r: Result<EpochPlan>)
    requires SoundPlan(plan) && Sized(plan, image) && plan.decodedBytes < U64_LIMIT
    ensures r.Ok? ==> WorksOn(g, plan, image, l, r.value) && r.value.decodedBytes <= l.maxDecoded
    ensures r.Ok? ==> SoundPlan(r.value) && Sized(r.value, image) && |r.value.frames| == KeptFrames(g, plan, image, l)
    ensures r.Ok? ==> forall id :: NamesFrame(g, id) && HasFrame(plan.frames, id) ==> HasFrame(r.value.frames, id)
    ensures r.Ok? && (forall id :: !NamesFrame(g, id)) ==> EvenlyChosen(plan, |r.value.frames|, r.value)
    ensures r.Err? ==> r.error == ResourceLimitExceeded
    ensures r.Err? <==> PlanRefused(g, plan, image, l)
  {
    LargestOfUniform(plan.frames, image, |plan.frames|);
    UniformSum(plan.frames, image, |plan.frames|);
    FrameBytesBounded(plan, image);
    assert |plan.sourceIndices| == |plan.frames| && plan.frames != [];
    hide SoundPlan, FrameAllowance, FrameBytes, LargestFrame, DecodedSum, Restrict, BoundedIndices;
    var cap: Positive := 1;
    if Analyzes(g) {
      var allowed := AnalysisEffectiveMaxFrames(plan, l);
      cap := allowed.value;
      if NeedsEveryFrame(g) && |plan.frames| > cap {
        return Err(ResourceLimitExceeded);
      }
    } else {
      cap := g.tileLimit;
    }
    var bounded := BoundedPlan(plan, cap, RequiredFrame(g));
    if |plan.frames| > cap { BoundedFacts(plan, image, cap, RequiredFrame(g)); }
    if bounded.Err? {
      return bounded;
    }
    if bounded.value.decodedBytes > l.maxDecoded {
      return Err(ResourceLimitExceeded);
    }
    r := bounded;
    WorkKeepsNamed(g, plan, image, l, r.value);
  }

  lemma FrameBytesBounded(plan: EpochPlan, image: Size)
    requires Sized(plan, image) && plan.decodedBytes < U64_LIMIT && plan.frames != []
    ensures FrameBytes(image) < U64_LIMIT
  {
    UniformSum(plan.frames, image, |plan.frames|);
    hide FrameBytes;
    MulMonotone(FrameBytes(image), 1, |plan.frames|);
  }

  lemma BoundedFacts(plan: EpochPlan, image: Size, cap: Positive, required: Option<Id>)
    requires SoundPlan(plan) && Sized(plan, image) && cap < |plan.frames| && plan.decodedBytes < U64_LIMIT
    ensures var indices := BoundedIndices(plan, cap, required);
      && indices != [] && InRange(indices, |plan.frames|) && |indices| == cap
      && var q := Restrict(plan, indices);
         SoundPlan(q) && Sized(q, image) && |q.frames| == cap && q.decodedBytes == cap * FrameBytes(image) < U64_LIMIT
  {
    var indices := BoundedIndices(plan, cap, required);
    BoundedIndicesMeaning(plan, cap, required);
    RestrictIsSound(plan, indices);
    RestrictSized(plan, image, indices);
    UniformSum(plan.frames, image, |plan.frames|);
    assert |Restrict(plan, indices).frames| == cap;
    var b, n := FrameBytes(image), |plan.frames|;
    assert plan.decodedBytes == n * b;
    hide SoundPlan, BoundedIndices, Restrict, FrameBytes, Sized, Increasing, InRange, DecodedSum, PositionOf;
    FewerBytes(b, cap, n);
  }

  lemma FewerBytes(b: nat, cap: nat, n: nat)
    requires cap <= n
    ensures cap * b <= n * b
  {
  }

  /** A sampled analysis is refused exactly when one frame alone exceeds the decoded limit. */
  lemma SampledAnalysisRefusedIff(g: Generator, plan: EpochPlan, image: Size, l: Limits)
    requires Analyzes(g) && plan.frames != []
    ensures KeptFrames(g, plan, image, l) * FrameBytes(image) > l.maxDecoded <==> FrameBytes(image) > l.maxDecoded
  {
    AllowanceFits(image, l);
    var b, kept, n := FrameBytes(image), KeptFrames(g, plan, image, l), FrameAllowance(FrameBytes(image), l);
    hide FrameBytes, FrameAllowance;
    MulMonotone(b, 1, kept);
    MulMonotone(b, kept, n);
  }

  /**
   * What each request may take and when it is refused, read off its own fields: tiled images take up
   * to their tiles, analyses up to the allowance, and only per-pixel totals and exhaustive sampling
   * insist on every frame.
   */
  lemma PlanReadsRequest(g: Generator, plan: EpochPlan, image: Size, l: Limits)
    requires plan.frames != []
    ensures var n, cap, b := |plan.frames|, FrameCap(g, image, l), FrameBytes(image);
      && (g.Storyboard? || g.RegionFilmstrip? ==>
            cap == g.tileLimit && (PlanRefused(g, plan, image, l) <==> Min(n, g.tileLimit) * b > l.maxDecoded))
      && (g.DifferenceMap? ==>
            IsAllowance(cap, b, l)
            && (PlanRefused(g, plan, image, l) <==> ((g.perPixelTotals || g.sampling.Exhaustive?) && n > cap) || b > l.maxDecoded))
      && (g.MotionHistory? ==>
            IsAllowance(cap, b, l)
            && (PlanRefused(g, plan, image, l) <==> (g.sampling.Exhaustive? && n > cap) || b > l.maxDecoded))
  {
    AllowanceExact(image, l);
    if g.DifferenceMap? || g.MotionHistory? { SampledAnalysisRefusedIff(g, plan, image, l); }
    hide FrameBytes, FrameAllowance, IsAllowance;
  }

  /**
   * The outcome of planning a generator on an epoch and then preparing it: the frames it works on
   * with a prepared generator, or the error of the first of the two that is refused.
   */
  ghost predicate PlanOutcome(g: Generator, plan: EpochPlan, image: Size, l: Limits, r: Result<(EpochPlan, Generator)>)
    requires SoundPlan(plan)
  {
    if PlanRefused(g, plan, image, l) then r == Err(ResourceLimitExceeded)
    else exists p :: PlanOutcomeOn(g, plan, image, l, p, r)
  }

  ghost predicate PlanOutcomeOn(g: Generator, plan: EpochPlan, image: Size, l: Limits, p: EpochPlan,
                                r: Result<(EpochPlan, Generator)>)
    requires SoundPlan(plan)
  {
    && p.frames != [] && WorksOn(g, plan, image, l, p)
    && var source := SourceOf(p, image);
       if r.Ok? then r.value.0 == p && Prepared(g, r.value.1, source, l)
       else CannotPrepare(g, source, l) && r.error == PrepareError(g, source, l)
  }

  /** Planning and preparation have one outcome for every input. */
  lemma PlanOutcomeUnique(g: Generator, plan: EpochPlan, image: Size, l: Limits, a: Result<(EpochPlan, Generator)>,
                          b: Result<(EpochPlan, Generator)>)
    requires SoundPlan(plan) && PlanOutcome(g, plan, image, l, a) && PlanOutcome(g, plan, image, l, b)
    ensures a == b
  {
    if !PlanRefused(g, plan, image, l) {
      var p :| PlanOutcomeOn(g, plan, image, l, p, a);
      var q :| PlanOutcomeOn(g, plan, image, l, q, b);
      assert p == q by { WorksOnUnique(g, plan, image, l, p, q); }
      hide SoundPlan, WorksOn, PlanRefused, Materialized, CannotMaterialize, PrepareError, OutputAllowed;
      var source := SourceOf(p, image);
      if a.Ok? { MaterializedUnique(g, a.value.1, if b.Ok? then b.value.1 else a.value.1, source, l); }
      if b.Ok? { MaterializedUnique(g, b.value.1, b.value.1, source, l); }
    }
  }

  lemma WorksOnUnique(g: Generator, plan: EpochPlan, image: Size, l: Limits, p: EpochPlan, q: EpochPlan)
    requires SoundPlan(plan) && WorksOn(g, plan, image, l, p) && WorksOn(g, plan, image, l, q)
    ensures p == q
  {
    hide SoundPlan, BoundedIndices, Restrict;
  }

  /** What comes out of planning and preparing under fitted limits is always admitted by the flight. */
  method PlanAndPrepare(g: Generator, plan: EpochPlan, image: Size, l: Limits)
    returns (r: Result<(EpochPlan, Generator)>)
    requires ValidLimits(l) && SoundPlan(plan) && Sized(plan, image) && plan.decodedBytes < U64_LIMIT
    ensures PlanOutcome(g, plan, image, l, r)
    ensures r.Ok? ==> WorksOn(g, plan, image, l, r.value.0) && r.value.0.frames != []
    ensures r.Ok? ==> r.value.0.decodedBytes <= l.maxDecoded && Sized(r.value.0, image)
    ensures r.Ok? ==> Prepared(g, r.value.1, SourceOf(r.value.0, image), l)
    ensures r.Ok? ==> forall shared ::
      (AdmitGroup(r.value.1, SourceOf(r.value.0, image), l, shared).Admitted?
       <==> Demand(r.value.1, SourceOf(r.value.0, image), l) <= l.maxCombined)
    ensures r.Ok? && Normalizes(g) && g.norm.scale.FitLimits? ==>
      Demand(r.value.1, SourceOf(r.value.0, image), l) <= l.maxCombined
  {
    var planned := PlanForGenerator(g, plan, image, l);
    if planned.Err? {
      return Err(planned.error);
    }
    var source := SourceOf(planned.value, image);
    hide WorksOn, Sized;
    SizedIsAccounted(planned.value, image);
    var prepared := PrepareGenerator(g, source, l);
    hide PlanRefused, Prepared, CannotPrepare, PrepareError, Accounted, Demand, AdmitGroup, SoundPlan;
    if prepared.Err? {
      assert PlanOutcomeOn(g, plan, image, l, planned.value, Err(prepared.error));
      return Err(prepared.error);
    }
    r := Ok((planned.value, prepared.value));
    assert PlanOutcomeOn(g, plan, image, l, planned.value, r);
    forall shared: bool
      ensures AdmitGroup(prepared.value, source, l, shared).Admitted? <==> Demand(prepared.value, source, l) <= l.maxCombined
    {
      AdmittedIffDemandFits(g, prepared.value, source, l, shared);
    }
    if Normalizes(g) && g.norm.scale.FitLimits? {
      FittedIsAdmitted(g, prepared.value, source, l, false);
    }
  }
}
