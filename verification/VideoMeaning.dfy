/** What a finished real-time plan means in terms of the frames and gaps that were declared. */
module VideoMeaning {
  import opened Common
  import opened VideoTypes
  import opened VideoCoalesce
  import opened VideoRealTime
  import opened VideoFacts
  import opened VideoModel
  import opened VideoPlan

  predicate DeclaredGap(g: Gap, s: int) {
    g.start <= s < g.end
  }

  ghost predicate DeclaredMissing(input: PlanInput, s: int) {
    exists k :: 0 <= k < |input.gaps| && DeclaredGap(input.gaps[k], s)
  }

  /** Source nanoseconds a segment presents. */
  function SegmentLength(segment: Segment): int {
    if segment.basis == RecordedDelta || segment.basis == RecordedGap then segment.end - segment.start else 0
  }

  /** The source instant at which segment k begins. */
  function SegmentClock(segments: seq<Segment>, first: nat, k: nat): int
    requires k <= |segments|
  {
    if k == 0 then first else SegmentClock(segments, first, k - 1) + SegmentLength(segments[k - 1])
  }

  /** Segment k presents source instant s. */
  predicate PresentsInstant(segments: seq<Segment>, first: nat, k: nat, s: int) {
    k < |segments| && SegmentClock(segments, first, k) <= s < SegmentClock(segments, first, k + 1)
  }

  /** A slate whose range contains s and which names every declared gap that contains s. */
  ghost predicate SlateOf(input: PlanInput, source: Source, s: int) {
    && source.GapSlate? && source.start <= s < source.end
    && forall k :: 0 <= k < |input.gaps| && DeclaredGap(input.gaps[k], s) ==> input.gaps[k].id in source.ids
  }

  /** The latest frame captured at or before s. */
  ghost predicate LatestFrame(frames: seq<Frame>, source: Source, s: int) {
    exists i :: 0 <= i && i + 1 < |frames| && frames[i].time <= s < frames[i + 1].time && source == SourceFrame(frames[i].id, frames[i].time)
  }

  /** Sample-and-hold over what was declared. */
  ghost predicate RightSegment(input: PlanInput, segments: seq<Segment>, k: nat, s: int) {
    k < |segments| &&
    if DeclaredMissing(input, s) then SlateOf(input, segments[k].source, s)
    else LatestFrame(input.frames, segments[k].source, s)
  }

  lemma RightlySourced(input: PlanInput, segments: seq<Segment>, k: nat, s: int)
    requires k < |segments|
    requires DeclaredMissing(input, s) ==> SlateOf(input, segments[k].source, s)
    requires !DeclaredMissing(input, s) ==> LatestFrame(input.frames, segments[k].source, s)
    ensures RightSegment(input, segments, k, s)
  {
  }

  lemma {:induction false} ClocksAgree(ds: seq<Draft>, segments: seq<Segment>, first: nat, k: nat)
    requires LaidOut(ds, segments) && k <= |ds|
    ensures SegmentClock(segments, first, k) == Clock(ds, first, k)
  {
    if k > 0 {
      ClocksAgree(ds, segments, first, k - 1);
      assert segments[k - 1] == Segment(k - 1, ds[k - 1].source, Elapsed(ds, k - 1), Elapsed(ds, k), ds[k - 1].basis);
    }
  }

  /** An instant of the presented range is covered by a coalesced gap exactly when a declared gap contains it. */
  lemma CoveredIffDeclared(input: PlanInput, s: int)
    requires ValidInput(input) && input.frames[0].time <= s < input.frames[|input.frames| - 1].time
    ensures AnyCovers(PresentedGaps(input), s) <==> DeclaredMissing(input, s)
  {
    var lo, hi := input.frames[0].time, input.frames[|input.frames| - 1].time;
    var clipped := Clip(input.gaps, lo, hi);
    CoalesceIsCanonical(input.gaps, lo, hi);
    assert PresentedGaps(input) == Coalesce(input.gaps, lo, hi);
    hide ValidInput, Clip, Coalesce, PresentedGaps, Canonical, AnyCovers, GapCovers;
    SameCover(clipped, PresentedGaps(input), s);
    if DeclaredMissing(input, s) {
      var k :| 0 <= k < |input.gaps| && DeclaredGap(input.gaps[k], s);
      var c := ClippedGap(input.gaps, lo, hi, k, s);
    }
    if GapCovers(clipped, s) { CoverIsDeclared(input, lo, hi, s); }
  }

  lemma CoverIsDeclared(input: PlanInput, lo: nat, hi: nat, s: int)
    requires GapCovers(Clip(input.gaps, lo, hi), s)
    ensures DeclaredMissing(input, s)
  {
    var clipped := Clip(input.gaps, lo, hi);
    hide Clip;
    var k :| 0 <= k < |clipped| && Covers(clipped[k], s);
    ClipMeaning(input.gaps, lo, hi, clipped[k]);
    assert clipped[k] in clipped;
    var l :| 0 <= l < |input.gaps| && clipped[k] == Gap(input.gaps[l].id, Max(input.gaps[l].start, lo), Min(input.gaps[l].end, hi));
    assert DeclaredGap(input.gaps[l], s);
  }

  /** A declared gap that contains s survives clipping with its identifier. */
  lemma ClippedGap(gaps: seq<Gap>, lo: nat, hi: nat, k: nat, s: int) returns (c: nat)
    requires k < |gaps| && DeclaredGap(gaps[k], s) && lo <= s < hi
    ensures c < |Clip(gaps, lo, hi)| && Clip(gaps, lo, hi)[c].id == gaps[k].id && Covers(Clip(gaps, lo, hi)[c], s)
    ensures GapCovers(Clip(gaps, lo, hi), s)
  {
    var clipped := Gap(gaps[k].id, Max(gaps[k].start, lo), Min(gaps[k].end, hi));
    ClipMeaning(gaps, lo, hi, clipped);
    hide Clip;
    assert clipped in Clip(gaps, lo, hi);
    c :| 0 <= c < |Clip(gaps, lo, hi)| && Clip(gaps, lo, hi)[c] == clipped;
  }

  /** The coalesced gap that covers s names every declared gap that contains s. */
  lemma NamesEveryGap(input: PlanInput, s: int, j: nat, k: nat)
    requires ValidInput(input) && input.frames[0].time <= s < input.frames[|input.frames| - 1].time
    requires j < |PresentedGaps(input)| && SpanCovers(PresentedGaps(input)[j], s)
    requires k < |input.gaps| && DeclaredGap(input.gaps[k], s)
    ensures input.gaps[k].id in PresentedGaps(input)[j].ids
  {
    var lo, hi := input.frames[0].time, input.frames[|input.frames| - 1].time;
    var clipped, out := Clip(input.gaps, lo, hi), PresentedGaps(input);
    CoalesceIsCanonical(input.gaps, lo, hi);
    assert Canonical(clipped, out);
    var c := ClippedGap(input.gaps, lo, hi, k, s);
    hide *;
    CoveringGapIsNamed(clipped, out, c, s, j);
  }

  lemma CoveringGapIsNamed(clipped: seq<Gap>, out: seq<CoalescedGap>, c: nat, s: int, j: nat)
    requires Canonical(clipped, out) && c < |clipped| && Covers(clipped[c], s)
    requires j < |out| && SpanCovers(out[j], s)
    ensures clipped[c].id in out[j].ids
  {
    assert SameUnion(clipped, out) && Separated(out) && ExactIds(clipped, out);
    hide Canonical, Separated;
    assert Housed(clipped[c], out);
    var i :| 0 <= i < |out| && Inside(clipped[c], out[i]);
    hide SameUnion;
    OneSpan(out, i, j, s);
    assert Contributes(clipped, out[j], clipped[c].id);
  }

  /**
   * A real-time plan is sample-and-hold: every source instant of the presented range is presented by
   * exactly one segment, as a slate naming every declared gap that contains it, or else as the latest
   * frame captured by then.
   */
  lemma PlanIsSampleAndHold(input: PlanInput, segments: seq<Segment>, s: int)
    requires ValidInput(input) && input.policy.RealTime? && PlanOutcome(input, Ok(segments))
    requires input.frames[0].time <= s < input.frames[|input.frames| - 1].time
    ensures exists k: nat :: PresentsInstant(segments, input.frames[0].time, k, s)
    ensures forall k: nat, l: nat ::
      PresentsInstant(segments, input.frames[0].time, k, s) && PresentsInstant(segments, input.frames[0].time, l, s) ==> k == l
    ensures forall k: nat :: PresentsInstant(segments, input.frames[0].time, k, s) ==> RightSegment(input, segments, k, s)
  {
    var ds := DraftsOfPlan(input, segments);
    PresentedByDrafts(input, ds, segments, s);
    hide *;
    var found: nat :| Presents(ds, input.frames[0].time, found, s);
    PresentersAgree(ds, segments, input.frames[0].time, found, s);
    forall k: nat | PresentsInstant(segments, input.frames[0].time, k, s) ensures k == found && RightSegment(input, segments, k, s) {
      PresentersAgree(ds, segments, input.frames[0].time, k, s);
      DraftIsRight(input, ds, segments, k, s);
    }
  }

  /** Exactly one draft of the plan presents the instant. */
  lemma PresentedByDrafts(input: PlanInput, ds: seq<Draft>, segments: seq<Segment>, s: int)
    requires ValidInput(input) && input.frames[0].time <= s < input.frames[|input.frames| - 1].time
    requires RealTimeDrafts(input.frames, PresentedGaps(input)) == Ok(ds) && LaidOut(ds, segments)
    ensures exists k: nat :: Presents(ds, input.frames[0].time, k, s)
    ensures forall k: nat, l: nat :: Presents(ds, input.frames[0].time, k, s) && Presents(ds, input.frames[0].time, l, s) ==> k == l
  {
    PresentedGapsAreSound(input);
    hide RealTimeDrafts, PlannerGaps, PresentedGaps, Presents, RightSource;
    SampleAndHold(input.frames, PresentedGaps(input), ds, s);
  }

  /** The draft that presents the instant has the right source. */
  lemma DraftIsRight(input: PlanInput, ds: seq<Draft>, segments: seq<Segment>, k: nat, s: int)
    requires ValidInput(input) && input.frames[0].time <= s < input.frames[|input.frames| - 1].time
    requires RealTimeDrafts(input.frames, PresentedGaps(input)) == Ok(ds) && LaidOut(ds, segments)
    requires Presents(ds, input.frames[0].time, k, s)
    ensures RightSegment(input, segments, k, s)
  {
    PresentedGapsAreSound(input);
    CoveredIffDeclared(input, s);
    assert k < |ds|;
    hide RealTimeDrafts, PlannerGaps, PresentedGaps, Presents, LaidOut, RightSource, AnyCovers, DeclaredMissing;
    SampleAndHold(input.frames, PresentedGaps(input), ds, s);
    assert RightSource(input.frames, PresentedGaps(input), ds[k], s);
    hide ValidInput;
    PresentersAgree(ds, segments, input.frames[0].time, k, s);
    SourceMeaning(input, ds[k], s);
    RightlySourced(input, segments, k, s);
  }

  lemma DraftsOfPlan(input: PlanInput, segments: seq<Segment>) returns (ds: seq<Draft>)
    requires ValidInput(input) && input.policy.RealTime? && PlanOutcome(input, Ok(segments))
    ensures RealTimeDrafts(input.frames, PresentedGaps(input)) == Ok(ds) && LaidOut(ds, segments)
  {
    ds := RealTimeDrafts(input.frames, PresentedGaps(input)).value;
  }

  lemma PresentersAgree(ds: seq<Draft>, segments: seq<Segment>, first: nat, k: nat, s: int)
    requires LaidOut(ds, segments)
    ensures |segments| == |ds| && (k < |ds| ==> segments[k].source == ds[k].source)
    ensures PresentsInstant(segments, first, k, s) <==> Presents(ds, first, k, s)
  {
    if k < |ds| {
      assert segments[k] == Segment(k, ds[k].source, Elapsed(ds, k), Elapsed(ds, k + 1), ds[k].basis);
      ClocksAgree(ds, segments, first, k);
      ClocksAgree(ds, segments, first, k + 1);
    }
  }

  lemma SourceMeaning(input: PlanInput, d: Draft, s: int)
    requires ValidInput(input) && input.frames[0].time <= s < input.frames[|input.frames| - 1].time
    requires RightSource(input.frames, PresentedGaps(input), d, s)
    requires AnyCovers(PresentedGaps(input), s) <==> DeclaredMissing(input, s)
    ensures if DeclaredMissing(input, s) then SlateOf(input, d.source, s) else LatestFrame(input.frames, d.source, s)
  {
    var gaps := PresentedGaps(input);
    hide ValidInput, PresentedGaps, DeclaredMissing, AnyCovers;
    if DeclaredMissing(input, s) {
      var j :| ShowsGap(gaps, d, j, s);
      forall k | 0 <= k < |input.gaps| && DeclaredGap(input.gaps[k], s) ensures input.gaps[k].id in d.source.ids {
        NamesEveryGap(input, s, j, k);
      }
    }
  }

  /** Time for which the first k segments show a frame. */
  function OnScreen(segments: seq<Segment>, id: Id, k: nat): int
    requires k <= |segments|
  {
    if k == 0 then 0
    else
      var last := segments[k - 1];
      OnScreen(segments, id, k - 1) + (if last.source.SourceFrame? && last.source.id == id then last.end - last.start else 0)
  }

  lemma {:induction false} OnScreenIsFrameTime(ds: seq<Draft>, segments: seq<Segment>, id: Id, k: nat)
    requires LaidOut(ds, segments) && k <= |ds|
    ensures OnScreen(segments, id, k) == FrameTime(ds, id, k)
  {
    if k > 0 {
      OnScreenIsFrameTime(ds, segments, id, k - 1);
      assert segments[k - 1] == Segment(k - 1, ds[k - 1].source, Elapsed(ds, k - 1), Elapsed(ds, k), ds[k - 1].basis);
    }
  }

  lemma DraftsOfModelPlan(input: PlanInput, segments: seq<Segment>) returns (ds: seq<Draft>)
    requires ValidInput(input) && input.policy.ModelOptimized? && PlanOutcome(input, Ok(segments))
    ensures RealTimeDrafts(input.frames, PresentedGaps(input)) == Ok(ds) && AllShown(ds, input.meaningful)
    ensures LaidOut(Stretches(ds, input.meaningful), segments)
  {
    ds := RealTimeDrafts(input.frames, PresentedGaps(input)).value;
  }

  /** Segment k shows what recorded draft k shows, for no shorter, and for exactly as long as a slate must be held. */
  predicate Lengthened(d: Draft, segment: Segment) {
    && segment.source == d.source && segment.end - segment.start >= d.duration
    && (d.source.GapSlate? ==> segment.end - segment.start == Max(d.duration, MODEL_GAP_HOLD_NANOS))
  }

  /**
   * A model-optimized plan shows the recorded plan's sources in the recorded order, nothing for a
   * shorter time. A meaningful frame is on screen for exactly the larger of its recorded time and the
   * meaningful hold, and any other frame for exactly its recorded time.
   */
  lemma ModelPlanOnlyLengthens(input: PlanInput, segments: seq<Segment>) returns (ds: seq<Draft>)
    requires ValidInput(input) && input.policy.ModelOptimized? && PlanOutcome(input, Ok(segments))
    ensures RealTimeDrafts(input.frames, PresentedGaps(input)) == Ok(ds) && |segments| == |ds|
    ensures forall k :: 0 <= k < |ds| ==> Lengthened(ds[k], segments[k])
    ensures forall id :: id in input.meaningful ==>
      OnScreen(segments, id, |segments|) == Max(FrameTime(ds, id, |ds|), MODEL_MEANINGFUL_HOLD_NANOS)
    ensures forall id :: Shown(ds, id) && id !in input.meaningful ==>
      OnScreen(segments, id, |segments|) == FrameTime(ds, id, |ds|)
  {
    ds := DraftsOfModelPlan(input, segments);
    var es := Stretches(ds, input.meaningful);
    assert |es| == |ds| && |segments| == |ds|;
    forall k | 0 <= k < |ds| ensures Lengthened(ds[k], segments[k]) {
      StretchOnlyLengthens(ds, input.meaningful, k);
      assert segments[k] == Segment(k, es[k].source, Elapsed(es, k), Elapsed(es, k + 1), es[k].basis);
    }
    hide PlanOutcome, ValidInput, RealTimeDrafts, Stretches, LaidOut, FrameTime, Lengthened, Shown, PresentedGaps;
    forall id | Shown(ds, id)
      ensures OnScreen(segments, id, |segments|) ==
        if id in input.meaningful then Max(FrameTime(ds, id, |ds|), MODEL_MEANINGFUL_HOLD_NANOS) else FrameTime(ds, id, |ds|)
    {
      MeaningfulTotal(ds, input.meaningful, id);
      OnScreenIsFrameTime(es, segments, id, |es|);
    }
    forall id | id in input.meaningful ensures Shown(ds, id) { ShownOne(ds, input.meaningful, id); }
  }

  lemma ShownOne(ds: seq<Draft>, meaningful: seq<Id>, id: Id)
    requires AllShown(ds, meaningful) && id in meaningful
    ensures Shown(ds, id)
  {
  }
}
