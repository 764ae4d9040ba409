/** Building the presentation plan: when it succeeds, what it contains, and why it fails. */
module VideoPlan {
  import opened Common
  import opened Sorting
  import opened VideoTypes
  import opened VideoCoalesce
  import opened VideoRealTime
  import opened VideoTimeline
  import opened VideoFacts
  import opened VideoModel
  import opened VideoAccept

  /** Two frames captured at one instant strictly inside coalesced gap j. */
  predicate TieInsideGap(frames: seq<Frame>, gaps: seq<CoalescedGap>, i: nat, j: nat) {
    TiePair(frames, i) && j < |gaps| && gaps[j].start < frames[i].time < gaps[j].end
  }

  predicate SomeTieInside(frames: seq<Frame>, gaps: seq<CoalescedGap>) {
    exists i, j :: 0 <= i < |frames| && 0 <= j < |gaps| && TieInsideGap(frames, gaps, i, j)
  }

  /** The slate around an instant that a gap covers. */
  lemma SlateAt(frames: seq<Frame>, gaps: seq<CoalescedGap>, ps: seq<Piece>, ds: seq<Draft>, j: nat, x: nat) returns (k: nat)
    requires frames != [] && Within(gaps, frames[0].time, frames[|frames| - 1].time) && Timeline(frames, gaps, ps, ds)
    requires j < |gaps| && SpanCovers(gaps[j], x)
    ensures k < |ps| && ps[k].Slate? && ps[k].from <= x < ps[k].until
  {
    ClockEnds(frames, gaps, ps, ds);
    k := FindPresenter(ds, frames[0].time, x, |ds|);
    PieceAt(frames, gaps, ps, ds, k);
    ClockIsFrom(frames, gaps, ps, ds, k);
    CoveredIsSlate(frames, gaps, ps[k], j, x);
  }

  /** The slate that ends at, or starts at, an instant strictly inside a gap. */
  lemma SlateAround(
    frames: seq<Frame>, gaps: seq<CoalescedGap>, ps: seq<Piece>, ds: seq<Draft>, i: nat, j: nat, at: nat)
    returns (k: nat, l: nat)
    requires WellFormedFrames(frames) && PlannerGaps(gaps, frames[0].time, frames[|frames| - 1].time)
    requires Timeline(frames, gaps, ps, ds) && TieInsideGap(frames, gaps, i, j)
    requires at < |ps| && ps[at].Tie? && ps[at].frame == i && ps[at].from == ps[at].until == frames[i].time
    ensures k < at < l < |ps| && ps[k].Slate? && ps[l].Slate?
    ensures ps[k].until == frames[i].time == ps[l].from
  {
    hide WellFormedFrames, PlannerGaps, Timeline, WellFormedPiece;
    GapsWithin(gaps, frames[0].time, frames[|frames| - 1].time);
    k := SlateAt(frames, gaps, ps, ds, j, frames[i].time - 1);
    l := SlateAt(frames, gaps, ps, ds, j, frames[i].time);
    if at < k { FramesAdvance(frames, gaps, ps, ds, at, k); }
    if k < at { FramesAdvance(frames, gaps, ps, ds, k, at); }
    if at < l { FramesAdvance(frames, gaps, ps, ds, at, l); }
    if l < at { FramesAdvance(frames, gaps, ps, ds, l, at); }
  }

  lemma GapsWithin(gaps: seq<CoalescedGap>, lo: nat, hi: nat)
    requires PlannerGaps(gaps, lo, hi)
    ensures Within(gaps, lo, hi)
  {
  }

  lemma CoveredIsSlate(frames: seq<Frame>, gaps: seq<CoalescedGap>, p: Piece, j: nat, s: int)
    requires WellFormedPiece(frames, gaps, p) && p.from <= s < p.until
    requires j < |gaps| && SpanCovers(gaps[j], s)
    ensures p.Slate?
  {
    assert p.Hold? ==> Clear(gaps, p.from, p.until);
  }

  lemma TieSplitsSlates(
    frames: seq<Frame>, gaps: seq<CoalescedGap>, ps: seq<Piece>, ds: seq<Draft>, i: nat, j: nat)
    requires WellFormedFrames(frames) && PlannerGaps(gaps, frames[0].time, frames[|frames| - 1].time)
    requires Timeline(frames, gaps, ps, ds) && TieInsideGap(frames, gaps, i, j)
    ensures !SlatesApart(ds)
  {
    var at := TiePosition(frames, gaps, ps, ds, i);
    var k, l := SlateAround(frames, gaps, ps, ds, i, j, at);
    PieceAt(frames, gaps, ps, ds, k);
    PieceAt(frames, gaps, ps, ds, l);
    forall m | k < m < l ensures !ds[m].source.GapSlate? {
      FramesAdvance(frames, gaps, ps, ds, k, m);
      FramesAdvance(frames, gaps, ps, ds, m, l);
      PieceAt(frames, gaps, ps, ds, m);
    }
    assert NextSlate(ds, k, l);
  }

  lemma TouchingSlatesNeedTie(
    frames: seq<Frame>, gaps: seq<CoalescedGap>, ps: seq<Piece>, ds: seq<Draft>, k: nat, l: nat)
    requires WellFormedFrames(frames) && Separated(gaps)
    requires Timeline(frames, gaps, ps, ds) && NextSlate(ds, k, l)
    ensures ds[k].source.end < ds[l].source.start || SomeTieInside(frames, gaps)
  {
    PieceAt(frames, gaps, ps, ds, k);
    PieceAt(frames, gaps, ps, ds, l);
    FramesAdvance(frames, gaps, ps, ds, k, l);
    assert Follows(ps[k], ps[k + 1]);
    if l > k + 1 && ps[k].until == ps[l].from {
      var m := k + 1;
      PieceAt(frames, gaps, ps, ds, m);
      FramesAdvance(frames, gaps, ps, ds, m, l);
      SameGap(gaps, ps[k].gap, ps[l].gap, ps[l].from);
      assert TieInsideGap(frames, gaps, ps[m].frame, ps[k].gap);
    }
  }

  /** Slates stay apart exactly when no tied pair of frames lies strictly inside a gap. */
  lemma ApartUnlessTieInside(frames: seq<Frame>, gaps: seq<CoalescedGap>, ps: seq<Piece>, ds: seq<Draft>)
    requires WellFormedFrames(frames) && PlannerGaps(gaps, frames[0].time, frames[|frames| - 1].time)
    requires Timeline(frames, gaps, ps, ds)
    ensures SlatesApart(ds) <==> !SomeTieInside(frames, gaps)
  {
    hide Timeline;
    if i, j :| 0 <= i < |frames| && 0 <= j < |gaps| && TieInsideGap(frames, gaps, i, j) {
      TieSplitsSlates(frames, gaps, ps, ds, i, j);
    } else {
      forall k, l | 0 <= k < l < |ds| && NextSlate(ds, k, l) ensures ds[k].source.end < ds[l].source.start {
        TouchingSlatesNeedTie(frames, gaps, ps, ds, k, l);
      }
    }
  }

  lemma SourcesAreOrdered(frames: seq<Frame>, gaps: seq<CoalescedGap>, ps: seq<Piece>, ds: seq<Draft>)
    requires WellFormedFrames(frames) && PlannerGaps(gaps, frames[0].time, frames[|frames| - 1].time)
    requires Timeline(frames, gaps, ps, ds)
    ensures SourcesInOrder(frames, ds)
  {
    forall k | 0 <= k < |ds| ensures InPresentedRange(frames, ds[k].source) {
      PieceAt(frames, gaps, ps, ds, k);
      if !ps[k].Slate? { assert frames[ps[k].frame] == Frame(ds[k].source.id, ds[k].source.time); }
    }
    forall k, l, i, j |
      0 <= k < l < |ds| && 0 <= i < |frames| && 0 <= j < |frames| && ShowsFrame(frames, ds[k], i) && ShowsFrame(frames, ds[l], j)
      ensures i <= j
    {
      FramesAdvance(frames, gaps, ps, ds, k, l);
      OwnFrame(frames, gaps, ps, ds, k, i);
      OwnFrame(frames, gaps, ps, ds, l, j);
    }
  }

  lemma OwnFrame(frames: seq<Frame>, gaps: seq<CoalescedGap>, ps: seq<Piece>, ds: seq<Draft>, k: nat, i: nat)
    requires DistinctFrames(frames) && Timeline(frames, gaps, ps, ds) && k < |ds| && ShowsFrame(frames, ds[k], i)
    ensures ps[k].frame == i
  {
    PieceAt(frames, gaps, ps, ds, k);
    SameId(frames, ps[k].frame, i);
  }

  lemma SameId(frames: seq<Frame>, i: nat, j: nat)
    requires DistinctFrames(frames) && i < |frames| && j < |frames| && frames[i].id == frames[j].id
    ensures i == j
  {
  }

  /** Facts about recorded drafts that both policies share. */
  lemma RecordedIsPresentable(frames: seq<Frame>, gaps: seq<CoalescedGap>, ps: seq<Piece>, ds: seq<Draft>)
    requires WellFormedFrames(frames) && PlannerGaps(gaps, frames[0].time, frames[|frames| - 1].time)
    requires Timeline(frames, gaps, ps, ds)
    ensures Presentable(ds) && ds != []
    ensures forall k :: 0 <= k < |ds| ==> SlateTiming(RealTime, ds[k])
    ensures Holds(ds[|ds| - 1], frames[|frames| - 1].id)
  {
    LastPiece(frames, gaps, ps, ds);
    forall k | 0 <= k < |ds|
      ensures ds[k].duration > 0 && ValidSource(ds[k].source) && SlateTiming(RealTime, ds[k])
    {
      PieceAt(frames, gaps, ps, ds, k);
      if !ps[k].Slate? { assert frames[ps[k].frame].id != NIL; }
    }
  }

  predicate AllShown(ds: seq<Draft>, meaningful: seq<Id>) {
    forall id :: id in meaningful ==> Shown(ds, id)
  }

  lemma LaidOutOrdered(ds: seq<Draft>, segments: seq<Segment>)
    requires LaidOut(ds, segments)
    ensures OrderedSegments(segments) && DraftsOf(segments) == ds
  {
    forall k | 0 <= k < |segments|
      ensures segments[k].start <= segments[k].end && segments[k].end - segments[k].start == ds[k].duration
    {
      assert segments[k] == Segment(k, ds[k].source, Elapsed(ds, k), Elapsed(ds, k + 1), ds[k].basis);
    }
    forall k | 0 <= k < |ds| ensures DraftsOf(segments)[k] == ds[k] {
      assert segments[k] == Segment(k, ds[k].source, Elapsed(ds, k), Elapsed(ds, k + 1), ds[k].basis);
    }
  }

  /** Laid-out presentable drafts leave only sources, visibility and canonical timing to check. */
  lemma AcceptedLaidOut(policy: Policy, frames: seq<Frame>, meaningful: seq<Id>, ds: seq<Draft>, segments: seq<Segment>)
    requires frames != [] && ds != [] && Presentable(ds) && LaidOut(ds, segments)
    requires |ds| <= MAX_VIDEO_PRESENTATION_SEGMENTS
    ensures Accepted(policy, frames, meaningful, segments)
      <==> SourcesInOrder(frames, ds) && AllShown(ds, meaningful) && CanonicalTiming(policy, frames, meaningful, ds)
  {
    hide SourcesInOrder, CanonicalTiming, Shown;
    LaidOutOrdered(ds, segments);
    forall k | 0 <= k < |segments|
      ensures
        && segments[k].index == k
        && segments[k].start < segments[k].end
        && segments[k].start == (if k == 0 then 0 else segments[k - 1].end)
        && ValidSource(segments[k].source)
    {
      assert segments[k] == Segment(k, ds[k].source, Elapsed(ds, k), Elapsed(ds, k + 1), ds[k].basis);
    }
  }

  /** The constructor accepts a real-time plan unless a tied pair lies strictly inside a gap. */
  lemma RealTimeAccepted(
    frames: seq<Frame>, gaps: seq<CoalescedGap>, meaningful: seq<Id>, ds: seq<Draft>, segments: seq<Segment>)
    requires WellFormedFrames(frames) && PlannerGaps(gaps, frames[0].time, frames[|frames| - 1].time)
    requires RealTimeDrafts(frames, gaps) == Ok(ds) && LaidOut(ds, segments)
    requires |ds| <= MAX_VIDEO_PRESENTATION_SEGMENTS
    ensures Accepted(RealTime, frames, meaningful, segments)
      <==> !SomeTieInside(frames, gaps) && AllShown(ds, meaningful)
  {
    var ps := RealTimeTimeline(frames, gaps);
    RecordedIsPresentable(frames, gaps, ps, ds);
    SourcesAreOrdered(frames, gaps, ps, ds);
    ApartUnlessTieInside(frames, gaps, ps, ds);
    AcceptedLaidOut(RealTime, frames, meaningful, ds, segments);
    hide Timeline, SlatesApart, SomeTieInside, RealTimeDrafts, PlannerGaps, FrameTiming, SourcesInOrder, Shown;
    hide RecordedFrame, Accepted, LaidOut, Presentable, Stretches, WellFormedFrames, SlateTiming;
    if AllShown(ds, meaningful) {
      forall i | 0 <= i < |frames| ensures FrameTiming(RealTime, frames, meaningful, ds, i) {
        FrameIsRecorded(frames, gaps, ps, ds, i);
        RecordedPasses(frames, meaningful, ds, i);
      }
    }
  }

  lemma StretchedSlateTiming(ds: seq<Draft>, meaningful: seq<Id>, k: nat)
    requires k < |ds| && SlateTiming(RealTime, ds[k])
    ensures SlateTiming(ModelOptimized, Stretches(ds, meaningful)[k])
  {
    assert Stretches(ds, meaningful)[k] == Stretch(ds, meaningful, k);
  }

  lemma SameSources(frames: seq<Frame>, ds: seq<Draft>, es: seq<Draft>)
    requires frames != [] && |ds| == |es| && forall m :: 0 <= m < |ds| ==> ds[m].source == es[m].source
    ensures SourcesInOrder(frames, ds) ==> SourcesInOrder(frames, es)
    ensures SlatesApart(ds) <==> SlatesApart(es)
  {
    if SlatesApart(ds) { ApartTransfer(ds, es); }
    if SlatesApart(es) { ApartTransfer(es, ds); }
    if SourcesInOrder(frames, ds) {
      forall k, l, i, j |
        0 <= k < l < |es| && 0 <= i < |frames| && 0 <= j < |frames| && ShowsFrame(frames, es[k], i) && ShowsFrame(frames, es[l], j)
        ensures i <= j
      {
        assert ShowsFrame(frames, ds[k], i) && ShowsFrame(frames, ds[l], j);
      }
    }
  }

  lemma ApartTransfer(ds: seq<Draft>, es: seq<Draft>)
    requires |ds| == |es| && forall m :: 0 <= m < |ds| ==> ds[m].source == es[m].source
    requires SlatesApart(ds)
    ensures SlatesApart(es)
  {
    forall k, l | 0 <= k < l < |es| && NextSlate(es, k, l) ensures es[k].source.end < es[l].source.start {
      assert NextSlate(ds, k, l);
    }
  }

  /** The same condition decides the model plan, once every meaningful frame is visible. */
  lemma ModelAccepted(
    frames: seq<Frame>, gaps: seq<CoalescedGap>, meaningful: seq<Id>, ds: seq<Draft>, segments: seq<Segment>)
    requires WellFormedFrames(frames) && PlannerGaps(gaps, frames[0].time, frames[|frames| - 1].time)
    requires RealTimeDrafts(frames, gaps) == Ok(ds) && AllShown(ds, meaningful)
    requires LaidOut(Stretches(ds, meaningful), segments) && |ds| <= MAX_VIDEO_PRESENTATION_SEGMENTS
    ensures Accepted(ModelOptimized, frames, meaningful, segments) <==> !SomeTieInside(frames, gaps)
  {
    var ps := RealTimeTimeline(frames, gaps);
    var es := Stretches(ds, meaningful);
    RecordedIsPresentable(frames, gaps, ps, ds);
    StretchedPresentable(ds, meaningful);
    SourcesAreOrdered(frames, gaps, ps, ds);
    ApartUnlessTieInside(frames, gaps, ps, ds);
    StretchKeepsSources(ds, meaningful);
    SameSources(frames, ds, es);
    AcceptedLaidOut(ModelOptimized, frames, meaningful, es, segments);
    hide Timeline, SlatesApart, SomeTieInside, RealTimeDrafts, PlannerGaps, FrameTiming, SourcesInOrder, Shown;
    hide RecordedFrame, Accepted, LaidOut, Presentable, Stretches, WellFormedFrames, SlateTiming;
    forall id | id in meaningful ensures Shown(es, id) { SameShown(ds, es, id); }
    forall i | 0 <= i < |frames| ensures FrameTiming(ModelOptimized, frames, meaningful, es, i) {
      FrameIsRecorded(frames, gaps, ps, ds, i);
      StretchedPasses(frames, meaningful, ds, i);
    }
    forall k | 0 <= k < |es| ensures SlateTiming(ModelOptimized, es[k]) { StretchedSlateTiming(ds, meaningful, k); }
  }

  /** The coalesced gaps of an input's presented range. */
  function PresentedGaps(input: PlanInput): seq<CoalescedGap>
    requires input.frames != []
  {
    Coalesce(input.gaps, input.frames[0].time, input.frames[|input.frames| - 1].time)
  }

  lemma PresentedGapsAreSound(input: PlanInput)
    requires ValidInput(input)
    ensures PlannerGaps(PresentedGaps(input), input.frames[0].time, input.frames[|input.frames| - 1].time)
  {
    hide Canonical, Coalesce;
    var lo, hi := input.frames[0].time, input.frames[|input.frames| - 1].time;
    CoalesceIsCanonical(input.gaps, lo, hi);
    CanonicalSeparated(Clip(input.gaps, lo, hi), PresentedGaps(input));
  }

  lemma CanonicalSeparated(gs: seq<Gap>, out: seq<CoalescedGap>)
    requires Canonical(gs, out)
    ensures Separated(out)
  {
  }

  /** Cutting succeeds exactly when no coalesced gap carries the nil identifier. */
  lemma DraftsUnlessNil(frames: seq<Frame>, gaps: seq<CoalescedGap>)
    requires WellFormedFrames(frames) && PlannerGaps(gaps, frames[0].time, frames[|frames| - 1].time)
    ensures RealTimeDrafts(frames, gaps).Ok? <==> !SomeNilGap(gaps)
    ensures RealTimeDrafts(frames, gaps).Err? ==> RealTimeDrafts(frames, gaps).error == InvalidInput
  {
    var ps := RealTimeTimeline(frames, gaps);
    var r := RealTimeDrafts(frames, gaps);
    if r.Ok? {
      forall j | 0 <= j < |gaps| ensures NIL !in gaps[j].ids { GapIsShown(frames, gaps, ps, r.value, j); }
    }
  }

  lemma GapIsShown(frames: seq<Frame>, gaps: seq<CoalescedGap>, ps: seq<Piece>, ds: seq<Draft>, j: nat)
    requires WellFormedFrames(frames) && PlannerGaps(gaps, frames[0].time, frames[|frames| - 1].time)
    requires Timeline(frames, gaps, ps, ds) && j < |gaps|
    ensures NIL !in gaps[j].ids
  {
    assert Within(gaps, frames[0].time, frames[|frames| - 1].time);
    ClockEnds(frames, gaps, ps, ds);
    var k := FindPresenter(ds, frames[0].time, gaps[j].start, |ds|);
    ClockIsFrom(frames, gaps, ps, ds, k);
    PieceAt(frames, gaps, ps, ds, k);
    CoveredIsSlate(frames, gaps, ps[k], j, gaps[j].start);
    OneSpan(gaps, ps[k].gap, j, gaps[j].start);
  }

  lemma OneSpan(gaps: seq<CoalescedGap>, a: nat, b: nat, s: int)
    requires Separated(gaps) && a < |gaps| && b < |gaps| && SpanCovers(gaps[a], s) && SpanCovers(gaps[b], s)
    ensures a == b
  {
  }

  /** A frame is visible when it is last, tied with its successor, or not fully hidden by gaps. */
  predicate Visible(frames: seq<Frame>, gaps: seq<CoalescedGap>, i: nat)
    requires i < |frames|
  {
    || i + 1 == |frames|
    || frames[i].time == frames[i + 1].time
    || Measure(gaps, |gaps|, frames[i].time, frames[i + 1].time) < frames[i + 1].time - frames[i].time
  }

  lemma {:induction false} ObscuredIsMeasure(
    frames: seq<Frame>, gaps: seq<CoalescedGap>, ps: seq<Piece>, ds: seq<Draft>, lo: nat, hi: nat, k: nat)
    requires Timeline(frames, gaps, ps, ds) && Separated(gaps) && lo <= hi && k <= |ds|
    ensures var x := Min(Max(Clock(ds, frames[0].time, k), lo), hi);
      var w := Min(Max(frames[0].time, lo), hi);
      w <= x && Obscured(ds, lo, hi, k) == Measure(gaps, |gaps|, w, x)
  {
    var w: nat := Min(Max(frames[0].time, lo), hi);
    hide Timeline, Separated;
    if k == 0 {
      MeasureEmpty(gaps, |gaps|, w);
    } else {
      ObscuredIsMeasure(frames, gaps, ps, ds, lo, hi, k - 1);
      ClockIsFrom(frames, gaps, ps, ds, k - 1);
      PieceAt(frames, gaps, ps, ds, k - 1);
      PieceMeasure(frames, gaps, ps[k - 1], lo, hi);
      MeasureSplits(gaps, |gaps|, w, Min(Max(ps[k - 1].from, lo), hi), Min(Max(ps[k - 1].until, lo), hi));
    }
  }

  /** What a piece hides of a window is the gap time in the piece's part of the window. */
  lemma PieceMeasure(frames: seq<Frame>, gaps: seq<CoalescedGap>, p: Piece, lo: nat, hi: nat)
    requires WellFormedPiece(frames, gaps, p) && Separated(gaps) && lo <= hi
    ensures var a, b := Min(Max(p.from, lo), hi), Min(Max(p.until, lo), hi);
      a <= b && Measure(gaps, |gaps|, a, b) == if p.Slate? then Overlap(p.from, p.until, lo, hi) else 0
  {
    var a: nat, b: nat := Min(Max(p.from, lo), hi), Min(Max(p.until, lo), hi);
    if a == b {
      MeasureEmpty(gaps, |gaps|, a);
    } else if p.Slate? {
      MeasureInside(gaps, |gaps|, p.gap, a, b);
    } else {
      assert Clear(gaps, p.from, p.until);
      MeasureClear(gaps, |gaps|, a, b);
    }
  }

  /** Visibility can be read off the input: it does not need the plan. */
  lemma ShownIffVisible(frames: seq<Frame>, gaps: seq<CoalescedGap>, ds: seq<Draft>, i: nat)
    requires WellFormedFrames(frames) && PlannerGaps(gaps, frames[0].time, frames[|frames| - 1].time)
    requires RealTimeDrafts(frames, gaps) == Ok(ds) && i < |frames|
    ensures Shown(ds, frames[i].id) <==> Visible(frames, gaps, i)
  {
    var ps := RealTimeTimeline(frames, gaps);
    FrameIsRecorded(frames, gaps, ps, ds, i);
    TimeShows(ds, frames[i].id);
    if i + 1 < |frames| {
      ClockEnds(frames, gaps, ps, ds);
      ObscuredIsMeasure(frames, gaps, ps, ds, frames[i].time, frames[i + 1].time, |ds|);
    }
  }

  /** What the planner returns, as a function of its validated input. */
  ghost predicate PlanOutcome(input: PlanInput, r: Result<seq<Segment>>)
    requires ValidInput(input)
  {
    var gaps := PresentedGaps(input);
    var recorded := RealTimeDrafts(input.frames, gaps);
    if recorded.Err? then r == Err(InvalidInput)
    else
      var ds := recorded.value;
      if |ds| > MAX_VIDEO_PRESENTATION_SEGMENTS then r == Err(ResourceLimitExceeded)
      else if !AllShown(ds, input.meaningful) then r == Err(InvalidInput)
      else
        var final := if input.policy == ModelOptimized then Stretches(ds, input.meaningful) else ds;
        if Total(final) > MAX_PRESENTATION_NANOS then r == Err(ResourceLimitExceeded)
        else if SomeTieInside(input.frames, gaps) then r == Err(InvalidInput)
        else r.Ok? && LaidOut(final, r.value)
  }

  lemma {:induction false} TiesBounded(frames: seq<Frame>, i: nat)
    requires i < |frames|
    ensures Ties(frames, i) <= i
  {
    if i > 0 { TiesBounded(frames, i - 1); }
  }

  /** A real-time plan of a valid input always stays below the presentation limit. */
  lemma RealTimeWithinLimit(input: PlanInput, ds: seq<Draft>)
    requires ValidInput(input) && RealTimeDrafts(input.frames, PresentedGaps(input)) == Ok(ds)
    ensures Total(ds) <= MAX_PRESENTATION_NANOS
  {
    hide RealTimeDrafts, PresentedGaps, Total, Ties;
    DurationConserved(input.frames, PresentedGaps(input), ds);
    TiesBounded(input.frames, |input.frames| - 1);
  }

  lemma MeaningfulDistinct(input: PlanInput)
    requires ValidInput(input)
    ensures Distinct(input.meaningful)
  {
    forall k, l | 0 <= k < l < |input.meaningful| ensures input.meaningful[k] != input.meaningful[l] {
      var i: nat :| IsFrameAt(input.frames, input.meaningful[k], i);
      assert IsFrameAt(input.frames, input.meaningful[k], i);
    }
  }

  /** The constructor's verdict on the final segments, for either policy. */
  lemma FinalVerdict(input: PlanInput, ds: seq<Draft>, segments: seq<Segment>)
    requires ValidInput(input) && RealTimeDrafts(input.frames, PresentedGaps(input)) == Ok(ds)
    requires |ds| <= MAX_VIDEO_PRESENTATION_SEGMENTS
    requires input.policy == ModelOptimized ==> AllShown(ds, input.meaningful)
    requires LaidOut(if input.policy == ModelOptimized then Stretches(ds, input.meaningful) else ds, segments)
    ensures Accepted(input.policy, input.frames, input.meaningful, segments)
      <==> !SomeTieInside(input.frames, PresentedGaps(input)) && AllShown(ds, input.meaningful)
  {
    hide RealTimeDrafts, LaidOut, Accepted, SomeTieInside, AllShown, PresentedGaps, PlannerGaps;
    PresentedGapsAreSound(input);
    if input.policy == ModelOptimized {
      ModelAccepted(input.frames, PresentedGaps(input), input.meaningful, ds, segments);
    } else {
      RealTimeAccepted(input.frames, PresentedGaps(input), input.meaningful, ds, segments);
    }
  }

  lemma RecordedPresentable(input: PlanInput, ds: seq<Draft>)
    requires ValidInput(input) && RealTimeDrafts(input.frames, PresentedGaps(input)) == Ok(ds)
    ensures Presentable(ds)
  {
    hide RealTimeDrafts, PresentedGaps, PlannerGaps;
    PresentedGapsAreSound(input);
    DraftsUnlessNil(input.frames, PresentedGaps(input));
    var ps := RealTimeTimeline(input.frames, PresentedGaps(input));
    RecordedIsPresentable(input.frames, PresentedGaps(input), ps, ds);
  }

  function FinalDrafts(input: PlanInput, ds: seq<Draft>): seq<Draft> {
    if input.policy == ModelOptimized then Stretches(ds, input.meaningful) else ds
  }

  /** The outcome once the recorded drafts are known. */
  lemma OutcomeOf(input: PlanInput, ds: seq<Draft>, r: Result<seq<Segment>>)
    requires ValidInput(input) && RealTimeDrafts(input.frames, PresentedGaps(input)) == Ok(ds)
    requires
      if |ds| > MAX_VIDEO_PRESENTATION_SEGMENTS then r == Err(ResourceLimitExceeded)
      else if !AllShown(ds, input.meaningful) then r == Err(InvalidInput)
      else if Total(FinalDrafts(input, ds)) > MAX_PRESENTATION_NANOS then r == Err(ResourceLimitExceeded)
      else if SomeTieInside(input.frames, PresentedGaps(input)) then r == Err(InvalidInput)
      else r.Ok? && LaidOut(FinalDrafts(input, ds), r.value)
    ensures PlanOutcome(input, r)
  {
  }

  /** The whole planner: coalesce, cut, lay out, optimize, and let the constructor validate. */
  method BuildPresentationPlan(input: PlanInput) returns (r: Result<seq<Segment>>)
    requires ValidInput(input)
    ensures PlanOutcome(input, r)
  {
    var first, last := input.frames[0].time, input.frames[|input.frames| - 1].time;
    assert first <= last;
    PresentedGapsAreSound(input);
    DraftsUnlessNil(input.frames, PresentedGaps(input));
    var gaps := CoalesceEpochGaps(input.gaps, first, last);
    var drafts := PlanRealTime(input.frames, gaps);
    if drafts.Err? {
      return Err(drafts.error);
    }
    r := LayOutPlan(input, drafts.value);
  }

  /** From recorded drafts to validated segments. */
  method LayOutPlan(input: PlanInput, drafts: seq<Draft>) returns (r: Result<seq<Segment>>)
    requires ValidInput(input) && RealTimeDrafts(input.frames, PresentedGaps(input)) == Ok(drafts)
    ensures PlanOutcome(input, r)
  {
    hide PlanOutcome, RealTimeDrafts, PresentedGaps, Presentable, LaidOut, Stretches, Total, Accepted, SomeTieInside;
    hide Shown, Distinct, DraftsOf, OrderedSegments;
    MeaningfulDistinct(input);
    RecordedPresentable(input, drafts);
    RealTimeWithinLimit(input, drafts);
    hide ValidInput;
    var segments := FinishSegments(drafts);
    if segments.Err? {
      OutcomeOf(input, drafts, segments);
      return segments;
    }
    LaidOutOrdered(drafts, segments.value);
    if input.policy == ModelOptimized {
      segments := OptimizeForModel(segments.value, input.meaningful);
      if segments.Err? {
        OutcomeOf(input, drafts, segments);
        return segments;
      }
    }
    FinalVerdict(input, drafts, segments.value);
    if Accepted(input.policy, input.frames, input.meaningful, segments.value) {
      r := segments;
    } else {
      r := Err(InvalidInput);
    }
    OutcomeOf(input, drafts, r);
  }

  /** A tied pair both of whose neighbouring instants are declared missing. */
  ghost predicate TieHidden(input: PlanInput, i: nat)
    requires input.frames != []
  {
    var clipped := Clip(input.gaps, input.frames[0].time, input.frames[|input.frames| - 1].time);
    && TiePair(input.frames, i)
    && GapCovers(clipped, input.frames[i].time - 1)
    && GapCovers(clipped, input.frames[i].time)
  }

  /** An instant and its predecessor are both covered exactly when one gap strictly surrounds them. */
  lemma StrictlyInside(clipped: seq<Gap>, gaps: seq<CoalescedGap>, x: nat)
    requires Canonical(clipped, gaps)
    ensures GapCovers(clipped, x - 1) && GapCovers(clipped, x)
      <==> exists j :: 0 <= j < |gaps| && gaps[j].start < x < gaps[j].end
  {
    CanonicalSeparated(clipped, gaps);
    SameCover(clipped, gaps, x - 1);
    SameCover(clipped, gaps, x);
    hide Canonical, GapCovers;
    if AnyCovers(gaps, x - 1) && AnyCovers(gaps, x) {
      var a :| 0 <= a < |gaps| && SpanCovers(gaps[a], x - 1);
      var b :| 0 <= b < |gaps| && SpanCovers(gaps[b], x);
      assert a == b;
    }
    if j :| 0 <= j < |gaps| && gaps[j].start < x < gaps[j].end {
      assert SpanCovers(gaps[j], x - 1) && SpanCovers(gaps[j], x);
    }
  }

  /** Ties inside coalesced gaps can be read off the declared gaps. */
  lemma TieHiddenIffInside(input: PlanInput)
    requires ValidInput(input)
    ensures SomeTieInside(input.frames, PresentedGaps(input)) <==> exists i: nat :: TieHidden(input, i)
  {
    assert input.frames != [];
    hide Canonical, Coalesce, GapCovers, ValidInput;
    var lo, hi := input.frames[0].time, input.frames[|input.frames| - 1].time;
    var clipped, gaps := Clip(input.gaps, lo, hi), PresentedGaps(input);
    CoalesceIsCanonical(input.gaps, lo, hi);
    forall i: nat | TiePair(input.frames, i)
      ensures TieHidden(input, i) <==> exists j: nat :: TieInsideGap(input.frames, gaps, i, j)
    {
      StrictlyInside(clipped, gaps, input.frames[i].time);
      if j :| 0 <= j < |gaps| && gaps[j].start < input.frames[i].time < gaps[j].end {
        assert TieInsideGap(input.frames, gaps, i, j);
      }
    }
  }

  /** A declared gap with the nil identifier reaches into the presented range. */
  predicate NilInRange(input: PlanInput, k: nat)
    requires input.frames != [] && k < |input.gaps|
  {
    input.gaps[k].id == NIL
    && Max(input.gaps[k].start, input.frames[0].time) < Min(input.gaps[k].end, input.frames[|input.frames| - 1].time)
  }

  ghost predicate NilDeclared(input: PlanInput)
    requires input.frames != []
  {
    exists k: nat :: k < |input.gaps| && NilInRange(input, k)
  }

  lemma NilClipped(input: PlanInput)
    requires input.frames != []
    ensures var clipped := Clip(input.gaps, input.frames[0].time, input.frames[|input.frames| - 1].time);
      NilDeclared(input) <==> exists c :: 0 <= c < |clipped| && clipped[c].id == NIL
  {
    var lo, hi := input.frames[0].time, input.frames[|input.frames| - 1].time;
    var clipped := Clip(input.gaps, lo, hi);
    hide Clip, Min, Max;
    if NilDeclared(input) {
      var k: nat :| k < |input.gaps| && NilInRange(input, k);
      var gap := input.gaps[k];
      ClipMeaning(input.gaps, lo, hi, Gap(NIL, Max(gap.start, lo), Min(gap.end, hi)));
      assert Gap(NIL, Max(gap.start, lo), Min(gap.end, hi)) in clipped;
    }
    forall c | 0 <= c < |clipped| && clipped[c].id == NIL ensures NilDeclared(input) {
      NilFromClipped(input, c);
    }
  }

  lemma NilFromClipped(input: PlanInput, c: nat)
    requires input.frames != []
    requires var clipped := Clip(input.gaps, input.frames[0].time, input.frames[|input.frames| - 1].time);
      c < |clipped| && clipped[c].id == NIL
    ensures NilDeclared(input)
  {
    var lo, hi := input.frames[0].time, input.frames[|input.frames| - 1].time;
    var clipped := Clip(input.gaps, lo, hi);
    hide Clip;
    ClipMeaning(input.gaps, lo, hi, clipped[c]);
    assert clipped[c] in clipped;
    var k :| 0 <= k < |input.gaps| && clipped[c] == Gap(input.gaps[k].id, Max(input.gaps[k].start, lo), Min(input.gaps[k].end, hi));
    assert NilInRange(input, k);
  }

  lemma NilCoalesced(clipped: seq<Gap>, gaps: seq<CoalescedGap>)
    requires Canonical(clipped, gaps)
    ensures SomeNilGap(gaps) <==> exists c :: 0 <= c < |clipped| && clipped[c].id == NIL
  {
    assert SameUnion(clipped, gaps) && ExactIds(clipped, gaps);
    hide Canonical, SameUnion, Separated;
    if j :| 0 <= j < |gaps| && NIL in gaps[j].ids {
      assert Contributes(clipped, gaps[j], NIL);
    }
    if c :| 0 <= c < |clipped| && clipped[c].id == NIL {
      HousedGap(clipped, gaps, c);
      var j :| 0 <= j < |gaps| && Inside(clipped[c], gaps[j]);
      assert Contributes(clipped, gaps[j], NIL);
    }
  }

  lemma HousedGap(clipped: seq<Gap>, gaps: seq<CoalescedGap>, c: nat)
    requires SameUnion(clipped, gaps) && c < |clipped|
    ensures exists j :: 0 <= j < |gaps| && Inside(clipped[c], gaps[j])
  {
    assert Housed(clipped[c], gaps);
  }

  /** Whether a coalesced gap is nil can be read off the declared gaps. */
  lemma NilIffDeclared(input: PlanInput)
    requires ValidInput(input)
    ensures SomeNilGap(PresentedGaps(input)) <==> NilDeclared(input)
  {
    var lo, hi := input.frames[0].time, input.frames[|input.frames| - 1].time;
    CoalesceIsCanonical(input.gaps, lo, hi);
    hide Canonical, Coalesce, Clip, SomeNilGap, NilDeclared;
    NilCoalesced(Clip(input.gaps, lo, hi), PresentedGaps(input));
    NilClipped(input);
  }

  /** A range that declares a nil gap is a valid input with no plan. */
  lemma NilGapIsRefused(r: Result<seq<Segment>>)
    ensures var input := PlanInput([Frame(1, 0), Frame(2, 10)], [Gap(NIL, 3, 5)], [], RealTime);
      ValidInput(input) && NilDeclared(input) && (PlanOutcome(input, r) ==> r == Err(InvalidInput))
  {
    var input := PlanInput([Frame(1, 0), Frame(2, 10)], [Gap(NIL, 3, 5)], [], RealTime);
    assert ValidInput(input);
    assert NilInRange(input, 0);
    hide ValidInput, NilDeclared;
    NilIffDeclared(input);
    PresentedGapsAreSound(input);
    assert WellFormedFrames(input.frames);
    hide PresentedGaps, SomeNilGap, PlannerGaps;
    DraftsUnlessNil(input.frames, PresentedGaps(input));
  }

  /** The planner succeeds exactly under these conditions on its input and plan size. */
  lemma PlanSucceedsExactly(input: PlanInput, r: Result<seq<Segment>>)
    requires ValidInput(input) && PlanOutcome(input, r)
    ensures var gaps := PresentedGaps(input);
      r.Ok? <==>
        && !NilDeclared(input)
        && (forall i: nat :: !TieHidden(input, i))
        && (forall i :: 0 <= i < |input.frames| && input.frames[i].id in input.meaningful ==> Visible(input.frames, gaps, i))
        && (RealTimeDrafts(input.frames, gaps).Ok? ==>
              var ds := RealTimeDrafts(input.frames, gaps).value;
              && |ds| <= MAX_VIDEO_PRESENTATION_SEGMENTS
              && (input.policy == ModelOptimized ==> Total(Stretches(ds, input.meaningful)) <= MAX_PRESENTATION_NANOS))
  {
    var gaps := PresentedGaps(input);
    PresentedGapsAreSound(input);
    DraftsUnlessNil(input.frames, gaps);
    NilIffDeclared(input);
    TieHiddenIffInside(input);
    hide NilDeclared, SomeNilGap;
    if RealTimeDrafts(input.frames, gaps).Ok? {
      var ds := RealTimeDrafts(input.frames, gaps).value;
      RealTimeWithinLimit(input, ds);
      MeaningfulShownIffVisible(input, ds);
    }
  }

  lemma MeaningfulShownIffVisible(input: PlanInput, ds: seq<Draft>)
    requires ValidInput(input) && RealTimeDrafts(input.frames, PresentedGaps(input)) == Ok(ds)
    ensures AllShown(ds, input.meaningful) <==>
      forall i :: 0 <= i < |input.frames| && input.frames[i].id in input.meaningful
        ==> Visible(input.frames, PresentedGaps(input), i)
  {
    hide RealTimeDrafts, PresentedGaps, PlannerGaps, Shown, Visible;
    PresentedGapsAreSound(input);
    forall i | 0 <= i < |input.frames|
      ensures Shown(ds, input.frames[i].id) <==> Visible(input.frames, PresentedGaps(input), i)
    {
      ShownIffVisible(input.frames, PresentedGaps(input), ds, i);
    }
    forall id | id in input.meaningful ensures exists i :: 0 <= i < |input.frames| && input.frames[i].id == id {
      var k :| 0 <= k < |input.meaningful| && input.meaningful[k] == id;
      var i: nat :| IsFrameAt(input.frames, input.meaningful[k], i);
    }
  }

  /** Four frames, the middle two tied inside one declared gap: the planner refuses its own plan. */
  lemma TieInsideGapIsRefused(r: Result<seq<Segment>>)
    ensures var input := PlanInput(
        [Frame(1, 0), Frame(2, 10), Frame(3, 10), Frame(4, 20)], [Gap(7, 5, 15)], [], RealTime);
      ValidInput(input) && (PlanOutcome(input, r) ==> r.Err?)
  {
    var input := PlanInput([Frame(1, 0), Frame(2, 10), Frame(3, 10), Frame(4, 20)], [Gap(7, 5, 15)], [], RealTime);
    assert ValidInput(input);
    if PlanOutcome(input, r) {
      var clipped := Clip(input.gaps, 0, 20);
      assert Clip(input.gaps[1..], 0, 20) == [];
      assert clipped == [Gap(7, 5, 15)];
      assert Covers(clipped[0], 9) && Covers(clipped[0], 10);
      assert TieHidden(input, 1);
      PlanSucceedsExactly(input, r);
    }
  }
}
