/** The plan constructor's own validation, and when the planner's output passes it. */
module VideoAccept {
  import opened Common
  import opened VideoTypes
  import opened VideoRealTime
  import opened VideoTimeline
  import opened VideoFacts
  import opened VideoModel

  /** Nanoseconds of [lo, hi) hidden by the first k drafts that are slates. */
  function Obscured(ds: seq<Draft>, lo: nat, hi: nat, k: nat): nat
    requires k <= |ds|
  {
    if k == 0 then 0
    else
      Obscured(ds, lo, hi, k - 1)
      + match ds[k - 1].source
        case GapSlate(_, start, end) => Overlap(start, end, lo, hi)
        case SourceFrame(_, _) => 0
  }

  /** Recorded visible duration of frame i: its terminal hold, tie minimum, or unobscured interval. */
  function BaseVisible(frames: seq<Frame>, ds: seq<Draft>, i: nat): int
    requires i < |frames|
  {
    if i + 1 == |frames| then TERMINAL_HOLD_NANOS
    else if frames[i].time == frames[i + 1].time then MINIMUM_VISIBLE_FRAME_NANOS
    else frames[i + 1].time - frames[i].time - Obscured(ds, frames[i].time, frames[i + 1].time, |ds|)
  }

  function OrdinaryBasis(frames: seq<Frame>, i: nat): Basis
    requires i < |frames|
  {
    if i + 1 == |frames| then TerminalHold
    else if frames[i].time == frames[i + 1].time then MinimumVisibleFrame
    else RecordedDelta
  }

  predicate FrameTiming(policy: Policy, frames: seq<Frame>, meaningful: seq<Id>, ds: seq<Draft>, i: nat)
    requires i < |frames|
  {
    var id := frames[i].id;
    var base := BaseVisible(frames, ds, i);
    && base >= 0
    && if !Shown(ds, id) then base == 0 && id !in meaningful
       else
         var adjusted := policy == ModelOptimized && id in meaningful && base < MODEL_MEANINGFUL_HOLD_NANOS;
         && base != 0
         && FrameTime(ds, id, |ds|) == (if adjusted then MODEL_MEANINGFUL_HOLD_NANOS else base)
         && forall k :: 0 <= k < |ds| && Holds(ds[k], id) ==>
              ds[k].basis == if adjusted && FirstHold(ds, id, k) then ModelMeaningfulHold else OrdinaryBasis(frames, i)
  }

  predicate SlateTiming(policy: Policy, d: Draft) {
    match d.source
    case SourceFrame(_, _) =>
      d.basis != RecordedGap && d.basis != ModelGapHold && (policy == RealTime ==> d.basis != ModelMeaningfulHold)
    case GapSlate(_, start, end) =>
      if policy == ModelOptimized && end - start < MODEL_GAP_HOLD_NANOS then
        d.duration == MODEL_GAP_HOLD_NANOS && d.basis == ModelGapHold
      else
        d.duration == end - start && d.basis == RecordedGap
  }

  /** Slates k and l with no slate between them. */
  predicate NextSlate(ds: seq<Draft>, k: nat, l: nat) {
    && k < l < |ds| && ds[k].source.GapSlate? && ds[l].source.GapSlate?
    && forall m :: k < m < l ==> !ds[m].source.GapSlate?
  }

  /** Each slate starts strictly after the previous slate ends. */
  predicate SlatesApart(ds: seq<Draft>) {
    forall k, l :: 0 <= k < l < |ds| && NextSlate(ds, k, l) ==> ds[k].source.end < ds[l].source.start
  }

  predicate SourcesInOrder(frames: seq<Frame>, ds: seq<Draft>)
    requires frames != []
  {
    && (forall k :: 0 <= k < |ds| ==> InPresentedRange(frames, ds[k].source))
    && forall k, l, i, j ::
         (0 <= k < l < |ds| && 0 <= i < |frames| && 0 <= j < |frames| && ShowsFrame(frames, ds[k], i) && ShowsFrame(frames, ds[l], j)) ==> i <= j
  }

  predicate ShowsFrame(frames: seq<Frame>, d: Draft, i: nat) {
    i < |frames| && d.source == SourceFrame(frames[i].id, frames[i].time)
  }

  predicate InPresentedRange(frames: seq<Frame>, source: Source)
    requires frames != []
  {
    match source
    case SourceFrame(id, time) => exists i: nat :: i < |frames| && frames[i] == Frame(id, time)
    case GapSlate(_, start, end) => frames[0].time <= start && end <= frames[|frames| - 1].time
  }

  predicate CanonicalTiming(policy: Policy, frames: seq<Frame>, meaningful: seq<Id>, ds: seq<Draft>) {
    && (forall k :: 0 <= k < |ds| ==> SlateTiming(policy, ds[k]))
    && SlatesApart(ds)
    && (forall i :: 0 <= i < |frames| ==> FrameTiming(policy, frames, meaningful, ds, i))
    && frames != [] && ds != [] && Holds(ds[|ds| - 1], frames[|frames| - 1].id)
  }

  /** What the plan constructor accepts. */
  predicate Accepted(policy: Policy, frames: seq<Frame>, meaningful: seq<Id>, segments: seq<Segment>)
    requires frames != []
  {
    && segments != [] && |segments| <= MAX_VIDEO_PRESENTATION_SEGMENTS
    && (forall k :: 0 <= k < |segments| ==>
          && segments[k].index == k
          && segments[k].start < segments[k].end
          && segments[k].start == (if k == 0 then 0 else segments[k - 1].end)
          && ValidSource(segments[k].source))
    && SourcesInOrder(frames, DraftsOf(segments))
    && (forall id :: id in meaningful ==> Shown(DraftsOf(segments), id))
    && CanonicalTiming(policy, frames, meaningful, DraftsOf(segments))
  }

  // The recorded timing of every frame

  lemma {:induction false} FrameBalance(
    frames: seq<Frame>, gaps: seq<CoalescedGap>, ps: seq<Piece>, ds: seq<Draft>, i: nat, k: nat)
    requires WellFormedFrames(frames) && Timeline(frames, gaps, ps, ds)
    requires i + 1 < |frames| && !TiePair(frames, i) && k <= |ds|
    ensures FrameTime(ds, frames[i].id, k) + Obscured(ds, frames[i].time, frames[i + 1].time, k)
         == Min(Max(Clock(ds, frames[0].time, k), frames[i].time), frames[i + 1].time) - frames[i].time
  {
    assert frames[0].time <= frames[i].time <= frames[i + 1].time;
    hide Timeline, WellFormedFrames, TiePair;
    if k > 0 {
      FrameBalance(frames, gaps, ps, ds, i, k - 1);
      ClockIsFrom(frames, gaps, ps, ds, k - 1);
      PieceAt(frames, gaps, ps, ds, k - 1);
      PieceBalance(frames, gaps, ps[k - 1], i);
    }
  }

  lemma PieceBalance(frames: seq<Frame>, gaps: seq<CoalescedGap>, p: Piece, i: nat)
    requires WellFormedFrames(frames) && WellFormedPiece(frames, gaps, p)
    requires i + 1 < |frames| && !TiePair(frames, i)
    ensures var d, lo, hi := DraftOf(frames, gaps, p), frames[i].time, frames[i + 1].time;
      && (Holds(d, frames[i].id) <==> p.Hold? && p.frame == i)
      && Min(Max(p.until, lo), hi) - Min(Max(p.from, lo), hi) ==
           if p.Slate? then Overlap(p.from, p.until, lo, hi) else if Holds(d, frames[i].id) then d.duration else 0
  {
    if p.frame < i {
      assert frames[p.frame].id != frames[i].id && frames[p.frame + 1].time <= frames[i].time;
    } else if p.frame > i {
      assert frames[i].id != frames[p.frame].id && frames[i + 1].time <= frames[p.frame].time;
    }
  }

  lemma {:induction false} FramesAdvance(
    frames: seq<Frame>, gaps: seq<CoalescedGap>, ps: seq<Piece>, ds: seq<Draft>, k: nat, l: nat)
    requires Timeline(frames, gaps, ps, ds) && k < l < |ps|
    ensures ps[k].frame <= ps[l].frame && ps[k].until <= ps[l].from
    ensures ps[k].Tie? ==> ps[k].frame < ps[l].frame
    ensures !ps[k].Terminal?
  {
    assert Follows(ps[l - 1], ps[l]);
    assert WellFormedPiece(frames, gaps, ps[l - 1]);
    if k < l - 1 { FramesAdvance(frames, gaps, ps, ds, k, l - 1); }
  }

  lemma OnlyHold(
    frames: seq<Frame>, gaps: seq<CoalescedGap>, ps: seq<Piece>, ds: seq<Draft>, at: nat, m: nat)
    requires WellFormedFrames(frames) && Timeline(frames, gaps, ps, ds)
    requires at < |ps| && (ps[at].Tie? || ps[at].Terminal?) && m < |ps|
    ensures Holds(ds[m], frames[ps[at].frame].id) <==> m == at
  {
    PieceAt(frames, gaps, ps, ds, m);
    PieceAt(frames, gaps, ps, ds, at);
    if m < at { FramesAdvance(frames, gaps, ps, ds, m, at); }
    if at < m { FramesAdvance(frames, gaps, ps, ds, at, m); }
    hide Timeline;
    if !ps[m].Slate? && ps[m].frame != ps[at].frame {
      assert frames[ps[m].frame].id != frames[ps[at].frame].id;
    }
  }

  /** A tied frame is held once for the minimum, and the last frame once for the terminal hold. */
  lemma {:induction false} SingleHold(ds: seq<Draft>, id: Id, at: nat, k: nat)
    requires at < |ds| && k <= |ds| && forall m :: 0 <= m < |ds| ==> (Holds(ds[m], id) <==> m == at)
    ensures FrameTime(ds, id, k) == if at < k then ds[at].duration else 0
  {
    if k > 0 { SingleHold(ds, id, at, k - 1); }
  }

  ghost predicate RecordedFrame(frames: seq<Frame>, ds: seq<Draft>, i: nat)
    requires i < |frames|
  {
    && FrameTime(ds, frames[i].id, |ds|) == BaseVisible(frames, ds, i)
    && forall k :: 0 <= k < |ds| && Holds(ds[k], frames[i].id) ==>
         ds[k].basis == OrdinaryBasis(frames, i) && ds[k].duration > 0
  }

  lemma FrameIsRecorded(frames: seq<Frame>, gaps: seq<CoalescedGap>, ps: seq<Piece>, ds: seq<Draft>, i: nat)
    requires WellFormedFrames(frames) && Timeline(frames, gaps, ps, ds) && i < |frames|
    ensures RecordedFrame(frames, ds, i)
  {
    hide Chain, Clear, HasTie;
    var id := frames[i].id;
    if i + 1 == |frames| {
      var at := |ps| - 1;
      LastPiece(frames, gaps, ps, ds);
      forall m | 0 <= m < |ds| ensures Holds(ds[m], id) <==> m == at { OnlyHold(frames, gaps, ps, ds, at, m); }
      SingleHold(ds, id, at, |ds|);
    } else if TiePair(frames, i) {
      var at := TiePosition(frames, gaps, ps, ds, i);
      forall m | 0 <= m < |ds| ensures Holds(ds[m], id) <==> m == at { OnlyHold(frames, gaps, ps, ds, at, m); }
      SingleHold(ds, id, at, |ds|);
    } else {
      FrameBalance(frames, gaps, ps, ds, i, |ds|);
      ClockEnds(frames, gaps, ps, ds);
      forall k | 0 <= k < |ds| && Holds(ds[k], id) ensures ds[k].basis == RecordedDelta && ds[k].duration > 0 {
        PieceAt(frames, gaps, ps, ds, k);
        PieceBalance(frames, gaps, ps[k], i);
      }
    }
  }

  lemma PieceAt(frames: seq<Frame>, gaps: seq<CoalescedGap>, ps: seq<Piece>, ds: seq<Draft>, k: nat)
    requires Timeline(frames, gaps, ps, ds) && k < |ds|
    ensures k < |ps| && WellFormedPiece(frames, gaps, ps[k]) && ds[k] == DraftOf(frames, gaps, ps[k])
  {
  }

  lemma LastPiece(frames: seq<Frame>, gaps: seq<CoalescedGap>, ps: seq<Piece>, ds: seq<Draft>)
    requires Timeline(frames, gaps, ps, ds)
    ensures |ds| == |ps| > 0 && ps[|ps| - 1].Terminal? && ps[|ps| - 1].frame == |frames| - 1
    ensures ds[|ps| - 1] == TerminalDraft(frames[|frames| - 1])
  {
    PieceAt(frames, gaps, ps, ds, |ps| - 1);
  }

  lemma TiePosition(frames: seq<Frame>, gaps: seq<CoalescedGap>, ps: seq<Piece>, ds: seq<Draft>, i: nat)
    returns (at: nat)
    requires Timeline(frames, gaps, ps, ds) && TiePair(frames, i)
    ensures at < |ps| == |ds| && ps[at].Tie? && ps[at].frame == i
    ensures ps[at].from == ps[at].until == frames[i].time && ds[at] == TieDraft(frames[i])
  {
    assert HasTie(ps, i);
    at :| 0 <= at < |ps| && ps[at].Tie? && ps[at].frame == i;
    PieceAt(frames, gaps, ps, ds, at);
  }

  lemma TimeShows(ds: seq<Draft>, id: Id)
    requires forall k :: 0 <= k < |ds| && Holds(ds[k], id) ==> ds[k].duration > 0
    ensures Shown(ds, id) <==> FrameTime(ds, id, |ds|) > 0
  {
    if k :| 0 <= k < |ds| && Holds(ds[k], id) {
      FrameTimeMonotone(ds, id, k + 1, |ds|);
    } else {
      FrameTimeAbsent(ds, id, |ds|);
    }
  }

  lemma RecordedPasses(frames: seq<Frame>, meaningful: seq<Id>, ds: seq<Draft>, i: nat)
    requires i < |frames| && RecordedFrame(frames, ds, i)
    requires frames[i].id in meaningful ==> Shown(ds, frames[i].id)
    ensures FrameTiming(RealTime, frames, meaningful, ds, i)
  {
    TimeShows(ds, frames[i].id);
  }

  lemma {:induction false} SameObscured(ds: seq<Draft>, es: seq<Draft>, lo: nat, hi: nat, k: nat)
    requires k <= |ds| == |es| && forall m :: 0 <= m < |ds| ==> ds[m].source == es[m].source
    ensures Obscured(ds, lo, hi, k) == Obscured(es, lo, hi, k)
  {
    if k > 0 { SameObscured(ds, es, lo, hi, k - 1); }
  }

  lemma StretchKeepsSources(ds: seq<Draft>, meaningful: seq<Id>)
    ensures forall m :: 0 <= m < |ds| ==> ds[m].source == Stretches(ds, meaningful)[m].source
  {
    forall m | 0 <= m < |ds| ensures ds[m].source == Stretches(ds, meaningful)[m].source {
      StretchOnlyLengthens(ds, meaningful, m);
    }
  }

  lemma SameShown(ds: seq<Draft>, es: seq<Draft>, id: Id)
    requires |ds| == |es| && forall m :: 0 <= m < |ds| ==> ds[m].source == es[m].source
    ensures Shown(ds, id) <==> Shown(es, id)
  {
    if k :| 0 <= k < |ds| && Holds(ds[k], id) { assert Holds(es[k], id); }
    if k :| 0 <= k < |es| && Holds(es[k], id) { assert Holds(ds[k], id); }
  }

  lemma StretchedPasses(frames: seq<Frame>, meaningful: seq<Id>, ds: seq<Draft>, i: nat)
    requires i < |frames| && RecordedFrame(frames, ds, i)
    requires frames[i].id in meaningful ==> Shown(ds, frames[i].id)
    ensures FrameTiming(ModelOptimized, frames, meaningful, Stretches(ds, meaningful), i)
  {
    var id, es := frames[i].id, Stretches(ds, meaningful);
    TimeShows(ds, id);
    StretchKeepsSources(ds, meaningful);
    SameShown(ds, es, id);
    if i + 1 < |frames| { SameObscured(ds, es, frames[i].time, frames[i + 1].time, |ds|); }
    if Shown(ds, id) {
      MeaningfulTotal(ds, meaningful, id);
      forall k | 0 <= k < |es| && Holds(es[k], id)
        ensures FirstHold(es, id, k) == FirstHold(ds, id, k) && es[k] == Stretch(ds, meaningful, k)
      {
        assert Holds(ds[k], id);
      }
    }
  }
}
