/** Cutting every frame-to-frame interval into frame holds and gap slates. */
module VideoRealTime {
  import opened Common
  import opened Sorting
  import opened VideoTypes
  import opened VideoCoalesce

  /** The drafts produced so far in one interval, and how far the interval is presented. */
  datatype Cut = Cut(drafts: seq<Draft>, cursor: nat)

  /** Coalesced gaps as the planner receives them. */
  ghost predicate PlannerGaps(gaps: seq<CoalescedGap>, lo: nat, hi: nat) {
    && Separated(gaps)
    && Within(gaps, lo, hi)
    && forall j :: 0 <= j < |gaps| ==> gaps[j].ids != [] && Distinct(gaps[j].ids)
  }

  predicate ValidSlate(ids: seq<Id>, start: nat, end: nat) {
    ids != [] && NIL !in ids && Distinct(ids) && start < end
  }

  predicate ExtendsSlate(last: Draft, next: Draft) {
    && last.source.GapSlate?
    && next.source.GapSlate?
    && last.basis == next.basis
    && last.source.ids == next.source.ids
    && last.source.end == next.source.start
  }

  /** Append a draft, merging a slate into the slate it continues. */
  function PushDraft(output: seq<Draft>, draft: Draft): Result<seq<Draft>> {
    if output != [] && ExtendsSlate(output[|output| - 1], draft) then
      var last := output[|output| - 1];
      if last.duration + draft.duration >= U64_LIMIT then Err(ResourceLimitExceeded)
      else
        Ok(output[|output| - 1 := Draft(
             GapSlate(last.source.ids, last.source.start, draft.source.end),
             last.duration + draft.duration,
             last.basis)])
    else
      Ok(output + [draft])
  }

  function HoldDraft(frame: Frame, from: nat, until: nat): Draft
    requires from <= until
  {
    Draft(SourceFrame(frame.id, frame.time), until - from, RecordedDelta)
  }

  function SlateDraft(ids: seq<Id>, from: nat, until: nat): Draft
    requires from <= until
  {
    Draft(GapSlate(ids, from, until), until - from, RecordedGap)
  }

  function TieDraft(frame: Frame): Draft {
    Draft(SourceFrame(frame.id, frame.time), MINIMUM_VISIBLE_FRAME_NANOS, MinimumVisibleFrame)
  }

  function TerminalDraft(frame: Frame): Draft {
    Draft(SourceFrame(frame.id, frame.time), TERMINAL_HOLD_NANOS, TerminalHold)
  }

  /** A frame hold never continues a slate, so pushing one always succeeds. */
  function PushHold(output: seq<Draft>, frame: Frame, from: nat, until: nat): seq<Draft>
    requires from <= until
  {
    PushDraft(output, HoldDraft(frame, from, until)).value
  }

  /** What one coalesced gap contributes to the interval [start, end) of a frame. */
  function CutGap(frame: Frame, start: nat, end: nat, gap: CoalescedGap, cut: Cut): Result<Cut> {
    var gapStart := Max(gap.start, start);
    var gapEnd := Min(gap.end, end);
    if gapStart >= gapEnd || gapEnd <= cut.cursor then Ok(cut)
    else
      var held := if cut.cursor < gapStart then PushHold(cut.drafts, frame, cut.cursor, gapStart) else cut.drafts;
      var visible := Max(cut.cursor, gapStart);
      if !ValidSlate(gap.ids, visible, gapEnd) then Err(InvalidInput)
      else
        var slated := PushDraft(held, SlateDraft(gap.ids, visible, gapEnd));
        if slated.Err? then Err(slated.error) else Ok(Cut(slated.value, gapEnd))
  }

  function CutGaps(frame: Frame, start: nat, end: nat, gaps: seq<CoalescedGap>, j: nat, drafts: seq<Draft>): Result<Cut>
    requires j <= |gaps|
  {
    if j == 0 then Ok(Cut(drafts, start))
    else
      var cut := CutGaps(frame, start, end, gaps, j - 1, drafts);
      if cut.Err? then cut else CutGap(frame, start, end, gaps[j - 1], cut.value)
  }

  /** Drafts of one frame-to-frame interval appended to those before it. */
  function CutInterval(frame: Frame, end: nat, gaps: seq<CoalescedGap>, drafts: seq<Draft>): Result<seq<Draft>> {
    if frame.time == end then Ok(drafts + [TieDraft(frame)])
    else
      var cut := CutGaps(frame, frame.time, end, gaps, |gaps|, drafts);
      if cut.Err? then Err(cut.error)
      else if cut.value.cursor < end then Ok(PushHold(cut.value.drafts, frame, cut.value.cursor, end))
      else Ok(cut.value.drafts)
  }

  function CutIntervals(frames: seq<Frame>, gaps: seq<CoalescedGap>, i: nat): Result<seq<Draft>>
    requires i < |frames|
  {
    if i == 0 then Ok([])
    else
      var drafts := CutIntervals(frames, gaps, i - 1);
      if drafts.Err? then drafts else CutInterval(frames[i - 1], frames[i].time, gaps, drafts.value)
  }

  function RealTimeDrafts(frames: seq<Frame>, gaps: seq<CoalescedGap>): Result<seq<Draft>>
    requires frames != []
  {
    var drafts := CutIntervals(frames, gaps, |frames| - 1);
    if drafts.Err? then drafts else PushDraft(drafts.value, TerminalDraft(frames[|frames| - 1]))
  }

  /** The inner loop: one interval against every gap. */
  method CutAllGaps(frame: Frame, end: nat, gaps: seq<CoalescedGap>, before: seq<Draft>) returns (r: Result<Cut>)
    ensures r == CutGaps(frame, frame.time, end, gaps, |gaps|, before)
  {
    hide ValidSlate, PushDraft;
    var drafts, cursor: nat := before, frame.time;
    var j := 0;
    while j < |gaps|
      invariant 0 <= j <= |gaps|
      invariant CutGaps(frame, frame.time, end, gaps, j, before) == Ok(Cut(drafts, cursor))
    {
      var gap := gaps[j];
      var gapStart: nat, gapEnd: nat := Max(gap.start, frame.time), Min(gap.end, end);
      j := j + 1;
      if gapStart >= gapEnd || gapEnd <= cursor {
        continue;
      }
      if cursor < gapStart {
        drafts := PushHold(drafts, frame, cursor, gapStart);
      }
      var visible := Max(cursor, gapStart);
      if !ValidSlate(gap.ids, visible, gapEnd) {
        CutGapsFail(frame, end, gaps, j, before);
        return Err(InvalidInput);
      }
      var slated := PushDraft(drafts, SlateDraft(gap.ids, visible, gapEnd));
      if slated.Err? {
        CutGapsFail(frame, end, gaps, j, before);
        return Err(slated.error);
      }
      drafts := slated.value;
      cursor := gapEnd;
    }
    r := Ok(Cut(drafts, cursor));
  }

  /** The planner's nested loops; they compute RealTimeDrafts. */
  method PlanRealTime(frames: seq<Frame>, gaps: seq<CoalescedGap>) returns (r: Result<seq<Draft>>)
    requires WellFormedFrames(frames)
    ensures r == RealTimeDrafts(frames, gaps)
  {
    hide CutGaps, PushDraft;
    var drafts: seq<Draft> := [];
    var i := 0;
    while i < |frames| - 1
      invariant 0 <= i < |frames|
      invariant CutIntervals(frames, gaps, i) == Ok(drafts)
    {
      var frame := frames[i];
      var end := frames[i + 1].time;
      i := i + 1;
      if frame.time == end {
        drafts := drafts + [TieDraft(frame)];
        continue;
      }
      var cut := CutAllGaps(frame, end, gaps, drafts);
      if cut.Err? {
        IntervalsFail(frames, gaps, i);
        return Err(cut.error);
      }
      drafts := cut.value.drafts;
      if cut.value.cursor < end {
        drafts := PushHold(drafts, frame, cut.value.cursor, end);
      }
    }
    r := PushDraft(drafts, TerminalDraft(frames[|frames| - 1]));
  }

  lemma {:induction false} CutGapsFail(frame: Frame, end: nat, gaps: seq<CoalescedGap>, j: nat, drafts: seq<Draft>)
    requires j <= |gaps| && CutGaps(frame, frame.time, end, gaps, j, drafts).Err?
    ensures CutGaps(frame, frame.time, end, gaps, |gaps|, drafts) == CutGaps(frame, frame.time, end, gaps, j, drafts)
    decreases |gaps| - j
  {
    if j < |gaps| { CutGapsFail(frame, end, gaps, j + 1, drafts); }
  }

  lemma {:induction false} IntervalsFail(frames: seq<Frame>, gaps: seq<CoalescedGap>, i: nat)
    requires i < |frames| && CutIntervals(frames, gaps, i).Err?
    ensures RealTimeDrafts(frames, gaps) == CutIntervals(frames, gaps, i)
    decreases |frames| - i
  {
    if i + 1 < |frames| { IntervalsFail(frames, gaps, i + 1); }
  }
}
