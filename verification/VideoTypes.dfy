/** Data of the video presentation planner and the limits it obeys. */
module VideoTypes {
  import opened Common

  const MINIMUM_VISIBLE_FRAME_NANOS: nat := 1_000_000
  const TERMINAL_HOLD_NANOS: nat := 250_000_000
  const MODEL_MEANINGFUL_HOLD_NANOS: nat := 1_000_000_000
  const MODEL_GAP_HOLD_NANOS: nat := 500_000_000
  const MAX_VIDEO_SOURCE_FRAMES: nat := 480
  const MAX_VIDEO_MEANINGFUL_FRAMES: nat := 12
  const MAX_VIDEO_PRESENTATION_SEGMENTS: nat := 512
  const MAX_SOURCE_NANOS: nat := 30_000_000_000
  const MAX_PRESENTATION_NANOS: nat := 60_000_000_000

  datatype Frame = Frame(id: Id, time: nat)

  datatype Gap = Gap(id: Id, start: nat, end: nat)

  datatype CoalescedGap = CoalescedGap(ids: seq<Id>, start: nat, end: nat)

  datatype Source =
    | SourceFrame(id: Id, time: nat)
    | GapSlate(ids: seq<Id>, start: nat, end: nat)

  datatype Basis =
    | RecordedDelta
    | MinimumVisibleFrame
    | TerminalHold
    | RecordedGap
    | ModelMeaningfulHold
    | ModelGapHold

  datatype Policy = RealTime | ModelOptimized

  datatype Draft = Draft(source: Source, duration: nat, basis: Basis)

  datatype Segment = Segment(index: nat, source: Source, start: nat, end: nat, basis: Basis)

  datatype PlanInput = PlanInput(frames: seq<Frame>, gaps: seq<Gap>, meaningful: seq<Id>, policy: Policy)

  predicate Ordered(frames: seq<Frame>) {
    forall i, j :: 0 <= i < j < |frames| ==> frames[i].time <= frames[j].time
  }

  predicate DistinctFrames(frames: seq<Frame>) {
    forall i, j :: 0 <= i < j < |frames| ==> frames[i].id != frames[j].id
  }

  predicate WellFormedFrames(frames: seq<Frame>) {
    && frames != []
    && Ordered(frames)
    && DistinctFrames(frames)
    && forall i :: 0 <= i < |frames| ==> frames[i].id != NIL && frames[i].time < U64_LIMIT
  }

  /** Position of a frame identifier, as the planner's input validation finds it. */
  predicate IsFrameAt(frames: seq<Frame>, id: Id, i: nat) {
    i < |frames| && frames[i].id == id
  }

  /** What the validated planner input guarantees. */
  ghost predicate ValidInput(input: PlanInput) {
    && WellFormedFrames(input.frames)
    && |input.frames| <= MAX_VIDEO_SOURCE_FRAMES
    && input.frames[|input.frames| - 1].time - input.frames[0].time <= MAX_SOURCE_NANOS
    && |input.meaningful| <= MAX_VIDEO_MEANINGFUL_FRAMES
    && (forall k :: 0 <= k < |input.meaningful| ==> exists i :: IsFrameAt(input.frames, input.meaningful[k], i))
    && (forall k, l, i, j ::
          (0 <= k < l < |input.meaningful|
           && IsFrameAt(input.frames, input.meaningful[k], i)
           && IsFrameAt(input.frames, input.meaningful[l], j)) ==> i < j)
    && forall k :: 0 <= k < |input.gaps| ==> input.gaps[k].start <= input.gaps[k].end < U64_LIMIT
  }
}
