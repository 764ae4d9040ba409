# Krometrail evidence pipeline: a verified model

This project models how Krometrail turns retained browser frames and declared capture gaps into
evidence, and proves what the result means.

* **Video planning** (`Video*.dfy`). Gaps are clipped and coalesced, every frame-to-frame interval is cut
  into frame holds and gap slates, the model policy stretches what is short or meaningful, and the
  finished segments are laid end to end and validated by the plan constructor. The main results are
  pointwise: `VideoMeaning.PlanIsSampleAndHold` says what is on screen for every source instant, and
  `VideoPlan.PlanSucceedsExactly` says for which inputs a plan exists at all.
* **Visual epochs** (`Epoch*.dfy`). Frames are partitioned by geometry, every gap is given to one epoch,
  gaps and markers are clamped, and plans are subsampled around a required frame.
* **Single flight** (`Flight.dfy`). Joining, waiting, completing, leaving and cancelling are atomic steps
  of a state machine, and every theorem holds over all interleavings of them.
* **Memory and slots** (`Budget*.dfy`, `GeneratorPlan.dfy`, `FlightSpec.dfy`, `FlightMeaning.dfy`, `FlightRun.dfy`, `Slots.dfy`,
  `Permits.dfy`). The planner's choice of scale, the flight's admission check and the scheduler's permits
  live in different files of the program; here they are shown to agree. Every response slot is answered,
  a flight fails exactly for its stated reasons, and an analysis that a group reuses is the analysis of
  its own frames, times, gaps and pixels, although the key it is shared under names neither times nor
  gaps (`FlightSpec.SameCohortSameInput`).
* **Cache keys, markers, focus times, range handles, video canvas, diagnostic log**
  (`CacheKey.dfy`, `Markers.dfy`, `Focus.dfy`, `RangeHandles.dfy`, `Geometry.dfy`, `RotatingLog.dfy`).

Loops that update variables are methods proved against specification functions, and the meaning of
those functions is proved as lemmas. Objects with mutable fields (the hashing transcript, the handle
table and its budget writer, the rotating log) are classes. `Common.dfy`, `Arithmetic.dfy` and
`Sorting.dfy` hold what the modules share. `dafny verify dfyconfig.toml` checks everything.

## What the proofs found

* A pair of frames captured at one instant strictly inside a declared gap splits the gap's slate in two.
  The planner emits both halves, and the plan constructor then rejects the plan, because slates must not
  touch. The condition is exact (`VideoPlan.PlanSucceedsExactly`, `VideoPlan.TieInsideGapIsRefused`).
* A resolved range does not check gap identifiers for nil, but a slate does, so a range with a nil gap in
  it has no plan (`VideoPlan.NilIffDeclared`, `VideoPlan.NilGapIsRefused`).
* The comment that the first and last frame survive every bounded sampling holds only from three frames
  up, or from two without a required frame between them (`EpochBounded.EndpointsKeptExactly`).
* Clamping gaps into an epoch and then into a bounded span gives the same gaps as one direct clamp. The
  order is the same too for gaps declared in start order, as the store returns them
  (`EpochGaps.DeclaredOrderIsKept`); in general it is the same exactly when no two gaps are swapped
  (`EpochGaps.ReclampIsDirect`, `EpochGaps.SwappedPair`).
* A waiter can join work that is already cancelled (`Flight.LateJoinerCanBeCancelled`), exactly when
  everyone had left that flight before (`Flight.JoinsCancelledIff`); waiters already counted are safe
  (`Flight.CountedIsSafe`).
* Only fitted scales are certain to be admitted; an explicit scale may pass preparation and be refused
  by the flight (`Budget.ExplicitScaleCanBeRefused`).
* Admission looks at one group at a time, while a flight holds the permits of shared masks until it
  ends. A later reservation that was admitted can therefore never be granted, waits for the deadline, and
  holds up smaller ones behind it (`Permits.AdmittedReservationStarves`, `Permits.BlockedQueueGrantsNothing`).
* The order of focus candidates ignores their time, so their set is independent of the order of insertion
  exactly when candidates of one key agree on it (`Focus.OrderFreeIffConsistent`). Frames with one capture
  time each always agree (`Focus.FocusIgnoresOrder`).
* The canvas search settles on its first fit even when the fixed video limit then refuses it; video
  requests cannot carry limits for which this matters (`Geometry.RequestLimitsRefuseOnlyMisfits`).

## Model

| member | source | states |
|---|---|---|
| VideoMeaning.PlanIsSampleAndHold | src/video/plan.rs:23-170 | Every source instant of the presented range is presented by exactly one segment of an accepted real-time plan: a slate whose range contains the instant and which names every declared gap containing it, or, when no gap does, the latest frame captured by then. |
| VideoMeaning.ModelPlanOnlyLengthens | src/video/plan.rs:172-225 | An accepted model-optimized plan shows the recorded sources in the recorded order, none for a shorter time; slates last exactly the larger of recorded time and gap hold, meaningful frames the larger of recorded time and meaningful hold, all other frames their recorded time. |
| VideoMeaning.CoveredIffDeclared | src/video/plan.rs:58-91 | Inside the presented range an instant lies in a coalesced gap exactly when it lies in a declared one. |
| VideoMeaning.NamesEveryGap | src/video/plan.rs:58-91 | The coalesced gap around an instant names every declared gap that contains the instant. |
| VideoPlan.BuildPresentationPlan | src/video/plan.rs:23-56 | The whole planner, nested loops and in-place edits included, returns the outcome its validated input determines: the laid-out (for the model policy stretched) drafts, or the stated error. |
| VideoPlan.PlanSucceedsExactly | src/video/plan.rs:23-56 | Planning succeeds if and only if no declared gap with the nil identifier reaches into the presented range, no tied pair of frames is hidden by gaps on both sides, every meaningful frame is visible, and the segment and (for the model policy) duration limits hold. |
| VideoPlan.TieInsideGapIsRefused | crates/krometrail-core/src/video/plan.rs:869-876 | A concrete valid input, two frames tied inside one declared gap, for which the planner builds a plan that the plan constructor rejects. |
| VideoPlan.TieHiddenIffInside | src/video/plan.rs:58-91 | Whether a tied pair lies strictly inside a coalesced gap can be read off the declared gaps. |
| VideoPlan.ApartUnlessTieInside | src/video/plan.rs:227-252 | Successive slates are strictly apart if and only if no tied pair of frames lies strictly inside a coalesced gap. |
| VideoPlan.RealTimeAccepted | crates/krometrail-core/src/video/plan.rs:671-981 | The plan constructor accepts a real-time plan exactly when no tied pair lies strictly inside a gap; every other check it makes always passes. |
| VideoPlan.ModelAccepted | crates/krometrail-core/src/video/plan.rs:671-981 | The same condition decides a model-optimized plan once its meaningful frames are shown and its duration is within the limit. |
| VideoPlan.ShownIffVisible | src/video/plan.rs:185-205 | A frame appears in the plan exactly when it is last, tied with its successor, or not fully covered by gaps, so a meaningful frame is reported obscured exactly then. |
| VideoPlan.DraftsUnlessNil | src/video/plan.rs:93-170 | Cutting the intervals fails exactly when a coalesced gap names the nil identifier. |
| VideoPlan.NilIffDeclared | crates/krometrail-core/src/video/plan.rs:296-324 | A coalesced gap names the nil identifier exactly when a declared nil gap has a non-empty part in the presented range. |
| VideoPlan.NilGapIsRefused | crates/krometrail-core/src/video/plan.rs:296-324 | A concrete valid input, one declared gap with the nil identifier, for which every outcome is the invalid-input error. |
| VideoPlan.RealTimeWithinLimit | src/video/plan.rs:254-276 | The duration limit can never refuse a real-time plan of a valid input. |
| VideoPlan.LayOutPlan | src/video/plan.rs:42-55 | Laying out, optimizing and validating recorded drafts gives exactly the outcome determined by the drafts. |
| VideoCoalesce.CoalesceEpochGaps | src/video/plan.rs:58-91 | The clip, sort and merge loop computes the specified coalescing. |
| VideoCoalesce.CoalesceIsCanonical | src/video/plan.rs:58-91 | Coalescing yields strictly separated non-empty ranges with the same union as the clipped gaps, each with the sorted identifiers of exactly the gaps inside it, within the presented range. |
| VideoCoalesce.CanonicalUnique | src/video/plan.rs:58-91 | There is only one canonical decomposition of a set of gaps. |
| VideoCoalesce.CoalesceIgnoresOrder | src/video/plan.rs:58-91 | The order in which gaps are declared does not affect the result. |
| VideoCoalesce.ClipMeaning | src/video/plan.rs:62-69 | Clipping keeps exactly the non-empty intersections with the presented range. |
| VideoRealTime.PlanRealTime | src/video/plan.rs:93-170 | The loop over frame pairs, with its ties and the terminal hold, computes the specified drafts, or fails with the error of the first interval that fails. |
| VideoRealTime.CutAllGaps | src/video/plan.rs:114-145 | The inner loop, with its cursor and merge-on-push, computes the specified drafts of one interval, or fails with the error of the first gap that fails. |
| VideoTimeline.RealTimeTimeline | src/video/plan.rs:93-170 | Every real-time plan has a source timeline of abutting holds, slates and ties behind it, none of which presents a slate next to a slate of the same gap. |
| VideoFacts.SampleAndHold | src/video/plan.rs:93-170 | Over coalesced gaps: each source instant is presented by exactly one draft, in order, with the right source. |
| VideoFacts.DurationConserved | src/video/plan.rs:93-170 | Total duration is the source span, plus the minimum visible duration per tied pair, plus the terminal hold. |
| VideoFacts.SlateTimeIsGapLength | src/video/plan.rs:93-170 | Slates together last exactly the measure of the union of the gaps. |
| VideoFacts.PlanSize | src/video/plan.rs:93-170 | At most one segment per frame and two per coalesced gap. |
| VideoModel.FinishSegments | src/video/plan.rs:254-276 | Succeeds exactly within the segment and duration limits, and then lays the drafts out contiguously from zero under indices 0, 1, 2, and so on. |
| VideoModel.StretchDrafts | src/video/plan.rs:172-225 | The two in-place passes over slates and meaningful frames compute the specified stretching, and fail exactly when some meaningful frame is shown nowhere. |
| VideoModel.OptimizeForModel | src/video/plan.rs:172-225 | Recorded segments are turned back into drafts, stretched, and laid out again. |
| VideoModel.MeaningfulTotal | src/video/plan.rs:195-222 | A shown frame lasts exactly the larger of its recorded total and the meaningful hold if it is meaningful, and its recorded total otherwise. |
| VideoModel.StretchOnlyLengthens | src/video/plan.rs:172-225 | Sources keep their order, nothing becomes shorter, slates last exactly the larger of recorded time and gap hold, and every other draft is untouched. |
| VideoModel.StretchIdempotent | src/video/plan.rs:172-225 | A second optimization pass is the identity. |
| VideoModel.HoldOf | src/video/plan.rs:195-215 | The scan for a meaningful frame finds its first draft and its total hold. |
| VideoAccept.FrameIsRecorded | crates/krometrail-core/src/video/plan.rs:884-981 | Each frame of a real-time plan carries exactly the visible duration and timing basis the constructor recomputes from the segments. |
| VideoAccept.RecordedPasses | crates/krometrail-core/src/video/plan.rs:818-981 | Recorded drafts pass every canonical timing check except slate separation. |
| VideoAccept.StretchedPasses | crates/krometrail-core/src/video/plan.rs:818-981 | Stretched drafts pass the model policy timing checks for frames. |
| EpochPlanning.ValidateAndPlan | src/artifacts/epoch.rs:229-303 | Succeeds if and only if the frames are the resolved ones, in order, in scope and in range, the markers and sizes are within their limits, and every epoch is affordable; then plans one epoch per geometry run, numbered by position, with its frames, their positions and bytes, exactly its owned gaps, and exactly the request's markers inside its span in time order, equal times in request order. A wrong frame list and an exceeded limit have different errors. |
| EpochPlanning.PlannedEpochMeaning | src/artifacts/epoch.rs:345-412 | The meaning of each planned epoch: index, frames, identifiers, positions, decoded bytes and markers. |
| EpochPlanning.ClippedMarkersMeaning | src/artifacts/epoch.rs:433-456 | An epoch carries exactly the markers of its inclusive span; they are in time order, and those of any one time are the request's own list of that time. |
| EpochPlanning.ExactFramesMeaning | src/artifacts/epoch.rs:259-277 | Checking every frame against its predecessor accepts exactly the lists whose frames are the resolved ones, all in scope and range, with strictly rising ordinals and never falling times over every pair. |
| EpochTypes.SelectedCounts | src/artifacts/epoch.rs:433-456 | A marker is selected as often as it was given if its time is inside the span, and never otherwise. |
| EpochPlanning.GapReachesOneEpoch | src/artifacts/epoch.rs:516-552 | Every declared gap reaches exactly one plan, clamped into it with its identifier, reason and missing-frame estimate. |
| EpochPlanning.PlanEpochIsSound | src/artifacts/epoch.rs:345-412 | A planned epoch is chronological, traces its frames to their source positions, and carries its owned gaps clamped and ordered. |
| EpochPlanning.PlanSpans | src/artifacts/epoch.rs:288-303 | Succeeds if and only if the decoded bytes of every span and the number of epochs are representable, with a plan for every span; otherwise a resource error. |
| EpochPlanning.HugeFrame | src/artifacts/epoch.rs:414-422 | One frame whose decoded size overflows makes the whole partition unaffordable. |
| EpochPlanning.CheckEncoded | src/artifacts/epoch.rs:249-258 | The checked sum of encoded sizes. |
| EpochPartition.PartitionFrames | src/artifacts/epoch.rs:279-287 | The span loop tiles the frames with runs of one geometry whose borders are all geometry changes. |
| EpochPartition.PartitionUnique | src/artifacts/epoch.rs:279-287 | Frames have only one such partition. |
| EpochPartition.BordersAreChanges | src/artifacts/epoch.rs:279-287 | An index starts a span exactly when the geometry changes there. |
| EpochPartition.BoundsOrdered | src/artifacts/epoch.rs:279-303 | Epochs of chronological frames are chronological and do not overlap. |
| EpochGaps.FindOwner | src/artifacts/epoch.rs:525-550 | The first overlapping epoch, or else the nearest, is in both cases the minimum of distance and index. |
| EpochGaps.DistanceIsLeast | src/artifacts/epoch.rs:525-550 | The distance that decides ownership is the least distance between an instant of the gap and an instant of the epoch. |
| EpochGaps.AssignGapOwners | src/artifacts/epoch.rs:516-552 | Each epoch is given, in order, exactly the gaps for which it is that minimum. |
| EpochGaps.ExactlyOneOwner | src/artifacts/epoch.rs:516-552 | Every gap has one owner and no other. |
| EpochGaps.SelectEpochPlans | src/artifacts/service.rs:724-765 | Without an anchor every plan stays; with one, the plan kept is the one that would own a point gap at the anchor, measured on the plans' own first and last frames; no plan at all is an error. |
| EpochGaps.ClampRangeEndpoints | src/artifacts/epoch.rs:599-608 | Clamping a range is clamping its endpoints. |
| EpochGaps.ClampRangeComposes | src/artifacts/epoch.rs:599-608 | Clamping to an epoch and then to a span inside it is clamping to the span. |
| EpochGaps.ClippedGapsMeaning | src/artifacts/epoch.rs:458-494 | An epoch carries exactly its owned gaps, clamped, ordered by start, with nothing else changed. |
| EpochGaps.ReclampKeepsOrder | src/artifacts/epoch.rs:564-597 | Sorting again after the second clamp changes nothing: the result is the elementwise clamp. |
| EpochGaps.ReclampIsDirect | src/artifacts/epoch.rs:564-597 | For gaps with distinct identifiers, clamping into the epoch and then into a bounded span gives the list of one direct clamp if and only if no two owned gaps are swapped, a condition on their declared starts. |
| EpochGaps.DeclaredOrderIsKept | crates/krometrail-store/src/index/gaps.rs:70-80 | Gaps declared in start order, as the store returns them, are never swapped: both ways give the same list. |
| EpochGaps.SwappedPair | src/artifacts/epoch.rs:564-597 | Two gaps declared against their start order for which the two lists differ. |
| EpochGaps.ReclampKeepsGaps | src/artifacts/epoch.rs:564-597 | In any order, both ways keep the same gaps with multiplicity. |
| EpochSelection.SelectIndicesContract | crates/temporal-vision/src/filmstrip.rs:582-603 | Evenly spaced selection is strictly increasing, in range, has exactly the smaller of the two counts, and keeps both endpoints from a limit of two. |
| EpochSelection.SelectIsEven | crates/temporal-vision/src/filmstrip.rs:582-603 | Every selected position is the nearest to its share of the span, the lower of two equally near ones. |
| EpochBounded.BoundedPlan | src/artifacts/epoch.rs:140-225 | A plan within the limit is returned unchanged; otherwise it is restricted to the chosen frames, or refused when their bytes overflow. |
| EpochBounded.ReplaceablePosition | src/artifacts/epoch.rs:154-168 | The filtered maximum is the last position, or the last but one when endpoints are protected, and always exists. |
| EpochBounded.ChooseIndices | src/artifacts/epoch.rs:150-181 | Overwriting the replaceable index and sorting computes the specified choice. |
| EpochBounded.BoundedIndicesMeaning | src/artifacts/epoch.rs:140-225 | Exactly the allowed number of frames, in original order, including the required one, with both endpoints from a limit of three. |
| EpochBounded.EndpointsKeptExactly | src/artifacts/service.rs:824-834 | Both endpoints are kept if and only if three frames are allowed, or two and no required frame between them; the comment that they always are does not hold for smaller limits. |
| EpochBounded.RestrictIsSound | src/artifacts/epoch.rs:140-225 | Restricting keeps plans sound, provenance included, under repeated application; gaps are the elementwise clamp of the plan's own. |
| EpochBounded.GapsSurvive | src/artifacts/epoch.rs:564-597 | Every gap survives restriction with identifier, reason and estimate, inside the new span. |
| EpochBounded.MarkersKept | src/artifacts/epoch.rs:496-514 | Restriction keeps exactly the markers inside the new span, with multiplicity. |
| EpochBounded.KeptMarkersMeaning | src/artifacts/epoch.rs:496-514 | Restriction keeps exactly the markers inside the new span, in time order, with equal times in their order. |
| Flight.OneFlightPerKey | src/artifacts/single_flight.rs:73-98 | Over every interleaving a key has at most one joinable flight, each flight has exactly one leader, and its counter is the number of waiters that have not left. |
| Flight.NoWaiterForgotten | src/artifacts/single_flight.rs:106-141 | Once a result is stored and its notification sent, no waiter of the flight is asleep without having been woken. |
| Flight.ReachedOnlyByNotify | src/artifacts/single_flight.rs:106-132 | Over every run a waiter is marked as notified only if its own flight was announced. |
| Flight.ReachedByStep | src/artifacts/single_flight.rs:106-132 | An announcement reaches every waiter of its flight that has registered or sleeps, and no other step does. |
| Flight.ListenerReachedByStep | src/artifacts/epoch.rs:54-94 | A cancellation notice reaches every listener of its flight that has registered or sleeps, and no other step does. |
| Flight.ResultsAgree | src/artifacts/single_flight.rs:106-141 | All waiters that take a result from a flight take the same one; which one, ReturnsWhatWasStored says. |
| Flight.ReturnsWhatWasStored | src/artifacts/single_flight.rs:106-141 | Over every run, read off its actions: a waiter waits on a flight for the key it asked for, returns only with a result, and that result is exactly the value the flight's worker stored, the only way that worker ended. |
| Flight.ResultIffStored | src/artifacts/single_flight.rs:106-112 | Over every run a flight has a result if and only if its worker stored exactly that value, and a worker ends at most once. |
| Flight.AbortedGivesNothing | src/artifacts/single_flight.rs:114-141 | No waiter of a flight whose worker was dropped without storing ever returns a result. |
| Flight.LeaderStartsWorker | src/artifacts/service.rs:268-281 | A flight has a worker exactly once its leader has taken its first step. |
| Flight.NoListenerForgotten | src/artifacts/epoch.rs:54-94 | Once a cancellation is raised and notified, no listener of it is asleep unaware. |
| Flight.CancelOnlyAtZero | src/artifacts/single_flight.rs:144-155 | Cancellation is raised only by a departure that brings the counter to zero. |
| Flight.LeaverSparesOthers | src/artifacts/single_flight.rs:144-155 | No step cancels a flight while another waiter is still counted on it. |
| Flight.CountedIsSafe | src/artifacts/single_flight.rs:73-155 | Over every continuation of a run, a flight stays uncancelled as long as a waiter counted since before stays. |
| Flight.CancelledIffWasEmpty | src/artifacts/single_flight.rs:144-155 | Over every run a flight is cancelled if and only if at some earlier state every waiter that had joined it had left. |
| Flight.JoinsCancelledIff | src/artifacts/single_flight.rs:73-98 | A join lands on cancelled work exactly when the flight registered under its key is still joinable and had lost all its waiters at some earlier state of the run. |
| Flight.LateJoinerCanBeCancelled | src/artifacts/single_flight.rs:73-98 | A concrete run in which a new waiter joins a flight whose last waiter has left and whose worker still runs. |
| Flight.NeverStuck | src/artifacts/single_flight.rs:114-141 | A waiter of a completed and notified flight always has an enabled step of its own that brings it closer to returning the result. |
| Flight.WorkerAnnounces | src/artifacts/single_flight.rs:106-112 | A running worker can store any result and then announce it, after which every waiter of its flight can reach it. |
| Flight.ListenerNeverStuck | src/artifacts/epoch.rs:54-94 | A listener of a raised and announced cancellation always has an enabled step towards returning. |
| Flight.CancellationAnnounces | src/artifacts/epoch.rs:54-94 | A raised cancellation can be announced, and no listener of it stays asleep unaware. |
| Flight.FinishedWaiterIsDone | src/artifacts/single_flight.rs:114-141 | In any interleaving such a waiter needs at most four steps of its own to return. |
| Flight.StepKeepsInv | src/artifacts/single_flight.rs:73-155 | Every step of every party keeps the whole invariant. |
| Budget.CommonDownscaleFactors | src/artifacts/generators.rs:539-550 | Euclid's loop and the scan yield exactly the factors in 2..=255 that divide both dimensions, in order. |
| Budget.CommonFactorsExact | src/artifacts/generators.rs:532-550 | A number is among the factors up to a bound exactly when it is at least two and divides both dimensions. |
| Budget.FitScale | src/artifacts/generators.rs:383-437 | Returns the least admissible factor whose pixels and bytes fit the budget left by decoded frames and output, and refuses exactly when none does. |
| Budget.MaterializeEffectiveScales | src/artifacts/generators.rs:362-381 | Only an unmaterialised scale changes, to the least fitting one, and every returned scale passed its limit check, whether or not the output request is allowed; it fails exactly when no scale can be materialised, with the stated error. |
| Budget.MaterializedUnique | src/artifacts/generators.rs:362-437 | A generator has at most one materialisation, and none when it cannot be materialised. |
| BudgetMeaning.FittedScaleIsLeast | src/artifacts/generators.rs:383-437 | A fitted scale is the least whole factor up to eight, the identity first, that divides both sides and keeps pixels, normalised bytes and the combined total within their limits. |
| BudgetMeaning.FittingRefusedIff | src/artifacts/generators.rs:383-437 | Fitting is refused if and only if no such factor exists. |
| BudgetMeaning.ExplicitScaleKept | src/artifacts/generators.rs:362-381 | An explicit scale is kept as it is, and refused if and only if it does not divide the image or exceeds the pixel or normalised limit. |
| BudgetMeaning.ReservationIsLargest | src/artifacts/generators.rs:472-490 | What is reserved for output is exactly the most that a generator's one or two images, each and all within the limits, can amount to. |
| BudgetMeaning.ReservationFailsIff | src/artifacts/generators.rs:472-490 | The reservation is refused exactly for two outputs that no machine word holds together, and never under valid limits. |
| BudgetMeaning.FilmstripKept | src/artifacts/generators.rs:362-381 | A filmstrip is prepared as it is, and demands its decoded bytes and its output only. |
| Budget.PrepareGenerator | src/artifacts/generators.rs:36-59 | Preparation yields a concrete scale that satisfies its checks, and fails exactly when it cannot. |
| BudgetMeaning.PreparedIsAllowed | src/artifacts/generators.rs:36-59 | Beyond its scale, preparation refuses exactly an output too wide, too tall, or allowed to encode to too much. |
| Budget.FittedPassesLimit | src/artifacts/generators.rs:383-470 | A scale fitted to the combined budget also passes the normalised limit, and decoded, normalised and reserved bytes fit the combined limit together. |
| Budget.MaskNeverOverflows | src/artifacts/service.rs:886-904 | The change-mask estimate never overflows and never exceeds the decoded bytes. |
| BudgetMeaning.MaskIsPacked | src/artifacts/service.rs:886-904 | The estimate is, for every adjacent pair, the least number of bytes with a bit for every pixel. |
| BudgetMeaning.MaskKeptIff | src/artifacts/service.rs:466-483 | Masks are kept if and only if they fit beside the group's own normalised bytes and reservation. |
| Budget.AdmittedIffDemandFits | src/artifacts/service.rs:420-490 | The flight admits a prepared generator exactly when decoded, normalised and reserved bytes fit the combined limit; shared masks never cause a refusal. |
| BudgetMeaning.AdmissionMeaning | src/artifacts/service.rs:420-490 | Admission aborts only on a total that no machine word holds, and otherwise admits exactly what the normalised and combined limits allow, with that total as its reservation. |
| Budget.AdmissionIsSafe | src/artifacts/scheduler.rs:126-146 | An admitted reservation, and any shared mask, is representable by the scheduler and within every limit. |
| BudgetMeaning.PermitsIff | src/artifacts/scheduler.rs:126-146 | The scheduler accepts a reservation if and only if it is positive and within the combined limit. |
| Budget.FittedIsAdmitted | src/artifacts/generators.rs:383-470 | A generator prepared under fitted limits is never refused by the flight's memory checks or by the scheduler's capacity check. |
| Budget.ExplicitScaleCanBeRefused | src/artifacts/service.rs:478-489 | Under the default limits an explicit scale passes preparation and is still refused by the flight. |
| Budget.HeldMaskCanStarve | src/artifacts/service.rs:410-414 | Under the default limits two generators that share masks and a third with a fitted scale are each admitted, yet the held mask and the third reservation exceed every permit. |
| Permits.JobsAndMemoryBounded | src/artifacts/scheduler.rs:97-180 | In every run at most the configured number of blocking jobs exist, those abandoned by their callers included, and memory grants stay within the combined limit. |
| Permits.StartsIffRoom | src/artifacts/scheduler.rs:155-180 | A blocking job can start exactly while fewer than the configured number exist, abandoned ones included. |
| Permits.AbandonedByGivingUp | src/artifacts/scheduler.rs:155-180 | Over every run a job counts as abandoned only if its caller gave up, and it still holds its permit. |
| Permits.GrantedIffFirstAndFits | src/artifacts/scheduler.rs:126-146 | In every reachable state a reservation is granted exactly when it is first in the queue and fits beside everything held. |
| Permits.FirstComeFirstServed | src/artifacts/scheduler.rs:126-146 | Along any run without withdrawals the reservations granted are the first ones asked for, in that order, and the others wait in that order. |
| Permits.WithdrawKeepsOthers | src/artifacts/scheduler.rs:126-146 | A waiter that gives up leaves everyone else waiting in order and holds nothing. |
| Permits.BlockedQueueGrantsNothing | src/artifacts/scheduler.rs:126-146 | While the first reservation does not fit, no run without a release or its withdrawal grants anything, however small. |
| Permits.SmallWaitsBehindLarge | src/artifacts/scheduler.rs:126-146 | A concrete run in which a reservation that would fit waits behind one that does not. |
| Permits.AdmittedReservationStarves | src/artifacts/service.rs:410-414 | In every reachable state that still holds that mask, the admitted third reservation cannot be granted when it is first in the queue, and blocks what is behind it. |
| GeneratorPlan.PlanForGenerator | src/artifacts/service.rs:767-834 | Returns the whole plan or a bounded selection within the frame cap and the decoded limit. A frame the request names, as reference of a difference map or motion history or as locator of a filmstrip, is kept whenever the plan has it; a request that names none gets evenly spaced frames. Refuses exactly when every frame is needed but not allowed or the kept frames decode to too much. |
| GeneratorPlan.PlanReadsRequest | src/artifacts/service.rs:767-884 | Read off the request: tiled images take up to their tiles and are refused only for decoded bytes; analyses take up to the exact allowance, and only per-pixel totals and exhaustive sampling are refused for having more frames than that. |
| GeneratorPlan.AnalysisEffectiveMaxFrames | src/artifacts/service.rs:873-884 | The frame allowance computed from the largest decoded frame. |
| GeneratorPlan.AllowanceFits | src/artifacts/service.rs:873-884 | As many frames as allowed decode within the limit, unless a single one already does not, in which case one is allowed. |
| GeneratorPlan.AllowanceExact | src/artifacts/service.rs:873-884 | The allowance is maximal: one more frame would exceed the frame limit or the decoded limit. |
| GeneratorPlan.SampledAnalysisRefusedIff | src/artifacts/service.rs:836-884 | A uniformly sampled analysis is refused for decoded bytes exactly when one frame alone exceeds the limit. |
| GeneratorPlan.PlannedEpochIsSized | src/artifacts/epoch.rs:345-412 | Plans made from validated frames meet the assumptions of generator planning. |
| GeneratorPlan.PlanAndPrepare | src/artifacts/service.rs:159-236 | Planning followed by preparation has the specified outcome, errors included, and yields a generator that the flight admits exactly when its demand fits, and always under fitted limits. |
| GeneratorPlan.PlanOutcomeUnique | src/artifacts/service.rs:159-236 | That outcome is unique: the same generator on the same epoch always gets the same frames, scale or error. |
| FlightRun.RunFlight | src/artifacts/service.rs:349-721 | Whatever store, clock, renderer and cancellation do, the flight returns what its slots and environment determine. It fails if and only if a lookup, a group or a slot gives it a reason to; otherwise it has an entry for exactly the requested keys, and for every key the last slot with it says what the entry means in terms of the environment. Every analysis it hands out is of the receiving generator's own input, and bytes sent to be published stay within the total output limit even when it fails. |
| FlightSpec.FlightFailsIff | src/artifacts/service.rs:349-721 | A flight fails if and only if some lookup fails, or some group is cancelled, aborts in admission, meets a fatal stage error or generator-permit error, or one of its slots is cancelled, overflows the output count, or fails to construct or (fatally) to publish its artifact. |
| FlightSpec.FlightAnswersKeys | src/artifacts/service.rs:356-719 | A flight that succeeds has an entry for exactly the requested keys. |
| FlightSpec.FlightEntriesCaused | src/artifacts/service.rs:484-716 | Every entry is decided by the last slot with its key; an entry no missed slot has is a cache hit. |
| FlightMeaning.EntryMeaning | src/artifacts/service.rs:484-716 | What a slot's entry is, in terms of the environment alone: the error of the first stage that stopped its group, the rendering error, an omitted kind, an output that brings the rendered bytes over the limit, or the outcome of publication, generated exactly when the store published it and overriding a grace period exactly when the store says so. |
| FlightMeaning.RenderedMeaning | src/artifacts/service.rs:656-676 | A slot adds its image to the running total exactly when its group ran and rendered its kind. |
| FlightSpec.SentWithinLimit | src/artifacts/service.rs:671-690 | What is sent to be published never exceeds the total output limit, although oversized outputs stay in the running total. |
| FlightSpec.GroupsKeepSlots | src/artifacts/service.rs:382-388 | Grouping keeps every slot with multiplicity. |
| FlightMeaning.GroupsInOrder | src/artifacts/service.rs:382-388 | Groups come in order of epoch and then generator, and each is the pending slots of its epoch and generator in request order. |
| FlightSpec.MasksDoNotDecide | src/artifacts/service.rs:466-483 | Sharing masks changes neither whether a group is admitted nor what it reserves first. |
| FlightSpec.FittedObstacleIsAStage | src/artifacts/service.rs:466-555 | A job prepared from a fitted scale is never aborted or refused by admission, with masks or without: only a later stage can keep its group from running. |
| FlightSpec.SameCohortSameInput | src/artifacts/service.rs:390-408 | Groups with equal cohort keys analyse the same frames, times, gaps, pixels and noise floor, although the key names neither times nor gaps. |
| FlightSpec.IdentityFixesPlan | src/artifacts/service.rs:906-912 | Two selections from one epoch with the same frame identifiers and source positions are the same plan, gaps and markers included. |
| FlightMeaning.CohortIffSameInput | src/artifacts/service.rs:390-408 | Slots of one epoch have the same cohort key if and only if their generators would analyse the same input. |
| FlightMeaning.SharedInCompany | src/artifacts/service.rs:557-614 | An analysis is shared only between several groups of one cohort, and with masks exactly when one of them draws them. |
| FlightSpec.HandedSuits | src/artifacts/service.rs:557-614 | Every analysis handed out is of the receiving generator's own input and has masks if that generator needs them. |
| FlightRun.ShareAnalysis | src/artifacts/service.rs:557-614 | A group receives an analysis if and only if its cohort has several groups, its masks fit, and the analysis has been or can be built; built or reused, it equals the analysis of the group's own input, and a failed build ends the flight exactly when its error is fatal. |
| FlightRun.RunGroup | src/artifacts/service.rs:420-718 | One group, on every path, ends the flight with exactly the error its stages determine, or gives every slot of the group its own entry. |
| FlightRun.PublishSlot | src/artifacts/service.rs:661-716 | One slot either ends the flight for its own reason or gets exactly its entry, with the running total and the sizes sent updated accordingly. |
| FlightRun.PublishOutputs | src/artifacts/service.rs:656-718 | The slots of a group are published in order up to the first that ends the flight, and the sizes sent stay within the limit. |
| FlightRun.CountCohorts | src/artifacts/service.rs:390-408 | Counts the groups of each cohort, and records exactly whether any of them needs masks. |
| FlightRun.GroupSlots | src/artifacts/service.rs:382-388 | Grouping keeps every slot, with one epoch and generator per group, in strictly increasing order. |
| FlightRun.LookupSlots | src/artifacts/service.rs:356-377 | Hits are answered and the rest left pending, unless a lookup fails, in which case the first error is returned. |
| FlightRun.RecordError | src/artifacts/service.rs:484-489 | Every slot of a group gets the same error and no other entry changes. |
| Slots.GenerateInner | src/artifacts/service.rs:136-346 | A request fails only with an error that a reason gives (output count, planning under require-all, lookup, flight, fatal entry, or any error entry under require-all), and succeeds only when no reason applies. The outcome at the position of an epoch, generator and kind then carries that epoch's index, that generator and that kind, and is its planning error, a cache hit, or its own key's entry with the disposition and grace flag that entry and lookup call for; there are no other outcomes. |
| Slots.LayoutAt | src/artifacts/service.rs:159-214 | The slot at that position has that metadata, and its queued work has that epoch, generator and kind, its own cache key and its own planned job. |
| Slots.PositionsFollow | src/artifacts/service.rs:152-176 | Positions follow epochs, then generators, then kinds, so no two slots share one. |
| Slots.KindsMeaning | crates/krometrail-core/src/artifacts.rs:618-633 | Each generator has its own kinds; only a storyboard with orientation has two, in this order. |
| Slots.LayoutCount | src/artifacts/service.rs:136-155 | The number of slots is the number of epochs times the number of kinds, so ordinals never leave the preallocated results. |
| Slots.BuildSlots | src/artifacts/service.rs:152-236 | The nested loops plan and prepare every generator on every epoch and fill results, metadata and queued work consistently with the expected order; they fail exactly with the first planning error under the require-all policy. |
| Slots.PlanGenerator | src/artifacts/service.rs:159-213 | Planning and preparing one generator gives the job its slots carry, or the error they report. |
| Slots.PlanningStopIff | src/artifacts/service.rs:161-167 | A request stops in planning if and only if it requires all outputs and some generator cannot be planned on some epoch. |
| Slots.FitsEpoch | src/artifacts/service.rs:196-214 | Queued work runs on a selection of its own epoch, so equal cohort keys in the flight mean equal inputs. |
| Slots.LookUp | src/artifacts/service.rs:238-258 | After the lookups every slot is answered or waits for the flight, never both; it fails exactly when the lookup of a slot with work does. |
| Slots.TakeResults | src/artifacts/service.rs:282-313 | Afterwards every slot is answered; the request ends exactly on a fatal entry, or any error entry under require-all. |
| Slots.AwaitFlight | src/artifacts/service.rs:260-281 | Returns nothing to wait for, an interruption, or the result of the flight the request leads or joins, and a successful result has every key waited for. |
| Slots.FlightAnswersMissing | src/artifacts/service.rs:284-288 | A flight, led or joined, that succeeds has every key the request waits for, so no output is ever reported as omitted. |
| Slots.Respond | src/artifacts/service.rs:260-346 | From looked-up slots to outcomes: every slot is answered, the grace flag is set exactly when some outcome was published under grace, and it fails exactly with the flight or a blocking entry. |
| Slots.WorkOfExact | src/artifacts/service.rs:155-236 | Queued work is exactly the slots that planning did not fail, in slot order. |
| CacheKey.FrameInjective | src/artifacts/cache.rs:208-231 | Two length-framed transcripts with the same bytes have the same fields. |
| CacheKey.ImageKeyInjective | src/artifacts/cache.rs:64-85 | Equal image key transcripts come from equal session, target, kind, generator, versions, parameters and source sequence. |
| CacheKey.VideoKeyInjective | src/artifacts/cache.rs:117-145 | Equal video key transcripts come from equal identities; a missing selector, one field, can never be traded against a selector, three fields. |
| CacheKey.ImageIsNotVideo | src/artifacts/cache.rs:64-145 | No image transcript is a video transcript. |
| CacheKey.SourcesPreimageInjective | src/artifacts/cache.rs:161-168 | A source fingerprint transcript determines its domain and its sources. |
| CacheKey.EpochPreimageIff | src/artifacts/cache.rs:170-182 | Epoch transcripts agree exactly when frames and geometry agree one by one, whatever the times, formats and contents. |
| CacheKey.ImagePreimage | src/artifacts/cache.rs:71-85 | The bytes fed to the hash are the framed fields of the identity. |
| CacheKey.VideoPreimage | src/artifacts/cache.rs:126-145 | The bytes fed to the hash are the framed fields of the identity, one selector field or three. |
| CacheKey.SourcesPreimage | src/artifacts/cache.rs:161-168 | The bytes fed to the hash are the framed domain, count and sources. |
| CacheKey.EpochPreimage | src/artifacts/cache.rs:170-182 | The bytes fed to the hash are the framed epoch domain, count and geometry fields. |
| CacheKey.FramedHasher.WriteBytes | src/artifacts/cache.rs:217-221 | Appends one framed field to the transcript. |
| CacheKey.FramedHasher.WriteSource | src/artifacts/cache.rs:184-198 | Appends the ten fields of a source. |
| CacheKey.BigEndianRoundTrip | src/artifacts/cache.rs:217-227 | A number is recovered from its big-endian bytes. |
| Markers.AssembleMarkers | src/debug_bundle/markers.rs:48-208 | Returns the mandatory markers and the chosen candidates in presentation order with the exact warnings, and fails exactly when a caller marker contradicts the anchor's time. |
| Markers.ConflictsIff | src/debug_bundle/markers.rs:88-103 | The refusal is a caller marker with the anchor's identifier, the first of its identifier, at another time. |
| Markers.CollectCandidates | src/debug_bundle/markers.rs:113-183 | The pass with its three seen sets computes the specified candidates and their label warnings. |
| Markers.AssembledMeaning | src/debug_bundle/markers.rs:186-207 | Every mandatory and chosen marker is presented exactly as often as given, by time, then interactions before navigations before markers before callers, then identifier. |
| Markers.NearestAreChosen | src/debug_bundle/markers.rs:186-203 | When candidates are left out, no chosen one lies farther from the anchor than one left out; equally near ones go by kind, time and identifier. |
| Markers.CapIsExact | src/debug_bundle/markers.rs:190-203 | With at most 64 caller markers the list has exactly the smaller of 256 and all mandatory and candidate markers. |
| Markers.CandidatesExact | src/debug_bundle/markers.rs:113-183 | A marker is a candidate exactly when it is what the first row about its subject makes: an interaction at its own recorded time, anything else at the row's time, inside the range, captioned by identifier only if it is a marker, and not mandatory. |
| Markers.AssembledIdsDistinct | src/debug_bundle/markers.rs:48-208 | Given distinct caller identifiers no two presented markers share one. |
| Markers.AnchorPresentedOnce | src/debug_bundle/markers.rs:83-109 | The anchor is presented at its effective time, by the caller's own marker exactly when the caller supplied one, and otherwise captioned by identifier exactly when its evidence is not at hand. |
| Focus.ExtractFocusTimes | src/debug_bundle/focus.rs:77-158 | The set insertions, deduplication, cap and sort compute the focus times of the candidates of all outcomes. |
| Focus.FocusTimesMeaning | src/debug_bundle/focus.rs:77-158 | When every frame has one time: focus times are times of candidates, and a candidate's time is missing only if there are sixteen others, each of a candidate that ranks before it. |
| Focus.OutcomeCandidatesMeaning | src/debug_bundle/focus.rs:88-136 | The candidates of a storyboard are its first change, its peak against the baseline, its peak between neighbours and its frames selected for a change, with ranks zero to three. |
| Focus.MajorIffChange | src/debug_bundle/focus.rs:24-31 | A selected frame counts exactly when one of its reasons is a change and not merely its place among the frames. |
| Focus.FocusIncreases | src/debug_bundle/focus.rs:150-158 | At most sixteen focus times, strictly increasing. |
| Focus.BestTimesAreKept | src/debug_bundle/focus.rs:138-150 | A time is left out only when sixteen are kept, and then every kept candidate ranks strictly before every candidate of that time. |
| Focus.FocusMembers | src/debug_bundle/focus.rs:150-158 | Focus times are exactly the times of the kept candidates. |
| Focus.FocusIgnoresOrder | src/debug_bundle/focus.rs:77-158 | Permuted outcomes of frames that each have one capture time give the same focus times. |
| Focus.TimedIsConsistent | src/debug_bundle/focus.rs:77-136 | Outcomes whose frames each have one capture time yield candidates that agree on the time of every frame. |
| Focus.OrderFreeIffConsistent | src/debug_bundle/focus.rs:45-61 | The ordered set of candidates is the same for every order of insertion if and only if candidates of one key agree on their time. |
| Focus.OrderShowsWhenInconsistent | src/debug_bundle/focus.rs:45-61 | Two storyboard outcomes that give one frame two times: their order decides the focus time. |
| Focus.FirstOfEachTimeBest | src/debug_bundle/focus.rs:138-147 | Deduplication keeps the best candidate of every time. |
| Focus.CollectKeepsAll | src/debug_bundle/focus.rs:160-175 | If candidates of one key agree, insertion into the ordered set loses none of them. |
| RangeHandles.RangeHandleTable.Register | src/range_handles.rs:55-91 | A known range keeps its handle and a new one is bound to the drawn identifier; nothing is evicted or rebound, a failed registration changes nothing, and the exact failure condition is stated. |
| RangeHandles.RangeHandleTable.Admit | src/range_handles.rs:66-90 | The locked section keeps the table one to one and its used budget equal to the sum of admitted sizes, within both limits. |
| RangeHandles.RangeHandleTable.ResolveAvailable | src/range_handles.rs:93-111 | A handle resolves exactly while it is known and its range's frames are available. |
| RangeHandles.RegisterStep | src/range_handles.rs:55-91 | One registration as a step between table states, with its exact result and refusal condition. |
| RangeHandles.RegisterAll | src/range_handles.rs:55-111 | Over any sequence of registrations each call is refused exactly when the table it finds says so, two handles are equal exactly when their ranges are, and each still resolves to its range at the end. |
| RangeHandles.RangeBudgetBytes | src/range_handles.rs:151-187 | The counting writer finds the serialised size exactly when it is within the limit. |
| RangeHandles.ValidateAvailableMetadata | src/range_handles.rs:129-149 | Accepts exactly metadata that matches the range frame by frame, in scope, in span and in order. |
| Geometry.OutputGeometryFor | src/video/adapt.rs:41-64 | Returns the largest size of exactly the source's aspect ratio, no larger than the source, whose even canvas fits; refuses only when none fits or that one exceeds the fixed video limit. |
| Geometry.FaithfulIsMultiple | src/video/adapt.rs:45-52 | The sizes of exactly the source's aspect ratio are the multiples of the reduced size up to the common divisor. |
| Geometry.RequestLimitsRefuseOnlyMisfits | crates/krometrail-core/src/video/generation.rs:74-101 | Under limits a video request may carry, refusal means that no size fits. |
| Geometry.LargerLimitsRefuseNeedlessly | crates/krometrail-core/src/video/plan.rs:234-238 | Under larger limits the search stops at its first fit and is refused, although a smaller size would be accepted. |
| Arithmetic.Gcd | src/video/adapt.rs:249-256 | The loop returns a number whose divisors are exactly the common divisors. |
| RotatingLog.BoundedRotatingWriter.Write | src/diagnostics.rs:121-138 | The prefix the file takes, at most one file's worth, ends the current file after at most one rotation; the new files are determined exactly, and none exceeds the bound. |
| RotatingLog.BoundedRotatingWriter.Rotate | src/diagnostics.rs:77-96 | Every generation moves one step older; only the oldest is dropped, and only when the one before it takes its place. |
| RotatingLog.BoundedRotatingWriter.MoveGenerations | src/diagnostics.rs:79-86 | From the oldest down, every existing generation replaces the one after it. |
| RotatingLog.WriteAll | src/diagnostics.rs:59-138 | For a fresh log and any sequence of writes: every file is within the bound, the files read oldest to newest are a suffix of the accepted bytes of the writes, and the last write is kept whole. When writes are taken whole, either nothing has been dropped or at least two full files' worth is kept. |

## Left out

- VideoPlan.BuildPresentationPlan: takes frames and gaps that the plan input's own constructor has validated; the narrowing of requested and resolved ranges, the epoch descriptor and the output geometry are carried through by the program unchanged and are not part of this model.
- VideoPlan.PlanSucceedsExactly: the segment and duration limits are stated on the number and length of the drafts, not on the frames and gaps alone.
- EpochBounded.BoundedPlan: source fingerprints and cache sources are selected by the same indices as the frames and are not modelled separately.
- EpochPlanning.ValidateAndPlan: session and target are one scope value, and image size, viewport and device scale are one geometry value; constructing the clamped gaps of an epoch cannot fail in the model, and cancellation during planning is not modelled.
- Flight.OneFlightPerKey: flights, waiters and workers are values in maps rather than heap objects, reference counts are the existence of an owner, and a poisoned lock is not modelled; deadlines and external cancellation are a step that may happen at any time a waiter sleeps.
- Flight.NoListenerForgotten: stored flags are read and written atomically; weaker memory orderings are not modelled.
- FlightRun.RunFlight: every asynchronous stage ends as an arbitrary environment says, and a cancellation check between stages is one of its outcomes; drawing artifact identifiers, decoding, normalising and rendering are not modelled, and an analysis is represented by everything it is computed from.
- Slots.GenerateInner: the flight of another request is given by its slots, epochs and environment, and the wall-clock deadline is an interruption that may happen; how a request comes to lead or join is the state machine of Flight.dfy.
- Budget.PrepareGenerator: the default anchor of a storyboard or filmstrip and the encoding of canonical parameters are not modelled.
- CacheKey.ImageKeyInjective: about the bytes that are hashed; the hash itself and the canonical JSON of the parameters are taken as given.
- Markers.AssembleMarkers: labels are only classed as exact, identifier-only or supplied, and identifiers are ordered numbers instead of bytes.
- Focus.FocusIgnoresOrder: the exact condition is about the whole set of candidates; which disagreements below the cap of sixteen leave the focus times alone is not characterised.
- RangeHandles.RangeHandleTable.Register: serialisation is a list of chunk sizes for every range, and validation of a range is a given predicate.
- Geometry.OutputGeometryFor: dimensions are unbounded, so the step from the largest 32-bit width to an even one is not modelled as wrapping around.
- RotatingLog.BoundedRotatingWriter.Rotate: file operations succeed; a failed rename or open, after which the writer reports an error, is not modelled.
- Permits.GrantedIffFirstAndFits: a waiting reservation takes its permits at once when it is granted; the semaphore may set free permits aside for its first waiter before they suffice, which grants in the same order.
- Permits.JobsAndMemoryBounded: memory still used by a job whose caller has given up is not counted, as the program does not count it either.
- Image decoding, resizing, PNG and slate drawing, the rendering crate, FFmpeg, SQLite, segment files and the browser protocol.
- Runtime wiring, command line, doctor, environment, data directories and instance reclamation.
- Bundle headers, label texts, error messages and recovery advice.
- Selection of meaningful frames, encoder inputs and the selection parameter hash, which drive image libraries.
