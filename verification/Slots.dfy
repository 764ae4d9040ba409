/** One request: an output slot for every epoch, generator and kind, each answered exactly once. */
module Slots {
  import opened Common
  import opened Arithmetic
  import opened EpochTypes
  import opened EpochBounded
  import opened Budget
  import opened GeneratorPlan
  import opened FlightSpec
  import opened FlightRun

  datatype Meta = Meta(epoch: nat, generator: nat, kind: Kind)

  /** A slot of the response: where it belongs, and the work that fills it unless planning failed. */
  datatype SlotPlan = SlotPlan(meta: Meta, work: Result<WorkSlot>)

  /** The outcome of planning a generator, given its position, for an epoch, given its position. */
  type Planning = ((nat, nat)) -> Result<Job>

  /** The lookup of every position of the response. */
  type Lookups = nat -> Result<Lookup>

  /** Work that no cache hit answers: its position, and whether its cached artifact was invalidated. */
  type Missed = (nat, (WorkSlot, bool))

  /** The cache key of an epoch's generator and kind. */
  type Keys = (nat, nat, Kind) -> Key

  datatype Disposition = CacheHit | Generated | RegeneratedAfterInvalidation

  datatype Available = Available(disposition: Disposition, graceOverridden: bool)

  datatype Outcome = Outcome(meta: Meta, value: Result<Available>)

  type Filled = Option<Result<Available>>

  /** Planning one generator: planned and prepared for the epoch, or the error that stopped it. */
  ghost predicate PlannedFor(r: Result<Job>, g: Generator, epoch: Epoch, l: Limits)
    requires SoundPlan(epoch.plan)
  {
    if r.Ok? then r.value.image == epoch.image && PlanOutcome(g, epoch.plan, epoch.image, l, Ok((r.value.plan, r.value.generator)))
    else PlanOutcome(g, epoch.plan, epoch.image, l, Err(r.error))
  }

  /** Validated epochs: sound plans of one image size each. */
  ghost predicate Ready(epochs: seq<Epoch>) {
    forall e :: ReadyAt(epochs, e)
  }

  ghost predicate ReadyAt(epochs: seq<Epoch>, e: int) {
    0 <= e < |epochs| ==>
      SoundPlan(epochs[e].plan) && Sized(epochs[e].plan, epochs[e].image) && epochs[e].plan.decodedBytes < U64_LIMIT
  }

  /** The planning of every generator on every epoch. */
  ghost predicate PlansOf(planning: Planning, epochs: seq<Epoch>, generators: seq<Generator>, l: Limits) {
    forall e: nat, g: nat :: PlansAt(planning, epochs, generators, l, e, g)
  }

  ghost predicate PlansAt(planning: Planning, epochs: seq<Epoch>, generators: seq<Generator>, l: Limits, e: nat,
                          g: nat) {
    e < |epochs| && g < |generators| ==> SoundPlan(epochs[e].plan) && PlannedFor(planning((e, g)), generators[g], epochs[e], l)
  }

  // The expected order of slots

  function SlotFor(index: nat, e: nat, g: nat, kinds: seq<Kind>, k: nat, keys: Keys, planned: Result<Job>): SlotPlan
    requires k < |kinds|
  {
    SlotPlan(Meta(index, g, kinds[k]),
             if planned.Err? then Err(planned.error)
             else Ok(WorkSlot(e, g, kinds[k], keys(e, g, kinds[k]), planned.value)))
  }

  /** The slots of the first n kinds of a generator. */
  function KindSlots(index: nat, e: nat, g: nat, kinds: seq<Kind>, keys: Keys, planned: Result<Job>,
                     n: nat): (r: seq<SlotPlan>)
    requires n <= |kinds|
    ensures |r| == n
  {
    if n == 0 then [] else KindSlots(index, e, g, kinds, keys, planned, n - 1) + [SlotFor(index, e, g, kinds, n - 1, keys, planned)]
  }

  /** The slots of the first n generators in one epoch. */
  function EpochSlots(index: nat, e: nat, generators: seq<Generator>, keys: Keys, planning: Planning,
                      n: nat): seq<SlotPlan>
    requires n <= |generators|
  {
    if n == 0 then []
    else
      var kinds := OutputKinds(generators[n - 1]);
      EpochSlots(index, e, generators, keys, planning, n - 1) + KindSlots(index, e, n - 1, kinds, keys, planning((e, n - 1)), |kinds|)
  }

  /** The slots of the first n epochs, numbered as the epochs were before any selection. */
  function Layout(epochs: seq<Epoch>, generators: seq<Generator>, keys: Keys, planning: Planning, n: nat): seq<SlotPlan>
    requires n <= |epochs|
  {
    if n == 0 then []
    else
      Layout(epochs, generators, keys, planning, n - 1) + EpochSlots(epochs[n - 1].plan.index, n - 1, generators, keys, planning, |generators|)
  }

  function KindCount(generators: seq<Generator>, n: nat): nat
    requires n <= |generators|
  {
    if n == 0 then 0 else KindCount(generators, n - 1) + |OutputKinds(generators[n - 1])|
  }

  lemma {:induction false} EpochSlotCount(index: nat, e: nat, generators: seq<Generator>, keys: Keys,
                                          planning: Planning, n: nat)
    requires n <= |generators|
    ensures |EpochSlots(index, e, generators, keys, planning, n)| == KindCount(generators, n)
    ensures KindCount(generators, n) <= KindCount(generators, |generators|)
    decreases n
  {
    KindCountGrows(generators, n, |generators|);
    hide KindSlots, OutputKinds;
    if n > 0 { EpochSlotCount(index, e, generators, keys, planning, n - 1); }
  }

  lemma {:induction false} KindCountGrows(generators: seq<Generator>, n: nat, m: nat)
    requires n <= m <= |generators|
    ensures KindCount(generators, n) <= KindCount(generators, m)
    decreases m
  {
    if n < m { KindCountGrows(generators, n, m - 1); }
  }

  lemma RoomForEpoch(e: nat, epochs: nat, kinds: nat)
    requires e < epochs
    ensures e * kinds + kinds == (e + 1) * kinds <= epochs * kinds
  {
    MulMonotone(kinds, e + 1, epochs);
  }

  /** A response has one slot for every epoch and every kind of every generator. */
  lemma {:induction false} LayoutCount(epochs: seq<Epoch>, generators: seq<Generator>, keys: Keys, planning: Planning,
                                       n: nat)
    requires n <= |epochs|
    ensures |Layout(epochs, generators, keys, planning, n)| == n * KindCount(generators, |generators|)
  {
    if n > 0 {
      LayoutCount(epochs, generators, keys, planning, n - 1);
      EpochSlotCount(epochs[n - 1].plan.index, n - 1, generators, keys, planning, |generators|);
      hide EpochSlots, KindCount;
      RoomForEpoch(n - 1, n, KindCount(generators, |generators|));
    }
  }

  // Where a slot is

  lemma {:induction false} KindSlotAt(index: nat, e: nat, g: nat, kinds: seq<Kind>, keys: Keys, planned: Result<Job>, n: nat, k: nat)
    requires k < n <= |kinds|
    ensures SlotAt(KindSlots(index, e, g, kinds, keys, planned, n), k, SlotFor(index, e, g, kinds, k, keys, planned))
  {
    hide SlotFor;
    if k < n - 1 { KindSlotAt(index, e, g, kinds, keys, planned, n - 1, k); }
  }

  ghost predicate SlotAt(slots: seq<SlotPlan>, at: nat, slot: SlotPlan) {
    at < |slots| && slots[at] == slot
  }

  lemma SlotInFirst(a: seq<SlotPlan>, b: seq<SlotPlan>, at: nat, slot: SlotPlan)
    requires SlotAt(a, at, slot)
    ensures SlotAt(a + b, at, slot)
  {
  }

  lemma SlotInSecond(a: seq<SlotPlan>, b: seq<SlotPlan>, at: nat, slot: SlotPlan)
    requires SlotAt(b, at, slot)
    ensures SlotAt(a + b, |a| + at, slot)
  {
  }

  lemma {:induction false} EpochSlotAt(index: nat, e: nat, generators: seq<Generator>, keys: Keys, planning: Planning, n: nat, g: nat, k: nat)
    requires g < n <= |generators| && k < |OutputKinds(generators[g])|
    ensures SlotAt(EpochSlots(index, e, generators, keys, planning, n), KindCount(generators, g) + k,
                   SlotFor(index, e, g, OutputKinds(generators[g]), k, keys, planning((e, g))))
  {
    hide *;
    EpochSlotCount(index, e, generators, keys, planning, n - 1);
    EpochGrows(index, e, generators, keys, planning, n);
    var kinds := OutputKinds(generators[n - 1]);
    var slot := SlotFor(index, e, g, OutputKinds(generators[g]), k, keys, planning((e, g)));
    var before := EpochSlots(index, e, generators, keys, planning, n - 1);
    var own := KindSlots(index, e, n - 1, kinds, keys, planning((e, n - 1)), |kinds|);
    if g < n - 1 {
      EpochSlotAt(index, e, generators, keys, planning, n - 1, g, k);
      SlotInFirst(before, own, KindCount(generators, g) + k, slot);
    } else {
      KindSlotAt(index, e, g, kinds, keys, planning((e, g)), |kinds|, k);
      SlotInSecond(before, own, k, slot);
    }
  }

  lemma EpochGrows(index: nat, e: nat, generators: seq<Generator>, keys: Keys, planning: Planning, n: nat)
    requires 0 < n <= |generators|
    ensures var kinds := OutputKinds(generators[n - 1]);
      EpochSlots(index, e, generators, keys, planning, n)
        == EpochSlots(index, e, generators, keys, planning, n - 1) + KindSlots(index, e, n - 1, kinds, keys, planning((e, n - 1)), |kinds|)
  {
    hide KindSlots, OutputKinds;
  }

  lemma LayoutGrows(epochs: seq<Epoch>, generators: seq<Generator>, keys: Keys, planning: Planning, n: nat)
    requires 0 < n <= |epochs|
    ensures Layout(epochs, generators, keys, planning, n) ==
      Layout(epochs, generators, keys, planning, n - 1)
      + EpochSlots(epochs[n - 1].plan.index, n - 1, generators, keys, planning, |generators|)
  {
    hide EpochSlots;
  }

  /** The position of a generator's kind in an epoch: everything of earlier epochs and generators comes first. */
  function Position(generators: seq<Generator>, e: nat, g: nat, k: nat): nat
    requires g < |generators|
  {
    e * KindCount(generators, |generators|) + KindCount(generators, g) + k
  }

  /** The slot of an epoch, generator and kind, with the work planned for it. */
  function PlannedSlot(epoch: Epoch, e: nat, g: nat, kind: Kind, keys: Keys, planned: Result<Job>): SlotPlan {
    SlotPlan(Meta(epoch.plan.index, g, kind),
             if planned.Err? then Err(planned.error) else Ok(WorkSlot(e, g, kind, keys(e, g, kind), planned.value)))
  }

  /** The slot at a position belongs to that epoch, generator and kind, and carries its planned work. */
  lemma {:induction false} LayoutAt(epochs: seq<Epoch>, generators: seq<Generator>, keys: Keys, planning: Planning, n: nat, e: nat, g: nat, k: nat)
    requires e < n <= |epochs| && g < |generators| && k < |OutputKinds(generators[g])|
    ensures SlotAt(Layout(epochs, generators, keys, planning, n), Position(generators, e, g, k),
                   PlannedSlot(epochs[e], e, g, OutputKinds(generators[g])[k], keys, planning((e, g))))
  {
    hide *;
    LayoutGrows(epochs, generators, keys, planning, n);
    var slot := PlannedSlot(epochs[e], e, g, OutputKinds(generators[g])[k], keys, planning((e, g)));
    var before := Layout(epochs, generators, keys, planning, n - 1);
    var own := EpochSlots(epochs[n - 1].plan.index, n - 1, generators, keys, planning, |generators|);
    if e < n - 1 {
      LayoutAt(epochs, generators, keys, planning, n - 1, e, g, k);
      SlotInFirst(before, own, Position(generators, e, g, k), slot);
    } else {
      LayoutCount(epochs, generators, keys, planning, e);
      SlotForPlanned(epochs[e], e, g, OutputKinds(generators[g]), k, keys, planning((e, g)));
      EpochSlotAt(epochs[e].plan.index, e, generators, keys, planning, |generators|, g, k);
      SlotInSecond(before, own, KindCount(generators, g) + k, slot);
      PositionSplits(generators, e, g, k);
    }
  }

  /** Positions follow epochs, then generators, then kinds, so no two share one. */
  lemma PositionsFollow(generators: seq<Generator>, e: nat, g: nat, k: nat, e': nat, g': nat, k': nat)
    requires g < |generators| && k < |OutputKinds(generators[g])| && g' < |generators| && k' < |OutputKinds(generators[g'])|
    requires e < e' || (e == e' && (g < g' || (g == g' && k < k')))
    ensures Position(generators, e, g, k) < Position(generators, e', g', k')
  {
    assert KindCount(generators, g + 1) == KindCount(generators, g) + |OutputKinds(generators[g])|;
    PositionSplits(generators, e, g, k);
    PositionSplits(generators, e', g', k');
    hide OutputKinds, KindCount, Position;
    if e < e' {
      KindCountGrows(generators, g + 1, |generators|);
      RoomForEpoch(e, e', KindCount(generators, |generators|));
    } else if g < g' {
      KindCountGrows(generators, g + 1, g');
    }
  }

  /** The kinds of a generator are its own and distinct; only a storyboard with orientation has two. */
  lemma KindsMeaning(g: Generator)
    ensures g.Storyboard? ==> OutputKinds(g) == if g.orientation then [StoryboardImage, BeforeDuringAfter] else [StoryboardImage]
    ensures g.RegionFilmstrip? ==> OutputKinds(g) == [FilmstripImage]
    ensures g.DifferenceMap? ==> OutputKinds(g) == [DifferenceImage]
    ensures g.MotionHistory? ==> OutputKinds(g) == [MotionImage]
  {
  }

  lemma PositionSplits(generators: seq<Generator>, e: nat, g: nat, k: nat)
    requires g < |generators|
    ensures Position(generators, e, g, k) == e * KindCount(generators, |generators|) + (KindCount(generators, g) + k)
  {
  }

  lemma SlotForPlanned(epoch: Epoch, e: nat, g: nat, kinds: seq<Kind>, k: nat, keys: Keys, planned: Result<Job>)
    requires k < |kinds|
    ensures SlotFor(epoch.plan.index, e, g, kinds, k, keys, planned) == PlannedSlot(epoch, e, g, kinds[k], keys, planned)
  {
  }

  /** Positions and work of the slots that planning did not fail. */
  function WorkOf(layout: seq<SlotPlan>): seq<(nat, WorkSlot)> {
    if layout == [] then []
    else
      var last := |layout| - 1;
      if layout[last].work.Ok? then WorkOf(layout[..last]) + [(last, layout[last].work.value)] else WorkOf(layout[..last])
  }

  // Building the slots

  /** The growing collections of the planning loop. */
  datatype Building = Building(results: seq<Filled>, metadata: seq<Meta>, slots: seq<(nat, WorkSlot)>, ordinal: nat)

  function PlannedResult(slot: SlotPlan): Filled {
    if slot.work.Err? then Some(Err(slot.work.error)) else None
  }

  ghost predicate Built(b: Building, done: seq<SlotPlan>, size: nat) {
    && b.ordinal == |b.metadata| == |done| <= size == |b.results|
    && b.slots == WorkOf(done)
    && (forall i :: 0 <= i < |done| ==> b.metadata[i] == done[i].meta && b.results[i] == PlannedResult(done[i]))
    && forall i :: |done| <= i < size ==> b.results[i] == None
  }

  /** Handling one kind: a failure is recorded at the current ordinal, work is queued for it. */
  method AddSlot(b: Building, ghost done: seq<SlotPlan>, size: nat, slot: SlotPlan) returns (r: Building)
    requires Built(b, done, size) && |done| < size
    ensures Built(r, done + [slot], size)
  {
    assert (done + [slot])[..|done + [slot]| - 1] == done;
    r := b.(metadata := b.metadata + [slot.meta], ordinal := b.ordinal + 1);
    if slot.work.Err? {
      r := r.(results := r.results[b.ordinal := Some(Err(slot.work.error))]);
    } else {
      r := r.(slots := r.slots + [(b.ordinal, slot.work.value)]);
    }
  }

  /** The kinds of one generator in one epoch. */
  method AddGenerator(b: Building, ghost done: seq<SlotPlan>, size: nat, index: nat, e: nat, g: nat, kinds: seq<Kind>,
                      keys: Keys, planned: Result<Job>)
    returns (r: Building)
    requires Built(b, done, size) && |done| + |kinds| <= size
    ensures Built(r, done + KindSlots(index, e, g, kinds, keys, planned, |kinds|), size)
  {
    hide Built;
    r := b;
    var k := 0;
    assert done + [] == done;
    while k < |kinds|
      invariant 0 <= k <= |kinds|
      invariant Built(r, done + KindSlots(index, e, g, kinds, keys, planned, k), size)
    {
      var slot := SlotFor(index, e, g, kinds, k, keys, planned);
      r := AddSlot(r, done + KindSlots(index, e, g, kinds, keys, planned, k), size, slot);
      assert done + KindSlots(index, e, g, kinds, keys, planned, k) + [slot] == done + KindSlots(index, e, g, kinds, keys, planned, k + 1);
      k := k + 1;
    }
  }

  /** The first planning error among the first n generators of epoch e. */
  function PlanError(planning: Planning, e: nat, n: nat): Option<ErrorCode> {
    if n == 0 then None
    else
      var earlier := PlanError(planning, e, n - 1);
      if earlier.Some? then earlier else if planning((e, n - 1)).Err? then Some(planning((e, n - 1)).error) else None
  }

  /** When all outputs are required, the first planning error of the first n epochs ends the request. */
  function PlanningStop(planning: Planning, n: nat, generators: nat, requireAll: bool): Option<ErrorCode> {
    if n == 0 || !requireAll then None
    else
      var earlier := PlanningStop(planning, n - 1, generators, requireAll);
      if earlier.Some? then earlier else PlanError(planning, n - 1, generators)
  }

  lemma {:induction false} PlanErrorIff(planning: Planning, e: nat, n: nat)
    ensures PlanError(planning, e, n).Some? <==> exists g: nat :: g < n && planning((e, g)).Err?
  {
    if n > 0 { PlanErrorIff(planning, e, n - 1); }
  }

  /** A request stops in planning exactly when it requires all outputs and some generator cannot be planned. */
  lemma {:induction false} PlanningStopIff(planning: Planning, n: nat, generators: nat, requireAll: bool)
    ensures PlanningStop(planning, n, generators, requireAll).Some? <==>
      requireAll && exists e: nat, g: nat :: e < n && g < generators && planning((e, g)).Err?
  {
    if n > 0 {
      PlanningStopIff(planning, n - 1, generators, requireAll);
      PlanErrorIff(planning, n - 1, generators);
      hide PlanError;
    }
  }

  lemma {:induction false} PlanningStopStays(planning: Planning, e: nat, n: nat, generators: nat)
    requires e < n && PlanningStop(planning, e, generators, true).None? && PlanError(planning, e, generators).Some?
    ensures PlanningStop(planning, n, generators, true) == PlanError(planning, e, generators)
  {
    if e + 1 < n { PlanningStopStays(planning, e, n - 1, generators); }
  }

  function JobFor(r: Result<(EpochPlan, Generator)>, image: Size): Result<Job>
    requires r.Ok? ==> r.value.0.frames != []
  {
    if r.Ok? then Ok(Job(r.value.1, r.value.0, image)) else Err(r.error)
  }

  lemma OnePlanning(r: Result<(EpochPlan, Generator)>, epochs: seq<Epoch>, generators: seq<Generator>,
                    planning: Planning, 
                    e: nat, g: nat, l: Limits)
    requires PlansOf(planning, epochs, generators, l) && e < |epochs| && g < |generators| && SoundPlan(epochs[e].plan)
    requires PlanOutcome(generators[g], epochs[e].plan, epochs[e].image, l, r) && (r.Ok? ==> r.value.0.frames != [])
    ensures planning((e, g)) == JobFor(r, epochs[e].image)
  {
    var planned := planning((e, g));
    assert PlansAt(planning, epochs, generators, l, e, g);
    hide PlansOf, PlanOutcome, SoundPlan;
    PlanOutcomeUnique(generators[g], epochs[e].plan, epochs[e].image, l, r,
                      if planned.Ok? then Ok((planned.value.plan, planned.value.generator)) else Err(planned.error));
  }

  /** Planning one generator on one epoch, as the flight will later find it. */
  method PlanGenerator(epochs: seq<Epoch>, e: nat, generators: seq<Generator>, g: nat, ghost planning: Planning,
                       l: Limits)
    returns (planned: Result<Job>)
    requires ValidLimits(l) && Ready(epochs) && PlansOf(planning, epochs, generators, l) && e < |epochs| && g < |generators|
    ensures planned == planning((e, g))
  {
    var epoch := epochs[e];
    assert ReadyAt(epochs, e);
    assert SoundPlan(epoch.plan) && Sized(epoch.plan, epoch.image) && epoch.plan.decodedBytes < U64_LIMIT;
    hide PlansOf, Ready, PlanOutcome, SoundPlan, Sized, ValidLimits, WorksOn, Prepared, AdmitGroup, Demand;
    var made := PlanAndPrepare(generators[g], epoch.plan, epoch.image, l);
    OnePlanning(made, epochs, generators, planning, e, g, l);
    planned := JobFor(made, epoch.image);
  }

  /** The slots before this epoch and those of its first n generators have been built. */
  ghost predicate BuiltTo(b: Building, done: seq<SlotPlan>, size: nat, index: nat, e: nat, generators: seq<Generator>,
                          keys: Keys, planning: Planning, n: nat)
    requires n <= |generators|
  {
    Built(b, done + EpochSlots(index, e, generators, keys, planning, n), size)
  }

  /** One generator: planned, then added with its work or its error, unless that error ends the request. */
  method AddNext(b: Building, ghost done: seq<SlotPlan>, size: nat, index: nat, epochs: seq<Epoch>, e: nat,
                 generators: seq<Generator>, g: nat, 
                 keys: Keys, ghost planning: Planning, requireAll: bool, l: Limits)
    returns (r: Building, failure: Option<ErrorCode>)
    requires ValidLimits(l) && Ready(epochs) && PlansOf(planning, epochs, generators, l) && e < |epochs| && g < |generators|
    requires BuiltTo(b, done, size, index, e, generators, keys, planning, g)
    requires |done| + KindCount(generators, |generators|) <= size
    ensures failure.None? ==> BuiltTo(r, done, size, index, e, generators, keys, planning, g + 1)
    ensures failure == if requireAll && planning((e, g)).Err? then Some(planning((e, g)).error) else None
  {
    hide PlansOf, Ready, ValidLimits;
    r, failure := b, None;
    var planned := PlanGenerator(epochs, e, generators, g, planning, l);
    if planned.Err? && requireAll {
      return r, Some(planned.error);
    }
    var kinds := OutputKinds(generators[g]);
    EpochStep(done, index, e, generators, keys, planning, g);
    hide Built, EpochSlots, KindSlots, KindCount;
    r := AddGenerator(b, done + EpochSlots(index, e, generators, keys, planning, g), size, index, e, g, kinds, keys, planned);
  }

  /** All generators of one epoch, planned one after the other; the first planning error ends a request that requires all. */
  method AddEpoch(b: Building, ghost done: seq<SlotPlan>, size: nat, index: nat, epochs: seq<Epoch>, e: nat,
                  generators: seq<Generator>, 
                  keys: Keys, ghost planning: Planning, requireAll: bool, l: Limits)
    returns (r: Building, failure: Option<ErrorCode>)
    requires ValidLimits(l) && Ready(epochs) && PlansOf(planning, epochs, generators, l) && e < |epochs|
    requires Built(b, done, size) && |done| + KindCount(generators, |generators|) <= size
    ensures failure.None? ==> BuiltTo(r, done, size, index, e, generators, keys, planning, |generators|)
    ensures failure == if requireAll then PlanError(planning, e, |generators|) else None
  {
    hide *;
    r, failure := b, None;
    NoGenerators(b, done, size, index, e, generators, keys, planning);
    var g := 0;
    while g < |generators|
      invariant 0 <= g <= |generators| && failure.None?
      invariant BuiltTo(r, done, size, index, e, generators, keys, planning, g)
      invariant requireAll ==> PlanError(planning, e, g).None?
    {
      r, failure := AddNext(r, done, size, index, epochs, e, generators, g, keys, planning, requireAll, l);
      PlanErrorStep(planning, e, g, |generators|);
      if failure.Some? {
        return;
      }
      g := g + 1;
    }
  }

  lemma NoGenerators(b: Building, done: seq<SlotPlan>, size: nat, index: nat, e: nat, generators: seq<Generator>,
                     keys: Keys, planning: Planning)
    requires Built(b, done, size)
    ensures BuiltTo(b, done, size, index, e, generators, keys, planning, 0) && PlanError(planning, e, 0).None?
  {
    assert EpochSlots(index, e, generators, keys, planning, 0) == [] && done + [] == done;
    hide Built;
  }

  lemma {:induction false} PlanErrorStep(planning: Planning, e: nat, g: nat, n: nat)
    requires g < n
    ensures PlanError(planning, e, g).None? && planning((e, g)).Ok? ==> PlanError(planning, e, g + 1).None?
    ensures PlanError(planning, e, g).None? && planning((e, g)).Err? ==> PlanError(planning, e, n) == Some(planning((e, g)).error)
  {
    if g + 1 < n { PlanErrorStep(planning, e, g, n - 1); }
  }

  lemma EpochStep(done: seq<SlotPlan>, index: nat, e: nat, generators: seq<Generator>, keys: Keys, planning: Planning,
                  g: nat)
    requires g < |generators|
    ensures |EpochSlots(index, e, generators, keys, planning, g)| + |OutputKinds(generators[g])| <= KindCount(generators, |generators|)
    ensures var kinds := OutputKinds(generators[g]);
      done + EpochSlots(index, e, generators, keys, planning, g) + KindSlots(index, e, g, kinds, keys, planning((e, g)), |kinds|)
        == done + EpochSlots(index, e, generators, keys, planning, g + 1)
  {
    EpochSlotCount(index, e, generators, keys, planning, g);
    EpochSlotCount(index, e, generators, keys, planning, g + 1);
    hide KindSlots, OutputKinds;
  }

  method BuildSlots(epochs: seq<Epoch>, generators: seq<Generator>, keys: Keys, ghost planning: Planning,
                    requireAll: bool, l: Limits)
    returns (r: Result<Building>)
    requires ValidLimits(l) && Ready(epochs) && PlansOf(planning, epochs, generators, l)
    ensures r.Err? <==> PlanningStop(planning, |epochs|, |generators|, requireAll).Some?
    ensures r.Err? ==> Some(r.error) == PlanningStop(planning, |epochs|, |generators|, requireAll)
    ensures r.Ok? ==> Built(r.value, Layout(epochs, generators, keys, planning, |epochs|), |Layout(epochs, generators, keys, planning, |epochs|)|)
  {
    hide Built, EpochSlots, KindCount, PlansOf, Ready, ValidLimits;
    var potential := |epochs| * CountKinds(generators);
    var b := Building(seq(potential, _ => None), [], [], 0);
    LayoutCount(epochs, generators, keys, planning, |epochs|);
    assert Built(b, [], potential) by { NothingBuilt(potential); }
    var e := 0;
    while e < |epochs|
      invariant 0 <= e <= |epochs|
      invariant Built(b, Layout(epochs, generators, keys, planning, e), potential)
      invariant PlanningStop(planning, e, |generators|, requireAll).None?
    {
      LayoutCount(epochs, generators, keys, planning, e);
      RoomForEpoch(e, |epochs|, KindCount(generators, |generators|));
      var failure;
      b, failure := AddEpoch(b, Layout(epochs, generators, keys, planning, e), potential, epochs[e].plan.index, epochs, e, generators, keys, planning, requireAll, l);
      if failure.Some? {
        PlanningStopStays(planning, e, |epochs|, |generators|);
        return Err(failure.value);
      }
      e := e + 1;
    }
    r := Ok(b);
  }

  lemma NothingBuilt(size: nat)
    ensures Built(Building(seq(size, _ => None), [], [], 0), [], size)
  {
  }

  function CountKinds(generators: seq<Generator>): (r: nat)
    ensures r == KindCount(generators, |generators|)
  {
    KindCount(generators, |generators|)
  }

  // Answering the slots

  predicate IsHit(lookup: Result<Lookup>) {
    lookup.Ok? && lookup.value.Hit?
  }

  predicate IsMissing(slot: SlotPlan, lookup: Result<Lookup>) {
    slot.work.Ok? && lookup.Ok? && !lookup.value.Hit?
  }

  /** How a value from the flight is reported. */
  function Reported(value: FlightValue, invalidated: bool): Available {
    Available(if value.generated then (if invalidated then RegeneratedAfterInvalidation else Generated) else CacheHit,
              value.graceOverridden)
  }

  /** The answer of one slot, from its planning, its cache lookup and the flight's results. */
  function Answer(slot: SlotPlan, lookup: Result<Lookup>, flight: Entries): Result<Available> {
    if slot.work.Err? then Err(slot.work.error)
    else if lookup.Err? then Err(lookup.error)
    else if lookup.value.Hit? then Ok(Available(CacheHit, false))
    else if slot.work.value.key !in flight then Err(ArtifactGenerationFailed)
    else
      match flight[slot.work.value.key]
      case Ok(value) => Ok(Reported(value, lookup.value.Invalidated?))
      case Err(error) => Err(error)
  }

  /** Positions still waiting for an answer. */
  function Waiting<T>(slots: seq<(nat, T)>): set<nat> {
    set k | 0 <= k < |slots| :: slots[k].0
  }

  predicate Ascending<T>(slots: seq<(nat, T)>) {
    forall j, k :: 0 <= j < k < |slots| ==> slots[j].0 < slots[k].0
  }

  lemma {:induction false} WorkOfExact(layout: seq<SlotPlan>)
    ensures Ascending(WorkOf(layout))
    ensures forall k :: 0 <= k < |WorkOf(layout)| ==>
      WorkOf(layout)[k].0 < |layout| && layout[WorkOf(layout)[k].0].work == Ok(WorkOf(layout)[k].1)
    ensures forall i :: 0 <= i < |layout| ==> (layout[i].work.Ok? <==> i in Waiting(WorkOf(layout)))
  {
    if layout != [] {
      var last := |layout| - 1;
      var before := WorkOf(layout[..last]);
      WorkOfExact(layout[..last]);
      var all := WorkOf(layout);
      if layout[last].work.Ok? {
        assert all == before + [(last, layout[last].work.value)];
        assert Waiting(all) == Waiting(before) + {last} by {
          assert all[|before|].0 == last;
          assert forall k :: 0 <= k < |before| ==> all[k] == before[k];
        }
      }
      forall i | 0 <= i < last ensures layout[i].work.Ok? <==> i in Waiting(all) { assert layout[..last][i] == layout[i]; }
    }
  }

  /** Everything outside the waiting positions holds its final answer. */
  ghost predicate Answered(results: seq<Filled>, waiting: set<nat>, layout: seq<SlotPlan>,
                           lookups: Lookups, flight: Entries)
  {
    && |results| == |layout|
    && forall i: nat :: i < |layout| ==> results[i] == if i in waiting then None else Some(Answer(layout[i], lookups(i), flight))
  }

  lemma WaitingHead<T>(slots: seq<(nat, T)>)
    requires slots != [] && Ascending(slots)
    ensures Waiting(slots) == Waiting(slots[1..]) + {slots[0].0} && slots[0].0 !in Waiting(slots[1..])
    ensures Ascending(slots[1..])
  {
    forall x | x in Waiting(slots) ensures x in Waiting(slots[1..]) + {slots[0].0} {
      var k :| 0 <= k < |slots| && slots[k].0 == x;
      if k > 0 { assert slots[1..][k - 1].0 == x; }
    }
    forall x | x in Waiting(slots[1..]) ensures x in Waiting(slots) {
      var k :| 0 <= k < |slots[1..]| && slots[1..][k].0 == x;
      assert slots[k + 1].0 == x;
    }
  }

  lemma WaitingAppend<T>(slots: seq<(nat, T)>, slot: (nat, T))
    ensures Waiting(slots + [slot]) == Waiting(slots) + {slot.0}
  {
    var all := slots + [slot];
    assert all[|slots|] == slot;
    forall x | x in Waiting(slots) ensures x in Waiting(all) {
      var k :| 0 <= k < |slots| && slots[k].0 == x;
      assert all[k].0 == x;
    }
  }

  /** The waiting work of a layout: positions, work, and whether the cached artifact was invalidated. */
  ghost predicate Missing(missing: seq<Missed>, layout: seq<SlotPlan>, lookups: Lookups) {
    && Ascending(missing)
    && forall k :: 0 <= k < |missing| ==>
         && missing[k].0 < |layout| && IsMissing(layout[missing[k].0], lookups(missing[k].0))
         && layout[missing[k].0].work == Ok(missing[k].1.0)
         && missing[k].1.1 == lookups(missing[k].0).value.Invalidated?
  }

  ghost predicate WorkIn(slots: seq<(nat, WorkSlot)>, layout: seq<SlotPlan>) {
    && Ascending(slots)
    && forall k :: 0 <= k < |slots| ==> slots[k].0 < |layout| && layout[slots[k].0].work == Ok(slots[k].1)
  }

  /** Slots with work that no cache hit answered are all waiting. */
  ghost predicate CoversMisses(waiting: set<nat>, layout: seq<SlotPlan>, lookups: Lookups) {
    forall i: nat :: i < |layout| && layout[i].work.Ok? && !IsHit(lookups(i)) ==> i in waiting
  }

  /** Some slots have been looked up and the rest has not. */
  ghost predicate Halfway(results: seq<Filled>, missing: seq<Missed>, rest: seq<(nat, WorkSlot)>,
                          layout: seq<SlotPlan>, lookups: Lookups)
  {
    var waiting := Waiting(missing) + Waiting(rest);
    && WorkIn(rest, layout) && Missing(missing, layout, lookups)
    && Answered(results, waiting, layout, lookups, map[]) && CoversMisses(waiting, layout, lookups)
    && (missing != [] && rest != [] ==> missing[|missing| - 1].0 < rest[0].0)
  }

  lemma HitStep(results: seq<Filled>, missing: seq<Missed>, rest: seq<(nat, WorkSlot)>,
                layout: seq<SlotPlan>, lookups: Lookups)
    requires rest != [] && Halfway(results, missing, rest, layout, lookups) && IsHit(lookups(rest[0].0))
    ensures rest[0].0 < |results|
    ensures Halfway(results[rest[0].0 := Some(Ok(Available(CacheHit, false)))], missing, rest[1..], layout, lookups)
  {
    var at := rest[0].0;
    WaitingHead(rest);
    NotYetMissing(missing, layout, lookups, at);
    assert WorkIn(rest[1..], layout);
    assert rest[1..] != [] ==> rest[1..][0] == rest[1] && rest[0].0 < rest[1].0;
    hide Missing, WorkIn, Waiting, Ascending;
  }

  lemma MissStep(results: seq<Filled>, missing: seq<Missed>, rest: seq<(nat, WorkSlot)>,
                 layout: seq<SlotPlan>, lookups: Lookups)
    requires rest != [] && Halfway(results, missing, rest, layout, lookups)
    requires lookups(rest[0].0).Ok? && !lookups(rest[0].0).value.Hit?
    ensures Halfway(results, missing + [(rest[0].0, (rest[0].1, lookups(rest[0].0).value.Invalidated?))], rest[1..], layout, lookups)
  {
    var slot := (rest[0].0, (rest[0].1, lookups(rest[0].0).value.Invalidated?));
    WaitingHead(rest);
    WaitingAppend(missing, slot);
    assert Missing(missing + [slot], layout, lookups) by { MissingAppend(missing, slot, layout, lookups); }
    assert WorkIn(rest[1..], layout);
    assert rest[1..] != [] ==> rest[1..][0] == rest[1] && rest[0].0 < rest[1].0;
    assert Waiting(missing + [slot]) + Waiting(rest[1..]) == Waiting(missing) + Waiting(rest);
    hide Missing, WorkIn, Waiting, Ascending, Answered;
  }

  lemma MissingAppend(missing: seq<Missed>, slot: (nat, (WorkSlot, bool)),
                      layout: seq<SlotPlan>, lookups: Lookups)
    requires Missing(missing, layout, lookups) && (missing != [] ==> missing[|missing| - 1].0 < slot.0)
    requires slot.0 < |layout| && IsMissing(layout[slot.0], lookups(slot.0)) && layout[slot.0].work == Ok(slot.1.0)
    requires slot.1.1 == lookups(slot.0).value.Invalidated?
    ensures Missing(missing + [slot], layout, lookups)
  {
  }

  /** The looked-up work that no cache hit answers, and whether its cached artifact was invalidated. */
  function MissingOf(slots: seq<(nat, WorkSlot)>, lookups: Lookups): seq<Missed> {
    if slots == [] then []
    else
      var (at, work) := slots[|slots| - 1];
      MissingOf(slots[..|slots| - 1], lookups) +
      if IsHit(lookups(at)) then [] else [(at, (work, lookups(at).Ok? && lookups(at).value.Invalidated?))]
  }

  lemma MissingGrows(slots: seq<(nat, WorkSlot)>, m: nat, lookups: Lookups)
    requires m < |slots|
    ensures var (at, work) := slots[m];
      MissingOf(slots[..m + 1], lookups) == MissingOf(slots[..m], lookups) +
        if IsHit(lookups(at)) then [] else [(at, (work, lookups(at).Ok? && lookups(at).value.Invalidated?))]
  {
    assert slots[..m + 1][..m] == slots[..m];
  }

  /** A slot with work cannot be looked up. */
  ghost predicate LookupFails(layout: seq<SlotPlan>, lookups: Lookups, error: ErrorCode) {
    exists i: nat :: i < |layout| && FailsAt(layout, lookups, i, error)
  }

  ghost predicate FailsAt(layout: seq<SlotPlan>, lookups: Lookups, i: nat, error: ErrorCode)
    requires i < |layout|
  {
    layout[i].work.Ok? && lookups(i) == Err(error)
  }

  lemma NoneFails(missing: seq<Missed>, layout: seq<SlotPlan>, lookups: Lookups)
    requires Missing(missing, layout, lookups) && CoversMisses(Waiting(missing), layout, lookups)
    ensures forall error :: !LookupFails(layout, lookups, error)
  {
    hide Ascending;
    forall i: nat | i < |layout| && layout[i].work.Ok? ensures lookups(i).Ok? {
      if !IsHit(lookups(i)) {
        var k :| 0 <= k < |missing| && missing[k].0 == i;
        assert IsMissing(layout[missing[k].0], lookups(missing[k].0));
      }
    }
  }

  /** Looking every slot up: hits are answered, misses and invalidated entries wait for the flight. */
  method LookUp(initial: seq<Filled>, slots: seq<(nat, WorkSlot)>, ghost layout: seq<SlotPlan>, lookups: Lookups)
    returns (results: seq<Filled>, missing: seq<Missed>, failure: Option<ErrorCode>)
    requires Halfway(initial, [], slots, layout, lookups)
    ensures failure.None? ==> Halfway(results, missing, [], layout, lookups) && missing == MissingOf(slots, lookups)
    ensures failure.None? ==> forall error :: !LookupFails(layout, lookups, error)
    ensures failure.Some? ==> LookupFails(layout, lookups, failure.value)
  {
    results, missing, failure := initial, [], None;
    hide LookupFails, Halfway;
    var m := 0;
    assert slots[0..] == slots;
    while m < |slots|
      invariant 0 <= m <= |slots| && failure.None? && missing == MissingOf(slots[..m], lookups)
      invariant Halfway(results, missing, slots[m..], layout, lookups)
    {
      var (at, work) := slots[m];
      assert slots[m..][0] == slots[m] && slots[m..][1..] == slots[m + 1..];
      MissingGrows(slots, m, lookups);
      hide MissingOf;
      var lookup := lookups(at);
      if lookup.Err? {
        AtLeastOneFails(results, missing, slots[m..], layout, lookups);
        return results, missing, Some(lookup.error);
      }
      if lookup.value.Hit? {
        HitStep(results, missing, slots[m..], layout, lookups);
        results := results[at := Some(Ok(Available(CacheHit, false)))];
      } else {
        MissStep(results, missing, slots[m..], layout, lookups);
        missing := missing + [(at, (work, lookup.value.Invalidated?))];
      }
      m := m + 1;
    }
    assert slots[m..] == [] && slots[..m] == slots;
    NoneFailed(results, missing, layout, lookups);
  }

  lemma AtLeastOneFails(results: seq<Filled>, missing: seq<Missed>, rest: seq<(nat, WorkSlot)>,
                        layout: seq<SlotPlan>, lookups: Lookups)
    requires rest != [] && Halfway(results, missing, rest, layout, lookups) && lookups(rest[0].0).Err?
    ensures LookupFails(layout, lookups, lookups(rest[0].0).error)
  {
    assert WorkIn(rest, layout);
    assert FailsAt(layout, lookups, rest[0].0, lookups(rest[0].0).error);
  }

  lemma NoneFailed(results: seq<Filled>, missing: seq<Missed>, layout: seq<SlotPlan>, lookups: Lookups)
    requires Halfway(results, missing, [], layout, lookups)
    ensures forall error :: !LookupFails(layout, lookups, error)
  {
    assert Waiting(missing) + Waiting<WorkSlot>([]) == Waiting(missing);
    NoneFails(missing, layout, lookups);
  }

  lemma NotYetMissing(missing: seq<Missed>, layout: seq<SlotPlan>, lookups: Lookups, at: nat)
    requires Missing(missing, layout, lookups)
    requires missing != [] ==> missing[|missing| - 1].0 < at
    ensures at !in Waiting(missing)
  {
  }

  /** An entry of the flight's map that ends the request. */
  predicate Blocks(work: WorkSlot, flight: Entries, requireAll: bool, error: ErrorCode) {
    work.key in flight && flight[work.key] == Err(error) && (error in {Cancelled, NotFound} || requireAll)
  }

  predicate SomeBlocks(missing: seq<Missed>, flight: Entries, requireAll: bool, error: ErrorCode) {
    exists k :: 0 <= k < |missing| && Blocks(missing[k].1.0, flight, requireAll, error)
  }

  /** Taking every waiting slot's value from the flight's map. */
  method TakeResults(initial: seq<Filled>, missing: seq<Missed>, flight: Entries, requireAll: bool,
                     ghost layout: seq<SlotPlan>, ghost lookups: Lookups)
    returns (results: seq<Filled>, failure: Option<ErrorCode>)
    requires Missing(missing, layout, lookups) && Answered(initial, Waiting(missing), layout, lookups, flight)
    requires forall k :: 0 <= k < |missing| ==> missing[k].1.0.key in flight
    ensures failure.None? ==> Answered(results, {}, layout, lookups, flight)
    ensures failure.None? ==> forall error :: !SomeBlocks(missing, flight, requireAll, error)
    ensures failure.Some? ==> SomeBlocks(missing, flight, requireAll, failure.value)
  {
    results, failure := initial, None;
    var m := 0;
    assert missing[0..] == missing;
    while m < |missing|
      invariant 0 <= m <= |missing| && failure.None?
      invariant Ascending(missing[m..]) && Answered(results, Waiting(missing[m..]), layout, lookups, flight)
      invariant forall k, error :: 0 <= k < m ==> !Blocks(missing[k].1.0, flight, requireAll, error)
    {
      var (at, (work, invalidated)) := missing[m];
      var rest := missing[m..];
      assert rest[0] == missing[m] && rest[1..] == missing[m + 1..];
      WaitingHead(rest);
      match flight[work.key] {
        case Ok(value) =>
          results := results[at := Some(Ok(Reported(value, invalidated)))];
        case Err(error) =>
          if IsFatal(error) || requireAll {
            assert Blocks(missing[m].1.0, flight, requireAll, error);
            return results, Some(error);
          }
          results := results[at := Some(Err(error))];
      }
      m := m + 1;
    }
    assert Waiting(missing[m..]) == {};
  }

  /** A flight only changes the answers of the slots that wait for it. */
  lemma AnsweredForAnyFlight(results: seq<Filled>, missing: seq<Missed>, layout: seq<SlotPlan>,
                             lookups: Lookups, flight: Entries)
    requires Halfway(results, missing, [], layout, lookups)
    ensures Missing(missing, layout, lookups) && Answered(results, Waiting(missing), layout, lookups, flight)
  {
    assert Waiting(missing) + Waiting<WorkSlot>([]) == Waiting(missing);
    hide Missing, Waiting, WorkIn;
  }

  // The whole request

  function SlotsOf(missing: seq<Missed>): (r: seq<WorkSlot>)
    ensures |r| == |missing| && forall k :: 0 <= k < |missing| ==> r[k] == missing[k].1.0
  {
    seq(|missing|, k requires 0 <= k < |missing| => missing[k].1.0)
  }

  lemma {:induction false} KeyOfSlot(slots: seq<WorkSlot>, k: nat)
    requires k < |slots|
    ensures slots[k].key in KeySet(slots)
  {
    if k < |slots| - 1 {
      KeyOfSlot(slots[..|slots| - 1], k);
      assert slots[..|slots| - 1][k] == slots[k];
    }
  }

  /** Every slot of the response, in order, with its answer. */
  ghost predicate Answers(outcomes: seq<Outcome>, layout: seq<SlotPlan>, lookups: Lookups,
                          flight: Entries)
  {
    && |outcomes| == |layout|
    && forall i: nat :: i < |layout| ==> outcomes[i] == Outcome(layout[i].meta, Answer(layout[i], lookups(i), flight))
  }

  /** No answer had to be made up because the flight left a key out. */
  ghost predicate NothingOmitted(layout: seq<SlotPlan>, lookups: Lookups, flight: Entries) {
    forall i: nat :: i < |layout| && IsMissing(layout[i], lookups(i)) ==> layout[i].work.value.key in flight
  }

  lemma BuiltIsHalfway(b: Building, layout: seq<SlotPlan>, lookups: Lookups)
    requires Built(b, layout, |layout|)
    ensures Halfway(b.results, [], b.slots, layout, lookups)
  {
    WorkOfExact(layout);
    assert Waiting<(WorkSlot, bool)>([]) + Waiting(b.slots) == Waiting(b.slots);
    hide WorkOf, Waiting;
  }

  /** Every queued piece of work carries the job planned for its epoch and generator. */
  ghost predicate WorkFits(layout: seq<SlotPlan>, planning: Planning, epochs: nat, generators: nat) {
    forall i :: 0 <= i < |layout| && layout[i].work.Ok? ==> FitsPlanning(layout[i].work.value, planning, epochs, generators)
  }

  predicate FitsPlanning(work: WorkSlot, planning: Planning, epochs: nat, generators: nat) {
    var planned := planning((work.epoch, work.generator));
    work.epoch < epochs && work.generator < generators && planned.Ok? && work.job == planned.value
  }

  lemma {:induction false} LayoutFits(epochs: seq<Epoch>, generators: seq<Generator>, keys: Keys, planning: Planning,
                                      n: nat)
    requires n <= |epochs|
    ensures WorkFits(Layout(epochs, generators, keys, planning, n), planning, |epochs|, |generators|)
  {
    if n > 0 {
      LayoutFits(epochs, generators, keys, planning, n - 1);
      EpochFits(epochs[n - 1].plan.index, n - 1, |epochs|, generators, keys, planning, |generators|);
      hide EpochSlots, FitsPlanning;
    }
  }

  lemma {:induction false} EpochFits(index: nat, e: nat, epochs: nat, generators: seq<Generator>, keys: Keys,
                                     planning: Planning, n: nat)
    requires n <= |generators| && e < epochs
    ensures WorkFits(EpochSlots(index, e, generators, keys, planning, n), planning, epochs, |generators|)
  {
    if n > 0 {
      EpochFits(index, e, epochs, generators, keys, planning, n - 1);
      var kinds := OutputKinds(generators[n - 1]);
      KindsFit(index, e, n - 1, epochs, |generators|, kinds, keys, planning, |kinds|);
      hide KindSlots, OutputKinds, FitsPlanning;
    }
  }

  lemma {:induction false} KindsFit(index: nat, e: nat, g: nat, epochs: nat, generators: nat, kinds: seq<Kind>,
                                    keys: Keys, planning: Planning, n: nat)
    requires n <= |kinds| && e < epochs && g < generators
    ensures WorkFits(KindSlots(index, e, g, kinds, keys, planning((e, g)), n), planning, epochs, generators)
  {
    if n > 0 { KindsFit(index, e, g, epochs, generators, kinds, keys, planning, n - 1); }
  }

  /** Work fitted to the planning runs on plans of its own epoch. */
  lemma FitsEpoch(work: WorkSlot, planning: Planning, epochs: seq<Epoch>, generators: seq<Generator>, l: Limits)
    requires Ready(epochs) && PlansOf(planning, epochs, generators, l) && FitsPlanning(work, planning, |epochs|, |generators|)
    ensures FromEpoch(work, epochs, l)
  {
    var e, g := work.epoch, work.generator;
    var planned := planning((e, g));
    assert PlansAt(planning, epochs, generators, l, e, g);
    hide PlansOf, SoundPlan, Ready, PlanRefused;
    var p :| PlanOutcomeOn(generators[g], epochs[e].plan, epochs[e].image, l, p, Ok((planned.value.plan, planned.value.generator)));
    PreparedWorksOn(generators[g], planned.value.generator, epochs[e].plan, epochs[e].image, l, p);
  }

  /** Preparation changes nothing that the choice of frames depends on. */
  lemma PreparedWorksOn(g: Generator, q: Generator, plan: EpochPlan, image: Size, l: Limits, p: EpochPlan)
    requires SoundPlan(plan) && WorksOn(g, plan, image, l, p) && p.frames != [] && Prepared(g, q, SourceOf(p, image), l)
    ensures WorksOn(q, plan, image, l, p)
  {
    assert q == g || (Normalizes(g) && Normalizes(q) && q == g.(norm := q.norm));
    hide Prepared, SoundPlan, Restrict, BoundedIndices, FrameAllowance;
  }

  lemma MissingFits(missing: seq<Missed>, layout: seq<SlotPlan>, lookups: Lookups, planning: Planning,
                    epochs: seq<Epoch>, generators: seq<Generator>, l: Limits)
    requires Missing(missing, layout, lookups) && WorkFits(layout, planning, |epochs|, |generators|)
    requires Ready(epochs) && PlansOf(planning, epochs, generators, l)
    ensures SharedJobs(SlotsOf(missing)) && Planned(SlotsOf(missing), epochs, l)
  {
    hide FromEpoch, PlansOf, Ready;
    forall slot | slot in SlotsOf(missing)
      ensures FitsPlanning(slot, planning, |epochs|, |generators|) && FromEpoch(slot, epochs, l)
    {
      var k :| 0 <= k < |missing| && SlotsOf(missing)[k] == slot;
      assert layout[missing[k].0].work == Ok(slot);
      FitsEpoch(slot, planning, epochs, generators, l);
    }
  }

  // What an outcome means

  /** An artifact of the flight: how it came about, and whether it overrode a grace period. */
  predicate Reports(available: Available, value: FlightValue, invalidated: bool) {
    && (available.disposition.CacheHit? <==> !value.generated)
    && (available.disposition.Generated? <==> value.generated && !invalidated)
    && (available.disposition.RegeneratedAfterInvalidation? <==> value.generated && invalidated)
    && available.graceOverridden == value.graceOverridden
  }

  /** The outcome of one epoch, generator and kind, in terms of its planning, its lookup and its key's entry. */
  predicate OutcomeMeans(outcome: Outcome, epoch: Epoch, g: nat, kind: Kind, planned: Result<Job>, lookup: Result<Lookup>,
                         key: Key, flight: Entries)
  {
    && outcome.meta == Meta(epoch.plan.index, g, kind)
    && if planned.Err? then outcome.value == Err(planned.error)
       else if lookup == Ok(Hit) then outcome.value == Ok(Available(CacheHit, false))
       else
         && lookup.Ok? && key in flight
         && (flight[key].Err? ==> outcome.value == Err(flight[key].error))
         && (flight[key].Ok? ==> outcome.value.Ok? && Reports(outcome.value.value, flight[key].value, lookup.value.Invalidated?))
  }

  /** The outcome at the position of an epoch, generator and kind is theirs. */
  ghost predicate OutcomeAt(outcomes: seq<Outcome>, epochs: seq<Epoch>, generators: seq<Generator>, keys: Keys, planning: Planning,
                            lookups: Lookups, flight: Entries, e: nat, g: nat, k: nat)
    requires e < |epochs| && g < |generators| && k < |OutputKinds(generators[g])|
  {
    var at, kind := Position(generators, e, g, k), OutputKinds(generators[g])[k];
    at < |outcomes| && OutcomeMeans(outcomes[at], epochs[e], g, kind, planning((e, g)), lookups(at), keys(e, g, kind), flight)
  }

  /** Every epoch, generator and kind has its outcome, and there are no others. */
  ghost predicate OutcomesMean(outcomes: seq<Outcome>, epochs: seq<Epoch>, generators: seq<Generator>, keys: Keys, planning: Planning,
                               lookups: Lookups, flight: Entries)
  {
    && |outcomes| == |epochs| * KindCount(generators, |generators|)
    && forall e: nat, g: nat, k: nat :: e < |epochs| && g < |generators| && k < |OutputKinds(generators[g])| ==>
         OutcomeAt(outcomes, epochs, generators, keys, planning, lookups, flight, e, g, k)
  }

  lemma AnswersMean(outcomes: seq<Outcome>, epochs: seq<Epoch>, generators: seq<Generator>, keys: Keys, planning: Planning,
                    lookups: Lookups, flight: Entries)
    requires var layout := Layout(epochs, generators, keys, planning, |epochs|);
      && Answers(outcomes, layout, lookups, flight) && NothingOmitted(layout, lookups, flight)
      && forall error :: !LookupFails(layout, lookups, error)
    ensures OutcomesMean(outcomes, epochs, generators, keys, planning, lookups, flight)
  {
    LayoutCount(epochs, generators, keys, planning, |epochs|);
    hide Layout, Position, KindCount, OutputKinds, PlannedSlot, Answer, LookupFails, OutcomeMeans;
    forall e: nat, g: nat, k: nat | e < |epochs| && g < |generators| && k < |OutputKinds(generators[g])|
      ensures OutcomeAt(outcomes, epochs, generators, keys, planning, lookups, flight, e, g, k)
    {
      LayoutAt(epochs, generators, keys, planning, |epochs|, e, g, k);
      AnswerMeans(outcomes, Layout(epochs, generators, keys, planning, |epochs|), lookups, flight, Position(generators, e, g, k),
                  epochs[e], e, g, OutputKinds(generators[g])[k], keys, planning((e, g)));
    }
  }

  lemma AnswerMeans(outcomes: seq<Outcome>, layout: seq<SlotPlan>, lookups: Lookups, flight: Entries, at: nat,
                    epoch: Epoch, e: nat, g: nat, kind: Kind, keys: Keys, planned: Result<Job>)
    requires Answers(outcomes, layout, lookups, flight) && NothingOmitted(layout, lookups, flight)
    requires forall error :: !LookupFails(layout, lookups, error)
    requires SlotAt(layout, at, PlannedSlot(epoch, e, g, kind, keys, planned))
    ensures at < |outcomes| && OutcomeMeans(outcomes[at], epoch, g, kind, planned, lookups(at), keys(e, g, kind), flight)
  {
    if planned.Ok? && lookups(at).Err? {
      assert FailsAt(layout, lookups, at, lookups(at).error);
      assert LookupFails(layout, lookups, lookups(at).error);
      assert false;
    }
  }

  /** The request that leads a flight: the flight runs its slots on its epochs in its environment. */
  datatype Leader = Leader(slots: seq<WorkSlot>, epochs: seq<Epoch>, env: Env)

  /** The registry joins only requests for the same keys in the same order. */
  ghost predicate Joinable(leader: Leader, missing: seq<Missed>, l: Limits) {
    && SharedJobs(leader.slots) && Planned(leader.slots, leader.epochs, l) && |leader.slots| == |missing|
    && forall k :: 0 <= k < |missing| ==> leader.slots[k].key == missing[k].1.0.key
  }

  /** What the waiting slots get: nothing to wait for, an interruption, or the result of the flight they lead or join. */
  function FlightFor(missing: seq<Missed>, env: Env, l: Limits, joined: Option<Leader>,
                     interrupted: Option<ErrorCode>): Result<Entries> {
    if missing == [] then Ok(map[])
    else if interrupted.Some? then Err(interrupted.value)
    else if joined.Some? then FlightResult(joined.value.slots, joined.value.env, l)
    else FlightResult(SlotsOf(missing), env, l)
  }

  /** A flight that was led or joined and succeeds answers every key waited for. */
  lemma FlightAnswersMissing(missing: seq<Missed>, env: Env, l: Limits, joined: Option<Leader>,
                             interrupted: Option<ErrorCode>)
    requires joined.Some? ==> Joinable(joined.value, missing, l)
    requires FlightFor(missing, env, l, joined, interrupted).Ok?
    ensures forall k :: 0 <= k < |missing| ==> missing[k].1.0.key in FlightFor(missing, env, l, joined, interrupted).value
  {
    if missing != [] {
      hide FlightResult, SharedJobs, Planned;
      var slots := if joined.Some? then joined.value.slots else SlotsOf(missing);
      FlightAnswersKeys(slots, if joined.Some? then joined.value.env else env, l);
      forall k | 0 <= k < |missing| ensures missing[k].1.0.key in KeySet(slots) {
        KeyOfSlot(slots, k);
      }
    }
  }

  /** The waiting slots' results, from the flight this request leads or the one it joins. */
  method AwaitFlight(missing: seq<Missed>, ghost epochs: seq<Epoch>, env: Env, l: Limits,
                     joined: Option<Leader>, interrupted: Option<ErrorCode>)
    returns (flight: Result<Entries>)
    requires SharedJobs(SlotsOf(missing)) && Planned(SlotsOf(missing), epochs, l)
    requires joined.Some? ==> Joinable(joined.value, missing, l)
    ensures flight == FlightFor(missing, env, l, joined, interrupted)
    ensures flight.Ok? ==> forall k :: 0 <= k < |missing| ==> missing[k].1.0.key in flight.value
  {
    if FlightFor(missing, env, l, joined, interrupted).Ok? {
      FlightAnswersMissing(missing, env, l, joined, interrupted);
    }
    hide SharedJobs, Planned, FlightResult, FlightFails, Caused;
    if missing == [] {
      return Ok(map[]);
    }
    var result, sent, handed;
    if joined.Some? {
      result, sent, handed := RunFlight(joined.value.slots, joined.value.epochs, joined.value.env, l);
    } else {
      result, sent, handed := RunFlight(SlotsOf(missing), epochs, env, l);
    }
    flight := if interrupted.Some? then Err(interrupted.value) else result;
  }

  /**
   * Why a request fails with an error: too many outputs, a planning error when all are required, a
   * lookup error, the flight, or an entry that is fatal or, when all are required, any error.
   */
  ghost predicate RequestFails(error: ErrorCode, epochs: seq<Epoch>, generators: seq<Generator>, keys: Keys,
                               planning: Planning, requireAll: bool, 
                               maxOutputs: nat, lookups: Lookups, missing: seq<Missed>, flight: Result<Entries>)
  {
    var layout := Layout(epochs, generators, keys, planning, |epochs|);
    || (|layout| > maxOutputs && error == ResourceLimitExceeded)
    || PlanningStop(planning, |epochs|, |generators|, requireAll) == Some(error)
    || LookupFails(layout, lookups, error)
    || flight == Err(error)
    || (flight.Ok? && SomeBlocks(missing, flight.value, requireAll, error))
  }

  /** The work a request waits for. */
  function Awaited(epochs: seq<Epoch>, generators: seq<Generator>, keys: Keys, planning: Planning,
                   lookups: Lookups): seq<Missed>
  {
    MissingOf(WorkOf(Layout(epochs, generators, keys, planning, |epochs|)), lookups)
  }

  /** Planning, lookups and the flight, slot by slot. */
  method AnswerSlots(epochs: seq<Epoch>, generators: seq<Generator>, keys: Keys, ghost planning: Planning,
                       requireAll: bool, maxOutputs: nat, lookups: Lookups, env: Env, l: Limits,
                       joined: Option<Leader>, interrupted: Option<ErrorCode>)
    returns (r: Result<seq<Outcome>>, grace: bool)
    requires ValidLimits(l) && Ready(epochs) && PlansOf(planning, epochs, generators, l)
    requires joined.Some? ==> Joinable(joined.value, Awaited(epochs, generators, keys, planning, lookups), l)
    ensures var layout, missing := Layout(epochs, generators, keys, planning, |epochs|), Awaited(epochs, generators, keys, planning, lookups);
      var flight := FlightFor(missing, env, l, joined, interrupted);
      && (r.Err? ==> RequestFails(r.error, epochs, generators, keys, planning, requireAll, maxOutputs, lookups, missing, flight))
      && (r.Ok? ==> forall error :: !RequestFails(error, epochs, generators, keys, planning, requireAll, maxOutputs, lookups, missing, flight))
      && (r.Ok? ==> flight.Ok? && Answers(r.value, layout, lookups, flight.value) && NothingOmitted(layout, lookups, flight.value))
      && (r.Ok? ==> (grace <==> exists i :: 0 <= i < |r.value| && GraceOverridden(r.value[i])))
  {
    ghost var layout := Layout(epochs, generators, keys, planning, |epochs|);
    LayoutCount(epochs, generators, keys, planning, |epochs|);
    LayoutFits(epochs, generators, keys, planning, |epochs|);
    grace := false;
    hide *;
    if |epochs| * CountKinds(generators) > maxOutputs {
      ReasonToFail(ResourceLimitExceeded, epochs, generators, keys, planning, requireAll, maxOutputs, lookups, env, l, joined, interrupted);
      return Err(ResourceLimitExceeded), false;
    }
    var building := BuildSlots(epochs, generators, keys, planning, requireAll, l);
    if building.Err? {
      ReasonToFail(building.error, epochs, generators, keys, planning, requireAll, maxOutputs, lookups, env, l, joined, interrupted);
      return Err(building.error), false;
    }
    BuiltIsHalfway(building.value, layout, lookups);
    BuiltMetadata(building.value, layout);
    var results, missing, failure := LookUp(building.value.results, building.value.slots, layout, lookups);
    if failure.Some? {
      ReasonToFail(failure.value, epochs, generators, keys, planning, requireAll, maxOutputs, lookups, env, l, joined, interrupted);
      return Err(failure.value), false;
    }
    assert missing == Awaited(epochs, generators, keys, planning, lookups) by { AwaitedIs(epochs, generators, keys, planning, lookups); }
    HalfwayMissing(results, missing, layout, lookups);
    MissingFits(missing, layout, lookups, planning, epochs, generators, l);
    r, grace := Respond(results, missing, building.value.metadata, requireAll, layout, lookups, epochs, env, l, joined, interrupted);
    if r.Err? {
      ReasonToFail(r.error, epochs, generators, keys, planning, requireAll, maxOutputs, lookups, env, l, joined, interrupted);
    } else {
      NoReason(epochs, generators, keys, planning, requireAll, maxOutputs, lookups, env, l, joined, interrupted);
    }
  }

  lemma AwaitedIs(epochs: seq<Epoch>, generators: seq<Generator>, keys: Keys, planning: Planning, lookups: Lookups)
    ensures Awaited(epochs, generators, keys, planning, lookups)
      == MissingOf(WorkOf(Layout(epochs, generators, keys, planning, |epochs|)), lookups)
  {
  }

  /** Each of the reasons makes the request fail with its error. */
  lemma ReasonToFail(error: ErrorCode, epochs: seq<Epoch>, generators: seq<Generator>, keys: Keys, planning: Planning, requireAll: bool,
                     maxOutputs: nat, lookups: Lookups, env: Env, l: Limits, joined: Option<Leader>, interrupted: Option<ErrorCode>)
    requires var layout, missing := Layout(epochs, generators, keys, planning, |epochs|), Awaited(epochs, generators, keys, planning, lookups);
      var flight := FlightFor(missing, env, l, joined, interrupted);
      || (|layout| > maxOutputs && error == ResourceLimitExceeded)
      || PlanningStop(planning, |epochs|, |generators|, requireAll) == Some(error)
      || LookupFails(layout, lookups, error)
      || flight == Err(error)
      || (flight.Ok? && SomeBlocks(missing, flight.value, requireAll, error))
    ensures var missing := Awaited(epochs, generators, keys, planning, lookups);
      RequestFails(error, epochs, generators, keys, planning, requireAll, maxOutputs, lookups, missing,
                   FlightFor(missing, env, l, joined, interrupted))
  {
    hide Layout, Awaited, FlightFor, PlanningStop, LookupFails, SomeBlocks;
  }

  /** Without a reason the request does not fail. */
  lemma NoReason(epochs: seq<Epoch>, generators: seq<Generator>, keys: Keys, planning: Planning, requireAll: bool, maxOutputs: nat,
                 lookups: Lookups, env: Env, l: Limits, joined: Option<Leader>, interrupted: Option<ErrorCode>)
    requires var layout, missing := Layout(epochs, generators, keys, planning, |epochs|), Awaited(epochs, generators, keys, planning, lookups);
      var flight := FlightFor(missing, env, l, joined, interrupted);
      && |layout| <= maxOutputs && PlanningStop(planning, |epochs|, |generators|, requireAll).None?
      && (forall error :: !LookupFails(layout, lookups, error))
      && flight.Ok? && forall error :: !SomeBlocks(missing, flight.value, requireAll, error)
    ensures var missing := Awaited(epochs, generators, keys, planning, lookups);
      forall error :: !RequestFails(error, epochs, generators, keys, planning, requireAll, maxOutputs, lookups, missing,
                                    FlightFor(missing, env, l, joined, interrupted))
  {
    hide Layout, Awaited, FlightFor, PlanningStop, LookupFails, SomeBlocks;
  }

  /**
   * A request fails with an error that one of the stated reasons gives, and succeeds only when none
   * of them applies. It then has exactly one outcome for every epoch, generator and kind in that
   * order, each the answer its planning, lookup and flight give, and no key is ever found missing,
   * whether the request leads its flight or joins another's.
   */
  method GenerateInner(epochs: seq<Epoch>, generators: seq<Generator>, keys: Keys, ghost planning: Planning,
                       requireAll: bool, maxOutputs: nat, lookups: Lookups, env: Env, l: Limits,
                       joined: Option<Leader>, interrupted: Option<ErrorCode>)
    returns (r: Result<seq<Outcome>>, grace: bool)
    requires ValidLimits(l) && Ready(epochs) && PlansOf(planning, epochs, generators, l)
    requires joined.Some? ==> Joinable(joined.value, Awaited(epochs, generators, keys, planning, lookups), l)
    ensures var missing := Awaited(epochs, generators, keys, planning, lookups);
      var flight := FlightFor(missing, env, l, joined, interrupted);
      && (r.Err? ==> RequestFails(r.error, epochs, generators, keys, planning, requireAll, maxOutputs, lookups, missing, flight))
      && (r.Ok? ==> forall error :: !RequestFails(error, epochs, generators, keys, planning, requireAll, maxOutputs, lookups, missing, flight))
      && (r.Ok? ==> flight.Ok? && OutcomesMean(r.value, epochs, generators, keys, planning, lookups, flight.value))
      && (r.Ok? ==> (grace <==> exists i :: 0 <= i < |r.value| && GraceOverridden(r.value[i])))
  {
    r, grace := AnswerSlots(epochs, generators, keys, planning, requireAll, maxOutputs, lookups, env, l, joined, interrupted);
    if r.Ok? {
      ghost var missing := Awaited(epochs, generators, keys, planning, lookups);
      NoLookupFailed(epochs, generators, keys, planning, requireAll, maxOutputs, lookups, missing,
                     FlightFor(missing, env, l, joined, interrupted));
      hide *;
      AnswersMean(r.value, epochs, generators, keys, planning, lookups, FlightFor(missing, env, l, joined, interrupted).value);
    }
  }

  lemma NoLookupFailed(epochs: seq<Epoch>, generators: seq<Generator>, keys: Keys, planning: Planning, requireAll: bool, maxOutputs: nat,
                       lookups: Lookups, missing: seq<Missed>, flight: Result<Entries>)
    requires forall error :: !RequestFails(error, epochs, generators, keys, planning, requireAll, maxOutputs, lookups, missing, flight)
    ensures forall error :: !LookupFails(Layout(epochs, generators, keys, planning, |epochs|), lookups, error)
  {
    hide LookupFails, Layout;
    forall error ensures !LookupFails(Layout(epochs, generators, keys, planning, |epochs|), lookups, error) {
      assert !RequestFails(error, epochs, generators, keys, planning, requireAll, maxOutputs, lookups, missing, flight);
    }
  }

  lemma HalfwayMissing(results: seq<Filled>, missing: seq<Missed>, layout: seq<SlotPlan>, lookups: Lookups)
    requires Halfway(results, missing, [], layout, lookups)
    ensures Missing(missing, layout, lookups)
  {
  }

  /** From the looked-up slots to the outcomes. */
  method Respond(results: seq<Filled>, missing: seq<Missed>, metadata: seq<Meta>, requireAll: bool,
                 ghost layout: seq<SlotPlan>, ghost lookups: Lookups, ghost epochs: seq<Epoch>,
                 env: Env, l: Limits, joined: Option<Leader>, interrupted: Option<ErrorCode>)
    returns (r: Result<seq<Outcome>>, grace: bool)
    requires Halfway(results, missing, [], layout, lookups)
    requires SharedJobs(SlotsOf(missing)) && Planned(SlotsOf(missing), epochs, l)
    requires joined.Some? ==> Joinable(joined.value, missing, l)
    requires |metadata| == |layout| && forall i :: 0 <= i < |layout| ==> metadata[i] == layout[i].meta
    ensures var flight := FlightFor(missing, env, l, joined, interrupted);
      && (r.Err? ==> flight == Err(r.error) || (flight.Ok? && SomeBlocks(missing, flight.value, requireAll, r.error)))
      && (r.Ok? ==> flight.Ok? && forall error :: !SomeBlocks(missing, flight.value, requireAll, error))
      && (r.Ok? ==> Answers(r.value, layout, lookups, flight.value) && NothingOmitted(layout, lookups, flight.value))
    ensures r.Ok? ==> (grace <==> exists i :: 0 <= i < |r.value| && GraceOverridden(r.value[i]))
  {
    hide Halfway, Missing, Answered, Waiting, SharedJobs, Planned, Joinable, NothingOmitted, Answers, Answer,
      Blocks, Overridden, GraceOverridden, FlightFor;
    AnsweredForAnyFlight(results, missing, layout, lookups, map[]);
    grace := false;
    var flight := AwaitFlight(missing, epochs, env, l, joined, interrupted);
    if flight.Err? {
      return Err(flight.error), false;
    }
    AnsweredForAnyFlight(results, missing, layout, lookups, flight.value);
    NothingIsOmitted(results, missing, layout, lookups, flight.value);
    var taken, blocked := TakeResults(results, missing, flight.value, requireAll, layout, lookups);
    if blocked.Some? {
      return Err(blocked.value), false;
    }
    AllAnswered(taken, layout, lookups, flight.value);
    grace := AnyGrace(taken);
    var outcomes := Collect(taken, metadata);
    OutcomesAnswer(outcomes, taken, metadata, layout, lookups, flight.value);
    r := Ok(outcomes);
  }

  lemma OutcomesAnswer(outcomes: seq<Outcome>, taken: seq<Filled>, metadata: seq<Meta>, layout: seq<SlotPlan>,
                       lookups: Lookups, flight: Entries)
    requires |outcomes| == |taken| == |metadata| == |layout|
    requires forall i: nat :: i < |layout| ==> taken[i] == Some(Answer(layout[i], lookups(i), flight))
    requires forall i :: 0 <= i < |layout| ==> metadata[i] == layout[i].meta
    requires forall i :: 0 <= i < |taken| ==> outcomes[i] == Outcome(metadata[i], taken[i].value)
    ensures Answers(outcomes, layout, lookups, flight)
    ensures (exists i :: 0 <= i < |taken| && Overridden(taken[i])) <==> exists i :: 0 <= i < |outcomes| && GraceOverridden(outcomes[i])
  {
    hide Answer;
    assert forall i :: 0 <= i < |taken| ==> Overridden(taken[i]) == GraceOverridden(outcomes[i]);
  }

  lemma AllAnswered(results: seq<Filled>, layout: seq<SlotPlan>, lookups: Lookups, flight: Entries)
    requires Answered(results, {}, layout, lookups, flight)
    ensures |results| == |layout|
    ensures forall i: nat :: i < |layout| ==> results[i] == Some(Answer(layout[i], lookups(i), flight))
  {
  }

  predicate GraceOverridden(outcome: Outcome) {
    outcome.value.Ok? && outcome.value.value.graceOverridden
  }

  method AnyGrace(results: seq<Filled>) returns (grace: bool)
    ensures grace <==> exists i :: 0 <= i < |results| && Overridden(results[i])
  {
    grace := false;
    var i := 0;
    while i < |results|
      invariant 0 <= i <= |results|
      invariant grace <==> exists j :: 0 <= j < i && Overridden(results[j])
    {
      grace := grace || Overridden(results[i]);
      i := i + 1;
    }
  }

  predicate Overridden(result: Filled) {
    result.Some? && result.value.Ok? && result.value.value.graceOverridden
  }

  /** Zipping results and metadata; every slot has been assigned by then. */
  method Collect(results: seq<Filled>, metadata: seq<Meta>) returns (outcomes: seq<Outcome>)
    requires |results| == |metadata| && forall i :: 0 <= i < |results| ==> results[i].Some?
    ensures |outcomes| == |results|
    ensures forall i :: 0 <= i < |results| ==> outcomes[i] == Outcome(metadata[i], results[i].value)
  {
    outcomes := [];
    var i := 0;
    while i < |results|
      invariant 0 <= i <= |results| && |outcomes| == i
      invariant forall j :: 0 <= j < i ==> outcomes[j] == Outcome(metadata[j], results[j].value)
    {
      outcomes := outcomes + [Outcome(metadata[i], results[i].value)];
      i := i + 1;
    }
  }

  lemma BuiltMetadata(b: Building, layout: seq<SlotPlan>)
    requires Built(b, layout, |layout|)
    ensures |b.metadata| == |layout| && forall i :: 0 <= i < |layout| ==> b.metadata[i] == layout[i].meta
    ensures b.slots == WorkOf(layout)
  {
  }

  lemma NothingIsOmitted(results: seq<Filled>, missing: seq<Missed>, layout: seq<SlotPlan>,
                         lookups: Lookups, flight: Entries)
    requires Halfway(results, missing, [], layout, lookups)
    requires forall k :: 0 <= k < |missing| ==> missing[k].1.0.key in flight
    ensures NothingOmitted(layout, lookups, flight)
  {
    assert Waiting(missing) + Waiting<WorkSlot>([]) == Waiting(missing);
    forall i: nat | i < |layout| && IsMissing(layout[i], lookups(i)) ensures layout[i].work.value.key in flight {
      assert i in Waiting(missing);
      var k :| 0 <= k < |missing| && missing[k].0 == i;
    }
  }
}
