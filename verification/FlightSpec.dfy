/** What one flight answers, as a function of its slots and of everything outside it. */
module FlightSpec {
  import opened Common
  import opened EpochTypes
  import opened EpochSelection
  import opened EpochBounded
  import opened Budget
  import opened GeneratorPlan

  type Key = nat

  /** An epoch plan with the image size of its descriptor. */
  datatype Epoch = Epoch(plan: EpochPlan, image: Size)

  /** Generators only work on plans with frames. */
  type FramedPlan = plan: EpochPlan | plan.frames != []
    witness EpochPlan(0, [FrameMeta(0, 0, 0, 0, 0, 1, 1, 0)], [], [], 4, [0], [0])

  /** A prepared generator and the frames it works on. */
  datatype Job = Job(generator: Generator, plan: FramedPlan, image: Size)

  datatype WorkSlot = WorkSlot(epoch: nat, generator: nat, kind: Kind, key: Key, job: Job)

  datatype FlightValue = FlightValue(generated: bool, graceOverridden: bool)

  type Entries = map<Key, Result<FlightValue>>

  datatype Lookup = Hit | Miss | Invalidated

  datatype Publish = Published(graceOverridden: bool) | Existing

  /** How the asynchronous stages of one group end; None is success. */
  datatype GroupEnv = GroupEnv(
    cancelled: bool,
    memory: Option<ErrorCode>,
    decode: Option<ErrorCode>,
    normalize: Option<ErrorCode>,
    maskPermit: Option<ErrorCode>,
    analysis: Option<ErrorCode>,
    generatorPermit: Option<ErrorCode>,
    generate: Result<map<Kind, nat>>)

  datatype SlotEnv = SlotEnv(cancelled: bool, publication: Option<ErrorCode>, publish: Result<Publish>)

  /** Everything outside the flight: the store, the clock, the caller's cancellation and the renderer. */
  datatype Env = Env(lookup: WorkSlot -> Result<Lookup>, group: ((nat, nat)) -> GroupEnv, slot: WorkSlot -> SlotEnv)

  predicate IsFatal(error: ErrorCode) {
    error.Cancelled? || error.NotFound?
  }

  function IfFatal(error: Option<ErrorCode>): Option<ErrorCode> {
    if error.Some? && IsFatal(error.value) then error else None
  }

  function KeySet(slots: seq<WorkSlot>): set<Key> {
    if slots == [] then {} else KeySet(slots[..|slots| - 1]) + {slots[|slots| - 1].key}
  }

  lemma {:induction false} KeySetMembers(slots: seq<WorkSlot>, key: Key)
    ensures key in KeySet(slots) <==> exists k :: 0 <= k < |slots| && slots[k].key == key
  {
    if slots != [] {
      var init := slots[..|slots| - 1];
      KeySetMembers(init, key);
      if key in KeySet(init) { var k :| 0 <= k < |init| && init[k].key == key; assert slots[k].key == key; }
      if k :| 0 <= k < |slots| && slots[k].key == key { if k < |init| { assert init[k].key == key; } }
    }
  }

  lemma SameKeySet(a: seq<WorkSlot>, b: seq<WorkSlot>)
    requires multiset(a) == multiset(b)
    ensures KeySet(a) == KeySet(b)
  {
    forall key ensures key in KeySet(a) <==> key in KeySet(b) {
      KeySetMembers(a, key);
      KeySetMembers(b, key);
      if k :| 0 <= k < |a| && a[k].key == key { assert a[k] in multiset(b); }
      if k :| 0 <= k < |b| && b[k].key == key { assert b[k] in multiset(a); }
    }
  }

  // Lookups

  /** The slots the store has no artifact for. */
  function Pending(slots: seq<WorkSlot>, env: Env): seq<WorkSlot> {
    if slots == [] then []
    else
      var last := slots[|slots| - 1];
      Pending(slots[..|slots| - 1], env) + if env.lookup(last) == Ok(Hit) then [] else [last]
  }

  function Hits(slots: seq<WorkSlot>, env: Env): Entries {
    if slots == [] then map[]
    else
      var last, before := slots[|slots| - 1], Hits(slots[..|slots| - 1], env);
      if env.lookup(last) == Ok(Hit) then before[last.key := Ok(FlightValue(false, false))] else before
  }

  function LookupError(slots: seq<WorkSlot>, env: Env): Option<ErrorCode> {
    if slots == [] then None
    else
      var last, before := slots[|slots| - 1], LookupError(slots[..|slots| - 1], env);
      if before.Some? then before else if env.lookup(last).Err? then Some(env.lookup(last).error) else None
  }

  // Grouping

  function GroupOf(slot: WorkSlot): (nat, nat) {
    (slot.epoch, slot.generator)
  }

  predicate Before(a: (nat, nat), b: (nat, nat)) {
    a.0 < b.0 || (a.0 == b.0 && a.1 < b.1)
  }

  predicate NonEmpty(groups: seq<seq<WorkSlot>>) {
    forall i :: 0 <= i < |groups| ==> groups[i] != []
  }

  /** Non-empty groups in strictly increasing key order, each holding slots of one key. */
  predicate Grouped(groups: seq<seq<WorkSlot>>) {
    && NonEmpty(groups)
    && (forall i, j :: 0 <= i < |groups| && 0 <= j < |groups[i]| ==> GroupOf(groups[i][j]) == GroupOf(groups[i][0]))
    && forall i, j :: 0 <= i < j < |groups| ==> Before(GroupOf(groups[i][0]), GroupOf(groups[j][0]))
  }

  /** Adding a slot to the ordered map from group keys to slots. */
  function InsertSlot(groups: seq<seq<WorkSlot>>, slot: WorkSlot): (r: seq<seq<WorkSlot>>)
    requires NonEmpty(groups)
    ensures NonEmpty(r)
  {
    if groups == [] || Before(GroupOf(slot), GroupOf(groups[0][0])) then [[slot]] + groups
    else if GroupOf(slot) == GroupOf(groups[0][0]) then [groups[0] + [slot]] + groups[1..]
    else [groups[0]] + InsertSlot(groups[1..], slot)
  }

  function GroupsOf(pending: seq<WorkSlot>): (r: seq<seq<WorkSlot>>)
    ensures NonEmpty(r)
  {
    if pending == [] then [] else InsertSlot(GroupsOf(pending[..|pending| - 1]), pending[|pending| - 1])
  }

  /** The slots of all groups in the order the flight works through them. */
  function Flat(groups: seq<seq<WorkSlot>>): seq<WorkSlot> {
    if groups == [] then [] else groups[0] + Flat(groups[1..])
  }

  lemma {:induction false} FlatAppend(groups: seq<seq<WorkSlot>>, i: nat)
    requires i < |groups|
    ensures Flat(groups[..i + 1]) == Flat(groups[..i]) + groups[i]
  {
    if i == 0 {
      assert groups[..1] == [groups[0]] && groups[..0] == [];
      assert Flat([groups[0]]) == groups[0] + Flat([groups[0]][1..]);
    } else {
      FlatAppend(groups[1..], i - 1);
      assert groups[..i + 1][1..] == groups[1..][..i] && groups[..i][1..] == groups[1..][..i - 1];
    }
  }

  lemma {:induction false} InsertKeepsSlots(groups: seq<seq<WorkSlot>>, slot: WorkSlot)
    requires NonEmpty(groups)
    ensures multiset(Flat(InsertSlot(groups, slot))) == multiset(Flat(groups)) + multiset{slot}
  {
    var r := InsertSlot(groups, slot);
    if groups == [] || Before(GroupOf(slot), GroupOf(groups[0][0])) {
      assert r[1..] == groups;
    } else if GroupOf(slot) == GroupOf(groups[0][0]) {
      assert r[1..] == groups[1..];
    } else {
      InsertKeepsSlots(groups[1..], slot);
      assert r[1..] == InsertSlot(groups[1..], slot);
    }
  }

  /** Grouping neither loses nor invents a slot. */
  lemma {:induction false} GroupsKeepSlots(pending: seq<WorkSlot>)
    ensures multiset(Flat(GroupsOf(pending))) == multiset(pending)
  {
    if pending != [] {
      var init := pending[..|pending| - 1];
      GroupsKeepSlots(init);
      InsertKeepsSlots(GroupsOf(init), pending[|pending| - 1]);
      assert pending == init + [pending[|pending| - 1]];
    }
  }

  lemma {:induction false} InsertKeepsGroups(groups: seq<seq<WorkSlot>>, slot: WorkSlot)
    requires Grouped(groups)
    ensures Grouped(InsertSlot(groups, slot))
    ensures groups != [] && !Before(GroupOf(slot), GroupOf(groups[0][0])) ==>
      InsertSlot(groups, slot) != [] && GroupOf(InsertSlot(groups, slot)[0][0]) == GroupOf(groups[0][0])
  {
    if groups == [] || Before(GroupOf(slot), GroupOf(groups[0][0])) {
      hide InsertSlot;
      FrontGroup(groups, slot);
    } else if GroupOf(slot) == GroupOf(groups[0][0]) {
      SameGroup(groups, slot);
    } else {
      assert Grouped(groups[1..]);
      InsertKeepsGroups(groups[1..], slot);
      FirstKeyStaysLow(groups, slot, InsertSlot(groups[1..], slot));
      assert InsertSlot(groups, slot) == [groups[0]] + InsertSlot(groups[1..], slot);
      hide InsertSlot, Grouped;
    }
  }

  lemma FrontGroup(groups: seq<seq<WorkSlot>>, slot: WorkSlot)
    requires Grouped(groups) && (groups == [] || Before(GroupOf(slot), GroupOf(groups[0][0])))
    ensures Grouped([[slot]] + groups) && InsertSlot(groups, slot) == [[slot]] + groups
  {
  }

  lemma SameGroup(groups: seq<seq<WorkSlot>>, slot: WorkSlot)
    requires Grouped(groups) && groups != [] && GroupOf(slot) == GroupOf(groups[0][0])
    ensures Grouped([groups[0] + [slot]] + groups[1..])
  {
    var r := [groups[0] + [slot]] + groups[1..];
    assert forall i :: 0 < i < |r| ==> r[i] == groups[i];
  }

  lemma FirstKeyStaysLow(groups: seq<seq<WorkSlot>>, slot: WorkSlot, rest: seq<seq<WorkSlot>>)
    requires Grouped(groups) && groups != [] && Grouped(rest)
    requires Before(GroupOf(groups[0][0]), GroupOf(slot))
    requires rest == InsertSlot(groups[1..], slot)
    ensures Grouped([groups[0]] + rest)
  {
    assert rest != [];
    var first := GroupOf(rest[0][0]);
    assert first == GroupOf(slot) || first == GroupOf(groups[1][0]);
    assert Before(GroupOf(groups[0][0]), first);
  }

  lemma {:induction false} GroupsAreGrouped(pending: seq<WorkSlot>)
    ensures Grouped(GroupsOf(pending))
  {
    if pending != [] {
      GroupsAreGrouped(pending[..|pending| - 1]);
      InsertKeepsGroups(GroupsOf(pending[..|pending| - 1]), pending[|pending| - 1]);
      hide Grouped;
    }
  }

  // Whether a group runs

  /** The first of the memory, decoding and normalisation stages that fails. */
  function FirstFailure(base: nat, g: Generator, stages: GroupEnv, l: Limits): Option<ErrorCode> {
    if MemoryPermits(base, l).Err? then Some(MemoryPermits(base, l).error)
    else if stages.memory.Some? then stages.memory
    else if stages.decode.Some? then stages.decode
    else if Normalizes(g) then stages.normalize
    else None
  }

  /** The error that keeps a group from running at all, if any. */
  function Obstacle(job: Job, stages: GroupEnv, l: Limits): Option<ErrorCode> {
    var admission := AdmitGroup(job.generator, SourceOf(job.plan, job.image), l, false);
    if admission.Refused? then Some(ResourceLimitExceeded)
    else if admission.Admitted? then FirstFailure(admission.base, job.generator, stages, l)
    else None
  }

  /** Sharing masks changes neither whether a group is admitted nor what it reserves first. */
  lemma MasksDoNotDecide(p: Generator, source: Source, l: Limits, wantsSharedMask: bool)
    requires !AdmitGroup(p, source, l, wantsSharedMask).Aborts?
    ensures var a, b := AdmitGroup(p, source, l, wantsSharedMask), AdmitGroup(p, source, l, false);
      a.Refused? == b.Refused? && a.Admitted? == b.Admitted? && (a.Admitted? ==> a.base == b.base)
  {
    hide EstimatedNormalized, OutputReservation, EstimatedMask;
  }

  /**
   * A job prepared from a fitted scale is never stopped by admission: it does not abort, with masks
   * or without, and what keeps its group from running can only be a stage that fails later.
   */
  lemma FittedObstacleIsAStage(g: Generator, job: Job, stages: GroupEnv, l: Limits, wantsSharedMask: bool)
    requires ValidLimits(l) && Sized(job.plan, job.image) && job.plan.decodedBytes <= l.maxDecoded
    requires Prepared(g, job.generator, SourceOf(job.plan, job.image), l) && Normalizes(g) && g.norm.scale.FitLimits?
    ensures AdmitGroup(job.generator, SourceOf(job.plan, job.image), l, wantsSharedMask).Admitted?
    ensures Obstacle(job, stages, l) ==
      if stages.memory.Some? then stages.memory else if stages.decode.Some? then stages.decode else stages.normalize
  {
    var source := SourceOf(job.plan, job.image);
    SizedIsAccounted(job.plan, job.image);
    FittedIsAdmitted(g, job.generator, source, l, wantsSharedMask);
    FittedIsAdmitted(g, job.generator, source, l, false);
    assert Normalizes(job.generator);
    hide AdmitGroup, Prepared, Accounted, Demand;
  }

  // Shared analyses

  function PlanIdentity(plan: EpochPlan): (r: seq<(Id, nat)>)
    ensures |r| == Min(|plan.frames|, |plan.sourceIndices|)
    ensures forall k :: 0 <= k < |r| ==> r[k] == (plan.frames[k].id, plan.sourceIndices[k])
  {
    var n := if |plan.frames| <= |plan.sourceIndices| then |plan.frames| else |plan.sourceIndices|;
    seq(n, k requires 0 <= k < n => (plan.frames[k].id, plan.sourceIndices[k]))
  }

  /** What groups must have in common to share an analysis of adjacent frames. */
  datatype Cohort = Cohort(epoch: nat, norm: Normalization, noiseFloor: nat, frames: seq<(Id, nat)>)

  function CohortOf(slot: WorkSlot): Option<Cohort> {
    var g := slot.job.generator;
    if Normalizes(g) then Some(Cohort(slot.epoch, g.norm, g.noiseFloor, PlanIdentity(slot.job.plan))) else None
  }

  /**
   * Everything an analysis is computed from: the frames with their times, the declared gaps between
   * them, the normalisation of their pixels and the noise floor. Only part of it is in the cohort.
   */
  datatype AnalysisInput = AnalysisInput(
    image: Size,
    frames: seq<FrameMeta>,
    sourceIndices: seq<nat>,
    gaps: seq<DeclaredGap>,
    norm: Normalization,
    noiseFloor: nat)

  function InputOf(job: Job): AnalysisInput
    requires Normalizes(job.generator)
  {
    AnalysisInput(job.image, job.plan.frames, job.plan.sourceIndices, job.plan.gaps, job.generator.norm, job.generator.noiseFloor)
  }

  /** The analysis of adjacent pairs, with change masks if they were asked for. */
  datatype Analysis = Analysis(input: AnalysisInput, masks: bool)

  /** The job was planned on its slot's epoch. */
  ghost predicate FromEpoch(slot: WorkSlot, epochs: seq<Epoch>, l: Limits) {
    && slot.epoch < |epochs| && slot.job.image == epochs[slot.epoch].image
    && SoundPlan(epochs[slot.epoch].plan)
    && WorksOn(slot.job.generator, epochs[slot.epoch].plan, slot.job.image, l, slot.job.plan)
  }

  lemma WorkedPositions(g: Generator, plan: EpochPlan, image: Size, l: Limits, p: EpochPlan) returns (at: seq<nat>)
    requires SoundPlan(plan) && WorksOn(g, plan, image, l, p)
    ensures at != [] && Increasing(at) && InRange(at, |plan.frames|)
    ensures if |at| == |plan.frames| then p == plan else p == Restrict(plan, at)
    ensures |p.frames| == |p.sourceIndices| == |at| && forall k :: 0 <= k < |at| ==> p.sourceIndices[k] == plan.sourceIndices[at[k]]
  {
    var cap := FrameCap(g, image, l);
    if |plan.frames| <= cap {
      at := seq(|plan.frames|, k => k);
    } else {
      at := BoundedIndices(plan, cap, RequiredFrame(g));
      BoundedIndicesMeaning(plan, cap, RequiredFrame(g));
    }
    hide BoundedIndices, FrameCap;
  }

  lemma {:induction false} SamePositions(source: seq<nat>, a: seq<nat>, b: seq<nat>)
    requires Increasing(source) && InRange(a, |source|) && InRange(b, |source|) && |a| == |b|
    requires forall k :: 0 <= k < |a| ==> source[a[k]] == source[b[k]]
    ensures a == b
  {
    forall k | 0 <= k < |a| ensures a[k] == b[k] {
      assert source[a[k]] == source[b[k]];
    }
  }

  /** Two selections from one epoch with the same frame identifiers and positions are the same plan, gaps included. */
  lemma IdentityFixesPlan(g: Generator, h: Generator, plan: EpochPlan, image: Size, l: Limits, p: EpochPlan,
                          q: EpochPlan)
    requires SoundPlan(plan) && WorksOn(g, plan, image, l, p) && WorksOn(h, plan, image, l, q)
    requires PlanIdentity(p) == PlanIdentity(q)
    ensures p == q
  {
    var a := WorkedPositions(g, plan, image, l, p);
    var b := WorkedPositions(h, plan, image, l, q);
    assert |plan.sourceIndices| == |plan.frames| && Increasing(plan.sourceIndices);
    hide SoundPlan, WorksOn, Restrict;
    forall k | 0 <= k < |a| ensures plan.sourceIndices[a[k]] == plan.sourceIndices[b[k]] {
      assert PlanIdentity(p)[k].1 == PlanIdentity(q)[k].1;
    }
    SamePositions(plan.sourceIndices, a, b);
  }

  /**
   * Groups of one cohort analyse the same input, although the cohort names neither times nor gaps:
   * an analysis built for one is the analysis the other would have computed.
   */
  lemma SameCohortSameInput(a: WorkSlot, b: WorkSlot, epochs: seq<Epoch>, l: Limits)
    requires FromEpoch(a, epochs, l) && FromEpoch(b, epochs, l)
    requires CohortOf(a).Some? && CohortOf(a) == CohortOf(b)
    ensures InputOf(a.job) == InputOf(b.job)
  {
    assert Normalizes(a.job.generator) && Normalizes(b.job.generator);
    assert CohortOf(a).value.epoch == CohortOf(b).value.epoch;
    IdentityFixesPlan(a.job.generator, b.job.generator, epochs[a.epoch].plan, a.job.image, l, a.job.plan, b.job.plan);
  }

  predicate NeedsMasks(g: Generator) {
    g.DifferenceMap? || g.MotionHistory?
  }

  predicate InCohort(group: seq<WorkSlot>, c: Cohort) {
    group != [] && CohortOf(group[0]) == Some(c)
  }

  function CohortSize(groups: seq<seq<WorkSlot>>, c: Cohort): nat {
    if groups == [] then 0
    else CohortSize(groups[..|groups| - 1], c) + if InCohort(groups[|groups| - 1], c) then 1 else 0
  }

  predicate AsksMasks(group: seq<WorkSlot>, c: Cohort) {
    InCohort(group, c) && NeedsMasks(group[0].job.generator)
  }

  predicate CohortNeedsMasks(groups: seq<seq<WorkSlot>>, c: Cohort) {
    exists i :: 0 <= i < |groups| && AsksMasks(groups[i], c)
  }

  /** Whether the group belongs to a cohort of several, some of which need masks. */
  predicate WantsMask(groups: seq<seq<WorkSlot>>, slot: WorkSlot) {
    var c := CohortOf(slot);
    c.Some? && CohortSize(groups, c.value) > 1 && CohortNeedsMasks(groups, c.value)
  }

  function AdmissionOf(groups: seq<seq<WorkSlot>>, slot: WorkSlot, l: Limits): Admission {
    AdmitGroup(slot.job.generator, SourceOf(slot.job.plan, slot.job.image), l, WantsMask(groups, slot))
  }

  /** A group may share when its cohort has several groups and the masks, if any, fit in memory. */
  predicate MayShare(groups: seq<seq<WorkSlot>>, slot: WorkSlot, l: Limits) {
    var c, admission := CohortOf(slot), AdmissionOf(groups, slot, l);
    && c.Some? && CohortSize(groups, c.value) > 1 && admission.Admitted?
    && (admission.mask > 0 || !WantsMask(groups, slot) || EstimatedMask(SourceOf(slot.job.plan, slot.job.image)) == Ok(0))
  }

  /** Why building an analysis fails: its permit, or the analysis itself. */
  function BuildError(groups: seq<seq<WorkSlot>>, slot: WorkSlot, env: Env, l: Limits): Option<ErrorCode> {
    var stages, admission := env.group(GroupOf(slot)), AdmissionOf(groups, slot, l);
    if admission.Admitted? && admission.mask > 0 && stages.maskPermit.Some? then stages.maskPermit else stages.analysis
  }

  /** A group that runs, may share, and could build its cohort's analysis. */
  predicate Builds(groups: seq<seq<WorkSlot>>, slot: WorkSlot, env: Env, l: Limits) {
    && Obstacle(slot.job, env.group(GroupOf(slot)), l).None?
    && MayShare(groups, slot, l) && BuildError(groups, slot, env, l).None?
  }

  /** One of the first n groups of the cohort has built its analysis. */
  predicate BuiltBy(groups: seq<seq<WorkSlot>>, n: nat, c: Cohort, env: Env, l: Limits) {
    exists i :: 0 <= i < n <= |groups| && InCohort(groups[i], c) && Builds(groups, groups[i][0], env, l)
  }

  /** The analysis the generator of group i receives: its own input's, once its cohort has been built. */
  function AnalysisFor(groups: seq<seq<WorkSlot>>, i: nat, env: Env, l: Limits): Option<Analysis>
    requires i < |groups| && groups[i] != []
  {
    var slot := groups[i][0];
    if MayShare(groups, slot, l) && BuiltBy(groups, i + 1, CohortOf(slot).value, env, l)
    then Some(Analysis(InputOf(slot.job), CohortNeedsMasks(groups, CohortOf(slot).value)))
    else None
  }

  /** The first group of a cohort that tries to build ends the flight if that fails fatally. */
  function SharingStop(groups: seq<seq<WorkSlot>>, i: nat, env: Env, l: Limits): Option<ErrorCode>
    requires i < |groups| && groups[i] != []
  {
    var slot := groups[i][0];
    if MayShare(groups, slot, l) && !BuiltBy(groups, i, CohortOf(slot).value, env, l)
    then IfFatal(BuildError(groups, slot, env, l))
    else None
  }

  /** An analysis as a generator received it. */
  datatype Handed = Handed(slot: WorkSlot, analysis: Option<Analysis>)

  /** What the generators of the first n groups received; a group with an obstacle never gets that far. */
  function HandedOut(groups: seq<seq<WorkSlot>>, n: nat, env: Env, l: Limits): seq<Handed>
    requires n <= |groups| && NonEmpty(groups)
  {
    if n == 0 then []
    else
      var slot := groups[n - 1][0];
      HandedOut(groups, n - 1, env, l) +
      if Obstacle(slot.job, env.group(GroupOf(slot)), l).Some? then [] else [Handed(slot, AnalysisFor(groups, n - 1, env, l))]
  }

  /** Everything an analysis depends on, as the job's own plan and request have it. */
  predicate ReadsJob(input: AnalysisInput, job: Job) {
    && input.image == job.image && input.frames == job.plan.frames
    && input.sourceIndices == job.plan.sourceIndices && input.gaps == job.plan.gaps
    && !job.generator.RegionFilmstrip?
    && input.norm == job.generator.norm && input.noiseFloor == job.generator.noiseFloor
  }

  /** A generator's analysis is of its own frames, gaps and pixels, with masks if it draws them. */
  predicate Suits(h: Handed) {
    h.analysis.Some? ==>
      && ReadsJob(h.analysis.value.input, h.slot.job)
      && (h.slot.job.generator.DifferenceMap? || h.slot.job.generator.MotionHistory? ==> h.analysis.value.masks)
  }

  lemma {:induction false} HandedSuits(groups: seq<seq<WorkSlot>>, n: nat, env: Env, l: Limits)
    requires n <= |groups| && NonEmpty(groups)
    ensures forall h :: h in HandedOut(groups, n, env, l) ==> Suits(h)
  {
    hide AnalysisFor, Suits, Obstacle;
    if n > 0 {
      HandedSuits(groups, n - 1, env, l);
      AnalysisSuits(groups, n - 1, env, l);
    }
  }

  lemma AnalysisSuits(groups: seq<seq<WorkSlot>>, i: nat, env: Env, l: Limits)
    requires i < |groups| && groups[i] != []
    ensures Suits(Handed(groups[i][0], AnalysisFor(groups, i, env, l)))
  {
    var slot := groups[i][0];
    if AnalysisFor(groups, i, env, l).Some? && NeedsMasks(slot.job.generator) {
      assert AsksMasks(groups[i], CohortOf(slot).value);
    }
  }

  // What a slot's entry is

  function PublishedValue(publish: Result<Publish>): Result<FlightValue> {
    match publish
    case Ok(Published(grace)) => Ok(FlightValue(true, grace))
    case Ok(Existing) => Ok(FlightValue(false, false))
    case Err(error) => Err(error)
  }

  /** The size of the image rendered for a slot, if its group ran and produced one. */
  function Rendered(slot: WorkSlot, env: Env, l: Limits): Option<nat> {
    var stages := env.group(GroupOf(slot));
    if Obstacle(slot.job, stages, l).Some? || stages.generate.Err? || slot.kind !in stages.generate.value then None
    else Some(stages.generate.value[slot.kind])
  }

  /** All bytes rendered for the slots done so far, those over the limit included. */
  function RenderedBytes(done: seq<WorkSlot>, env: Env, l: Limits): nat {
    if done == [] then 0
    else
      var size := Rendered(done[|done| - 1], env, l);
      RenderedBytes(done[..|done| - 1], env, l) + if size.Some? then size.value else 0
  }

  /**
   * The entry of a slot that missed the cache: its group's obstacle or rendering error, or its own
   * output was omitted, brings the bytes rendered before it over the total limit, or is published.
   */
  function Entry(slot: WorkSlot, before: nat, env: Env, l: Limits): Result<FlightValue> {
    var stages := env.group(GroupOf(slot));
    if Obstacle(slot.job, stages, l).Some? then Err(Obstacle(slot.job, stages, l).value)
    else if stages.generate.Err? then Err(stages.generate.error)
    else if slot.kind !in stages.generate.value then Err(ArtifactGenerationFailed)
    else if before + stages.generate.value[slot.kind] > l.maxOutputTotal then Err(ResourceLimitExceeded)
    else PublishedValue(env.slot(slot).publish)
  }

  /** The entries after the slots done so far; a later slot with the same key replaces an earlier one. */
  function EntriesOf(hits: Entries, done: seq<WorkSlot>, env: Env, l: Limits): Entries {
    if done == [] then hits
    else
      var last, before := done[|done| - 1], done[..|done| - 1];
      EntriesOf(hits, before, env, l)[last.key := Entry(last, RenderedBytes(before, env, l), env, l)]
  }

  /** The sizes sent to be published. */
  function Sent(done: seq<WorkSlot>, env: Env, l: Limits): seq<nat> {
    if done == [] then []
    else
      var size, before := Rendered(done[|done| - 1], env, l), done[..|done| - 1];
      Sent(before, env, l) +
      if size.Some? && RenderedBytes(before, env, l) + size.value <= l.maxOutputTotal then [size.value] else []
  }

  function Total(sizes: seq<nat>): nat {
    if sizes == [] then 0 else Total(sizes[..|sizes| - 1]) + sizes[|sizes| - 1]
  }

  lemma TotalAppend(sizes: seq<nat>, n: nat)
    ensures Total(sizes + [n]) == Total(sizes) + n
  {
    assert (sizes + [n])[..|sizes + [n]| - 1] == sizes;
  }

  /** What is sent to be published never exceeds the total output limit, whatever is rendered. */
  lemma {:induction false} SentWithinLimit(done: seq<WorkSlot>, env: Env, l: Limits)
    ensures Total(Sent(done, env, l)) <= RenderedBytes(done, env, l) && Total(Sent(done, env, l)) <= l.maxOutputTotal
  {
    if done != [] {
      SentWithinLimit(done[..|done| - 1], env, l);
      var size := Rendered(done[|done| - 1], env, l);
      hide Rendered;
      if size.Some? { TotalAppend(Sent(done[..|done| - 1], env, l), size.value); }
      assert Sent(done[..|done| - 1], env, l) + [] == Sent(done[..|done| - 1], env, l);
    }
  }

  // Where a flight ends early

  /** Publishing a slot's output can end the flight. */
  function SlotStop(slot: WorkSlot, before: nat, env: Env, l: Limits): Option<ErrorCode> {
    var size, own := Rendered(slot, env, l), env.slot(slot);
    if own.cancelled then Some(Cancelled)
    else if size.None? then None
    else if before + size.value >= U64_LIMIT then Some(ResourceLimitExceeded)
    else if before + size.value > l.maxOutputTotal then None
    else if own.publication.Some? then own.publication
    else if own.publish.Err? then IfFatal(Some(own.publish.error))
    else None
  }

  /** The first of the first n slots of a group at which the flight ends. */
  function FirstSlotStop(done: seq<WorkSlot>, group: seq<WorkSlot>, n: nat, env: Env, l: Limits): Option<ErrorCode>
    requires n <= |group|
  {
    if n == 0 then None
    else
      var earlier := FirstSlotStop(done, group, n - 1, env, l);
      if earlier.Some? then earlier else SlotStop(group[n - 1], RenderedBytes(done + group[..n - 1], env, l), env, l)
  }

  /** Where a group that runs can end the flight. */
  function LateStop(groups: seq<seq<WorkSlot>>, i: nat, env: Env, l: Limits): Option<ErrorCode>
    requires i < |groups| && groups[i] != []
  {
    var stages := env.group(GroupOf(groups[i][0]));
    if SharingStop(groups, i, env, l).Some? then SharingStop(groups, i, env, l)
    else if stages.generatorPermit.Some? then stages.generatorPermit
    else if stages.generate.Err? then IfFatal(Some(stages.generate.error))
    else FirstSlotStop(Flat(groups[..i]), groups[i], |groups[i]|, env, l)
  }

  function GroupStop(groups: seq<seq<WorkSlot>>, i: nat, env: Env, l: Limits): Option<ErrorCode>
    requires i < |groups| && groups[i] != []
  {
    var slot := groups[i][0];
    var stages, admission := env.group(GroupOf(slot)), AdmissionOf(groups, slot, l);
    if stages.cancelled then Some(Cancelled)
    else if admission.Aborts? then Some(admission.error)
    else if Obstacle(slot.job, stages, l).Some? then IfFatal(Obstacle(slot.job, stages, l))
    else LateStop(groups, i, env, l)
  }

  function FirstStop(groups: seq<seq<WorkSlot>>, n: nat, env: Env, l: Limits): Option<ErrorCode>
    requires n <= |groups| && NonEmpty(groups)
  {
    if n == 0 then None
    else
      var earlier := FirstStop(groups, n - 1, env, l);
      if earlier.Some? then earlier else GroupStop(groups, n - 1, env, l)
  }

  /** What a flight returns. */
  function FlightResult(slots: seq<WorkSlot>, env: Env, l: Limits): Result<Entries> {
    var groups := GroupsOf(Pending(slots, env));
    if LookupError(slots, env).Some? then Err(LookupError(slots, env).value)
    else if FirstStop(groups, |groups|, env, l).Some? then Err(FirstStop(groups, |groups|, env, l).value)
    else Ok(EntriesOf(Hits(slots, env), Flat(groups), env, l))
  }

  // What that means

  /** The order in which a flight works through the slots that missed the cache. */
  function Order(slots: seq<WorkSlot>, env: Env): seq<WorkSlot> {
    Flat(GroupsOf(Pending(slots, env)))
  }

  /** A group that fails as a whole gives each of its slots the same error. */
  lemma {:induction false} ErrorEntries(hits: Entries, done: seq<WorkSlot>, group: seq<WorkSlot>, error: ErrorCode,
                                        env: Env, l: Limits)
    requires forall slot :: slot in group ==> FailsWith(slot, error, env, l)
    ensures var before, after := EntriesOf(hits, done, env, l), EntriesOf(hits, done + group, env, l);
      && after.Keys == before.Keys + KeySet(group)
      && (forall key :: key in KeySet(group) ==> after[key] == Err(error))
      && (forall key :: key in before && key !in KeySet(group) ==> after[key] == before[key])
  {
    hide Entry, Rendered;
    if group == [] {
      assert done + group == done;
    } else {
      var init, last := group[..|group| - 1], group[|group| - 1];
      ErrorEntries(hits, done, init, error, env, l);
      assert FailsWith(last, error, env, l);
      assert (done + group)[..|done + group| - 1] == done + init && (done + group)[|done + group| - 1] == last;
      EntryStep(hits, done + group, env, l);
      assert Entry(last, RenderedBytes(done + init, env, l), env, l) == Err(error);
      hide FailsWith, RenderedBytes, EntriesOf;
    }
  }

  lemma EntryStep(hits: Entries, done: seq<WorkSlot>, env: Env, l: Limits)
    requires done != []
    ensures var last, before := done[|done| - 1], done[..|done| - 1];
      EntriesOf(hits, done, env, l) == EntriesOf(hits, before, env, l)[last.key := Entry(last, RenderedBytes(before, env, l), env, l)]
  {
  }

  /** Such a group renders nothing. */
  lemma {:induction false} NothingRendered(done: seq<WorkSlot>, group: seq<WorkSlot>, error: ErrorCode, env: Env,
                                           l: Limits)
    requires forall slot :: slot in group ==> FailsWith(slot, error, env, l)
    ensures RenderedBytes(done + group, env, l) == RenderedBytes(done, env, l) && Sent(done + group, env, l) == Sent(done, env, l)
  {
    hide Entry, Rendered;
    if group == [] {
      assert done + group == done;
    } else {
      var init, last := group[..|group| - 1], group[|group| - 1];
      NothingRendered(done, init, error, env, l);
      assert FailsWith(last, error, env, l);
      assert (done + group)[..|done + group| - 1] == done + init && (done + group)[|done + group| - 1] == last;
      assert Sent(done + init, env, l) + [] == Sent(done + init, env, l);
    }
  }

  /** The entry of a slot is this error whatever was rendered before. */
  ghost predicate FailsWith(slot: WorkSlot, error: ErrorCode, env: Env, l: Limits) {
    Rendered(slot, env, l).None? && forall before: nat :: Entry(slot, before, env, l) == Err(error)
  }

  lemma {:induction false} EntriesKeys(hits: Entries, done: seq<WorkSlot>, env: Env, l: Limits)
    ensures EntriesOf(hits, done, env, l).Keys == hits.Keys + KeySet(done)
  {
    if done != [] { EntriesKeys(hits, done[..|done| - 1], env, l); }
  }

  lemma {:induction false} HitsAndPending(slots: seq<WorkSlot>, env: Env)
    ensures Hits(slots, env).Keys + KeySet(Pending(slots, env)) == KeySet(slots)
  {
    if slots != [] {
      var init, last := slots[..|slots| - 1], slots[|slots| - 1];
      HitsAndPending(init, env);
      assert (Pending(init, env) + [last])[..|Pending(init, env)|] == Pending(init, env);
      assert Pending(init, env) + [] == Pending(init, env);
    }
  }

  /** A flight that succeeds has an entry for exactly the requested keys. */
  lemma FlightAnswersKeys(slots: seq<WorkSlot>, env: Env, l: Limits)
    requires FlightResult(slots, env, l).Ok?
    ensures FlightResult(slots, env, l).value.Keys == KeySet(slots)
  {
    var pending := Pending(slots, env);
    HitsAndPending(slots, env);
    GroupsKeepSlots(pending);
    SameKeySet(Flat(GroupsOf(pending)), pending);
    EntriesKeys(Hits(slots, env), Flat(GroupsOf(pending)), env, l);
    hide KeySet, Hits, EntriesOf, Pending, GroupsOf, Flat, FirstStop, LookupError;
  }

  /** Slot n is the last with its key, and its entry counts the bytes rendered before it. */
  predicate DecidedBy(key: Key, value: Result<FlightValue>, done: seq<WorkSlot>, n: nat, env: Env, l: Limits)
    requires n < |done|
  {
    && done[n].key == key && (forall m :: n < m < |done| ==> done[m].key != key)
    && value == Entry(done[n], RenderedBytes(done[..n], env, l), env, l)
  }

  /** An entry is decided by the last slot with its key, or is a cache hit if no slot with its key missed. */
  ghost predicate Caused(key: Key, value: Result<FlightValue>, slots: seq<WorkSlot>, env: Env, l: Limits) {
    var done := Order(slots, env);
    || (exists n: nat :: n < |done| && DecidedBy(key, value, done, n, env, l))
    || (key !in KeySet(done) && value == Ok(FlightValue(false, false)) && HasHit(key, slots, env))
  }

  predicate HasHit(key: Key, slots: seq<WorkSlot>, env: Env) {
    exists k :: 0 <= k < |slots| && slots[k].key == key && env.lookup(slots[k]) == Ok(Hit)
  }

  lemma {:induction false} HitEntries(slots: seq<WorkSlot>, env: Env, key: Key)
    requires key in Hits(slots, env)
    ensures Hits(slots, env)[key] == Ok(FlightValue(false, false)) && HasHit(key, slots, env)
  {
    var init, last := slots[..|slots| - 1], slots[|slots| - 1];
    if !(env.lookup(last) == Ok(Hit) && last.key == key) {
      HitEntries(init, env, key);
      var k :| 0 <= k < |init| && init[k].key == key && env.lookup(init[k]) == Ok(Hit);
      assert slots[k] == init[k];
    } else {
      assert slots[|slots| - 1] == last;
    }
  }

  lemma {:induction false} EntryCause(hits: Entries, done: seq<WorkSlot>, env: Env, l: Limits, key: Key)
    requires key in EntriesOf(hits, done, env, l)
    ensures
      || (exists n: nat :: n < |done| && DecidedBy(key, EntriesOf(hits, done, env, l)[key], done, n, env, l))
      || (key !in KeySet(done) && key in hits && EntriesOf(hits, done, env, l)[key] == hits[key])
  {
    hide Entry, RenderedBytes;
    if done != [] {
      var init, last := done[..|done| - 1], done[|done| - 1];
      var value := EntriesOf(hits, done, env, l)[key];
      if last.key == key {
        assert DecidedBy(key, value, done, |done| - 1, env, l);
      } else {
        EntryCause(hits, init, env, l, key);
        if n: nat :| n < |init| && DecidedBy(key, value, init, n, env, l) {
          assert init[..n] == done[..n];
          assert DecidedBy(key, value, done, n, env, l);
        }
      }
    }
  }

  /** Every entry of a successful flight has its exact cause. */
  lemma FlightEntriesCaused(slots: seq<WorkSlot>, env: Env, l: Limits)
    requires FlightResult(slots, env, l).Ok?
    ensures forall key :: key in FlightResult(slots, env, l).value ==> Caused(key, FlightResult(slots, env, l).value[key], slots, env, l)
  {
    var hits, done := Hits(slots, env), Order(slots, env);
    assert FlightResult(slots, env, l).value == EntriesOf(hits, done, env, l);
    hide Order, FlightResult, DecidedBy, EntriesOf;
    forall key | key in FlightResult(slots, env, l).value
      ensures Caused(key, FlightResult(slots, env, l).value[key], slots, env, l)
    {
      EntryCause(hits, done, env, l, key);
      if key in hits { HitEntries(slots, env, key); }
    }
  }

  /** What can end a flight at a slot it publishes. */
  predicate SlotFails(slot: WorkSlot, before: nat, env: Env, l: Limits) {
    var size, own := Rendered(slot, env, l), env.slot(slot);
    || own.cancelled
    || (size.Some? && before + size.value >= U64_LIMIT)
    || (size.Some? && before + size.value <= l.maxOutputTotal
        && (own.publication.Some? || (own.publish.Err? && own.publish.error in {Cancelled, NotFound})))
  }

  predicate SlotFailsAt(done: seq<WorkSlot>, group: seq<WorkSlot>, k: nat, env: Env, l: Limits)
    requires k < |group|
  {
    SlotFails(group[k], RenderedBytes(done + group[..k], env, l), env, l)
  }

  /** What can end a flight at group i. */
  predicate GroupFails(groups: seq<seq<WorkSlot>>, i: nat, env: Env, l: Limits)
    requires i < |groups| && groups[i] != []
  {
    var slot := groups[i][0];
    var stages, obstacle := env.group(GroupOf(slot)), Obstacle(slot.job, env.group(GroupOf(slot)), l);
    || stages.cancelled
    || AdmissionOf(groups, slot, l).Aborts?
    || (obstacle.Some? && obstacle.value in {Cancelled, NotFound})
    || (obstacle.None? && GeneratorFails(groups, i, env, l))
  }

  /** What can end a flight while the generator of group i runs: its analysis, its permit, rendering or publication. */
  predicate GeneratorFails(groups: seq<seq<WorkSlot>>, i: nat, env: Env, l: Limits)
    requires i < |groups| && groups[i] != []
  {
    var stages := env.group(GroupOf(groups[i][0]));
    || SharingStop(groups, i, env, l).Some? || stages.generatorPermit.Some?
    || (stages.generate.Err? && stages.generate.error in {Cancelled, NotFound})
    || (stages.generate.Ok? && exists k: nat :: k < |groups[i]| && SlotFailsAt(Flat(groups[..i]), groups[i], k, env, l))
  }

  lemma SlotFailsIff(slot: WorkSlot, before: nat, env: Env, l: Limits)
    ensures SlotStop(slot, before, env, l).Some? <==> SlotFails(slot, before, env, l)
  {
    assert l.maxOutputTotal < U64_LIMIT;
    hide Rendered;
  }

  lemma {:induction false} FirstSlotStopIff(done: seq<WorkSlot>, group: seq<WorkSlot>, n: nat, env: Env, l: Limits)
    requires n <= |group|
    ensures FirstSlotStop(done, group, n, env, l).Some? <==>
      exists k: nat :: k < n && SlotFailsAt(done, group, k, env, l)
  {
    hide SlotFails, SlotStop, RenderedBytes;
    if n > 0 {
      FirstSlotStopIff(done, group, n - 1, env, l);
      SlotFailsIff(group[n - 1], RenderedBytes(done + group[..n - 1], env, l), env, l);
      assert SlotFailsAt(done, group, n - 1, env, l) <==> SlotStop(group[n - 1], RenderedBytes(done + group[..n - 1], env, l), env, l).Some?;
      hide SlotFailsAt;
    }
  }

  lemma GroupFailsIff(groups: seq<seq<WorkSlot>>, i: nat, env: Env, l: Limits)
    requires i < |groups| && groups[i] != []
    ensures GroupStop(groups, i, env, l).Some? <==> GroupFails(groups, i, env, l)
  {
    FirstSlotStopIff(Flat(groups[..i]), groups[i], |groups[i]|, env, l);
    hide FirstSlotStop, SlotFailsAt, Obstacle, SharingStop, AdmissionOf, Flat;
  }

  lemma {:induction false} FirstStopIff(groups: seq<seq<WorkSlot>>, n: nat, env: Env, l: Limits)
    requires n <= |groups| && NonEmpty(groups)
    ensures FirstStop(groups, n, env, l).Some? <==> exists i: nat :: i < n && GroupFails(groups, i, env, l)
  {
    hide GroupFails, GroupStop;
    if n > 0 {
      FirstStopIff(groups, n - 1, env, l);
      GroupFailsIff(groups, n - 1, env, l);
    }
  }

  lemma {:induction false} LookupErrorIff(slots: seq<WorkSlot>, env: Env)
    ensures LookupError(slots, env).Some? <==> exists k :: 0 <= k < |slots| && env.lookup(slots[k]).Err?
  {
    if slots != [] {
      var init := slots[..|slots| - 1];
      LookupErrorIff(init, env);
      assert forall k :: 0 <= k < |init| ==> init[k] == slots[k];
    }
  }

  /** A flight fails only where a lookup, a group or a slot gives it a reason to, and always there. */
  ghost predicate FlightFails(slots: seq<WorkSlot>, env: Env, l: Limits) {
    var groups := GroupsOf(Pending(slots, env));
    || (exists k :: 0 <= k < |slots| && env.lookup(slots[k]).Err?)
    || (exists i: nat :: i < |groups| && GroupFails(groups, i, env, l))
  }

  lemma FlightFailsIff(slots: seq<WorkSlot>, env: Env, l: Limits)
    ensures FlightResult(slots, env, l).Err? <==> FlightFails(slots, env, l)
  {
    var groups := GroupsOf(Pending(slots, env));
    LookupErrorIff(slots, env);
    FirstStopIff(groups, |groups|, env, l);
    hide GroupFails, FirstStop, LookupError, EntriesOf, GroupsOf, Pending;
  }
}
