/** What a flight's answers mean, read off the environment and the request alone. */
module FlightMeaning {
  import opened Common
  import opened Budget
  import opened GeneratorPlan
  import opened FlightSpec

  // Entries

  /** No other slot with the same key comes later. */
  predicate LastOfKey(done: seq<WorkSlot>, n: nat) {
    n < |done| && forall m :: n < m < |done| ==> done[m].key != done[n].key
  }

  lemma {:induction false} LastEntryStands(hits: Entries, done: seq<WorkSlot>, env: Env, l: Limits, n: nat)
    requires LastOfKey(done, n)
    ensures done[n].key in EntriesOf(hits, done, env, l)
    ensures EntriesOf(hits, done, env, l)[done[n].key] == Entry(done[n], RenderedBytes(done[..n], env, l), env, l)
  {
    hide Entry, RenderedBytes;
    var last := |done| - 1;
    if n < last {
      assert done[last].key != done[n].key;
      LastEntryStands(hits, done[..last], env, l, n);
      assert done[..last][..n] == done[..n] && done[..last][n] == done[n];
    }
  }

  function AdmissionAlone(job: Job, l: Limits): Admission {
    AdmitGroup(job.generator, SourceOf(job.plan, job.image), l, false)
  }

  /** The group's reservation is one the scheduler can take. */
  predicate Reservable(bytes: nat, l: Limits) {
    0 < bytes <= l.maxCombined && bytes < U32_LIMIT
  }

  /** The stages before rendering let the slot's group through. */
  predicate Runs(slot: WorkSlot, env: Env, l: Limits) {
    var stages, admission := env.group((slot.epoch, slot.generator)), AdmissionAlone(slot.job, l);
    && admission.Admitted? && Reservable(admission.base, l)
    && stages.memory.None? && stages.decode.None? && (slot.job.generator.RegionFilmstrip? || stages.normalize.None?)
  }

  /** A slot whose group does not run has the error of the first stage that stopped it. */
  predicate StoppedBy(slot: WorkSlot, value: Result<FlightValue>, env: Env, l: Limits) {
    var stages, admission := env.group((slot.epoch, slot.generator)), AdmissionAlone(slot.job, l);
    && (admission.Refused? ==> value == Err(ResourceLimitExceeded))
    && (admission.Admitted? ==>
          if !Reservable(admission.base, l) then value == Err(ResourceLimitExceeded)
          else if stages.memory.Some? then value == Err(stages.memory.value)
          else if stages.decode.Some? then value == Err(stages.decode.value)
          else !slot.job.generator.RegionFilmstrip? && stages.normalize.Some? && value == Err(stages.normalize.value))
  }

  /** A published entry: an error of the store, or a value that says whether it was new and what it overrode. */
  predicate Published(publish: Result<Publish>, value: Result<FlightValue>) {
    && (value.Ok? <==> publish.Ok?)
    && (value.Ok? ==> (value.value.generated <==> publish.value.Published?))
    && (value.Ok? ==> (value.value.graceOverridden <==> publish.value == Publish.Published(true)))
    && (value.Err? ==> value.error == publish.error)
  }

  /** An entry in terms of the environment and of the bytes rendered before it. */
  predicate EntryMeans(slot: WorkSlot, before: nat, value: Result<FlightValue>, env: Env, l: Limits) {
    var stages := env.group((slot.epoch, slot.generator));
    if !Runs(slot, env, l) then StoppedBy(slot, value, env, l)
    else if stages.generate.Err? then value == Err(stages.generate.error)
    else if slot.kind !in stages.generate.value then value == Err(ArtifactGenerationFailed)
    else if before + stages.generate.value[slot.kind] > l.maxOutputTotal then value == Err(ResourceLimitExceeded)
    else Published(env.slot(slot).publish, value)
  }

  lemma ObstacleUnlessRuns(slot: WorkSlot, env: Env, l: Limits)
    requires !AdmissionAlone(slot.job, l).Aborts?
    ensures var obstacle := Obstacle(slot.job, env.group(GroupOf(slot)), l);
      (obstacle.None? <==> Runs(slot, env, l)) && (obstacle.Some? ==> StoppedBy(slot, Err(obstacle.value), env, l))
  {
    hide AdmitGroup;
  }

  lemma EntryMeaning(slot: WorkSlot, before: nat, env: Env, l: Limits)
    requires !AdmissionAlone(slot.job, l).Aborts?
    ensures EntryMeans(slot, before, Entry(slot, before, env, l), env, l)
  {
    ObstacleUnlessRuns(slot, env, l);
    hide Obstacle, Runs, StoppedBy;
  }

  /** In a flight that succeeds no group aborts in admission. */
  lemma {:induction false} NoAbort(groups: seq<seq<WorkSlot>>, n: nat, i: nat, env: Env, l: Limits)
    requires i < n <= |groups| && NonEmpty(groups) && FirstStop(groups, n, env, l).None?
    ensures !AdmissionAlone(groups[i][0].job, l).Aborts?
  {
    hide GroupStop, AdmitGroup;
    if i < n - 1 {
      NoAbort(groups, n - 1, i, env, l);
    } else {
      NoAbortInGroup(groups, i, env, l);
    }
  }

  lemma NoAbortInGroup(groups: seq<seq<WorkSlot>>, i: nat, env: Env, l: Limits)
    requires i < |groups| && groups[i] != [] && GroupStop(groups, i, env, l).None?
    ensures !AdmissionAlone(groups[i][0].job, l).Aborts?
  {
    var slot := groups[i][0];
    assert !AdmissionOf(groups, slot, l).Aborts?;
    hide GroupStop, AdmitGroup, WantsMask;
    if AdmissionAlone(slot.job, l).Aborts? {
      AbortsEitherWay(slot.job.generator, SourceOf(slot.job.plan, slot.job.image), l, WantsMask(groups, slot));
    }
  }

  lemma AbortsEitherWay(p: Generator, source: Source, l: Limits, wantsSharedMask: bool)
    requires AdmitGroup(p, source, l, false).Aborts?
    ensures AdmitGroup(p, source, l, wantsSharedMask).Aborts?
  {
    hide EstimatedNormalized, OutputReservation, EstimatedMask;
  }

  lemma {:induction false} FlatPosition(groups: seq<seq<WorkSlot>>, n: nat) returns (i: nat, k: nat)
    requires n < |Flat(groups)|
    ensures i < |groups| && k < |groups[i]| && groups[i][k] == Flat(groups)[n]
  {
    if n < |groups[0]| {
      i, k := 0, n;
    } else {
      i, k := FlatPosition(groups[1..], n - |groups[0]|);
      i := i + 1;
    }
  }

  /** The bytes a slot adds to the running total: its rendered image, if its group runs and renders it. */
  lemma RenderedMeaning(slot: WorkSlot, env: Env, l: Limits)
    requires !AdmissionAlone(slot.job, l).Aborts?
    ensures var stages := env.group((slot.epoch, slot.generator));
      Rendered(slot, env, l) ==
        if Runs(slot, env, l) && stages.generate.Ok? && slot.kind in stages.generate.value
        then Some(stages.generate.value[slot.kind]) else None
  {
    ObstacleUnlessRuns(slot, env, l);
    hide Obstacle, Runs, StoppedBy;
  }

  // Groups

  /** The slots of one epoch and generator, in request order. */
  function Matching(slots: seq<WorkSlot>, epoch: nat, generator: nat): seq<WorkSlot> {
    if slots == [] then []
    else
      var last := slots[|slots| - 1];
      Matching(slots[..|slots| - 1], epoch, generator) + if last.epoch == epoch && last.generator == generator then [last] else []
  }

  function GroupWith(groups: seq<seq<WorkSlot>>, key: (nat, nat)): seq<WorkSlot>
    requires NonEmpty(groups)
  {
    if groups == [] then []
    else (if GroupOf(groups[0][0]) == key then groups[0] else []) + GroupWith(groups[1..], key)
  }

  lemma {:induction false} AbsentBelow(groups: seq<seq<WorkSlot>>, key: (nat, nat))
    requires Grouped(groups) && (groups == [] || Before(key, GroupOf(groups[0][0])))
    ensures GroupWith(groups, key) == []
  {
    if groups != [] {
      assert Grouped(groups[1..]);
      if groups[1..] != [] { assert Before(GroupOf(groups[0][0]), GroupOf(groups[1][0])); }
      AbsentBelow(groups[1..], key);
    }
  }

  lemma {:induction false} InsertInto(groups: seq<seq<WorkSlot>>, slot: WorkSlot, key: (nat, nat))
    requires Grouped(groups)
    ensures GroupWith(InsertSlot(groups, slot), key) == GroupWith(groups, key) + if GroupOf(slot) == key then [slot] else []
  {
    var r := InsertSlot(groups, slot);
    if groups == [] || Before(GroupOf(slot), GroupOf(groups[0][0])) {
      assert r[1..] == groups;
      AbsentBelow(groups, GroupOf(slot));
    } else if GroupOf(slot) == GroupOf(groups[0][0]) {
      assert r[1..] == groups[1..] && (groups[0] + [slot])[0] == groups[0][0];
      assert Grouped(groups[1..]);
      if groups[1..] != [] { assert Before(GroupOf(groups[0][0]), GroupOf(groups[1][0])); }
      AbsentBelow(groups[1..], GroupOf(slot));
    } else {
      assert Grouped(groups[1..]);
      InsertInto(groups[1..], slot, key);
      assert r[1..] == InsertSlot(groups[1..], slot);
    }
  }

  lemma {:induction false} GroupWithMatches(pending: seq<WorkSlot>, key: (nat, nat))
    ensures GroupWith(GroupsOf(pending), key) == Matching(pending, key.0, key.1)
  {
    if pending != [] {
      var init := pending[..|pending| - 1];
      GroupWithMatches(init, key);
      GroupsAreGrouped(init);
      InsertInto(GroupsOf(init), pending[|pending| - 1], key);
      hide Grouped, InsertSlot;
    }
  }

  lemma {:induction false} GroupIsFound(groups: seq<seq<WorkSlot>>, i: nat)
    requires Grouped(groups) && i < |groups|
    ensures GroupWith(groups, GroupOf(groups[i][0])) == groups[i]
  {
    assert Grouped(groups[1..]);
    if i == 0 {
      if groups[1..] != [] { assert Before(GroupOf(groups[0][0]), GroupOf(groups[1][0])); }
      AbsentBelow(groups[1..], GroupOf(groups[0][0]));
    } else {
      assert Before(GroupOf(groups[0][0]), GroupOf(groups[i][0]));
      GroupIsFound(groups[1..], i - 1);
    }
  }

  /**
   * The flight works through epochs in order and within an epoch through generators in order, and
   * each group is the pending slots of its epoch and generator in request order.
   */
  lemma GroupsInOrder(pending: seq<WorkSlot>, i: nat)
    requires i < |GroupsOf(pending)|
    ensures var groups := GroupsOf(pending);
      && groups[i] != [] && groups[i] == Matching(pending, groups[i][0].epoch, groups[i][0].generator)
      && forall j :: i < j < |groups| ==>
           groups[i][0].epoch < groups[j][0].epoch
           || (groups[i][0].epoch == groups[j][0].epoch && groups[i][0].generator < groups[j][0].generator)
  {
    var groups := GroupsOf(pending);
    GroupsAreGrouped(pending);
    GroupIsFound(groups, i);
    GroupWithMatches(pending, GroupOf(groups[i][0]));
    hide GroupsOf, GroupWith, Matching;
  }

  // Cohorts

  /** Slots of one epoch are in one cohort exactly when their generators would analyse the same input. */
  lemma CohortIffSameInput(a: WorkSlot, b: WorkSlot, epochs: seq<Epoch>, l: Limits)
    requires FromEpoch(a, epochs, l) && FromEpoch(b, epochs, l) && a.epoch == b.epoch
    ensures CohortOf(a).Some? && CohortOf(a) == CohortOf(b) <==>
      exists input :: ReadsJob(input, a.job) && ReadsJob(input, b.job)
  {
    hide FromEpoch;
    if CohortOf(a).Some? && CohortOf(a) == CohortOf(b) {
      SameCohortSameInput(a, b, epochs, l);
      assert ReadsJob(InputOf(a.job), a.job) && ReadsJob(InputOf(a.job), b.job);
    }
    if input :| ReadsJob(input, a.job) && ReadsJob(input, b.job) {
      assert PlanIdentity(a.job.plan) == PlanIdentity(b.job.plan);
    }
  }

  /** Another group shares the analysis of group i, and masks are kept only if one of them draws them. */
  lemma SharedInCompany(groups: seq<seq<WorkSlot>>, i: nat, env: Env, l: Limits)
    requires i < |groups| && groups[i] != [] && AnalysisFor(groups, i, env, l).Some?
    ensures exists j :: 0 <= j < |groups| && j != i && SharesWith(groups[i], groups[j])
    ensures AnalysisFor(groups, i, env, l).value.masks <==>
      exists j :: 0 <= j < |groups| && SharesWith(groups[i], groups[j]) && DrawsMasks(groups[j])
  {
    var c := CohortOf(groups[i][0]).value;
    hide BuiltBy;
    var j := Company(groups, c, i);
    assert SharesWith(groups[i], groups[j]);
    hide MayShare, InputOf, CohortSize;
    forall j | 0 <= j < |groups| ensures AsksMasks(groups[j], c) <==> SharesWith(groups[i], groups[j]) && DrawsMasks(groups[j]) {
      hide CohortOf;
    }
    hide CohortOf, AsksMasks, SharesWith, DrawsMasks;
  }

  predicate SharesWith(group: seq<WorkSlot>, other: seq<WorkSlot>) {
    group != [] && other != [] && CohortOf(group[0]).Some? && CohortOf(other[0]) == CohortOf(group[0])
  }

  predicate DrawsMasks(group: seq<WorkSlot>) {
    group != [] && (group[0].job.generator.DifferenceMap? || group[0].job.generator.MotionHistory?)
  }

  lemma {:induction false} Company(groups: seq<seq<WorkSlot>>, c: Cohort, i: nat) returns (j: nat)
    requires CohortSize(groups, c) > if i < |groups| && InCohort(groups[i], c) then 1 else 0
    ensures j < |groups| && j != i && InCohort(groups[j], c)
  {
    var last := |groups| - 1;
    hide InCohort;
    if last != i && InCohort(groups[last], c) {
      j := last;
    } else {
      assert i < last ==> groups[..last][i] == groups[i];
      j := Company(groups[..last], c, i);
    }
  }
}
