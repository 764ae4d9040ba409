/** The work of one flight: cache lookups, grouping, admission, shared analyses and publication. */
module FlightRun {
  import opened Common
  import opened Budget
  import opened GeneratorPlan
  import opened FlightSpec
  import opened FlightMeaning

  // Lookups and groups

  /** Cache lookups: hits are answered at once and the rest are left pending. */
  method LookupSlots(slots: seq<WorkSlot>, env: Env)
    returns (result: Entries, pending: seq<WorkSlot>, failure: Option<ErrorCode>)
    ensures failure == LookupError(slots, env)
    ensures failure.None? ==> result == Hits(slots, env) && pending == Pending(slots, env)
    ensures failure.Some? ==> exists k :: 0 <= k < |slots| && env.lookup(slots[k]) == Err(failure.value)
  {
    result, pending, failure := map[], [], None;
    var i := 0;
    while i < |slots|
      invariant 0 <= i <= |slots| && failure.None?
      invariant result == Hits(slots[..i], env) && pending == Pending(slots[..i], env) && LookupError(slots[..i], env).None?
    {
      var slot := slots[i];
      assert slots[..i + 1][..i] == slots[..i];
      match env.lookup(slot) {
        case Err(error) =>
          FirstLookupError(slots, env, i);
          return result, pending, Some(error);
        case Ok(Hit) =>
          result := result[slot.key := Ok(FlightValue(false, false))];
        case Ok(_) =>
          pending := pending + [slot];
      }
      i := i + 1;
    }
    assert slots[..i] == slots;
  }

  lemma {:induction false} FirstLookupError(slots: seq<WorkSlot>, env: Env, i: nat)
    requires i < |slots| && LookupError(slots[..i], env).None? && env.lookup(slots[i]).Err?
    ensures LookupError(slots, env) == Some(env.lookup(slots[i]).error)
  {
    var init := slots[..|slots| - 1];
    if i < |init| {
      assert init[..i] == slots[..i];
      FirstLookupError(init, env, i);
    }
  }

  /** The ordered groups of the pending slots: every slot is in the group of its epoch and generator. */
  method GroupSlots(pending: seq<WorkSlot>) returns (groups: seq<seq<WorkSlot>>)
    ensures groups == GroupsOf(pending)
    ensures Grouped(groups) && multiset(Flat(groups)) == multiset(pending)
    ensures forall i :: 0 <= i < |groups| ==> groups[i] == Matching(pending, groups[i][0].epoch, groups[i][0].generator)
    ensures forall i, j :: 0 <= i < j < |groups| ==>
      groups[i][0].epoch < groups[j][0].epoch
      || (groups[i][0].epoch == groups[j][0].epoch && groups[i][0].generator < groups[j][0].generator)
  {
    hide Grouped, InsertSlot;
    groups := [];
    var i := 0;
    while i < |pending|
      invariant 0 <= i <= |pending| && groups == GroupsOf(pending[..i])
    {
      assert pending[..i + 1][..i] == pending[..i];
      groups := InsertSlot(groups, pending[i]);
      i := i + 1;
    }
    assert pending[..i] == pending;
    GroupsAreGrouped(pending);
    GroupsKeepSlots(pending);
    hide GroupsOf, Matching, Flat;
    forall i | 0 <= i < |groups| ensures groups[i] == Matching(pending, groups[i][0].epoch, groups[i][0].generator) {
      GroupsInOrder(pending, i);
    }
    forall i, j | 0 <= i < j < |groups|
      ensures groups[i][0].epoch < groups[j][0].epoch
              || (groups[i][0].epoch == groups[j][0].epoch && groups[i][0].generator < groups[j][0].generator)
    {
      GroupsInOrder(pending, i);
    }
  }

  ghost predicate CountsExact(groups: seq<seq<WorkSlot>>, counts: map<Cohort, nat>, wants: map<Cohort, bool>) {
    && (forall c :: (if c in counts then counts[c] else 0) == CohortSize(groups, c))
    && forall c :: (c in wants && wants[c]) <==> CohortNeedsMasks(groups, c)
  }

  /** How many groups share an analysis, and whether any of them needs change masks. */
  method CountCohorts(groups: seq<seq<WorkSlot>>) returns (counts: map<Cohort, nat>, wants: map<Cohort, bool>)
    requires NonEmpty(groups)
    ensures CountsExact(groups, counts, wants)
  {
    counts, wants := map[], map[];
    assert CountsExact(groups[..0], counts, wants);
    hide CohortSize, CohortNeedsMasks, NeedsMasks, CountsExact;
    var i := 0;
    while i < |groups|
      invariant 0 <= i <= |groups| && CountsExact(groups[..i], counts, wants)
    {
      var slot := groups[i][0];
      var cohort := CohortOf(slot);
      ghost var before, asked := counts, wants;
      if cohort.Some? {
        var c := cohort.value;
        counts := counts[c := (if c in counts then counts[c] else 0) + 1];
        wants := wants[c := (c in wants && wants[c]) || NeedsMasks(slot.job.generator)];
      }
      OneMoreGroup(groups, i, before, asked, counts, wants);
      i := i + 1;
    }
    assert groups[..i] == groups;
  }

  lemma OneMoreGroup(groups: seq<seq<WorkSlot>>, i: nat, counts: map<Cohort, nat>, wants: map<Cohort, bool>,
                     counts': map<Cohort, nat>, wants': map<Cohort, bool>)
    requires i < |groups| && groups[i] != [] && CountsExact(groups[..i], counts, wants)
    requires var cohort := CohortOf(groups[i][0]);
      if cohort.None? then counts' == counts && wants' == wants
      else
        var c := cohort.value;
        && counts' == counts[c := (if c in counts then counts[c] else 0) + 1]
        && wants' == wants[c := (c in wants && wants[c]) || NeedsMasks(groups[i][0].job.generator)]
    ensures CountsExact(groups[..i + 1], counts', wants')
  {
    hide CohortOf, NeedsMasks;
    assert groups[..i + 1][..i] == groups[..i];
    forall c
      ensures (if c in counts' then counts'[c] else 0) == CohortSize(groups[..i + 1], c)
      ensures (c in wants' && wants'[c]) <==> CohortNeedsMasks(groups[..i + 1], c)
    {
      CohortGrows(groups, i, c);
      hide CohortNeedsMasks;
    }
  }

  lemma CohortGrows(groups: seq<seq<WorkSlot>>, i: nat, c: Cohort)
    requires i < |groups|
    ensures CohortNeedsMasks(groups[..i + 1], c) <==> CohortNeedsMasks(groups[..i], c) || AsksMasks(groups[i], c)
  {
    hide AsksMasks;
    var some, more := groups[..i], groups[..i + 1];
    assert more == some + [groups[i]];
    if CohortNeedsMasks(some, c) {
      var j :| 0 <= j < i && AsksMasks(some[j], c);
      assert more[j] == some[j];
    }
    if AsksMasks(groups[i], c) { assert more[i] == groups[i]; }
  }

  // Shared analyses

  /**
   * The cache of shared analyses after n groups: one for every cohort that has been built, and it is
   * the analysis that any group of the cohort would compute itself.
   */
  ghost predicate SharedMatch(shared: map<Cohort, Analysis>, groups: seq<seq<WorkSlot>>, n: nat, env: Env, l: Limits) {
    && (forall c :: c in shared <==> BuiltBy(groups, n, c, env, l))
    && forall c, j :: c in shared && 0 <= j < |groups| && InCohort(groups[j], c) ==>
         shared[c] == Analysis(InputOf(groups[j][0].job), CohortNeedsMasks(groups, c))
  }

  ghost predicate AllFromEpochs(groups: seq<seq<WorkSlot>>, epochs: seq<Epoch>, l: Limits) {
    forall i :: 0 <= i < |groups| ==> groups[i] != [] && FromEpoch(groups[i][0], epochs, l)
  }

  lemma NothingShared(groups: seq<seq<WorkSlot>>, env: Env, l: Limits)
    ensures SharedMatch(map[], groups, 0, env, l)
  {
  }

  /** An analysis built from one group is right for every group of its cohort. */
  lemma BuiltIsShared(shared: map<Cohort, Analysis>, groups: seq<seq<WorkSlot>>, i: nat, epochs: seq<Epoch>, env: Env,
                      l: Limits)
    requires i < |groups| && AllFromEpochs(groups, epochs, l) && SharedMatch(shared, groups, i, env, l)
    requires CohortOf(groups[i][0]).Some? && Builds(groups, groups[i][0], env, l)
    ensures var slot := groups[i][0];
      var c := CohortOf(slot).value;
      SharedMatch(shared[c := Analysis(InputOf(slot.job), CohortNeedsMasks(groups, c))], groups, i + 1, env, l)
  {
    var slot := groups[i][0];
    var c := CohortOf(slot).value;
    assert groups[i] != [] && InCohort(groups[i], c);
    hide Builds, CohortNeedsMasks, CohortOf, FromEpoch, AllFromEpochs;
    var after := shared[c := Analysis(InputOf(slot.job), CohortNeedsMasks(groups, c))];
    CohortInputs(groups, i, c, epochs, l);
    hide BuiltBy, InputOf;
    forall d ensures d in after <==> BuiltBy(groups, i + 1, d, env, l) {
      BuiltGrows(groups, i, d, env, l);
    }
  }

  lemma CohortInputs(groups: seq<seq<WorkSlot>>, i: nat, c: Cohort, epochs: seq<Epoch>, l: Limits)
    requires i < |groups| && AllFromEpochs(groups, epochs, l) && InCohort(groups[i], c)
    ensures forall j :: 0 <= j < |groups| && InCohort(groups[j], c) ==> Normalizes(groups[j][0].job.generator)
    ensures forall j :: 0 <= j < |groups| && InCohort(groups[j], c) ==> InputOf(groups[j][0].job) == InputOf(groups[i][0].job)
  {
    hide FromEpoch, InputOf;
    forall j | 0 <= j < |groups| && InCohort(groups[j], c)
      ensures Normalizes(groups[j][0].job.generator) && InputOf(groups[j][0].job) == InputOf(groups[i][0].job)
    {
      SameCohortSameInput(groups[j][0], groups[i][0], epochs, l);
    }
  }

  lemma BuiltGrows(groups: seq<seq<WorkSlot>>, i: nat, c: Cohort, env: Env, l: Limits)
    requires i < |groups|
    ensures BuiltBy(groups, i + 1, c, env, l) <==>
      BuiltBy(groups, i, c, env, l) || (InCohort(groups[i], c) && Builds(groups, groups[i][0], env, l))
  {
    hide Builds, InCohort;
  }

  /** A group that does not build leaves the cache of shared analyses right. */
  lemma SharedUnchanged(shared: map<Cohort, Analysis>, groups: seq<seq<WorkSlot>>, i: nat, env: Env, l: Limits)
    requires i < |groups| && groups[i] != [] && SharedMatch(shared, groups, i, env, l)
    requires !Builds(groups, groups[i][0], env, l) || CohortOf(groups[i][0]).None? || CohortOf(groups[i][0]).value in shared
    ensures SharedMatch(shared, groups, i + 1, env, l)
  {
    hide Builds, CohortNeedsMasks, CohortOf, InputOf;
    forall d ensures BuiltBy(groups, i + 1, d, env, l) <==> BuiltBy(groups, i, d, env, l) {
      BuiltGrows(groups, i, d, env, l);
    }
    hide BuiltBy;
  }

  /**
   * The shared analysis a group's generator receives, built once per cohort and then reused. It is
   * shared exactly when the group may share and its cohort has been built by then, and whether built
   * here or reused it is the analysis of this group's own frames and gaps.
   */
  method ShareAnalysis(groups: seq<seq<WorkSlot>>, i: nat, ghost epochs: seq<Epoch>, counts: map<Cohort, nat>,
                       wants: map<Cohort, bool>, 
                       shared: map<Cohort, Analysis>, mask: nat, estimate: nat, env: Env, l: Limits)
    returns (analyses: map<Cohort, Analysis>, permits: nat, analysis: Option<Analysis>, failure: Option<ErrorCode>)
    requires i < |groups| && AllFromEpochs(groups, epochs, l) && CountsExact(groups, counts, wants)
    requires SharedMatch(shared, groups, i, env, l)
    requires Obstacle(groups[i][0].job, env.group(GroupOf(groups[i][0])), l).None?
    requires AdmissionOf(groups, groups[i][0], l).Admitted? && mask == AdmissionOf(groups, groups[i][0], l).mask
    requires WantsMask(groups, groups[i][0]) ==> EstimatedMask(SourceOf(groups[i][0].job.plan, groups[i][0].job.image)) == Ok(estimate)
    requires !WantsMask(groups, groups[i][0]) ==> estimate == 0
    ensures failure == SharingStop(groups, i, env, l)
    ensures failure.None? ==> analysis == AnalysisFor(groups, i, env, l) && SharedMatch(analyses, groups, i + 1, env, l)
    ensures permits == (if analyses == shared then 0 else mask)
  {
    analyses, permits, analysis, failure := shared, 0, None, None;
    var slot := groups[i][0];
    var stages := env.group(GroupOf(slot));
    var cohort := CohortOf(slot);
    hide InputOf, CohortSize, CohortNeedsMasks, AdmissionOf, Obstacle, EstimatedMask, CohortOf, AllFromEpochs, FromEpoch;
    assert MayShare(groups, slot, l) <==>
      cohort.Some? && cohort.value in counts && counts[cohort.value] > 1 && (estimate == 0 || mask > 0);
    if cohort.None? || !(cohort.value in counts && counts[cohort.value] > 1) || !(estimate == 0 || mask > 0) {
      SharedUnchanged(shared, groups, i, env, l);
      return;
    }
    var c := cohort.value;
    hide MayShare, CountsExact, WantsMask;
    assert InCohort(groups[i], c);
    BuiltGrows(groups, i, c, env, l);
    if c in shared {
      SharedUnchanged(shared, groups, i, env, l);
      hide BuiltBy, BuildError, Builds;
      analysis := Some(shared[c]);
      return;
    }
    hide BuiltBy;
    if mask > 0 && stages.maskPermit.Some? {
      SharedUnchanged(shared, groups, i, env, l);
      if IsFatal(stages.maskPermit.value) { failure := stages.maskPermit; }
      return;
    }
    if stages.analysis.Some? {
      SharedUnchanged(shared, groups, i, env, l);
      if IsFatal(stages.analysis.value) { failure := stages.analysis; }
      return;
    }
    BuiltIsShared(shared, groups, i, epochs, env, l);
    hide SharedMatch;
    var masks := c in wants && wants[c];
    assert masks == CohortNeedsMasks(groups, c) by { WantsAre(groups, counts, wants, c); }
    var built := Analysis(InputOf(slot.job), masks);
    permits := mask;
    analyses := shared[c := built];
    analysis := Some(built);
  }

  lemma WantsAre(groups: seq<seq<WorkSlot>>, counts: map<Cohort, nat>, wants: map<Cohort, bool>, c: Cohort)
    requires CountsExact(groups, counts, wants)
    ensures (c in wants && wants[c]) <==> CohortNeedsMasks(groups, c)
    ensures c in counts && counts[c] > 1 <==> CohortSize(groups, c) > 1
  {
    hide CohortSize, CohortNeedsMasks;
  }

  // Running a group

  /** The collections a flight updates, with a record of what it published and handed out. */
  datatype Progress = Progress(
    result: Entries,
    shared: map<Cohort, Analysis>,
    maskPermits: nat,
    outputBytes: nat,
    sent: seq<nat>,
    handed: seq<Handed>)

  /** The flight has done these slots. */
  ghost predicate Done(p: Progress, hits: Entries, done: seq<WorkSlot>, env: Env, l: Limits) {
    && p.result == EntriesOf(hits, done, env, l)
    && p.outputBytes == RenderedBytes(done, env, l) && p.sent == Sent(done, env, l)
  }

  /** Every slot of the group gets the same error. */
  method RecordError(result: Entries, group: seq<WorkSlot>, error: ErrorCode) returns (r: Entries)
    ensures r.Keys == result.Keys + KeySet(group)
    ensures forall key :: key in KeySet(group) ==> r[key] == Err(error)
    ensures forall key :: key in result && key !in KeySet(group) ==> r[key] == result[key]
  {
    r := result;
    var i := 0;
    while i < |group|
      invariant 0 <= i <= |group|
      invariant r.Keys == result.Keys + KeySet(group[..i])
      invariant forall key :: key in KeySet(group[..i]) ==> r[key] == Err(error)
      invariant forall key :: key in result && key !in KeySet(group[..i]) ==> r[key] == result[key]
    {
      assert group[..i + 1][..i] == group[..i];
      r := r[group[i].key := Err(error)];
      i := i + 1;
    }
    assert group[..i] == group;
  }

  /** A group as the flight builds it: slots of one epoch and generator, which share their job. */
  predicate Coherent(group: seq<WorkSlot>) {
    && group != []
    && forall k :: 0 <= k < |group| ==> GroupOf(group[k]) == GroupOf(group[0]) && group[k].job == group[0].job
  }

  lemma GroupFailsWith(group: seq<WorkSlot>, error: ErrorCode, env: Env, l: Limits)
    requires Coherent(group)
    requires var stages, obstacle := env.group(GroupOf(group[0])), Obstacle(group[0].job, env.group(GroupOf(group[0])), l);
      obstacle == Some(error) || (obstacle.None? && stages.generate == Err(error))
    ensures forall slot :: slot in group ==> FailsWith(slot, error, env, l)
  {
    hide Obstacle;
  }

  method FailGroup(p: Progress, group: seq<WorkSlot>, error: ErrorCode, ghost hits: Entries,
                   ghost done: seq<WorkSlot>, env: Env, l: Limits)
    returns (q: Progress)
    requires Coherent(group) && Done(p, hits, done, env, l)
    requires var stages, obstacle := env.group(GroupOf(group[0])), Obstacle(group[0].job, env.group(GroupOf(group[0])), l);
      obstacle == Some(error) || (obstacle.None? && stages.generate == Err(error))
    ensures Done(q, hits, done + group, env, l) && q == p.(result := q.result)
  {
    GroupFailsWith(group, error, env, l);
    ErrorEntries(hits, done, group, error, env, l);
    NothingRendered(done, group, error, env, l);
    hide Obstacle, FailsWith, EntriesOf, RenderedBytes, Sent, KeySet, Coherent;
    var result := RecordError(p.result, group, error);
    assert result == EntriesOf(hits, done + group, env, l);
    q := p.(result := result);
  }

  lemma OneMoreSlot(hits: Entries, done: seq<WorkSlot>, slot: WorkSlot, env: Env, l: Limits)
    ensures var size, before, more := Rendered(slot, env, l), RenderedBytes(done, env, l), done + [slot];
      && EntriesOf(hits, more, env, l) == EntriesOf(hits, done, env, l)[slot.key := Entry(slot, before, env, l)]
      && RenderedBytes(more, env, l) == before + (if size.Some? then size.value else 0)
      && Sent(more, env, l) == Sent(done, env, l) + if size.Some? && before + size.value <= l.maxOutputTotal then [size.value] else []
  {
    var more := done + [slot];
    assert more[..|more| - 1] == done && more[|more| - 1] == slot;
    hide Entry, Rendered;
  }

  /**
   * Publishing one slot's output. The flight ends here exactly when this slot gives it a reason to;
   * otherwise the slot has its own entry, which is oversized exactly when the running total says so.
   */
  method PublishSlot(slot: WorkSlot, outputs: map<Kind, nat>, p: Progress, ghost hits: Entries,
                     ghost done: seq<WorkSlot>, env: Env, l: Limits)
    returns (q: Progress, failure: Option<ErrorCode>)
    requires Done(p, hits, done, env, l) && env.group(GroupOf(slot)).generate == Ok(outputs)
    requires Obstacle(slot.job, env.group(GroupOf(slot)), l).None?
    ensures failure == SlotStop(slot, RenderedBytes(done, env, l), env, l)
    ensures failure.None? ==> Done(q, hits, done + [slot], env, l)
    ensures q.sent == Sent(done, env, l) || q.sent == Sent(done + [slot], env, l)
    ensures q.shared == p.shared && q.handed == p.handed
  {
    OneMoreSlot(hits, done, slot, env, l);
    q, failure := p, None;
    hide Obstacle, PublishedValue, EntriesOf, RenderedBytes, Sent;
    var own := env.slot(slot);
    if own.cancelled {
      return q, Some(Cancelled);
    }
    var value: Result<FlightValue> := Err(ArtifactGenerationFailed);
    if slot.kind in outputs {
      var size := outputs[slot.kind];
      var total := q.outputBytes + size;
      if total >= U64_LIMIT {
        return q, Some(ResourceLimitExceeded);
      }
      q := q.(outputBytes := total);
      if total > l.maxOutputTotal {
        value := Err(ResourceLimitExceeded);
      } else if own.publication.Some? {
        return q, own.publication;
      } else {
        q := q.(sent := q.sent + [size]);
        value := PublishedValue(own.publish);
        if own.publish.Err? && IsFatal(own.publish.error) {
          return q, Some(own.publish.error);
        }
      }
    }
    q := q.(result := q.result[slot.key := value]);
  }

  /** Publishing the outputs of a group, in slot order, while the running total stays within the limit. */
  method PublishOutputs(group: seq<WorkSlot>, outputs: map<Kind, nat>, p: Progress, ghost hits: Entries,
                        ghost done: seq<WorkSlot>, env: Env, l: Limits)
    returns (q: Progress, failure: Option<ErrorCode>)
    requires Coherent(group) && Done(p, hits, done, env, l) && env.group(GroupOf(group[0])).generate == Ok(outputs)
    requires Obstacle(group[0].job, env.group(GroupOf(group[0])), l).None?
    ensures failure == FirstSlotStop(done, group, |group|, env, l)
    ensures failure.None? ==> Done(q, hits, done + group, env, l)
    ensures Total(q.sent) <= l.maxOutputTotal && q.shared == p.shared && q.handed == p.handed
  {
    hide Obstacle, SlotStop, Done, RenderedBytes, Sent, EntriesOf, Total;
    q, failure := p, None;
    var k := 0;
    assert done + group[..0] == done;
    SentWithinLimit(done, env, l);
    SentSoFar(p, hits, done, env, l);
    while k < |group|
      invariant 0 <= k <= |group| && failure.None?
      invariant Done(q, hits, done + group[..k], env, l) && FirstSlotStop(done, group, k, env, l).None?
      invariant Total(q.sent) <= l.maxOutputTotal && q.shared == p.shared && q.handed == p.handed
    {
      ghost var before := done + group[..k];
      SentWithinLimit(before, env, l);
      SentWithinLimit(before + [group[k]], env, l);
      assert before + [group[k]] == done + group[..k + 1];
      q, failure := PublishSlot(group[k], outputs, q, hits, before, env, l);
      k := k + 1;
      if failure.Some? {
        FirstStopStays(done, group, k, env, l);
        return;
      }
    }
    assert group[..k] == group;
  }

  lemma SentSoFar(p: Progress, hits: Entries, done: seq<WorkSlot>, env: Env, l: Limits)
    requires Done(p, hits, done, env, l)
    ensures p.sent == Sent(done, env, l)
  {
  }

  lemma {:induction false} FirstStopStays(done: seq<WorkSlot>, group: seq<WorkSlot>, k: nat, env: Env, l: Limits)
    requires k <= |group| && FirstSlotStop(done, group, k, env, l).Some?
    ensures FirstSlotStop(done, group, |group|, env, l) == FirstSlotStop(done, group, k, env, l)
    decreases |group| - k
  {
    hide SlotStop, RenderedBytes;
    if k < |group| { FirstStopStays(done, group, k + 1, env, l); }
  }

  /** The flight has done the first i groups. */
  ghost predicate Through(p: Progress, hits: Entries, groups: seq<seq<WorkSlot>>, i: nat, env: Env, l: Limits)
    requires i <= |groups| && NonEmpty(groups)
  {
    && Done(p, hits, Flat(groups[..i]), env, l) && SharedMatch(p.shared, groups, i, env, l)
    && p.handed == HandedOut(groups, i, env, l)
  }

  /** What a flight that ended in group i leaves behind. */
  ghost predicate Left(p: Progress, groups: seq<seq<WorkSlot>>, i: nat, env: Env, l: Limits)
    requires i < |groups| && NonEmpty(groups)
  {
    && Total(p.sent) <= l.maxOutputTotal
    && (p.handed == HandedOut(groups, i, env, l) || p.handed == HandedOut(groups, i + 1, env, l))
  }

  /**
   * One group from admission to publication: the flight ends here exactly for the reasons of this
   * group, and otherwise every slot of the group has its own entry.
   */
  method RunGroup(groups: seq<seq<WorkSlot>>, i: nat, ghost epochs: seq<Epoch>, counts: map<Cohort, nat>,
                  wants: map<Cohort, bool>, 
                  p: Progress, ghost hits: Entries, env: Env, l: Limits)
    returns (q: Progress, failure: Option<ErrorCode>)
    requires i < |groups| && NonEmpty(groups) && Coherent(groups[i]) && AllFromEpochs(groups, epochs, l)
    requires CountsExact(groups, counts, wants) && Through(p, hits, groups, i, env, l)
    ensures failure == GroupStop(groups, i, env, l)
    ensures failure.None? ==> Through(q, hits, groups, i + 1, env, l)
    ensures failure.Some? ==> Left(q, groups, i, env, l)
  {
    hide Coherent, AllFromEpochs, CountsExact, SharedMatch, Done, AdmitGroup, FirstFailure, EstimatedMask,
      CohortNeedsMasks, CohortSize, FirstSlotStop, Sent, RenderedBytes, Total;
    var group := groups[i];
    ghost var done := Flat(groups[..i]);
    FlatAppend(groups, i);
    SentWithinLimit(done, env, l);
    SentSoFar(p, hits, done, env, l);
    q, failure := p, None;
    var stages := env.group(GroupOf(group[0]));
    if stages.cancelled {
      return q, Some(Cancelled);
    }
    var job := group[0].job;
    var cohort := CohortOf(group[0]);
    if cohort.Some? { WantsAre(groups, counts, wants, cohort.value); }
    var wantsMask := cohort.Some? && cohort.value in counts && counts[cohort.value] > 1
                     && cohort.value in wants && wants[cohort.value];
    assert wantsMask == WantsMask(groups, group[0]);
    var source := SourceOf(job.plan, job.image);
    var admission := AdmitGroup(job.generator, source, l, wantsMask);
    assert admission == AdmissionOf(groups, group[0], l);
    if admission.Aborts? {
      return q, Some(admission.error);
    }
    MasksDoNotDecide(job.generator, source, l, wantsMask);
    var refusal: Option<ErrorCode> := None;
    if admission.Refused? {
      refusal := Some(ResourceLimitExceeded);
    } else {
      refusal := FirstFailure(admission.base, job.generator, stages, l);
    }
    assert refusal == Obstacle(job, stages, l);
    hide Obstacle;
    if refusal.Some? {
      NoBuild(p.shared, groups, i, env, l);
      assert p.handed + [] == p.handed;
      if IsFatal(refusal.value) {
        return q, refusal;
      }
      q := FailGroup(q, group, refusal.value, hits, done, env, l);
      return;
    }
    if wantsMask { MaskIsEstimated(job.generator, source, l); }
    var estimate := if wantsMask then EstimatedMask(source).value else 0;
    q, failure := GenerateGroup(groups, i, epochs, counts, wants, q, admission.mask, estimate, hits, env, l);
  }

  lemma MaskIsEstimated(p: Generator, source: Source, l: Limits)
    requires AdmitGroup(p, source, l, true).Admitted?
    ensures EstimatedMask(source).Ok?
  {
    hide EstimatedMask, EstimatedNormalized, OutputReservation;
  }

  lemma NoBuild(shared: map<Cohort, Analysis>, groups: seq<seq<WorkSlot>>, i: nat, env: Env, l: Limits)
    requires i < |groups| && groups[i] != [] && SharedMatch(shared, groups, i, env, l)
    requires Obstacle(groups[i][0].job, env.group(GroupOf(groups[i][0])), l).Some?
    ensures SharedMatch(shared, groups, i + 1, env, l)
  {
    hide Obstacle, SharedMatch;
    SharedUnchanged(shared, groups, i, env, l);
  }

  /** From the shared analysis to publication, for a group without an obstacle. */
  method GenerateGroup(groups: seq<seq<WorkSlot>>, i: nat, ghost epochs: seq<Epoch>, counts: map<Cohort, nat>,
                       wants: map<Cohort, bool>, 
                       p: Progress, mask: nat, estimate: nat, ghost hits: Entries, env: Env, l: Limits)
    returns (q: Progress, failure: Option<ErrorCode>)
    requires i < |groups| && NonEmpty(groups) && Coherent(groups[i]) && AllFromEpochs(groups, epochs, l)
    requires CountsExact(groups, counts, wants) && Through(p, hits, groups, i, env, l)
    requires Obstacle(groups[i][0].job, env.group(GroupOf(groups[i][0])), l).None?
    requires AdmissionOf(groups, groups[i][0], l).Admitted? && mask == AdmissionOf(groups, groups[i][0], l).mask
    requires WantsMask(groups, groups[i][0]) ==> EstimatedMask(SourceOf(groups[i][0].job.plan, groups[i][0].job.image)) == Ok(estimate)
    requires !WantsMask(groups, groups[i][0]) ==> estimate == 0
    ensures failure == LateStop(groups, i, env, l)
    ensures failure.None? ==> Through(q, hits, groups, i + 1, env, l)
    ensures failure.Some? ==> Left(q, groups, i, env, l)
  {
    hide Obstacle, Coherent, AllFromEpochs, CountsExact, SharedMatch, Done, AdmissionOf, EstimatedMask, WantsMask,
      SharingStop, AnalysisFor, FirstSlotStop, EntriesOf, RenderedBytes, Sent, Total, Flat, GroupOf;
    var group := groups[i];
    ghost var done := Flat(groups[..i]);
    FlatAppend(groups, i);
    SentWithinLimit(done, env, l);
    SentSoFar(p, hits, done, env, l);
    var stages := env.group(GroupOf(group[0]));
    var shared, permits, analysis, stopped :=
      ShareAnalysis(groups, i, epochs, counts, wants, p.shared, mask, estimate, env, l);
    q := p.(shared := shared, maskPermits := p.maskPermits + permits);
    assert Done(q, hits, done, env, l) by { SameDone(p, q, hits, done, env, l); }
    if stopped.Some? {
      return q, stopped;
    }
    if stages.generatorPermit.Some? {
      return q, stages.generatorPermit;
    }
    ghost var handed := q;
    q := q.(handed := q.handed + [Handed(group[0], analysis)]);
    assert Done(q, hits, done, env, l) by { SameDone(handed, q, hits, done, env, l); }
    match stages.generate
    case Err(error) =>
      if IsFatal(error) {
        return q, Some(error);
      }
      q := FailGroup(q, group, error, hits, done, env, l);
      failure := None;
    case Ok(outputs) =>
      q, failure := PublishOutputs(group, outputs, q, hits, done, env, l);
  }

  lemma SameDone(p: Progress, q: Progress, hits: Entries, done: seq<WorkSlot>, env: Env, l: Limits)
    requires Done(p, hits, done, env, l) && q.result == p.result && q.outputBytes == p.outputBytes && q.sent == p.sent
    ensures Done(q, hits, done, env, l)
  {
  }

  // The whole flight

  /** Slots of one epoch and generator share their job. */
  ghost predicate SharedJobs(slots: seq<WorkSlot>) {
    forall a, b :: a in slots && b in slots && GroupOf(a) == GroupOf(b) ==> a.job == b.job
  }

  /** Every slot's job was planned on its epoch. */
  ghost predicate Planned(slots: seq<WorkSlot>, epochs: seq<Epoch>, l: Limits) {
    forall slot :: slot in slots ==> FromEpoch(slot, epochs, l)
  }

  lemma {:induction false} PendingAmong(slots: seq<WorkSlot>, env: Env, slot: WorkSlot)
    ensures slot in Pending(slots, env) ==> slot in slots
  {
    if slots != [] { PendingAmong(slots[..|slots| - 1], env, slot); }
  }

  lemma {:induction false} InFlat(groups: seq<seq<WorkSlot>>, i: nat, k: nat)
    requires i < |groups| && k < |groups[i]|
    ensures groups[i][k] in Flat(groups)
  {
    if i > 0 { InFlat(groups[1..], i - 1, k); }
  }

  lemma GroupAmong(slots: seq<WorkSlot>, env: Env, i: nat, k: nat)
    requires var groups := GroupsOf(Pending(slots, env)); i < |groups| && k < |groups[i]|
    ensures GroupsOf(Pending(slots, env))[i][k] in slots
  {
    var groups := GroupsOf(Pending(slots, env));
    GroupsKeepSlots(Pending(slots, env));
    hide GroupsOf, Pending;
    InFlat(groups, i, k);
    assert groups[i][k] in multiset(Flat(groups));
    PendingAmong(slots, env, groups[i][k]);
  }

  lemma OneGroupIsCoherent(slots: seq<WorkSlot>, epochs: seq<Epoch>, env: Env, l: Limits, i: nat)
    requires i < |GroupsOf(Pending(slots, env))| && SharedJobs(slots) && Planned(slots, epochs, l)
    ensures var group := GroupsOf(Pending(slots, env))[i]; Coherent(group) && FromEpoch(group[0], epochs, l)
  {
    var groups := GroupsOf(Pending(slots, env));
    GroupsAreGrouped(Pending(slots, env));
    assert groups[i] != [] && forall k :: 0 <= k < |groups[i]| ==> GroupOf(groups[i][k]) == GroupOf(groups[i][0]);
    hide GroupsOf, Pending, FromEpoch, Grouped, GroupOf;
    forall k | 0 <= k < |groups[i]| ensures groups[i][k] in slots { GroupAmong(slots, env, i, k); }
  }

  lemma GroupsAreCoherent(groups: seq<seq<WorkSlot>>, slots: seq<WorkSlot>, epochs: seq<Epoch>, env: Env, l: Limits)
    requires groups == GroupsOf(Pending(slots, env)) && SharedJobs(slots) && Planned(slots, epochs, l)
    ensures NonEmpty(groups) && AllFromEpochs(groups, epochs, l)
    ensures forall i :: 0 <= i < |groups| ==> Coherent(groups[i])
  {
    hide GroupsOf, Pending, FromEpoch, SharedJobs, Planned;
    forall i | 0 <= i < |groups| ensures Coherent(groups[i]) && FromEpoch(groups[i][0], epochs, l) {
      OneGroupIsCoherent(slots, epochs, env, l, i);
    }
  }

  lemma {:induction false} FirstStopIs(groups: seq<seq<WorkSlot>>, i: nat, n: nat, env: Env, l: Limits)
    requires i < n <= |groups| && NonEmpty(groups)
    requires FirstStop(groups, i, env, l).None? && GroupStop(groups, i, env, l).Some?
    ensures FirstStop(groups, n, env, l) == GroupStop(groups, i, env, l)
  {
    hide GroupStop;
    if n > i + 1 { FirstStopIs(groups, i, n - 1, env, l); }
  }

  /** The groups in order, until one ends the flight. */
  method RunGroups(groups: seq<seq<WorkSlot>>, ghost epochs: seq<Epoch>, hits: Entries, env: Env, l: Limits)
    returns (p: Progress, failure: Option<ErrorCode>)
    requires NonEmpty(groups) && AllFromEpochs(groups, epochs, l) && forall i :: 0 <= i < |groups| ==> Coherent(groups[i])
    ensures failure == FirstStop(groups, |groups|, env, l)
    ensures failure.None? ==> Done(p, hits, Flat(groups), env, l) && p.handed == HandedOut(groups, |groups|, env, l)
    ensures failure.None? ==> p.result == EntriesOf(hits, Flat(groups), env, l) && p.sent == Sent(Flat(groups), env, l)
    ensures Total(p.sent) <= l.maxOutputTotal && forall h :: h in p.handed ==> Suits(h)
  {
    hide GroupStop, Suits, Done, SharedMatch, CountsExact, Coherent, AllFromEpochs, Total, Sent, EntriesOf, HandedOut, Flat;
    var counts, wants := CountCohorts(groups);
    p, failure := Progress(hits, map[], 0, 0, [], []), None;
    Starts(p, hits, groups, env, l);
    var i := 0;
    while i < |groups|
      invariant 0 <= i <= |groups| && failure.None?
      invariant Through(p, hits, groups, i, env, l) && FirstStop(groups, i, env, l).None?
    {
      p, failure := RunGroup(groups, i, epochs, counts, wants, p, hits, env, l);
      if failure.Some? {
        FirstStopIs(groups, i, |groups|, env, l);
        HandedSuits(groups, i, env, l);
        HandedSuits(groups, i + 1, env, l);
        return;
      }
      i := i + 1;
    }
    assert groups[..i] == groups;
    HandedSuits(groups, |groups|, env, l);
    Ends(p, hits, Flat(groups), env, l);
  }

  /** In a flight that succeeds, the last slot of every key says what its entry means. */
  ghost predicate EntriesMean(result: Entries, slots: seq<WorkSlot>, env: Env, l: Limits) {
    var done := Order(slots, env);
    forall n: nat :: LastOfKey(done, n) ==>
      done[n].key in result && EntryMeans(done[n], RenderedBytes(done[..n], env, l), result[done[n].key], env, l)
  }

  lemma FlightEntriesMean(slots: seq<WorkSlot>, epochs: seq<Epoch>, env: Env, l: Limits)
    requires SharedJobs(slots) && Planned(slots, epochs, l) && FlightResult(slots, env, l).Ok?
    ensures EntriesMean(FlightResult(slots, env, l).value, slots, env, l)
  {
    var groups, done := GroupsOf(Pending(slots, env)), Order(slots, env);
    GroupsAreCoherent(groups, slots, epochs, env, l);
    assert FirstStop(groups, |groups|, env, l).None?;
    var result := FlightResult(slots, env, l).value;
    assert result == EntriesOf(Hits(slots, env), done, env, l) && done == Flat(groups);
    hide FlightResult, EntryMeans, Entry, EntriesOf, RenderedBytes, Flat, FirstStop, GroupsOf, Order;
    forall n: nat | LastOfKey(done, n)
      ensures done[n].key in result && EntryMeans(done[n], RenderedBytes(done[..n], env, l), result[done[n].key], env, l)
    {
      var i, k := FlatPosition(groups, n);
      NoAbort(groups, |groups|, i, env, l);
      assert Coherent(groups[i]);
      LastEntryStands(Hits(slots, env), done, env, l, n);
      EntryMeaning(done[n], RenderedBytes(done[..n], env, l), env, l);
    }
  }

  /**
   * Whatever the environment does, the flight returns what its slots and environment determine. It
   * fails only where a lookup, a group or a slot gives it a reason to. Otherwise it has an entry for
   * exactly the requested keys, each with its exact cause. Every analysis it handed out suits its
   * generator, and the bytes it sent to be published stay within the total output limit even if it fails.
   */
  method RunFlight(slots: seq<WorkSlot>, ghost epochs: seq<Epoch>, env: Env, l: Limits)
    returns (r: Result<Entries>, sent: seq<nat>, handed: seq<Handed>)
    requires SharedJobs(slots) && Planned(slots, epochs, l)
    ensures r == FlightResult(slots, env, l)
    ensures r.Err? <==> FlightFails(slots, env, l)
    ensures r.Ok? ==> r.value.Keys == KeySet(slots)
    ensures r.Ok? ==> forall key :: key in r.value ==> Caused(key, r.value[key], slots, env, l)
    ensures r.Ok? ==> EntriesMean(r.value, slots, env, l)
    ensures Total(sent) <= l.maxOutputTotal && (r.Ok? ==> sent == Sent(Order(slots, env), env, l))
    ensures forall h :: h in handed ==> Suits(h)
    ensures r.Ok? ==> var groups := GroupsOf(Pending(slots, env)); handed == HandedOut(groups, |groups|, env, l)
  {
    FlightFailsIff(slots, env, l);
    if FlightResult(slots, env, l).Ok? {
      FlightAnswersKeys(slots, env, l);
      FlightEntriesCaused(slots, env, l);
      FlightEntriesMean(slots, epochs, env, l);
    }
    hide EntriesMean, FlightFails, Caused, FirstStop, Suits, Done, SharedMatch, KeySet, Total, Sent, EntriesOf, Grouped, GroupsOf, Pending, HandedOut;
    var result, pending, failure := LookupSlots(slots, env);
    if failure.Some? {
      assert Total([]) == 0 by { EmptyTotal(); }
      return Err(failure.value), [], [];
    }
    var groups := GroupSlots(pending);
    GroupsAreCoherent(groups, slots, epochs, env, l);
    var p, stopped := RunGroups(groups, epochs, result, env, l);
    if stopped.Some? {
      return Err(stopped.value), p.sent, p.handed;
    }
    r, sent, handed := Ok(p.result), p.sent, p.handed;
  }

  lemma EmptyTotal()
    ensures Total([]) == 0
  {
  }

  lemma Starts(p: Progress, hits: Entries, groups: seq<seq<WorkSlot>>, env: Env, l: Limits)
    requires p == Progress(hits, map[], 0, 0, [], []) && NonEmpty(groups)
    ensures Through(p, hits, groups, 0, env, l)
  {
    assert groups[..0] == [];
    NothingShared(groups, env, l);
  }

  lemma Ends(p: Progress, hits: Entries, done: seq<WorkSlot>, env: Env, l: Limits)
    requires Done(p, hits, done, env, l)
    ensures p.result == EntriesOf(hits, done, env, l) && p.sent == Sent(done, env, l) && Total(p.sent) <= l.maxOutputTotal
  {
    SentWithinLimit(done, env, l);
  }
}
