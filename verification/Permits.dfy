/**
 * The scheduler's permits as a state machine: blocking jobs keep their permit after their caller has
 * given up, and memory reservations are granted in the order of their requests, one that does not
 * fit holding up those behind it.
 */
module Permits {
  import opened Common
  import opened Budget

  datatype Grant = Grant(id: Id, bytes: nat)

  /** Running blocking jobs, the free permits of both semaphores, and who holds or waits for memory. */
  datatype State = State(freeCpu: nat, freeMemory: nat, jobs: map<Id, bool>, grants: seq<Grant>, queue: seq<Grant>)

  /** A job maps to whether its caller has stopped waiting for it. */
  datatype Action =
    | StartJob(job: Id)
    | GiveUp(job: Id)
    | FinishJob(job: Id)
    | RequestMemory(request: Grant)
    | GrantMemory
    | WithdrawMemory(position: nat)
    | ReleaseMemory(position: nat)

  function Initial(maxJobs: nat, l: Limits): State {
    State(maxJobs, l.maxCombined, map[], [], [])
  }

  /** A reservation the scheduler rejects outright is never queued; only the first in the queue is granted. */
  predicate Enabled(s: State, a: Action, l: Limits) {
    match a
    case StartJob(job) => s.freeCpu > 0 && job !in s.jobs
    case GiveUp(job) => job in s.jobs
    case FinishJob(job) => job in s.jobs
    case RequestMemory(request) => MemoryPermits(request.bytes, l).Ok?
    case GrantMemory => s.queue != [] && s.queue[0].bytes <= s.freeMemory
    case WithdrawMemory(position) => position < |s.queue|
    case ReleaseMemory(position) => position < |s.grants|
  }

  function Step(s: State, a: Action, l: Limits): State
    requires Enabled(s, a, l)
  {
    match a
    case StartJob(job) => s.(freeCpu := s.freeCpu - 1, jobs := s.jobs[job := false])
    case GiveUp(job) => s.(jobs := s.jobs[job := true])
    case FinishJob(job) => s.(freeCpu := s.freeCpu + 1, jobs := s.jobs - {job})
    case RequestMemory(request) => s.(queue := s.queue + [request])
    case GrantMemory =>
      s.(freeMemory := s.freeMemory - s.queue[0].bytes, grants := s.grants + [s.queue[0]], queue := s.queue[1..])
    case WithdrawMemory(position) => s.(queue := s.queue[..position] + s.queue[position + 1..])
    case ReleaseMemory(position) =>
      s.(freeMemory := s.freeMemory + s.grants[position].bytes, grants := s.grants[..position] + s.grants[position + 1..])
  }

  ghost predicate Runs(s: State, acts: seq<Action>, t: State, l: Limits)
    decreases acts
  {
    if acts == [] then s == t
    else Enabled(s, acts[0], l) && Runs(Step(s, acts[0], l), acts[1..], t, l)
  }

  ghost predicate Reachable(t: State, maxJobs: nat, l: Limits) {
    exists acts :: Runs(Initial(maxJobs, l), acts, t, l)
  }

  function Held(grants: seq<Grant>): nat {
    if grants == [] then 0 else Held(grants[..|grants| - 1]) + grants[|grants| - 1].bytes
  }

  lemma HeldAppend(grants: seq<Grant>, g: Grant)
    ensures Held(grants + [g]) == Held(grants) + g.bytes
  {
    assert (grants + [g])[..|grants + [g]| - 1] == grants;
  }

  lemma {:induction false} HeldWithout(grants: seq<Grant>, k: nat)
    requires k < |grants|
    ensures Held(grants) == Held(grants[..k] + grants[k + 1..]) + grants[k].bytes
  {
    var n := |grants| - 1;
    var rest := grants[..k] + grants[k + 1..];
    if k == n {
      assert rest == grants[..n];
    } else {
      HeldWithout(grants[..n], k);
      assert rest[..|rest| - 1] == grants[..n][..k] + grants[..n][k + 1..];
    }
  }

  /** Every permit is either free or held. */
  ghost predicate Conserved(s: State, maxJobs: nat, l: Limits) {
    s.freeCpu + |s.jobs| == maxJobs && s.freeMemory + Held(s.grants) == l.maxCombined
  }

  lemma StepConserves(s: State, a: Action, maxJobs: nat, l: Limits)
    requires Conserved(s, maxJobs, l) && Enabled(s, a, l)
    ensures Conserved(Step(s, a, l), maxJobs, l)
  {
    var t := Step(s, a, l);
    match a
    case StartJob(job) =>
      assert t.jobs.Keys == s.jobs.Keys + {job};
    case GiveUp(job) =>
      assert t.jobs.Keys == s.jobs.Keys;
    case FinishJob(job) =>
      assert t.jobs.Keys == s.jobs.Keys - {job};
    case RequestMemory(request) =>
    case GrantMemory =>
      HeldAppend(s.grants, s.queue[0]);
    case WithdrawMemory(position) =>
    case ReleaseMemory(position) =>
      HeldWithout(s.grants, position);
  }

  lemma {:induction false} RunConserves(s: State, acts: seq<Action>, t: State, maxJobs: nat, l: Limits)
    requires Conserved(s, maxJobs, l) && Runs(s, acts, t, l)
    ensures Conserved(t, maxJobs, l)
    decreases acts
  {
    hide Enabled, Step, Conserved;
    if acts != [] {
      StepConserves(s, acts[0], maxJobs, l);
      RunConserves(Step(s, acts[0], l), acts[1..], t, maxJobs, l);
    }
  }

  /** In every run at most the configured number of blocking jobs exist, abandoned ones included. */
  lemma JobsAndMemoryBounded(t: State, maxJobs: nat, l: Limits)
    requires Reachable(t, maxJobs, l)
    ensures |t.jobs| <= maxJobs && Held(t.grants) <= l.maxCombined
    ensures Conserved(t, maxJobs, l)
  {
    var acts :| Runs(Initial(maxJobs, l), acts, t, l);
    RunConserves(Initial(maxJobs, l), acts, t, maxJobs, l);
  }

  /** A job can start exactly while fewer than the configured number exist, abandoned ones included. */
  lemma StartsIffRoom(t: State, job: Id, maxJobs: nat, l: Limits)
    requires Reachable(t, maxJobs, l)
    ensures Enabled(t, StartJob(job), l) <==> |t.jobs| < maxJobs && job !in t.jobs
  {
    JobsAndMemoryBounded(t, maxJobs, l);
  }

  /** What one step makes of a job: it begins with its caller waiting, is abandoned only by giving up, and ends by finishing. */
  lemma JobByStep(s: State, a: Action, job: Id, l: Limits)
    requires Enabled(s, a, l)
    ensures var t := Step(s, a, l);
      && (job in t.jobs <==> (job in s.jobs && a != FinishJob(job)) || a == StartJob(job))
      && (job in t.jobs ==> (t.jobs[job] <==> a == GiveUp(job) || (job in s.jobs && s.jobs[job])))
  {
  }

  /** Over every run a job counts as abandoned only if its caller gave up. */
  lemma {:induction false} AbandonedByGivingUp(s: State, acts: seq<Action>, t: State, job: Id, l: Limits)
    requires Runs(s, acts, t, l) && job in t.jobs && t.jobs[job] && !(job in s.jobs && s.jobs[job])
    ensures GiveUp(job) in acts
    decreases acts
  {
    if acts != [] {
      assert acts == [acts[0]] + acts[1..];
      JobByStep(s, acts[0], job, l);
      hide Step, Enabled;
      if acts[0] != GiveUp(job) { AbandonedByGivingUp(Step(s, acts[0], l), acts[1..], t, job, l); }
    }
  }

  /** The scheduler grants a reservation exactly when it is first in the queue and fits beside everything held. */
  lemma GrantedIffFirstAndFits(t: State, maxJobs: nat, l: Limits)
    requires Reachable(t, maxJobs, l)
    ensures Enabled(t, GrantMemory, l) <==> t.queue != [] && Held(t.grants) + t.queue[0].bytes <= l.maxCombined
  {
    JobsAndMemoryBounded(t, maxJobs, l);
  }

  /** The first in the queue does not fit, so neither it nor anything behind it is granted. */
  predicate Blocked(t: State, l: Limits) {
    t.queue != [] && Held(t.grants) + t.queue[0].bytes > l.maxCombined
  }

  /**
   * While the queue is blocked, nothing is granted however small: along any run in which nothing held
   * is released and the first request does not withdraw, the grants stay what they are.
   */
  lemma {:induction false} BlockedQueueGrantsNothing(t: State, acts: seq<Action>, u: State, maxJobs: nat, l: Limits)
    requires Conserved(t, maxJobs, l) && Blocked(t, l) && Runs(t, acts, u, l)
    requires forall a :: a in acts ==> !a.ReleaseMemory? && a != WithdrawMemory(0)
    ensures u.grants == t.grants && Blocked(u, l) && u.queue[0] == t.queue[0]
    decreases acts
  {
    if acts != [] {
      assert acts[0] in acts;
      StepConserves(t, acts[0], maxJobs, l);
      var v := Step(t, acts[0], l);
      assert v.grants == t.grants && v.queue != [] && v.queue[0] == t.queue[0];
      hide Conserved, Held;
      BlockedQueueGrantsNothing(v, acts[1..], u, maxJobs, l);
    }
  }

  /** The reservations asked for, in order. */
  function Requests(acts: seq<Action>): seq<Grant> {
    if acts == [] then []
    else (if acts[0].RequestMemory? then [acts[0].request] else []) + Requests(acts[1..])
  }

  /** How many reservations were granted. */
  function GrantCount(acts: seq<Action>): nat {
    if acts == [] then 0 else (if acts[0].GrantMemory? then 1 else 0) + GrantCount(acts[1..])
  }

  /** The reservations granted along a run in which nothing is withdrawn are the first ones asked for, in that order. */
  lemma {:induction false} FirstComeFirstServed(s: State, acts: seq<Action>, t: State, l: Limits)
    requires Runs(s, acts, t, l) && forall a :: a in acts ==> !a.WithdrawMemory?
    ensures var asked, n := s.queue + Requests(acts), GrantCount(acts);
      && n <= |asked| && t.queue == asked[n..]
      && ((forall a :: a in acts ==> !a.ReleaseMemory?) ==> t.grants == s.grants + asked[..n])
    decreases acts
  {
    if acts == [] {
      assert s.queue + [] == s.queue;
    } else {
      var a, rest := acts[0], acts[1..];
      assert a in acts && forall b :: b in rest ==> b in acts;
      QueueStep(s, a, rest, l);
      hide Step, Enabled;
      FirstComeFirstServed(Step(s, a, l), rest, t, l);
      if a.GrantMemory? { Served(s.grants, s.queue[0], Step(s, a, l).queue + Requests(rest), GrantCount(rest)); }
    }
  }

  /** What one step does to the requests that are still to be served. */
  lemma QueueStep(s: State, a: Action, rest: seq<Action>, l: Limits)
    requires Enabled(s, a, l) && !a.WithdrawMemory?
    ensures var next, own := Step(s, a, l), if a.RequestMemory? then [a.request] else [];
      && (a.GrantMemory? ==>
            s.queue != [] && s.queue + (own + Requests(rest)) == [s.queue[0]] + (next.queue + Requests(rest))
            && next.grants == s.grants + [s.queue[0]])
      && (!a.GrantMemory? ==> s.queue + (own + Requests(rest)) == next.queue + Requests(rest))
      && (!a.GrantMemory? && !a.ReleaseMemory? ==> next.grants == s.grants)
  {
    hide Requests;
    if a.RequestMemory? { assert s.queue + ([a.request] + Requests(rest)) == s.queue + [a.request] + Requests(rest); }
    else { assert [] + Requests(rest) == Requests(rest); }
    if a.GrantMemory? { assert s.queue == [s.queue[0]] + s.queue[1..]; }
  }

  lemma Served(grants: seq<Grant>, first: Grant, rest: seq<Grant>, n: nat)
    requires n <= |rest|
    ensures ([first] + rest)[n + 1..] == rest[n..]
    ensures grants + ([first] + rest)[..n + 1] == grants + [first] + rest[..n]
  {
  }

  /** One who gives up waiting leaves the others waiting in their order. */
  lemma WithdrawKeepsOthers(s: State, position: nat, l: Limits)
    requires Enabled(s, WithdrawMemory(position), l)
    ensures var t := Step(s, WithdrawMemory(position), l);
      && t.grants == s.grants && t.freeMemory == s.freeMemory && |t.queue| == |s.queue| - 1
      && forall k :: 0 <= k < |t.queue| ==> t.queue[k] == s.queue[if k < position then k else k + 1]
  {
  }

  lemma {:induction false} HeldAtLeast(grants: seq<Grant>, k: nat)
    requires k < |grants|
    ensures grants[k].bytes <= Held(grants)
  {
    HeldWithout(grants, k);
  }

  /**
   * While a flight holds the mask of an earlier generator, the reservation of a later one that the
   * flight admitted is never granted, whatever else happens: the wait ends only with the deadline.
   * Once it is first in the queue, it also keeps everything behind it waiting.
   */
  lemma AdmittedReservationStarves()
    returns (sharing: Generator, fitted: Generator, source: Source, mask: nat, base: nat)
    ensures ValidLimits(DEFAULT_LIMITS) && Normalizes(sharing) && Normalizes(fitted)
    ensures AdmitGroup(sharing, source, DEFAULT_LIMITS, true).Admitted? && AdmitGroup(sharing, source, DEFAULT_LIMITS, true).mask == mask
    ensures AdmitGroup(fitted, source, DEFAULT_LIMITS, false).Admitted? && AdmitGroup(fitted, source, DEFAULT_LIMITS, false).base == base
    ensures forall t: State, maxJobs: nat, k: nat ::
      Reachable(t, maxJobs, DEFAULT_LIMITS) && k < |t.grants| && t.grants[k].bytes == mask && t.queue != [] && t.queue[0].bytes == base ==>
        !Enabled(t, GrantMemory, DEFAULT_LIMITS) && Blocked(t, DEFAULT_LIMITS)
  {
    var p, q;
    p, q, source := HeldMaskCanStarve();
    sharing, fitted := p.(norm := p.norm.(scale := Identity)), q.(norm := q.norm.(scale := Identity));
    mask, base := AdmitGroup(sharing, source, DEFAULT_LIMITS, true).mask, AdmitGroup(fitted, source, DEFAULT_LIMITS, false).base;
    hide AdmitGroup, Budget.Prepared, Accounted;
    forall t: State, maxJobs: nat, k: nat |
      Reachable(t, maxJobs, DEFAULT_LIMITS) && k < |t.grants| && t.grants[k].bytes == mask && t.queue != [] && t.queue[0].bytes == base
      ensures !Enabled(t, GrantMemory, DEFAULT_LIMITS) && Blocked(t, DEFAULT_LIMITS)
    {
      JobsAndMemoryBounded(t, maxJobs, DEFAULT_LIMITS);
      HeldAtLeast(t.grants, k);
    }
  }

  lemma RunFirst(s: State, a: Action, rest: seq<Action>, t: State, l: Limits)
    requires Enabled(s, a, l) && Runs(Step(s, a, l), rest, t, l)
    ensures Runs(s, [a] + rest, t, l)
  {
    assert ([a] + rest)[1..] == rest;
  }

  /** A reservation that fits can wait behind one that does not. */
  lemma SmallWaitsBehindLarge() returns (acts: seq<Action>, t: State)
    ensures Runs(Initial(1, DEFAULT_LIMITS), acts, t, DEFAULT_LIMITS) && |t.queue| == 2 && t.queue[1].bytes > 0
    ensures Held(t.grants) + t.queue[1].bytes <= DEFAULT_LIMITS.maxCombined && Blocked(t, DEFAULT_LIMITS)
  {
    var l, max := DEFAULT_LIMITS, DEFAULT_LIMITS.maxCombined;
    var held, large, little := Grant(1, 2), Grant(2, max), Grant(3, 1);
    var s1 := State(1, max, map[], [], [held]);
    var s2 := State(1, max - 2, map[], [held], []);
    var s3 := State(1, max - 2, map[], [held], [large]);
    t := State(1, max - 2, map[], [held], [large, little]);
    assert Held([held]) == 2;
    hide Runs;
    assert Runs(t, [], t, l) by { NoStep(t, l); }
    RunFirst(s3, RequestMemory(little), [], t, l);
    RunFirst(s2, RequestMemory(large), [RequestMemory(little)] + [], t, l);
    RunFirst(s1, GrantMemory, [RequestMemory(large)] + ([RequestMemory(little)] + []), t, l);
    acts := [RequestMemory(held)] + ([GrantMemory] + ([RequestMemory(large)] + ([RequestMemory(little)] + [])));
    RunFirst(Initial(1, l), RequestMemory(held), [GrantMemory] + ([RequestMemory(large)] + ([RequestMemory(little)] + [])), t, l);
  }

  lemma NoStep(t: State, l: Limits)
    ensures Runs(t, [], t, l)
  {
  }
}
