/** The table of resolved-range handles: stable identities under a count and a memory budget. */
module RangeHandles {
  import opened Common

  const MAX_ENTRIES: nat := 4096
  const MAX_BUDGET: nat := 16 * 1024 * 1024

  /** Scope stands for session and target together; body for the other serialised fields. */
  datatype Range = Range(frameIds: seq<Id>, scope: Id, start: nat, end: nat, body: nat)

  datatype FrameInfo = FrameInfo(id: Id, scope: Id, ordinal: nat, time: nat)

  /** How serialisation presents a range: a validity verdict and the byte chunks it writes. */
  datatype Codec = Codec(valid: Range -> bool, chunks: Range -> seq<nat>)

  function Sum(chunks: seq<nat>): nat {
    if chunks == [] then 0 else Sum(chunks[..|chunks| - 1]) + chunks[|chunks| - 1]
  }

  lemma {:induction false} SumMonotone(chunks: seq<nat>, k: nat)
    requires k <= |chunks|
    ensures Sum(chunks[..k]) <= Sum(chunks)
  {
    if k < |chunks| {
      var n := |chunks| - 1;
      assert chunks[..n][..k] == chunks[..k];
      SumMonotone(chunks[..n], k);
    } else {
      assert chunks[..k] == chunks;
    }
  }

  /** A writer that counts bytes and refuses to pass its limit. */
  class BudgetWriter {
    var written: nat
    var exceeded: bool
    const limit: nat

    constructor (limit: nat)
      ensures written == 0 && !exceeded && this.limit == limit
    {
      this.limit := limit;
      written, exceeded := 0, false;
    }

    method Write(bytes: nat) returns (ok: bool)
      modifies this
      ensures ok <==> old(written) + bytes <= limit && old(written) + bytes < U64_LIMIT
      ensures ok ==> written == old(written) + bytes && exceeded == old(exceeded)
      ensures !ok ==> written == old(written) && exceeded
    {
      if written + bytes >= U64_LIMIT || written + bytes > limit {
        exceeded := true;
        return false;
      }
      written := written + bytes;
      ok := true;
    }
  }

  /** The serialised size, found without writing more than the limit. */
  method RangeBudgetBytes(chunks: seq<nat>, limit: nat) returns (r: Result<nat>)
    requires limit < U64_LIMIT
    ensures r == if Sum(chunks) <= limit then Ok(Sum(chunks)) else Err(ResourceLimitExceeded)
  {
    var writer := new BudgetWriter(limit);
    var k := 0;
    while k < |chunks|
      invariant 0 <= k <= |chunks| && fresh(writer)
      invariant writer.written == Sum(chunks[..k]) <= limit && writer.limit == limit
    {
      assert chunks[..k + 1][..k] == chunks[..k];
      SumMonotone(chunks, k + 1);
      var ok := writer.Write(chunks[k]);
      if !ok {
        return Err(ResourceLimitExceeded);
      }
      k := k + 1;
    }
    assert chunks[..k] == chunks;
    r := Ok(writer.written);
  }

  /** Every frame of the range is still there, in order, in its scope and in its time span. */
  predicate Available(range: Range, metadata: seq<FrameInfo>) {
    && |metadata| == |range.frameIds|
    && (forall k :: 0 <= k < |metadata| ==>
          metadata[k].id == range.frameIds[k] && metadata[k].scope == range.scope
          && range.start <= metadata[k].time <= range.end)
    && forall k :: 0 < k < |metadata| ==>
         metadata[k - 1].ordinal < metadata[k].ordinal && metadata[k - 1].time <= metadata[k].time
  }

  method ValidateAvailableMetadata(range: Range, metadata: seq<FrameInfo>) returns (failure: Option<ErrorCode>)
    ensures failure == if Available(range, metadata) then None else Some(EvidenceInvalidated)
  {
    var good := |metadata| == |range.frameIds|;
    var k := 0;
    while good && k < |metadata|
      invariant 0 <= k <= |metadata|
      invariant good ==> |metadata| == |range.frameIds|
      invariant good <==>
        (|metadata| == |range.frameIds|
         && (forall j :: 0 <= j < k ==>
               metadata[j].id == range.frameIds[j] && metadata[j].scope == range.scope
               && range.start <= metadata[j].time <= range.end)
         && forall j :: 0 < j < k ==>
              metadata[j - 1].ordinal < metadata[j].ordinal && metadata[j - 1].time <= metadata[j].time)
    {
      var frame := metadata[k];
      good := frame.id == range.frameIds[k] && frame.scope == range.scope && range.start <= frame.time <= range.end
              && (k == 0 || (metadata[k - 1].ordinal < frame.ordinal && metadata[k - 1].time <= frame.time));
      k := k + 1;
    }
    failure := if good then None else Some(EvidenceInvalidated);
  }

  /** A read that finds frames gone means the evidence was invalidated; other errors pass through. */
  function MetadataError(error: ErrorCode): ErrorCode {
    if error.NotFound? then EvidenceInvalidated else error
  }

  /** The checks of a registration before the table is looked at. */
  function Precheck(codec: Codec, range: Range, metadata: Result<seq<FrameInfo>>, budget: nat): Option<ErrorCode> {
    if !codec.valid(range) then Some(InvalidInput)
    else if Sum(codec.chunks(range)) > budget then Some(ResourceLimitExceeded)
    else if metadata.Err? then Some(if metadata.error.NotFound? then EvidenceInvalidated else metadata.error)
    else if !Available(range, metadata.value) then Some(EvidenceInvalidated)
    else None
  }

  function TotalCost(admitted: seq<(Id, Range)>, codec: Codec): nat {
    if admitted == [] then 0
    else TotalCost(admitted[..|admitted| - 1], codec) + Sum(codec.chunks(admitted[|admitted| - 1].1))
  }

  /** Handles and their ranges, without repetition, in the order they were admitted. */
  ghost predicate Records(admitted: seq<(Id, Range)>, ranges: map<Id, Range>) {
    && (forall k :: 0 <= k < |admitted| ==> admitted[k].0 in ranges && ranges[admitted[k].0] == admitted[k].1)
    && (forall h :: h in ranges ==> (h, ranges[h]) in admitted)
    && |ranges| == |admitted|
  }

  /** No range has two handles. */
  ghost predicate OneToOne(ranges: map<Id, Range>) {
    forall g, h :: g in ranges && h in ranges && ranges[g] == ranges[h] ==> g == h
  }

  lemma OneToOneGrows(ranges: map<Id, Range>, h: Id, range: Range)
    requires OneToOne(ranges) && h !in ranges && forall g :: g in ranges ==> ranges[g] != range
    ensures OneToOne(ranges[h := range])
  {
  }

  lemma TotalCostAppend(admitted: seq<(Id, Range)>, codec: Codec, h: Id, range: Range)
    ensures TotalCost(admitted + [(h, range)], codec) == TotalCost(admitted, codec) + Sum(codec.chunks(range))
  {
    var more := admitted + [(h, range)];
    assert more[..|more| - 1] == admitted;
  }

  lemma AdmittedGrow(admitted: seq<(Id, Range)>, ranges: map<Id, Range>, h: Id, range: Range)
    requires Records(admitted, ranges) && h !in ranges
    ensures Records(admitted + [(h, range)], ranges[h := range])
  {
    var more, wider := admitted + [(h, range)], ranges[h := range];
    assert more[|admitted|] == (h, range);
    forall g | g in wider ensures (g, wider[g]) in more {
      if g != h {
        var k :| 0 <= k < |admitted| && admitted[k] == (g, ranges[g]);
        assert more[k] == (g, wider[g]);
      }
    }
    assert wider.Keys == ranges.Keys + {h};
    assert |wider| == |wider.Keys| && |ranges| == |ranges.Keys|;
  }

  class RangeHandleTable {
    var ranges: map<Id, Range>
    var usedBudget: nat
    const codec: Codec
    const maxEntries: nat
    const maxBudget: nat
    /** Handles and ranges in the order they were admitted. */
    ghost var admitted: seq<(Id, Range)>

    /** Handles and ranges correspond one to one, and the budget is the sum of their sizes. */
    ghost predicate Valid()
      reads this
    {
      && Records(admitted, ranges) && |ranges| <= maxEntries
      && usedBudget == TotalCost(admitted, codec) <= maxBudget < U64_LIMIT
      && NIL !in ranges
      && OneToOne(ranges)
    }

    constructor (codec: Codec, maxEntries: nat, maxBudget: nat)
      requires maxBudget < U64_LIMIT
      ensures Valid() && ranges == map[] && usedBudget == 0
      ensures this.codec == codec && this.maxEntries == maxEntries && this.maxBudget == maxBudget
    {
      this.codec, this.maxEntries, this.maxBudget := codec, maxEntries, maxBudget;
      ranges, usedBudget, admitted := map[], 0, [];
    }

    ghost predicate Known(range: Range)
      reads this
    {
      exists h :: h in ranges && ranges[h] == range
    }

    /** The part of a registration that holds the lock. */
    method Admit(range: Range, cost: nat, drawn: Id) returns (r: Result<Id>)
      requires Valid() && cost == Sum(codec.chunks(range)) && cost <= maxBudget
      modifies this
      ensures Valid()
      ensures r.Ok? ==> r.value in ranges && ranges[r.value] == range
      ensures forall h :: h in old(ranges) ==> h in ranges && ranges[h] == old(ranges)[h]
      ensures old(Known(range)) || r.Err? ==>
        ranges == old(ranges) && usedBudget == old(usedBudget) && admitted == old(admitted)
      ensures r.Ok? && !old(Known(range)) ==>
        && r.value == drawn && drawn !in old(ranges)
        && ranges == old(ranges)[drawn := range] && admitted == old(admitted) + [(drawn, range)]
        && usedBudget == old(usedBudget) + cost
      ensures r.Err? <==>
        !old(Known(range)) &&
        (|old(ranges)| >= maxEntries || old(usedBudget) + cost > maxBudget || drawn == NIL || drawn in old(ranges))
    {
      hide Sum, Records, OneToOne, TotalCost;
      if h: Id :| h in ranges && ranges[h] == range {
        return Ok(h);
      }
      var next := usedBudget + cost;
      if next >= U64_LIMIT || |ranges| >= maxEntries || next > maxBudget {
        return Err(ResourceLimitExceeded);
      }
      if drawn == NIL || drawn in ranges {
        return Err(Internal);
      }
      AdmittedGrow(admitted, ranges, drawn, range);
      OneToOneGrows(ranges, drawn, range);
      TotalCostAppend(admitted, codec, drawn, range);
      assert |ranges[drawn := range]| == |ranges| + 1 by { assert ranges[drawn := range].Keys == ranges.Keys + {drawn}; }
      admitted := admitted + [(drawn, range)];
      ranges := ranges[drawn := range];
      usedBudget := next;
      r := Ok(drawn);
    }

    /**
     * A known range keeps its handle and a new one gets the identifier drawn for it. Nothing is ever
     * evicted or rebound, and a failed registration changes nothing.
     */
    method Register(range: Range, metadata: Result<seq<FrameInfo>>, drawn: Id) returns (r: Result<Id>)
      requires Valid()
      modifies this
      ensures Valid()
      ensures r.Ok? ==> r.value in ranges && ranges[r.value] == range
      ensures forall h :: h in old(ranges) ==> h in ranges && ranges[h] == old(ranges)[h]
      ensures old(Known(range)) || r.Err? ==>
        ranges == old(ranges) && usedBudget == old(usedBudget) && admitted == old(admitted)
      ensures r.Ok? && !old(Known(range)) ==>
        && r.value == drawn && drawn !in old(ranges)
        && ranges == old(ranges)[drawn := range] && admitted == old(admitted) + [(drawn, range)]
        && usedBudget == old(usedBudget) + Sum(codec.chunks(range))
      ensures Precheck(codec, range, metadata, maxBudget).Some? ==> r == Err(Precheck(codec, range, metadata, maxBudget).value)
      ensures r.Err? <==>
        || Precheck(codec, range, metadata, maxBudget).Some?
        || (!old(Known(range)) &&
            (|old(ranges)| >= maxEntries || old(usedBudget) + Sum(codec.chunks(range)) > maxBudget
             || drawn == NIL || drawn in old(ranges)))
    {
      if !codec.valid(range) {
        return Err(InvalidInput);
      }
      var cost := RangeBudgetBytes(codec.chunks(range), maxBudget);
      if cost.Err? {
        return Err(cost.error);
      }
      if metadata.Err? {
        return Err(MetadataError(metadata.error));
      }
      var gone := ValidateAvailableMetadata(range, metadata.value);
      if gone.Some? {
        return Err(gone.value);
      }
      hide Available, Sum, Valid;
      r := Admit(range, cost.value, drawn);
    }

    /** A handle resolves to the range it was given for, while that range's frames remain available. */
    method ResolveAvailable(handle: Id, metadata: Result<seq<FrameInfo>>) returns (r: Result<Range>)
      requires Valid()
      ensures r.Ok? <==> handle in ranges && metadata.Ok? && Available(ranges[handle], metadata.value)
      ensures r.Ok? ==> r.value == ranges[handle]
      ensures r.Err? ==> r.error == if handle in ranges && metadata.Err? && !metadata.error.NotFound? then metadata.error else EvidenceInvalidated
    {
      if handle !in ranges {
        return Err(EvidenceInvalidated);
      }
      if metadata.Err? {
        return Err(MetadataError(metadata.error));
      }
      var gone := ValidateAvailableMetadata(ranges[handle], metadata.value);
      if gone.Some? {
        return Err(gone.value);
      }
      r := Ok(ranges[handle]);
    }
  }

  datatype Call = Call(range: Range, metadata: Result<seq<FrameInfo>>, drawn: Id)

  /** Two successful registrations have the same handle exactly when they are for the same range. */
  predicate SameHandleIffSameRange(calls: seq<Call>, results: seq<Result<Id>>, i: nat, j: nat)
    requires i < |results| <= |calls| && j < |results|
  {
    results[i].Ok? && results[j].Ok? ==> (results[i] == results[j] <==> calls[i].range == calls[j].range)
  }

  datatype TableState = TableState(ranges: map<Id, Range>, used: nat)

  predicate KnownIn(ranges: map<Id, Range>, range: Range) {
    exists h :: h in ranges && ranges[h] == range
  }

  /** When a registration is refused, from the call and the table it finds. */
  predicate Refused(codec: Codec, s: TableState, call: Call) {
    || Precheck(codec, call.range, call.metadata, MAX_BUDGET).Some?
    || (!KnownIn(s.ranges, call.range) &&
        (|s.ranges| >= MAX_ENTRIES || s.used + Sum(codec.chunks(call.range)) > MAX_BUDGET
         || call.drawn == NIL || call.drawn in s.ranges))
  }

  /** One registration: refused without effect, answered with the known handle, or admitted. */
  predicate Registers(codec: Codec, s: TableState, call: Call, r: Result<Id>, t: TableState) {
    if Refused(codec, s, call) then r.Err? && t == s
    else if KnownIn(s.ranges, call.range) then r.Ok? && r.value in s.ranges && s.ranges[r.value] == call.range && t == s
    else
      && r == Ok(call.drawn)
      && t == TableState(s.ranges[call.drawn := call.range], s.used + Sum(codec.chunks(call.range)))
  }

  /** Every handle issued so far is bound to the range it was issued for. */
  ghost predicate Issued(calls: seq<Call>, results: seq<Result<Id>>, ranges: map<Id, Range>) {
    && |results| <= |calls|
    && forall i: nat :: i < |results| && results[i].Ok? ==>
         results[i].value in ranges && ranges[results[i].value] == calls[i].range
  }

  lemma IssuedGrows(calls: seq<Call>, results: seq<Result<Id>>, r: Result<Id>, before: map<Id, Range>, after: map<Id, Range>)
    requires Issued(calls, results, before) && |results| < |calls|
    requires forall h :: h in before ==> h in after && after[h] == before[h]
    requires r.Ok? ==> r.value in after && after[r.value] == calls[|results|].range
    ensures Issued(calls, results + [r], after)
  {
  }

  lemma IssuedIdentifies(calls: seq<Call>, results: seq<Result<Id>>, ranges: map<Id, Range>, i: nat, j: nat)
    requires Issued(calls, results, ranges) && OneToOne(ranges) && i < |results| && j < |results|
    ensures SameHandleIffSameRange(calls, results, i, j)
  {
  }

  /** The states a sequence of registrations goes through. */
  ghost predicate Trace(codec: Codec, calls: seq<Call>, results: seq<Result<Id>>, states: seq<TableState>) {
    && |results| <= |calls| && |states| == |results| + 1 && states[0] == TableState(map[], 0)
    && forall k: nat :: k < |results| ==> Registers(codec, states[k], calls[k], results[k], states[k + 1])
  }

  lemma TraceGrows(codec: Codec, calls: seq<Call>, results: seq<Result<Id>>, states: seq<TableState>, r: Result<Id>, next: TableState)
    requires Trace(codec, calls, results, states) && |results| < |calls|
    requires Registers(codec, states[|results|], calls[|results|], r, next)
    ensures Trace(codec, calls, results + [r], states + [next])
  {
    hide Registers;
    var more, longer := results + [r], states + [next];
    forall k: nat | k < |more| ensures Registers(codec, longer[k], calls[k], more[k], longer[k + 1]) {
      if k < |results| { assert Registers(codec, states[k], calls[k], results[k], states[k + 1]); }
    }
  }

  /** A registration as a step from one table state to the next. */
  method RegisterStep(table: RangeHandleTable, call: Call, ghost s: TableState) returns (r: Result<Id>, ghost t: TableState)
    requires table.Valid() && table.maxEntries == MAX_ENTRIES && table.maxBudget == MAX_BUDGET
    requires s == TableState(table.ranges, table.usedBudget)
    modifies table
    ensures table.Valid() && t == TableState(table.ranges, table.usedBudget)
    ensures Registers(table.codec, s, call, r, t)
    ensures forall h :: h in s.ranges ==> h in t.ranges && t.ranges[h] == s.ranges[h]
    ensures r.Ok? ==> r.value in t.ranges && t.ranges[r.value] == call.range
  {
    hide Records, OneToOne, TotalCost, Sum, Precheck;
    assert table.Known(call.range) == KnownIn(s.ranges, call.range);
    r := table.Register(call.range, call.metadata, call.drawn);
    t := TableState(table.ranges, table.usedBudget);
  }

  /**
   * Over any sequence of registrations handles identify ranges: what was issued once still resolves
   * to its range at the end, the budget never exceeds its limit, and each call is refused exactly when
   * the table it finds says so.
   */
  method RegisterAll(codec: Codec, calls: seq<Call>)
    returns (table: RangeHandleTable, results: seq<Result<Id>>, ghost states: seq<TableState>)
    ensures |results| == |calls| && table.Valid() && |table.ranges| <= MAX_ENTRIES && table.usedBudget <= MAX_BUDGET
    ensures Trace(codec, calls, results, states) && states[|calls|] == TableState(table.ranges, table.usedBudget)
    ensures Issued(calls, results, table.ranges)
    ensures forall i: nat, j: nat :: i < |calls| && j < |calls| ==> SameHandleIffSameRange(calls, results, i, j)
  {
    table := new RangeHandleTable(codec, MAX_ENTRIES, MAX_BUDGET);
    results := [];
    states := [TableState(map[], 0)];
    var k := 0;
    while k < |calls|
      invariant 0 <= k <= |calls| && |results| == k && fresh(table)
      invariant table.Valid() && table.codec == codec && table.maxEntries == MAX_ENTRIES && table.maxBudget == MAX_BUDGET
      invariant Trace(codec, calls, results, states) && |states| == k + 1
      invariant states[k] == TableState(table.ranges, table.usedBudget)
      invariant Issued(calls, results, table.ranges)
    {
      hide *;
      ghost var before, next := states[k], states[k];
      var r;
      r, next := RegisterStep(table, calls[k], before);
      TraceGrows(codec, calls, results, states, r, next);
      IssuedGrows(calls, results, r, before.ranges, table.ranges);
      results := results + [r];
      states := states + [next];
      k := k + 1;
    }
    assert OneToOne(table.ranges);
    forall i: nat, j: nat | i < |calls| && j < |calls| ensures SameHandleIffSameRange(calls, results, i, j) {
      IssuedIdentifies(calls, results, table.ranges, i, j);
    }
  }
}
