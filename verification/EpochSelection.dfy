/** Bounded selection of an epoch's frames. */
module EpochSelection {
  import opened Common
  import opened Arithmetic

  /** Nearest integer to numerator / denominator, ties rounding down. */
  function RoundTiesDown(numerator: nat, denominator: nat): nat
    requires denominator > 0
  {
    var quotient, remainder := numerator / denominator, numerator % denominator;
    quotient + if remainder > denominator - remainder then 1 else 0
  }

  lemma RoundBounds(n: nat, d: nat)
    requires d > 0
    ensures 2 * n - d <= 2 * d * RoundTiesDown(n, d) < 2 * n + d
  {
    var q, r := n / d, n % d;
    assert n == q * d + r;
    assert 2 * d * q == 2 * (q * d);
    assert 2 * d * (q + 1) == 2 * (q * d) + 2 * d;
  }

  /** Evenly spaced frame indices with both endpoints. */
  function SelectIndices(frameCount: nat, limit: nat): (r: seq<nat>)
    requires limit >= 1
    ensures |r| == Min(frameCount, limit)
  {
    if frameCount <= limit then seq(frameCount, k => k)
    else if limit == 1 then [0]
    else seq(limit, slot requires 0 <= slot < limit => RoundTiesDown(slot * (frameCount - 1), limit - 1))
  }

  /** Position p is the nearest to share k of the span, the lower of two equally near ones. */
  predicate EvenlyAt(frameCount: nat, n: nat, k: nat, p: nat) {
    if n <= 1 then p == 0
    else 2 * (k * (frameCount - 1)) - (n - 1) <= 2 * (n - 1) * p < 2 * (k * (frameCount - 1)) + (n - 1)
  }

  /** As many positions as asked for, evenly spaced over the frames. */
  predicate EvenPositions(frameCount: nat, at: seq<nat>) {
    forall k :: 0 <= k < |at| ==> EvenlyAt(frameCount, |at|, k, at[k])
  }

  predicate Increasing(indices: seq<nat>) {
    forall i, j :: 0 <= i < j < |indices| ==> indices[i] < indices[j]
  }

  /** One slot further moves by more than the rounding error. */
  lemma RoundStep(slot: nat, span: nat, d: nat)
    requires 0 < d < span
    ensures RoundTiesDown(slot * span, d) < RoundTiesDown((slot + 1) * span, d)
  {
    hide RoundTiesDown;
    var n, m := slot * span, (slot + 1) * span;
    assert m == n + span;
    RoundBounds(n, d);
    RoundBounds(m, d);
    LessFromProduct(2 * d, RoundTiesDown(n, d), RoundTiesDown(m, d));
  }

  lemma RoundExact(q: nat, d: nat)
    requires d > 0
    ensures RoundTiesDown(q * d, d) == q
  {
    RoundBounds(q * d, d);
    var r := RoundTiesDown(q * d, d);
    assert 2 * d * q == 2 * (q * d);
    assert 2 * d * (r + 1) == 2 * d * r + 2 * d;
    assert 2 * d * (q + 1) == 2 * d * q + 2 * d;
    if r < q { MulMonotone(2 * d, r + 1, q); }
    if r > q { MulMonotone(2 * d, q + 1, r); }
  }

  lemma {:induction false} SelectIncreasing(n: nat, limit: nat, i: nat, j: nat)
    requires 2 <= limit < n && i < j < limit
    ensures SelectIndices(n, limit)[i] < SelectIndices(n, limit)[j]
    decreases j
  {
    RoundStep(j - 1, n - 1, limit - 1);
    if i < j - 1 { SelectIncreasing(n, limit, i, j - 1); }
  }

  /** Strictly increasing, in range, as many as allowed, with both endpoints from two up. */
  lemma SelectIndicesContract(n: nat, limit: nat)
    requires limit >= 1
    ensures var r := SelectIndices(n, limit);
      && |r| == Min(n, limit)
      && Increasing(r)
      && (forall k :: 0 <= k < |r| ==> r[k] < n)
      && (n > 0 ==> r[0] == 0)
      && (n > 0 && limit >= 2 ==> r[|r| - 1] == n - 1)
  {
    var r := SelectIndices(n, limit);
    if 2 <= limit < n {
      RoundExact(0, limit - 1);
      RoundExact(n - 1, limit - 1);
      assert (limit - 1) * (n - 1) == (n - 1) * (limit - 1);
      forall i, j | 0 <= i < j < |r| ensures r[i] < r[j] { SelectIncreasing(n, limit, i, j); }
      forall k | 0 <= k < |r| ensures r[k] < n { if k < |r| - 1 { assert r[k] < r[|r| - 1]; } }
    }
  }

  /** The selection is evenly spaced. */
  lemma SelectIsEven(n: nat, limit: nat)
    requires 1 <= limit < n
    ensures EvenPositions(n, SelectIndices(n, limit))
  {
    var r := SelectIndices(n, limit);
    if limit > 1 {
      forall k | 0 <= k < |r| ensures EvenlyAt(n, limit, k, r[k]) {
        RoundBounds(k * (n - 1), limit - 1);
        assert r[k] == RoundTiesDown(k * (n - 1), limit - 1);
        hide RoundTiesDown, SelectIndices;
      }
    }
  }
}
