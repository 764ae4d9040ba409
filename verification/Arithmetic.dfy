/** Products, divisibility and Euclid's loop. */
module Arithmetic {

  predicate Divides(f: nat, n: nat)
    requires f > 0
  {
    n % f == 0
  }

  lemma MulMonotone(x: nat, a: int, b: int)
    requires a <= b
    ensures x * a <= x * b
  {
  }

  lemma LessFromProduct(x: nat, a: int, b: int)
    requires x * a < x * b
    ensures a < b
  {
    if b <= a { MulMonotone(x, b, a); }
  }

  lemma MultipleDivides(f: nat, k: int, n: nat)
    requires f > 0 && n == f * k
    ensures Divides(f, n) && n / f == k
  {
    var q := n / f;
    assert f * q <= f * k < f * (q + 1);
    assert f * (q - 1) < f * k;
    LessFromProduct(f, k, q + 1);
    LessFromProduct(f, q - 1, k);
  }

  /** Replacing a pair by the smaller one and the remainder keeps its common divisors. */
  lemma RemainderKeepsDivisors(f: nat, left: nat, right: nat)
    requires f > 0 && right > 0
    ensures Divides(f, left) && Divides(f, right) <==> Divides(f, right) && Divides(f, left % right)
  {
    var q := left / right;
    if Divides(f, right) {
      var a := right / f;
      assert right == f * a;
      assert q * right == f * (q * a);
      if Divides(f, left) {
        assert left % right == f * (left / f - q * a);
        MultipleDivides(f, left / f - q * a, left % right);
      }
      if Divides(f, left % right) {
        assert left == f * (q * a + (left % right) / f);
        MultipleDivides(f, q * a + (left % right) / f, left);
      }
    }
  }

  /** The divisors of g are exactly the common divisors of the pair. */
  ghost predicate IsGcd(g: nat, left: nat, right: nat) {
    forall f: nat :: f > 0 ==> (Divides(f, g) <==> Divides(f, left) && Divides(f, right))
  }

  method Gcd(a: nat, b: nat) returns (g: nat)
    ensures IsGcd(g, a, b)
    ensures a > 0 || b > 0 ==> g > 0
  {
    var left: nat, right: nat := a, b;
    while right != 0
      invariant a > 0 || b > 0 ==> left > 0 || right > 0
      invariant forall f: nat :: f > 0 ==>
        (Divides(f, left) && Divides(f, right) <==> Divides(f, a) && Divides(f, b))
      decreases right
    {
      forall f: nat | f > 0
        ensures Divides(f, right) && Divides(f, left % right) <==> Divides(f, a) && Divides(f, b)
      {
        RemainderKeepsDivisors(f, left, right);
      }
      left, right := right, left % right;
    }
    g := left;
  }

  /** The greatest common divisor is itself common and no common divisor exceeds it. */
  lemma GcdIsGreatest(g: nat, left: nat, right: nat, f: nat)
    requires IsGcd(g, left, right) && g > 0
    ensures Divides(g, left) && Divides(g, right)
    ensures f > 0 && Divides(f, left) && Divides(f, right) ==> f <= g
  {
    MultipleDivides(g, 1, g);
    if f > 0 && Divides(f, left) && Divides(f, right) {
      assert Divides(f, g);
      assert g == f * (g / f) && g / f >= 1;
      assert f * (g / f) >= f;
    }
  }
}
