/** The arithmetic of the scalar type `int` where it differs from Dafny's `int`. */
module CInt {

  function Abs(a: int): nat
  {
    if a < 0 then -a else a
  }

  /**
   * C++ `a / k` on `int`: the quotient is truncated toward zero, so the
   * remainder `a - q * k` is smaller than `k` in magnitude and is zero or has
   * the sign of `a` (Dafny's own `/` is Euclidean and differs for negative `a`).
   */
  function Div(a: int, k: int): (q: int)
    requires k != 0
    ensures Abs(a - q * k) < Abs(k)
    ensures a - q * k == 0 || (a - q * k < 0 <==> a < 0)
  {
    var m := Abs(a) / Abs(k);
    var rem := Abs(a) % Abs(k);
    assert Abs(a) == m * Abs(k) + rem;
    if (a < 0) == (k < 0) then
      assert m * k == if a < 0 then -(m * Abs(k)) else m * Abs(k);
      m
    else
      assert -m * k == if a < 0 then -(m * Abs(k)) else m * Abs(k);
      -m
  }

  lemma MulAbs(d: int, k: int)
    ensures Abs(d * k) == Abs(d) * Abs(k)
  {
    if d < 0 && k < 0 { assert d * k == (-d) * (-k); }
    else if d < 0 { assert d * k == -((-d) * k); }
    else if k < 0 { assert d * k == -(d * (-k)); }
  }

  /** A product of nonzero factors is nonzero. */
  lemma NonzeroProduct(a: int, b: int)
    requires a != 0 && b != 0
    ensures a * b != 0
  {
    MultipleAtLeast(a, b);
  }

  /** Multiplying by `k` twice agrees with multiplying once exactly when `c` or `k` is 0, or `k` is 1. */
  lemma ScaledTwice(c: int, k: int)
    ensures c * k * k == c * k <==> (c == 0 || k == 0 || k == 1)
  {
    assert c * k * k - c * k == (c * k) * (k - 1);
    if c != 0 && k != 0 && k != 1 {
      NonzeroProduct(c, k);
      NonzeroProduct(c * k, k - 1);
    }
  }

  /** A positive natural multiple of `n` is at least `n`. */
  lemma {:induction false} AtLeastOnce(p: nat, n: nat)
    requires p >= 1
    ensures p * n >= n
  {
    if p > 1 {
      AtLeastOnce(p - 1, n);
      assert p * n == (p - 1) * n + n;
    }
  }

  /** A nonzero integer multiple of `k` is at least as large as `k` in magnitude. */
  lemma MultipleAtLeast(d: int, k: int)
    requires d != 0
    ensures Abs(d * k) >= Abs(k)
  {
    MulAbs(d, k);
    AtLeastOnce(Abs(d), Abs(k));
  }

  /** The two conditions on the remainder in the contract of `Div` determine the quotient. */
  lemma DivUnique(a: int, k: int, q: int)
    requires k != 0
    requires Abs(a - q * k) < Abs(k)
    requires a - q * k == 0 || (a - q * k < 0 <==> a < 0)
    ensures q == Div(a, k)
  {
    var q0 := Div(a, k);
    var d := q0 - q;
    assert (a - q * k) - (a - q0 * k) == d * k;
    assert d == 0 by {
      if d != 0 {
        MultipleAtLeast(d, k);
        assert false;
      }
    }
  }

  /** Dividing an exact multiple gives the factor back, whatever the signs. */
  lemma DivOfMultiple(a: int, k: int)
    requires k != 0
    ensures Div(a * k, k) == a
  {
    DivUnique(a * k, k, a);
  }

  /** A nonzero value divided by itself is one. */
  lemma DivSelf(k: int)
    requires k != 0
    ensures Div(k, k) == 1
  {
    DivOfMultiple(1, k);
  }

  /** Division by one changes nothing. */
  lemma DivOne(a: int)
    ensures Div(a, 1) == a
  {
    DivOfMultiple(a, 1);
  }
}
