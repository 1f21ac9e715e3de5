/** Facts about Euclidean division by a positive divisor that the solver
    does not find on its own when the divisor is a variable. */
module DivMod {

  lemma {:induction false} MulAtLeast(c: int, k: int)
    requires c > 0 && k >= 1
    ensures c * k >= c
    decreases k
  {
    if k > 1 {
      MulAtLeast(c, k - 1);
      assert c * k == c * (k - 1) + c;
    }
  }

  /** Quotient and remainder are the only pair with a == c * q + r and
      0 <= r < c. */
  lemma DivModUnique(a: int, c: int, q: int, r: int)
    requires c > 0 && 0 <= r < c && a == c * q + r
    ensures a / c == q && a % c == r
  {
    var q0, r0 := a / c, a % c;
    assert a == c * q0 + r0;
    var d := q0 - q;
    assert c * d == r - r0 by {
      assert c * d == c * q0 - c * q;
    }
    if d >= 1 {
      MulAtLeast(c, d);
    } else if d <= -1 {
      MulAtLeast(c, -d);
    }
  }

  /** Adding the divisor leaves the remainder unchanged. */
  lemma ModShift(i: int, c: int)
    requires c > 0
    ensures (i + c) % c == i % c
  {
    DivModUnique(i + c, c, i / c + 1, i % c);
  }

  /** Counting up by one: the remainder steps up, or wraps to 0 and the
      quotient steps up. */
  lemma DivModStep(i: int, c: int)
    requires c > 0
    ensures i % c < c - 1 ==> (i + 1) / c == i / c && (i + 1) % c == i % c + 1
    ensures i % c == c - 1 ==> (i + 1) / c == i / c + 1 && (i + 1) % c == 0
  {
    if i % c < c - 1 {
      DivModUnique(i + 1, c, i / c, i % c + 1);
    } else {
      DivModUnique(i + 1, c, i / c + 1, 0);
    }
  }
}
