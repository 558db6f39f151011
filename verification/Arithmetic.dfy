// The few nonlinear facts the other modules need, each proved once.
module Arithmetic {

  lemma MulMonotone(b: int, x: int, y: int)
    requires 0 <= b && x <= y
    ensures b * x <= b * y
  {
    var d := y - x;
    assert b * y == b * x + b * d;
    assert b * d >= 0;
  }

  lemma MulStrict(b: int, x: int, y: int)
    requires 0 < b && x < y
    ensures b * x + b <= b * y
  {
    MulMonotone(b, x + 1, y);
    assert b * (x + 1) == b * x + b;
  }

  lemma DivBounds(a: int, b: int)
    requires b > 0
    ensures b * (a / b) <= a < b * (a / b) + b
    ensures a >= 0 ==> 0 <= a / b <= a
  {
    var q := a / b;
    assert a == b * q + a % b;
    if a >= 0 {
      if q < 0 { MulStrict(b, q, 0); assert false; }
      if q > 0 { MulMonotone(q, 1, b); assert b * q == q * b; }
    }
  }

  lemma DivUnique(a: int, b: int, q: int)
    requires b > 0 && b * q <= a < b * q + b
    ensures a / b == q && a % b == a - b * q
  {
    DivBounds(a, b);
    var d := a / b;
    if d < q { MulStrict(b, d, q); }
    if d > q { MulStrict(b, q, d); }
  }

  // The quotient rounded up.
  function CeilDiv(a: nat, b: nat): (q: nat)
    requires b > 0
  {
    DivBounds(a + b - 1, b);
    (a + b - 1) / b
  }

  lemma CeilDivBounds(a: nat, b: nat)
    requires b > 0
    ensures b * CeilDiv(a, b) >= a
    ensures a > 0 ==> CeilDiv(a, b) > 0
    ensures b * CeilDiv(a, b) - b < a
    ensures CeilDiv(a, b) <= a
  {
    DivBounds(a + b - 1, b);
    var q := CeilDiv(a, b);
    assert b * a >= a by {
      MulMonotone(a, 1, b);
      assert b * a == a * b;
    }
    if q > a { MulStrict(b, a, q); }
  }

  lemma CeilDivUnique(a: int, b: int, q: int)
    requires b > 0 && a > 0
    requires b * q - b < a <= b * q
    ensures q > 0 && CeilDiv(a, b) == q
  {
    if q <= 0 { MulMonotone(b, q, 0); }
    DivUnique(a + b - 1, b, q);
  }
}
