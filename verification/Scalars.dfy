/**
 The scalar field of BLS12-381. G1 and G2 are cyclic of the same prime order, so their
 points are named here by discrete logarithms: adding points is adding scalars,
 multiplying a point by a scalar is multiplying scalars, each generator is ONE, and a
 pairing multiplies logarithms.
 */
module Scalars {
  import opened Base

  /** The order of the groups. */
  const Q: nat := 0x73eda753299d7d483339d80809a1d80553bda402fffe5bfeffffffff00000001

  type Scalar = x: nat | x < Q

  /** The order of the curve's groups is z^4 - z^2 + 1 for its parameter z. */
  lemma OrderFromParameter()
    ensures var z := 0xd201_0000_0001_0000; Q == z * z * z * z - z * z + 1
  {
  }

  const ZERO: Scalar := 0
  const ONE: Scalar := 1

  ghost predicate Divides(d: int, n: int) {
    exists k: int :: n == d * k
  }

  ghost predicate IsPrime(p: nat) {
    p > 1 && forall d: nat :: 1 < d < p ==> !Divides(d, p)
  }

  function Add(a: Scalar, b: Scalar): Scalar {
    (a + b) % Q
  }

  function Neg(a: Scalar): Scalar {
    (Q - a) % Q
  }

  function Sub(a: Scalar, b: Scalar): Scalar {
    Add(a, Neg(b))
  }

  function Mul(a: Scalar, b: Scalar): Scalar {
    (a * b) % Q
  }

  // ------------------------------------------------------------------- ring laws

  lemma Shift(z: int, k: int)
    ensures (z + Q * k) % Q == z % Q
  {
  }

  lemma AddComm(a: Scalar, b: Scalar)
    ensures Add(a, b) == Add(b, a)
  {
  }

  lemma AddAssoc(a: Scalar, b: Scalar, c: Scalar)
    ensures Add(Add(a, b), c) == Add(a, Add(b, c))
  {
    Shift(a + b + c, -((a + b) / Q));
    Shift(a + b + c, -((b + c) / Q));
  }

  lemma AddUnit(a: Scalar)
    ensures Add(a, ZERO) == a && Add(ZERO, a) == a
    ensures Sub(a, a) == ZERO && Add(Neg(a), a) == ZERO
    ensures Neg(ZERO) == ZERO
  {
    assert a > 0 ==> Neg(a) == Q - a;
  }

  lemma MulComm(a: Scalar, b: Scalar)
    ensures Mul(a, b) == Mul(b, a)
  {
  }

  lemma MulUnit(a: Scalar)
    ensures Mul(a, ONE) == a && Mul(ONE, a) == a && Mul(a, ZERO) == ZERO && Mul(ZERO, a) == ZERO
  {
  }

  lemma MulAssoc(a: Scalar, b: Scalar, c: Scalar)
    ensures Mul(Mul(a, b), c) == Mul(a, Mul(b, c))
  {
    var k, l := (a * b) / Q, (b * c) / Q;
    assert Mul(a, b) * c == a * b * c - Q * (k * c) by {
      assert Mul(a, b) == a * b - Q * k;
    }
    assert a * Mul(b, c) == a * b * c - Q * (a * l) by {
      assert Mul(b, c) == b * c - Q * l;
    }
    Shift(a * b * c, -(k * c));
    Shift(a * b * c, -(a * l));
  }

  lemma Distrib(a: Scalar, b: Scalar, c: Scalar)
    ensures Mul(a, Add(b, c)) == Add(Mul(a, b), Mul(a, c))
    ensures Mul(Add(b, c), a) == Add(Mul(b, a), Mul(c, a))
  {
    var k := (b + c) / Q;
    assert a * Add(b, c) == a * b + a * c - Q * (a * k) by {
      assert Add(b, c) == b + c - Q * k;
    }
    Shift(a * b + a * c, -(a * k));
    Shift(a * b + a * c, -((a * b) / Q + (a * c) / Q));
    hide Q;
    MulComm(a, Add(b, c));
    MulComm(a, b);
    MulComm(a, c);
  }

  /** Signs move freely through products. */
  lemma NegMul(a: Scalar, b: Scalar)
    ensures Mul(Neg(a), b) == Neg(Mul(a, b)) && Mul(a, Neg(b)) == Neg(Mul(a, b))
  {
    hide Add, Neg, Mul, Q;
    NegMulLeft(a, b);
    NegMulLeft(b, a);
    MulComm(a, b);
    MulComm(a, Neg(b));
  }

  lemma NegMulLeft(a: Scalar, b: Scalar)
    ensures Mul(Neg(a), b) == Neg(Mul(a, b))
  {
    hide Add, Neg, Mul, Q;
    AddUnit(a);
    Distrib(b, Neg(a), a);
    MulUnit(b);
    MulComm(b, a);
    MulComm(b, Neg(a));
    NegUnique(Mul(Neg(a), b), Mul(a, b));
  }

  lemma NegUnique(x: Scalar, y: Scalar)
    requires Add(x, y) == ZERO
    ensures x == Neg(y)
  {
    hide Neg, Q;
    hide Add;
    AddAssoc(Neg(y), y, x);
    AddComm(x, y);
    AddUnit(y);
    AddUnit(x);
    AddUnit(Neg(y));
  }

  lemma NegNeg(a: Scalar)
    ensures Neg(Neg(a)) == a
    ensures Neg(a) == ZERO <==> a == ZERO
  {
  }

  lemma SubValue(a: Scalar, b: Scalar)
    ensures Sub(a, b) == if a >= b then a - b else a - b + Q
  {
    assert Neg(b) == if b == 0 then 0 else Q - b;
  }

  lemma SubZero(a: Scalar, b: Scalar)
    ensures Sub(a, b) == ZERO <==> a == b
    ensures Sub(b, a) == Neg(Sub(a, b))
    ensures Add(b, Sub(a, b)) == a
  {
    SubValue(a, b);
    SubValue(b, a);
    hide Sub;
  }

  // ---------------------------------------------------------------------- inverses

  /** Extended Euclid: the divisor and the two coefficients. */
  function Bezout(a: nat, b: nat): (nat, int, int)
    decreases b
  {
    if b == 0 then (a, 1, 0)
    else
      var (g, u, v) := Bezout(b, a % b);
      (g, v, u - (a / b) * v)
  }

  lemma {:induction false} BezoutIdentity(a: nat, b: nat)
    ensures var (g, u, v) := Bezout(a, b); g == a * u + b * v
    decreases b
  {
    if b != 0 {
      BezoutIdentity(b, a % b);
      var (g, u, v) := Bezout(b, a % b);
      EuclidStep(a, b, a / b, a % b, u, v);
    }
  }

  lemma EuclidStep(a: int, b: int, k: int, m: int, u: int, v: int)
    requires a == b * k + m
    ensures b * u + m * v == a * v + b * (u - k * v)
  {
  }

  lemma {:induction false} BezoutDivides(a: nat, b: nat)
    ensures Divides(Bezout(a, b).0, a) && Divides(Bezout(a, b).0, b)
    decreases b
  {
    var g := Bezout(a, b).0;
    if b == 0 {
      assert a == g * 1 && b == g * 0;
    } else {
      BezoutDivides(b, a % b);
      DividesSum(g, b, a / b, a % b);
    }
  }

  lemma DividesSum(g: int, b: int, c: int, m: int)
    requires Divides(g, b) && Divides(g, m)
    ensures Divides(g, b * c + m)
  {
    var k: int :| b == g * k;
    var l: int :| m == g * l;
    Factor(g, k, c, l);
    assert b * c + m == g * (k * c + l);
  }

  lemma Factor(g: int, k: int, c: int, l: int)
    ensures (g * k) * c + g * l == g * (k * c + l)
  {
  }

  /** `invert`, with ZERO for the element that has no inverse. */
  function Inverse(a: Scalar): Scalar {
    if a == ZERO then ZERO else Bezout(a, Q).1 % Q
  }

  function Invert(a: Scalar): Option<Scalar> {
    if a == ZERO then None else Some(Inverse(a))
  }

  lemma InverseLaw(a: Scalar)
    requires IsPrime(Q) && a != ZERO
    ensures Mul(a, Inverse(a)) == ONE
  {
    BezoutDivides(a, Q);
    BezoutIdentity(a, Q);
    var (g, u, v) := Bezout(a, Q);
    assert g == 1 by {
      var k: int :| a == g * k;
      CommonDivisor(a, g, k);
    }
    var w := u / Q;
    assert u % Q == u - Q * w;
    assert a * (u % Q) == 1 - Q * (v + a * w) by {
      assert a * (u - Q * w) == a * u - Q * (a * w);
    }
    Shift(1, -(v + a * w));
  }

  /** A prime has no common divisor but one with a smaller positive number. */
  lemma CommonDivisor(a: Scalar, g: nat, k: int)
    requires IsPrime(Q) && a != ZERO && a == g * k && Divides(g, Q)
    ensures g == 1
  {
    MultipleIsLarger(a, g, k);
  }

  lemma MultipleIsLarger(a: nat, g: nat, k: int)
    requires 0 < a == g * k
    ensures 0 < g <= a
  {
  }

  lemma Cancel(a: Scalar, b: Scalar, c: Scalar)
    requires IsPrime(Q) && c != ZERO && Mul(a, c) == Mul(b, c)
    ensures a == b
  {
    hide Mul, Inverse, IsPrime, Q;
    InverseLaw(c);
    MulAssoc(a, c, Inverse(c));
    MulAssoc(b, c, Inverse(c));
    MulUnit(a);
    MulUnit(b);
  }

  lemma ProductNotZero(a: Scalar, b: Scalar)
    requires IsPrime(Q) && a != ZERO && b != ZERO
    ensures Mul(a, b) != ZERO
  {
    hide Mul, IsPrime, Q;
    MulUnit(b);
    if Mul(a, b) == ZERO {
      Cancel(a, ZERO, b);
    }
  }

  lemma InverseUnique(a: Scalar, b: Scalar)
    requires IsPrime(Q) && Mul(a, b) == ONE
    ensures Inverse(a) == b
  {
    MulUnit(b);
    assert a != ZERO;
    hide Mul, Inverse, IsPrime, Q;
    InverseLaw(a);
    MulComm(a, b);
    MulComm(a, Inverse(a));
    Cancel(Inverse(a), b, a);
  }

  /** Dividing a product by one of its factors leaves the other. */
  lemma InverseOfProduct(c: Scalar, d: Scalar)
    requires IsPrime(Q) && c != ZERO && d != ZERO
    ensures Mul(Inverse(Mul(c, d)), c) == Inverse(d)
  {
    hide Mul, Inverse, IsPrime, Q;
    ProductNotZero(c, d);
    InverseLaw(Mul(c, d));
    var i := Inverse(Mul(c, d));
    MulComm(Mul(c, d), i);
    MulAssoc(i, c, d);
    MulComm(Mul(i, c), d);
    InverseUnique(d, Mul(i, c));
  }
}
