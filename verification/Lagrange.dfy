/**
 Polynomials over the scalar field, and interpolation at zero: the weights of any
 distinct points recover the constant term of every polynomial with at most as many
 coefficients as there are points.
 */
module Lagrange {
  import opened Scalars

  /** Coefficients, constant term first. */
  type Poly = seq<Scalar>

  function Eval(f: Poly, x: Scalar): Scalar {
    if |f| == 0 then ZERO else Add(f[0], Mul(x, Eval(f[1..], x)))
  }

  ghost predicate Distinct<T>(xs: seq<T>) {
    forall i, j :: 0 <= i < j < |xs| ==> xs[i] != xs[j]
  }

  /** The product of the negated other points. */
  function Num(x: Scalar, xs: seq<Scalar>): Scalar {
    if |xs| == 0 then ONE
    else if xs[0] == x then Num(x, xs[1..])
    else Mul(Neg(xs[0]), Num(x, xs[1..]))
  }

  /** The product of the distances to the other points. */
  function Den(x: Scalar, xs: seq<Scalar>): Scalar {
    if |xs| == 0 then ONE
    else if xs[0] == x then Den(x, xs[1..])
    else Mul(Sub(x, xs[0]), Den(x, xs[1..]))
  }

  /** The Lagrange weight at zero of point `x` among the points `xs`. */
  function Weight(x: Scalar, xs: seq<Scalar>): Scalar {
    Mul(Num(x, xs), Inverse(Den(x, xs)))
  }

  /** The sum of `f` over `points`, weighted as among `xs`. */
  function Combination(points: seq<Scalar>, xs: seq<Scalar>, f: Poly): Scalar {
    if |points| == 0 then ZERO
    else Add(Mul(Weight(points[0], xs), Eval(f, points[0])), Combination(points[1..], xs, f))
  }

  function Without(xs: seq<Scalar>, a: Scalar): seq<Scalar> {
    if |xs| == 0 then []
    else if xs[0] == a then Without(xs[1..], a)
    else [xs[0]] + Without(xs[1..], a)
  }

  // ------------------------------------------------------------------ rearrangements

  lemma AddInterchange(a: Scalar, b: Scalar, c: Scalar, d: Scalar)
    ensures Add(Add(a, b), Add(c, d)) == Add(Add(a, c), Add(b, d))
  {
    hide Add, Q;
    AddAssoc(a, b, Add(c, d));
    AddAssoc(b, c, d);
    AddComm(b, c);
    AddAssoc(c, b, d);
    AddAssoc(a, c, Add(b, d));
  }

  lemma MulSwap(w: Scalar, a: Scalar, e: Scalar)
    ensures Mul(w, Mul(a, e)) == Mul(a, Mul(w, e))
  {
    hide Mul, Q;
    MulAssoc(w, a, e);
    MulComm(w, a);
    MulAssoc(a, w, e);
  }

  // ------------------------------------------------------------- removing one point

  lemma {:induction false} WithoutElements(xs: seq<Scalar>, a: Scalar)
    ensures forall x :: x in Without(xs, a) <==> x in xs && x != a
    ensures |Without(xs, a)| <= |xs| && (a in xs ==> |Without(xs, a)| < |xs|)
    ensures a !in xs ==> Without(xs, a) == xs
    ensures Distinct(xs) ==> Distinct(Without(xs, a)) && |Without(xs, a)| >= |xs| - 1
  {
    if |xs| > 0 {
      assert xs == [xs[0]] + xs[1..];
      WithoutElements(xs[1..], a);
      if Distinct(xs) {
        assert forall i :: 0 < i < |xs| ==> xs[i] != xs[0];
        assert xs[0] !in xs[1..];
      }
    }
  }

  lemma {:induction false} DenNotZero(x: Scalar, xs: seq<Scalar>)
    requires IsPrime(Q)
    ensures Den(x, xs) != ZERO
  {
    hide Mul, Sub, IsPrime, Q;
    if |xs| > 0 {
      DenNotZero(x, xs[1..]);
      if xs[0] != x {
        SubZero(x, xs[0]);
        ProductNotZero(Sub(x, xs[0]), Den(x, xs[1..]));
      }
    }
  }

  lemma {:induction false} ProductsWithout(x: Scalar, xs: seq<Scalar>, a: Scalar)
    requires Distinct(xs) && a in xs && x != a
    ensures Num(x, xs) == Mul(Neg(a), Num(x, Without(xs, a)))
    ensures Den(x, xs) == Mul(Sub(x, a), Den(x, Without(xs, a)))
  {
    hide Mul, Sub, Neg, Q;
    var head, rest := xs[0], xs[1..];
    if head == a {
      assert a !in rest;
      WithoutElements(rest, a);
    } else {
      ProductsWithout(x, rest, a);
      var fewer := Without(rest, a);
      assert Without(xs, a) == [head] + fewer && ([head] + fewer)[1..] == fewer;
      MulSwap(Neg(head), Neg(a), Num(x, fewer));
      MulSwap(Sub(x, head), Sub(x, a), Den(x, fewer));
    }
  }

  /** Among one point fewer, the weights change by the factor the missing point contributed. */
  lemma WeightWithout(x: Scalar, xs: seq<Scalar>, a: Scalar)
    requires IsPrime(Q) && Distinct(xs) && a in xs && x != a
    ensures Mul(Weight(x, xs), Sub(x, a)) == Mul(Neg(a), Weight(x, Without(xs, a)))
  {
    hide Mul, Sub, Neg, Inverse, IsPrime, Distinct, Q;
    var n, d, c := Num(x, Without(xs, a)), Den(x, Without(xs, a)), Sub(x, a);
    ProductsWithout(x, xs, a);
    DenNotZero(x, Without(xs, a));
    SubZero(x, a);
    InverseOfProduct(c, d);
    var i := Inverse(Mul(c, d));
    MulAssoc(Mul(Neg(a), n), i, c);
    MulAssoc(Neg(a), n, Inverse(d));
  }

  /** Multiplying by x, seen from point `a`: a copy scaled by `a`, and a copy without `a`. */
  lemma {:induction false} ShiftFromPoint(points: seq<Scalar>, xs: seq<Scalar>, a: Scalar, f: Poly)
    requires IsPrime(Q) && Distinct(xs) && a in xs
    ensures Combination(points, xs, [ZERO] + f) ==
      Add(Mul(a, Combination(points, xs, f)), Mul(Neg(a), Combination(Without(points, a), Without(xs, a), f)))
  {
    hide Add, Mul, Sub, Neg, Weight, Distinct, IsPrime, Q;
    if |points| == 0 {
      MulUnit(a);
      MulUnit(Neg(a));
      AddUnit(ZERO);
    } else {
      var x, rest := points[0], points[1..];
      ShiftFromPoint(rest, xs, a, f);
      ShiftedTerm(x, xs, a, f);
      var s, t := Combination(rest, xs, f), Combination(Without(rest, a), Without(xs, a), f);
      var p := Mul(Weight(x, xs), Eval(f, x));
      Distrib(a, p, s);
      if x == a {
        AddAssoc(Mul(a, p), Mul(a, s), Mul(Neg(a), t));
      } else {
        var p' := Mul(Weight(x, Without(xs, a)), Eval(f, x));
        var fewer := Without(rest, a);
        assert Without(points, a) == [x] + fewer && ([x] + fewer)[1..] == fewer;
        Distrib(Neg(a), p', t);
        AddInterchange(Mul(a, p), Mul(Neg(a), p'), Mul(a, s), Mul(Neg(a), t));
      }
    }
  }

  lemma ShiftedTerm(x: Scalar, xs: seq<Scalar>, a: Scalar, f: Poly)
    requires IsPrime(Q) && Distinct(xs) && a in xs
    ensures var p := Mul(Weight(x, xs), Eval(f, x));
      Mul(Weight(x, xs), Eval([ZERO] + f, x)) ==
        if x == a then Mul(a, p)
        else Add(Mul(a, p), Mul(Neg(a), Mul(Weight(x, Without(xs, a)), Eval(f, x))))
  {
    var w, e := Weight(x, xs), Eval(f, x);
    assert ([ZERO] + f)[1..] == f;
    assert Eval([ZERO] + f, x) == Add(ZERO, Mul(x, e));
    hide Add, Mul, Sub, Neg, Weight, Distinct, IsPrime, Eval, Q;
    AddUnit(Mul(x, e));
    MulSwap(w, a, e);
    if x != a {
      var w' := Weight(x, Without(xs, a));
      SubZero(x, a);
      Distrib(e, a, Sub(x, a));
      Distrib(w, Mul(a, e), Mul(Sub(x, a), e));
      WeightWithout(x, xs, a);
      MulAssoc(w, Sub(x, a), e);
      MulAssoc(Neg(a), w', e);
    }
  }

  /** A constant term comes out of the sum. */
  lemma {:induction false} ConstantTerm(points: seq<Scalar>, xs: seq<Scalar>, c: Scalar, f: Poly)
    ensures Combination(points, xs, [c] + f) ==
      Add(Mul(c, Combination(points, xs, [ONE])), Combination(points, xs, [ZERO] + f))
  {
    hide Add, Mul, Weight, Q;
    if |points| == 0 {
      MulUnit(c);
      AddUnit(ZERO);
    } else {
      var x, rest := points[0], points[1..];
      ConstantTerm(rest, xs, c, f);
      var w, e := Weight(x, xs), Mul(x, Eval(f, x));
      EvalSplit(c, f, x);
      EvalSplit(ZERO, f, x);
      EvalSplit(ONE, [], x);
      hide Eval;
      assert [ONE] + [] == [ONE];
      MulUnit(x);
      MulUnit(w);
      AddUnit(ONE);
      AddUnit(e);
      Distrib(w, c, e);
      MulComm(w, c);
      var u, v := Combination(rest, xs, [ONE]), Combination(rest, xs, [ZERO] + f);
      AddInterchange(Mul(c, w), Mul(w, e), Mul(c, u), v);
      Distrib(c, w, u);
    }
  }

  lemma EvalSplit(c: Scalar, f: Poly, x: Scalar)
    ensures Eval([c] + f, x) == Add(c, Mul(x, Eval(f, x)))
  {
    assert ([c] + f)[1..] == f;
  }

  lemma EvalAtZero(f: Poly)
    ensures Eval(f, ZERO) == if |f| == 0 then ZERO else f[0]
  {
    hide Add, Mul, Q;
    if |f| > 0 {
      MulUnit(Eval(f[1..], ZERO));
      AddUnit(f[0]);
    }
  }

  // ------------------------------------------------------------------- interpolation

  /** The weights of any distinct points add up to one. */
  lemma {:induction false} WeightsSumToOne(xs: seq<Scalar>)
    requires IsPrime(Q) && Distinct(xs) && |xs| > 0
    ensures Combination(xs, xs, [ONE]) == ONE
    decreases |xs|
  {
    if |xs| == 1 {
      OneWeight(xs[0]);
      assert xs == [xs[0]];
    } else {
      var a, b := xs[0], xs[1];
      var s := Combination(xs, xs, [ONE]);
      WithoutElements(xs, a);
      WithoutElements(xs, b);
      assert a in xs && b in xs && a != b;
      hide Add, Mul, Sub, Neg, Weight, Combination, Without, IsPrime, Q;
      WeightsSumToOne(Without(xs, a));
      WeightsSumToOne(Without(xs, b));
      ShiftFromPoint(xs, xs, a, [ONE]);
      ShiftFromPoint(xs, xs, b, [ONE]);
      MulUnit(Neg(a));
      MulUnit(Neg(b));
      SameShift(a, b, s);
    }
  }

  lemma OneWeight(x: Scalar)
    requires IsPrime(Q)
    ensures Combination([x], [x], [ONE]) == ONE
  {
    hide Add, Mul, Inverse, IsPrime, Q;
    assert Num(x, [x]) == ONE && Den(x, [x]) == ONE;
    MulUnit(ONE);
    InverseUnique(ONE, ONE);
    EvalSplit(ONE, [], x);
    assert [ONE] + [] == [ONE];
    MulUnit(x);
    AddUnit(ONE);
  }

  /** a s - a = b s - b with a and b different leaves only s = 1. */
  lemma SameShift(a: Scalar, b: Scalar, s: Scalar)
    requires IsPrime(Q) && a != b
    requires Add(Mul(a, s), Neg(a)) == Add(Mul(b, s), Neg(b))
    ensures s == ONE
  {
    var z := Sub(s, ONE);
    Factored(a, s);
    Factored(b, s);
    SubZero(s, ONE);
    hide Add, Mul, Sub, Neg, IsPrime, Q;
    if s != ONE {
      Cancel(a, b, z);
    }
  }

  lemma Factored(a: Scalar, s: Scalar)
    ensures Add(Mul(a, s), Neg(a)) == Mul(a, Sub(s, ONE))
  {
    assert Sub(s, ONE) == Add(s, Neg(ONE));
    hide Add, Mul, Sub, Neg, Q;
    Distrib(a, s, Neg(ONE));
    NegMul(a, ONE);
    MulUnit(a);
  }

  /** Interpolation at zero: a polynomial with at most |xs| coefficients is recovered from |xs| distinct points. */
  lemma {:induction false} Interpolation(xs: seq<Scalar>, f: Poly)
    requires IsPrime(Q) && Distinct(xs) && |f| <= |xs|
    ensures Combination(xs, xs, f) == Eval(f, ZERO)
    decreases |f|
  {
    if |f| == 0 {
      EmptyPolynomial(xs, xs);
    } else {
      var c, g, a := f[0], f[1..], xs[0];
      assert f == [c] + g;
      WithoutElements(xs, a);
      ConstantTerm(xs, xs, c, g);
      WeightsSumToOne(xs);
      ShiftFromPoint(xs, xs, a, g);
      Interpolation(xs, g);
      Interpolation(Without(xs, a), g);
      EvalAtZero(f);
      hide Add, Mul, Neg, Weight, Combination, Without, Eval, IsPrime, Q;
      var g0 := Eval(g, ZERO);
      NegMul(a, g0);
      AddUnit(Mul(a, g0));
      AddComm(Mul(a, g0), Neg(Mul(a, g0)));
      MulUnit(c);
      AddUnit(c);
    }
  }

  lemma {:induction false} EmptyPolynomial(points: seq<Scalar>, xs: seq<Scalar>)
    ensures Combination(points, xs, []) == ZERO
  {
    hide Add, Mul, Weight, Q;
    if |points| > 0 {
      EmptyPolynomial(points[1..], xs);
      MulUnit(Weight(points[0], xs));
      AddUnit(ZERO);
    }
  }

  // --------------------------------------------------------- one coefficient too many

  /** What the weights of `xs` make of one coefficient too many, for each unit of it. */
  function Excess(xs: seq<Scalar>): Scalar {
    if |xs| == 0 then Neg(ONE) else Mul(Neg(xs[0]), Excess(xs[1..]))
  }

  lemma {:induction false} ExcessZeroIff(xs: seq<Scalar>)
    requires IsPrime(Q)
    ensures Excess(xs) == ZERO <==> ZERO in xs
  {
    NegNeg(ONE);
    hide Mul, Neg, IsPrime, Q;
    if |xs| > 0 {
      ExcessZeroIff(xs[1..]);
      NegNeg(xs[0]);
      MulUnit(Excess(xs[1..]));
      MulUnit(Neg(xs[0]));
      if xs[0] != ZERO && Excess(xs[1..]) != ZERO {
        ProductNotZero(Neg(xs[0]), Excess(xs[1..]));
      }
    }
  }

  /** With one coefficient more than points, the combination is off by the leading coefficient times `Excess`. */
  lemma {:induction false} OneCoefficientMore(xs: seq<Scalar>, f: Poly)
    requires IsPrime(Q) && Distinct(xs) && |f| == |xs| + 1
    ensures Combination(xs, xs, f) == Add(Eval(f, ZERO), Mul(f[|xs|], Excess(xs)))
    decreases |xs|
  {
    EvalAtZero(f);
    if |xs| == 0 {
      MulUnit(f[0]);
      NegMul(f[0], ONE);
      AddUnit(f[0]);
      AddComm(f[0], Neg(f[0]));
    } else {
      var c, g, a, rest := f[0], f[1..], xs[0], xs[1..];
      assert f == [c] + g && g[|rest|] == f[|xs|] && a !in rest;
      assert Without(xs, a) == rest by { WithoutElements(rest, a); }
      hide Add, Mul, Neg, Weight, Combination, Without, Eval, IsPrime, Q;
      ConstantTerm(xs, xs, c, g);
      WeightsSumToOne(xs);
      ShiftFromPoint(xs, xs, a, g);
      Interpolation(xs, g);
      OneCoefficientMore(rest, g);
      MulUnit(c);
      Leftover(a, Eval(g, ZERO), g[|rest|], Excess(rest));
    }
  }

  /** a e - a (e + t x) is t (-a x). */
  lemma Leftover(a: Scalar, e: Scalar, t: Scalar, x: Scalar)
    ensures Add(Mul(a, e), Mul(Neg(a), Add(e, Mul(t, x)))) == Mul(t, Mul(Neg(a), x))
  {
    hide Add, Mul, Neg, Q;
    Distrib(Neg(a), e, Mul(t, x));
    NegMul(a, e);
    AddAssoc(Mul(a, e), Neg(Mul(a, e)), Mul(Neg(a), Mul(t, x)));
    AddUnit(Mul(a, e));
    AddComm(Mul(a, e), Neg(Mul(a, e)));
    AddUnit(Mul(Neg(a), Mul(t, x)));
    MulSwap(Neg(a), t, x);
  }

  /** So |xs| + 1 coefficients are recovered exactly when the last one is zero, or one of the points is. */
  lemma RecoveredIff(xs: seq<Scalar>, f: Poly)
    requires IsPrime(Q) && Distinct(xs) && |f| == |xs| + 1
    ensures Combination(xs, xs, f) == Eval(f, ZERO) <==> f[|xs|] == ZERO || ZERO in xs
  {
    hide Add, Mul, Combination, Eval, Excess, IsPrime, Distinct, Q;
    OneCoefficientMore(xs, f);
    ExcessZeroIff(xs);
    var t, x := f[|xs|], Excess(xs);
    MulUnit(t);
    MulUnit(x);
    AddUnit(Eval(f, ZERO));
    if t != ZERO && x != ZERO {
      ProductNotZero(t, x);
      AddComm(Eval(f, ZERO), Mul(t, x));
      AddMoves(Mul(t, x), Eval(f, ZERO));
    }
  }

  lemma AddMoves(d: Scalar, t: Scalar)
    requires d != ZERO
    ensures Add(d, t) != t
  {
  }
}
