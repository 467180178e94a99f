/**
 Polynomials as a place to hide a secret: sums of polynomials, polynomials that vanish
 at given points, and what follows for sharing. Enough shares fix the secret; one share
 fewer leaves every secret possible.
 */
module Sharing {
  import opened Base
  import opened Scalars
  import opened Lagrange

  /** The sum of two polynomials, of any lengths. */
  function PolyAdd(f: Poly, g: Poly): (h: Poly)
    ensures |h| == if |f| < |g| then |g| else |f|
  {
    if |f| == 0 then g
    else if |g| == 0 then f
    else [Add(f[0], g[0])] + PolyAdd(f[1..], g[1..])
  }

  function Scale(c: Scalar, f: Poly): (h: Poly)
    ensures |h| == |f|
  {
    if |f| == 0 then [] else [Mul(c, f[0])] + Scale(c, f[1..])
  }

  lemma {:induction false} EvalSum(f: Poly, g: Poly, x: Scalar)
    ensures Eval(PolyAdd(f, g), x) == Add(Eval(f, x), Eval(g, x))
  {
    hide Add, Mul, Q;
    if |f| == 0 {
      AddUnit(Eval(g, x));
    } else if |g| == 0 {
      AddUnit(Eval(f, x));
    } else {
      EvalSum(f[1..], g[1..], x);
      EvalSplit(Add(f[0], g[0]), PolyAdd(f[1..], g[1..]), x);
      var e, d := Eval(f[1..], x), Eval(g[1..], x);
      Distrib(x, e, d);
      AddInterchange(f[0], g[0], Mul(x, e), Mul(x, d));
    }
  }

  lemma {:induction false} EvalScale(c: Scalar, f: Poly, x: Scalar)
    ensures Eval(Scale(c, f), x) == Mul(c, Eval(f, x))
  {
    hide Add, Mul, Q;
    if |f| == 0 {
      MulUnit(c);
    } else {
      EvalScale(c, f[1..], x);
      EvalSplit(Mul(c, f[0]), Scale(c, f[1..]), x);
      var e := Eval(f[1..], x);
      MulSwap(x, c, e);
      Distrib(c, f[0], Mul(x, e));
    }
  }

  function Raised(h: Poly, c: Scalar): Poly {
    if |h| == 0 then [c] else [Add(c, h[0])] + h[1..]
  }

  /** (X - a) f. */
  function TimesRoot(f: Poly, a: Scalar): (h: Poly)
    ensures |h| == if |f| == 0 then 0 else |f| + 1
  {
    if |f| == 0 then [] else [Mul(Neg(a), f[0])] + Raised(TimesRoot(f[1..], a), f[0])
  }

  lemma EvalRaised(h: Poly, c: Scalar, x: Scalar)
    ensures Eval(Raised(h, c), x) == Add(c, Eval(h, x))
  {
    hide Add, Mul, Q;
    if |h| == 0 {
      MulUnit(x);
    } else {
      EvalSplit(Add(c, h[0]), h[1..], x);
      AddAssoc(c, h[0], Mul(x, Eval(h[1..], x)));
    }
  }

  lemma {:induction false} EvalTimesRoot(f: Poly, a: Scalar, x: Scalar)
    ensures Eval(TimesRoot(f, a), x) == Mul(Sub(x, a), Eval(f, x))
  {
    if |f| == 0 {
      MulUnit(Sub(x, a));
    } else {
      var c, g := f[0], f[1..];
      EvalTimesRoot(g, a, x);
      EvalRaised(TimesRoot(g, a), c, x);
      EvalSplit(Mul(Neg(a), c), Raised(TimesRoot(g, a), c), x);
      var r, e := Sub(x, a), Eval(g, x);
      assert r == Add(x, Neg(a));
      hide Add, Sub, Neg, Mul, Eval, Q;
      Distrib(x, c, Mul(r, e));
      Distrib(c, x, Neg(a));
      AddAssoc(Mul(Neg(a), c), Mul(x, c), Mul(x, Mul(r, e)));
      AddComm(Mul(Neg(a), c), Mul(x, c));
      MulSwap(r, x, e);
      Distrib(r, c, Mul(x, e));
      assert Eval(f, x) == Add(c, Mul(x, e)) by { assert f == [c] + g; EvalSplit(c, g, x); }
    }
  }

  /** The product of (X - x) over the points `xs`. */
  function Vanishing(xs: seq<Scalar>): (h: Poly)
    ensures |h| == |xs| + 1
  {
    if |xs| == 0 then [ONE] else TimesRoot(Vanishing(xs[1..]), xs[0])
  }

  lemma {:induction false} VanishesExactly(xs: seq<Scalar>, x: Scalar)
    requires IsPrime(Q)
    ensures Eval(Vanishing(xs), x) == ZERO <==> x in xs
  {
    hide Mul, Sub, Add, IsPrime, TimesRoot, Q;
    if |xs| == 0 {
      MulUnit(x);
      AddUnit(ONE);
    } else {
      VanishesExactly(xs[1..], x);
      EvalTimesRoot(Vanishing(xs[1..]), xs[0], x);
      SubZero(x, xs[0]);
      MulUnit(Sub(x, xs[0]));
      MulUnit(Eval(Vanishing(xs[1..]), x));
      if x != xs[0] && x !in xs[1..] {
        ProductNotZero(Sub(x, xs[0]), Eval(Vanishing(xs[1..]), x));
      }
    }
  }

  /** The polynomial with the shares of `f` at `xs`, but with `value` at `a`. */
  function Reshared(f: Poly, xs: seq<Scalar>, a: Scalar, value: Scalar): Poly {
    var z := Vanishing(xs);
    PolyAdd(f, Scale(Mul(Sub(value, Eval(f, a)), Inverse(Eval(z, a))), z))
  }

  /** Fewer shares than coefficients fit every value at every other point. */
  lemma FewSharesHideTheRest(f: Poly, xs: seq<Scalar>, a: Scalar, value: Scalar)
    requires IsPrime(Q) && |xs| < |f| && a !in xs
    ensures var g := Reshared(f, xs, a, value);
      |g| == |f| && Eval(g, a) == value && forall x :: x in xs ==> Eval(g, x) == Eval(f, x)
  {
    hide Add, Sub, Neg, Mul, Inverse, Vanishing, PolyAdd, Scale, Eval, IsPrime, Q;
    var z := Vanishing(xs);
    var d, z0 := Sub(value, Eval(f, a)), Eval(z, a);
    var c := Mul(d, Inverse(z0));
    VanishesExactly(xs, a);
    EvalSum(f, Scale(c, z), a);
    EvalScale(c, z, a);
    MulAssoc(d, Inverse(z0), z0);
    InverseLaw(z0);
    MulComm(z0, Inverse(z0));
    MulUnit(d);
    SubZero(value, Eval(f, a));
    forall x | x in xs ensures Eval(Reshared(f, xs, a, value), x) == Eval(f, x) {
      VanishesExactly(xs, x);
      EvalSum(f, Scale(c, z), x);
      EvalScale(c, z, x);
      MulUnit(c);
      AddUnit(Eval(f, x));
    }
  }

  /** In particular every secret, the points of shares not being zero. */
  lemma FewSharesHideTheSecret(f: Poly, xs: seq<Scalar>, secret: Scalar)
    requires IsPrime(Q) && |xs| < |f| && ZERO !in xs
    ensures var g := Reshared(f, xs, ZERO, secret);
      |g| == |f| && Eval(g, ZERO) == secret && forall x :: x in xs ==> Eval(g, x) == Eval(f, x)
  {
    hide Reshared, Eval, IsPrime, Q;
    FewSharesHideTheRest(f, xs, ZERO, secret);
  }

  /** Enough shares fix the secret: two polynomials of that size with the same shares have the same constant term. */
  lemma SharesFixTheSecret(f: Poly, g: Poly, xs: seq<Scalar>)
    requires IsPrime(Q) && Distinct(xs) && |f| <= |xs| && |g| <= |xs|
    requires forall x :: x in xs ==> Eval(f, x) == Eval(g, x)
    ensures Eval(f, ZERO) == Eval(g, ZERO)
  {
    hide Combination, IsPrime, Q, Eval;
    Interpolation(xs, f);
    Interpolation(xs, g);
    SameCombination(xs, xs, f, g);
  }

  lemma {:induction false} SameCombination(points: seq<Scalar>, xs: seq<Scalar>, f: Poly, g: Poly)
    requires forall x :: x in points ==> Eval(f, x) == Eval(g, x)
    ensures Combination(points, xs, f) == Combination(points, xs, g)
  {
    hide Add, Mul, Weight, Eval, Q;
    if |points| > 0 {
      SameCombination(points[1..], xs, f, g);
    }
  }

  // ------------------------------------------------------------- evaluation by powers

  /** The accumulator loop of every share evaluation; on commitments, the same loop in the exponent. */
  method EvaluateByPowers(coeffs: Poly, x: Scalar) returns (y: Scalar)
    ensures y == Eval(coeffs, x)
  {
    hide Add, Mul, Q;
    y := ZERO;
    var xPow := ONE;
    MulUnit(Eval(coeffs, x));
    AddUnit(Eval(coeffs, x));
    assert coeffs[0..] == coeffs;
    for n := 0 to |coeffs|
      invariant Add(y, Mul(xPow, Eval(coeffs[n..], x))) == Eval(coeffs, x)
    {
      var e := Eval(coeffs[n + 1..], x);
      assert coeffs[n..][1..] == coeffs[n + 1..];
      Distrib(xPow, coeffs[n], Mul(x, e));
      MulAssoc(xPow, x, e);
      MulComm(xPow, coeffs[n]);
      AddAssoc(y, Mul(coeffs[n], xPow), Mul(Mul(xPow, x), e));
      y := Add(y, Mul(coeffs[n], xPow));
      xPow := Mul(xPow, x);
    }
    MulUnit(xPow);
    AddUnit(y);
  }
}
