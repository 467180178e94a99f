/**
 What partial signatures give away. As many as the shares have coefficients determine every
 other one, by interpolation at the point of the missing signer; fewer leave it open.
 */
module Derivation {
  import opened Scalars
  import opened Lagrange
  import opened Sharing
  import opened Threshold

  /** f(X + a). */
  function Shifted(f: Poly, a: Scalar): (h: Poly)
    ensures |h| == |f|
  {
    if |f| == 0 then [] else PolyAdd([f[0]], TimesRoot(Shifted(f[1..], a), Neg(a)))
  }

  lemma {:induction false} EvalShifted(f: Poly, a: Scalar, x: Scalar)
    ensures Eval(Shifted(f, a), x) == Eval(f, Add(x, a))
  {
    if |f| > 0 {
      var g := Shifted(f[1..], a);
      EvalShifted(f[1..], a, x);
      EvalSum([f[0]], TimesRoot(g, Neg(a)), x);
      EvalTimesRoot(g, Neg(a), x);
      assert Eval([f[0]], x) == f[0] by { Constant(f[0], x); }
      NegNeg(a);
      assert Sub(x, Neg(a)) == Add(x, a);
      hide Add, Mul, Sub, Neg, PolyAdd, Eval, TimesRoot, Q;
      assert Eval(f, Add(x, a)) == Add(f[0], Mul(Add(x, a), Eval(f[1..], Add(x, a)))) by {
        assert f == [f[0]] + f[1..];
        EvalSplit(f[0], f[1..], Add(x, a));
      }
    }
  }

  lemma Constant(c: Scalar, x: Scalar)
    ensures Eval([c], x) == c
  {
    EvalSplit(c, [], x);
    assert [c] + [] == [c];
    hide Add, Mul, Q;
    MulUnit(x);
    AddUnit(c);
  }

  /** The points, seen from `a`. */
  function Moved(xs: seq<Scalar>, a: Scalar): seq<Scalar> {
    if |xs| == 0 then [] else [Sub(xs[0], a)] + Moved(xs[1..], a)
  }

  lemma {:induction false} MovedAt(xs: seq<Scalar>, a: Scalar)
    ensures |Moved(xs, a)| == |xs| && forall i :: 0 <= i < |xs| ==> Moved(xs, a)[i] == Sub(xs[i], a)
  {
    if |xs| > 0 {
      MovedAt(xs[1..], a);
    }
  }

  lemma MovedDistinct(xs: seq<Scalar>, a: Scalar)
    requires Distinct(xs)
    ensures Distinct(Moved(xs, a))
  {
    MovedAt(xs, a);
    hide Sub;
    forall i, j | 0 <= i < j < |xs| ensures Sub(xs[i], a) != Sub(xs[j], a) {
      SubZero(xs[i], a);
      SubZero(xs[j], a);
    }
  }

  /** The signatures of `ids`, weighted for the value at `a`. */
  function DerivedSum(ids: seq<nat>, all: seq<nat>, sigs: Partials, a: Scalar): Scalar
    requires forall id :: id in ids ==> id in sigs
  {
    if |ids| == 0 then ZERO
    else
      Add(Mul(sigs[ids[0]], Weight(Sub(NodePoint(ids[0]), a), Moved(Points(all), a))),
          DerivedSum(ids[1..], all, sigs, a))
  }

  lemma {:induction false} SharesDerive(hm: Scalar, ids: seq<nat>, all: seq<nat>, sigs: Partials, f: Poly, a: Scalar)
    requires forall id :: id in ids ==> id in sigs && sigs[id] == SignHash(hm, Eval(f, NodePoint(id)))
    ensures DerivedSum(ids, all, sigs, a) ==
      Mul(hm, Combination(Moved(Points(ids), a), Moved(Points(all), a), Shifted(f, a)))
  {
    hide Add, Mul, Sub, Weight, Eval, Shifted, Q;
    if |ids| == 0 {
      MulUnit(hm);
    } else {
      SharesDerive(hm, ids[1..], all, sigs, f, a);
      var x := NodePoint(ids[0]);
      var y := Sub(x, a);
      var w, e := Weight(y, Moved(Points(all), a)), Eval(f, x);
      assert Points(ids)[1..] == Points(ids[1..]) && Points(ids)[0] == x;
      var points := Moved(Points(ids), a);
      assert points[1..] == Moved(Points(ids[1..]), a) && points[0] == y;
      SubZero(x, a);
      AddComm(a, y);
      EvalShifted(f, a, y);
      MulAssoc(hm, e, w);
      MulComm(e, w);
      Distrib(hm, Mul(w, e), Combination(points[1..], Moved(Points(all), a), Shifted(f, a)));
    }
  }

  /** From as many valid partial signatures as there are coefficients, the valid one of any other node. */
  lemma OthersSignature(hm: Scalar, ids: seq<nat>, sigs: Partials, f: Poly, i: nat)
    requires IsPrime(Q) && NodeIds(ids) && |f| <= |ids|
    requires forall id :: id in ids ==> id in sigs && VerifyHash(hm, sigs[id], Mul(ONE, Eval(f, NodePoint(id))))
    ensures VerifyHash(hm, DerivedSum(ids, ids, sigs, NodePoint(i)), Mul(ONE, Eval(f, NodePoint(i))))
  {
    var a, xs := NodePoint(i), Points(ids);
    hide IsPrime, Combination, VerifyHash, Eval, Shifted, Mul, Add, Distinct, Q;
    forall id | id in ids ensures sigs[id] == SignHash(hm, Eval(f, NodePoint(id))) {
      VerifiesIffSigned(hm, sigs[id], Eval(f, NodePoint(id)));
    }
    PointsAt(ids);
    PointsDistinct(ids);
    MovedAt(xs, a);
    MovedDistinct(xs, a);
    SharesDerive(hm, ids, ids, sigs, f, a);
    Interpolation(Moved(xs, a), Shifted(f, a));
    EvalShifted(f, a, ZERO);
    AddUnit(a);
    VerifiesIffSigned(hm, DerivedSum(ids, ids, sigs, a), Eval(f, a));
  }
}
