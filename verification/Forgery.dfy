/**
 The limits of the threshold check: when a wrong partial signature among the chosen ones
 is noticed, and when a polynomial one coefficient too long is still recovered.
 */
module Forgery {
  import opened Base
  import opened Scalars
  import opened Lagrange
  import opened Threshold

  /** The id whose 32-bit successor wraps to zero, and so stands at the secret itself. */
  const LAST_ID: nat := U32 - 1

  lemma {:induction false} NumNotZero(x: Scalar, xs: seq<Scalar>)
    requires IsPrime(Q) && ZERO !in xs
    ensures Num(x, xs) != ZERO
  {
    hide Mul, Neg, IsPrime, Q;
    if |xs| > 0 {
      NumNotZero(x, xs[1..]);
      NegNeg(xs[0]);
      if xs[0] != x {
        ProductNotZero(Neg(xs[0]), Num(x, xs[1..]));
      }
    }
  }

  lemma WeightNotZero(x: Scalar, xs: seq<Scalar>)
    requires IsPrime(Q) && ZERO !in xs
    ensures Weight(x, xs) != ZERO
  {
    hide Mul, Inverse, IsPrime, Q;
    NumNotZero(x, xs);
    DenNotZero(x, xs);
    InverseLaw(Den(x, xs));
    MulUnit(Den(x, xs));
    ProductNotZero(Num(x, xs), Inverse(Den(x, xs)));
  }

  /** Replacing one signature moves the sum by the weighted difference. */
  lemma {:induction false} SumWithOneChanged(ids: seq<nat>, all: seq<nat>, sigs: Partials, bad: nat, s: Scalar)
    requires Distinct(ids) && forall id :: id in ids ==> id in sigs
    ensures WeightedSum(ids, all, sigs[bad := s]) ==
      if bad in ids then Add(Mul(Sub(s, sigs[bad]), Weight(NodePoint(bad), Points(all))), WeightedSum(ids, all, sigs))
      else WeightedSum(ids, all, sigs)
  {
    hide Add, Mul, Sub, Weight, NodePoint, Q;
    if |ids| > 0 {
      var id, rest := ids[0], ids[1..];
      SumWithOneChanged(rest, all, sigs, bad, s);
      var w := Weight(NodePoint(id), Points(all));
      var t := WeightedSum(rest, all, sigs);
      if id == bad {
        assert bad !in rest;
        SubZero(s, sigs[bad]);
        AddComm(sigs[bad], Sub(s, sigs[bad]));
        Distrib(w, Sub(s, sigs[bad]), sigs[bad]);
        AddAssoc(Mul(Sub(s, sigs[bad]), w), Mul(sigs[bad], w), t);
      } else if bad in rest {
        var d := Mul(Sub(s, sigs[bad]), Weight(NodePoint(bad), Points(all)));
        AddAssoc(Mul(sigs[id], w), d, t);
        AddComm(Mul(sigs[id], w), d);
        AddAssoc(d, Mul(sigs[id], w), t);
      }
    }
  }

  /** Only the last id stands at zero. */
  lemma {:induction false} ZeroPointIff(ids: seq<nat>)
    requires forall id :: id in ids ==> id < U32
    ensures ZERO in Points(ids) <==> LAST_ID in ids
  {
    if |ids| > 0 {
      assert ids[0] in ids;
      assert forall id :: id in ids[1..] ==> id in ids;
      ZeroPointIff(ids[1..]);
    }
  }

  /** One wrong signature among the right ones moves the sum away from the right one. */
  lemma ForgedSum(hm: Scalar, ids: seq<nat>, sigs: Partials, f: Poly, bad: nat)
    requires IsPrime(Q) && Distinct(ids) && |f| <= |ids|
    requires LAST_ID !in ids && forall id :: id in ids ==> id < U32 && id in sigs
    requires forall id :: id in ids && id != bad ==> sigs[id] == SignHash(hm, Eval(f, NodePoint(id)))
    requires bad in ids && sigs[bad] != SignHash(hm, Eval(f, NodePoint(bad)))
    ensures WeightedSum(ids, ids, sigs) != SignHash(hm, Eval(f, ZERO))
  {
    var honest := SignHash(hm, Eval(f, NodePoint(bad)));
    var good := sigs[bad := honest];
    assert sigs == good[bad := sigs[bad]];
    ZeroPointIff(ids);
    hide IsPrime, SignHash, Eval, WeightedSum, Mul, Add, Sub, Weight, Points, NodePoint, Distinct, Q;
    SumWithOneChanged(ids, ids, good, bad, sigs[bad]);
    Reconstructs(hm, ids, good, f);
    var d, w := Sub(sigs[bad], honest), Weight(NodePoint(bad), Points(ids));
    WeightNotZero(NodePoint(bad), Points(ids));
    SubZero(sigs[bad], honest);
    ProductNotZero(d, w);
    AddMoves(Mul(d, w), WeightedSum(ids, ids, good));
  }

  // ------------------------------------------------------------ the id at the secret

  lemma LastPoint()
    ensures NodePoint(LAST_ID) == ZERO
  {
  }

  lemma {:induction false} NumWithZero(x: Scalar, xs: seq<Scalar>)
    requires ZERO in xs && x != ZERO
    ensures Num(x, xs) == ZERO
  {
    AddUnit(ZERO);
    hide Mul, Neg, Q;
    if xs[0] != ZERO {
      NumWithZero(x, xs[1..]);
    }
    MulUnit(Num(x, xs[1..]));
    MulUnit(Neg(xs[0]));
  }

  lemma {:induction false} NumIsDen(xs: seq<Scalar>)
    ensures Num(ZERO, xs) == Den(ZERO, xs)
  {
    hide Mul, Neg, Add, Q;
    if |xs| > 0 {
      NumIsDen(xs[1..]);
      AddUnit(Neg(xs[0]));
    }
  }

  /** With a point at zero among them, only that point weighs anything. */
  lemma WeightWithZero(x: Scalar, xs: seq<Scalar>)
    requires IsPrime(Q) && ZERO in xs
    ensures Weight(x, xs) == if x == ZERO then ONE else ZERO
  {
    hide Mul, Inverse, IsPrime, Q;
    if x == ZERO {
      NumIsDen(xs);
      DenNotZero(x, xs);
      InverseLaw(Den(x, xs));
    } else {
      NumWithZero(x, xs);
      MulUnit(Inverse(Den(x, xs)));
    }
  }

  lemma {:induction false} SumWithZero(ids: seq<nat>, all: seq<nat>, sigs: Partials)
    requires IsPrime(Q) && NodeIds(ids) && ZERO in Points(all)
    requires forall id :: id in ids ==> id in sigs
    ensures WeightedSum(ids, all, sigs) == if LAST_ID in ids then sigs[LAST_ID] else ZERO
  {
    hide Add, Mul, Weight, IsPrime, Points, Q;
    if |ids| > 0 {
      var id, rest := ids[0], ids[1..];
      assert forall i :: 0 < i < |ids| ==> ids[i] != id;
      assert id !in rest && id in ids && forall o :: o in rest ==> o in ids;
      SumWithZero(rest, all, sigs);
      WeightWithZero(NodePoint(id), Points(all));
      assert NodePoint(id) == ZERO <==> id == LAST_ID;
      hide NodePoint;
      MulUnit(sigs[id]);
      AddUnit(WeightedSum(rest, all, sigs));
      AddUnit(sigs[id]);
    }
  }

  /** If the last id is among the chosen ones its partial signature is all that is checked. */
  lemma LastIdDecides(hm: Scalar, sigs: Partials, masterPk: Scalar, threshold: nat)
    requires IsPrime(Q) && threshold <= |sigs| && forall id :: id in sigs ==> id < U32
    requires LAST_ID in Chosen(sigs, threshold)
    ensures ThresholdOk(hm, sigs, masterPk, threshold) <==> VerifyHash(hm, sigs[LAST_ID], masterPk)
  {
    var ids := Chosen(sigs, threshold);
    ChosenNodeIds(sigs, threshold);
    IdsInvertible(ids);
    ZeroPointIff(ids);
    hide IsPrime, Chosen, WeightedSum, VerifyHash, Invertible, Points, Q;
    SumWithZero(ids, ids, sigs);
  }

  /**
   One wrong partial signature among otherwise valid chosen ones makes the check fail, but
   for one case: the last id is chosen, and the wrong signature is not its own.
   */
  lemma OneForgedPartialIff(hm: Scalar, sigs: Partials, f: Poly, threshold: nat, bad: nat)
    requires IsPrime(Q) && |f| <= threshold <= |sigs|
    requires forall id :: id in sigs ==> id < U32
    requires forall id :: id in Chosen(sigs, threshold) && id != bad ==>
      sigs[id] == SignHash(hm, Eval(f, NodePoint(id)))
    requires bad in Chosen(sigs, threshold) && sigs[bad] != SignHash(hm, Eval(f, NodePoint(bad)))
    ensures ThresholdOk(hm, sigs, Mul(ONE, Eval(f, ZERO)), threshold) <==>
      LAST_ID in Chosen(sigs, threshold) && bad != LAST_ID
  {
    hide IsPrime, Chosen, SignHash, Eval, VerifyHash, WeightedSum, Mul, NodePoint, Points, Q;
    var ids := Chosen(sigs, threshold);
    ChosenNodeIds(sigs, threshold);
    LastPoint();
    if LAST_ID in ids {
      LastIdDecides(hm, sigs, Mul(ONE, Eval(f, ZERO)), threshold);
      hide ThresholdOk;
      VerifiesIffSigned(hm, sigs[LAST_ID], Eval(f, ZERO));
    } else {
      ForgedSum(hm, ids, sigs, f, bad);
      VerifiesIffSigned(hm, WeightedSum(ids, ids, sigs), Eval(f, ZERO));
    }
  }

  // ------------------------------------------------------------- what the check decides

  /** `low` are the `threshold` lowest ids. */
  ghost predicate Lowest(sigs: Partials, threshold: nat, low: set<nat>) {
    low <= sigs.Keys && |low| == threshold && forall a, b :: a in low && b in sigs && b !in low ==> a < b
  }

  lemma ChosenAre(sigs: Partials, threshold: nat, low: set<nat>)
    requires Lowest(sigs, threshold, low)
    ensures |sigs| >= threshold && forall id :: id in Chosen(sigs, threshold) <==> id in low
  {
    SubsetSize(low, sigs.Keys);
    MapSize(sigs);
    ChosenLowest(sigs, threshold);
    var ids := Chosen(sigs, threshold);
    var chosen := Elements(ids);
    ElementsSize(ids);
    hide Chosen;
    Lowermost(sigs, threshold, chosen, low);
  }

  lemma Lowermost(sigs: Partials, threshold: nat, a: set<nat>, b: set<nat>)
    requires Lowest(sigs, threshold, a) && Lowest(sigs, threshold, b)
    ensures a == b
  {
    if x :| x in a && x !in b {
      if y :| y in b && y !in a {
        assert false;
      } else {
        assert b <= a;
        SameSize(b, a);
      }
    } else {
      assert a <= b;
      SameSize(a, b);
    }
  }

  lemma SameSize(a: set<nat>, b: set<nat>)
    requires a <= b && |a| == |b|
    ensures a == b
  {
    assert b == a + (b - a);
    assert |b - a| == 0;
  }

  function Elements(ids: seq<nat>): (elements: set<nat>)
    ensures forall id :: id in elements <==> id in ids
  {
    if |ids| == 0 then {} else Elements(ids[..|ids| - 1]) + {ids[|ids| - 1]}
  }

  lemma {:induction false} ElementsSize(ids: seq<nat>)
    requires forall i, j :: 0 <= i < j < |ids| ==> ids[i] < ids[j]
    ensures |Elements(ids)| == |ids|
  {
    if |ids| > 0 {
      var init, last := ids[..|ids| - 1], ids[|ids| - 1];
      ElementsSize(init);
      assert last !in init;
    }
  }

  /**
   `verify_threshold_signature`, said once more without its weights. Take the lowest `threshold` ids and
   the polynomial of at most `threshold` coefficients that has their signatures at one more than the
   id, wrapped to 32 bits: the check is whether its value at zero is the master key's signature.
   */
  lemma CheckInterpolates(hm: Scalar, sigs: Partials, masterPk: Scalar, threshold: nat, low: set<nat>, g: Poly)
    requires IsPrime(Q) && |g| <= threshold && Lowest(sigs, threshold, low)
    requires forall id :: id in sigs ==> id <= 0xFFFF_FFFF
    requires forall id :: id in low ==>
      var x: Scalar := if id == 0xFFFF_FFFF then 0 else id + 1; sigs[id] == Eval(g, x)
    ensures ThresholdOk(hm, sigs, masterPk, threshold) <==> Eval(g, ZERO) == Mul(hm, masterPk)
  {
    hide IsPrime, Chosen, WeightedSum, Invertible, Eval, Mul, NodePoint, Points, Lowest, Q;
    var ids := Chosen(sigs, threshold);
    ChosenAre(sigs, threshold, low);
    ChosenNodeIds(sigs, threshold);
    IdsInvertible(ids);
    forall id | id in ids ensures id in sigs && sigs[id] == SignHash(ONE, Eval(g, NodePoint(id))) {
      PointOf(id);
      MulUnit(sigs[id]);
    }
    Reconstructs(ONE, ids, sigs, g);
    MulUnit(Eval(g, ZERO));
  }

  /** Fewer signatures than the threshold never verify. */
  lemma TooFewRefused(hm: Scalar, sigs: Partials, masterPk: Scalar, threshold: nat)
    requires |sigs| < threshold
    ensures !ThresholdOk(hm, sigs, masterPk, threshold)
  {
  }

  // --------------------------------------------------------- one coefficient too many

  lemma SignedEqualIff(hm: Scalar, a: Scalar, b: Scalar)
    requires IsPrime(Q) && hm != ZERO
    ensures SignHash(hm, a) == SignHash(hm, b) <==> a == b
  {
    hide Mul, IsPrime, Q;
    if Mul(hm, a) == Mul(hm, b) {
      MulComm(hm, a);
      MulComm(hm, b);
      Cancel(a, b, hm);
    }
  }

  /**
   The bound on the number of coefficients is exact. With one more than `threshold`, valid
   partial signatures of a message verify together exactly when the extra coefficient is
   zero, or the id that stands at the secret is among those chosen.
   */
  lemma BoundIsTight(hm: Scalar, sigs: Partials, f: Poly, threshold: nat)
    requires IsPrime(Q) && hm != ZERO && |f| == threshold + 1 && threshold <= |sigs|
    requires forall id :: id in sigs ==> id < U32 && VerifyHash(hm, sigs[id], Mul(ONE, Eval(f, NodePoint(id))))
    ensures ThresholdOk(hm, sigs, Mul(ONE, Eval(f, ZERO)), threshold) <==>
      f[threshold] == ZERO || LAST_ID in Chosen(sigs, threshold)
  {
    var ids := Chosen(sigs, threshold);
    ChosenNodeIds(sigs, threshold);
    IdsInvertible(ids);
    ZeroPointIff(ids);
    PointsAt(ids);
    PointsDistinct(ids);
    hide IsPrime, Invertible, Chosen, WeightedSum, VerifyHash, Eval, Combination, Points, NodePoint, Mul, Distinct, Q;
    forall id | id in ids ensures sigs[id] == SignHash(hm, Eval(f, NodePoint(id))) {
      VerifiesIffSigned(hm, sigs[id], Eval(f, NodePoint(id)));
    }
    SharesCombine(hm, ids, ids, sigs, f);
    RecoveredIff(Points(ids), f);
    VerifiesIffSigned(hm, WeightedSum(ids, ids, sigs), Eval(f, ZERO));
    SignedEqualIff(hm, Combination(Points(ids), Points(ids), f), Eval(f, ZERO));
  }

  // ------------------------------------------------------------------ plain aggregates

  /** Valid signatures of one message add up to a valid signature under the sum of their keys. */
  lemma {:induction false} AggregateVerifies(hm: Scalar, sigs: seq<Scalar>, keys: seq<Scalar>)
    requires |sigs| == |keys| && forall n :: 0 <= n < |sigs| ==> VerifyHash(hm, sigs[n], keys[n])
    ensures VerifyHash(hm, Total(sigs), Total(keys))
  {
    hide Add, Mul, Q;
    if |sigs| == 0 {
      MulUnit(hm);
      MulUnit(ONE);
    } else {
      AggregateVerifies(hm, sigs[1..], keys[1..]);
      Distrib(ONE, sigs[0], Total(sigs[1..]));
      Distrib(hm, keys[0], Total(keys[1..]));
    }
  }
}
