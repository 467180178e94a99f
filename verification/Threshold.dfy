/**
 BLS signatures and their two threshold forms: `verify_threshold_signature`, which
 interpolates the partial signatures of the lowest ids, and the FROST-style dealer
 and aggregator, which computes the same weights from differently signed products.
 */
module Threshold {
  import opened Base
  import opened Scalars
  import opened Lagrange
  import opened Selection

  const U32: nat := 0x1_0000_0000

  /** Partial signatures, by 32-bit node id. */
  type Partials = map<nat, Scalar>

  /** `Scalar::from((id + 1) as u64)`: the addition is on 32 bits. */
  function NodePoint(id: nat): Scalar {
    (id + 1) % U32
  }

  /** One more than the id; but the last 32-bit id wraps to zero, the point of the secret. */
  lemma PointOf(id: nat)
    requires id <= 0xFFFF_FFFF
    ensures NodePoint(id) == if id == 0xFFFF_FFFF then 0 else id + 1
  {
  }

  function Points(ids: seq<nat>): seq<Scalar> {
    if |ids| == 0 then [] else [NodePoint(ids[0])] + Points(ids[1..])
  }

  function Pairing(a: Scalar, b: Scalar): Scalar {
    Mul(a, b)
  }

  /** `sign_bls_message`, where `hm` is the message hashed to the curve. */
  function SignHash(hm: Scalar, sk: Scalar): Scalar {
    Mul(hm, sk)
  }

  /** `verify_bls_signature`. */
  predicate VerifyHash(hm: Scalar, sig: Scalar, pk: Scalar) {
    Pairing(sig, ONE) == Pairing(hm, pk)
  }

  /** A signature verifies exactly when it is the one the key's secret would have made. */
  lemma VerifiesIffSigned(hm: Scalar, sig: Scalar, sk: Scalar)
    ensures VerifyHash(hm, sig, Mul(ONE, sk)) <==> sig == SignHash(hm, sk)
  {
    MulUnit(sig);
    MulUnit(sk);
  }

  // ----------------------------------------------------------------------- points

  lemma {:induction false} PointsAt(ids: seq<nat>)
    ensures |Points(ids)| == |ids|
    ensures forall i :: 0 <= i < |ids| ==> Points(ids)[i] == NodePoint(ids[i])
  {
    if |ids| > 0 {
      PointsAt(ids[1..]);
    }
  }

  /** Distinct 32-bit ids stand at distinct points. */
  lemma PointsDistinct(ids: seq<nat>)
    requires Distinct(ids) && forall id :: id in ids ==> id < U32
    ensures Distinct(Points(ids))
  {
    PointsAt(ids);
    var xs := Points(ids);
    forall i, j | 0 <= i < j < |xs| ensures xs[i] != xs[j] {
      assert ids[i] in ids && ids[j] in ids;
    }
  }

  lemma {:induction false} SortedDistinct(ids: set<nat>)
    ensures Distinct(Sorted(ids)) && |Sorted(ids)| == |ids|
    decreases ids
  {
    if ids != {} {
      var rest := ids - {Least(ids)};
      SortedDistinct(rest);
      SortedElements(rest);
    }
  }

  // ---------------------------------------------------------------------- weighing

  /** The signatures of `ids`, weighted as among `all`. */
  function WeightedSum(ids: seq<nat>, all: seq<nat>, sigs: Partials): Scalar
    requires forall id :: id in ids ==> id in sigs
  {
    if |ids| == 0 then ZERO
    else Add(Mul(sigs[ids[0]], Weight(NodePoint(ids[0]), Points(all))), WeightedSum(ids[1..], all, sigs))
  }

  /** The ids whose partial signatures are used: the lowest `threshold` of them. */
  ghost function Chosen(sigs: Partials, threshold: nat): (ids: seq<nat>)
    ensures forall id :: id in ids ==> id in sigs
    ensures |sigs| >= threshold ==> |ids| == threshold
  {
    SortedElements(sigs.Keys);
    SortedDistinct(sigs.Keys);
    MapSize(sigs);
    var sorted := Sorted(sigs.Keys);
    if |sigs| >= threshold then sorted[..threshold] else sorted
  }

  /** They are below all ids that are not used. */
  lemma ChosenLowest(sigs: Partials, threshold: nat)
    ensures forall a, b :: a in Chosen(sigs, threshold) && b in sigs && b !in Chosen(sigs, threshold) ==> a < b
    ensures forall i, j :: 0 <= i < j < |Chosen(sigs, threshold)| ==>
      Chosen(sigs, threshold)[i] < Chosen(sigs, threshold)[j]
  {
    SortedElements(sigs.Keys);
    SortedAscends(sigs.Keys);
  }

  ghost predicate Invertible(ids: seq<nat>, all: seq<nat>) {
    forall id :: id in ids ==> Den(NodePoint(id), Points(all)) != ZERO
  }

  /** What `verify_threshold_signature` decides. */
  ghost predicate ThresholdOk(hm: Scalar, sigs: Partials, masterPk: Scalar, threshold: nat) {
    && |sigs| >= threshold
    && var ids := Chosen(sigs, threshold);
       Invertible(ids, ids) && VerifyHash(hm, WeightedSum(ids, ids, sigs), masterPk)
  }

  /** The two inner products of `verify_threshold_signature`. */
  method Products(id: nat, ids: seq<nat>) returns (numerator: Scalar, denominator: Scalar)
    requires id < U32 && forall j :: j in ids ==> j < U32
    ensures numerator == Num(NodePoint(id), Points(ids)) && denominator == Den(NodePoint(id), Points(ids))
  {
    var x := NodePoint(id);
    ghost var xs := Points(ids);
    PointsAt(ids);
    hide Mul, Neg, Sub, Points, Q;
    numerator, denominator := ONE, ONE;
    MulUnit(Num(x, xs));
    MulUnit(Den(x, xs));
    assert xs[0..] == xs;
    for n := 0 to |ids|
      invariant Mul(numerator, Num(x, xs[n..])) == Num(x, xs)
      invariant Mul(denominator, Den(x, xs[n..])) == Den(x, xs)
    {
      assert xs[n..][1..] == xs[n + 1..] && ids[n] in ids;
      if ids[n] != id {
        var y := NodePoint(ids[n]);
        MulAssoc(numerator, Neg(y), Num(x, xs[n + 1..]));
        MulAssoc(denominator, Sub(x, y), Den(x, xs[n + 1..]));
        numerator := Mul(numerator, Neg(y));
        denominator := Mul(denominator, Sub(x, y));
      }
    }
    MulUnit(numerator);
    MulUnit(denominator);
  }

  /** `verify_threshold_signature`. */
  method VerifyThresholdSignature(hm: Scalar, sigs: Partials, masterPk: Scalar, threshold: nat) returns (ok: bool)
    requires forall id :: id in sigs ==> id < U32
    ensures ok == ThresholdOk(hm, sigs, masterPk, threshold)
    ensures |sigs| < threshold ==> !ok
  {
    if |sigs| < threshold {
      return false;
    }
    SortedElements(sigs.Keys);
    SortedDistinct(sigs.Keys);
    MapSize(sigs);
    var ids := SortIds(sigs.Keys);
    ids := ids[..threshold];
    assert ids == Chosen(sigs, threshold);
    hide Mul, Add, Weight, Den, Inverse, Points, Chosen, Sorted, Q;
    var reconstructed := ZERO;
    AddUnit(WeightedSum(ids, ids, sigs));
    assert ids[0..] == ids;
    for n := 0 to |ids|
      invariant forall k :: 0 <= k < n ==> Den(NodePoint(ids[k]), Points(ids)) != ZERO
      invariant Add(reconstructed, WeightedSum(ids[n..], ids, sigs)) == WeightedSum(ids, ids, sigs)
    {
      assert ids[n] in ids && ids[n..][1..] == ids[n + 1..];
      var numerator, denominator := Products(ids[n], ids);
      var inverse := Invert(denominator);
      if inverse.None? {
        return false;
      }
      var lambda := Mul(numerator, inverse.value);
      assert lambda == Weight(NodePoint(ids[n]), Points(ids)) by { WeightIs(NodePoint(ids[n]), Points(ids)); }
      AddAssoc(reconstructed, Mul(sigs[ids[n]], lambda), WeightedSum(ids[n + 1..], ids, sigs));
      reconstructed := Add(reconstructed, Mul(sigs[ids[n]], lambda));
    }
    AddUnit(reconstructed);
    ok := VerifyHash(hm, reconstructed, masterPk);
  }

  lemma WeightIs(x: Scalar, xs: seq<Scalar>)
    ensures Weight(x, xs) == Mul(Num(x, xs), Inverse(Den(x, xs)))
  {
  }

  /** `aggregate_signatures`: a plain sum. */
  method AggregateSignatures(sigs: seq<Scalar>) returns (agg: Scalar)
    ensures agg == Total(sigs)
  {
    hide Add, Q;
    agg := ZERO;
    AddUnit(Total(sigs));
    assert sigs[0..] == sigs;
    for n := 0 to |sigs|
      invariant Add(agg, Total(sigs[n..])) == Total(sigs)
    {
      assert sigs[n..][1..] == sigs[n + 1..];
      AddAssoc(agg, sigs[n], Total(sigs[n + 1..]));
      agg := Add(agg, sigs[n]);
    }
    AddUnit(agg);
  }

  function Total(xs: seq<Scalar>): Scalar {
    if |xs| == 0 then ZERO else Add(xs[0], Total(xs[1..]))
  }

  // ---------------------------------------------------------- what verification means

  /** Partial signatures under the shares of a polynomial add up to its weighted sum. */
  lemma {:induction false} SharesCombine(hm: Scalar, ids: seq<nat>, all: seq<nat>, sigs: Partials, f: Poly)
    requires forall id :: id in ids ==> id in sigs && sigs[id] == SignHash(hm, Eval(f, NodePoint(id)))
    ensures WeightedSum(ids, all, sigs) == Mul(hm, Combination(Points(ids), Points(all), f))
  {
    hide Add, Mul, Weight, Eval, Q;
    if |ids| == 0 {
      MulUnit(hm);
    } else {
      SharesCombine(hm, ids[1..], all, sigs, f);
      var x := NodePoint(ids[0]);
      var w, e := Weight(x, Points(all)), Eval(f, x);
      assert Points(ids)[1..] == Points(ids[1..]) && Points(ids)[0] == x;
      MulAssoc(hm, e, w);
      MulComm(e, w);
      Distrib(hm, Mul(w, e), Combination(Points(ids[1..]), Points(all), f));
    }
  }

  /** All ids in `ids` are distinct 32-bit ids. */
  ghost predicate NodeIds(ids: seq<nat>) {
    Distinct(ids) && forall id :: id in ids ==> id < U32
  }

  lemma IdsInvertible(ids: seq<nat>)
    requires IsPrime(Q)
    ensures Invertible(ids, ids)
  {
    forall id | id in ids ensures Den(NodePoint(id), Points(ids)) != ZERO {
      DenNotZero(NodePoint(id), Points(ids));
    }
  }

  /** Any |f| or more partial signatures reconstruct the one signature under the secret f(0). */
  lemma Reconstructs(hm: Scalar, ids: seq<nat>, sigs: Partials, f: Poly)
    requires IsPrime(Q) && NodeIds(ids) && |f| <= |ids|
    requires forall id :: id in ids ==> id in sigs && sigs[id] == SignHash(hm, Eval(f, NodePoint(id)))
    ensures WeightedSum(ids, ids, sigs) == SignHash(hm, Eval(f, ZERO))
  {
    hide IsPrime, Combination, Q;
    PointsAt(ids);
    PointsDistinct(ids);
    SharesCombine(hm, ids, ids, sigs, f);
    Interpolation(Points(ids), f);
  }

  /** Which of the signers are combined makes no difference. */
  lemma SubsetIndependence(hm: Scalar, a: seq<nat>, b: seq<nat>, sigs: Partials, f: Poly)
    requires IsPrime(Q) && NodeIds(a) && NodeIds(b) && |f| <= |a| && |f| <= |b|
    requires forall id :: id in a + b ==> id in sigs && sigs[id] == SignHash(hm, Eval(f, NodePoint(id)))
    ensures WeightedSum(a, a, sigs) == WeightedSum(b, b, sigs)
  {
    hide IsPrime, WeightedSum, Eval, Q;
    forall id | id in a ensures id in sigs && sigs[id] == SignHash(hm, Eval(f, NodePoint(id))) {
      assert id in a + b;
    }
    forall id | id in b ensures id in sigs && sigs[id] == SignHash(hm, Eval(f, NodePoint(id))) {
      assert id in a + b;
    }
    Reconstructs(hm, a, sigs, f);
    Reconstructs(hm, b, sigs, f);
  }

  lemma ChosenNodeIds(sigs: Partials, threshold: nat)
    requires forall id :: id in sigs ==> id < U32
    ensures NodeIds(Chosen(sigs, threshold))
  {
    SortedDistinct(sigs.Keys);
  }

  /**
   Individually valid partial signatures under shares of `f`, at least `threshold` of
   them, verify together under the key of f(0) as soon as f has at most `threshold`
   coefficients.
   */
  lemma ValidPartialsVerify(hm: Scalar, sigs: Partials, f: Poly, threshold: nat)
    requires IsPrime(Q) && |f| <= threshold <= |sigs|
    requires forall id :: id in sigs ==> id < U32 && VerifyHash(hm, sigs[id], Mul(ONE, Eval(f, NodePoint(id))))
    ensures ThresholdOk(hm, sigs, Mul(ONE, Eval(f, ZERO)), threshold)
  {
    var ids := Chosen(sigs, threshold);
    ChosenNodeIds(sigs, threshold);
    IdsInvertible(ids);
    hide IsPrime, Invertible, Chosen, WeightedSum, VerifyHash, SignHash, Eval, Q;
    forall id | id in ids ensures id in sigs && sigs[id] == SignHash(hm, Eval(f, NodePoint(id))) {
      VerifiesIffSigned(hm, sigs[id], Eval(f, NodePoint(id)));
    }
    Reconstructs(hm, ids, sigs, f);
    VerifiesIffSigned(hm, WeightedSum(ids, ids, sigs), Eval(f, ZERO));
  }
}
