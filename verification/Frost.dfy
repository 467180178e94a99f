/**
 `Frost`: a trusted dealer, and an aggregator that writes the Lagrange weights as
 x_j / (x_j - x_i) where `verify_threshold_signature` writes -x_j / (x_i - x_j).
 */
module Frost {
  import opened Base
  import opened Scalars
  import opened Lagrange
  import opened Sharing
  import opened Threshold

  function FrostNum(x: Scalar, xs: seq<Scalar>): Scalar {
    if |xs| == 0 then ONE
    else if xs[0] == x then FrostNum(x, xs[1..])
    else Mul(xs[0], FrostNum(x, xs[1..]))
  }

  function FrostDen(x: Scalar, xs: seq<Scalar>): Scalar {
    if |xs| == 0 then ONE
    else if xs[0] == x then FrostDen(x, xs[1..])
    else Mul(Sub(xs[0], x), FrostDen(x, xs[1..]))
  }

  function FrostWeight(x: Scalar, xs: seq<Scalar>): Scalar {
    Mul(FrostNum(x, xs), Inverse(FrostDen(x, xs)))
  }

  lemma {:induction false} FrostDenNotZero(x: Scalar, xs: seq<Scalar>)
    requires IsPrime(Q)
    ensures FrostDen(x, xs) != ZERO
  {
    hide Mul, Sub, IsPrime, Q;
    if |xs| > 0 {
      FrostDenNotZero(x, xs[1..]);
      if xs[0] != x {
        SubZero(xs[0], x);
        ProductNotZero(Sub(xs[0], x), FrostDen(x, xs[1..]));
      }
    }
  }

  lemma MulInterchange(a: Scalar, b: Scalar, c: Scalar, d: Scalar)
    ensures Mul(Mul(a, b), Mul(c, d)) == Mul(Mul(a, c), Mul(b, d))
  {
    hide Mul, Q;
    MulAssoc(a, b, Mul(c, d));
    MulSwap(b, c, d);
    MulAssoc(a, c, Mul(b, d));
  }

  /** The two forms of the fraction, multiplied crosswise. */
  lemma {:induction false} CrossProducts(x: Scalar, xs: seq<Scalar>)
    ensures Mul(Num(x, xs), FrostDen(x, xs)) == Mul(FrostNum(x, xs), Den(x, xs))
  {
    hide Mul, Sub, Neg, Q;
    if |xs| > 0 {
      CrossProducts(x, xs[1..]);
      var y, rest := xs[0], xs[1..];
      if y != x {
        MulInterchange(Neg(y), Num(x, rest), Sub(y, x), FrostDen(x, rest));
        MulInterchange(y, FrostNum(x, rest), Sub(x, y), Den(x, rest));
        SubZero(y, x);
        NegMul(y, Sub(y, x));
      }
    }
  }

  /** Both forms give the same weight. */
  lemma TwoForms(x: Scalar, xs: seq<Scalar>)
    requires IsPrime(Q)
    ensures FrostWeight(x, xs) == Weight(x, xs)
  {
    CrossProducts(x, xs);
    DenNotZero(x, xs);
    FrostDenNotZero(x, xs);
    WeightIs(x, xs);
    SameFraction(Num(x, xs), Den(x, xs), FrostNum(x, xs), FrostDen(x, xs));
  }

  lemma SameFraction(n: Scalar, d: Scalar, m: Scalar, e: Scalar)
    requires IsPrime(Q) && d != ZERO && e != ZERO && Mul(n, e) == Mul(m, d)
    ensures Mul(n, Inverse(d)) == Mul(m, Inverse(e))
  {
    hide Mul, Inverse, IsPrime, Q;
    InverseLaw(d);
    InverseLaw(e);
    ProductNotZero(d, e);
    MulInterchange(n, Inverse(d), e, d);
    MulInterchange(m, Inverse(e), d, e);
    MulComm(d, Inverse(d));
    MulComm(e, Inverse(e));
    MulComm(d, e);
    MulUnit(Mul(n, e));
    MulUnit(Mul(m, d));
    Cancel(Mul(n, Inverse(d)), Mul(m, Inverse(e)), Mul(d, e));
  }

  datatype SignatureShare = SignatureShare(nodeId: nat, share: Scalar)

  datatype Aggregation = Aggregated(signature: Scalar) | NotEnoughShares

  function Ids(shares: seq<SignatureShare>): seq<nat> {
    seq(|shares|, i requires 0 <= i < |shares| => shares[i].nodeId)
  }

  function ById(shares: seq<SignatureShare>): Partials {
    if |shares| == 0 then map[] else ById(shares[1..])[shares[0].nodeId := shares[0].share]
  }

  lemma {:induction false} ByIdEach(shares: seq<SignatureShare>)
    requires Distinct(Ids(shares))
    ensures forall i :: 0 <= i < |shares| ==>
      shares[i].nodeId in ById(shares) && ById(shares)[shares[i].nodeId] == shares[i].share
  {
    if |shares| > 0 {
      var rest := shares[1..];
      assert forall i :: 0 <= i < |rest| ==> Ids(rest)[i] == Ids(shares)[i + 1];
      ByIdEach(rest);
      assert Ids(shares)[0] == shares[0].nodeId;
      forall i | 0 <= i < |shares|
        ensures shares[i].nodeId in ById(shares) && ById(shares)[shares[i].nodeId] == shares[i].share
      {
        if i > 0 {
          assert shares[i] == rest[i - 1] && Ids(shares)[i] == shares[i].nodeId;
        }
      }
    }
  }

  /** The two inner products of `aggregate`. */
  method FrostProducts(i: nat, ids: seq<nat>) returns (num: Scalar, den: Scalar)
    requires i < |ids| && NodeIds(ids)
    ensures num == FrostNum(NodePoint(ids[i]), Points(ids)) && den == FrostDen(NodePoint(ids[i]), Points(ids))
  {
    var x := NodePoint(ids[i]);
    ghost var xs := Points(ids);
    PointsAt(ids);
    PointsDistinct(ids);
    hide Mul, Sub, Points, Q;
    num, den := ONE, ONE;
    MulUnit(FrostNum(x, xs));
    MulUnit(FrostDen(x, xs));
    assert xs[0..] == xs;
    for j := 0 to |ids|
      invariant Mul(num, FrostNum(x, xs[j..])) == FrostNum(x, xs)
      invariant Mul(den, FrostDen(x, xs[j..])) == FrostDen(x, xs)
    {
      assert xs[j..][1..] == xs[j + 1..];
      if i != j {
        var y := NodePoint(ids[j]);
        assert y == xs[j] != xs[i];
        MulAssoc(num, y, FrostNum(x, xs[j + 1..]));
        MulAssoc(den, Sub(y, x), FrostDen(x, xs[j + 1..]));
        num := Mul(num, y);
        den := Mul(den, Sub(y, x));
      }
    }
    MulUnit(num);
    MulUnit(den);
  }

  /** `aggregate`: the weighted sum of the first `threshold` shares; it insists on distinct ids. */
  method Aggregate(shares: seq<SignatureShare>, threshold: nat) returns (r: Aggregation)
    requires IsPrime(Q)
    requires |shares| >= threshold ==> NodeIds(Ids(shares[..threshold]))
    ensures |shares| < threshold <==> r == NotEnoughShares
    ensures |shares| >= threshold ==>
      var ids := Ids(shares[..threshold]);
      && (forall id :: id in ids ==> id in ById(shares[..threshold]))
      && r == Aggregated(WeightedSum(ids, ids, ById(shares[..threshold])))
  {
    if |shares| < threshold {
      return NotEnoughShares;
    }
    var subset := shares[..threshold];
    var ids := Ids(subset);
    ghost var sigs := ById(subset);
    ByIdEach(subset);
    assert forall id :: id in ids ==> id in sigs;
    hide Add, Mul, Weight, Inverse, Points, ById, IsPrime, FrostWeight, Q;
    var sum := ZERO;
    AddUnit(WeightedSum(ids, ids, sigs));
    assert ids[0..] == ids;
    for i := 0 to threshold
      invariant Add(sum, WeightedSum(ids[i..], ids, sigs)) == WeightedSum(ids, ids, sigs)
    {
      assert ids[i..][1..] == ids[i + 1..];
      var x := NodePoint(ids[i]);
      var num, den := FrostProducts(i, ids);
      FrostDenNotZero(x, Points(ids));
      var coeff := Mul(num, Invert(den).value);
      assert coeff == Weight(x, Points(ids)) by {
        TwoForms(x, Points(ids));
        FrostWeightIs(x, Points(ids));
      }
      AddAssoc(sum, Mul(subset[i].share, coeff), WeightedSum(ids[i + 1..], ids, sigs));
      sum := Add(sum, Mul(subset[i].share, coeff));
    }
    AddUnit(sum);
    r := Aggregated(sum);
  }

  lemma FrostWeightIs(x: Scalar, xs: seq<Scalar>)
    ensures FrostWeight(x, xs) == Mul(FrostNum(x, xs), Inverse(FrostDen(x, xs)))
  {
  }

  datatype KeyShare = KeyShare(nodeId: nat, secretShare: Scalar, publicKey: Scalar, verificationKeys: map<nat, Scalar>)

  /** `trusted_dealer`, with its random coefficients given. */
  method TrustedDealer(coeffs: Poly, total: nat) returns (groupPublic: Scalar, keyShares: map<nat, KeyShare>)
    requires 0 < |coeffs| && total < U32
    ensures groupPublic == Mul(ONE, Eval(coeffs, ZERO))
    ensures forall i: nat :: i in keyShares <==> i < total
    ensures forall i :: i in keyShares ==>
      && keyShares[i].nodeId == i && keyShares[i].publicKey == groupPublic
      && keyShares[i].secretShare == Eval(coeffs, NodePoint(i))
      && (forall j: nat :: j in keyShares[i].verificationKeys <==> j < total)
      && (forall j :: j in keyShares[i].verificationKeys ==>
            keyShares[i].verificationKeys[j] == Mul(ONE, Eval(coeffs, NodePoint(j))))
  {
    EvalAtZero(coeffs);
    hide Eval, Mul, Q;
    groupPublic := Mul(ONE, coeffs[0]);
    var verificationKeys: map<nat, Scalar> := map[];
    var secretShares: map<nat, Scalar> := map[];
    for i := 0 to total
      invariant forall j: nat :: j in verificationKeys <==> j < i
      invariant forall j: nat :: j in secretShares <==> j < i
      invariant forall j :: j in secretShares ==> secretShares[j] == Eval(coeffs, NodePoint(j))
      invariant forall j :: j in verificationKeys ==> verificationKeys[j] == Mul(ONE, Eval(coeffs, NodePoint(j)))
    {
      var share := EvaluateByPowers(coeffs, NodePoint(i));
      verificationKeys := verificationKeys[i := Mul(ONE, share)];
      secretShares := secretShares[i := share];
    }
    keyShares := map[];
    for i := 0 to total
      invariant forall j: nat :: j in keyShares <==> j < i
      invariant forall j :: j in keyShares ==>
        j in secretShares && keyShares[j] == KeyShare(j, secretShares[j], groupPublic, verificationKeys)
    {
      keyShares := keyShares[i := KeyShare(i, secretShares[i], groupPublic, verificationKeys)];
    }
  }

  /** Whatever signers are picked, dealt shares aggregate to a signature under the group key. */
  lemma AggregateVerifies(hm: Scalar, coeffs: Poly, shares: seq<SignatureShare>)
    requires IsPrime(Q) && NodeIds(Ids(shares)) && |coeffs| <= |shares|
    requires forall s :: s in shares ==> s.share == SignHash(hm, Eval(coeffs, NodePoint(s.nodeId)))
    ensures forall id :: id in Ids(shares) ==> id in ById(shares)
    ensures VerifyHash(hm, WeightedSum(Ids(shares), Ids(shares), ById(shares)), Mul(ONE, Eval(coeffs, ZERO)))
  {
    ByIdEach(shares);
    var ids, sigs := Ids(shares), ById(shares);
    hide IsPrime, Eval, SignHash, ById, Q;
    forall id | id in ids ensures id in sigs && sigs[id] == SignHash(hm, Eval(coeffs, NodePoint(id))) {
      var i :| 0 <= i < |ids| && ids[i] == id;
      assert shares[i] in shares;
    }
    hide Ids, VerifyHash, WeightedSum;
    Reconstructs(hm, ids, sigs, coeffs);
    VerifiesIffSigned(hm, WeightedSum(ids, ids, sigs), Eval(coeffs, ZERO));
  }
}
