/**
 The two other key generations: `MultiDealerDKG`, where dealers can be complained about
 and disqualified, and the one-process simulation `run_feldman_dkg`.
 */
module Feldman {
  import opened Base
  import opened Scalars
  import opened Lagrange
  import opened Sharing
  import opened Selection
  import opened Dkg
  import opened Threshold
  import opened Bootstrap

  datatype Share = Share(index: nat, value: Scalar)

  /** `from` accuses `against`. */
  datatype Complaint = Complaint(from: nat, against: nat, share: Share)

  datatype Pair = Pair(dealer: nat, recipient: nat)

  /** How many complaints accuse `dealer`. */
  function Accusations(complaints: seq<Complaint>, dealer: nat): nat {
    if |complaints| == 0 then 0
    else
      var last := complaints[|complaints| - 1];
      Accusations(complaints[..|complaints| - 1], dealer) + if last.against == dealer then 1 else 0
  }

  /** The dealers accused more than `t` times. */
  function Guilty(complaints: seq<Complaint>, t: nat): set<nat> {
    set c | c in complaints && Accusations(complaints, c.against) > t :: c.against
  }

  lemma {:induction false} AccusedIsListed(complaints: seq<Complaint>, dealer: nat)
    requires Accusations(complaints, dealer) > 0
    ensures exists c :: c in complaints && c.against == dealer
  {
    var last := complaints[|complaints| - 1];
    if last.against == dealer {
      assert last in complaints;
    } else {
      AccusedIsListed(complaints[..|complaints| - 1], dealer);
      var c :| c in complaints[..|complaints| - 1] && c.against == dealer;
      assert c in complaints;
    }
  }

  /** The accusations against a dealer are the complaints that name it. */
  lemma {:induction false} AccusationsCount(complaints: seq<Complaint>, dealer: nat)
    ensures Accusations(complaints, dealer) == |set k | 0 <= k < |complaints| && complaints[k].against == dealer|
  {
    var naming := set k | 0 <= k < |complaints| && complaints[k].against == dealer;
    if |complaints| == 0 {
      assert naming == {};
    } else {
      var n := |complaints| - 1;
      AccusationsCount(complaints[..n], dealer);
      var before := set k | 0 <= k < |complaints[..n]| && complaints[..n][k].against == dealer;
      assert naming == before + if complaints[n].against == dealer then {n} else {};
    }
  }

  lemma GuiltyIff(complaints: seq<Complaint>, t: nat, dealer: nat)
    ensures dealer in Guilty(complaints, t) <==> Accusations(complaints, dealer) > t
  {
    if Accusations(complaints, dealer) > t {
      AccusedIsListed(complaints, dealer);
    }
  }

  function SharesWithout(shares: map<Pair, Scalar>, dealers: set<nat>): map<Pair, Scalar> {
    map p | p in shares && p.dealer !in dealers :: shares[p]
  }

  /** Shares are stored exactly for the dealers with commitments and the recipients 1 to n, and all verify. */
  ghost predicate SharesFit(commitments: Commitments, n: nat, shares: map<Pair, Scalar>)
    requires n < U32
  {
    && (forall p :: p in shares <==> p.dealer in commitments && 1 <= p.recipient <= n)
    && (forall p :: p in shares ==> shares[p] == Eval(commitments[p.dealer], p.recipient))
  }

  /** Besides what was stored before, the shares of `dealer` for the recipients below `i`. */
  ghost predicate Dealt(before: map<Pair, Scalar>, dealer: nat, coeffs: Poly, i: nat, now: map<Pair, Scalar>)
    requires i <= U32
  {
    && (forall p :: p in now <==> p in before || (p.dealer == dealer && 1 <= p.recipient < i))
    && (forall p :: p in now ==>
          now[p] == if p.dealer == dealer && 1 <= p.recipient < i then Eval(coeffs, p.recipient) else before[p])
  }

  lemma NoneDealt(before: map<Pair, Scalar>, dealer: nat, coeffs: Poly)
    ensures Dealt(before, dealer, coeffs, 1, before)
  {
  }

  lemma DealtOne(before: map<Pair, Scalar>, dealer: nat, coeffs: Poly, i: nat, now: map<Pair, Scalar>)
    requires 1 <= i < U32 && Dealt(before, dealer, coeffs, i, now)
    ensures Dealt(before, dealer, coeffs, i + 1, now[Pair(dealer, i) := Eval(coeffs, i)])
  {
    hide Eval;
  }

  lemma AllDealt(commitments: Commitments, before: map<Pair, Scalar>, dealer: nat, coeffs: Poly, n: nat,
                 now: map<Pair, Scalar>)
    requires n < U32 && SharesFit(commitments, n, before) && Dealt(before, dealer, coeffs, n + 1, now)
    ensures SharesFit(commitments[dealer := coeffs], n, now)
  {
    hide Eval;
  }

  class MultiDealerDKG {
    const n: nat
    const t: nat
    var commitments: Commitments
    var shares: map<Pair, Scalar>
    var disqualified: set<nat>
    var complaints: seq<Complaint>

    ghost predicate Valid()
      reads this
    {
      && n < U32
      && (forall d :: d in commitments ==> |commitments[d]| == t)
      && SharesFit(commitments, n, shares)
    }

    /** The dealers whose shares count. */
    ghost function Surviving(): set<nat>
      reads this
    {
      set d | d in commitments && d !in disqualified
    }

    constructor (n: nat, t: nat)
      requires n < U32
      ensures Valid() && this.n == n && this.t == t
      ensures commitments == map[] && disqualified == {} && complaints == []
    {
      this.n, this.t := n, t;
      commitments, shares, disqualified, complaints := map[], map[], {}, [];
    }

    /** The generator times each coefficient. */
    method Publish(coeffs: Poly) returns (published: Poly)
      ensures published == coeffs
    {
      hide Mul, Q;
      published := [];
      for k := 0 to |coeffs|
        invariant published == coeffs[..k]
      {
        MulUnit(coeffs[k]);
        published := published + [Mul(ONE, coeffs[k])];
      }
    }

    /** `deal`, with its random coefficients given: a second deal replaces the first. */
    method Deal(dealer: nat, coeffs: Poly) returns (dealt: seq<Share>)
      requires Valid() && |coeffs| == t
      modifies this`commitments, this`shares
      ensures Valid() && commitments == old(commitments)[dealer := coeffs]
      ensures |dealt| == n && forall i :: 0 <= i < n ==> dealt[i] == Share(i + 1, Eval(coeffs, i + 1))
    {
      assert n < Q;
      hide Eval, Q, Dealt;
      var published := Publish(coeffs);
      commitments := commitments[dealer := published];
      dealt := [];
      NoneDealt(shares, dealer, coeffs);
      for i := 1 to n + 1
        invariant |dealt| == i - 1 && commitments == old(commitments)[dealer := coeffs]
        invariant forall k :: 0 <= k < i - 1 ==> dealt[k] == Share(k + 1, Eval(coeffs, k + 1))
        invariant Dealt(old(shares), dealer, coeffs, i, shares)
      {
        var y := EvaluateByPowers(coeffs, i);
        dealt := dealt + [Share(i, y)];
        DealtOne(old(shares), dealer, coeffs, i, shares);
        shares := shares[Pair(dealer, i) := y];
      }
      AllDealt(old(commitments), old(shares), dealer, coeffs, n, shares);
    }

    /** `verify_share`: the Feldman equation, for a dealer with commitments. */
    method VerifyShare(dealer: nat, share: Share) returns (ok: bool)
      requires share.index < U32
      ensures ok <==> dealer in commitments && share.value == Eval(commitments[dealer], share.index)
    {
      if dealer !in commitments {
        return false;
      }
      var rhs := EvaluateByPowers(commitments[dealer], share.index);
      MulUnit(share.value);
      ok := Mul(ONE, share.value) == rhs;
    }

    method FileComplaint(complaint: Complaint)
      requires Valid()
      modifies this`complaints
      ensures Valid()
      ensures complaints == old(complaints) + if complaint.against in disqualified then [] else [complaint]
    {
      if complaint.against !in disqualified {
        complaints := complaints + [complaint];
      }
    }

    /** The counting loop of `resolve_and_disqualify`. */
    method CountAccusations() returns (counts: map<nat, nat>)
      ensures forall d :: d in counts <==> Accusations(complaints, d) > 0
      ensures forall d :: d in counts ==> counts[d] == Accusations(complaints, d)
    {
      counts := map[];
      for k := 0 to |complaints|
        invariant forall d :: d in counts <==> Accusations(complaints[..k], d) > 0
        invariant forall d :: d in counts ==> counts[d] == Accusations(complaints[..k], d)
      {
        assert complaints[..k + 1][..k] == complaints[..k];
        var against := complaints[k].against;
        counts := counts[against := (if against in counts then counts[against] else 0) + 1];
      }
      assert complaints[..|complaints|] == complaints;
    }

    method Disqualify(dealer: nat)
      modifies this`disqualified, this`commitments, this`shares
      ensures disqualified == old(disqualified) + {dealer}
      ensures commitments == old(commitments) - {dealer}
      ensures shares == SharesWithout(old(shares), {dealer})
    {
      disqualified := disqualified + {dealer};
      commitments := commitments - {dealer};
      shares := SharesWithout(shares, {dealer});
    }

    /** The removing loop of `resolve_and_disqualify`. */
    method DisqualifyAbove(counts: map<nat, nat>, ghost guilty: set<nat>)
      requires forall d :: d in guilty <==> d in counts && counts[d] > t
      modifies this`disqualified, this`commitments, this`shares
      ensures disqualified == old(disqualified) + guilty
      ensures commitments == old(commitments) - guilty
      ensures shares == SharesWithout(old(shares), guilty)
    {
      ghost var gone: set<nat> := {};
      var rest := counts.Keys;
      while rest != {}
        invariant rest <= counts.Keys
        invariant forall d :: d in gone <==> d in counts && d !in rest && counts[d] > t
        invariant disqualified == old(disqualified) + gone
        invariant commitments == old(commitments) - gone
        invariant shares == SharesWithout(old(shares), gone)
        decreases rest
      {
        var dealer :| dealer in rest;
        rest := rest - {dealer};
        if counts[dealer] > t {
          Disqualify(dealer);
          gone := gone + {dealer};
        }
      }
      assert gone == guilty;
    }

    /** `resolve_and_disqualify`: exactly the dealers with more than t accusations go, with all they dealt. */
    method ResolveAndDisqualify()
      requires Valid()
      modifies this
      ensures Valid() && complaints == []
      ensures disqualified == old(disqualified) + Guilty(old(complaints), t)
      ensures commitments == old(commitments) - Guilty(old(complaints), t)
      ensures shares == SharesWithout(old(shares), Guilty(old(complaints), t))
    {
      var counts := CountAccusations();
      ghost var guilty := Guilty(complaints, t);
      forall d ensures d in guilty <==> d in counts && counts[d] > t {
        GuiltyIff(complaints, t, d);
      }
      hide Eval, Guilty;
      DisqualifyAbove(counts, guilty);
      complaints := [];
    }

    /** `final_share`, in any order of the stored shares. */
    method FinalShare(recipient: nat) returns (share: Option<Scalar>)
      requires Valid()
      ensures share ==
        if 1 <= recipient <= n && Surviving() != {}
        then Some(SumOver(Evaluated(commitments, recipient), Surviving()))
        else None
    {
      ghost var x: Scalar := if recipient <= n then recipient else ZERO;
      ghost var values, surviving := Evaluated(commitments, x), Surviving();
      hide Add, Eval, SumOver, Q;
      var sum, found := ZERO, false;
      var rest := shares.Keys;
      // The dealers whose share for this recipient has been added.
      ghost var added: set<nat> := {};
      SumOfNone(values);
      while rest != {}
        invariant rest <= shares.Keys
        invariant added <= surviving && sum == SumOver(values, added) && (found <==> added != {})
        invariant forall d :: d in added <==>
          Pair(d, recipient) in shares && Pair(d, recipient) !in rest && d !in disqualified
        decreases rest
      {
        var p :| p in rest;
        rest := rest - {p};
        if p.recipient == recipient && p.dealer !in disqualified {
          assert p == Pair(p.dealer, recipient) && p.dealer !in added;
          SumTakes(values, added + {p.dealer}, p.dealer);
          assert added + {p.dealer} - {p.dealer} == added;
          AddComm(sum, shares[p]);
          sum := Add(sum, shares[p]);
          found := true;
          added := added + {p.dealer};
        }
      }
      if 1 <= recipient <= n {
        forall d | d in surviving ensures d in added {
          assert Pair(d, recipient) in shares;
        }
        assert added == surviving;
      } else {
        forall d ensures d !in added {
          assert Pair(d, recipient) !in shares;
        }
      }
      share := if found then Some(sum) else None;
    }
  }

  lemma SumOfNone(values: map<nat, Scalar>)
    ensures SumOver(values, {}) == ZERO
  {
  }

  /** The joint polynomial of the surviving dealers. */
  ghost function SurvivingPoly(commitments: Commitments, surviving: set<nat>): Poly
    requires surviving <= commitments.Keys
  {
    SortedElements(surviving);
    Joint(commitments, Sorted(surviving))
  }

  /** Any t final shares interpolate to the sum of the surviving dealers' secrets. */
  lemma FinalSharesInterpolate(commitments: Commitments, surviving: set<nat>, t: nat, indices: seq<Scalar>)
    requires IsPrime(Q) && surviving <= commitments.Keys && forall d :: d in surviving ==> |commitments[d]| == t
    requires Distinct(indices) && |indices| >= t
    ensures Combination(indices, indices, SurvivingPoly(commitments, surviving))
         == SumOver(Evaluated(commitments, ZERO), surviving)
    ensures forall x :: Eval(SurvivingPoly(commitments, surviving), x) == SumOver(Evaluated(commitments, x), surviving)
  {
    SortedElements(surviving);
    SortedDistinct(surviving);
    var dealers := Sorted(surviving);
    JointLength(commitments, dealers, t);
    forall x ensures Eval(SurvivingPoly(commitments, surviving), x) == SumOver(Evaluated(commitments, x), surviving) {
      JointIsSum(commitments, dealers, surviving, x);
    }
    Interpolation(indices, SurvivingPoly(commitments, surviving));
  }

  // ------------------------------------------------------------- recovering the secret

  /** The values, each with the Lagrange weight at zero of its point among all. */
  function WeightedValues(points: seq<Scalar>, all: seq<Scalar>, values: seq<Scalar>): Scalar
    requires |values| == |points|
  {
    if |points| == 0 then ZERO
    else Add(Mul(Weight(points[0], all), values[0]), WeightedValues(points[1..], all, values[1..]))
  }

  lemma {:induction false} WeightedValuesCombine(points: seq<Scalar>, all: seq<Scalar>, values: seq<Scalar>, f: Poly)
    requires |values| == |points| && forall k :: 0 <= k < |points| ==> values[k] == Eval(f, points[k])
    ensures WeightedValues(points, all, values) == Combination(points, all, f)
  {
    hide Add, Mul, Weight, Eval, Q;
    if |points| > 0 {
      WeightedValuesCombine(points[1..], all, values[1..], f);
    }
  }

  /** What the dealers keep to themselves. */
  ghost function Secrets(commitments: Commitments): map<nat, Scalar>
    requires forall d :: d in commitments ==> |commitments[d]| > 0
  {
    map d | d in commitments :: commitments[d][0]
  }

  /**
   The values `FinalShare` returns to any t different recipients, weighted at the scalars 1 to n that
   the recipients are, give the sum of the secrets of the surviving dealers.
   */
  lemma FinalSharesRecover(commitments: Commitments, surviving: set<nat>, t: nat, recipients: seq<Scalar>,
                           values: seq<Scalar>)
    requires IsPrime(Q) && t > 0 && surviving <= commitments.Keys
    requires forall d :: d in commitments ==> |commitments[d]| == t
    requires Distinct(recipients) && |recipients| >= t && |values| == |recipients|
    requires forall k :: 0 <= k < |recipients| ==>
      values[k] == SumOver(Evaluated(commitments, recipients[k]), surviving)
    ensures WeightedValues(recipients, recipients, values) == SumOver(Secrets(commitments), surviving)
  {
    var f := SurvivingPoly(commitments, surviving);
    hide IsPrime, Eval, SumOver, WeightedValues, SurvivingPoly, Combination, Distinct, Q;
    FinalSharesInterpolate(commitments, surviving, t, recipients);
    WeightedValuesCombine(recipients, recipients, values, f);
    forall d | d in commitments ensures Eval(commitments[d], ZERO) == commitments[d][0] {
      EvalAtZero(commitments[d]);
    }
    assert Evaluated(commitments, ZERO) == Secrets(commitments);
  }

  // --------------------------------------------------------- the one-process simulation

  function SumPolys(fs: seq<Poly>): Poly {
    if |fs| == 0 then [] else PolyAdd(fs[0], SumPolys(fs[1..]))
  }

  lemma SumPolysFrom(fs: seq<Poly>, k: nat, x: Scalar)
    requires k < |fs|
    ensures Eval(SumPolys(fs[k..]), x) == Add(Eval(fs[k], x), Eval(SumPolys(fs[k + 1..]), x))
  {
    assert fs[k..][1..] == fs[k + 1..];
    EvalSum(fs[k], SumPolys(fs[k + 1..]), x);
  }

  datatype DKGOutput = DKGOutput(secretShare: Scalar, publicKey: Scalar, verificationPoints: seq<Scalar>)

  lemma {:induction false} SumPolysLength(fs: seq<Poly>, t: nat)
    requires forall k :: 0 <= k < |fs| ==> |fs[k]| <= t
    ensures |SumPolys(fs)| <= t
  {
    if |fs| > 0 {
      SumPolysLength(fs[1..], t);
    }
  }

  /** What `run_feldman_dkg` returns: shares at the scalars 1 to n, and the key of the joint secret. */
  ghost predicate OutputsOf(fs: seq<Poly>, outputs: seq<DKGOutput>) {
    && |outputs| == |fs| < U32
    && forall i :: 0 <= i < |outputs| ==>
         && outputs[i].secretShare == Eval(SumPolys(fs), i + 1)
         && outputs[i].publicKey == Mul(ONE, Eval(SumPolys(fs), ZERO))
  }

  /** Any t outputs recover the secret behind the public key they all hold. */
  lemma OutputsRecover(fs: seq<Poly>, outputs: seq<DKGOutput>, t: nat, indices: seq<Scalar>, values: seq<Scalar>,
                       i: nat)
    requires IsPrime(Q) && OutputsOf(fs, outputs) && i < |outputs|
    requires forall k :: 0 <= k < |fs| ==> |fs[k]| <= t
    requires Distinct(indices) && |indices| >= t && |values| == |indices|
    requires forall k :: 0 <= k < |indices| ==>
      1 <= indices[k] <= |outputs| && values[k] == outputs[indices[k] - 1].secretShare
    ensures outputs[i].publicKey == Mul(ONE, WeightedValues(indices, indices, values))
  {
    var f := SumPolys(fs);
    hide IsPrime, Eval, Mul, WeightedValues, Combination, SumPolys, Distinct, Q;
    SumPolysLength(fs, t);
    WeightedValuesCombine(indices, indices, values, f);
    Interpolation(indices, f);
  }

  /** All evaluations, by dealer and recipient, both counted from one. */
  method DealAll(fs: seq<Poly>) returns (all: map<Pair, Scalar>)
    requires |fs| < U32
    ensures forall p :: p in all <==> 1 <= p.dealer <= |fs| && 1 <= p.recipient <= |fs|
    ensures forall p :: p in all ==> all[p] == Eval(fs[p.dealer - 1], p.recipient)
  {
    hide Eval;
    all := map[];
    for i := 1 to |fs| + 1
      invariant forall p :: p in all <==> 1 <= p.dealer < i && 1 <= p.recipient <= |fs|
      invariant forall p :: p in all ==> all[p] == Eval(fs[p.dealer - 1], p.recipient)
    {
      for j := 1 to |fs| + 1
        invariant forall p :: p in all <==>
          (1 <= p.dealer < i && 1 <= p.recipient <= |fs|) || (p.dealer == i && 1 <= p.recipient < j)
        invariant forall p :: p in all ==> all[p] == Eval(fs[p.dealer - 1], p.recipient)
      {
        var y := EvaluateByPowers(fs[i - 1], j);
        all := all[Pair(i, j) := y];
      }
    }
  }

  /** `run_feldman_dkg`, with everyone's random coefficients given: all outputs are of one joint polynomial. */
  method RunFeldmanDkg(fs: seq<Poly>) returns (outputs: seq<DKGOutput>)
    requires |fs| < U32 && forall k :: 0 <= k < |fs| ==> |fs[k]| > 0
    ensures OutputsOf(fs, outputs)
    ensures forall i :: 0 <= i < |outputs| ==>
      outputs[i].verificationPoints == seq(|fs|, k requires 0 <= k < |fs| => Mul(ONE, fs[k][0]))
  {
    var all := DealAll(fs);
    var points := seq(|fs|, k requires 0 <= k < |fs| => Mul(ONE, fs[k][0]));
    outputs := [];
    for i := 1 to |fs| + 1
      invariant |outputs| == i - 1
      invariant forall k :: 0 <= k < i - 1 ==>
        && outputs[k].secretShare == Eval(SumPolys(fs), k + 1)
        && outputs[k].publicKey == Mul(ONE, Eval(SumPolys(fs), ZERO))
        && outputs[k].verificationPoints == points
    {
      var share, pk := SumOutput(fs, all, points, i);
      outputs := outputs + [DKGOutput(share, pk, points)];
    }
  }

  /** The two sums of one output. */
  method SumOutput(fs: seq<Poly>, all: map<Pair, Scalar>, points: seq<Scalar>, i: nat)
    returns (share: Scalar, pk: Scalar)
    requires 1 <= i <= |fs| < U32 && |points| == |fs|
    requires forall k :: 0 <= k < |fs| ==> |fs[k]| > 0 && points[k] == Mul(ONE, fs[k][0])
    requires forall j :: 1 <= j <= |fs| ==> Pair(j, i) in all && all[Pair(j, i)] == Eval(fs[j - 1], i)
    ensures share == Eval(SumPolys(fs), i) && pk == Mul(ONE, Eval(SumPolys(fs), ZERO))
  {
    ghost var x := i;
    assert |fs| < Q;
    hide Add, Mul, Eval, SumPolys, Q;
    share, pk := ZERO, ZERO;
    assert fs[0..] == fs;
    AddUnit(Eval(SumPolys(fs), x));
    AddUnit(Eval(SumPolys(fs), ZERO));
    for k := 0 to |fs|
      invariant Add(share, Eval(SumPolys(fs[k..]), x)) == Eval(SumPolys(fs), x)
      invariant Add(pk, Eval(SumPolys(fs[k..]), ZERO)) == Eval(SumPolys(fs), ZERO)
    {
      SumPolysFrom(fs, k, x);
      SumPolysFrom(fs, k, ZERO);
      EvalAtZero(fs[k]);
      MulUnit(fs[k][0]);
      AddAssoc(share, Eval(fs[k], x), Eval(SumPolys(fs[k + 1..]), x));
      AddAssoc(pk, points[k], Eval(SumPolys(fs[k + 1..]), ZERO));
      share := Add(share, all[Pair(k + 1, i)]);
      pk := Add(pk, points[k]);
    }
    SumOfNoPolys(x);
    SumOfNoPolys(ZERO);
    assert fs[|fs|..] == [];
    AddUnit(share);
    AddUnit(pk);
    MulUnit(pk);
  }

  lemma SumOfNoPolys(x: Scalar)
    ensures Eval(SumPolys([]), x) == ZERO
  {
  }
}
