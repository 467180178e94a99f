/**
 The key threshold of a cluster. How many coefficients the joint polynomial has decides
 both whether verified votes combine and whether honest replicas can be split.
 */
module Thresholds {
  import opened Base
  import opened Scalars
  import opened Lagrange
  import opened Protocol
  import opened Completeness
  import opened Threshold
  import opened Derivation
  import opened Packets
  import opened Dkg
  import opened Bootstrap
  import opened Rounds
  import opened Disagreement
  import opened Link

  /** The polynomial without leading zeros. */
  function Trimmed(f: Poly): Poly {
    if |f| > 0 && f[|f| - 1] == ZERO then Trimmed(f[..|f| - 1]) else f
  }

  lemma {:induction false} KeysOfTrimmed(f: Poly, total: nat, self: nat, boot: Boot)
    requires KeysFrom(f, total, self, boot)
    ensures KeysFrom(Trimmed(f), total, self, boot) && |Trimmed(f)| <= |f|
  {
    hide KeysFrom;
    if |f| > 0 && f[|f| - 1] == ZERO {
      KeysOfShorter(f, total, self, boot);
      KeysOfTrimmed(f[..|f| - 1], total, self, boot);
    }
  }

  /**
   What the adversary of `Cluster` may use. The votes of as many nodes as the key polynomial has
   coefficients give, by a sum that needs no secret, the vote of every other node.
   */
  lemma VotesDerive(f: Poly, total: nat, self: nat, hash: seq<Byte> -> Scalar, boot: Boot, s: Statement,
                    ids: seq<nat>, sigs: Partials, i: nat)
    requires IsPrime(Q) && 0 < total < U32 && KeysFrom(f, total, self, boot)
    requires Distinct(ids) && |Trimmed(f)| <= |ids| && i < total
    requires forall id :: id in ids ==>
      id in sigs && id < total && BootRegistry(total, hash, boot).sigOk(id, s, sigs[id])
    ensures BootRegistry(total, hash, boot).sigOk(i, s, DerivedSum(ids, ids, sigs, NodePoint(i)))
  {
    hide IsPrime, Eval, VerifyHash, ThresholdOk, Trimmed, DerivedSum, Mul, Distinct, Q;
    KeysOfTrimmed(f, total, self, boot);
    var hm := hash(StatementBytes(s));
    forall id | id in ids ensures id < U32 && VerifyHash(hm, sigs[id], Mul(ONE, Eval(Trimmed(f), NodePoint(id)))) {
    }
    OthersSignature(hm, ids, sigs, Trimmed(f), i);
  }

  /** Under boot keys agreement holds in every run if and only if the polynomial has more than 2f coefficients. */
  lemma BootAgreementIff(f: Poly, total: nat, self: nat, hash: seq<Byte> -> Scalar, boot: Boot)
    requires IsPrime(Q) && 1 < total < U32 && total % 3 == 1 && KeysFrom(f, total, self, boot)
    ensures Agrees(BootRegistry(total, hash, boot), |Trimmed(f)|) <==> |Trimmed(f)| > 2 * ((total - 1) / 3)
  {
    assert boot.Booted?;
    hide IsPrime, KeysFrom, Combines, Signs, Agrees, Trimmed, Eval, BootRegistry, Q;
    var reg, g := BootRegistry(total, hash, boot), Trimmed(f);
    BootTopology(total, hash, boot);
    KeysOfTrimmed(f, total, self, boot);
    if |g| > 2 * reg.faults {
      HighThresholdAgrees(reg, |g|);
    } else {
      JointKeysCombine(g, total, self, hash, boot);
      JointKeysSign(g, total, self, hash, boot);
      AgreementIff(reg, Signing(g, hash), |g|);
    }
  }

  lemma {:induction false} TrimmedLonger(f: Poly)
    ensures |Trimmed(f)| <= |f|
    ensures |f| > 0 ==> (|Trimmed(f)| == |f| <==> f[|f| - 1] != ZERO)
  {
    if |f| > 0 && f[|f| - 1] == ZERO {
      TrimmedLonger(f[..|f| - 1]);
    }
  }

  /**
   Combining and agreeing need exactly 2f + 1 coefficients: with at most 2f + 2, verified votes
   always combine and honest replicas always agree if and only if there are 2f + 1.
   */
  lemma SafeThresholdIff(f: Poly, total: nat, self: nat, hash: seq<Byte> -> Scalar, boot: Boot, s: Statement)
    requires IsPrime(Q) && 1 < total < U32 && total % 3 == 1 && KeysFrom(f, total, self, boot)
    requires |f| <= 2 * ((total - 1) / 3) + 2 && hash(StatementBytes(s)) != ZERO
    ensures var reg := BootRegistry(total, hash, boot);
      Combines(reg) && Agrees(reg, |Trimmed(f)|) <==> |Trimmed(f)| == 2 * ((total - 1) / 3) + 1
  {
    assert boot.Booted?;
    hide IsPrime, KeysFrom, Combines, Agrees, Trimmed, BootRegistry, Q;
    BootAgreementIff(f, total, self, hash, boot);
    KeysOfTrimmed(f, total, self, boot);
    TrimmedLonger(f);
    if |Trimmed(f)| <= 2 * ((total - 1) / 3) + 1 {
      JointKeysCombine(Trimmed(f), total, self, hash, boot);
    } else {
      LongerKeysCombineIff(f, total, self, hash, boot, s);
    }
  }

  /**
   For the keys `BootstrapKeys` hands out: a key-generation threshold of at most 2f lets honest
   replicas be split; one of 2f + 1 does not, provided the leading coefficients do not cancel.
   */
  lemma StartupThreshold(all: Commitments, threshold: nat, total: nat, self: nat, hash: seq<Byte> -> Scalar, boot: Boot)
    requires IsPrime(Q) && 1 < total < U32 && total % 3 == 1 && threshold <= 2 * ((total - 1) / 3) + 1
    requires forall p :: p in Participants(total) ==> p in all && |all[p]| == threshold
    requires KeysFrom(Joint(all, Participants(total)), total, self, boot)
    ensures var (reg, f) := (BootRegistry(total, hash, boot), Joint(all, Participants(total)));
      && Combines(reg)
      && (threshold <= 2 * reg.faults ==> !Agrees(reg, |Trimmed(f)|))
      && (threshold == 2 * reg.faults + 1 ==> (Agrees(reg, |Trimmed(f)|) <==> |Trimmed(f)| == threshold))
  {
    assert boot.Booted?;
    hide IsPrime, KeysFrom, Combines, Signs, Agrees, Trimmed, BootRegistry, Joint, Participants, Q;
    var f := Joint(all, Participants(total));
    BootTopology(total, hash, boot);
    JointLength(all, Participants(total), threshold);
    TrimmedLonger(f);
    BootAgreementIff(f, total, self, hash, boot);
    BootstrappedRegistry(all, threshold, total, self, hash, boot);
  }
}
