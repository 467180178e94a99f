/**
 `DkgSession`: joint Feldman key generation. Commitments are points of G2, named by
 their logarithms, so that a list of commitments is the polynomial it commits to,
 whether or not its dealer is honest.
 */
module Dkg {
  import opened Base
  import opened Bytes
  import opened Codecs
  import opened Scalars
  import opened Lagrange
  import opened Sharing
  import opened Selection
  import opened Threshold

  type Commitments = map<nat, Poly>

  datatype ShareResult = ShareOk | InvalidCommitmentsLength | FeldmanVerificationFailed

  datatype Finalized = Keys(share: Scalar, masterPk: Scalar) | MissingFromPeer

  /** The participants other than `self`, in order. */
  function Others(participants: seq<nat>, self: nat): seq<nat> {
    if |participants| == 0 then []
    else if participants[0] == self then Others(participants[1..], self)
    else [participants[0]] + Others(participants[1..], self)
  }

  /** The sum of the polynomials of `dealers`. */
  function Joint(all: Commitments, dealers: seq<nat>): Poly
    requires forall p :: p in dealers ==> p in all
  {
    if |dealers| == 0 then [] else PolyAdd(all[dealers[0]], Joint(all, dealers[1..]))
  }

  lemma {:induction false} JointLength(all: Commitments, dealers: seq<nat>, threshold: nat)
    requires forall p :: p in dealers ==> p in all && |all[p]| == threshold
    ensures |Joint(all, dealers)| <= threshold
  {
    if |dealers| > 0 {
      JointLength(all, dealers[1..], threshold);
    }
  }

  lemma {:induction false} OthersElements(participants: seq<nat>, self: nat)
    ensures forall p :: p in Others(participants, self) <==> p in participants && p != self
    ensures self !in participants ==> Others(participants, self) == participants
  {
    if |participants| > 0 {
      OthersElements(participants[1..], self);
    }
  }

  /** One's own polynomial may be added first or in its place. */
  lemma {:induction false} JointOrder(all: Commitments, participants: seq<nat>, self: nat, x: Scalar)
    requires Distinct(participants) && self in participants
    requires forall p :: p in participants ==> p in all
    ensures forall p :: p in [self] + Others(participants, self) ==> p in all
    ensures Eval(Joint(all, [self] + Others(participants, self)), x) == Eval(Joint(all, participants), x)
  {
    OthersElements(participants, self);
    var others := Others(participants, self);
    assert ([self] + others)[1..] == others;
    hide Add, Mul, PolyAdd, Q;
    var head, rest := participants[0], participants[1..];
    if head == self {
      assert self !in rest;
      OthersElements(rest, self);
    } else {
      assert forall p :: p in rest ==> p in participants;
      JointOrder(all, rest, self, x);
      OthersElements(rest, self);
      var fewer := Others(rest, self);
      assert others == [head] + fewer && others[1..] == fewer && ([self] + fewer)[1..] == fewer;
      EvalSum(all[head], Joint(all, fewer), x);
      EvalSum(all[self], Joint(all, others), x);
      EvalSum(all[self], Joint(all, fewer), x);
      EvalSum(all[head], Joint(all, rest), x);
      var s, h, t := Eval(all[self], x), Eval(all[head], x), Eval(Joint(all, fewer), x);
      AddAssoc(s, h, t);
      AddComm(s, h);
      AddAssoc(h, s, t);
    }
  }

  // ------------------------------------------------------------------- the transcript

  /** The bytes of `compute_commitment_transcript`, from the entries of `ids` in order. */
  function Entries(c: Codec<Scalar>, all: Commitments, ids: seq<nat>): seq<Byte>
    requires forall id :: id in ids ==> id in all
  {
    if |ids| == 0 then [] else BigEndian(ids[0], 4) + EncodeAll(c, all[ids[0]]) + Entries(c, all, ids[1..])
  }

  ghost function Transcript(c: Codec<Scalar>, all: Commitments): seq<Byte> {
    SortedElements(all.Keys);
    Entries(c, all, Sorted(all.Keys))
  }

  /** Lists of one length, under 32-bit ids. */
  ghost predicate Uniform(all: Commitments, threshold: nat) {
    forall id :: id in all ==> id < U32 && |all[id]| == threshold
  }

  lemma {:induction false} EntriesInjective(c: Codec<Scalar>, a: Commitments, b: Commitments, threshold: nat,
                                            xs: seq<nat>, ys: seq<nat>)
    requires c.Valid() && Uniform(a, threshold) && Uniform(b, threshold)
    requires (forall id :: id in xs ==> id in a) && (forall id :: id in ys ==> id in b)
    requires Entries(c, a, xs) == Entries(c, b, ys)
    ensures xs == ys && forall id :: id in xs ==> a[id] == b[id]
  {
    if |xs| > 0 {
      FirstEntry(c, a, threshold, xs);
    }
    if |ys| > 0 {
      FirstEntry(c, b, threshold, ys);
    }
    if |xs| > 0 && |ys| > 0 {
      hide EncodeAll, DecodeAll, BigEndian, FromBigEndian;
      EntriesInjective(c, a, b, threshold, xs[1..], ys[1..]);
      assert xs == [xs[0]] + xs[1..] && ys == [ys[0]] + ys[1..];
    }
  }

  /** The first entry can be read off the front. */
  lemma FirstEntry(c: Codec<Scalar>, all: Commitments, threshold: nat, ids: seq<nat>)
    requires c.Valid() && Uniform(all, threshold) && |ids| > 0 && forall id :: id in ids ==> id in all
    ensures var e := Entries(c, all, ids);
      var width := 4 + c.width * threshold;
      && |e| >= width && |e| >= 4
      && FromBigEndian(e[..4]) == ids[0]
      && DecodeAll(c, e[4..width]) == Some(all[ids[0]])
      && e[width..] == Entries(c, all, ids[1..])
  {
    var id := ids[0];
    assert id in ids;
    var head, list, rest := BigEndian(id, 4), EncodeAll(c, all[id]), Entries(c, all, ids[1..]);
    PowWidths();
    DecodesEncoded(id, 4);
    DecodesAll(c, all[id]);
    hide EncodeAll, DecodeAll, BigEndian, FromBigEndian;
    var e := head + list + rest;
    assert Entries(c, all, ids) == e;
    assert e[..4] == head && e[4..4 + |list|] == list && e[4 + |list|..] == rest;
  }

  /** Two commitment maps with lists of one length and the same transcript are the same map. */
  lemma TranscriptInjective(c: Codec<Scalar>, a: Commitments, b: Commitments, threshold: nat)
    requires c.Valid() && Uniform(a, threshold) && Uniform(b, threshold)
    requires Transcript(c, a) == Transcript(c, b)
    ensures a == b
  {
    SortedElements(a.Keys);
    SortedElements(b.Keys);
    EntriesInjective(c, a, b, threshold, Sorted(a.Keys), Sorted(b.Keys));
    assert a.Keys == b.Keys;
  }

  /** `compute_commitment_transcript`, up to the hash. */
  method CommitmentTranscript(c: Codec<Scalar>, all: Commitments) returns (bytes: seq<Byte>)
    ensures bytes == Transcript(c, all)
  {
    SortedElements(all.Keys);
    var ids := SortIds(all.Keys);
    hide Sorted, BigEndian;
    bytes := [];
    for n := 0 to |ids|
      invariant bytes == Entries(c, all, ids[..n])
    {
      bytes := bytes + BigEndian(ids[n], 4);
      var list := all[ids[n]];
      ghost var before := bytes;
      for k := 0 to |list|
        invariant bytes == before + EncodeAll(c, list[..k])
      {
        EncodeAllAppend(c, list[..k], list[k]);
        assert list[..k + 1] == list[..k] + [list[k]];
        bytes := bytes + c.encode(list[k]);
      }
      assert list[..|list|] == list && ids[..n + 1] == ids[..n] + [ids[n]];
      EntriesAppend(c, all, ids[..n], ids[n]);
    }
    assert ids[..|ids|] == ids;
  }

  lemma {:induction false} EntriesAppend(c: Codec<Scalar>, all: Commitments, ids: seq<nat>, id: nat)
    requires id in all && forall i :: i in ids ==> i in all
    ensures Entries(c, all, ids + [id]) == Entries(c, all, ids) + BigEndian(id, 4) + EncodeAll(c, all[id])
  {
    hide EncodeAll, BigEndian;
    if |ids| == 0 {
      assert [id][1..] == [];
    } else {
      EntriesAppend(c, all, ids[1..], id);
      assert (ids + [id])[1..] == ids[1..] + [id];
    }
  }

  // ------------------------------------------------------------------------ a session

  /** The value at a node's point: at one more than its id, or the constant term for the last 32-bit id. */
  lemma ThisPoint(id: nat, f: Poly)
    ensures id < 0xFFFF_FFFF ==> Eval(f, NodePoint(id)) == Eval(f, id + 1)
    ensures id == 0xFFFF_FFFF && |f| > 0 ==> Eval(f, NodePoint(id)) == f[0]
  {
    hide Eval, NodePoint, Q;
    if id <= 0xFFFF_FFFF {
      PointOf(id);
    }
    EvalAtZero(f);
  }

  class DkgSession {
    const nodeId: nat
    const threshold: nat
    const totalNodes: nat
    const secretPolynomial: Poly
    var receivedShares: map<nat, Scalar>
    var receivedCommitments: Commitments

    /** Every stored share is the committed polynomial at this node's point. */
    ghost predicate Valid()
      reads this
    {
      && |secretPolynomial| == threshold
      && receivedShares.Keys == receivedCommitments.Keys
      && forall p :: p in receivedShares ==>
           && |receivedCommitments[p]| == threshold
           && receivedShares[p] == Eval(receivedCommitments[p], NodePoint(nodeId))
    }

    /** A new session; the random coefficients are given. */
    constructor (nodeId: nat, coefficients: Poly, totalNodes: nat)
      ensures Valid() && this.nodeId == nodeId && threshold == |coefficients| && this.totalNodes == totalNodes
      ensures secretPolynomial == coefficients && receivedShares == map[] && receivedCommitments == map[]
    {
      this.nodeId, this.totalNodes := nodeId, totalNodes;
      threshold, secretPolynomial := |coefficients|, coefficients;
      receivedShares, receivedCommitments := map[], map[];
    }

    /** The commitments of all dealers: one's own in place of any received under its id. */
    function AllCommitments(): Commitments
      reads this
    {
      receivedCommitments[nodeId := secretPolynomial]
    }

    /** `generate_commitments`: the generator times each coefficient. */
    method GenerateCommitments() returns (commitments: Poly)
      ensures commitments == secretPolynomial
    {
      hide Mul, Q;
      commitments := [];
      for n := 0 to |secretPolynomial|
        invariant commitments == secretPolynomial[..n]
      {
        MulUnit(secretPolynomial[n]);
        commitments := commitments + [Mul(ONE, secretPolynomial[n])];
      }
    }

    method EvaluateShareFor(id: nat) returns (share: Scalar)
      ensures share == Eval(secretPolynomial, NodePoint(id))
      ensures id < 0xFFFF_FFFF ==> share == Eval(secretPolynomial, id + 1)
      ensures id == 0xFFFF_FFFF && |secretPolynomial| > 0 ==> share == secretPolynomial[0]
    {
      hide Eval, NodePoint, Q;
      ThisPoint(id, secretPolynomial);
      share := EvaluateByPowers(secretPolynomial, NodePoint(id));
    }

    /** `process_incoming_share`: a share is stored exactly when it fits its commitments. */
    method ProcessIncomingShare(fromNode: nat, share: Scalar, commitments: Poly) returns (r: ShareResult)
      requires Valid()
      modifies this`receivedShares, this`receivedCommitments
      ensures Valid()
      ensures r == if |commitments| != threshold then InvalidCommitmentsLength
                   else if share != Eval(commitments, NodePoint(nodeId)) then FeldmanVerificationFailed
                   else ShareOk
      ensures nodeId < 0xFFFF_FFFF ==>
        (r == ShareOk <==> |commitments| == threshold && share == Eval(commitments, nodeId + 1))
      ensures nodeId == 0xFFFF_FFFF && threshold > 0 ==>
        (r == ShareOk <==> |commitments| == threshold && share == commitments[0])
      ensures r == ShareOk ==>
        && receivedShares == old(receivedShares)[fromNode := share]
        && receivedCommitments == old(receivedCommitments)[fromNode := commitments]
      ensures r != ShareOk ==>
        receivedShares == old(receivedShares) && receivedCommitments == old(receivedCommitments)
    {
      hide Eval, NodePoint, Mul, Q;
      if |commitments| != threshold {
        return InvalidCommitmentsLength;
      }
      ThisPoint(nodeId, commitments);
      var expected := EvaluateByPowers(commitments, NodePoint(nodeId));
      MulUnit(share);
      if Mul(ONE, share) != expected {
        return FeldmanVerificationFailed;
      }
      receivedShares := receivedShares[fromNode := share];
      receivedCommitments := receivedCommitments[fromNode := commitments];
      r := ShareOk;
    }

    /** `verify_transcript_consistency`, for any hash function. */
    method VerifyTranscriptConsistency(c: Codec<Scalar>, sha: seq<Byte> -> Digest, peerHashes: map<nat, Digest>)
      returns (ok: bool)
      ensures ok <==> forall p :: p in peerHashes ==> peerHashes[p] == sha(Transcript(c, AllCommitments()))
    {
      var bytes := CommitmentTranscript(c, AllCommitments());
      var mine := sha(bytes);
      var rest := peerHashes.Keys;
      while rest != {}
        invariant rest <= peerHashes.Keys
        invariant forall p :: p in peerHashes && p !in rest ==> peerHashes[p] == mine
        decreases rest
      {
        var p :| p in rest;
        if peerHashes[p] != mine {
          return false;
        }
        rest := rest - {p};
      }
      ok := true;
    }

    /**
     `finalize_dkg`: the share is the joint polynomial at this node's point, and the
     master key its constant term; a missing peer is an error.
     */
    method FinalizeDkg(participants: seq<nat>) returns (r: Finalized)
      requires Valid() && threshold > 0
      ensures r.Keys? <==> forall p :: p in Others(participants, nodeId) ==> p in receivedShares
      ensures r.Keys? ==>
        var dealers := [nodeId] + Others(participants, nodeId);
        && (forall p :: p in dealers ==> p in AllCommitments())
        && r.share == Eval(Joint(AllCommitments(), dealers), NodePoint(nodeId))
        && r.share == ShareOf(AllCommitments(), participants, nodeId)
        && r.masterPk == Eval(Joint(AllCommitments(), dealers), ZERO)
    {
      var share := EvaluateShareFor(nodeId);
      var commitments := GenerateCommitments();
      AddUnit(commitments[0]);
      var masterPk := Add(ZERO, commitments[0]);
      ghost var all, x, dealers := AllCommitments(), NodePoint(nodeId), [nodeId];
      EvalAtZero(secretPolynomial);
      assert nodeId in all && all[nodeId] == secretPolynomial;
      assert forall p :: p in receivedShares && p != nodeId ==>
        p in all && all[p] == receivedCommitments[p] && receivedShares[p] == Eval(all[p], x);
      OthersElements(participants, nodeId);
      assert Others(participants[..0], nodeId) == [];
      hide Add, Mul, PolyAdd, Joint, Eval, NodePoint, AllCommitments, Others, DkgSession.Valid, Q;
      JointOfOne(all, nodeId);
      for n := 0 to |participants|
        invariant dealers == [nodeId] + Others(participants[..n], nodeId)
        invariant forall p :: p in dealers ==> p in all
        invariant forall p :: p in Others(participants[..n], nodeId) ==> p in receivedShares
        invariant share == Eval(Joint(all, dealers), x) && masterPk == Eval(Joint(all, dealers), ZERO)
      {
        var peer := participants[n];
        assert participants[..n + 1] == participants[..n] + [peer];
        OthersAppend(participants[..n], peer, nodeId);
        if peer != nodeId {
          if peer !in receivedShares {
            assert peer in participants;
            return MissingFromPeer;
          }
          JointAppend(all, dealers, peer, x);
          JointAppend(all, dealers, peer, ZERO);
          EvalAtZero(receivedCommitments[peer]);
          share := Add(share, receivedShares[peer]);
          masterPk := Add(masterPk, receivedCommitments[peer][0]);
          dealers := dealers + [peer];
        }
      }
      assert participants[..|participants|] == participants;
      r := Keys(share, masterPk);
    }
  }

  lemma JointOfOne(all: Commitments, p: nat)
    requires p in all
    ensures Joint(all, [p]) == all[p]
  {
    assert Joint(all, [p][1..]) == [];
  }

  lemma {:induction false} OthersAppend(participants: seq<nat>, p: nat, self: nat)
    ensures Others(participants + [p], self) == Others(participants, self) + if p == self then [] else [p]
  {
    if |participants| == 0 {
      assert [p][1..] == [];
    } else {
      OthersAppend(participants[1..], p, self);
      assert (participants + [p])[1..] == participants[1..] + [p];
    }
  }

  lemma {:induction false} JointAppend(all: Commitments, dealers: seq<nat>, p: nat, x: Scalar)
    requires p in all && forall d :: d in dealers ==> d in all
    ensures forall d :: d in dealers + [p] ==> d in all
    ensures Eval(Joint(all, dealers + [p]), x) == Add(Eval(Joint(all, dealers), x), Eval(all[p], x))
  {
    hide Add, Mul, PolyAdd, Q;
    if |dealers| == 0 {
      JointOfOne(all, p);
      assert dealers + [p] == [p];
      AddUnit(Eval(all[p], x));
    } else {
      JointAppend(all, dealers[1..], p, x);
      assert (dealers + [p])[1..] == dealers[1..] + [p];
      EvalSum(all[dealers[0]], Joint(all, dealers[1..] + [p]), x);
      EvalSum(all[dealers[0]], Joint(all, dealers[1..]), x);
      AddAssoc(Eval(all[dealers[0]], x), Eval(Joint(all, dealers[1..]), x), Eval(all[p], x));
    }
  }

  // -------------------------------------------------------------- the whole ceremony

  /** What party `i` holds at the end, given the commitments it has for every dealer. */
  function ShareOf(all: Commitments, participants: seq<nat>, i: nat): Scalar
    requires forall p :: p in [i] + Others(participants, i) ==> p in all
  {
    Eval(Joint(all, [i] + Others(participants, i)), NodePoint(i))
  }

  /** What party `i` holds is the joint polynomial at the scalar i + 1. */
  lemma ShareAtSuccessor(all: Commitments, participants: seq<nat>, i: nat)
    requires Distinct(participants) && i in participants && i < 0xFFFF_FFFF
    requires forall p :: p in participants ==> p in all
    ensures forall p :: p in [i] + Others(participants, i) ==> p in all
    ensures ShareOf(all, participants, i) == Eval(Joint(all, participants), i + 1)
  {
    hide Eval, NodePoint, Joint, Distinct, Q;
    JointOrder(all, participants, i, NodePoint(i));
    ThisPoint(i, Joint(all, participants));
  }

  /** Unless the hash collides on them, parties whose transcripts agree hold the same commitments. */
  lemma ConsistentTranscripts(c: Codec<Scalar>, sha: seq<Byte> -> Digest, a: Commitments, b: Commitments,
                              threshold: nat)
    requires c.Valid() && Uniform(a, threshold) && Uniform(b, threshold)
    requires sha(Transcript(c, a)) == sha(Transcript(c, b)) && CollisionFree(sha, {Transcript(c, a), Transcript(c, b)})
    ensures a == b
  {
    hide Transcript;
    TranscriptInjective(c, a, b, threshold);
  }

  /**
   Key generation and threshold verification, end to end and with dishonest dealers:
   parties that finalised on the same commitments hold shares of one polynomial whose
   constant term is the master key, and the partial signatures of any `quorum` of them
   verify together, for every `quorum` of at least `threshold`.
   */
  lemma JointSharesVerify(hm: Scalar, all: Commitments, participants: seq<nat>, threshold: nat, sigs: Partials,
                          quorum: nat)
    requires IsPrime(Q) && NodeIds(participants)
    requires forall p :: p in participants ==> p in all && |all[p]| == threshold
    requires threshold <= quorum <= |sigs|
    requires forall i :: i in sigs ==>
      && i in participants
      && (forall p :: p in [i] + Others(participants, i) ==> p in all)
      && sigs[i] == SignHash(hm, ShareOf(all, participants, i))
    ensures |Joint(all, participants)| <= threshold
    ensures forall i :: i in sigs ==> ShareOf(all, participants, i) == Eval(Joint(all, participants), NodePoint(i))
    ensures ThresholdOk(hm, sigs, Mul(ONE, Eval(Joint(all, participants), ZERO)), quorum)
  {
    var f := Joint(all, participants);
    JointLength(all, participants, threshold);
    hide IsPrime, Q, Eval, SignHash, VerifyHash, Joint, Mul, ThresholdOk;
    forall i | i in sigs
      ensures i < U32 && VerifyHash(hm, sigs[i], Mul(ONE, Eval(f, NodePoint(i))))
      ensures ShareOf(all, participants, i) == Eval(f, NodePoint(i))
    {
      JointOrder(all, participants, i, NodePoint(i));
      VerifiesIffSigned(hm, sigs[i], Eval(f, NodePoint(i)));
    }
    ValidPartialsVerify(hm, sigs, f, quorum);
  }
}
