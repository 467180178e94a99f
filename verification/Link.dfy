/**
 The two halves together: the registry a node starts its replica with, after joint key
 generation, verifies votes and certificates with real threshold signatures.
 */
module Link {
  import opened Base
  import opened Scalars
  import opened Lagrange
  import opened Protocol
  import opened Recovery
  import opened Invariants
  import opened Completeness
  import opened Threshold
  import opened Forgery
  import opened Packets
  import opened Dkg
  import opened Bootstrap
  import opened WalFormat
  import opened Durability
  import opened Compaction
  import opened Startup
  import opened Rounds

  /** Votes whose signatures are points, as partial signatures. */
  function AsPartials(votes: Votes): Partials {
    map i | i in votes && votes[i] < Q :: votes[i]
  }

  predicate ArePoints(votes: Votes) {
    forall i :: i in votes ==> votes[i] < Q
  }

  /** `verify_bls_signature` under the keys of the nodes. */
  ghost function SigCheck(hash: seq<Byte> -> Scalar, publicKeys: map<nat, Scalar>): (nat, Statement, Sig) -> bool {
    (i: nat, s: Statement, sig: Sig) =>
      i in publicKeys && sig < Q && VerifyHash(hash(StatementBytes(s)), sig, publicKeys[i])
  }

  /** `verify_threshold_signature` under the master key, at any threshold. */
  ghost function ThresholdCheck(hash: seq<Byte> -> Scalar, masterPk: Scalar): (nat, Statement, Votes) -> bool {
    (size: nat, s: Statement, votes: Votes) =>
      ArePoints(votes) && ThresholdOk(hash(StatementBytes(s)), AsPartials(votes), masterPk, size)
  }

  /** The registry `new_with_wal_path` builds from the keys of the start-up. */
  ghost function BootRegistry(total: nat, hash: seq<Byte> -> Scalar, boot: Boot): Registry
    requires total > 0 && boot.Booted?
  {
    RegistryFor(total, SigCheck(hash, boot.publicKeys), ThresholdCheck(hash, boot.masterPk))
  }

  lemma PartialsOf(votes: Votes)
    requires ArePoints(votes)
    ensures AsPartials(votes).Keys == votes.Keys && |AsPartials(votes)| == |votes|
    ensures forall i :: i in votes ==> AsPartials(votes)[i] == votes[i]
  {
    MapSize(votes);
    MapSize(AsPartials(votes));
  }

  /** With keys from one polynomial of at most 2f + 1 coefficients, individually verified votes always combine. */
  lemma JointKeysCombine(f: Poly, total: nat, self: nat, hash: seq<Byte> -> Scalar, boot: Boot)
    requires IsPrime(Q) && 0 < total < U32 && KeysFrom(f, total, self, boot)
    requires |f| <= 2 * ((total - 1) / 3) + 1
    ensures Combines(BootRegistry(total, hash, boot))
  {
    hide IsPrime, Eval, VerifyHash, ThresholdOk, Q, Mul;
    var reg := BootRegistry(total, hash, boot);
    var quorum := 2 * ((total - 1) / 3) + 1;
    forall s: Statement, votes: Votes |
      Full(reg, votes) && (forall i :: i in votes ==> i < reg.nodes && reg.sigOk(i, s, votes[i]))
      ensures reg.certOk(s, votes)
    {
      assert ArePoints(votes);
      PartialsOf(votes);
      var hm, sigs := hash(StatementBytes(s)), AsPartials(votes);
      assert |sigs| >= quorum;
      forall id | id in sigs ensures id < U32 && VerifyHash(hm, sigs[id], Mul(ONE, Eval(f, NodePoint(id)))) {
        assert id in votes && reg.sigOk(id, s, votes[id]);
      }
      ValidPartialsVerify(hm, sigs, f, quorum);
    }
  }

  /** The signature of node `i`, whose share is the value of `f` at its point. */
  ghost function Signing(f: Poly, hash: seq<Byte> -> Scalar): Signer {
    (i: nat, s: Statement) => SignHash(hash(StatementBytes(s)), Eval(f, NodePoint(i)))
  }

  /** The shares behind such keys sign whatever the registry is to accept. */
  lemma JointKeysSign(f: Poly, total: nat, self: nat, hash: seq<Byte> -> Scalar, boot: Boot)
    requires 0 < total && KeysFrom(f, total, self, boot)
    ensures Signs(BootRegistry(total, hash, boot), Signing(f, hash))
  {
    var reg, sign := BootRegistry(total, hash, boot), Signing(f, hash);
    forall i: nat, s: Statement | i < reg.nodes ensures reg.sigOk(i, s, sign(i, s)) {
      hide Eval, VerifyHash, ThresholdOk, Q, Mul, SignHash;
      VerifiesIffSigned(hash(StatementBytes(s)), sign(i, s), Eval(f, NodePoint(i)));
    }
  }

  lemma VotesCertify(reg: Registry, s: Core, m: Message)
    requires reg.nodes > 0 && Inv(reg, s) && Combines(reg)
    ensures Handle(reg, s, m) != Rejected(CertificateVerificationFailed)
    ensures forall k :: k in s.prepareVotes && Full(reg, s.prepareVotes[k]) ==> PreparedFor(s.prepared, k)
    ensures forall k :: k in s.commitVotes && Full(reg, s.commitVotes[k]) ==> PreparedFor(s.commits, k)
  {
    hide Full;
    CertificateFailureUnreachable(reg, s, m);
    hide Handle;
  }

  lemma ReplyIsHandled(reg: Registry, node: Node, m: Message, fate: Fate)
    requires reg.nodes > 0 && Handle(reg, node.live, m) != Rejected(CertificateVerificationFailed)
    ensures Deliver(reg, node, m, fate).1 != Rejected(CertificateVerificationFailed)
  {
    hide Handle;
  }

  /** A replica started on any bytes it starts on is in good order through any run. */
  lemma StartedOk(reg: Registry, codec: PointCodec, disk: seq<Byte>, events: seq<Event>)
    requires reg.nodes > 0 && Opened(reg, codec, disk).Some?
    ensures Inv(reg, Continue(reg, Opened(reg, codec, disk).value, events).live)
  {
    hide NodeOk, Replay, DecodeLog, Inv, Continue;
    OpenedOk(reg, DecodeLog(codec, disk).value);
    ContinueOk(reg, Opened(reg, codec, disk).value, events);
    LiveInv(reg, Continue(reg, Opened(reg, codec, disk).value, events));
  }

  lemma BootTopology(total: nat, hash: seq<Byte> -> Scalar, boot: Boot)
    requires 0 < total && boot.Booted?
    ensures BootRegistry(total, hash, boot).nodes == total
    ensures BootRegistry(total, hash, boot).faults == (total - 1) / 3
    ensures total % 3 == 1 ==> BootRegistry(total, hash, boot).Topology()
  {
    hide SigCheck, ThresholdCheck;
  }

  /**
   What `BootstrapKeys` hands out, with a key-generation threshold of at most 2f + 1, makes a
   registry whose verified votes always combine, and under which every node can sign.
   */
  lemma BootstrappedRegistry(all: Commitments, threshold: nat, total: nat, self: nat, hash: seq<Byte> -> Scalar,
                             boot: Boot)
    requires IsPrime(Q) && 0 < total < U32 && threshold <= 2 * ((total - 1) / 3) + 1
    requires forall p :: p in Participants(total) ==> p in all && |all[p]| == threshold
    requires KeysFrom(Joint(all, Participants(total)), total, self, boot)
    ensures Combines(BootRegistry(total, hash, boot))
    ensures Signs(BootRegistry(total, hash, boot), Signing(Joint(all, Participants(total)), hash))
    ensures total % 3 == 1 ==> BootRegistry(total, hash, boot).Topology()
  {
    assert boot.Booted?;
    hide IsPrime, KeysFrom, Combines, Signs, BootRegistry, Joint, Participants, Signing;
    BootTopology(total, hash, boot);
    JointLength(all, Participants(total), threshold);
    JointKeysCombine(Joint(all, Participants(total)), total, self, hash, boot);
    JointKeysSign(Joint(all, Participants(total)), total, self, hash, boot);
  }

  /**
   A replica started on such keys, from any bytes it starts on and through any run: no vote is
   ever rejected for its certificate, and every quorum of votes has its certificate.
   */
  lemma BootstrappedVotesCertify(all: Commitments, threshold: nat, total: nat, self: nat,
                                 hash: seq<Byte> -> Scalar, boot: Boot, codec: PointCodec, disk: seq<Byte>,
                                 events: seq<Event>, m: Message, fate: Fate)
    requires IsPrime(Q) && 0 < total < U32 && threshold <= 2 * ((total - 1) / 3) + 1
    requires forall p :: p in Participants(total) ==> p in all && |all[p]| == threshold
    requires KeysFrom(Joint(all, Participants(total)), total, self, boot)
    requires Opened(BootRegistry(total, hash, boot), codec, disk).Some?
    ensures var reg := BootRegistry(total, hash, boot);
      var node := Continue(reg, Opened(reg, codec, disk).value, events);
      && Deliver(reg, node, m, fate).1 != Rejected(CertificateVerificationFailed)
      && (forall k :: k in node.live.prepareVotes && Full(reg, node.live.prepareVotes[k]) ==>
            PreparedFor(node.live.prepared, k))
      && (forall k :: k in node.live.commitVotes && Full(reg, node.live.commitVotes[k]) ==>
            PreparedFor(node.live.commits, k))
  {
    var reg := BootRegistry(total, hash, boot);
    BootstrappedRegistry(all, threshold, total, self, hash, boot);
    assert reg.nodes == total;
    hide IsPrime, KeysFrom, Full, BootRegistry, Signs, Combines, Participants, Joint, Opened, Continue, Inv, Handle;
    hide Deliver;
    StartedOk(reg, codec, disk, events);
    var node := Continue(reg, Opened(reg, codec, disk).value, events);
    VotesCertify(reg, node.live, m);
    ReplyIsHandled(reg, node, m, fate);
  }

  // ---------------------------------------------------------------- keys of a new start

  /** A row written under the keys of one start is authentic under those of another iff its sender's key is the same. */
  lemma AuthenticUnderNewKeysIff(total: nat, hash: seq<Byte> -> Scalar, f: Poly, g: Poly, self: nat, boot: Boot,
                                 next: Boot, rec: Record)
    requires IsPrime(Q) && 0 < total && KeysFrom(f, total, self, boot) && KeysFrom(g, total, self, next)
    requires Authentic(BootRegistry(total, hash, boot), rec)
    ensures Authentic(BootRegistry(total, hash, next), rec) <==>
      || next.publicKeys[rec.sender] == boot.publicKeys[rec.sender]
      || hash(StatementBytes(Statement(PhaseOf(rec.phase), rec.view, rec.seqno, rec.digest))) == ZERO
  {
    var s := Statement(PhaseOf(rec.phase), rec.view, rec.seqno, rec.digest);
    var hm, i := hash(StatementBytes(s)), rec.sender;
    var a, b := Eval(f, NodePoint(i)), Eval(g, NodePoint(i));
    hide IsPrime, Eval, ThresholdOk, VerifyHash, Mul, SignHash, Q;
    VerifiesIffSigned(hm, rec.signature, a);
    VerifiesIffSigned(hm, rec.signature, b);
    MulUnit(a);
    MulUnit(b);
    SameSignatureIff(hm, a, b);
  }

  lemma SameSignatureIff(hm: Scalar, a: Scalar, b: Scalar)
    requires IsPrime(Q)
    ensures SignHash(hm, a) == SignHash(hm, b) <==> a == b || hm == ZERO
  {
    hide Mul, IsPrime, Q;
    if hm == ZERO {
      MulUnit(a);
      MulUnit(b);
    } else {
      SignedEqualIff(hm, a, b);
    }
  }

  /** A log with a row that is not authentic does not replay, whatever else is in it. */
  lemma {:induction false} ForeignRowRefused(reg: Registry, log: Log, rec: Record)
    requires reg.nodes > 0 && rec in log && !Authentic(reg, rec)
    ensures Replay(reg, log) == Refused
  {
    hide Full, FullReports, Authentic;
    var init, last := log[..|log| - 1], log[|log| - 1];
    if rec in init {
      ForeignRowRefused(reg, init, rec);
    } else {
      assert rec == last;
    }
  }

  /**
   The start-up generates keys anew. Started again on a file that holds a row of a sender whose key
   has changed, over a message whose hash is not zero, the replica refuses to start.
   */
  lemma NewKeysRefuseOldLog(total: nat, hash: seq<Byte> -> Scalar, f: Poly, g: Poly, self: nat, boot: Boot, next: Boot,
                            codec: PointCodec, disk: seq<Byte>, rec: Record)
    requires IsPrime(Q) && 0 < total && KeysFrom(f, total, self, boot) && KeysFrom(g, total, self, next)
    requires DecodeLog(codec, disk).Some? && rec in DecodeLog(codec, disk).value
    requires Authentic(BootRegistry(total, hash, boot), rec)
    requires next.publicKeys[rec.sender] != boot.publicKeys[rec.sender]
    requires hash(StatementBytes(Statement(PhaseOf(rec.phase), rec.view, rec.seqno, rec.digest))) != ZERO
    ensures Opened(BootRegistry(total, hash, next), codec, disk) == None
  {
    hide IsPrime, DecodeLog, Replay, Eval, Q;
    AuthenticUnderNewKeysIff(total, hash, f, g, self, boot, next, rec);
    ForeignRowRefused(BootRegistry(total, hash, next), DecodeLog(codec, disk).value, rec);
  }

  // -------------------------------------------------- keys with one coefficient too many

  /** The votes of the `n` lowest ids for a statement with hash `hm`, each under its share. */
  function SignedVotes(f: Poly, hm: Scalar, n: nat): (votes: Votes)
    ensures forall i: nat :: i in votes <==> i < n
    ensures forall i :: i in votes ==> votes[i] == SignHash(hm, Eval(f, NodePoint(i)))
  {
    if n == 0 then map[] else SignedVotes(f, hm, n - 1)[n - 1 := SignHash(hm, Eval(f, NodePoint(n - 1)))]
  }

  lemma SignedPartials(f: Poly, hm: Scalar, n: nat)
    ensures |SignedVotes(f, hm, n)| == n && ArePoints(SignedVotes(f, hm, n))
    ensures |AsPartials(SignedVotes(f, hm, n))| == n
    ensures forall i: nat :: i in AsPartials(SignedVotes(f, hm, n)) <==> i < n
    ensures forall i :: i in AsPartials(SignedVotes(f, hm, n)) ==>
      AsPartials(SignedVotes(f, hm, n))[i] == SignHash(hm, Eval(f, NodePoint(i)))
  {
    hide Eval, SignHash, NodePoint;
    var votes := SignedVotes(f, hm, n);
    assert ArePoints(votes);
    PartialsOf(votes);
    MapSize(votes);
    assert votes.Keys == Below(n);
  }

  /** Votes of a quorum, valid one by one under keys of 2f + 2 coefficients, combine exactly if the last one is zero. */
  lemma LongerVotesIff(f: Poly, total: nat, self: nat, hash: seq<Byte> -> Scalar, boot: Boot, s: Statement,
                       votes: Votes)
    requires IsPrime(Q) && 0 < total < U32 && KeysFrom(f, total, self, boot)
    requires |f| == 2 * ((total - 1) / 3) + 2 && hash(StatementBytes(s)) != ZERO
    requires var reg := BootRegistry(total, hash, boot);
      Full(reg, votes) && forall i :: i in votes ==> i < reg.nodes && reg.sigOk(i, s, votes[i])
    ensures BootRegistry(total, hash, boot).certOk(s, votes) <==> f[|f| - 1] == ZERO
  {
    var quorum, hm, sigs := |f| - 1, hash(StatementBytes(s)), AsPartials(votes);
    var reg := BootRegistry(total, hash, boot);
    hide IsPrime, Eval, VerifyHash, ThresholdOk, Q, Mul, Chosen;
    assert ArePoints(votes);
    PartialsOf(votes);
    forall id | id in sigs ensures id < U32 && VerifyHash(hm, sigs[id], Mul(ONE, Eval(f, NodePoint(id)))) {
      assert id in votes && reg.sigOk(id, s, votes[id]);
    }
    BoundIsTight(hm, sigs, f, quorum);
    assert LAST_ID !in Chosen(sigs, quorum);
  }

  /**
   The bound is exact. With 2f + 2 coefficients, verified votes of a quorum always combine
   exactly if the extra coefficient is zero, that is, if there were only 2f + 1 after all.
   */
  lemma LongerKeysCombineIff(f: Poly, total: nat, self: nat, hash: seq<Byte> -> Scalar, boot: Boot, s: Statement)
    requires IsPrime(Q) && 0 < total < U32 && KeysFrom(f, total, self, boot)
    requires |f| == 2 * ((total - 1) / 3) + 2 && hash(StatementBytes(s)) != ZERO
    ensures Combines(BootRegistry(total, hash, boot)) <==> f[|f| - 1] == ZERO
  {
    var reg, quorum := BootRegistry(total, hash, boot), |f| - 1;
    if f[quorum] == ZERO {
      hide IsPrime, KeysFrom, Combines, BootRegistry, Eval, Q, Mul;
      KeysOfShorter(f, total, self, boot);
      JointKeysCombine(f[..quorum], total, self, hash, boot);
    } else {
      var hm := hash(StatementBytes(s));
      var votes := SignedVotes(f, hm, quorum);
      SignedPartials(f, hm, quorum);
      assert Full(reg, votes);
      forall i | i in votes ensures i < reg.nodes && reg.sigOk(i, s, votes[i]) {
        hide IsPrime, Eval, VerifyHash, ThresholdOk, Q, Mul, SignHash, SignedVotes;
        VerifiesIffSigned(hm, votes[i], Eval(f, NodePoint(i)));
      }
      hide IsPrime, Eval, BootRegistry, Full, KeysFrom, SignedVotes, Q;
      LongerVotesIff(f, total, self, hash, boot, s, votes);
    }
  }

  /** A last coefficient of zero may be dropped. */
  lemma {:induction false} ZeroTopDropped(f: Poly, x: Scalar)
    requires |f| > 0 && f[|f| - 1] == ZERO
    ensures Eval(f[..|f| - 1], x) == Eval(f, x)
  {
    hide Add, Mul, Q;
    if |f| == 1 {
      MulUnit(x);
      AddUnit(ZERO);
    } else {
      ZeroTopDropped(f[1..], x);
      assert f[..|f| - 1][1..] == f[1..][..|f| - 2];
    }
  }

  lemma KeysOfShorter(f: Poly, total: nat, self: nat, boot: Boot)
    requires |f| > 0 && f[|f| - 1] == ZERO && KeysFrom(f, total, self, boot)
    ensures KeysFrom(f[..|f| - 1], total, self, boot)
  {
    hide Eval, NodePoint, Mul, Q;
    ZeroTopDropped(f, NodePoint(self));
    ZeroTopDropped(f, ZERO);
    forall i | i in boot.publicKeys ensures boot.publicKeys[i] == Mul(ONE, Eval(f[..|f| - 1], NodePoint(i))) {
      ZeroTopDropped(f, NodePoint(i));
    }
  }

  /** Keys for all nodes out of one polynomial. */
  function KeysOf(f: Poly, total: nat): (keys: map<nat, Scalar>)
    ensures forall i: nat :: i in keys <==> i < total
    ensures forall i :: i in keys ==> keys[i] == Mul(ONE, Eval(f, NodePoint(i)))
  {
    if total == 0 then map[] else KeysOf(f, total - 1)[total - 1 := Mul(ONE, Eval(f, NodePoint(total - 1)))]
  }

  /** So any 2f + 2 coefficients, the last not zero, make keys under which valid votes of a quorum need not combine. */
  lemma LongerKeysNeedNotCombine(f: Poly, total: nat, self: nat, hash: seq<Byte> -> Scalar, s: Statement)
    returns (boot: Boot)
    requires IsPrime(Q) && self < total < U32 && hash(StatementBytes(s)) != ZERO
    requires |f| == 2 * ((total - 1) / 3) + 2 && f[|f| - 1] != ZERO
    ensures KeysFrom(f, total, self, boot) && !Combines(BootRegistry(total, hash, boot))
  {
    hide IsPrime, Eval, Mul, KeysOf, Combines, Q;
    boot := Booted(Eval(f, NodePoint(self)), Mul(ONE, Eval(f, ZERO)), KeysOf(f, total));
    LongerKeysCombineIff(f, total, self, hash, boot, s);
  }
}
