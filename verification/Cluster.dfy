/**
 A cluster of 3f + 1 replicas, at most f of them Byzantine. Honest replicas vote
 exactly as the network layer does, may crash at any moment and restart from their
 log; Byzantine ones sign whatever they like. Votes are partial signatures of one key, so
 enough of them give away everyone's; otherwise signatures cannot be forged.
 */
module Cluster {
  import opened Base
  import opened Protocol
  import opened Recovery
  import opened Invariants
  import opened Durability
  import opened LogMeaning
  import opened Compaction

  /**
   The Byzantine nodes, and how many partial signatures of a statement give away everyone's:
   the number of coefficients behind the shares.
   */
  datatype Adversary = Adversary(byzantine: set<nat>, threshold: nat)

  /** A statement someone has signed. */
  datatype Cast = Cast(signer: nat, statement: Statement)

  datatype System = System(nodes: map<nat, Node>, signed: set<Cast>)

  datatype Step =
    | Receive(at: nat, m: Message, fate: Fate)  // deliver a message to an honest replica
    | Crash(at: nat)                            // an honest replica dies and tries to restart
    | Sign(signer: nat, statement: Statement)   // the environment has someone sign a statement

  predicate Honest(reg: Registry, foe: Adversary, i: nat) {
    i < reg.nodes && i !in foe.byzantine
  }

  /** `handle_connection`: the vote a replica signs once `handle_message` has returned. */
  function Emitted(self: nat, m: Message, after: Node, reply: Outcome): set<Cast> {
    if reply.Rejected? then {}
    else match m.phase
      case PrePrepare => {Cast(self, Statement(Prepare, m.view, m.seqno, m.digest))}
      case Prepare =>
        if m.Key().At() in after.live.prepared then {Cast(self, Statement(Commit, m.view, m.seqno, m.digest))} else {}
      case _ => {}
  }

  /** Nodes whose signature of the statement is there for the asking: they are Byzantine, or have signed it. */
  predicate Signatories(reg: Registry, foe: Adversary, signed: set<Cast>, statement: Statement, who: set<nat>) {
    forall j :: j in who ==> j < reg.nodes && (j in foe.byzantine || Cast(j, statement) in signed)
  }

  /** The signature of node `i` can be had: `i` has signed, or enough others interpolate what it would sign. */
  ghost predicate Obtainable(reg: Registry, foe: Adversary, signed: set<Cast>, i: nat, statement: Statement) {
    || Cast(i, statement) in signed
    || exists who: set<nat> :: |who| >= foe.threshold && Signatories(reg, foe, signed, statement, who)
  }

  /** A valid signature of an honest node is used only once it can be had. */
  ghost predicate Unforged(reg: Registry, foe: Adversary, signed: set<Cast>, m: Message) {
    Honest(reg, foe, m.sender) && reg.sigOk(m.sender, m.Signed(), m.signature) ==>
      Obtainable(reg, foe, signed, m.sender, m.Signed())
  }

  /** Honest nodes sign Prepare and Commit only through `Emitted`; all else is the environment's choice. */
  predicate MaySign(reg: Registry, foe: Adversary, signer: nat, statement: Statement) {
    Honest(reg, foe, signer) ==> statement.phase != Prepare && statement.phase != Commit
  }

  /** One step of the cluster; a step that is not enabled changes nothing. */
  ghost function Next(reg: Registry, foe: Adversary, sys: System, step: Step): (next: System)
    requires reg.nodes > 0
    ensures next.nodes.Keys == sys.nodes.Keys
  {
    match step
    case Receive(i, m, fate) =>
      if i !in sys.nodes || !Unforged(reg, foe, sys.signed, m) then sys
      else
        var (after, reply) := Deliver(reg, sys.nodes[i], m, fate);
        System(sys.nodes[i := after], sys.signed + Emitted(i, m, after, reply))
    case Crash(i) =>
      if i !in sys.nodes then sys else sys.(nodes := sys.nodes[i := After(reg, sys.nodes[i], Reboot)])
    case Sign(i, statement) =>
      if MaySign(reg, foe, i, statement) then sys.(signed := sys.signed + {Cast(i, statement)}) else sys
  }

  ghost function Start(reg: Registry, foe: Adversary): System {
    System(map i: nat | 0 <= i < reg.nodes && i !in foe.byzantine :: FRESH, {})
  }

  ghost function Execute(reg: Registry, foe: Adversary, steps: seq<Step>): (sys: System)
    requires reg.nodes > 0
    ensures forall i :: i in sys.nodes <==> Honest(reg, foe, i)
  {
    if |steps| == 0 then Start(reg, foe)
    else Next(reg, foe, Execute(reg, foe, steps[..|steps| - 1]), steps[|steps| - 1])
  }

  // ---------------------------------------------------------------- the invariant

  ghost predicate RowSigned(reg: Registry, foe: Adversary, signed: set<Cast>, rec: Record) {
    rec.phase == Code(Prepare) && Honest(reg, foe, rec.sender) ==>
      Obtainable(reg, foe, signed, rec.sender, Statement(Prepare, rec.view, rec.seqno, rec.digest))
  }

  ghost predicate LogSigned(reg: Registry, foe: Adversary, signed: set<Cast>, log: Log) {
    forall rec :: rec in log ==> RowSigned(reg, foe, signed, rec)
  }

  ghost predicate TailSigned(reg: Registry, foe: Adversary, signed: set<Cast>, node: Node) {
    node.tail.Whole? ==> RowSigned(reg, foe, signed, node.tail.rec)
  }

  /** Whatever node `i` has signed a Prepare for, above its stable checkpoint, is a proposal in its log. */
  ghost predicate PreparesLogged(signed: set<Cast>, i: nat, node: Node) {
    forall k: Ballot :: (
      Cast(i, Statement(Prepare, k.view, k.seqno, k.digest)) in signed && k.seqno > node.live.stable ==>
        k in LoggedProposals(node.log))
  }

  ghost predicate NodeInv(reg: Registry, foe: Adversary, signed: set<Cast>, i: nat, node: Node) {
    && NodeOk(reg, node)
    && LogSigned(reg, foe, signed, node.log)
    && TailSigned(reg, foe, signed, node)
    && PreparesLogged(signed, i, node)
  }

  ghost predicate SystemInv(reg: Registry, foe: Adversary, sys: System) {
    && (forall i :: i in sys.nodes <==> Honest(reg, foe, i))
    && (forall i :: i in sys.nodes ==> NodeInv(reg, foe, sys.signed, i, sys.nodes[i]))
  }

  lemma MoreObtainable(reg: Registry, foe: Adversary, signed: set<Cast>, more: set<Cast>, i: nat, statement: Statement)
    requires Obtainable(reg, foe, signed, i, statement)
    ensures Obtainable(reg, foe, signed + more, i, statement)
  {
    if who: set<nat> :| |who| >= foe.threshold && Signatories(reg, foe, signed, statement, who) {
      assert Signatories(reg, foe, signed + more, statement, who);
    }
  }

  lemma MoreLogSigned(reg: Registry, foe: Adversary, signed: set<Cast>, more: set<Cast>, node: Node)
    requires LogSigned(reg, foe, signed, node.log) && TailSigned(reg, foe, signed, node)
    ensures LogSigned(reg, foe, signed + more, node.log) && TailSigned(reg, foe, signed + more, node)
  {
    forall rec | RowSigned(reg, foe, signed, rec) ensures RowSigned(reg, foe, signed + more, rec) {
      var statement := Statement(Prepare, rec.view, rec.seqno, rec.digest);
      if Obtainable(reg, foe, signed, rec.sender, statement) {
        MoreObtainable(reg, foe, signed, more, rec.sender, statement);
      }
    }
  }

  /** More signatures by others, or on other statements, change nothing for node `i`. */
  lemma MoreSigned(reg: Registry, foe: Adversary, signed: set<Cast>, more: set<Cast>, i: nat, node: Node)
    requires NodeInv(reg, foe, signed, i, node)
    requires forall c :: c in more ==> c.signer != i || c.statement.phase != Prepare
    ensures NodeInv(reg, foe, signed + more, i, node)
  {
    hide NodeOk, LogSigned, TailSigned;
    MoreLogSigned(reg, foe, signed, more, node);
  }

  lemma {:induction false} PrunedSubset(log: Log, floor: nat, rec: Record)
    requires rec in Prune(log, floor)
    ensures rec in log
  {
    var last := log[|log| - 1];
    if rec in Prune(log[..|log| - 1], floor) {
      PrunedSubset(log[..|log| - 1], floor, rec);
    } else {
      assert rec == last;
    }
  }

  lemma LogSignedPruned(reg: Registry, foe: Adversary, signed: set<Cast>, log: Log, floor: nat)
    requires LogSigned(reg, foe, signed, log)
    ensures LogSigned(reg, foe, signed, Prune(log, floor))
  {
    forall rec | rec in Prune(log, floor) ensures RowSigned(reg, foe, signed, rec) {
      PrunedSubset(log, floor, rec);
    }
  }

  /** The old obligations of a node, after its log has grown by one row and perhaps been pruned. */
  lemma PreparesStayLogged(signed: set<Cast>, i: nat, node: Node, rec: Record, next: Node)
    requires PreparesLogged(signed, i, node) && next.live.stable >= node.live.stable
    requires next.log == node.log || next.log == node.log + [rec]
          || next.log == Prune(node.log + [rec], next.live.stable)
    ensures PreparesLogged(signed, i, next)
  {
    LogStep(node.log, rec);
    PrunedProposals(node.log + [rec], next.live.stable);
  }

  lemma DeliverShape(reg: Registry, node: Node, m: Message, fate: Fate)
    requires reg.nodes > 0
    ensures var (next, o) := Deliver(reg, node, m, fate);
      && (next.log == node.log || next.log == node.log + [RecordOf(m)]
          || next.log == Prune(node.log + [RecordOf(m)], next.live.stable))
      && (next.tail == node.tail || next.tail == Torn || next.tail == Whole(RecordOf(m)))
      && ((next.log == node.log && next.tail == node.tail)
          || (m.sender < reg.nodes && reg.sigOk(m.sender, m.Signed(), m.signature)))
      && (o.Accepted? && m.phase == PrePrepare ==> next.log == node.log + [RecordOf(m)])
      && (o.Acknowledged? ==> m.phase == Checkpoint)
  {
    hide OnPrePrepare, OnPrepare, OnCommit, OnViewChange, OnCheckpoint, Prune;
  }

  lemma ReceiveInv(reg: Registry, foe: Adversary, signed: set<Cast>, i: nat, node: Node, m: Message, fate: Fate)
    requires reg.nodes > 0 && NodeInv(reg, foe, signed, i, node)
    requires Unforged(reg, foe, signed, m)
    ensures var (after, reply) := Deliver(reg, node, m, fate);
      NodeInv(reg, foe, signed + Emitted(i, m, after, reply), i, after)
  {
    hide NodeOk, Deliver;
    var (after, reply) := Deliver(reg, node, m, fate);
    DeliverOk(reg, node, m, fate);
    DeliverShape(reg, node, m, fate);
    var rec := RecordOf(m);
    PreparesStayLogged(signed, i, node, rec, after);
    LogSignedGrows(reg, foe, signed, node, m, after);
    LogStep(node.log, rec);
    MoreLogSigned(reg, foe, signed, Emitted(i, m, after, reply), after);
    assert PreparesLogged(signed + Emitted(i, m, after, reply), i, after);
  }

  lemma LogSignedGrows(reg: Registry, foe: Adversary, signed: set<Cast>, node: Node, m: Message, after: Node)
    requires LogSigned(reg, foe, signed, node.log) && TailSigned(reg, foe, signed, node)
    requires Unforged(reg, foe, signed, m)
    requires after.log == node.log || after.log == node.log + [RecordOf(m)]
      || after.log == Prune(node.log + [RecordOf(m)], after.live.stable)
    requires after.tail == node.tail || after.tail == Torn || after.tail == Whole(RecordOf(m))
    requires (after.log == node.log && after.tail == node.tail)
      || (m.sender < reg.nodes && reg.sigOk(m.sender, m.Signed(), m.signature))
    ensures LogSigned(reg, foe, signed, after.log) && TailSigned(reg, foe, signed, after)
  {
    if after.log != node.log || after.tail != node.tail {
      assert RowSigned(reg, foe, signed, RecordOf(m));
      assert LogSigned(reg, foe, signed, node.log + [RecordOf(m)]);
      LogSignedPruned(reg, foe, signed, node.log + [RecordOf(m)], after.live.stable);
    }
  }

  lemma CrashInv(reg: Registry, foe: Adversary, signed: set<Cast>, i: nat, node: Node)
    requires reg.nodes > 0 && NodeInv(reg, foe, signed, i, node)
    ensures NodeInv(reg, foe, signed, i, After(reg, node, Reboot))
  {
    hide NodeOk, Replay;
    var after := After(reg, node, Reboot);
    AfterOk(reg, node, Reboot);
    if Restart(reg, node).Some? && node.tail.Whole? {
      PreparesStayLogged(signed, i, node, node.tail.rec, after);
    }
  }

  lemma NextInv(reg: Registry, foe: Adversary, sys: System, step: Step)
    requires reg.nodes > 0 && SystemInv(reg, foe, sys)
    ensures SystemInv(reg, foe, Next(reg, foe, sys, step))
  {
    hide NodeInv, Deliver, After;
    var next := Next(reg, foe, sys, step);
    forall j | j in next.nodes ensures NodeInv(reg, foe, next.signed, j, next.nodes[j]) {
      match step {
        case Receive(i, m, fate) =>
          if i in sys.nodes && Unforged(reg, foe, sys.signed, m) {
            if i == j {
              ReceiveInv(reg, foe, sys.signed, i, sys.nodes[i], m, fate);
            } else {
              var (after, reply) := Deliver(reg, sys.nodes[i], m, fate);
              MoreSigned(reg, foe, sys.signed, Emitted(i, m, after, reply), j, sys.nodes[j]);
            }
          }
        case Crash(i) =>
          if i == j {
            CrashInv(reg, foe, sys.signed, i, sys.nodes[i]);
          }
        case Sign(i, statement) =>
          MoreSigned(reg, foe, sys.signed,
            if MaySign(reg, foe, i, statement) then {Cast(i, statement)} else {}, j, sys.nodes[j]);
          assert sys.signed + {} == sys.signed;
      }
    }
  }

  lemma {:induction false} ExecuteInv(reg: Registry, foe: Adversary, steps: seq<Step>)
    requires reg.nodes > 0
    ensures SystemInv(reg, foe, Execute(reg, foe, steps))
  {
    hide Next, NodeOk;
    if |steps| == 0 {
      FreshOk(reg);
    } else {
      hide SystemInv;
      ExecuteInv(reg, foe, steps[..|steps| - 1]);
      NextInv(reg, foe, Execute(reg, foe, steps[..|steps| - 1]), steps[|steps| - 1]);
    }
  }

  // ---------------------------------------------------------------------- agreement

  /** Two quorums of 3f + 1 nodes share at least f + 1 of them. */
  lemma QuorumIntersection(reg: Registry, a: set<nat>, b: set<nat>)
    requires reg.Topology()
    requires forall i :: i in a + b ==> i < reg.nodes
    requires |a| >= reg.Quorum() && |b| >= reg.Quorum()
    ensures |a * b| >= reg.faults + 1
  {
    BoundedSetSize(a + b, reg.nodes);
    assert |a + b| == |a| + |b| - |a * b|;
  }

  /** 2f + 1 is the size that works: the honest nodes alone make up a quorum, and two sets of 2f may share fewer. */
  lemma QuorumFits(reg: Registry, byzantine: set<nat>) returns (a: set<nat>, b: set<nat>)
    requires reg.Topology() && |byzantine| <= reg.faults
    ensures |Below(reg.nodes) - byzantine| >= reg.Quorum()
    ensures reg.faults > 0 ==>
      && |a| == |b| == 2 * reg.faults == reg.Quorum() - 1 && |a * b| == reg.faults - 1
      && forall i :: i in a + b ==> i < reg.nodes
  {
    var f := reg.faults;
    SizeWithout(Below(reg.nodes), byzantine);
    a, b := {}, {};
    if f > 0 {
      a, b := OverlapOfTwo(f);
    }
  }

  lemma SizeWithout(all: set<nat>, some: set<nat>)
    ensures |all - some| >= |all| - |some|
  {
    SubsetSize(all * some, some);
    assert all - some == all - all * some;
    assert |all - all * some| == |all| - |all * some|;
  }

  /** Of 3f + 1 ids, the 2f lowest and the 2f highest share f - 1. */
  lemma OverlapOfTwo(f: nat) returns (a: set<nat>, b: set<nat>)
    requires f > 0
    ensures |a| == |b| == 2 * f && |a * b| == f - 1 && forall i :: i in a + b ==> i < 3 * f + 1
  {
    var low := Below(f + 1);
    a, b := Below(2 * f), Below(3 * f + 1) - low;
    assert low <= a && low <= Below(3 * f + 1);
    assert a * b == a - low;
    hide Below;
    assert |a - low| == |a| - |low|;
  }

  /** So they share an honest node when at most f are Byzantine. */
  lemma QuorumsShareHonest(reg: Registry, foe: Adversary, a: set<nat>, b: set<nat>) returns (h: nat)
    requires reg.Topology() && |foe.byzantine| <= reg.faults
    requires forall i :: i in a + b ==> i < reg.nodes
    requires |a| >= reg.Quorum() && |b| >= reg.Quorum()
    ensures h in a && h in b && Honest(reg, foe, h)
  {
    QuorumIntersection(reg, a, b);
    if a * b <= foe.byzantine {
      SubsetSize(a * b, foe.byzantine);
      assert false;
    }
    h :| h in a * b && h !in foe.byzantine;
  }

  lemma {:induction false} LoggedVoteIsRow(log: Log, code: nat, k: Ballot, sender: nat) returns (rec: Record)
    requires sender in LoggedVotes(log, code, k)
    ensures rec in log && rec.phase == code && rec.Key() == k && rec.sender == sender
  {
    var last := log[|log| - 1];
    if last.phase == code && last.Key() == k && last.sender == sender {
      rec := last;
    } else {
      rec := LoggedVoteIsRow(log[..|log| - 1], code, k, sender);
    }
  }

  /** Behind a prepared certificate stands a quorum of nodes that are Byzantine or have signed Prepare. */
  lemma PreparedMeansSigned(reg: Registry, foe: Adversary, sys: System, a: nat, k: Ballot) returns (voters: set<nat>)
    requires foe.threshold >= reg.Quorum() && SystemInv(reg, foe, sys) && a in sys.nodes
    requires PreparedFor(sys.nodes[a].live.prepared, k) && k.seqno > sys.nodes[a].live.stable
    ensures |voters| >= reg.Quorum()
    ensures Signatories(reg, foe, sys.signed, Statement(Prepare, k.view, k.seqno, k.digest), voters)
  {
    var node, statement := sys.nodes[a], Statement(Prepare, k.view, k.seqno, k.digest);
    var votes := CertificateVotes(reg, foe, sys, a, k);
    hide SystemInv;
    if who: set<nat> :| |who| >= foe.threshold && Signatories(reg, foe, sys.signed, statement, who) {
      voters := who;
    } else {
      voters := votes.Keys;
      MapSize(votes);
    }
  }

  /** The votes of a certificate, each of them signed or obtained. */
  lemma CertificateVotes(reg: Registry, foe: Adversary, sys: System, a: nat, k: Ballot) returns (votes: Votes)
    requires SystemInv(reg, foe, sys) && a in sys.nodes
    requires PreparedFor(sys.nodes[a].live.prepared, k) && k.seqno > sys.nodes[a].live.stable
    ensures Full(reg, votes) && forall i :: i in votes ==> i < reg.nodes
    ensures forall i :: i in votes && Honest(reg, foe, i) ==>
      Obtainable(reg, foe, sys.signed, i, Statement(Prepare, k.view, k.seqno, k.digest))
  {
    var node := sys.nodes[a];
    assert NodeInv(reg, foe, sys.signed, a, node);
    assert PrepareSide(reg, node.live.proposals, node.live.prepareVotes, node.live.prepared);
    assert CertificateBacked(reg, Prepare, node.live.prepareVotes, k.At(), node.live.prepared[k.At()]);
    assert TableReads(node.live.prepareVotes, node.log, Code(Prepare), node.live.stable)
      && LogSigned(reg, foe, sys.signed, node.log);
    hide SystemInv, NodeInv, NodeOk, Inv, Logged, PrepareSide, Obtainable;
    assert Ballot(k.view, k.seqno, k.digest) == k;
    votes := node.live.prepareVotes[k];
    assert VotesFor(node.live.prepareVotes, k) == votes == LoggedVotes(node.log, Code(Prepare), k);
    assert BallotOk(reg, Prepare, k, votes);
    forall i | i in votes && Honest(reg, foe, i)
      ensures Obtainable(reg, foe, sys.signed, i, Statement(Prepare, k.view, k.seqno, k.digest))
    {
      var rec := LoggedVoteIsRow(node.log, Code(Prepare), k, i);
    }
  }

  /** An honest node never signs Prepare for two values of one slot above its stable checkpoint. */
  lemma HonestPreparesOnce(reg: Registry, foe: Adversary, sys: System, h: nat, k1: Ballot, k2: Ballot)
    requires SystemInv(reg, foe, sys) && Honest(reg, foe, h)
    requires Cast(h, Statement(Prepare, k1.view, k1.seqno, k1.digest)) in sys.signed
    requires Cast(h, Statement(Prepare, k2.view, k2.seqno, k2.digest)) in sys.signed
    requires k1.At() == k2.At() && k1.seqno > sys.nodes[h].live.stable
    ensures k1 == k2
  {
    var node := sys.nodes[h];
    assert NodeInv(reg, foe, sys.signed, h, node);
    assert k1 in LoggedProposals(node.log) && k2 in LoggedProposals(node.log);
    assert ProposalsRead(node.live.proposals, node.log, node.live.stable) && UniqueProposals(node.live.proposals);
  }

  ghost predicate AboveStable(sys: System, seqno: nat) {
    forall i :: i in sys.nodes ==> seqno > sys.nodes[i].live.stable
  }

  /** A prepared certificate, a commit certificate or a recorded decision for the ballot. */
  ghost predicate Certified(s: Core, k: Ballot) {
    || PreparedFor(s.prepared, k)
    || PreparedFor(s.commits, k)
    || Decided(s, k)
  }

  /** Two replicas certify different values for one slot. */
  ghost predicate Differ(sys: System, a: nat, b: nat, k1: Ballot, k2: Ballot) {
    && a in sys.nodes && b in sys.nodes && k1.At() == k2.At() && k1 != k2
    && Certified(sys.nodes[a].live, k1) && Certified(sys.nodes[b].live, k2)
  }

  lemma CertifiedIsPrepared(reg: Registry, s: Core, k: Ballot)
    requires Inv(reg, s) && Certified(s, k)
    ensures PreparedFor(s.prepared, k)
  {
    hide Full, FullReports, UniqueProposals, PrepareSide, ViewSide, ReportsBacked, ProposalsBounded, CheckpointSide;
    if k.At() in s.commits {
      assert CertificateBacked(reg, Commit, s.commitVotes, k.At(), s.commits[k.At()]);
    }
  }

  lemma PreparedAgree(reg: Registry, foe: Adversary, sys: System, a: nat, b: nat, k1: Ballot, k2: Ballot)
    requires reg.Topology() && |foe.byzantine| <= reg.faults && foe.threshold >= reg.Quorum()
    requires SystemInv(reg, foe, sys)
    requires a in sys.nodes && b in sys.nodes
    requires PreparedFor(sys.nodes[a].live.prepared, k1) && PreparedFor(sys.nodes[b].live.prepared, k2)
    requires k1.At() == k2.At() && AboveStable(sys, k1.seqno)
    ensures k1 == k2
  {
    hide NodeInv;
    var va := PreparedMeansSigned(reg, foe, sys, a, k1);
    var vb := PreparedMeansSigned(reg, foe, sys, b, k2);
    var h := QuorumsShareHonest(reg, foe, va, vb);
    HonestPreparesOnce(reg, foe, sys, h, k1, k2);
  }

  /**
   Agreement. If it takes the signatures of 2f + 1 nodes to derive another's, then in every
   run, with crashes and restarts, no two honest replicas certify different values for one
   view and sequence above all honest stable checkpoints.
   */
  lemma Agreement(reg: Registry, foe: Adversary, steps: seq<Step>, a: nat, b: nat, k1: Ballot, k2: Ballot)
    requires reg.Topology() && |foe.byzantine| <= reg.faults && foe.threshold >= reg.Quorum()
    requires Honest(reg, foe, a) && Honest(reg, foe, b)
    requires AboveStable(Execute(reg, foe, steps), k1.seqno)
    requires Certified(Execute(reg, foe, steps).nodes[a].live, k1)
    requires Certified(Execute(reg, foe, steps).nodes[b].live, k2)
    requires k1.At() == k2.At()
    ensures k1 == k2
  {
    var sys := Execute(reg, foe, steps);
    ExecuteInv(reg, foe, steps);
    hide Execute;
    assert NodeInv(reg, foe, sys.signed, a, sys.nodes[a]) && NodeInv(reg, foe, sys.signed, b, sys.nodes[b]);
    hide Inv, Logged, Certified, LogSigned, TailSigned, PreparesLogged, TailLegal;
    CertifiedIsPrepared(reg, sys.nodes[a].live, k1);
    CertifiedIsPrepared(reg, sys.nodes[b].live, k2);
    PreparedAgree(reg, foe, sys, a, b, k1, k2);
  }

  /**
   A node that answers a Prepare with a Commit vote holds a prepared certificate for that
   very value, although the network layer only looks whether the slot has one.
   */
  lemma CommitVoteIsBacked(reg: Registry, self: nat, node: Node, m: Message, fate: Fate)
    requires reg.nodes > 0 && NodeOk(reg, node) && m.phase == Prepare
    requires var (after, reply) := Deliver(reg, node, m, fate);
      Cast(self, Statement(Commit, m.view, m.seqno, m.digest)) in Emitted(self, m, after, reply)
    ensures PreparedFor(Deliver(reg, node, m, fate).0.live.prepared, m.Key())
  {
    var (after, reply) := Deliver(reg, node, m, fate);
    DeliverOk(reg, node, m, fate);
    PrepareKeepsProposal(reg, node, m, fate);
    assert Inv(reg, after.live);
    hide Full, FullReports, NodeOk, Deliver, VotesOk, CertificatesExact, CommitSide, ViewSide, ReportsBacked;
    hide CheckpointSide;
    CertificateAtProposal(reg, Prepare, after.live.proposals, after.live.prepareVotes, after.live.prepared, m.Key());
  }

  lemma PrepareKeepsProposal(reg: Registry, node: Node, m: Message, fate: Fate)
    requires reg.nodes > 0 && m.phase == Prepare && !Deliver(reg, node, m, fate).1.Rejected?
    ensures m.Key() in Deliver(reg, node, m, fate).0.live.proposals
  {
    hide OnPrePrepare, OnCommit, OnViewChange, OnCheckpoint, Full;
  }
}
