/**
 Rounds of votes: what a replica becomes when one node after another sends it the same
 vote, every write succeeding. From these the examples of `Limits` are put together.
 */
module Rounds {
  import opened Base
  import opened Protocol
  import opened Recovery
  import opened Invariants
  import opened Completeness
  import opened Durability
  import opened Compaction
  import opened Selection

  type Signer = (nat, Statement) -> Sig

  /** `sign` makes valid signatures of every node. */
  ghost predicate Signs(reg: Registry, sign: Signer) {
    forall i: nat, s: Statement :: i < reg.nodes ==> reg.sigOk(i, s, sign(i, s))
  }

  function Sent(phase: Phase, k: Ballot, i: nat, sign: Signer): Message {
    Message(phase, k.view, k.seqno, k.digest, i, sign(i, Statement(phase, k.view, k.seqno, k.digest)))
  }

  /** The messages of nodes `from` to `to`, exclusive, as they arrive. */
  function Round(phase: Phase, k: Ballot, sign: Signer, from: nat, to: nat): seq<Event>
    decreases to
  {
    if to <= from then [] else Round(phase, k, sign, from, to - 1) + [Arrives(Sent(phase, k, to - 1, sign), Durable)]
  }

  /** Their rows. */
  function RoundRows(phase: Phase, k: Ballot, sign: Signer, from: nat, to: nat): Log
    decreases to
  {
    if to <= from then [] else RoundRows(phase, k, sign, from, to - 1) + [RecordOf(Sent(phase, k, to - 1, sign))]
  }

  lemma RoundStep(reg: Registry, node: Node, phase: Phase, k: Ballot, sign: Signer, from: nat, to: nat)
    requires reg.nodes > 0 && from < to
    ensures Continue(reg, node, Round(phase, k, sign, from, to)) ==
      After(reg, Continue(reg, node, Round(phase, k, sign, from, to - 1)),
        Arrives(Sent(phase, k, to - 1, sign), Durable))
  {
    hide After, Continue;
    ContinueStep(reg, node, Round(phase, k, sign, from, to - 1), Arrives(Sent(phase, k, to - 1, sign), Durable));
  }

  /** An accepted message that stabilises nothing adds its row. */
  lemma Accepts(reg: Registry, node: Node, m: Message)
    requires reg.nodes > 0 && NodeOk(reg, node) && !node.failed
    requires Handle(reg, node.live, m).Accepted? && Handle(reg, node.live, m).response != CheckpointStabilized
    ensures After(reg, node, Arrives(m, Durable)) ==
      node.(live := Handle(reg, node.live, m).state, log := node.log + [RecordOf(m)])
    ensures NodeOk(reg, After(reg, node, Arrives(m, Durable)))
  {
    hide Handle, NodeOk;
    AfterOk(reg, node, Arrives(m, Durable));
  }

  // --------------------------------------------------------------------- proposals

  lemma Proposes(reg: Registry, sign: Signer, node: Node, k: Ballot)
    requires reg.nodes > 0 && Signs(reg, sign) && NodeOk(reg, node) && !node.failed
    requires k.view == node.live.view && forall o :: o in node.live.proposals ==> o.At() != k.At()
    ensures var m := Sent(PrePrepare, k, reg.Leader(k.view), sign);
      var after := After(reg, node, Arrives(m, Durable));
      && Deliver(reg, node, m, Durable) == (after, Accepted(after.live, InboundPrePrepare))
      && NodeOk(reg, after)
      && after == node.(live := node.live.(proposals := node.live.proposals + {k},
                                           highestSeq := Max(node.live.highestSeq, k.seqno)),
                        log := node.log + [RecordOf(m)])
  {
    var m := Sent(PrePrepare, k, reg.Leader(k.view), sign);
    assert m.Key() == k;
    hide NodeOk, Continue;
    Accepts(reg, node, m);
  }

  // ------------------------------------------------------------------- Prepare votes

  lemma PrepareAccepted(reg: Registry, s: Core, m: Message)
    requires reg.nodes > 0 && Inv(reg, s) && Combines(reg) && m.phase == Prepare
    requires m.sender < reg.nodes && reg.sigOk(m.sender, m.Signed(), m.signature)
    requires m.view == s.view && m.Key() in s.proposals
    ensures Handle(reg, s, m).Accepted? && Handle(reg, s, m).response != CheckpointStabilized
    ensures Handle(reg, s, m).state == VotePrepareAt(reg, s, m.Key(), m.sender, m.signature)
    ensures forall o :: PreparedFor(s.prepared, o) ==> PreparedFor(Handle(reg, s, m).state.prepared, o)
  {
    CertificateFailureUnreachable(reg, s, m);
    PreparedStays(reg, s, m);
    hide Inv, Combines, Full, AddVote, Certify, PreparedFor;
  }

  lemma PreparedStays(reg: Registry, s: Core, m: Message)
    requires reg.nodes > 0 && Inv(reg, s) && Combines(reg) && m.phase == Prepare
    requires m.sender < reg.nodes && reg.sigOk(m.sender, m.Signed(), m.signature) && m.Key() in s.proposals
    ensures forall o :: PreparedFor(s.prepared, o) ==>
      PreparedFor(VotePrepareAt(reg, s, m.Key(), m.sender, m.signature).prepared, o)
  {
    assert PrepareSide(reg, s.proposals, s.prepareVotes, s.prepared) && UniqueProposals(s.proposals);
    hide Full, Inv, Combines;
    QuorumCombines(reg, Prepare, s.prepareVotes, m.Key(), m.sender, m.signature);
    CertificatesAfterVote(reg, Prepare, s.proposals, s.prepareVotes, s.prepared, m.Key(), m.sender, m.signature);
  }

  /** A node after a round of Prepare votes for `k`. */
  ghost predicate AfterPrepares(node: Node, k: Ballot, sign: Signer, n: nat, after: Node) {
    && after == node.(live := node.live.(prepareVotes := after.live.prepareVotes, prepared := after.live.prepared),
                      log := node.log + RoundRows(Prepare, k, sign, 0, n))
    && (forall i :: 0 <= i < n ==> i in VotesFor(after.live.prepareVotes, k))
    && (forall o :: PreparedFor(node.live.prepared, o) ==> PreparedFor(after.live.prepared, o))
  }

  lemma PreparesStep(reg: Registry, node: Node, k: Ballot, sign: Signer, n: nat, before: Node, after: Node)
    requires AfterPrepares(node, k, sign, n, before)
    requires var m := Sent(Prepare, k, n, sign);
      after == before.(live := VotePrepareAt(reg, before.live, k, n, m.signature), log := before.log + [RecordOf(m)])
    requires forall o :: PreparedFor(before.live.prepared, o) ==> PreparedFor(after.live.prepared, o)
    ensures AfterPrepares(node, k, sign, n + 1, after)
  {
    var m := Sent(Prepare, k, n, sign);
    assert node.log + RoundRows(Prepare, k, sign, 0, n) + [RecordOf(m)] ==
      node.log + RoundRows(Prepare, k, sign, 0, n + 1);
    hide Certify, RoundRows, PreparedFor;
  }

  lemma {:induction false} PrepareVotes(reg: Registry, sign: Signer, node: Node, k: Ballot, n: nat)
    requires reg.nodes > 0 && Signs(reg, sign) && Combines(reg) && NodeOk(reg, node) && !node.failed
    requires n <= reg.nodes && k.view == node.live.view && k in node.live.proposals
    ensures var after := Continue(reg, node, Round(Prepare, k, sign, 0, n));
      NodeOk(reg, after) && AfterPrepares(node, k, sign, n, after)
  {
    hide NodeOk, Combines, After, Handle, PreparedFor;
    if n == 0 {
      assert node.log + [] == node.log;
    } else {
      PrepareVotes(reg, sign, node, k, n - 1);
      RoundStep(reg, node, Prepare, k, sign, 0, n);
      var before := Continue(reg, node, Round(Prepare, k, sign, 0, n - 1));
      var m := Sent(Prepare, k, n - 1, sign);
      assert m.Key() == k && reg.sigOk(n - 1, m.Signed(), m.signature);
      assert before.live.proposals == node.live.proposals && before.live.view == node.live.view && !before.failed;
      LiveInv(reg, before);
      hide Signs, Inv, AfterPrepares, Continue, Round, VotePrepareAt;
      PrepareAccepted(reg, before.live, m);
      Accepts(reg, before, m);
      PreparesStep(reg, node, k, sign, n - 1, before, After(reg, before, Arrives(m, Durable)));
    }
  }

  lemma LiveInv(reg: Registry, node: Node)
    requires NodeOk(reg, node)
    ensures Inv(reg, node.live)
  {
  }

  lemma BelowSize(n: nat, ids: set<nat>)
    requires forall i: nat :: i < n ==> i in ids
    ensures |ids| >= n
  {
    SubsetSize(Below(n), ids);
  }

  /** A full round of Prepare votes prepares the ballot. */
  lemma PrepareQuorum(reg: Registry, sign: Signer, node: Node, k: Ballot)
    requires reg.Topology() && Signs(reg, sign) && Combines(reg) && NodeOk(reg, node) && !node.failed
    requires k.view == node.live.view && k in node.live.proposals
    ensures var after := Continue(reg, node, Round(Prepare, k, sign, 0, reg.Quorum()));
      NodeOk(reg, after) && AfterPrepares(node, k, sign, reg.Quorum(), after) && PreparedFor(after.live.prepared, k)
  {
    var n := reg.Quorum();
    hide NodeOk, Combines, Continue, Round, RoundRows;
    PrepareVotes(reg, sign, node, k, n);
    var after := Continue(reg, node, Round(Prepare, k, sign, 0, n));
    var votes := VotesFor(after.live.prepareVotes, k);
    BelowSize(n, votes.Keys);
    MapSize(votes);
    EmptyNotFull(reg);
    LiveInv(reg, after);
    assert CertificatesExact(reg, Prepare, after.live.prepareVotes, after.live.prepared);
  }

  // -------------------------------------------------------------------- Commit votes

  lemma CommitAccepted(reg: Registry, s: Core, m: Message)
    requires reg.nodes > 0 && Inv(reg, s) && Combines(reg) && m.phase == Commit
    requires m.sender < reg.nodes && reg.sigOk(m.sender, m.Signed(), m.signature)
    requires m.view == s.view && m.Key() in s.proposals && PreparedFor(s.prepared, m.Key())
    ensures Handle(reg, s, m).Accepted? && Handle(reg, s, m).response != CheckpointStabilized
    ensures Handle(reg, s, m).state == VoteCommitAt(reg, s, m.Key(), m.sender, m.signature)
  {
    CertificateFailureUnreachable(reg, s, m);
    CommitEquivocationUnreachable(reg, s, m);
    assert CertificatesExact(reg, Prepare, s.prepareVotes, s.prepared);
    HasPreparedIsLookup(reg, s, m.Key());
    hide Inv, Combines, Full, AddVote, Certify, Decide, HasPrepared, CertificatesExact;
  }

  /** A node after a round of Commit votes for `k`. */
  ghost predicate AfterCommits(node: Node, k: Ballot, sign: Signer, n: nat, after: Node) {
    && after == node.(live := node.live.(commitVotes := after.live.commitVotes, commits := after.live.commits,
                                         committed := after.live.committed),
                      log := node.log + RoundRows(Commit, k, sign, 0, n))
    && forall i :: 0 <= i < n ==> i in VotesFor(after.live.commitVotes, k)
  }

  lemma CommitsStep(reg: Registry, node: Node, k: Ballot, sign: Signer, n: nat, before: Node, after: Node)
    requires AfterCommits(node, k, sign, n, before)
    requires var m := Sent(Commit, k, n, sign);
      after == before.(live := VoteCommitAt(reg, before.live, k, n, m.signature), log := before.log + [RecordOf(m)])
    ensures AfterCommits(node, k, sign, n + 1, after)
  {
    var m := Sent(Commit, k, n, sign);
    assert node.log + RoundRows(Commit, k, sign, 0, n) + [RecordOf(m)] ==
      node.log + RoundRows(Commit, k, sign, 0, n + 1);
    hide Certify, Decide, RoundRows;
  }

  lemma CommitArrives(reg: Registry, sign: Signer, node: Node, k: Ballot, n: nat, before: Node)
    requires reg.nodes > 0 && Signs(reg, sign) && Combines(reg) && NodeOk(reg, before) && !node.failed
    requires n < reg.nodes && k.view == node.live.view && k in node.live.proposals && PreparedFor(node.live.prepared, k)
    requires AfterCommits(node, k, sign, n, before)
    ensures var after := After(reg, before, Arrives(Sent(Commit, k, n, sign), Durable));
      NodeOk(reg, after) && AfterCommits(node, k, sign, n + 1, after)
  {
    var m := Sent(Commit, k, n, sign);
    assert m.Key() == k && reg.sigOk(n, m.Signed(), m.signature);
    LiveInv(reg, before);
    hide NodeOk, Inv, Signs, Combines, After, Handle, PreparedFor, VoteCommitAt, RoundRows;
    CommitAccepted(reg, before.live, m);
    Accepts(reg, before, m);
    hide AfterCommits;
    CommitsStep(reg, node, k, sign, n, before, After(reg, before, Arrives(m, Durable)));
  }

  lemma {:induction false} CommitVotes(reg: Registry, sign: Signer, node: Node, k: Ballot, n: nat)
    requires reg.nodes > 0 && Signs(reg, sign) && Combines(reg) && NodeOk(reg, node) && !node.failed
    requires n <= reg.nodes && k.view == node.live.view && k in node.live.proposals
      && PreparedFor(node.live.prepared, k)
    ensures var after := Continue(reg, node, Round(Commit, k, sign, 0, n));
      NodeOk(reg, after) && AfterCommits(node, k, sign, n, after)
  {
    hide NodeOk, Signs, Combines, After, PreparedFor;
    if n == 0 {
      assert node.log + [] == node.log;
    } else {
      hide AfterCommits, Continue, Round;
      CommitVotes(reg, sign, node, k, n - 1);
      RoundStep(reg, node, Commit, k, sign, 0, n);
      CommitArrives(reg, sign, node, k, n - 1, Continue(reg, node, Round(Commit, k, sign, 0, n - 1)));
    }
  }

  /** A full round of Commit votes decides a prepared ballot. */
  lemma CommitQuorum(reg: Registry, sign: Signer, node: Node, k: Ballot)
    requires reg.Topology() && Signs(reg, sign) && Combines(reg) && NodeOk(reg, node) && !node.failed
    requires k.view == node.live.view && k in node.live.proposals && PreparedFor(node.live.prepared, k)
    ensures var after := Continue(reg, node, Round(Commit, k, sign, 0, reg.Quorum()));
      NodeOk(reg, after) && AfterCommits(node, k, sign, reg.Quorum(), after) && Decided(after.live, k)
  {
    var n := reg.Quorum();
    hide NodeOk, Signs, Combines, Continue, Round, RoundRows, PreparedFor;
    CommitVotes(reg, sign, node, k, n);
    var after := Continue(reg, node, Round(Commit, k, sign, 0, n));
    var votes := VotesFor(after.live.commitVotes, k);
    BelowSize(n, votes.Keys);
    MapSize(votes);
    EmptyNotFull(reg);
    LiveInv(reg, after);
    DecidedByVotes(reg, after.live, k);
  }

  lemma DecidedByVotes(reg: Registry, s: Core, k: Ballot)
    requires Inv(reg, s) && k in s.commitVotes && Full(reg, s.commitVotes[k])
    ensures Decided(s, k)
  {
    assert CommitSide(reg, s.proposals, s.prepared, s.commitVotes, s.commits, s.committed);
    assert CertificatesExact(reg, Commit, s.commitVotes, s.commits);
    hide Full, Inv;
  }

  // --------------------------------------------------------------- checkpoint votes

  lemma CheckpointCounted(reg: Registry, s: Core, m: Message)
    requires reg.nodes > 0 && m.phase == Checkpoint && m.seqno > s.stable && m.view == s.view
    requires m.sender < reg.nodes && reg.sigOk(m.sender, m.Signed(), m.signature)
    ensures var votes := VotesFor(s.checkpointVotes, m.Key())[m.sender := m.signature];
      var o := Handle(reg, s, m);
      && o.Accepted?
      && if Full(reg, votes)
         then o.response == CheckpointStabilized
           && o.state == Collect(s.(checkpointVotes := s.checkpointVotes[m.Key() := votes], stable := m.seqno), m.seqno)
         else o.response == VoteCheckpoint && o.state == s.(checkpointVotes := s.checkpointVotes[m.Key() := votes])
  {
    hide Full, Collect;
  }

  /** A node after `n` votes for checkpoint `k`, one short of a quorum at most. */
  ghost predicate AfterCheckpointVotes(node: Node, k: Ballot, sign: Signer, n: nat, after: Node) {
    && after == node.(live := node.live.(checkpointVotes := after.live.checkpointVotes),
                      log := node.log + RoundRows(Checkpoint, k, sign, 0, n))
    && VotesFor(after.live.checkpointVotes, k).Keys == Below(n)
  }

  lemma CheckpointStep(node: Node, k: Ballot, sign: Signer, n: nat, before: Node, after: Node)
    requires AfterCheckpointVotes(node, k, sign, n, before)
    requires var m := Sent(Checkpoint, k, n, sign);
      var votes := VotesFor(before.live.checkpointVotes, k)[n := m.signature];
      after == before.(live := before.live.(checkpointVotes := before.live.checkpointVotes[k := votes]),
                       log := before.log + [RecordOf(m)])
    ensures AfterCheckpointVotes(node, k, sign, n + 1, after)
  {
    var m := Sent(Checkpoint, k, n, sign);
    assert VotesFor(before.live.checkpointVotes, k)[n := m.signature].Keys == Below(n + 1);
    hide Below;
    assert node.log + RoundRows(Checkpoint, k, sign, 0, n) + [RecordOf(m)] ==
      node.log + RoundRows(Checkpoint, k, sign, 0, n + 1);
    hide RoundRows;
  }

  lemma {:induction false} CheckpointVotes(reg: Registry, sign: Signer, node: Node, k: Ballot, n: nat)
    requires reg.Topology() && Signs(reg, sign) && NodeOk(reg, node) && !node.failed
    requires n < reg.Quorum() && k.view == node.live.view && k.seqno > node.live.stable
    requires VotesFor(node.live.checkpointVotes, k) == map[]
    ensures var after := Continue(reg, node, Round(Checkpoint, k, sign, 0, n));
      NodeOk(reg, after) && AfterCheckpointVotes(node, k, sign, n, after)
  {
    hide NodeOk, After, Handle;
    if n == 0 {
      assert node.log + [] == node.log;
    } else {
      CheckpointVotes(reg, sign, node, k, n - 1);
      RoundStep(reg, node, Checkpoint, k, sign, 0, n);
      var before := Continue(reg, node, Round(Checkpoint, k, sign, 0, n - 1));
      var m := Sent(Checkpoint, k, n - 1, sign);
      assert m.Key() == k && reg.sigOk(n - 1, m.Signed(), m.signature);
      var votes := VotesFor(before.live.checkpointVotes, k)[n - 1 := m.signature];
      assert votes.Keys == Below(n);
      MapSize(votes);
      assert before.live.stable == node.live.stable && before.live.view == node.live.view && !before.failed;
      CheckpointStep(node, k, sign, n - 1, before,
        before.(live := before.live.(checkpointVotes := before.live.checkpointVotes[k := votes]),
          log := before.log + [RecordOf(m)]));
      hide Signs, AfterCheckpointVotes, Continue, Round, Below, VotesFor;
      CheckpointCounted(reg, before.live, m);
      Accepts(reg, before, m);
    }
  }

  /** The vote that completes the quorum. */
  lemma CheckpointQuorumVote(reg: Registry, sign: Signer, node: Node, k: Ballot)
    requires reg.Topology() && Signs(reg, sign) && NodeOk(reg, node) && !node.failed
    requires k.view == node.live.view && k.seqno > node.live.stable
    requires VotesFor(node.live.checkpointVotes, k) == map[]
    ensures var before := Continue(reg, node, Round(Checkpoint, k, sign, 0, 2 * reg.faults));
      var m := Sent(Checkpoint, k, 2 * reg.faults, sign);
      var o := Handle(reg, before.live, m);
      && NodeOk(reg, before) && !before.failed && before.tail == node.tail
      && before.log == node.log + RoundRows(Checkpoint, k, sign, 0, 2 * reg.faults)
      && o.Accepted? && o.response == CheckpointStabilized
      && o.state.view == node.live.view && o.state.stable == k.seqno
      && o.state.proposals == ProposalsAbove(node.live.proposals, k.seqno)
  {
    var n := 2 * reg.faults;
    CheckpointVotes(reg, sign, node, k, n);
    hide NodeOk, Handle, Continue, Round, RoundRows;
    var before := Continue(reg, node, Round(Checkpoint, k, sign, 0, n));
    var m := Sent(Checkpoint, k, n, sign);
    assert m.Key() == k;
    var votes := VotesFor(before.live.checkpointVotes, k)[n := m.signature];
    assert votes.Keys == Below(n + 1);
    MapSize(votes);
    CheckpointCounted(reg, before.live, m);
  }

  // ------------------------------------------------------------- view-change votes

  lemma ReportPending(reg: Registry, s: Core, m: Message)
    requires reg.nodes > 0 && m.phase == ViewChange && m.view > s.view
    requires m.sender < reg.nodes && reg.sigOk(m.sender, m.Signed(), m.signature)
    requires m.seqno > 0 ==> HasPreparedValue(reg, s.prepared, m.seqno, m.digest)
    requires !FullReports(reg, ReportsWith(s, m))
    ensures Handle(reg, s, m) ==
      Accepted(s.(viewChangeVotes := s.viewChangeVotes[m.view := ReportsWith(s, m)]), VoteViewChange)
  {
    hide FullReports, HasPreparedValue, HighestSlot;
    var table := AddReport(s.viewChangeVotes, m.view, m.sender, Report(m.seqno, m.digest, m.signature));
    assert table == s.viewChangeVotes[m.view := ReportsWith(s, m)];
  }

  /** A quorum whose highest report is unambiguous and backed enters the view. */
  lemma ReportCompletes(reg: Registry, s: Core, m: Message, top: Top)
    requires reg.nodes > 0 && Inv(reg, s) && CompletesViewChange(reg, s, m)
    requires HighestSlot(ReportsWith(s, m)) == Some(top)
    requires top.seqno > 0 ==> Backed(s.prepared, m.view, top.seqno, top.digest)
    ensures var o := Handle(reg, s, m);
      && o.Accepted? && o.response == ViewChanged
      && o.state == s.(view := m.view, highestSeq := o.state.highestSeq, newViews := o.state.newViews,
                       viewChangeVotes := s.viewChangeVotes[m.view := ReportsWith(s, m)])
  {
    ViewChangeOutcome(reg, s, m);
    assert CertificatesExact(reg, Prepare, s.prepareVotes, s.prepared);
    SelectPreparedIsHighest(reg, s, m.view, top.seqno, top.digest);
    hide Inv, CompletesViewChange, HighestSlot, Backed, Install, SelectPrepared, Handle;
  }

  /** A prepared value may be reported. */
  lemma MayReport(reg: Registry, s: Core, k: Ballot)
    requires Inv(reg, s) && PreparedFor(s.prepared, k)
    ensures HasPreparedValue(reg, s.prepared, k.seqno, k.digest)
  {
    assert CertificateBacked(reg, Prepare, s.prepareVotes, k.At(), s.prepared[k.At()]);
  }

  /** The reports `now` are `before` with the same report by each of the nodes `from` to `to`. */
  ghost predicate Grown(before: Reports, k: Ballot, from: nat, to: nat, now: Reports) {
    && now.Keys == Below(to)
    && (forall i :: i in before && i in now && i < from ==> now[i] == before[i])
    && (forall i :: i in now && i >= from ==> now[i].seqno == k.seqno && now[i].digest == k.digest)
  }

  /** The table `now` has, besides what `table` has, the same report by the nodes `from` to `to`. */
  ghost predicate TableGrown(table: ReportTable, k: Ballot, from: nat, to: nat, now: ReportTable) {
    && Grown(ReportsFor(table, k.view), k, from, to, ReportsFor(now, k.view))
    && (forall t: nat :: t != k.view ==> ReportsFor(now, t) == ReportsFor(table, t))
  }

  lemma GrownStep(before: Reports, k: Ballot, from: nat, n: nat, now: Reports, report: Report)
    requires Grown(before, k, from, n, now) && from <= n
    requires report.seqno == k.seqno && report.digest == k.digest
    ensures Grown(before, k, from, n + 1, now[n := report])
  {
    assert now[n := report].Keys == now.Keys + {n} == Below(n + 1);
    hide Below;
  }

  lemma TableStep(table: ReportTable, k: Ballot, from: nat, n: nat, now: ReportTable, report: Report)
    requires TableGrown(table, k, from, n, now) && from <= n
    requires report.seqno == k.seqno && report.digest == k.digest
    ensures TableGrown(table, k, from, n + 1, now[k.view := ReportsFor(now, k.view)[n := report]])
  {
    hide Grown;
    GrownStep(ReportsFor(table, k.view), k, from, n, ReportsFor(now, k.view), report);
  }

  /** A node after the same report by the nodes `from` to `to` for the target `k.view`. */
  ghost predicate AfterReports(node: Node, k: Ballot, sign: Signer, from: nat, to: nat, after: Node) {
    && after == node.(live := node.live.(viewChangeVotes := after.live.viewChangeVotes),
                      log := node.log + RoundRows(ViewChange, k, sign, from, to))
    && TableGrown(node.live.viewChangeVotes, k, from, to, after.live.viewChangeVotes)
  }

  lemma ReportStep(node: Node, k: Ballot, sign: Signer, from: nat, n: nat, before: Node, after: Node)
    requires AfterReports(node, k, sign, from, n, before) && from <= n
    requires var m := Sent(ViewChange, k, n, sign);
      var table := before.live.viewChangeVotes[k.view := ReportsWith(before.live, m)];
      after == before.(live := before.live.(viewChangeVotes := table),
                       log := before.log + [RecordOf(m)])
    ensures AfterReports(node, k, sign, from, n + 1, after)
  {
    var m := Sent(ViewChange, k, n, sign);
    assert node.log + RoundRows(ViewChange, k, sign, from, n) + [RecordOf(m)] ==
      node.log + RoundRows(ViewChange, k, sign, from, n + 1);
    hide RoundRows, TableGrown;
    TableStep(node.live.viewChangeVotes, k, from, n, before.live.viewChangeVotes,
      Report(k.seqno, k.digest, m.signature));
  }

  lemma ReportsSmall(reg: Registry, votes: Reports, n: nat)
    requires votes.Keys == Below(n)
    ensures FullReports(reg, votes) <==> n >= reg.Quorum()
  {
    MapSize(votes);
  }

  /** One pending report. */
  lemma ReportArrives(reg: Registry, sign: Signer, node: Node, k: Ballot, n: nat)
    requires reg.Topology() && Signs(reg, sign) && NodeOk(reg, node) && !node.failed
    requires n + 1 < reg.Quorum() && k.view > node.live.view
    requires k.seqno > 0 ==> HasPreparedValue(reg, node.live.prepared, k.seqno, k.digest)
    requires !FullReports(reg, ReportsWith(node.live, Sent(ViewChange, k, n, sign)))
    ensures var m := Sent(ViewChange, k, n, sign);
      var after := After(reg, node, Arrives(m, Durable));
      && NodeOk(reg, after)
      && after == node.(live := node.live.(viewChangeVotes :=
                          node.live.viewChangeVotes[k.view := ReportsWith(node.live, m)]),
                        log := node.log + [RecordOf(m)])
  {
    var m := Sent(ViewChange, k, n, sign);
    assert reg.sigOk(n, m.Signed(), m.signature);
    hide NodeOk, After, Handle, HasPreparedValue, FullReports, Signs, ReportsWith;
    ReportPending(reg, node.live, m);
    Accepts(reg, node, m);
  }

  lemma NoneReported(node: Node, k: Ballot, sign: Signer, from: nat)
    requires ReportsFor(node.live.viewChangeVotes, k.view).Keys == Below(from)
    ensures AfterReports(node, k, sign, from, from, node)
  {
    assert node.log + [] == node.log;
  }

  /** Below a quorum, the next report may arrive as the first one did. */
  lemma NextReport(reg: Registry, node: Node, k: Ballot, sign: Signer, from: nat, n: nat, before: Node)
    requires AfterReports(node, k, sign, from, n, before) && n + 1 < reg.Quorum()
    ensures before.live.prepared == node.live.prepared && before.live.view == node.live.view
    ensures before.failed == node.failed
    ensures !FullReports(reg, ReportsWith(before.live, Sent(ViewChange, k, n, sign)))
  {
    hide FullReports;
    assert ReportsWith(before.live, Sent(ViewChange, k, n, sign)).Keys == Below(n + 1);
    ReportsSmall(reg, ReportsWith(before.live, Sent(ViewChange, k, n, sign)), n + 1);
  }

  lemma {:induction false} Reported(reg: Registry, sign: Signer, node: Node, k: Ballot, from: nat, n: nat)
    requires reg.Topology() && Signs(reg, sign) && NodeOk(reg, node) && !node.failed
    requires from <= n < reg.Quorum() && k.view > node.live.view
    requires k.seqno > 0 ==> HasPreparedValue(reg, node.live.prepared, k.seqno, k.digest)
    requires ReportsFor(node.live.viewChangeVotes, k.view).Keys == Below(from)
    ensures var after := Continue(reg, node, Round(ViewChange, k, sign, from, n));
      NodeOk(reg, after) && AfterReports(node, k, sign, from, n, after)
  {
    hide NodeOk, After, HasPreparedValue, FullReports, Signs, AfterReports, ReportsWith;
    if n == from {
      NoneReported(node, k, sign, from);
    } else {
      hide Continue, Round, Below;
      Reported(reg, sign, node, k, from, n - 1);
      RoundStep(reg, node, ViewChange, k, sign, from, n);
      var before := Continue(reg, node, Round(ViewChange, k, sign, from, n - 1));
      NextReport(reg, node, k, sign, from, n - 1, before);
      ReportArrives(reg, sign, before, k, n - 1);
      ReportStep(node, k, sign, from, n - 1, before,
        After(reg, before, Arrives(Sent(ViewChange, k, n - 1, sign), Durable)));
    }
  }

  /** The highest slot of reports that are all of one value at `q`, or below it. */
  lemma OneTop(votes: Reports, q: nat, d: Digest, i: nat)
    requires i in votes && votes[i].seqno == q && votes[i].digest == d && q > 0
    requires forall j :: j in votes ==> votes[j].seqno <= q && (votes[j].seqno == q ==> votes[j].digest == d)
    ensures HighestSlot(votes) == Some(Top(q, d))
  {
    HighestSlotIff(votes, q, d);
    hide HighestSlot;
  }

  lemma ZeroTop(votes: Reports, i: nat)
    requires i in votes && forall j :: j in votes ==> votes[j].seqno == 0
    ensures HighestSlot(votes) == Some(Top(0, ZERO_DIGEST))
  {
    HighestSlotIff(votes, 0, ZERO_DIGEST);
    hide HighestSlot;
  }
}
