/**
 Which of the handler's error branches a replica can really take. In a good state
 several checks can never fail, and the others fail under an exact condition.
 */
module Completeness {
  import opened Base
  import opened Protocol
  import opened Recovery
  import opened Invariants

  /** Individually verified votes of a quorum always verify together under the master key. */
  ghost predicate Combines(reg: Registry) {
    forall s: Statement, votes: Votes ::
      Full(reg, votes) && (forall i :: i in votes ==> i < reg.nodes && reg.sigOk(i, s, votes[i])) ==>
        reg.certOk(s, votes)
  }

  /** The commit-phase equivocation check is dead code: a committed slot has one proposed digest. */
  lemma CommitEquivocationUnreachable(reg: Registry, s: Core, m: Message)
    requires reg.nodes > 0 && Inv(reg, s) && m.phase == Commit
    ensures Handle(reg, s, m) != Rejected(EquivocationDetected)
  {
    hide Full, FullReports, OnPrePrepare, OnPrepare, OnViewChange, OnCheckpoint, HasPrepared, VoteCommitAt;
    hide ViewSide, ReportsBacked, ProposalsBounded, CheckpointSide, PrepareSide, VotesOk, CertificatesExact;
    var k := m.Key();
    if k in s.proposals && k.At() in s.committed {
      CertificateAtProposal(reg, Commit, s.proposals, s.commitVotes, s.commits, k);
    }
  }

  /** A freshly assembled new-view certificate never fails its own verification. */
  lemma NewViewFailureUnreachable(reg: Registry, s: Core, m: Message)
    requires reg.nodes > 0 && Inv(reg, s)
    ensures Handle(reg, s, m) != Rejected(NewViewVerificationFailed)
  {
    hide Full, FullReports, Inv, NewViewOk, OnPrePrepare, OnPrepare, OnCommit, OnCheckpoint;
    if m.phase == ViewChange && m.sender < reg.nodes && reg.sigOk(m.sender, m.Signed(), m.signature) {
      var report := Report(m.seqno, m.digest, m.signature);
      ReportsAfterVote(reg, s, m.view, m.sender, report);
      var votes := AddReport(s.viewChangeVotes, m.view, m.sender, report)[m.view];
      if FullReports(reg, votes) && HighestSlot(votes).Some? {
        AssembledNewViewOk(reg, s, m.view, votes);
      }
    }
  }

  /** The votes for the message's target view once its own vote is recorded. */
  function ReportsWith(s: Core, m: Message): Reports {
    ReportsFor(s.viewChangeVotes, m.view)[m.sender := Report(m.seqno, m.digest, m.signature)]
  }

  /** A view change whose vote is admissible and completes a quorum. */
  ghost predicate CompletesViewChange(reg: Registry, s: Core, m: Message) {
    && m.phase == ViewChange
    && m.sender < reg.nodes && reg.sigOk(m.sender, m.Signed(), m.signature)
    && Admissible(reg, s, m)
    && FullReports(reg, ReportsWith(s, m))
  }

  /** The outcome of a quorum-completing view change, as a function of its votes. */
  ghost function CompletedOutcome(reg: Registry, s: Core, m: Message): Outcome {
    var votes := ReportsWith(s, m);
    QuorumOutcome(reg, s.(viewChangeVotes := s.viewChangeVotes[m.view := votes]), m.view, votes)
  }

  ghost predicate Admissible(reg: Registry, s: Core, m: Message) {
    m.view > s.view && (m.seqno > 0 ==> HasPreparedValue(reg, s.prepared, m.seqno, m.digest))
  }

  lemma OnViewChangeOutcome(reg: Registry, s: Core, m: Message)
    requires HighestSlot(ReportsWith(s, m)).Some? && FullReports(reg, ReportsWith(s, m)) ==>
      var top := HighestSlot(ReportsWith(s, m)).value;
      var bound := if top.seqno > 0 then SelectPrepared(reg, s.prepared, m.view, top.seqno, top.digest) else None;
      (top.seqno > 0 ==> bound.Some?) ==> NewViewOk(reg, NewView(m.view, ReportsWith(s, m), bound))
    ensures var o := OnViewChange(reg, s, m);
      if Admissible(reg, s, m) && FullReports(reg, ReportsWith(s, m))
      then o == CompletedOutcome(reg, s, m) && o != Rejected(NewViewVerificationFailed)
      else o != Rejected(MissingQuorumCertificate) && (o.Accepted? ==> o.response == VoteViewChange)
  {
    hide Full, FullReports;
    var table := AddReport(s.viewChangeVotes, m.view, m.sender, Report(m.seqno, m.digest, m.signature));
    assert table[m.view] == ReportsWith(s, m);
    assert table == s.viewChangeVotes[m.view := ReportsWith(s, m)];
  }

  lemma ViewChangeOutcome(reg: Registry, s: Core, m: Message)
    requires reg.nodes > 0 && Inv(reg, s)
    ensures CompletesViewChange(reg, s, m) ==>
      Handle(reg, s, m) == CompletedOutcome(reg, s, m) != Rejected(NewViewVerificationFailed)
    ensures !CompletesViewChange(reg, s, m) ==>
      && Handle(reg, s, m) != Rejected(MissingQuorumCertificate)
      && (Handle(reg, s, m).Accepted? ==> Handle(reg, s, m).response != ViewChanged)
  {
    hide Full, FullReports, Inv, NewViewOk, HighestSlot, CompletedOutcome, OnPrePrepare, OnPrepare, OnCommit;
    hide OnViewChange, OnCheckpoint;
    if m.phase == ViewChange && m.sender < reg.nodes && reg.sigOk(m.sender, m.Signed(), m.signature) {
      var report := Report(m.seqno, m.digest, m.signature);
      var votes := ReportsWith(s, m);
      assert AddReport(s.viewChangeVotes, m.view, m.sender, report)[m.view] == votes;
      ReportsAfterVote(reg, s, m.view, m.sender, report);
      if FullReports(reg, votes) && HighestSlot(votes).Some? {
        AssembledNewViewOk(reg, s, m.view, votes);
      }
      OnViewChangeOutcome(reg, s, m);
      assert Handle(reg, s, m) == OnViewChange(reg, s, m);
    }
  }

  /** The exact condition of `MISSING_QUORUM_CERTIFICATE`: the top report has lost its certificate. */
  lemma MissingCertificateIff(reg: Registry, s: Core, m: Message)
    requires reg.nodes > 0 && Inv(reg, s)
    ensures Handle(reg, s, m) == Rejected(MissingQuorumCertificate) <==>
      && CompletesViewChange(reg, s, m)
      && HighestSlot(ReportsWith(s, m)).Some?
      && (var top := HighestSlot(ReportsWith(s, m)).value;
          top.seqno > 0 && !Backed(s.prepared, m.view, top.seqno, top.digest))
  {
    hide Full, FullReports;
    ViewChangeOutcome(reg, s, m);
    if CompletesViewChange(reg, s, m) && HighestSlot(ReportsWith(s, m)).Some? {
      var top := HighestSlot(ReportsWith(s, m)).value;
      SelectPreparedIsHighest(reg, s, m.view, top.seqno, top.digest);
    }
  }

  /** A certificate goes missing only at or below the stable checkpoint; before the first one, never. */
  lemma MissingOnlyBelowStable(reg: Registry, s: Core, m: Message)
    requires reg.nodes > 0 && Inv(reg, s)
    requires Handle(reg, s, m) == Rejected(MissingQuorumCertificate)
    ensures 0 < MaxReported(ReportsWith(s, m)) <= s.stable
  {
    hide Full, FullReports;
    MissingCertificateIff(reg, s, m);
    var votes := ReportsWith(s, m);
    var top := HighestSlot(votes).value;
    PreparedValueIsEarlier(reg, s, m.view, m.seqno, m.digest);
    EarlierPreparedIsBacked(reg, s, m.view, m.seqno, m.digest);
    BackedAfterVote(reg, s, m.view, m.sender, Report(m.seqno, m.digest, m.signature));
    var i :| i in votes && votes[i].seqno == top.seqno;
    assert votes[i].digest == top.digest;
    assert AddReport(s.viewChangeVotes, m.view, m.sender, Report(m.seqno, m.digest, m.signature))[m.view] == votes;
  }

  /** No report at all, or the local certificate of the highest view below `target` for the highest report. */
  ghost predicate BindsHighest(prepared: Certificates, target: nat, votes: Reports, selected: Option<Certificate>) {
    match selected
    case None => forall i :: i in votes ==> votes[i].seqno == 0
    case Some(c) =>
      && c.view < target
      && Slot(c.view, c.seqno) in prepared && prepared[Slot(c.view, c.seqno)] == c
      && (exists i :: i in votes && votes[i].seqno == c.seqno)
      && (forall i :: i in votes ==> votes[i].seqno <= c.seqno)
      && OneDigestAt(votes, c.seqno, c.digest)
      && (forall v: nat :: v < target && PreparedFor(prepared, Ballot(v, c.seqno, c.digest)) ==> v <= c.view)
  }

  lemma SelectionBinds(reg: Registry, s: Core, target: nat, votes: Reports)
    requires CertificatesExact(reg, Prepare, s.prepareVotes, s.prepared)
    requires HighestSlot(votes).Some?
    ensures var top := HighestSlot(votes).value;
      var bound := if top.seqno > 0 then SelectPrepared(reg, s.prepared, target, top.seqno, top.digest) else None;
      (top.seqno > 0 ==> bound.Some?) ==> BindsHighest(s.prepared, target, votes, bound)
  {
    hide Full, FullReports;
    var top := HighestSlot(votes).value;
    SelectPreparedIsHighest(reg, s, target, top.seqno, top.digest);
  }

  /** An accepted new view carries the quorum it was built from and binds the highest local certificate. */
  lemma NewViewBindsHighest(reg: Registry, s: Core, m: Message)
    requires reg.nodes > 0 && Inv(reg, s)
    requires Handle(reg, s, m).Accepted? && Handle(reg, s, m).response == ViewChanged
    ensures var t := Handle(reg, s, m).state;
      && t.view == m.view > s.view && m.view in t.newViews
      && t.newViews[m.view].votes == ReportsWith(s, m)
      && BindsHighest(s.prepared, m.view, ReportsWith(s, m), t.newViews[m.view].selected)
  {
    hide Full, FullReports;
    ViewChangeOutcome(reg, s, m);
    SelectionBinds(reg, s, m.view, ReportsWith(s, m));
  }

  /** The votes of a ballot after one more verified vote, as `Combines` wants them. */
  lemma QuorumCombines(reg: Registry, phase: Phase, table: VoteTable, k: Ballot, sender: nat, sig: Sig)
    requires Combines(reg) && VotesOk(reg, phase, table)
    requires sender < reg.nodes && reg.sigOk(sender, Statement(phase, k.view, k.seqno, k.digest), sig)
    ensures var votes := AddVote(table, k, sender, sig)[k];
      Full(reg, votes) ==> reg.certOk(Statement(phase, k.view, k.seqno, k.digest), votes)
  {
    hide Full, FullReports;
    AddVoteOk(reg, phase, table, k, sender, sig);
    var next := AddVote(table, k, sender, sig);
    assert BallotOk(reg, phase, k, next[k]);
  }

  lemma VoteOutcomes(reg: Registry, s: Core, m: Message)
    requires m.phase == Prepare ==> var votes := AddVote(s.prepareVotes, m.Key(), m.sender, m.signature)[m.Key()];
             Full(reg, votes) ==> reg.certOk(m.Signed(), votes)
    requires m.phase == Commit ==> var votes := AddVote(s.commitVotes, m.Key(), m.sender, m.signature)[m.Key()];
             Full(reg, votes) ==> reg.certOk(m.Signed(), votes)
    ensures reg.nodes > 0 ==> Handle(reg, s, m) != Rejected(CertificateVerificationFailed)
  {
    hide Full, FullReports;
  }

  /** With combinable keys a quorum of verified votes always yields its certificate: the check cannot fail. */
  lemma CertificateFailureUnreachable(reg: Registry, s: Core, m: Message)
    requires reg.nodes > 0 && Inv(reg, s) && Combines(reg)
    ensures Handle(reg, s, m) != Rejected(CertificateVerificationFailed)
  {
    hide Full, FullReports;
    if m.sender < reg.nodes && reg.sigOk(m.sender, m.Signed(), m.signature) {
      if m.phase == Prepare {
        QuorumCombines(reg, Prepare, s.prepareVotes, m.Key(), m.sender, m.signature);
      } else if m.phase == Commit {
        QuorumCombines(reg, Commit, s.commitVotes, m.Key(), m.sender, m.signature);
      }
      VoteOutcomes(reg, s, m);
    }
  }

  lemma RowPrepareRefusedIff(reg: Registry, r: Core, rec: Record)
    requires rec.phase == Code(Prepare)
    requires var votes := AddVote(r.prepareVotes, rec.Key(), rec.sender, rec.signature)[rec.Key()];
             Full(reg, votes) ==> reg.certOk(Statement(Prepare, rec.view, rec.seqno, rec.digest), votes)
    ensures RowPrepare(reg, r, rec).Refused? <==> rec.Key() !in r.proposals
  {
    hide Full, FullReports;
  }

  lemma RowCommitRefusedIff(reg: Registry, r: Core, rec: Record)
    requires rec.phase == Code(Commit) && CertificatesExact(reg, Prepare, r.prepareVotes, r.prepared)
    requires var votes := AddVote(r.commitVotes, rec.Key(), rec.sender, rec.signature)[rec.Key()];
             Full(reg, votes) ==> reg.certOk(Statement(Commit, rec.view, rec.seqno, rec.digest), votes)
    ensures RowCommit(reg, r, rec).Refused? <==> rec.Key() !in r.proposals || !PreparedFor(r.prepared, rec.Key())
  {
    hide Full, FullReports;
    HasPreparedIsLookup(reg, r, rec.Key());
  }

  /** Likewise in replay: an authentic vote row is refused only for a missing proposal or prepared certificate. */
  lemma ReplayVoteRefusedIff(reg: Registry, r: Core, rec: Record)
    requires reg.nodes > 0 && Inv(reg, r) && Combines(reg)
    requires Authentic(reg, rec) && (rec.phase == Code(Prepare) || rec.phase == Code(Commit))
    ensures Row(reg, r, rec).Refused? <==>
      rec.Key() !in r.proposals || (rec.phase == Code(Commit) && !PreparedFor(r.prepared, rec.Key()))
  {
    hide Full, FullReports;
    if rec.phase == Code(Prepare) {
      QuorumCombines(reg, Prepare, r.prepareVotes, rec.Key(), rec.sender, rec.signature);
      RowPrepareRefusedIff(reg, r, rec);
    } else {
      QuorumCombines(reg, Commit, r.commitVotes, rec.Key(), rec.sender, rec.signature);
      RowCommitRefusedIff(reg, r, rec);
    }
  }
}
