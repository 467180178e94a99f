/**
 Which reply comes when. For every phase, the exact condition of every error and of every
 acknowledgement, in terms of the rotation of leaders, the proposals held and the nodes
 that have voted.
 */
module Replies {
  import opened Base
  import opened Protocol
  import opened Recovery
  import opened Invariants
  import opened Completeness
  import opened Durability
  import opened Leadership
  import Selection

  /** A registered sender and its valid signature. */
  predicate Signed(reg: Registry, m: Message) {
    m.sender < reg.nodes && reg.sigOk(m.sender, m.Signed(), m.signature)
  }

  /** With the vote of `sender`, 2f + 1 nodes have voted for the ballot. */
  predicate Completed(reg: Registry, table: VoteTable, k: Ballot, sender: nat) {
    |VotesFor(table, k).Keys + {sender}| >= 2 * reg.faults + 1
  }

  lemma CompletedIsFull(reg: Registry, table: VoteTable, k: Ballot, sender: nat, sig: Sig)
    ensures Completed(reg, table, k, sender) <==> Full(reg, AddVote(table, k, sender, sig)[k])
  {
    var votes := VotesFor(table, k)[sender := sig];
    MapSize(votes);
    assert votes.Keys == VotesFor(table, k).Keys + {sender};
  }

  /** Before anything else: an unknown sender, then a signature that does not verify. */
  lemma UnsignedReplies(reg: Registry, s: Core, m: Message)
    requires reg.nodes > 0
    ensures Handle(reg, s, m) == Rejected(AuthFailed) <==> m.sender >= reg.nodes
    ensures Handle(reg, s, m) == Rejected(CryptoAuthFailed) <==> m.sender < reg.nodes && !Signed(reg, m)
    ensures Handle(reg, s, m).Acknowledged? <==> Signed(reg, m) && m.phase == Checkpoint && m.seqno <= s.stable
    ensures Handle(reg, s, m).Acknowledged? ==> Handle(reg, s, m).reply == CheckpointObsolete
  {
    hide OnPrePrepare, OnPrepare, OnCommit, OnViewChange, OnCheckpoint;
  }

  /** A proposal: wrong view, wrong turn, another value, the same value; else it is taken. */
  lemma ProposalReplies(reg: Registry, s: Core, m: Message)
    requires reg.nodes > 0 && Signed(reg, m) && m.phase == PrePrepare
    ensures var o := Handle(reg, s, m);
      var turn := (m.view - m.sender) % reg.nodes == 0;
      var other := exists k :: k in s.proposals && k.At() == m.Key().At() && k.digest != m.digest;
      && (o == Rejected(ViewMismatch) <==> m.view != s.view)
      && (o == Rejected(LeaderViolation) <==> m.view == s.view && !turn)
      && (o == Rejected(EquivocationDetected) <==> m.view == s.view && turn && other)
      && (o == Rejected(DuplicateProposal) <==> m.view == s.view && turn && !other && m.Key() in s.proposals)
      && (o.Accepted? <==> m.view == s.view && turn && !other && m.Key() !in s.proposals)
      && (o.Accepted? ==> o.response == InboundPrePrepare)
  {
    RemainderIff(m.view, m.sender, reg.nodes);
    assert forall k: Ballot :: k.At() == m.Key().At() <==> k.view == m.view && k.seqno == m.seqno;
  }

  /** A Prepare vote: wrong view, no such proposal, a quorum that does not verify; else it is counted. */
  lemma PrepareReplies(reg: Registry, s: Core, m: Message)
    requires reg.nodes > 0 && Signed(reg, m) && m.phase == Prepare
    ensures var o := Handle(reg, s, m);
      var known := m.view == s.view && m.Key() in s.proposals;
      var full := Completed(reg, s.prepareVotes, m.Key(), m.sender);
      var verifies := reg.certOk(m.Signed(), VotesFor(s.prepareVotes, m.Key())[m.sender := m.signature]);
      && (o == Rejected(ViewMismatch) <==> m.view != s.view)
      && (o == Rejected(OrphanPrepare) <==> m.view == s.view && m.Key() !in s.proposals)
      && (o == Rejected(CertificateVerificationFailed) <==> known && full && !verifies)
      && (o.Accepted? && o.response == VotePrepare <==> known && !full)
      && (o.Accepted? && o.response == CertificatePrepared <==> known && full && verifies)
  {
    CompletedIsFull(reg, s.prepareVotes, m.Key(), m.sender, m.signature);
    hide Full, Certify, Completed;
  }

  /** A Commit vote: wrong view, no proposal, no prepared certificate of the value, a quorum that does not verify. */
  lemma CommitReplies(reg: Registry, s: Core, m: Message)
    requires reg.nodes > 0 && Inv(reg, s) && Signed(reg, m) && m.phase == Commit
    ensures var o := Handle(reg, s, m);
      var known := m.view == s.view && m.Key() in s.proposals;
      var prepared := PreparedFor(s.prepared, m.Key());
      var full := Completed(reg, s.commitVotes, m.Key(), m.sender);
      var verifies := reg.certOk(m.Signed(), VotesFor(s.commitVotes, m.Key())[m.sender := m.signature]);
      && (o == Rejected(ViewMismatch) <==> m.view != s.view)
      && (o == Rejected(OrphanCommit) <==> m.view == s.view && m.Key() !in s.proposals)
      && (o == Rejected(SafetyViolation) <==> known && !prepared)
      && (o == Rejected(CertificateVerificationFailed) <==> known && prepared && full && !verifies)
      && (o.Accepted? && o.response == VoteCommit <==> known && prepared && !full)
      && (o.Accepted? && o.response == Committed <==> known && prepared && full && verifies)
  {
    CompletedIsFull(reg, s.commitVotes, m.Key(), m.sender, m.signature);
    CommitEquivocationUnreachable(reg, s, m);
    assert CertificatesExact(reg, Prepare, s.prepareVotes, s.prepared);
    HasPreparedIsLookup(reg, s, m.Key());
    hide Full, Certify, Decide, Completed, Inv, HasPrepared, PreparedFor, CertificatesExact;
  }

  /** With the report of `m`, 2f + 1 nodes have reported for its view. */
  predicate Reported(reg: Registry, s: Core, m: Message) {
    |ReportsFor(s.viewChangeVotes, m.view).Keys + {m.sender}| >= 2 * reg.faults + 1
  }

  lemma ReportedIsFull(reg: Registry, s: Core, m: Message)
    ensures Reported(reg, s, m) <==> FullReports(reg, ReportsWith(s, m))
  {
    MapSize(ReportsWith(s, m));
    assert ReportsWith(s, m).Keys == ReportsFor(s.viewChangeVotes, m.view).Keys + {m.sender};
  }

  /** Some prepared certificate is for the reported value. */
  ghost predicate ValuePrepared(s: Core, seqno: nat, digest: Digest) {
    exists v: nat :: PreparedFor(s.prepared, Ballot(v, seqno, digest))
  }

  lemma ValuePreparedIff(reg: Registry, s: Core, seqno: nat, digest: Digest)
    requires Inv(reg, s)
    ensures HasPreparedValue(reg, s.prepared, seqno, digest) <==> ValuePrepared(s, seqno, digest)
  {
    assert CertificatesExact(reg, Prepare, s.prepareVotes, s.prepared);
    hide Full, Inv;
    if HasPreparedValue(reg, s.prepared, seqno, digest) {
      var slot :| slot in s.prepared && s.prepared[slot].seqno == seqno && s.prepared[slot].digest == digest;
      assert CertificateBacked(reg, Prepare, s.prepareVotes, slot, s.prepared[slot]);
      assert PreparedFor(s.prepared, Ballot(slot.view, seqno, digest));
    }
    if v: nat :| PreparedFor(s.prepared, Ballot(v, seqno, digest)) {
      assert CertificateBacked(reg, Prepare, s.prepareVotes, Slot(v, seqno), s.prepared[Slot(v, seqno)]);
    }
  }

  /** A report: an old target, a value nobody prepared; a quorum at odds; else a vote or, at a quorum, the new view. */
  lemma ReportReplies(reg: Registry, s: Core, m: Message)
    requires reg.nodes > 0 && Inv(reg, s) && Signed(reg, m) && m.phase == ViewChange
    ensures var o := Handle(reg, s, m);
      var admitted := m.view > s.view && (m.seqno > 0 ==> ValuePrepared(s, m.seqno, m.digest));
      var full := Reported(reg, s, m);
      var odds := HighestSlot(ReportsWith(s, m)) == None;
      && (o == Rejected(ViewChangeInvalid) <==> m.view <= s.view)
      && (o == Rejected(CertificateInvalid) <==>
            m.view > s.view && m.seqno > 0 && !ValuePrepared(s, m.seqno, m.digest))
      && (o == Rejected(ConflictingViewChangeDigests) <==> admitted && full && odds)
      && (o.Accepted? && o.response == VoteViewChange <==> admitted && !full)
      && (o.Accepted? && o.response == ViewChanged ==> admitted && full && !odds)
      && (admitted && full && !odds && !o.Accepted? ==> o == Rejected(MissingQuorumCertificate))
  {
    ReportedIsFull(reg, s, m);
    NewViewFailureUnreachable(reg, s, m);
    ValuePreparedIff(reg, s, m.seqno, m.digest);
    var table := AddReport(s.viewChangeVotes, m.view, m.sender, Report(m.seqno, m.digest, m.signature));
    assert table[m.view] == ReportsWith(s, m);
    hide FullReports, HighestSlot, NewViewOk, SelectPrepared, HasPreparedValue, ValuePrepared, Reported, Inv;
    hide ReportsWith;
  }

  /** A checkpoint vote above the stable checkpoint: wrong view; else it is counted, and stabilises at a quorum. */
  lemma CheckpointReplies(reg: Registry, s: Core, m: Message)
    requires reg.nodes > 0 && Signed(reg, m) && m.phase == Checkpoint
    ensures var o := Handle(reg, s, m);
      var full := Completed(reg, s.checkpointVotes, m.Key(), m.sender);
      && (o == Acknowledged(CheckpointObsolete) <==> m.seqno <= s.stable)
      && (o == Rejected(ViewMismatch) <==> m.seqno > s.stable && m.view != s.view)
      && (o.Accepted? && o.response == VoteCheckpoint <==> m.seqno > s.stable && m.view == s.view && !full)
      && (o.Accepted? && o.response == CheckpointStabilized <==> m.seqno > s.stable && m.view == s.view && full)
  {
    CompletedIsFull(reg, s.checkpointVotes, m.Key(), m.sender, m.signature);
    hide Full, Collect, Completed;
  }

  /** No accepted message forgets a new view. */
  lemma NewViewsKept(reg: Registry, s: Core, m: Message)
    requires reg.nodes > 0 && Inv(reg, s) && Handle(reg, s, m).Accepted?
    ensures forall t :: t in s.newViews ==> t in Handle(reg, s, m).state.newViews
                                             && Handle(reg, s, m).state.newViews[t] == s.newViews[t]
  {
    hide Full, FullReports, HighestSlot, NewViewOk, AddVote, HasPrepared, OnViewChange, Certify, Decide;
    if m.phase == ViewChange {
      OnViewChangeShape(reg, s, m);
    }
  }

  // ------------------------------------------------------- the new-view certificate

  /** The highest report is (q, d); at sequence zero nothing is reported, and d is the zero digest. */
  ghost predicate TopReport(votes: Reports, q: nat, d: Digest, zero: Digest) {
    && (exists i :: i in votes && votes[i].seqno == q)
    && (forall i :: i in votes ==> votes[i].seqno < q || (votes[i].seqno == q && (q > 0 ==> votes[i].digest == d)))
    && (q == 0 ==> d == zero)
  }

  /** Nodes whose signed reports for `target` are among `votes`. */
  ghost predicate Reporters(reg: Registry, target: nat, votes: Reports, who: set<nat>) {
    forall i :: i in who ==>
      i in votes && reg.sigOk(i, Statement(ViewChange, target, votes[i].seqno, votes[i].digest), votes[i].signature)
  }

  /** A selected certificate is of the highest report, of an earlier view, and verified as a Prepare certificate. */
  predicate SelectedFits(reg: Registry, nv: NewView, q: nat, d: Digest) {
    match nv.selected
    case None => q == 0
    case Some(c) =>
      && c.seqno == q && c.digest == d && c.view < nv.target
      && reg.certOk(Statement(Prepare, c.view, c.seqno, c.digest), c.signatures)
  }

  lemma TopReportIff(votes: Reports, q: nat, d: Digest)
    ensures TopReport(votes, q, d, ZERO_DIGEST) <==> HighestSlot(votes) == Some(Top(q, d))
  {
    Selection.HighestSlotIff(votes, q, d);
    hide HighestSlot;
  }

  /** What a new-view certificate must be: a quorum of signed reports, and the certificate of the highest, if any. */
  lemma NewViewIff(reg: Registry, nv: NewView)
    ensures NewViewOk(reg, nv) <==>
      && |nv.votes| >= 2 * reg.faults + 1
      && (exists q: nat, d: Digest :: TopReport(nv.votes, q, d, ZERO_DIGEST) && SelectedFits(reg, nv, q, d))
      && (exists who: set<nat> :: Reporters(reg, nv.target, nv.votes, who) && |who| >= 2 * reg.faults + 1)
  {
    var signed := set i | i in nv.votes && ReportOk(reg, nv.target, i, nv.votes[i]);
    assert Reporters(reg, nv.target, nv.votes, signed);
    if who: set<nat> :| Reporters(reg, nv.target, nv.votes, who) && |who| >= 2 * reg.faults + 1 {
      SubsetSize(who, signed);
    }
    forall q: nat, d: Digest ensures TopReport(nv.votes, q, d, ZERO_DIGEST) <==>
      HighestSlot(nv.votes) == Some(Top(q, d)) {
      TopReportIff(nv.votes, q, d);
    }
    hide HighestSlot, TopReport;
    if HighestSlot(nv.votes).Some? {
      var top := HighestSlot(nv.votes).value;
      assert TopReport(nv.votes, top.seqno, top.digest, ZERO_DIGEST);
    }
  }

  // --------------------------------------------------------------- the durable half

  /** What the file system adds: a log already given up, an append or a compaction that fails. */
  lemma DurableReplies(reg: Registry, node: Node, m: Message, fate: Fate)
    requires reg.nodes > 0
    ensures var o := Handle(reg, node.live, m);
      var reply := Deliver(reg, node, m, fate).1;
      var lost := fate in {AppendLost, AppendTorn, AppendKept};
      var unpruned := fate in {PruneAborted, PruneUnsynced};
      && (reply == Rejected(WalUnavailable) <==> node.failed)
      && (reply == Rejected(WalError) <==> !node.failed && o.Accepted? && lost)
      && (reply == Rejected(WalPruneError) <==>
            !node.failed && o.Accepted? && o.response == CheckpointStabilized && unpruned)
      && (!node.failed && (!o.Accepted? || !(lost || (o.response == CheckpointStabilized && unpruned))) ==> reply == o)
  {
    NeverDurable(reg, node.live, m);
    hide Handle;
  }

  lemma NeverDurable(reg: Registry, s: Core, m: Message)
    requires reg.nodes > 0
    ensures Handle(reg, s, m).Rejected? ==> Handle(reg, s, m).error !in {WalUnavailable, WalError, WalPruneError}
  {
    hide OnPrePrepare, OnPrepare, OnCommit, OnViewChange, OnCheckpoint;
  }

  /** Once the log has failed, in the append or in the compaction, nothing is handled before a restart. */
  lemma FailedStaysFailed(reg: Registry, node: Node, m: Message, fate: Fate, later: Message, fate': Fate)
    requires reg.nodes > 0
    requires var reply := Deliver(reg, node, m, fate).1;
      reply in {Rejected(WalUnavailable), Rejected(WalError), Rejected(WalPruneError)}
    ensures var down := Deliver(reg, node, m, fate).0;
      down.failed && Deliver(reg, down, later, fate') == (down, Rejected(WalUnavailable))
  {
    NeverDurable(reg, node.live, m);
    hide Handle;
  }
}
