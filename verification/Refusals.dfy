/**
 Which rows replay refuses, phase by phase, and what is left in the tables once a
 stable checkpoint, live or recovered, has been collected.
 */
module Refusals {
  import opened Base
  import opened Protocol
  import opened Recovery
  import opened Invariants
  import opened LogMeaning
  import opened Leadership
  import opened Replies

  /** An unknown phase, an unregistered sender or a signature that does not verify is refused at once. */
  lemma UnauthenticRow(reg: Registry, r: Core, rec: Record)
    requires reg.nodes > 0
    ensures rec.phase > 4 || rec.sender >= reg.nodes ==> Row(reg, r, rec).Refused?
    ensures rec.phase <= 4 && Row(reg, r, rec).Recovered? ==>
      reg.sigOk(rec.sender, Statement(PhaseOf(rec.phase), rec.view, rec.seqno, rec.digest), rec.signature)
  {
  }

  /** A proposal row: not its sender's turn, or another value recovered for the slot. */
  lemma ProposalRow(reg: Registry, r: Core, rec: Record)
    requires reg.nodes > 0 && Authentic(reg, rec) && rec.phase == 0
    ensures Row(reg, r, rec).Refused? <==>
      || (rec.view - rec.sender) % reg.nodes != 0
      || exists k :: k in r.proposals && k.At() == rec.Key().At() && k.digest != rec.digest
  {
    RemainderIff(rec.view, rec.sender, reg.nodes);
    assert forall k: Ballot :: k.At() == rec.Key().At() <==> k.view == rec.view && k.seqno == rec.seqno;
  }

  /** A Prepare row: no such proposal, or a quorum that does not verify. */
  lemma PrepareRow(reg: Registry, r: Core, rec: Record)
    requires reg.nodes > 0 && Authentic(reg, rec) && rec.phase == 1
    ensures var votes := VotesFor(r.prepareVotes, rec.Key())[rec.sender := rec.signature];
      Row(reg, r, rec).Refused? <==>
        || rec.Key() !in r.proposals
        || (Completed(reg, r.prepareVotes, rec.Key(), rec.sender)
            && !reg.certOk(Statement(Prepare, rec.view, rec.seqno, rec.digest), votes))
  {
    CompletedIsFull(reg, r.prepareVotes, rec.Key(), rec.sender, rec.signature);
    hide Full, Certify, Completed;
  }

  /** A Commit row: no such proposal, no prepared certificate of its value, or a quorum that does not verify. */
  lemma CommitRow(reg: Registry, r: Core, rec: Record)
    requires reg.nodes > 0 && Inv(reg, r) && Authentic(reg, rec) && rec.phase == 2
    ensures var votes := VotesFor(r.commitVotes, rec.Key())[rec.sender := rec.signature];
      Row(reg, r, rec).Refused? <==>
        || rec.Key() !in r.proposals
        || !PreparedFor(r.prepared, rec.Key())
        || (Completed(reg, r.commitVotes, rec.Key(), rec.sender)
            && !reg.certOk(Statement(Commit, rec.view, rec.seqno, rec.digest), votes))
  {
    CompletedIsFull(reg, r.commitVotes, rec.Key(), rec.sender, rec.signature);
    assert CertificatesExact(reg, Prepare, r.prepareVotes, r.prepared);
    HasPreparedIsLookup(reg, r, rec.Key());
    hide Full, Certify, Decide, Completed, Inv, HasPrepared, PreparedFor, CertificatesExact;
  }

  /** The reports for the view of the row, with its own. */
  function ReportsThen(r: Core, rec: Record): Reports {
    ReportsFor(r.viewChangeVotes, rec.view)[rec.sender := Report(rec.seqno, rec.digest, rec.signature)]
  }

  /** 2f + 1 nodes have reported, but at odds about the highest report, or it has lost its certificate. */
  ghost predicate NoNewView(reg: Registry, r: Core, target: nat, votes: Reports) {
    && |votes| >= 2 * reg.faults + 1
    && match HighestSlot(votes)
       case None => true
       case Some(top) => top.seqno > 0 && !Backed(r.prepared, target, top.seqno, top.digest)
  }

  /** A report row: a value not prepared in an earlier view, or a quorum that makes no new view. */
  lemma ReportRow(reg: Registry, r: Core, rec: Record)
    requires reg.nodes > 0 && Inv(reg, r) && Authentic(reg, rec) && rec.phase == 3
    ensures Row(reg, r, rec).Refused? <==>
      || (rec.seqno > 0 && !Backed(r.prepared, rec.view, rec.seqno, rec.digest))
      || NoNewView(reg, r, rec.view, ReportsThen(r, rec))
  {
    var votes := ReportsThen(r, rec);
    assert CertificatesExact(reg, Prepare, r.prepareVotes, r.prepared);
    EarlierPreparedIsBacked(reg, r, rec.view, rec.seqno, rec.digest);
    ReportsAfterVote(reg, r, rec.view, rec.sender, Report(rec.seqno, rec.digest, rec.signature));
    ReportRowShape(reg, r, rec);
    hide RowViewChange, QuorumRow, HasEarlierPrepared, Backed, HighestSlot, ReportsThen;
    if FullReports(reg, votes) {
      QuorumRowIff(reg, r, rec.view, votes);
    }
    hide Inv, CertificatesExact;
  }

  lemma ReportRowShape(reg: Registry, r: Core, rec: Record)
    requires rec.phase == 3
    ensures RowViewChange(reg, r, rec).Refused? <==>
      || (rec.seqno > 0 && !HasEarlierPrepared(reg, r.prepared, rec.view, rec.seqno, rec.digest))
      || (FullReports(reg, ReportsThen(r, rec)) && QuorumRow(reg, r, rec.view, ReportsThen(r, rec)).Refused?)
  {
    var votes := ReportsThen(r, rec);
    var next := ReportAt(Raise(r, rec), rec.view, rec.sender, Report(rec.seqno, rec.digest, rec.signature));
    assert next.viewChangeVotes[rec.view] == votes && next.prepared == r.prepared;
    QuorumRowLooksAtCertificates(reg, r, next, rec.view, votes);
    hide FullReports, HasEarlierPrepared, QuorumRow;
  }

  lemma QuorumRowIff(reg: Registry, r: Core, target: nat, votes: Reports)
    requires Inv(reg, r) && FullReports(reg, votes)
    requires forall i :: i in votes ==> ReportOk(reg, target, i, votes[i])
    ensures QuorumRow(reg, r, target, votes).Refused? <==> NoNewView(reg, r, target, votes)
  {
    if HighestSlot(votes).Some? {
      var top := HighestSlot(votes).value;
      assert CertificatesExact(reg, Prepare, r.prepareVotes, r.prepared);
      AssembledNewViewOk(reg, r, target, votes);
      SelectPreparedIsHighest(reg, r, target, top.seqno, top.digest);
    }
    hide Inv, HighestSlot, NewViewOk, SelectPrepared, CertificatesExact, EnterView;
  }

  lemma QuorumRowLooksAtCertificates(reg: Registry, a: Core, b: Core, target: nat, votes: Reports)
    requires a.prepared == b.prepared
    ensures QuorumRow(reg, a, target, votes).Refused? <==> QuorumRow(reg, b, target, votes).Refused?
  {
    hide HighestSlot, NewViewOk, SelectPrepared, EnterView;
  }

  /** A checkpoint row that is authentic is always taken, in any view and at any sequence. */
  lemma CheckpointRow(reg: Registry, r: Core, rec: Record)
    requires reg.nodes > 0 && Authentic(reg, rec) && rec.phase == 4
    ensures Row(reg, r, rec).Recovered?
  {
  }

  // ------------------------------------------------------------------ what is collected

  /** The tables of `t` are those of `s` without anything at or below `floor`; the rest is the same. */
  ghost predicate Trimmed(s: Core, t: Core, floor: nat) {
    && (forall k :: k in t.proposals <==> k in s.proposals && floor < k.seqno)
    && (forall k :: k in t.prepareVotes <==> k in s.prepareVotes && floor < k.seqno)
    && (forall k :: k in t.commitVotes <==> k in s.commitVotes && floor < k.seqno)
    && (forall k :: k in t.checkpointVotes <==> k in s.checkpointVotes && floor < k.seqno)
    && (forall slot :: slot in t.prepared <==> slot in s.prepared && floor < slot.seqno)
    && (forall slot :: slot in t.commits <==> slot in s.commits && floor < slot.seqno)
    && (forall slot :: slot in t.committed <==> slot in s.committed && floor < slot.seqno)
    && (forall k :: k in t.prepareVotes ==> t.prepareVotes[k] == s.prepareVotes[k])
    && (forall k :: k in t.commitVotes ==> t.commitVotes[k] == s.commitVotes[k])
    && (forall k :: k in t.checkpointVotes ==> t.checkpointVotes[k] == s.checkpointVotes[k])
    && (forall slot :: slot in t.prepared ==> t.prepared[slot] == s.prepared[slot])
    && (forall slot :: slot in t.commits ==> t.commits[slot] == s.commits[slot])
    && (forall slot :: slot in t.committed ==> t.committed[slot] == s.committed[slot])
    && t.view == s.view && t.highestSeq == s.highestSeq
    && t.newViews == s.newViews && t.viewChangeVotes == s.viewChangeVotes
  }

  /** A checkpoint that stabilises drops exactly what is at or below it, its own votes included. */
  lemma StabilizedDrops(reg: Registry, s: Core, m: Message)
    requires reg.nodes > 0 && Handle(reg, s, m).Accepted? && Handle(reg, s, m).response == CheckpointStabilized
    ensures var t := Handle(reg, s, m).state;
      t.stable == m.seqno && Trimmed(s, t, m.seqno)
  {
    hide Full, OnPrePrepare, OnPrepare, OnCommit, OnViewChange;
  }

  /** Replay drops exactly what is at or below a positive stable checkpoint, from tables that say what the log says. */
  lemma ReplayDrops(reg: Registry, log: Log)
    requires reg.nodes > 0 && Replay(reg, log).Recovered?
    ensures var r, t := Fold(reg, log).state, Replay(reg, log).state;
      && Reads(reg, r, log) && t.stable == r.stable
      && if r.stable > 0 then Trimmed(r, t, r.stable) else t == r
  {
    FoldReads(reg, log);
    FinishTrims(Fold(reg, log).state);
    hide Fold, Reads, Trimmed, Finish;
  }

  lemma FinishTrims(r: Core)
    ensures Finish(r).stable == r.stable && if r.stable > 0 then Trimmed(r, Finish(r), r.stable) else Finish(r) == r
  {
  }
}
