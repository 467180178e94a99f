/**
 When a replica can restart. Its log, compacted or not, replays exactly when the log
 holds one value for every slot and no logged view-change quorum is at odds about its
 highest report; nothing else that replay checks can fail on a log the handler wrote.
 */
module Restarting {
  import opened Base
  import opened Protocol
  import opened Recovery
  import opened Invariants
  import opened Completeness
  import opened Durability
  import opened LogMeaning
  import opened Compaction

  // -------------------------------------------------------------- the condition

  /** The last report of every sender for `target`. */
  function LoggedReports(log: Log, target: nat): Reports {
    if |log| == 0 then map[]
    else
      var rec := log[|log| - 1];
      var before := LoggedReports(log[..|log| - 1], target);
      if rec.phase == Code(ViewChange) && rec.view == target
      then before[rec.sender := Report(rec.seqno, rec.digest, rec.signature)]
      else before
  }

  /** The log holds no other value for the slot of `k`. */
  ghost predicate FreshSlot(log: Log, k: Ballot) {
    forall o :: o in LoggedProposals(log) && o.At() == k.At() ==> o.digest == k.digest
  }

  ghost predicate OneValuePerSlot(log: Log) {
    UniqueProposals(LoggedProposals(log))
  }

  /** The highest reports of every logged quorum carry one digest. */
  ghost predicate ReportsAgree(reg: Registry, log: Log) {
    forall t: nat :: FullReports(reg, LoggedReports(log, t)) ==> HighestSlot(LoggedReports(log, t)).Some?
  }

  ghost predicate Readable(reg: Registry, log: Log) {
    OneValuePerSlot(log) && ReportsAgree(reg, log)
  }

  lemma {:induction false} ReportersAreKeys(log: Log, target: nat)
    ensures LoggedReports(log, target).Keys == LoggedReporters(log, target)
  {
    if |log| > 0 {
      ReportersAreKeys(log[..|log| - 1], target);
    }
  }

  lemma ReportsStep(log: Log, rec: Record, target: nat)
    ensures LoggedReports(log + [rec], target) ==
      if rec.phase == Code(ViewChange) && rec.view == target
      then LoggedReports(log, target)[rec.sender := Report(rec.seqno, rec.digest, rec.signature)]
      else LoggedReports(log, target)
  {
    assert (log + [rec])[..|log|] == log;
  }

  // ---------------------------------------------------------- rows the handler wrote

  /** Some view below `target` has a logged quorum of Prepare votes for the value. */
  ghost predicate PreparedInLog(reg: Registry, log: Log, target: nat, seqno: nat, digest: Digest) {
    exists v: nat :: v < target && Full(reg, LoggedVotes(log, Code(Prepare), Ballot(v, seqno, digest)))
  }

  /** What a row needs of the rows before it; the handler appends no other rows. */
  ghost predicate RowJustified(reg: Registry, before: Log, rec: Record)
    requires reg.nodes > 0
  {
    && Authentic(reg, rec)
    && (rec.phase == Code(PrePrepare) ==> rec.sender == reg.Leader(rec.view))
    && (rec.phase == Code(Prepare) || rec.phase == Code(Commit) ==> rec.Key() in LoggedProposals(before))
    && (rec.phase == Code(Commit) ==> Full(reg, LoggedVotes(before, Code(Prepare), rec.Key())))
    && (rec.phase == Code(ViewChange) ==>
          && (rec.seqno > 0 ==> PreparedInLog(reg, before, rec.view, rec.seqno, rec.digest))
          && |LoggedReporters(before, rec.view)| < reg.Quorum())
  }

  ghost predicate Justified(reg: Registry, log: Log)
    requires reg.nodes > 0
  {
    |log| == 0 || (Justified(reg, log[..|log| - 1]) && RowJustified(reg, log[..|log| - 1], log[|log| - 1]))
  }

  lemma JustifiedStep(reg: Registry, log: Log, rec: Record)
    requires reg.nodes > 0
    ensures Justified(reg, log + [rec]) <==> Justified(reg, log) && RowJustified(reg, log, rec)
  {
    assert (log + [rec])[..|log|] == log;
  }

  lemma RowSurvivesPruning(reg: Registry, before: Log, rec: Record, floor: nat)
    requires reg.nodes > 0 && RowJustified(reg, before, rec) && rec.seqno >= floor
    ensures RowJustified(reg, Prune(before, floor), rec)
  {
    hide Full, FullReports;
    PrunedProposals(before, floor);
    PrunedVotes(before, floor, Code(Prepare), rec.Key());
    PrunedReporters(before, floor, rec.view);
    SubsetSize(LoggedReporters(Prune(before, floor), rec.view), LoggedReporters(before, rec.view));
    if rec.phase == Code(ViewChange) && rec.seqno > 0 {
      var v: nat :| v < rec.view && Full(reg, LoggedVotes(before, Code(Prepare), Ballot(v, rec.seqno, rec.digest)));
      PrunedVotes(before, floor, Code(Prepare), Ballot(v, rec.seqno, rec.digest));
    }
  }

  /** What justifies a row carries its sequence, so pruning never separates the two. */
  lemma {:induction false} PrunedJustified(reg: Registry, log: Log, floor: nat)
    requires reg.nodes > 0 && Justified(reg, log)
    ensures Justified(reg, Prune(log, floor))
  {
    hide Full, FullReports, RowJustified;
    if |log| > 0 {
      var init, last := log[..|log| - 1], log[|log| - 1];
      PrunedJustified(reg, init, floor);
      if last.seqno >= floor {
        RowSurvivesPruning(reg, init, last, floor);
        JustifiedStep(reg, Prune(init, floor), last);
      } else {
        assert Prune(init, floor) + [] == Prune(init, floor);
      }
    }
  }

  // ------------------------------------------------------------ the replay of such rows

  /** The report table of `r` is the log's. */
  ghost predicate ReportsAre(table: ReportTable, log: Log) {
    forall t: nat :: ReportsFor(table, t) == LoggedReports(log, t)
  }

  lemma RowReportsAre(reg: Registry, r: Core, log: Log, rec: Record)
    requires reg.nodes > 0 && ReportsAre(r.viewChangeVotes, log) && Row(reg, r, rec).Recovered?
    ensures ReportsAre(Row(reg, r, rec).state.viewChangeVotes, log + [rec])
  {
    hide Row;
    RowShape(reg, r, rec);
    forall t: nat ensures ReportsFor(Row(reg, r, rec).state.viewChangeVotes, t) == LoggedReports(log + [rec], t) {
      ReportsStep(log, rec, t);
    }
  }

  lemma {:induction false} FoldReportsAre(reg: Registry, log: Log)
    requires reg.nodes > 0 && Fold(reg, log).Recovered?
    ensures ReportsAre(Fold(reg, log).state.viewChangeVotes, log)
  {
    hide Full, FullReports, Row, ReportsAre;
    if |log| == 0 {
      assert ReportsAre(INITIAL.viewChangeVotes, []) by { NoReports(); }
    } else {
      var init, last := log[..|log| - 1], log[|log| - 1];
      FoldReportsAre(reg, init);
      RowReportsAre(reg, Fold(reg, init).state, init, last);
      assert init + [last] == log;
    }
  }

  lemma NoReports()
    ensures ReportsAre(map[], [])
  {
  }

  /** A logged quorum of Prepare votes is a prepared certificate of the replayed state. */
  lemma PreparedFromLog(reg: Registry, r: Core, log: Log, k: Ballot)
    requires Reads(reg, r, log) && Inv(reg, r) && Full(reg, LoggedVotes(log, Code(Prepare), k))
    ensures PreparedFor(r.prepared, k)
  {
    EmptyNotFull(reg);
    hide Full, FullReports;
    assert VotesFor(r.prepareVotes, k) == LoggedVotes(log, Code(Prepare), k);
    assert CertificatesExact(reg, Prepare, r.prepareVotes, r.prepared);
    hide Inv, Reads;
  }

  lemma VotesGrow(reg: Registry, log: Log, rec: Record, k: Ballot)
    requires Full(reg, LoggedVotes(log, Code(Prepare), k))
    ensures Full(reg, LoggedVotes(log + [rec], Code(Prepare), k))
  {
    LogStep(log, rec);
    hide Full;
    FullStays(reg, LoggedVotes(log, Code(Prepare), k), rec.sender, rec.signature);
  }

  lemma {:induction false} ReportPrepared(reg: Registry, log: Log, t: nat, i: nat)
    requires reg.nodes > 0 && Justified(reg, log)
    requires i in LoggedReports(log, t) && LoggedReports(log, t)[i].seqno > 0
    ensures PreparedInLog(reg, log, t, LoggedReports(log, t)[i].seqno, LoggedReports(log, t)[i].digest)
  {
    hide Full, FullReports;
    var init, last := log[..|log| - 1], log[|log| - 1];
    assert init + [last] == log;
    var r := LoggedReports(log, t)[i];
    if !(last.phase == Code(ViewChange) && last.view == t && last.sender == i) {
      ReportPrepared(reg, init, t, i);
    }
    hide LoggedReports;
    assert PreparedInLog(reg, init, t, r.seqno, r.digest);
    var v: nat :| v < t && Full(reg, LoggedVotes(init, Code(Prepare), Ballot(v, r.seqno, r.digest)));
    VotesGrow(reg, init, last, Ballot(v, r.seqno, r.digest));
  }

  /** So every report in the replayed state is backed, at any sequence. */
  lemma ReplayedReportsBacked(reg: Registry, r: Core, log: Log)
    requires reg.nodes > 0 && Justified(reg, log)
    requires Reads(reg, r, log) && Inv(reg, r) && ReportsAre(r.viewChangeVotes, log)
    ensures ReportsBacked(0, r.prepared, r.viewChangeVotes)
  {
    hide Full, FullReports, Justified, Reads, Inv;
    forall t, i | t in r.viewChangeVotes && i in r.viewChangeVotes[t] && r.viewChangeVotes[t][i].seqno > 0
      ensures Backed(r.prepared, t, r.viewChangeVotes[t][i].seqno, r.viewChangeVotes[t][i].digest)
    {
      var report := r.viewChangeVotes[t][i];
      assert ReportsFor(r.viewChangeVotes, t) == LoggedReports(log, t);
      ReportPrepared(reg, log, t, i);
      var v: nat :| v < t && Full(reg, LoggedVotes(log, Code(Prepare), Ballot(v, report.seqno, report.digest)));
      PreparedFromLog(reg, r, log, Ballot(v, report.seqno, report.digest));
    }
  }

  /** The outcome of a view-change row whose report is admitted and whose quorum, if it has one, verifies. */
  lemma AdmittedRowIff(reg: Registry, r: Core, rec: Record, votes: Reports)
    requires votes ==
      ReportsFor(r.viewChangeVotes, rec.view)[rec.sender := Report(rec.seqno, rec.digest, rec.signature)]
    requires rec.seqno > 0 ==> HasEarlierPrepared(reg, r.prepared, rec.view, rec.seqno, rec.digest)
    requires FullReports(reg, votes) && HighestSlot(votes).Some? ==>
      var top := HighestSlot(votes).value;
      var bound := if top.seqno > 0 then SelectPrepared(reg, r.prepared, rec.view, top.seqno, top.digest) else None;
      (top.seqno > 0 ==> bound.Some?) && NewViewOk(reg, NewView(rec.view, votes, bound))
    ensures RowViewChange(reg, r, rec).Recovered? <==> (FullReports(reg, votes) ==> HighestSlot(votes).Some?)
  {
    hide FullReports, HighestSlot, NewViewOk, HasEarlierPrepared, SelectPrepared, EnterView;
    var next := ReportAt(Raise(r, rec), rec.view, rec.sender, Report(rec.seqno, rec.digest, rec.signature));
    assert next.viewChangeVotes[rec.view] == votes;
  }

  /** An unambiguous quorum whose reports are backed selects its certificate and verifies. */
  lemma BackedQuorumVerifies(reg: Registry, r: Core, target: nat, sender: nat, report: Report)
    requires Inv(reg, r) && ReportsBacked(0, r.prepared, r.viewChangeVotes)
    requires sender < reg.nodes && ReportOk(reg, target, sender, report)
    requires report.seqno > 0 ==> Backed(r.prepared, target, report.seqno, report.digest)
    ensures var votes := ReportsFor(r.viewChangeVotes, target)[sender := report];
      FullReports(reg, votes) && HighestSlot(votes).Some? ==>
      var top := HighestSlot(votes).value;
      var bound := if top.seqno > 0 then SelectPrepared(reg, r.prepared, target, top.seqno, top.digest) else None;
      (top.seqno > 0 ==> bound.Some?) && NewViewOk(reg, NewView(target, votes, bound))
  {
    var votes := ReportsFor(r.viewChangeVotes, target)[sender := report];
    assert CertificatesExact(reg, Prepare, r.prepareVotes, r.prepared);
    hide Full, FullReports, Inv, CertificatesExact, NewViewOk, HighestSlot, Backed, ReportsBacked, ReportOk;
    if FullReports(reg, votes) && HighestSlot(votes).Some? {
      ReportsAfterVote(reg, r, target, sender, report);
      TopIsBacked(r, target, sender, report);
      AssembledNewViewOk(reg, r, target, votes);
      var top := HighestSlot(votes).value;
      SelectPreparedIsHighest(reg, r, target, top.seqno, top.digest);
    }
  }

  /** The report of a justified row is backed in the replayed state. */
  lemma JustifiedReportBacked(reg: Registry, r: Core, log: Log, rec: Record)
    requires reg.nodes > 0 && RowJustified(reg, log, rec) && rec.phase == Code(ViewChange)
    requires Reads(reg, r, log) && Inv(reg, r)
    ensures rec.seqno > 0 ==>
      && Backed(r.prepared, rec.view, rec.seqno, rec.digest)
      && HasEarlierPrepared(reg, r.prepared, rec.view, rec.seqno, rec.digest)
  {
    hide Full, FullReports;
    if rec.seqno > 0 {
      var v: nat :| v < rec.view && Full(reg, LoggedVotes(log, Code(Prepare), Ballot(v, rec.seqno, rec.digest)));
      PreparedFromLog(reg, r, log, Ballot(v, rec.seqno, rec.digest));
      assert Backed(r.prepared, rec.view, rec.seqno, rec.digest);
      EarlierPreparedIsBacked(reg, r, rec.view, rec.seqno, rec.digest);
    }
  }

  /** A justified view-change row is refused only by an ambiguous quorum. */
  lemma ViewChangeRowIff(reg: Registry, r: Core, log: Log, rec: Record)
    requires reg.nodes > 0 && Justified(reg, log) && RowJustified(reg, log, rec) && rec.phase == Code(ViewChange)
    requires Reads(reg, r, log) && Inv(reg, r) && ReportsAre(r.viewChangeVotes, log)
    ensures RowViewChange(reg, r, rec).Recovered? <==>
      (FullReports(reg, LoggedReports(log + [rec], rec.view)) ==>
         HighestSlot(LoggedReports(log + [rec], rec.view)).Some?)
  {
    var report := Report(rec.seqno, rec.digest, rec.signature);
    assert rec.sender < reg.nodes && ReportOk(reg, rec.view, rec.sender, report);
    assert ReportsFor(r.viewChangeVotes, rec.view) == LoggedReports(log, rec.view);
    hide Full, FullReports, Justified, RowJustified, Reads, Inv, ReportsBacked, Backed, HasEarlierPrepared, NewViewOk;
    hide RowViewChange, HighestSlot, SelectPrepared, LoggedReports, ReportOk, ReportsAre;
    JustifiedReportBacked(reg, r, log, rec);
    ReplayedReportsBacked(reg, r, log);
    ReportsStep(log, rec, rec.view);
    BackedQuorumVerifies(reg, r, rec.view, rec.sender, report);
    AdmittedRowIff(reg, r, rec, LoggedReports(log + [rec], rec.view));
  }

  /** The highest of the reports for `target` is backed once all of them are. */
  lemma TopIsBacked(r: Core, target: nat, sender: nat, report: Report)
    requires ReportsBacked(0, r.prepared, r.viewChangeVotes)
    requires report.seqno > 0 ==> Backed(r.prepared, target, report.seqno, report.digest)
    ensures var top := HighestSlot(ReportsFor(r.viewChangeVotes, target)[sender := report]);
      top.Some? && top.value.seqno > 0 ==> Backed(r.prepared, target, top.value.seqno, top.value.digest)
  {
    var votes := ReportsFor(r.viewChangeVotes, target)[sender := report];
    var top := HighestSlot(votes);
    if top.Some? && top.value.seqno > 0 {
      var i :| i in votes && votes[i].seqno == top.value.seqno && votes[i].digest == top.value.digest;
      hide HighestSlot, Backed;
      assert i == sender || (target in r.viewChangeVotes && i in r.viewChangeVotes[target]);
    }
  }

  /** A justified row of a proposal, a vote or a checkpoint is refused only for a second value. */
  lemma OrdinaryRowIff(reg: Registry, r: Core, log: Log, rec: Record)
    requires reg.nodes > 0 && Combines(reg) && RowJustified(reg, log, rec) && rec.phase != Code(ViewChange)
    requires Reads(reg, r, log) && Inv(reg, r)
    ensures Row(reg, r, rec).Recovered? <==>
      (rec.phase == Code(PrePrepare) ==> FreshSlot(log, rec.Key()))
  {
    assert r.proposals == LoggedProposals(log);
    hide Inv, Reads, Combines;
    if rec.phase == Code(Prepare) || rec.phase == Code(Commit) {
      ReplayVoteRefusedIff(reg, r, rec);
      hide Full, RowPrepare, RowCommit;
      if rec.phase == Code(Commit) {
        PreparedFromLog(reg, r, log, rec.Key());
      }
    } else if rec.phase == Code(PrePrepare) {
      ProposalRowIff(reg, r, rec);
      hide RowPrePrepare, LoggedProposals;
    } else {
      hide Full;
    }
  }

  lemma ProposalRowIff(reg: Registry, r: Core, rec: Record)
    requires reg.nodes > 0 && rec.sender == reg.Leader(rec.view)
    ensures RowPrePrepare(reg, r, rec).Recovered? <==>
      forall k :: k in r.proposals && k.At() == rec.Key().At() ==> k.digest == rec.digest
  {
    assert forall k: Ballot :: k.At() == rec.Key().At() <==> k.view == rec.view && k.seqno == rec.seqno;
  }

  /** A justified row is refused only for a second value, or for an ambiguous quorum. */
  lemma RowReplaysIff(reg: Registry, r: Core, log: Log, rec: Record)
    requires reg.nodes > 0 && Combines(reg) && Justified(reg, log) && RowJustified(reg, log, rec)
    requires Reads(reg, r, log) && Inv(reg, r) && ReportsAre(r.viewChangeVotes, log)
    ensures Row(reg, r, rec).Recovered? <==>
      && (rec.phase == Code(PrePrepare) ==> FreshSlot(log, rec.Key()))
      && (rec.phase == Code(ViewChange) && FullReports(reg, LoggedReports(log + [rec], rec.view)) ==>
            HighestSlot(LoggedReports(log + [rec], rec.view)).Some?)
  {
    hide Inv, Justified, Reads, Combines, FullReports, HighestSlot, LoggedReports, RowViewChange;
    hide RowPrePrepare, RowPrepare, RowCommit, RowCheckpoint, FreshSlot, ReportsAre;
    assert Authentic(reg, rec);
    hide RowJustified;
    if rec.phase == Code(ViewChange) {
      ViewChangeRowIff(reg, r, log, rec);
    } else {
      OrdinaryRowIff(reg, r, log, rec);
    }
  }

  /** One row more keeps a log readable under the conditions of `RowReplaysIff`. */
  lemma ReadableStep(reg: Registry, log: Log, rec: Record)
    requires reg.nodes > 0 && RowJustified(reg, log, rec)
    ensures Readable(reg, log + [rec]) <==>
      && Readable(reg, log)
      && (rec.phase == Code(PrePrepare) ==> FreshSlot(log, rec.Key()))
      && (rec.phase == Code(ViewChange) && FullReports(reg, LoggedReports(log + [rec], rec.view)) ==>
            HighestSlot(LoggedReports(log + [rec], rec.view)).Some?)
  {
    OneValueStep(log, rec);
    ReportsAgreeStep(reg, log, rec);
    hide OneValuePerSlot, ReportsAgree, RowJustified, HighestSlot, FullReports, LoggedReports;
  }

  lemma OneValueStep(log: Log, rec: Record)
    ensures OneValuePerSlot(log + [rec]) <==>
      && OneValuePerSlot(log)
      && (rec.phase == Code(PrePrepare) ==> FreshSlot(log, rec.Key()))
  {
    LogStep(log, rec);
    var before, after := LoggedProposals(log), LoggedProposals(log + [rec]);
    hide LoggedProposals;
    if rec.phase == Code(PrePrepare) {
      if OneValuePerSlot(log + [rec]) {
        assert rec.Key() in after;
        assert forall k :: k in before ==> k in after;
      }
      assert forall k: Ballot :: k.At() == rec.Key().At() && k.digest == rec.digest ==> k == rec.Key();
    }
  }

  lemma ReportsAgreeStep(reg: Registry, log: Log, rec: Record)
    requires reg.nodes > 0 && RowJustified(reg, log, rec)
    ensures ReportsAgree(reg, log + [rec]) <==>
      && ReportsAgree(reg, log)
      && (rec.phase == Code(ViewChange) && FullReports(reg, LoggedReports(log + [rec], rec.view)) ==>
            HighestSlot(LoggedReports(log + [rec], rec.view)).Some?)
  {
    ReportersAreKeys(log, rec.view);
    MapSize(LoggedReports(log, rec.view));
    assert rec.phase == Code(ViewChange) ==> !FullReports(reg, LoggedReports(log, rec.view));
    hide FullReports, HighestSlot, RowJustified;
    forall t: nat
      ensures t != rec.view || rec.phase != Code(ViewChange) ==>
        LoggedReports(log + [rec], t) == LoggedReports(log, t)
    {
      ReportsStep(log, rec, t);
    }
    hide LoggedReports;
  }

  /** A log of justified rows replays exactly when it is readable. */
  lemma {:induction false} FoldIff(reg: Registry, log: Log)
    requires reg.nodes > 0 && Combines(reg) && Justified(reg, log)
    ensures Fold(reg, log).Recovered? <==> Readable(reg, log)
  {
    if |log| == 0 {
      EmptyReportsNotFull(reg);
    } else {
      hide Full, FullReports, Row, Reads, ReportsAre, Readable, RowJustified, Combines, Inv, HighestSlot, LoggedReports;
      var init, last := log[..|log| - 1], log[|log| - 1];
      assert init + [last] == log;
      FoldIff(reg, init);
      ReadableStep(reg, init, last);
      if Fold(reg, init).Recovered? {
        FoldReads(reg, init);
        FoldInv(reg, init);
        FoldReportsAre(reg, init);
        RowReplaysIff(reg, Fold(reg, init).state, init, last);
      }
    }
  }

  lemma EmptyReportsNotFull(reg: Registry)
    ensures !FullReports(reg, map[])
  {
  }

  // ------------------------------------------------------------ what the handler keeps

  /** Every live proposal and Prepare vote is still in the log, at any sequence. */
  ghost predicate Kept(s: Core, log: Log) {
    && s.proposals <= LoggedProposals(log)
    && forall k: Ballot :: VotesFor(s.prepareVotes, k).Keys <= LoggedVotes(log, Code(Prepare), k).Keys
  }

  lemma KeptFull(reg: Registry, s: Core, log: Log, k: Ballot)
    requires Kept(s, log) && PreparedFor(s.prepared, k)
    requires CertificatesExact(reg, Prepare, s.prepareVotes, s.prepared)
    ensures Full(reg, LoggedVotes(log, Code(Prepare), k))
  {
    assert CertificateBacked(reg, Prepare, s.prepareVotes, k.At(), s.prepared[k.At()]);
    assert Ballot(k.view, k.seqno, s.prepared[k.At()].digest) == k;
    var votes := VotesFor(s.prepareVotes, k);
    SubsetSize(votes.Keys, LoggedVotes(log, Code(Prepare), k).Keys);
    MapSize(votes);
    MapSize(LoggedVotes(log, Code(Prepare), k));
  }

  /** An ordinary message is of a known proposal, and a Commit of a prepared one. */
  lemma OrdinaryJustified(reg: Registry, s: Core, log: Log, m: Message)
    requires reg.nodes > 0 && Inv(reg, s) && Kept(s, log)
    requires Handle(reg, s, m).Accepted? && m.phase != ViewChange
    ensures m.phase == PrePrepare ==> m.sender == reg.Leader(m.view)
    ensures m.phase == Prepare || m.phase == Commit ==> m.Key() in LoggedProposals(log)
    ensures m.phase == Commit ==> Full(reg, LoggedVotes(log, Code(Prepare), m.Key()))
  {
    assert CertificatesExact(reg, Prepare, s.prepareVotes, s.prepared);
    if m.phase == Commit {
      HasPreparedIsLookup(reg, s, m.Key());
      hide Inv, Full, LoggedVotes, LoggedProposals, HasPrepared, CertificatesExact, CountedCommit, OnCheckpoint;
      KeptFull(reg, s, log, m.Key());
    } else {
      hide Inv, Full, LoggedVotes, LoggedProposals, CountedPrepare, OnCheckpoint;
    }
  }

  lemma ReportJustified(reg: Registry, s: Core, log: Log, m: Message)
    requires reg.nodes > 0 && Inv(reg, s) && Logged(reg, s, log) && Kept(s, log)
    requires m.phase == ViewChange && OnViewChange(reg, s, m).Accepted?
    ensures m.seqno > 0 ==> PreparedInLog(reg, log, m.view, m.seqno, m.digest)
    ensures |LoggedReporters(log, m.view)| < reg.Quorum()
  {
    LiveBoundsViews(reg, s, log);
    OnViewChangeShape(reg, s, m);
    AdmittedPrepared(reg, s, log, m);
    hide Inv, Logged, OnViewChange, PreparedInLog;
  }

  /** Whatever the handler accepts, the log already justifies. */
  lemma AcceptedJustified(reg: Registry, s: Core, log: Log, m: Message)
    requires reg.nodes > 0 && Inv(reg, s) && Logged(reg, s, log) && Kept(s, log)
    requires Handle(reg, s, m).Accepted?
    ensures RowJustified(reg, log, RecordOf(m))
  {
    hide Inv, Logged, Kept, Full, LoggedVotes, LoggedProposals, PreparedInLog, LoggedReporters;
    hide OnPrePrepare, OnPrepare, OnCommit, OnViewChange, OnCheckpoint;
    assert PhaseOf(RecordOf(m).phase) == m.phase && RecordOf(m).Key() == m.Key();
    if m.phase == ViewChange {
      ReportJustified(reg, s, log, m);
    } else {
      OrdinaryJustified(reg, s, log, m);
    }
  }

  lemma AdmittedPrepared(reg: Registry, s: Core, log: Log, m: Message)
    requires Inv(reg, s) && Kept(s, log) && OnViewChange(reg, s, m).Accepted?
    ensures m.seqno > 0 ==> PreparedInLog(reg, log, m.view, m.seqno, m.digest)
  {
    if m.seqno > 0 {
      hide Full, FullReports, NewViewOk, HighestSlot, LoggedVotes, Kept;
      assert m.view > s.view && HasPreparedValue(reg, s.prepared, m.seqno, m.digest);
      PreparedValueIsEarlier(reg, s, m.view, m.seqno, m.digest);
      EarlierPreparedIsBacked(reg, s, m.view, m.seqno, m.digest);
      var v: nat :| v < m.view && PreparedFor(s.prepared, Ballot(v, m.seqno, m.digest));
      KeptFull(reg, s, log, Ballot(v, m.seqno, m.digest));
    }
  }

  lemma KeptGrows(s: Core, log: Log, rec: Record)
    requires Kept(s, log)
    ensures Kept(s, log + [rec])
  {
    LogStep(log, rec);
  }

  lemma ProposalKept(s: Core, t: Core, log: Log, rec: Record)
    requires Kept(s, log) && rec.phase == Code(PrePrepare)
    requires t.proposals == s.proposals + {rec.Key()} && t.prepareVotes == s.prepareVotes
    ensures Kept(t, log + [rec])
  {
    LogStep(log, rec);
  }

  lemma PrepareKept(s: Core, t: Core, log: Log, rec: Record)
    requires Kept(s, log) && rec.phase == Code(Prepare)
    requires t.proposals == s.proposals
      && t.prepareVotes == AddVote(s.prepareVotes, rec.Key(), rec.sender, rec.signature)
    ensures Kept(t, log + [rec])
  {
    LogStep(log, rec);
  }

  /** Fewer proposals and votes are kept all the more. */
  lemma KeptFewer(s: Core, t: Core, log: Log)
    requires Kept(s, log) && t.proposals <= s.proposals
    requires forall k: Ballot :: VotesFor(t.prepareVotes, k).Keys <= VotesFor(s.prepareVotes, k).Keys
    ensures Kept(t, log)
  {
  }

  lemma CollectFewer(s: Core, floor: nat)
    ensures Collect(s, floor).proposals <= s.proposals && Collect(s, floor).viewChangeVotes == s.viewChangeVotes
    ensures forall k: Ballot :: VotesFor(Collect(s, floor).prepareVotes, k).Keys <= VotesFor(s.prepareVotes, k).Keys
  {
  }

  /** What an accepted message does to proposals, Prepare votes and reports. */
  ghost predicate TablesStep(s: Core, m: Message, t: Core) {
    && t.viewChangeVotes == (if m.phase == ViewChange
         then AddReport(s.viewChangeVotes, m.view, m.sender, Report(m.seqno, m.digest, m.signature))
         else s.viewChangeVotes)
    && match m.phase
       case PrePrepare => t.proposals == s.proposals + {m.Key()} && t.prepareVotes == s.prepareVotes
       case Prepare =>
         t.proposals == s.proposals && t.prepareVotes == AddVote(s.prepareVotes, m.Key(), m.sender, m.signature)
       case Checkpoint =>
         && t.proposals <= s.proposals
         && forall k: Ballot :: VotesFor(t.prepareVotes, k).Keys <= VotesFor(s.prepareVotes, k).Keys
       case _ => t.proposals == s.proposals && t.prepareVotes == s.prepareVotes
  }

  lemma PrePrepareTables(reg: Registry, s: Core, m: Message)
    requires reg.nodes > 0 && m.phase == PrePrepare && OnPrePrepare(reg, s, m).Accepted?
    ensures TablesStep(s, m, OnPrePrepare(reg, s, m).state)
  {
  }

  lemma PrepareTables(reg: Registry, s: Core, m: Message)
    requires m.phase == Prepare && OnPrepare(reg, s, m).Accepted?
    ensures TablesStep(s, m, OnPrepare(reg, s, m).state)
  {
    hide Full, AddVote, Certify;
  }

  lemma CommitTables(reg: Registry, s: Core, m: Message)
    requires m.phase == Commit && OnCommit(reg, s, m).Accepted?
    ensures TablesStep(s, m, OnCommit(reg, s, m).state)
  {
    hide Full, AddVote, Certify, Decide, HasPrepared;
  }

  lemma CheckpointTables(reg: Registry, s: Core, m: Message)
    requires m.phase == Checkpoint && OnCheckpoint(reg, s, m).Accepted?
    ensures TablesStep(s, m, OnCheckpoint(reg, s, m).state)
  {
    var voted := s.(checkpointVotes := AddVote(s.checkpointVotes, m.Key(), m.sender, m.signature), stable := m.seqno);
    CollectFewer(voted, m.seqno);
    hide Full, Collect, AddVote, VotesFor;
  }

  lemma HandleTables(reg: Registry, s: Core, m: Message)
    requires reg.nodes > 0 && Handle(reg, s, m).Accepted?
    ensures TablesStep(s, m, Handle(reg, s, m).state)
  {
    hide TablesStep, OnPrePrepare, OnPrepare, OnCommit, OnViewChange, OnCheckpoint;
    match m.phase {
      case PrePrepare => PrePrepareTables(reg, s, m);
      case Prepare => PrepareTables(reg, s, m);
      case Commit => CommitTables(reg, s, m);
      case ViewChange =>
        OnViewChangeShape(reg, s, m);
        ShapeTables(s, m, OnViewChange(reg, s, m).state);
      case Checkpoint => CheckpointTables(reg, s, m);
    }
  }

  lemma ShapeTables(s: Core, m: Message, t: Core)
    requires m.phase == ViewChange
    requires t == s.(view := t.view, highestSeq := t.highestSeq, newViews := t.newViews,
                     viewChangeVotes := AddReport(s.viewChangeVotes, m.view, m.sender,
                       Report(m.seqno, m.digest, m.signature)))
    ensures TablesStep(s, m, t)
  {
  }

  lemma HandleKept(reg: Registry, s: Core, log: Log, m: Message)
    requires reg.nodes > 0 && Kept(s, log) && Handle(reg, s, m).Accepted?
    ensures Kept(Handle(reg, s, m).state, log + [RecordOf(m)])
  {
    var rec := RecordOf(m);
    HandleTables(reg, s, m);
    hide Handle, AddVote, LoggedVotes, LoggedProposals;
    var t := Handle(reg, s, m).state;
    KeptGrows(s, log, rec);
    match m.phase {
      case PrePrepare => ProposalKept(s, t, log, rec);
      case Prepare => PrepareKept(s, t, log, rec);
      case _ => KeptFewer(s, t, log + [rec]);
    }
  }

  /** A state with nothing at or below the floor loses nothing to pruning. */
  lemma PrunedKept(s: Core, log: Log, floor: nat)
    requires Kept(s, log) && forall k :: k in s.proposals ==> k.seqno > floor
    requires forall k :: k in s.prepareVotes ==> k.seqno > floor
    ensures Kept(s, Prune(log, floor))
  {
    PrunedProposals(log, floor);
    forall k: Ballot ensures VotesFor(s.prepareVotes, k).Keys <= LoggedVotes(Prune(log, floor), Code(Prepare), k).Keys {
      PrunedVotes(log, floor, Code(Prepare), k);
    }
  }

  lemma StabilizedAbove(reg: Registry, s: Core, m: Message)
    requires reg.nodes > 0 && Handle(reg, s, m).Accepted? && Handle(reg, s, m).response == CheckpointStabilized
    ensures forall k :: k in Handle(reg, s, m).state.proposals ==> k.seqno > m.seqno
    ensures forall k :: k in Handle(reg, s, m).state.prepareVotes ==> k.seqno > m.seqno
  {
    hide Full, FullReports, OnPrePrepare, OnPrepare, OnCommit, OnViewChange, CertificatesAbove, DigestsAbove;
  }

  lemma ReplayKept(reg: Registry, log: Log)
    requires reg.nodes > 0 && Replay(reg, log).Recovered?
    ensures Kept(Replay(reg, log).state, log)
  {
    var r := Fold(reg, log).state;
    FoldReads(reg, log);
    assert r.proposals == LoggedProposals(log) && TableReads(r.prepareVotes, log, Code(Prepare), -1);
    CollectFewer(r, r.stable);
    hide Fold, Reads, Collect;
    assert Kept(r, log);
    KeptFewer(r, Finish(r), log);
  }

  // --------------------------------------------------------------------- whole runs

  /** The log of the node, with the record its last append may have left, is of justified rows. */
  ghost predicate NodeJustified(reg: Registry, node: Node)
    requires reg.nodes > 0
  {
    && Justified(reg, node.log) && Kept(node.live, node.log)
    && (node.tail.Whole? ==> Justified(reg, node.log + [node.tail.rec]))
  }

  lemma DeliverHandledJustified(reg: Registry, node: Node, m: Message, fate: Fate, o: Outcome)
    requires reg.nodes > 0 && NodeJustified(reg, node) && !node.failed
    requires o.Accepted? ==>
      && Justified(reg, node.log + [RecordOf(m)]) && Kept(o.state, node.log + [RecordOf(m)])
      && (o.response == CheckpointStabilized ==>
            && Justified(reg, Prune(node.log + [RecordOf(m)], m.seqno))
            && Kept(o.state, Prune(node.log + [RecordOf(m)], m.seqno)))
    requires !node.failed ==> node.tail == Clean
    ensures NodeJustified(reg, DeliverHandled(node, m, fate, o).0)
  {
    hide Justified, Kept, Prune;
  }

  lemma DeliverJustified(reg: Registry, node: Node, m: Message, fate: Fate)
    requires reg.nodes > 0 && NodeOk(reg, node) && NodeJustified(reg, node)
    ensures NodeJustified(reg, Deliver(reg, node, m, fate).0)
  {
    if !node.failed {
      var o, log := Handle(reg, node.live, m), node.log + [RecordOf(m)];
      hide Inv, Logged, Justified, Kept, Handle, DeliverHandled, RowJustified;
      if o.Accepted? {
        AcceptedJustified(reg, node.live, node.log, m);
        JustifiedStep(reg, node.log, RecordOf(m));
        HandleKept(reg, node.live, node.log, m);
        if o.response == CheckpointStabilized {
          PrunedJustified(reg, log, m.seqno);
          StabilizedAbove(reg, node.live, m);
          PrunedKept(o.state, log, m.seqno);
        }
      }
      DeliverHandledJustified(reg, node, m, fate, o);
    }
  }

  lemma AfterJustified(reg: Registry, node: Node, e: Event)
    requires reg.nodes > 0 && NodeOk(reg, node) && NodeJustified(reg, node)
    ensures NodeJustified(reg, After(reg, node, e))
  {
    hide NodeOk, Deliver, Replay, Kept, Justified;
    match e {
      case Arrives(m, fate) => DeliverJustified(reg, node, m, fate);
      case Reboot =>
        if Restart(reg, node).Some? {
          ReplayKept(reg, OnDisk(node).value);
        }
    }
  }

  lemma {:induction false} RunJustified(reg: Registry, events: seq<Event>)
    requires reg.nodes > 0
    ensures NodeJustified(reg, Run(reg, events))
  {
    hide NodeJustified, NodeOk, After;
    if |events| == 0 {
      FreshJustified(reg);
    } else {
      RunJustified(reg, events[..|events| - 1]);
      RunOk(reg, events[..|events| - 1]);
      AfterJustified(reg, Run(reg, events[..|events| - 1]), events[|events| - 1]);
    }
  }

  lemma FreshJustified(reg: Registry)
    requires reg.nodes > 0
    ensures NodeJustified(reg, FRESH)
  {
  }

  lemma ReplayIff(reg: Registry, log: Log)
    requires reg.nodes > 0 && Combines(reg) && Justified(reg, log)
    ensures Replay(reg, log).Recovered? <==> Readable(reg, log)
  {
    hide Readable, Justified, Combines, Fold;
    FoldIff(reg, log);
  }

  /**
   The exact condition of a restart, in every run: the file does not end in a torn record,
   its rows hold one value for every slot, and no logged quorum of reports is ambiguous.
   */
  lemma RestartIff(reg: Registry, events: seq<Event>)
    requires reg.nodes > 0 && Combines(reg)
    ensures var node := Run(reg, events);
      && (Restart(reg, node).Some? <==> OnDisk(node).Some? && Readable(reg, OnDisk(node).value))
      && (Replay(reg, node.log).Recovered? <==> Readable(reg, node.log))
  {
    RunJustified(reg, events);
    var node := Run(reg, events);
    hide Run, Readable, Justified, Kept, Combines, Replay;
    ReplayIff(reg, node.log);
    if node.tail.Whole? {
      ReplayIff(reg, node.log + [node.tail.rec]);
    }
  }

  /** In every run, a readable log gives back the stable checkpoint and everything above it. */
  lemma ReadableRunReplays(reg: Registry, events: seq<Event>)
    requires reg.nodes > 0 && Combines(reg) && Readable(reg, Run(reg, events).log)
    ensures var node := Run(reg, events);
      && Replay(reg, node.log).Recovered?
      && (var r := Replay(reg, node.log).state;
          r.stable == node.live.stable && r.view <= node.live.view && SameAbove(r, node.live, node.live.stable))
  {
    hide Readable, Combines, Replay, SameAbove;
    RestartIff(reg, events);
    RunReplayAgreesAbove(reg, events);
  }
}
