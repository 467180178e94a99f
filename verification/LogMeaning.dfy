/**
 What a log says on its own, read off its rows without running the protocol:
 the ballots proposed, the votes cast for each ballot, the view-change voters.
 Replay and the live handler are both compared with this reading.
 */
module LogMeaning {
  import opened Base
  import opened Protocol
  import opened Recovery
  import opened Invariants

  function LoggedProposals(log: Log): set<Ballot> {
    if |log| == 0 then {}
    else
      var rec := log[|log| - 1];
      LoggedProposals(log[..|log| - 1]) + if rec.phase == Code(PrePrepare) then {rec.Key()} else {}
  }

  /** The last vote of every sender, of the given phase, for ballot `k`. */
  function LoggedVotes(log: Log, code: nat, k: Ballot): Votes {
    if |log| == 0 then map[]
    else
      var rec := log[|log| - 1];
      var before := LoggedVotes(log[..|log| - 1], code, k);
      if rec.phase == code && rec.Key() == k then before[rec.sender := rec.signature] else before
  }

  function LoggedReporters(log: Log, target: nat): set<nat> {
    if |log| == 0 then {}
    else
      var rec := log[|log| - 1];
      LoggedReporters(log[..|log| - 1], target)
        + if rec.phase == Code(ViewChange) && rec.view == target then {rec.sender} else {}
  }

  /** Ordinary rows are of views up to `view`. */
  predicate OrdinaryBelow(log: Log, view: nat) {
    forall i :: 0 <= i < |log| && log[i].phase <= Code(Commit) ==> log[i].view <= view
  }

  lemma LogStep(log: Log, rec: Record)
    ensures LoggedProposals(log + [rec]) ==
      LoggedProposals(log) + if rec.phase == Code(PrePrepare) then {rec.Key()} else {}
    ensures forall code, k :: (
      LoggedVotes(log + [rec], code, k) ==
        if rec.phase == code && rec.Key() == k then LoggedVotes(log, code, k)[rec.sender := rec.signature]
        else LoggedVotes(log, code, k))
    ensures forall t :: (
      LoggedReporters(log + [rec], t) ==
        LoggedReporters(log, t) + if rec.phase == Code(ViewChange) && rec.view == t then {rec.sender} else {})
    ensures forall view :: OrdinaryBelow(log + [rec], view) <==>
      OrdinaryBelow(log, view) && (rec.phase <= Code(Commit) ==> rec.view <= view)
  {
    assert (log + [rec])[..|log|] == log;
    forall view ensures OrdinaryBelow(log + [rec], view) <==>
      OrdinaryBelow(log, view) && (rec.phase <= Code(Commit) ==> rec.view <= view) {
      assert forall i :: 0 <= i < |log| ==> (log + [rec])[i] == log[i];
      assert (log + [rec])[|log|] == rec;
    }
  }

  // ---------------------------------------------------------------- pruned logs

  lemma {:induction false} PrunedRows(log: Log, floor: nat)
    ensures forall i :: 0 <= i < |Prune(log, floor)| ==>
      Prune(log, floor)[i] in log && Prune(log, floor)[i].seqno >= floor
  {
    if |log| > 0 {
      PrunedRows(log[..|log| - 1], floor);
    }
  }

  /** Pruning goes row by row: each is kept, in its place, exactly if it is at or above the floor. */
  lemma {:induction false} PruneByRow(a: Log, rec: Record, b: Log, floor: nat)
    ensures Prune(a + [rec] + b, floor) ==
      Prune(a, floor) + (if rec.seqno >= floor then [rec] else []) + Prune(b, floor)
  {
    var log := a + [rec] + b;
    if |b| == 0 {
      assert log[..|a|] == a && log[|a|] == rec;
      assert log == a + [rec];
    } else {
      var init := b[..|b| - 1];
      PruneByRow(a, rec, init, floor);
      assert log[..|log| - 1] == a + [rec] + init && log[|log| - 1] == b[|b| - 1];
    }
  }

  lemma {:induction false} PrunedProposals(log: Log, floor: nat)
    ensures LoggedProposals(Prune(log, floor)) == set k | k in LoggedProposals(log) && k.seqno >= floor
  {
    if |log| > 0 {
      var init, last := log[..|log| - 1], log[|log| - 1];
      PrunedProposals(init, floor);
      LogStep(Prune(init, floor), last);
      assert Prune(init, floor) + [] == Prune(init, floor);
    }
  }

  /** Pruning keeps every vote at or above the floor and drops every vote below it. */
  lemma {:induction false} PrunedVotes(log: Log, floor: nat, code: nat, k: Ballot)
    ensures LoggedVotes(Prune(log, floor), code, k) == if k.seqno >= floor then LoggedVotes(log, code, k) else map[]
  {
    if |log| > 0 {
      var init, last := log[..|log| - 1], log[|log| - 1];
      PrunedVotes(init, floor, code, k);
      LogStep(Prune(init, floor), last);
      assert Prune(init, floor) + [] == Prune(init, floor);
    }
  }

  lemma {:induction false} PrunedReporters(log: Log, floor: nat, target: nat)
    ensures LoggedReporters(Prune(log, floor), target) <= LoggedReporters(log, target)
  {
    if |log| > 0 {
      var init, last := log[..|log| - 1], log[|log| - 1];
      PrunedReporters(init, floor, target);
      LogStep(Prune(init, floor), last);
      assert Prune(init, floor) + [] == Prune(init, floor);
    }
  }

  lemma PrunedOrdinary(log: Log, floor: nat, view: nat)
    requires OrdinaryBelow(log, view)
    ensures OrdinaryBelow(Prune(log, floor), view)
  {
    hide Full, FullReports;
    PrunedRows(log, floor);
  }

  // ------------------------------------------------- what replay makes of the log

  ghost predicate TableReads(table: VoteTable, log: Log, code: nat, floor: int) {
    forall k: Ballot :: k.seqno > floor ==> VotesFor(table, k) == LoggedVotes(log, code, k)
  }

  ghost predicate ReportsRead(table: ReportTable, log: Log) {
    forall t :: ReportsFor(table, t).Keys == LoggedReporters(log, t)
  }

  ghost predicate CheckpointQuorum(reg: Registry, log: Log, k: Ballot) {
    Full(reg, LoggedVotes(log, Code(Checkpoint), k))
  }

  /** The stable checkpoint is the highest sequence with a logged checkpoint quorum. */
  ghost predicate StableReads(reg: Registry, log: Log, stable: nat, view: nat) {
    && (stable > 0 ==> exists k: Ballot :: k.seqno == stable && CheckpointQuorum(reg, log, k))
    && (forall k: Ballot :: CheckpointQuorum(reg, log, k) ==> k.seqno <= stable && k.view <= view)
  }

  /** State `r` reads the log exactly. */
  ghost predicate Reads(reg: Registry, r: Core, log: Log) {
    && r.proposals == LoggedProposals(log)
    && TableReads(r.prepareVotes, log, Code(Prepare), -1)
    && TableReads(r.commitVotes, log, Code(Commit), -1)
    && TableReads(r.checkpointVotes, log, Code(Checkpoint), -1)
    && ReportsRead(r.viewChangeVotes, log)
    && StableReads(reg, log, r.stable, r.view)
    && OrdinaryBelow(log, r.view)
  }

  lemma VoteReads(table: VoteTable, log: Log, code: nat, floor: int, rec: Record)
    requires TableReads(table, log, code, floor) && rec.phase == code
    ensures TableReads(AddVote(table, rec.Key(), rec.sender, rec.signature), log + [rec], code, floor)
  {
    LogStep(log, rec);
  }

  lemma OtherReads(table: VoteTable, log: Log, code: nat, floor: int, rec: Record)
    requires TableReads(table, log, code, floor) && rec.phase != code
    ensures TableReads(table, log + [rec], code, floor)
  {
    LogStep(log, rec);
  }

  /** A vote table after a row that may be a vote for it. */
  function VotesIf(code: nat, table: VoteTable, rec: Record): VoteTable {
    if rec.phase == code then AddVote(table, rec.Key(), rec.sender, rec.signature) else table
  }

  lemma VotesIfRead(table: VoteTable, log: Log, code: nat, floor: int, rec: Record)
    requires TableReads(table, log, code, floor)
    ensures TableReads(VotesIf(code, table, rec), log + [rec], code, floor)
  {
    hide TableReads;
    if rec.phase == code {
      VoteReads(table, log, code, floor, rec);
    } else {
      OtherReads(table, log, code, floor, rec);
    }
  }

  lemma QuorumStays(reg: Registry, log: Log, rec: Record, k: Ballot)
    requires CheckpointQuorum(reg, log, k)
    ensures CheckpointQuorum(reg, log + [rec], k)
  {
    hide Full, FullReports;
    LogStep(log, rec);
    FullStays(reg, LoggedVotes(log, Code(Checkpoint), k), rec.sender, rec.signature);
  }

  lemma ReportReads(table: ReportTable, log: Log, rec: Record)
    requires ReportsRead(table, log)
    ensures var report := Report(rec.seqno, rec.digest, rec.signature);
      ReportsRead(if rec.phase == Code(ViewChange) then AddReport(table, rec.view, rec.sender, report) else table,
                  log + [rec])
  {
    LogStep(log, rec);
    var report := Report(rec.seqno, rec.digest, rec.signature);
    var next := AddReport(table, rec.view, rec.sender, report);
    forall t | rec.phase == Code(ViewChange) ensures ReportsFor(next, t).Keys == LoggedReporters(log + [rec], t) {
      if t == rec.view {
        assert ReportsFor(next, t).Keys == ReportsFor(table, t).Keys + {rec.sender};
      } else {
        assert ReportsFor(next, t) == ReportsFor(table, t);
      }
    }
  }

  /** A row that completes no checkpoint quorum leaves the stable checkpoint where it was. */
  lemma StableStays(reg: Registry, log: Log, rec: Record, stable: nat, view: nat, view': nat)
    requires StableReads(reg, log, stable, view) && view' >= view
    requires rec.phase == Code(Checkpoint) ==> !CheckpointQuorum(reg, log + [rec], rec.Key())
    ensures StableReads(reg, log + [rec], stable, view')
  {
    hide Full, FullReports;
    LogStep(log, rec);
    if stable > 0 {
      var k: Ballot :| k.seqno == stable && CheckpointQuorum(reg, log, k);
      QuorumStays(reg, log, rec, k);
    }
    forall k: Ballot | CheckpointQuorum(reg, log + [rec], k) ensures k.seqno <= stable && k.view <= view' {
      assert CheckpointQuorum(reg, log, k);
    }
  }

  lemma StableMoves(reg: Registry, log: Log, rec: Record, stable: nat, view: nat, view': nat)
    requires StableReads(reg, log, stable, view) && view' >= view && view' >= rec.view
    requires rec.phase == Code(Checkpoint) && CheckpointQuorum(reg, log + [rec], rec.Key())
    ensures StableReads(reg, log + [rec], Max(stable, rec.seqno), view')
  {
    hide Full, FullReports;
    LogStep(log, rec);
    if stable > rec.seqno {
      var k: Ballot :| k.seqno == stable && CheckpointQuorum(reg, log, k);
      QuorumStays(reg, log, rec, k);
    } else if rec.seqno > 0 {
      assert rec.Key().seqno == rec.seqno;
    }
    forall k: Ballot | CheckpointQuorum(reg, log + [rec], k)
      ensures k.seqno <= Max(stable, rec.seqno) && k.view <= view'
    {
      if k != rec.Key() {
        assert CheckpointQuorum(reg, log, k);
      }
    }
  }

  lemma TablesRead(r: Core, log: Log, rec: Record, t: Core)
    requires TableReads(r.prepareVotes, log, Code(Prepare), -1) && TableReads(r.commitVotes, log, Code(Commit), -1)
      && TableReads(r.checkpointVotes, log, Code(Checkpoint), -1)
    requires t.prepareVotes == VotesIf(Code(Prepare), r.prepareVotes, rec)
    requires t.commitVotes == VotesIf(Code(Commit), r.commitVotes, rec)
    requires t.checkpointVotes == VotesIf(Code(Checkpoint), r.checkpointVotes, rec)
    ensures TableReads(t.prepareVotes, log + [rec], Code(Prepare), -1)
      && TableReads(t.commitVotes, log + [rec], Code(Commit), -1)
         && TableReads(t.checkpointVotes, log + [rec], Code(Checkpoint), -1)
  {
    hide Full, FullReports, TableReads;
    VotesIfRead(r.prepareVotes, log, Code(Prepare), -1, rec);
    VotesIfRead(r.commitVotes, log, Code(Commit), -1, rec);
    VotesIfRead(r.checkpointVotes, log, Code(Checkpoint), -1, rec);
  }

  /** What a successful row adds to the tables of ordinary ballots. */
  ghost predicate RowBallots(r: Core, rec: Record, t: Core) {
    && t.proposals == r.proposals + (if rec.phase == Code(PrePrepare) then {rec.Key()} else {})
    && t.prepareVotes == VotesIf(Code(Prepare), r.prepareVotes, rec)
    && t.commitVotes == VotesIf(Code(Commit), r.commitVotes, rec)
  }

  /** What it adds to the tables of view changes and checkpoints. */
  ghost predicate RowReports(r: Core, rec: Record, t: Core) {
    && t.checkpointVotes == VotesIf(Code(Checkpoint), r.checkpointVotes, rec)
    && t.viewChangeVotes == (if rec.phase == Code(ViewChange)
         then AddReport(r.viewChangeVotes, rec.view, rec.sender, Report(rec.seqno, rec.digest, rec.signature))
         else r.viewChangeVotes)
  }

  /** Whether the row, once in the tables of `t`, is evidence for its view. */
  predicate Evident(reg: Registry, rec: Record, t: Core) {
    || rec.phase <= Code(Commit)
    || (rec.phase == Code(ViewChange) && FullReports(reg, ReportsFor(t.viewChangeVotes, rec.view)))
    || (rec.phase == Code(Checkpoint) && Full(reg, VotesFor(t.checkpointVotes, rec.Key())))
  }

  ghost predicate RowScalars(reg: Registry, r: Core, rec: Record, t: Core) {
    && t.stable ==
         (if rec.phase == Code(Checkpoint) && Evident(reg, rec, t) then Max(r.stable, rec.seqno) else r.stable)
    && t.view == (if Evident(reg, rec, t) then Max(r.view, rec.view) else r.view)
  }

  /** All that a successful row does to the tables and to the scalars the log determines. */
  ghost predicate RowDoes(reg: Registry, r: Core, rec: Record, t: Core) {
    RowBallots(r, rec, t) && RowReports(r, rec, t) && RowScalars(reg, r, rec, t)
  }

  lemma ProposalDoes(reg: Registry, r: Core, rec: Record)
    requires reg.nodes > 0 && rec.phase == Code(PrePrepare) && RowPrePrepare(reg, r, rec).Recovered?
    ensures RowDoes(reg, r, rec, RowPrePrepare(reg, r, rec).state)
  {
    hide Full, FullReports;
  }

  lemma VoteDoes(reg: Registry, r: Core, rec: Record)
    ensures rec.phase == Code(Prepare) && RowPrepare(reg, r, rec).Recovered? ==>
      RowDoes(reg, r, rec, RowPrepare(reg, r, rec).state)
    ensures rec.phase == Code(Commit) && RowCommit(reg, r, rec).Recovered? ==>
      RowDoes(reg, r, rec, RowCommit(reg, r, rec).state)
  {
    hide Full, FullReports, HasPrepared, AddVote, Certify, Decide;
  }

  lemma EnterViewKeeps(r: Core, nv: NewView)
    ensures EnterView(r, nv) == r.(view := Max(r.view, nv.target), newViews := EnterView(r, nv).newViews)
  {
  }

  lemma ViewChangeDoes(reg: Registry, r: Core, rec: Record)
    requires rec.phase == Code(ViewChange) && RowViewChange(reg, r, rec).Recovered?
    ensures RowDoes(reg, r, rec, RowViewChange(reg, r, rec).state)
  {
    hide Full, FullReports, NewViewOk, HighestSlot, SelectPrepared, HasEarlierPrepared, EnterView, AddReport;
    var next := ReportAt(Raise(r, rec), rec.view, rec.sender, Report(rec.seqno, rec.digest, rec.signature));
    forall nv { EnterViewKeeps(next, nv); }
  }

  lemma CheckpointDoes(reg: Registry, r: Core, rec: Record)
    requires rec.phase == Code(Checkpoint)
    ensures RowCheckpoint(reg, r, rec).Recovered? && RowDoes(reg, r, rec, RowCheckpoint(reg, r, rec).state)
  {
    hide Full, FullReports, AddVote;
    var next := VoteCheckpointAt(Raise(r, rec), rec.Key(), rec.sender, rec.signature);
    assert next == r.(view := r.view, highestSeq := next.highestSeq,
                      checkpointVotes := VotesIf(Code(Checkpoint), r.checkpointVotes, rec));
    hide Raise, VoteCheckpointAt;
    var t := RowCheckpoint(reg, r, rec).state;
    assert t == next.(view := t.view, stable := t.stable);
    assert RowBallots(r, rec, t) && RowReports(r, rec, t) && RowScalars(reg, r, rec, t);
  }

  lemma RowShape(reg: Registry, r: Core, rec: Record)
    requires reg.nodes > 0 && Row(reg, r, rec).Recovered?
    ensures var t := Row(reg, r, rec).state;
      RowBallots(r, rec, t) && RowReports(r, rec, t) && RowScalars(reg, r, rec, t) && rec.phase <= Code(Checkpoint)
  {
    hide Full, FullReports, RowBallots, RowReports, RowScalars, RowPrePrepare, RowPrepare, RowCommit, RowViewChange;
    hide RowCheckpoint;
    match rec.phase {
      case 0 => ProposalDoes(reg, r, rec);
      case 1 => VoteDoes(reg, r, rec);
      case 2 => VoteDoes(reg, r, rec);
      case 3 => ViewChangeDoes(reg, r, rec);
      case _ => CheckpointDoes(reg, r, rec);
    }
  }

  lemma RowReads(reg: Registry, r: Core, log: Log, rec: Record)
    requires reg.nodes > 0 && Reads(reg, r, log) && Row(reg, r, rec).Recovered?
    ensures Reads(reg, Row(reg, r, rec).state, log + [rec])
  {
    hide Full, FullReports, Row, TableReads, ReportsRead, StableReads, OrdinaryBelow;
    var t := Row(reg, r, rec).state;
    RowShape(reg, r, rec);
    LogStep(log, rec);
    TablesRead(r, log, rec, t);
    ReportReads(r.viewChangeVotes, log, rec);
    OrdinaryRises(log, r.view, t.view);
    StableAfterRow(reg, r, log, rec);
  }

  lemma OrdinaryRises(log: Log, view: nat, view': nat)
    requires OrdinaryBelow(log, view) && view <= view'
    ensures OrdinaryBelow(log, view')
  {
  }

  lemma StableAfterRow(reg: Registry, r: Core, log: Log, rec: Record)
    requires reg.nodes > 0 && Reads(reg, r, log) && Row(reg, r, rec).Recovered?
    ensures StableReads(reg, log + [rec], Row(reg, r, rec).state.stable, Row(reg, r, rec).state.view)
  {
    hide Full, FullReports, Row, StableReads, OrdinaryBelow, ReportsRead;
    var t := Row(reg, r, rec).state;
    RowShape(reg, r, rec);
    if rec.phase == Code(Checkpoint) {
      LogStep(log, rec);
      assert VotesFor(r.checkpointVotes, rec.Key()) == LoggedVotes(log, Code(Checkpoint), rec.Key());
      assert t.checkpointVotes[rec.Key()] == LoggedVotes(log + [rec], Code(Checkpoint), rec.Key());
      if CheckpointQuorum(reg, log + [rec], rec.Key()) {
        StableMoves(reg, log, rec, r.stable, r.view, t.view);
      } else {
        StableStays(reg, log, rec, r.stable, r.view, t.view);
      }
    } else {
      StableStays(reg, log, rec, r.stable, r.view, t.view);
    }
  }

  lemma EmptyReads(reg: Registry)
    ensures Reads(reg, INITIAL, [])
  {
  }

  lemma {:induction false} FoldReads(reg: Registry, log: Log)
    requires reg.nodes > 0 && Fold(reg, log).Recovered?
    ensures Reads(reg, Fold(reg, log).state, log)
  {
    hide Full, FullReports, Row, Reads;
    if |log| == 0 {
      EmptyReads(reg);
    } else {
      var init, last := log[..|log| - 1], log[|log| - 1];
      FoldReads(reg, init);
      RowReads(reg, Fold(reg, init).state, init, last);
      assert init + [last] == log;
    }
  }

  /** No evidence in the log for a view above `bound`. */
  ghost predicate ViewsBelow(reg: Registry, log: Log, bound: nat) {
    && OrdinaryBelow(log, bound)
    && (forall k: Ballot :: CheckpointQuorum(reg, log, k) ==> k.view <= bound)
    && (forall t: nat :: |LoggedReporters(log, t)| >= reg.Quorum() ==> t <= bound)
  }

  lemma ViewsBelowPrefix(reg: Registry, log: Log, rec: Record, bound: nat)
    requires ViewsBelow(reg, log + [rec], bound)
    ensures ViewsBelow(reg, log, bound)
  {
    hide Full, FullReports;
    LogStep(log, rec);
    forall k: Ballot | CheckpointQuorum(reg, log, k) ensures k.view <= bound {
      QuorumStays(reg, log, rec, k);
    }
    forall t: nat | |LoggedReporters(log, t)| >= reg.Quorum() ensures t <= bound {
      SubsetSize(LoggedReporters(log, t), LoggedReporters(log + [rec], t));
    }
  }

  lemma RowViewBelow(reg: Registry, r: Core, log: Log, rec: Record, bound: nat)
    requires reg.nodes > 0 && Reads(reg, r, log) && Row(reg, r, rec).Recovered?
    requires ViewsBelow(reg, log + [rec], bound) && r.view <= bound
    ensures Row(reg, r, rec).state.view <= bound
  {
    hide Row, StableReads;
    var t := Row(reg, r, rec).state;
    RowShape(reg, r, rec);
    LogStep(log, rec);
    if rec.phase == Code(ViewChange) {
      ReportReads(r.viewChangeVotes, log, rec);
      assert ReportsFor(t.viewChangeVotes, rec.view).Keys == LoggedReporters(log + [rec], rec.view);
      MapSize(t.viewChangeVotes[rec.view]);
    } else if rec.phase == Code(Checkpoint) {
      assert VotesFor(r.checkpointVotes, rec.Key()) == LoggedVotes(log, Code(Checkpoint), rec.Key());
      assert t.checkpointVotes[rec.Key()] == LoggedVotes(log + [rec], Code(Checkpoint), rec.Key());
      if Full(reg, t.checkpointVotes[rec.Key()]) {
        assert CheckpointQuorum(reg, log + [rec], rec.Key());
      }
    }
  }

  /** Replay never invents a view: it stays below any bound on the log's evidence. */
  lemma {:induction false} FoldViewBelow(reg: Registry, log: Log, bound: nat)
    requires reg.nodes > 0 && Fold(reg, log).Recovered? && ViewsBelow(reg, log, bound)
    ensures Fold(reg, log).state.view <= bound
  {
    hide Full, FullReports;
    if |log| > 0 {
      hide Row, Reads, ViewsBelow;
      var init, last := log[..|log| - 1], log[|log| - 1];
      assert init + [last] == log;
      ViewsBelowPrefix(reg, init, last, bound);
      FoldViewBelow(reg, init, bound);
      FoldReads(reg, init);
      RowViewBelow(reg, Fold(reg, init).state, init, last, bound);
    }
  }
}
