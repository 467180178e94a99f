/**
 Stable checkpoints, pruned logs and restarts. The live handler never re-reads its
 log, replay never saw the live state; above the stable checkpoint both agree with
 what the log itself says, so they agree with each other.
 */
module Compaction {
  import opened Base
  import opened Protocol
  import opened Recovery
  import opened Invariants
  import opened Durability
  import opened LogMeaning

  ghost predicate ProposalsRead(proposals: set<Ballot>, log: Log, floor: nat) {
    forall k: Ballot :: k.seqno > floor ==> (k in proposals <==> k in LoggedProposals(log))
  }

  ghost predicate ReportersKept(table: ReportTable, log: Log) {
    forall t: nat :: LoggedReporters(log, t) <= ReportsFor(table, t).Keys
  }

  /** Above the stable checkpoint, the log of the replica holds exactly what its state holds. */
  ghost predicate Logged(reg: Registry, s: Core, log: Log) {
    && ProposalsRead(s.proposals, log, s.stable)
    && TableReads(s.prepareVotes, log, Code(Prepare), s.stable)
    && TableReads(s.commitVotes, log, Code(Commit), s.stable)
    && TableReads(s.checkpointVotes, log, Code(Checkpoint), s.stable)
    && StableReads(reg, log, s.stable, s.view)
    && OrdinaryBelow(log, s.view)
    && ReportersKept(s.viewChangeVotes, log)
  }

  // ------------------------------------------------------------ the handler's steps

  lemma OtherProposals(proposals: set<Ballot>, log: Log, floor: nat, rec: Record)
    requires ProposalsRead(proposals, log, floor) && rec.phase != Code(PrePrepare)
    ensures ProposalsRead(proposals, log + [rec], floor)
  {
    LogStep(log, rec);
  }

  lemma OtherReporters(table: ReportTable, log: Log, rec: Record)
    requires ReportersKept(table, log) && rec.phase != Code(ViewChange)
    ensures ReportersKept(table, log + [rec])
  {
    LogStep(log, rec);
  }

  lemma OrdinaryGrows(log: Log, rec: Record, view: nat, view': nat)
    requires OrdinaryBelow(log, view) && view <= view' && (rec.phase <= Code(Commit) ==> rec.view <= view')
    ensures OrdinaryBelow(log + [rec], view')
  {
    OrdinaryRises(log, view, view');
    LogStep(log, rec);
  }

  lemma PrePrepareLogged(reg: Registry, s: Core, log: Log, m: Message)
    requires reg.nodes > 0 && Logged(reg, s, log) && m.phase == PrePrepare
    requires OnPrePrepare(reg, s, m).Accepted?
    ensures Logged(reg, OnPrePrepare(reg, s, m).state, log + [RecordOf(m)])
  {
    hide Full, FullReports, TableReads, StableReads, OrdinaryBelow, ReportersKept;
    var rec := RecordOf(m);
    assert rec.Key() == m.Key();
    LogStep(log, rec);
    OtherReads(s.prepareVotes, log, Code(Prepare), s.stable, rec);
    OtherReads(s.commitVotes, log, Code(Commit), s.stable, rec);
    OtherReads(s.checkpointVotes, log, Code(Checkpoint), s.stable, rec);
    StableStays(reg, log, rec, s.stable, s.view, s.view);
    OrdinaryGrows(log, rec, s.view, s.view);
    OtherReporters(s.viewChangeVotes, log, rec);
  }

  lemma PrepareLogged(reg: Registry, s: Core, log: Log, m: Message)
    requires Logged(reg, s, log) && m.phase == Prepare && OnPrepare(reg, s, m).Accepted?
    ensures Logged(reg, OnPrepare(reg, s, m).state, log + [RecordOf(m)])
  {
    hide Full, FullReports, HasPrepared, ProposalsRead, TableReads, StableReads, OrdinaryBelow, ReportersKept;
    var rec := RecordOf(m);
    assert rec.Key() == m.Key();
    VoteReads(s.prepareVotes, log, Code(Prepare), s.stable, rec);
    OtherReads(s.commitVotes, log, Code(Commit), s.stable, rec);
    OtherReads(s.checkpointVotes, log, Code(Checkpoint), s.stable, rec);
    OtherProposals(s.proposals, log, s.stable, rec);
    StableStays(reg, log, rec, s.stable, s.view, s.view);
    OrdinaryGrows(log, rec, s.view, s.view);
    OtherReporters(s.viewChangeVotes, log, rec);
  }

  lemma CommitLogged(reg: Registry, s: Core, log: Log, m: Message)
    requires Logged(reg, s, log) && m.phase == Commit && OnCommit(reg, s, m).Accepted?
    ensures Logged(reg, OnCommit(reg, s, m).state, log + [RecordOf(m)])
  {
    hide Full, FullReports, HasPrepared, ProposalsRead, TableReads, StableReads, OrdinaryBelow, ReportersKept;
    var rec := RecordOf(m);
    assert rec.Key() == m.Key();
    VoteReads(s.commitVotes, log, Code(Commit), s.stable, rec);
    OtherReads(s.prepareVotes, log, Code(Prepare), s.stable, rec);
    OtherReads(s.checkpointVotes, log, Code(Checkpoint), s.stable, rec);
    OtherProposals(s.proposals, log, s.stable, rec);
    StableStays(reg, log, rec, s.stable, s.view, s.view);
    OrdinaryGrows(log, rec, s.view, s.view);
    OtherReporters(s.viewChangeVotes, log, rec);
  }

  lemma ViewChangeLogged(reg: Registry, s: Core, log: Log, m: Message)
    requires Logged(reg, s, log) && m.phase == ViewChange
    requires OnViewChange(reg, s, m).Accepted?
    ensures Logged(reg, OnViewChange(reg, s, m).state, log + [RecordOf(m)])
  {
    OnViewChangeShape(reg, s, m);
    hide Full, FullReports, OnViewChange, NewViewStep, ProposalsRead, TableReads, StableReads, OrdinaryBelow;
    var rec := RecordOf(m);
    var t := OnViewChange(reg, s, m).state;
    OtherReads(s.prepareVotes, log, Code(Prepare), s.stable, rec);
    OtherReads(s.commitVotes, log, Code(Commit), s.stable, rec);
    OtherReads(s.checkpointVotes, log, Code(Checkpoint), s.stable, rec);
    OtherProposals(s.proposals, log, s.stable, rec);
    StableStays(reg, log, rec, s.stable, s.view, t.view);
    OrdinaryGrows(log, rec, s.view, t.view);
    ReporterLogged(s.viewChangeVotes, log, rec);
  }

  lemma ReporterLogged(table: ReportTable, log: Log, rec: Record)
    requires ReportersKept(table, log) && rec.phase == Code(ViewChange)
    ensures ReportersKept(AddReport(table, rec.view, rec.sender, Report(rec.seqno, rec.digest, rec.signature)),
      log + [rec])
  {
    LogStep(log, rec);
    var report := Report(rec.seqno, rec.digest, rec.signature);
    var next := AddReport(table, rec.view, rec.sender, report);
    forall t: nat ensures LoggedReporters(log + [rec], t) <= ReportsFor(next, t).Keys {
      if t == rec.view {
        assert ReportsFor(next, t).Keys == ReportsFor(table, t).Keys + {rec.sender};
      }
    }
  }

  lemma TableCollected(table: VoteTable, log: Log, code: nat, floor: int, floor': nat)
    requires TableReads(table, log, code, floor) && floor <= floor'
    ensures TableReads(VotesAbove(table, floor'), log, code, floor')
  {
  }

  lemma ProposalsCollected(proposals: set<Ballot>, log: Log, floor: nat, floor': nat)
    requires ProposalsRead(proposals, log, floor) && floor <= floor'
    ensures ProposalsRead(ProposalsAbove(proposals, floor'), log, floor')
  {
  }

  /** A checkpoint vote below its quorum. */
  lemma CheckpointVoteLogged(reg: Registry, s: Core, log: Log, m: Message)
    requires Logged(reg, s, log) && m.phase == Checkpoint && m.seqno > s.stable && m.view == s.view
    requires !Full(reg, AddVote(s.checkpointVotes, m.Key(), m.sender, m.signature)[m.Key()])
    ensures Logged(reg, VoteCheckpointAt(s, m.Key(), m.sender, m.signature), log + [RecordOf(m)])
  {
    hide Full, FullReports, ProposalsRead, StableReads, OrdinaryBelow, ReportersKept;
    var rec := RecordOf(m);
    assert rec.Key() == m.Key();
    CheckpointTally(reg, s, log, m);
    hide TableReads;
    OtherReads(s.prepareVotes, log, Code(Prepare), s.stable, rec);
    OtherReads(s.commitVotes, log, Code(Commit), s.stable, rec);
    VoteReads(s.checkpointVotes, log, Code(Checkpoint), s.stable, rec);
    OtherProposals(s.proposals, log, s.stable, rec);
    StableStays(reg, log, rec, s.stable, s.view, s.view);
    OrdinaryGrows(log, rec, s.view, s.view);
    OtherReporters(s.viewChangeVotes, log, rec);
  }

  /** Above the stable checkpoint the live tally of a checkpoint is the logged one. */
  lemma CheckpointTally(reg: Registry, s: Core, log: Log, m: Message)
    requires TableReads(s.checkpointVotes, log, Code(Checkpoint), s.stable) && m.phase == Checkpoint
      && m.seqno > s.stable
    ensures CheckpointQuorum(reg, log + [RecordOf(m)], m.Key()) <==>
            Full(reg, AddVote(s.checkpointVotes, m.Key(), m.sender, m.signature)[m.Key()])
  {
    hide Full;
    LogStep(log, RecordOf(m));
    assert VotesFor(s.checkpointVotes, m.Key()) == LoggedVotes(log, Code(Checkpoint), m.Key());
    assert RecordOf(m).Key() == m.Key();
  }

  lemma CheckpointStableLogged(reg: Registry, s: Core, log: Log, m: Message)
    requires Logged(reg, s, log) && m.phase == Checkpoint && m.seqno > s.stable && m.view == s.view
    requires Full(reg, AddVote(s.checkpointVotes, m.Key(), m.sender, m.signature)[m.Key()])
    ensures Logged(reg, Collect(VoteCheckpointAt(s, m.Key(), m.sender, m.signature).(stable := m.seqno), m.seqno),
      log + [RecordOf(m)])
  {
    hide Full, FullReports, ProposalsRead, StableReads, OrdinaryBelow, ReportersKept;
    var rec := RecordOf(m);
    assert rec.Key() == m.Key();
    CheckpointTally(reg, s, log, m);
    hide TableReads;
    OtherReads(s.prepareVotes, log, Code(Prepare), s.stable, rec);
    OtherReads(s.commitVotes, log, Code(Commit), s.stable, rec);
    VoteReads(s.checkpointVotes, log, Code(Checkpoint), s.stable, rec);
    OtherProposals(s.proposals, log, s.stable, rec);
    TableCollected(s.prepareVotes, log + [rec], Code(Prepare), s.stable, m.seqno);
    TableCollected(s.commitVotes, log + [rec], Code(Commit), s.stable, m.seqno);
    TableCollected(AddVote(s.checkpointVotes, m.Key(), m.sender, m.signature), log + [rec], Code(Checkpoint),
      s.stable, m.seqno);
    ProposalsCollected(s.proposals, log + [rec], s.stable, m.seqno);
    StableMoves(reg, log, rec, s.stable, s.view, s.view);
    OrdinaryGrows(log, rec, s.view, s.view);
    OtherReporters(s.viewChangeVotes, log, rec);
  }

  lemma CheckpointLogged(reg: Registry, s: Core, log: Log, m: Message)
    requires Logged(reg, s, log) && m.phase == Checkpoint && m.seqno > s.stable
    requires OnCheckpoint(reg, s, m).Accepted?
    ensures Logged(reg, OnCheckpoint(reg, s, m).state, log + [RecordOf(m)])
  {
    hide Full, FullReports, Logged;
    if Full(reg, AddVote(s.checkpointVotes, m.Key(), m.sender, m.signature)[m.Key()]) {
      CheckpointStableLogged(reg, s, log, m);
    } else {
      CheckpointVoteLogged(reg, s, log, m);
    }
  }

  /** Every accepted message, once its row is appended, leaves the log telling the truth. */
  lemma HandleLogged(reg: Registry, s: Core, log: Log, m: Message)
    requires reg.nodes > 0 && Logged(reg, s, log) && Handle(reg, s, m).Accepted?
    ensures Logged(reg, Handle(reg, s, m).state, log + [RecordOf(m)])
  {
    hide Full, FullReports, Logged, OnPrePrepare, OnPrepare, OnCommit, OnViewChange, OnCheckpoint;
    match m.phase {
      case PrePrepare => PrePrepareLogged(reg, s, log, m);
      case Prepare => PrepareLogged(reg, s, log, m);
      case Commit => CommitLogged(reg, s, log, m);
      case ViewChange => ViewChangeLogged(reg, s, log, m);
      case Checkpoint => CheckpointLogged(reg, s, log, m);
    }
  }

  // ------------------------------------------------------------------------ pruning

  lemma EmptyNotFull(reg: Registry)
    ensures !Full(reg, map[])
  {
  }

  lemma PrunedStable(reg: Registry, log: Log, stable: nat, view: nat, floor: nat)
    requires StableReads(reg, log, stable, view) && floor <= stable
    ensures StableReads(reg, Prune(log, floor), stable, view)
  {
    hide Full, FullReports;
    EmptyNotFull(reg);
    forall k: Ballot ensures CheckpointQuorum(reg, Prune(log, floor), k) <==>
      k.seqno >= floor && CheckpointQuorum(reg, log, k) {
      PrunedVotes(log, floor, Code(Checkpoint), k);
    }
  }

  lemma PrunedTable(table: VoteTable, log: Log, code: nat, stable: nat, floor: nat)
    requires TableReads(table, log, code, stable) && floor <= stable
    ensures TableReads(table, Prune(log, floor), code, stable)
  {
    forall k: Ballot | k.seqno > stable ensures VotesFor(table, k) == LoggedVotes(Prune(log, floor), code, k) {
      PrunedVotes(log, floor, code, k);
    }
  }

  /** Pruning at or below the stable checkpoint loses nothing that matters. */
  lemma PrunedLogged(reg: Registry, s: Core, log: Log, floor: nat)
    requires Logged(reg, s, log) && floor <= s.stable
    ensures Logged(reg, s, Prune(log, floor))
  {
    hide Full, FullReports, StableReads, OrdinaryBelow, TableReads;
    PrunedProposals(log, floor);
    PrunedTable(s.prepareVotes, log, Code(Prepare), s.stable, floor);
    PrunedTable(s.commitVotes, log, Code(Commit), s.stable, floor);
    PrunedTable(s.checkpointVotes, log, Code(Checkpoint), s.stable, floor);
    PrunedStable(reg, log, s.stable, s.view, floor);
    PrunedOrdinary(log, floor, s.view);
    forall t: nat ensures LoggedReporters(Prune(log, floor), t) <= ReportsFor(s.viewChangeVotes, t).Keys {
      PrunedReporters(log, floor, t);
    }
  }

  // ------------------------------------------------------------------------ restart

  lemma FinishLogged(reg: Registry, r: Core, log: Log)
    requires Reads(reg, r, log)
    ensures Logged(reg, Finish(r), log)
  {
    ProposalsFinished(r.proposals, log, r.stable);
    ReportersFinished(r.viewChangeVotes, log);
    hide StableReads, OrdinaryBelow, TableReads, ProposalsRead, ReportsRead, ReportersKept;
    hide ProposalsAbove, VotesAbove, CertificatesAbove, DigestsAbove, LoggedProposals;
    TableCollected(r.prepareVotes, log, Code(Prepare), -1, r.stable);
    TableCollected(r.commitVotes, log, Code(Commit), -1, r.stable);
    TableCollected(r.checkpointVotes, log, Code(Checkpoint), -1, r.stable);
    TableFloor(r.prepareVotes, log, Code(Prepare), r.stable);
    TableFloor(r.commitVotes, log, Code(Commit), r.stable);
    TableFloor(r.checkpointVotes, log, Code(Checkpoint), r.stable);
  }

  lemma ProposalsFinished(proposals: set<Ballot>, log: Log, floor: nat)
    requires proposals == LoggedProposals(log)
    ensures ProposalsRead(ProposalsAbove(proposals, floor), log, floor)
    ensures floor == 0 ==> ProposalsRead(proposals, log, floor)
  {
  }

  lemma ReportersFinished(table: ReportTable, log: Log)
    requires ReportsRead(table, log)
    ensures ReportersKept(table, log)
  {
  }

  lemma TableFloor(table: VoteTable, log: Log, code: nat, floor: nat)
    requires TableReads(table, log, code, -1)
    ensures TableReads(table, log, code, floor)
  {
  }

  /** A replica restarted from a log is in step with that log. */
  lemma ReplayLogged(reg: Registry, log: Log)
    requires reg.nodes > 0 && Replay(reg, log).Recovered?
    ensures Logged(reg, Replay(reg, log).state, log)
  {
    hide Full, FullReports, Logged, Reads, Fold;
    FoldReads(reg, log);
    FinishLogged(reg, Fold(reg, log).state, log);
  }

  /** Two states with the same slots above `floor`: proposals, votes of every kind, certificates and decisions. */
  ghost predicate SameAbove(r: Core, s: Core, floor: nat) {
    && ProposalsAbove(r.proposals, floor) == ProposalsAbove(s.proposals, floor)
    && VotesAbove(r.prepareVotes, floor) == VotesAbove(s.prepareVotes, floor)
    && VotesAbove(r.commitVotes, floor) == VotesAbove(s.commitVotes, floor)
    && VotesAbove(r.checkpointVotes, floor) == VotesAbove(s.checkpointVotes, floor)
    && CertificatesAbove(r.prepared, floor) == CertificatesAbove(s.prepared, floor)
    && CertificatesAbove(r.commits, floor) == CertificatesAbove(s.commits, floor)
    && DigestsAbove(r.committed, floor) == DigestsAbove(s.committed, floor)
  }

  lemma SameVotes(reg: Registry, phase: Phase, a: VoteTable, b: VoteTable, log: Log, code: nat, floor: nat)
    requires VotesOk(reg, phase, a) && VotesOk(reg, phase, b)
    requires TableReads(a, log, code, floor) && TableReads(b, log, code, floor)
    ensures VotesAbove(a, floor) == VotesAbove(b, floor)
  {
    forall k: Ballot | k.seqno > floor ensures (k in a <==> k in b) && (k in a ==> a[k] == b[k]) {
      assert VotesFor(a, k) == VotesFor(b, k);
    }
  }

  /** Exact certificates are determined by the votes above the floor. */
  lemma SameCertificates(reg: Registry, phase: Phase, a: VoteTable, b: VoteTable, certs: Certificates,
                         certs': Certificates, floor: nat)
    requires CertificatesExact(reg, phase, a, certs) && CertificatesExact(reg, phase, b, certs')
    requires VotesAbove(a, floor) == VotesAbove(b, floor)
    ensures CertificatesAbove(certs, floor) == CertificatesAbove(certs', floor)
  {
    SomeCertificates(reg, phase, a, b, certs, certs', floor);
    SomeCertificates(reg, phase, b, a, certs', certs, floor);
  }

  lemma SomeCertificates(reg: Registry, phase: Phase, a: VoteTable, b: VoteTable, certs: Certificates,
                         certs': Certificates, floor: nat)
    requires CertificatesExact(reg, phase, a, certs) && CertificatesExact(reg, phase, b, certs')
    requires VotesAbove(a, floor) == VotesAbove(b, floor)
    ensures forall slot :: slot in certs && slot.seqno > floor ==> slot in certs' && certs'[slot] == certs[slot]
  {
    hide Full;
    forall slot | slot in certs && slot.seqno > floor ensures slot in certs' && certs'[slot] == certs[slot] {
      var c := certs[slot];
      var k := Ballot(slot.view, slot.seqno, c.digest);
      assert CertificateBacked(reg, phase, a, slot, c);
      assert k in VotesAbove(a, floor) && k in VotesAbove(b, floor);
      assert b[k] == a[k] && k.At() == slot;
      assert CertificateBacked(reg, phase, b, slot, certs'[slot]);
    }
  }

  /** Two good states in step with one log agree on everything above the stable checkpoint. */
  lemma LoggedDetermines(reg: Registry, r: Core, s: Core, log: Log)
    requires Inv(reg, r) && Inv(reg, s) && r.stable <= s.stable
    requires Logged(reg, r, log) && Logged(reg, s, log)
    ensures SameAbove(r, s, s.stable)
  {
    assert PrepareSide(reg, r.proposals, r.prepareVotes, r.prepared)
      && PrepareSide(reg, s.proposals, s.prepareVotes, s.prepared);
    assert CommitSide(reg, r.proposals, r.prepared, r.commitVotes, r.commits, r.committed)
        && CommitSide(reg, s.proposals, s.prepared, s.commitVotes, s.commits, s.committed);
    assert CheckpointSide(reg, r.stable, r.checkpointVotes) && CheckpointSide(reg, s.stable, s.checkpointVotes);
    hide Full, FullReports, Inv, StableReads, OrdinaryBelow, ReportersKept;
    SameVotesAbove(reg, r, s, log);
    hide Logged, TableReads, ProposalsRead;
    SameCertificates(reg, Prepare, r.prepareVotes, s.prepareVotes, r.prepared, s.prepared, s.stable);
    SameCertificates(reg, Commit, r.commitVotes, s.commitVotes, r.commits, s.commits, s.stable);
    SameDigests(r, s, s.stable);
  }

  lemma SameVotesAbove(reg: Registry, r: Core, s: Core, log: Log)
    requires r.stable <= s.stable
    requires VotesOk(reg, Prepare, r.prepareVotes) && VotesOk(reg, Prepare, s.prepareVotes)
    requires VotesOk(reg, Commit, r.commitVotes) && VotesOk(reg, Commit, s.commitVotes)
    requires VotesOk(reg, Checkpoint, r.checkpointVotes) && VotesOk(reg, Checkpoint, s.checkpointVotes)
    requires Logged(reg, r, log) && Logged(reg, s, log)
    ensures ProposalsAbove(r.proposals, s.stable) == ProposalsAbove(s.proposals, s.stable)
    ensures VotesAbove(r.prepareVotes, s.stable) == VotesAbove(s.prepareVotes, s.stable)
    ensures VotesAbove(r.commitVotes, s.stable) == VotesAbove(s.commitVotes, s.stable)
    ensures VotesAbove(r.checkpointVotes, s.stable) == VotesAbove(s.checkpointVotes, s.stable)
  {
    hide VotesOk, StableReads, OrdinaryBelow, ReportersKept;
    SameVotes(reg, Prepare, r.prepareVotes, s.prepareVotes, log, Code(Prepare), s.stable);
    SameVotes(reg, Commit, r.commitVotes, s.commitVotes, log, Code(Commit), s.stable);
    SameVotes(reg, Checkpoint, r.checkpointVotes, s.checkpointVotes, log, Code(Checkpoint), s.stable);
  }

  lemma SameDigests(r: Core, s: Core, floor: nat)
    requires CertificatesAbove(r.commits, floor) == CertificatesAbove(s.commits, floor)
    requires r.committed.Keys == r.commits.Keys && s.committed.Keys == s.commits.Keys
    requires forall slot :: slot in r.commits ==> r.committed[slot] == r.commits[slot].digest
    requires forall slot :: slot in s.commits ==> s.committed[slot] == s.commits[slot].digest
    ensures DigestsAbove(r.committed, floor) == DigestsAbove(s.committed, floor)
  {
    forall slot: Slot | slot.seqno > floor
      ensures (slot in r.commits <==> slot in s.commits) && (slot in r.commits ==> r.commits[slot] == s.commits[slot])
    {
      assert slot in CertificatesAbove(r.commits, floor) <==> slot in CertificatesAbove(s.commits, floor);
      if slot in r.commits {
        assert CertificatesAbove(r.commits, floor)[slot] == CertificatesAbove(s.commits, floor)[slot];
      }
    }
  }

  /** The stable checkpoint is determined by the log alone. */
  lemma StableDetermined(reg: Registry, log: Log, a: nat, b: nat, view: nat, view': nat)
    requires StableReads(reg, log, a, view) && StableReads(reg, log, b, view')
    ensures a == b
  {
    hide Full;
  }

  /** A live replica bounds every view its own log can prove. */
  lemma LiveBoundsViews(reg: Registry, s: Core, log: Log)
    requires Inv(reg, s) && Logged(reg, s, log)
    ensures ViewsBelow(reg, log, s.view)
  {
    forall t: nat | |LoggedReporters(log, t)| >= reg.Quorum() ensures t <= s.view {
      SubsetSize(LoggedReporters(log, t), ReportsFor(s.viewChangeVotes, t).Keys);
      MapSize(ReportsFor(s.viewChangeVotes, t));
      if t in s.viewChangeVotes {
        assert ReportsOk(reg, s.view, t, s.viewChangeVotes[t]);
      }
    }
  }

  /**
   Whatever was pruned, if the log of a live replica replays at all it replays to the
   same stable checkpoint, the same slots above it, and a view no later than the live one.
   */
  lemma ReplayAgreesAbove(reg: Registry, s: Core, log: Log)
    requires reg.nodes > 0 && Inv(reg, s) && Logged(reg, s, log) && Replay(reg, log).Recovered?
    ensures var r := Replay(reg, log).state;
      r.stable == s.stable && r.view <= s.view && SameAbove(r, s, s.stable)
  {
    hide Full, FullReports, Inv, Fold, SameAbove;
    ReplayEstablishesInv(reg, log);
    ReplayLogged(reg, log);
    var r := Replay(reg, log).state;
    StableDetermined(reg, log, r.stable, s.stable, r.view, s.view);
    LoggedDetermines(reg, r, s, log);
    LiveBoundsViews(reg, s, log);
    FoldViewBelow(reg, log, s.view);
  }

  // --------------------------------------------------------------------- whole runs

  /** An unacknowledged record on disk would itself be a legal next row. */
  ghost predicate TailLegal(reg: Registry, node: Node) {
    match node.tail
    case Clean => true
    case Torn => node.failed
    case Whole(rec) =>
      && node.failed
      && exists next: Core :: Inv(reg, next) && Logged(reg, next, node.log + [rec]) && next.stable >= node.live.stable
  }

  ghost predicate NodeOk(reg: Registry, node: Node) {
    Inv(reg, node.live) && Logged(reg, node.live, node.log) && TailLegal(reg, node)
  }

  lemma DeliverHandledOk(reg: Registry, node: Node, m: Message, fate: Fate, o: Outcome)
    requires NodeOk(reg, node) && !node.failed
    requires o.Accepted? ==>
      && Inv(reg, o.state) && Logged(reg, o.state, node.log + [RecordOf(m)])
      && o.state.stable >= node.live.stable
      && (o.response == CheckpointStabilized ==> Logged(reg, o.state, Prune(node.log + [RecordOf(m)], m.seqno)))
    ensures NodeOk(reg, DeliverHandled(node, m, fate, o).0)
    ensures DeliverHandled(node, m, fate, o).0.live.stable >= node.live.stable
  {
    hide Inv, Logged, Prune;
  }

  lemma DeliverOk(reg: Registry, node: Node, m: Message, fate: Fate)
    requires reg.nodes > 0 && NodeOk(reg, node)
    ensures NodeOk(reg, Deliver(reg, node, m, fate).0)
    ensures Deliver(reg, node, m, fate).0.live.stable >= node.live.stable
  {
    hide Inv, Logged, Handle, DeliverHandled;
    if !node.failed {
      var o := Handle(reg, node.live, m);
      if o.Accepted? {
        HandlePreservesInv(reg, node.live, m);
        HandleLogged(reg, node.live, node.log, m);
        if o.response == CheckpointStabilized {
          PrunedLogged(reg, o.state, node.log + [RecordOf(m)], m.seqno);
        }
      }
      DeliverHandledOk(reg, node, m, fate, o);
    }
  }

  lemma RestartOk(reg: Registry, node: Node)
    requires reg.nodes > 0 && NodeOk(reg, node) && Restart(reg, node).Some?
    ensures NodeOk(reg, Restart(reg, node).value)
    ensures Restart(reg, node).value.live.stable >= node.live.stable
  {
    hide Inv, Logged, Replay, SameAbove;
    var log := OnDisk(node).value;
    ReplayEstablishesInv(reg, log);
    ReplayLogged(reg, log);
    if node.tail.Whole? {
      var next: Core :| Inv(reg, next) && Logged(reg, next, log) && next.stable >= node.live.stable;
      ReplayAgreesAbove(reg, next, log);
    } else {
      ReplayAgreesAbove(reg, node.live, log);
    }
  }

  lemma AfterOk(reg: Registry, node: Node, e: Event)
    requires reg.nodes > 0 && NodeOk(reg, node)
    ensures NodeOk(reg, After(reg, node, e))
    ensures After(reg, node, e).live.stable >= node.live.stable
  {
    hide Inv, Logged, Deliver, Restart;
    match e {
      case Arrives(m, fate) => DeliverOk(reg, node, m, fate);
      case Reboot =>
        if Restart(reg, node).Some? {
          RestartOk(reg, node);
        }
    }
  }

  lemma FreshOk(reg: Registry)
    ensures NodeOk(reg, FRESH)
  {
    InitialInv(reg);
    EmptyReads(reg);
    FinishLogged(reg, INITIAL, []);
  }

  lemma {:induction false} RunOk(reg: Registry, events: seq<Event>)
    requires reg.nodes > 0
    ensures NodeOk(reg, Run(reg, events))
  {
    hide NodeOk, After;
    if |events| == 0 {
      FreshOk(reg);
    } else {
      RunOk(reg, events[..|events| - 1]);
      AfterOk(reg, Run(reg, events[..|events| - 1]), events[|events| - 1]);
    }
  }

  lemma {:induction false} ContinueOk(reg: Registry, node: Node, events: seq<Event>)
    requires reg.nodes > 0 && NodeOk(reg, node)
    ensures NodeOk(reg, Continue(reg, node, events))
  {
    hide NodeOk, After;
    if |events| > 0 {
      ContinueOk(reg, node, events[..|events| - 1]);
      AfterOk(reg, Continue(reg, node, events[..|events| - 1]), events[|events| - 1]);
    }
  }

  /**
   In every run whatever, with any checkpoints, prunings, failures and restarts: if the
   log replays, it gives back the stable checkpoint and every slot above it.
   */
  lemma RunReplayAgreesAbove(reg: Registry, events: seq<Event>)
    requires reg.nodes > 0 && Replay(reg, Run(reg, events).log).Recovered?
    ensures var node := Run(reg, events);
      var r := Replay(reg, node.log).state;
      r.stable == node.live.stable && r.view <= node.live.view && SameAbove(r, node.live, node.live.stable)
  {
    hide Inv, Logged, SameAbove;
    RunOk(reg, events);
    ReplayAgreesAbove(reg, Run(reg, events).live, Run(reg, events).log);
  }

  /** The stable checkpoint of a replica never moves back, not even across restarts. */
  lemma {:induction false} StableNeverMovesBack(reg: Registry, events: seq<Event>, more: seq<Event>)
    requires reg.nodes > 0
    ensures Run(reg, events).live.stable <= Run(reg, events + more).live.stable
  {
    hide NodeOk, After;
    if |more| == 0 {
      assert events + more == events;
    } else {
      var init, last := more[..|more| - 1], more[|more| - 1];
      StableNeverMovesBack(reg, events, init);
      assert (events + more)[..|events + more| - 1] == events + init;
      RunOk(reg, events + init);
      AfterOk(reg, Run(reg, events + init), last);
    }
  }

  /** The quorum that made the checkpoint stable survives the pruning, and proves its view. */
  lemma CheckpointProvesView(reg: Registry, s: Core, log: Log, m: Message, kept: Log)
    requires reg.nodes > 0 && Inv(reg, s) && Logged(reg, s, log)
    requires Handle(reg, s, m).Accepted? && Handle(reg, s, m).response == CheckpointStabilized
    requires kept == log + [RecordOf(m)] || kept == Prune(log + [RecordOf(m)], m.seqno)
    requires Replay(reg, kept).Recovered?
    ensures Replay(reg, kept).state.view >= s.view
  {
    hide Full, FullReports, Inv, Replay, OnPrePrepare, OnPrepare, OnCommit, OnViewChange;
    assert Full(reg, AddVote(s.checkpointVotes, m.Key(), m.sender, m.signature)[m.Key()]) && m.view == s.view;
    hide Handle;
    CheckpointTally(reg, s, log, m);
    PrunedVotes(log + [RecordOf(m)], m.seqno, Code(Checkpoint), m.Key());
    assert CheckpointQuorum(reg, kept, m.Key());
    ReplayLogged(reg, kept);
  }

  /** Right after a checkpoint stabilises, a restart would also come back in the live view. */
  lemma FreshCheckpointKeepsView(reg: Registry, events: seq<Event>, m: Message, fate: Fate)
    requires reg.nodes > 0 && !Run(reg, events).failed
    requires Handle(reg, Run(reg, events).live, m).Accepted?
    requires Handle(reg, Run(reg, events).live, m).response == CheckpointStabilized
    requires fate in {Durable, PruneAborted, PruneUnsynced}
    requires Replay(reg, Deliver(reg, Run(reg, events), m, fate).0.log).Recovered?
    ensures var node := Deliver(reg, Run(reg, events), m, fate).0;
      var r := Replay(reg, node.log).state;
      && node.live.stable == m.seqno
      && r.stable == m.seqno && r.view == node.live.view && SameAbove(r, node.live, m.seqno)
  {
    hide Inv, Logged, SameAbove, Handle, Replay;
    var node := Run(reg, events);
    RunOk(reg, events);
    var next := Deliver(reg, node, m, fate).0;
    DeliverOk(reg, node, m, fate);
    ReplayAgreesAbove(reg, next.live, next.log);
    StabilizedView(reg, node.live, m);
    CheckpointProvesView(reg, node.live, node.log, m, next.log);
  }

  lemma StabilizedView(reg: Registry, s: Core, m: Message)
    requires reg.nodes > 0 && Handle(reg, s, m).Accepted? && Handle(reg, s, m).response == CheckpointStabilized
    ensures Handle(reg, s, m).state.view == s.view
  {
    hide OnPrePrepare, OnPrepare, OnCommit, OnViewChange, OnCheckpoint;
  }
}
