/**
 Live state against replayed state. As long as no checkpoint has become stable,
 replaying the log of a replica succeeds and rebuilds its live state, field by
 field; only the highest sequence number may come back larger.
 */
module Refinement {
  import opened Base
  import opened Protocol
  import opened Recovery
  import opened Invariants
  import opened Completeness
  import opened Durability

  /** Equal in all twelve fields but `highestSeq`, which replay may have raised. */
  ghost predicate Rebuilds(r: Core, live: Core) {
    live == r.(highestSeq := live.highestSeq) && live.highestSeq <= r.highestSeq
  }

  /** The first `Rebuilds`, and an equal highest sequence if `exact`. */
  ghost predicate RebuildsExactly(r: Core, live: Core, exact: bool) {
    Rebuilds(r, live) && (exact ==> r.highestSeq == live.highestSeq)
  }

  lemma PrePrepareAgrees(reg: Registry, r: Core, s: Core, m: Message)
    requires reg.nodes > 0 && Rebuilds(r, s) && m.phase == PrePrepare
    requires OnPrePrepare(reg, s, m).Accepted?
    ensures var row := RowPrePrepare(reg, r, RecordOf(m));
      row.Recovered? && RebuildsExactly(row.state, OnPrePrepare(reg, s, m).state, r.highestSeq == s.highestSeq)
  {
    hide Full, FullReports;
  }

  /** A vote does not look at the highest sequence number. */
  lemma PrepareIgnoresHighest(reg: Registry, s: Core, h: nat, k: Ballot, sender: nat, sig: Sig)
    ensures VotePrepareAt(reg, s.(highestSeq := h), k, sender, sig)
         == VotePrepareAt(reg, s, k, sender, sig).(highestSeq := h)
  {
    hide Full, FullReports;
  }

  lemma CommitIgnoresHighest(reg: Registry, s: Core, h: nat, k: Ballot, sender: nat, sig: Sig)
    ensures VoteCommitAt(reg, s.(highestSeq := h), k, sender, sig)
         == VoteCommitAt(reg, s, k, sender, sig).(highestSeq := h)
  {
    hide Full, FullReports;
  }

  lemma PrepareAgrees(reg: Registry, r: Core, s: Core, m: Message)
    requires Inv(reg, s) && Rebuilds(r, s) && m.phase == Prepare
    requires OnPrepare(reg, s, m).Accepted?
    ensures var row := RowPrepare(reg, r, RecordOf(m));
      row.Recovered? && RebuildsExactly(row.state, OnPrepare(reg, s, m).state, r.highestSeq == s.highestSeq)
  {
    hide Full, FullReports;
    assert m.Key() in s.proposals && m.view <= s.view && m.seqno <= s.highestSeq;
    hide Inv;
    assert Raise(r, RecordOf(m)) == r;
    PrepareIgnoresHighest(reg, r, s.highestSeq, m.Key(), m.sender, m.signature);
  }

  lemma CommitAgrees(reg: Registry, r: Core, s: Core, m: Message)
    requires Inv(reg, s) && Rebuilds(r, s) && m.phase == Commit
    requires OnCommit(reg, s, m).Accepted?
    ensures var row := RowCommit(reg, r, RecordOf(m));
      row.Recovered? && RebuildsExactly(row.state, OnCommit(reg, s, m).state, r.highestSeq == s.highestSeq)
  {
    hide Full, FullReports;
    assert m.Key() in s.proposals && m.view <= s.view && m.seqno <= s.highestSeq;
    hide Inv;
    assert Raise(r, RecordOf(m)) == r;
    assert HasPrepared(reg, r.prepared, m.Key());
    CommitIgnoresHighest(reg, r, s.highestSeq, m.Key(), m.sender, m.signature);
  }

  /** A report the handler admits is for a sequence number the replica has already seen. */
  lemma ReportedIsSeen(reg: Registry, s: Core, seqno: nat, digest: Digest)
    requires Inv(reg, s) && HasPreparedValue(reg, s.prepared, seqno, digest)
    ensures seqno <= s.highestSeq
  {
    hide Full, FullReports;
    var slot :| slot in s.prepared && s.prepared[slot].seqno == seqno && s.prepared[slot].digest == digest;
    assert CertificateBacked(reg, Prepare, s.prepareVotes, slot, s.prepared[slot]);
    assert Ballot(slot.view, slot.seqno, digest) in s.proposals;
  }

  lemma SelectedIsSeen(reg: Registry, s: Core, target: nat, seqno: nat, digest: Digest)
    requires Inv(reg, s) && SelectPrepared(reg, s.prepared, target, seqno, digest).Some?
    ensures SelectPrepared(reg, s.prepared, target, seqno, digest).value.seqno <= s.highestSeq
  {
    hide Full, FullReports;
    SelectPreparedIsHighest(reg, s, target, seqno, digest);
    var c := SelectPrepared(reg, s.prepared, target, seqno, digest).value;
    assert reg.CertificateOk(Prepare, s.prepared[Slot(c.view, seqno)]);
    ReportedIsSeen(reg, s, seqno, digest);
  }

  /** The replay of a quorum-completing view-change row, under the facts that make it succeed. */
  lemma RowViewChangeOutcome(reg: Registry, r: Core, m: Message)
    requires m.phase == ViewChange && m.view >= r.view && m.seqno <= r.highestSeq
    requires m.seqno == 0 || HasEarlierPrepared(reg, r.prepared, m.view, m.seqno, m.digest)
    requires FullReports(reg, ReportsWith(r, m)) ==>
      && HighestSlot(ReportsWith(r, m)).Some?
      && (var top := HighestSlot(ReportsWith(r, m)).value;
          var bound := if top.seqno > 0 then SelectPrepared(reg, r.prepared, m.view, top.seqno, top.digest) else None;
          (top.seqno > 0 ==> bound.Some?) && NewViewOk(reg, NewView(m.view, ReportsWith(r, m), bound)))
    ensures RowViewChange(reg, r, RecordOf(m)) ==
      var next := r.(viewChangeVotes := r.viewChangeVotes[m.view := ReportsWith(r, m)]);
      if !FullReports(reg, ReportsWith(r, m)) then Recovered(next)
      else
        var top := HighestSlot(ReportsWith(r, m)).value;
        var bound := if top.seqno > 0 then SelectPrepared(reg, r.prepared, m.view, top.seqno, top.digest) else None;
        Recovered(next.(view := m.view, newViews := Install(r.newViews, NewView(m.view, ReportsWith(r, m), bound))))
  {
    hide Full, FullReports;
    var table := AddReport(r.viewChangeVotes, m.view, m.sender, Report(m.seqno, m.digest, m.signature));
    assert table == r.viewChangeVotes[m.view := ReportsWith(r, m)];
    assert Raise(r, RecordOf(m)) == r;
  }

  /** Below a quorum the handler only records the vote. */
  lemma ViewChangePending(reg: Registry, s: Core, m: Message)
    requires OnViewChange(reg, s, m).Accepted? && !FullReports(reg, ReportsWith(s, m))
    ensures OnViewChange(reg, s, m).state == s.(viewChangeVotes := s.viewChangeVotes[m.view := ReportsWith(s, m)])
  {
    hide Full, FullReports;
    var table := AddReport(s.viewChangeVotes, m.view, m.sender, Report(m.seqno, m.digest, m.signature));
    assert table == s.viewChangeVotes[m.view := ReportsWith(s, m)];
  }

  /** What the handler admits, replay admits: a later view, a seen sequence, an earlier certificate. */
  lemma AdmittedInReplay(reg: Registry, r: Core, s: Core, m: Message)
    requires Inv(reg, s) && Rebuilds(r, s)
    requires OnViewChange(reg, s, m).Accepted?
    ensures m.view > s.view && m.seqno <= s.highestSeq
    ensures m.seqno > 0 ==>
      && HasPreparedValue(reg, s.prepared, m.seqno, m.digest)
      && HasEarlierPrepared(reg, r.prepared, m.view, m.seqno, m.digest)
  {
    hide Full, FullReports, Inv, NewViewOk, HighestSlot;
    if m.seqno > 0 {
      PreparedValueIsEarlier(reg, s, m.view, m.seqno, m.digest);
      ReportedIsSeen(reg, s, m.seqno, m.digest);
    }
  }

  lemma ViewChangeAgrees(reg: Registry, r: Core, s: Core, m: Message)
    requires reg.nodes > 0 && Inv(reg, s) && Rebuilds(r, s) && m.phase == ViewChange
    requires m.sender < reg.nodes && reg.sigOk(m.sender, m.Signed(), m.signature)
    requires OnViewChange(reg, s, m).Accepted?
    ensures var row := RowViewChange(reg, r, RecordOf(m));
      row.Recovered? && RebuildsExactly(row.state, OnViewChange(reg, s, m).state, r.highestSeq == s.highestSeq)
  {
    hide Full, FullReports, Inv, NewViewOk, HighestSlot, RowViewChange, OnViewChange, HasPreparedValue;
    hide HasEarlierPrepared;
    AdmittedInReplay(reg, r, s, m);
    assert r == s.(highestSeq := r.highestSeq) && ReportsWith(r, m) == ReportsWith(s, m);
    if FullReports(reg, ReportsWith(s, m)) {
      ViewChangeCompletes(reg, r, s, m);
    } else {
      ViewChangePending(reg, s, m);
      RowViewChangeOutcome(reg, r, m);
    }
  }

  lemma ViewChangeCompletes(reg: Registry, r: Core, s: Core, m: Message)
    requires reg.nodes > 0 && Inv(reg, s) && Rebuilds(r, s)
    requires CompletesViewChange(reg, s, m) && OnViewChange(reg, s, m).Accepted? && m.seqno <= s.highestSeq
    requires m.seqno == 0 || HasEarlierPrepared(reg, r.prepared, m.view, m.seqno, m.digest)
    ensures var row := RowViewChange(reg, r, RecordOf(m));
      row.Recovered? && RebuildsExactly(row.state, OnViewChange(reg, s, m).state, r.highestSeq == s.highestSeq)
  {
    hide Full, FullReports, Inv, NewViewOk, HighestSlot;
    var votes := ReportsWith(s, m);
    var table := AddReport(s.viewChangeVotes, m.view, m.sender, Report(m.seqno, m.digest, m.signature));
    assert table[m.view] == votes && ReportsWith(r, m) == votes;
    ReportsAfterVote(reg, s, m.view, m.sender, Report(m.seqno, m.digest, m.signature));
    ViewChangeOutcome(reg, s, m);
    assert Handle(reg, s, m) == OnViewChange(reg, s, m) == CompletedOutcome(reg, s, m);
    var top := HighestSlot(votes).value;
    AssembledNewViewOk(reg, s, m.view, votes);
    if top.seqno > 0 {
      SelectedIsSeen(reg, s, m.view, top.seqno, top.digest);
    }
    RowViewChangeOutcome(reg, r, m);
  }

  lemma CheckpointAgrees(reg: Registry, r: Core, s: Core, m: Message)
    requires Rebuilds(r, s) && m.phase == Checkpoint
    requires OnCheckpoint(reg, s, m).Accepted? && OnCheckpoint(reg, s, m).response != CheckpointStabilized
    ensures var row := RowCheckpoint(reg, r, RecordOf(m));
      row.Recovered? && Rebuilds(row.state, OnCheckpoint(reg, s, m).state)
  {
    hide Full, FullReports;
    assert RecordOf(m).Key() == m.Key();
  }

  /** The row of a stabilising vote, and the final retention of replay, do what the handler does at once. */
  lemma StabilizationAgrees(reg: Registry, r: Core, s: Core, m: Message)
    requires Rebuilds(r, s) && m.phase == Checkpoint && m.seqno > s.stable
    requires OnCheckpoint(reg, s, m).Accepted? && OnCheckpoint(reg, s, m).response == CheckpointStabilized
    ensures var row := RowCheckpoint(reg, r, RecordOf(m));
      row.Recovered? && Rebuilds(Finish(row.state), OnCheckpoint(reg, s, m).state)
  {
    hide Full, FullReports, AddVote, ProposalsAbove, VotesAbove, CertificatesAbove, DigestsAbove;
    assert RecordOf(m).Key() == m.Key();
  }

  /** One accepted message and the replay of its row lead from agreeing states to agreeing states. */
  lemma StepAgrees(reg: Registry, r: Core, s: Core, m: Message)
    requires reg.nodes > 0 && Inv(reg, s) && Rebuilds(r, s)
    requires Handle(reg, s, m).Accepted? && Handle(reg, s, m).response != CheckpointStabilized
    ensures var row := Row(reg, r, RecordOf(m));
      row.Recovered? && RebuildsExactly(row.state, Handle(reg, s, m).state,
        r.highestSeq == s.highestSeq && m.phase != Checkpoint)
  {
    hide Full, FullReports, Inv, OnPrePrepare, OnPrepare, OnCommit, OnViewChange, OnCheckpoint, RowPrePrepare;
    hide RowPrepare, RowCommit, RowViewChange, RowCheckpoint;
    assert PhaseOf(RecordOf(m).phase) == m.phase;
    match m.phase {
      case PrePrepare => PrePrepareAgrees(reg, r, s, m);
      case Prepare => PrepareAgrees(reg, r, s, m);
      case Commit => CommitAgrees(reg, r, s, m);
      case ViewChange => ViewChangeAgrees(reg, r, s, m);
      case Checkpoint => CheckpointAgrees(reg, r, s, m);
    }
  }

  // ----------------------------------------------------------------- whole runs

  /** No checkpoint becomes stable in the run. */
  ghost predicate NeverStable(reg: Registry, events: seq<Event>)
    requires reg.nodes > 0
  {
    forall n :: 0 <= n <= |events| ==> Run(reg, events[..n]).live.stable == 0
  }

  predicate NoCheckpointVote(log: Log) {
    forall i :: 0 <= i < |log| ==> log[i].phase != Code(Checkpoint)
  }

  /** Replay of `log` succeeds and gives `live` back. */
  ghost predicate Replays(reg: Registry, log: Log, live: Core)
    requires reg.nodes > 0
  {
    && Replay(reg, log).Recovered?
    && RebuildsExactly(Replay(reg, log).state, live, NoCheckpointVote(log))
  }

  ghost predicate InStep(reg: Registry, node: Node)
    requires reg.nodes > 0
  {
    && Inv(reg, node.live) && node.live.stable == 0
    && Replays(reg, node.log, node.live)
    && (node.tail.Whole? ==> exists live: Core :: Replays(reg, node.log + [node.tail.rec], live))
    && (node.tail != Clean ==> node.failed)
  }

  lemma NoVoteBefore(log: Log, rec: Record)
    ensures NoCheckpointVote(log + [rec]) ==> NoCheckpointVote(log) && rec.phase != Code(Checkpoint)
  {
    var longer := log + [rec];
    assert longer[|log|] == rec && forall i :: 0 <= i < |log| ==> longer[i] == log[i];
  }

  /** The log grows by the row of the message; replaying it still gives the live state. */
  lemma AppendReplays(reg: Registry, log: Log, s: Core, m: Message)
    requires reg.nodes > 0 && Inv(reg, s) && s.stable == 0 && Replays(reg, log, s)
    requires Handle(reg, s, m).Accepted?
    ensures Replays(reg, log + [RecordOf(m)], Handle(reg, s, m).state) && Inv(reg, Handle(reg, s, m).state)
  {
    hide Full, FullReports, Inv, Row, Fold;
    HandlePreservesInv(reg, s, m);
    var r := Fold(reg, log).state;
    FoldStable(reg, log);
    FoldStep(reg, log, RecordOf(m));
    NoVoteBefore(log, RecordOf(m));
    if Handle(reg, s, m).response == CheckpointStabilized {
      StabilizedStep(reg, r, s, m);
    } else {
      StepAgrees(reg, r, s, m);
    }
    hide Handle, NoCheckpointVote, Collect;
  }

  lemma StabilizedStep(reg: Registry, r: Core, s: Core, m: Message)
    requires reg.nodes > 0 && Rebuilds(r, s)
    requires Handle(reg, s, m).Accepted? && Handle(reg, s, m).response == CheckpointStabilized
    ensures Row(reg, r, RecordOf(m)).Recovered? && m.phase == Checkpoint
    ensures Rebuilds(Finish(Row(reg, r, RecordOf(m)).state), Handle(reg, s, m).state)
  {
    hide Full, FullReports, OnPrePrepare, OnPrepare, OnCommit, OnViewChange, OnCheckpoint, RowCheckpoint, Collect;
    assert PhaseOf(RecordOf(m).phase) == m.phase;
    StabilizationAgrees(reg, r, s, m);
  }

  /** `Finish` drops nothing when nothing is stable. */
  lemma FoldStable(reg: Registry, log: Log)
    requires reg.nodes > 0 && Replay(reg, log).Recovered? && Replay(reg, log).state.stable == 0
    ensures Fold(reg, log) == Replay(reg, log)
  {
    hide Full, FullReports;
  }

  lemma DeliverHandledInStep(reg: Registry, node: Node, m: Message, fate: Fate, o: Outcome)
    requires reg.nodes > 0 && InStep(reg, node) && !node.failed
    requires o.Accepted? ==> Inv(reg, o.state) && Replays(reg, node.log + [RecordOf(m)], o.state)
    requires o.Accepted? && o.response == CheckpointStabilized ==> o.state.stable > 0
    requires DeliverHandled(node, m, fate, o).0.live.stable == 0
    ensures InStep(reg, DeliverHandled(node, m, fate, o).0)
  {
    hide Full, FullReports, Inv, Replays;
  }

  lemma RestartInStep(reg: Registry, node: Node)
    requires reg.nodes > 0 && InStep(reg, node) && Restart(reg, node).Some? && Restart(reg, node).value.live.stable == 0
    ensures InStep(reg, Restart(reg, node).value)
  {
    hide Full, FullReports;
    ReplayEstablishesInv(reg, OnDisk(node).value);
    hide Inv;
  }

  lemma AfterInStep(reg: Registry, node: Node, e: Event)
    requires reg.nodes > 0 && InStep(reg, node) && After(reg, node, e).live.stable == 0
    ensures InStep(reg, After(reg, node, e))
  {
    hide Full, FullReports, Inv, Replays, Handle, DeliverHandled;
    match e {
      case Arrives(m, fate) =>
        if !node.failed {
          if Handle(reg, node.live, m).Accepted? {
            AppendReplays(reg, node.log, node.live, m);
          }
          DeliverHandledInStep(reg, node, m, fate, Handle(reg, node.live, m));
        }
      case Reboot =>
        if Restart(reg, node).Some? {
          RestartInStep(reg, node);
        }
    }
  }

  lemma {:induction false} RunInStep(reg: Registry, events: seq<Event>)
    requires reg.nodes > 0 && NeverStable(reg, events)
    ensures InStep(reg, Run(reg, events))
  {
    hide Full, FullReports;
    if |events| == 0 {
      InitialInv(reg);
    } else {
      var before := events[..|events| - 1];
      forall n | 0 <= n <= |before| ensures Run(reg, before[..n]).live.stable == 0 {
        assert before[..n] == events[..n];
      }
      RunInStep(reg, before);
      assert events[..|events|] == events;
      hide InStep, After;
      AfterInStep(reg, Run(reg, before), events[|events| - 1]);
    }
  }

  /** In every run without a stable checkpoint, the log replays to the live state. */
  lemma LiveStateIsReplayed(reg: Registry, events: seq<Event>)
    requires reg.nodes > 0 && NeverStable(reg, events)
    ensures var node := Run(reg, events);
      && Replay(reg, node.log).Recovered?
      && Rebuilds(Replay(reg, node.log).state, node.live)
      && (NoCheckpointVote(node.log) ==> Replay(reg, node.log).state == node.live)
  {
    hide Full, FullReports;
    RunInStep(reg, events);
  }

  /**
   An append that fails part way: the protocol fields stay as they were, nothing is
   accepted any more, and a restart gives the old state, the state after the message,
   or a refusal to start, according to how much of the record reached the disk.
   */
  lemma FailedAppendTrichotomy(reg: Registry, events: seq<Event>, m: Message, fate: Fate)
    requires reg.nodes > 0 && NeverStable(reg, events)
    requires !Run(reg, events).failed
    requires Handle(reg, Run(reg, events).live, m).Accepted?
    requires fate in {AppendLost, AppendTorn, AppendKept}
    ensures var node := Run(reg, events);
      var down := Deliver(reg, node, m, fate).0;
      && Deliver(reg, node, m, fate).1 == Rejected(WalError)
      && down.live == node.live
      && (forall m', fate' :: Deliver(reg, down, m', fate') == (down, Rejected(WalUnavailable)))
      && (match fate
          case AppendLost => RestartsAs(reg, down, node.log, node.live)
          case AppendKept => RestartsAs(reg, down, node.log + [RecordOf(m)], Handle(reg, node.live, m).state)
          case _ => Restart(reg, down) == None)
  {
    hide Full, FullReports;
    RunInStep(reg, events);
    var node := Run(reg, events);
    AppendReplays(reg, node.log, node.live, m);
    FailedAppend(reg, node, m, fate, Handle(reg, node.live, m));
  }

  /** A restart gives `live` back from `log`, the highest sequence too unless a checkpoint vote was logged. */
  ghost predicate RestartsAs(reg: Registry, down: Node, log: Log, live: Core)
    requires reg.nodes > 0
  {
    && Restart(reg, down).Some?
    && RebuildsExactly(Restart(reg, down).value.live, live, NoCheckpointVote(log))
  }

  lemma FailedAppend(reg: Registry, node: Node, m: Message, fate: Fate, o: Outcome)
    requires reg.nodes > 0 && !node.failed && InStep(reg, node)
    requires o.Accepted? && Replays(reg, node.log + [RecordOf(m)], o.state)
    requires fate in {AppendLost, AppendTorn, AppendKept}
    ensures var down := DeliverHandled(node, m, fate, o).0;
      && DeliverHandled(node, m, fate, o).1 == Rejected(WalError)
      && down.live == node.live && down.failed
      && (match fate
          case AppendLost => RestartsAs(reg, down, node.log, node.live)
          case AppendKept => RestartsAs(reg, down, node.log + [RecordOf(m)], o.state)
          case _ => Restart(reg, down) == None)
  {
    hide Full, FullReports;
  }
}
