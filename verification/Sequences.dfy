/**
 The highest sequence number. Replay recovers the greatest one in the log, checkpoint votes
 included; the live replica counts those only when it restarts, and so may be behind.
 */
module Sequences {
  import opened Base
  import opened Protocol
  import opened Recovery
  import opened Invariants
  import opened Refinement
  import opened Durability
  import opened LogMeaning
  import opened Compaction
  import opened Restarting

  /** `h` is the greatest sequence of any row, of whatever phase; 0 when there is none. */
  ghost predicate Greatest(log: Log, h: nat) {
    && (forall rec :: rec in log ==> rec.seqno <= h)
    && (h == 0 || exists rec :: rec in log && rec.seqno == h)
  }

  lemma ProposalRaises(reg: Registry, r: Core, rec: Record)
    requires reg.nodes > 0 && rec.phase == Code(PrePrepare) && RowPrePrepare(reg, r, rec).Recovered?
    ensures RowPrePrepare(reg, r, rec).state.highestSeq == if rec.seqno > r.highestSeq then rec.seqno else r.highestSeq
  {
  }

  lemma VoteRaises(reg: Registry, r: Core, rec: Record)
    ensures rec.phase == Code(Prepare) && RowPrepare(reg, r, rec).Recovered? ==>
      RowPrepare(reg, r, rec).state.highestSeq == if rec.seqno > r.highestSeq then rec.seqno else r.highestSeq
    ensures rec.phase == Code(Commit) && RowCommit(reg, r, rec).Recovered? ==>
      RowCommit(reg, r, rec).state.highestSeq == if rec.seqno > r.highestSeq then rec.seqno else r.highestSeq
  {
    hide Full, HasPrepared, AddVote, Certify, Decide;
  }

  lemma ReportRaises(reg: Registry, r: Core, rec: Record)
    requires rec.phase == Code(ViewChange) && RowViewChange(reg, r, rec).Recovered?
    ensures RowViewChange(reg, r, rec).state.highestSeq == if rec.seqno > r.highestSeq then rec.seqno else r.highestSeq
  {
    hide Full, FullReports, NewViewOk, HighestSlot, SelectPrepared, HasEarlierPrepared, AddReport;
  }

  lemma CheckpointRaises(reg: Registry, r: Core, rec: Record)
    requires rec.phase == Code(Checkpoint) && RowCheckpoint(reg, r, rec).Recovered?
    ensures RowCheckpoint(reg, r, rec).state.highestSeq == if rec.seqno > r.highestSeq then rec.seqno else r.highestSeq
  {
    hide Full, AddVote;
  }

  /** Every row counts, whatever its phase. */
  lemma RowRaises(reg: Registry, r: Core, rec: Record)
    requires reg.nodes > 0 && Row(reg, r, rec).Recovered?
    ensures Row(reg, r, rec).state.highestSeq == if rec.seqno > r.highestSeq then rec.seqno else r.highestSeq
  {
    hide RowPrePrepare, RowPrepare, RowCommit, RowViewChange, RowCheckpoint;
    match rec.phase {
      case 0 => ProposalRaises(reg, r, rec);
      case 1 => VoteRaises(reg, r, rec);
      case 2 => VoteRaises(reg, r, rec);
      case 3 => ReportRaises(reg, r, rec);
      case _ => CheckpointRaises(reg, r, rec);
    }
  }

  lemma GreatestStep(log: Log, h: nat, rec: Record)
    requires Greatest(log, h)
    ensures Greatest(log + [rec], if rec.seqno > h then rec.seqno else h)
  {
    if h > 0 {
      var top :| top in log && top.seqno == h;
      assert top in log + [rec];
    }
    assert rec in log + [rec];
  }

  lemma {:induction false} FoldHighest(reg: Registry, log: Log)
    requires reg.nodes > 0 && Fold(reg, log).Recovered?
    ensures Greatest(log, Fold(reg, log).state.highestSeq)
  {
    hide Row, Greatest;
    if |log| == 0 {
      assert Greatest([], INITIAL.highestSeq) by { NothingGreatest(); }
    } else {
      var init, last := log[..|log| - 1], log[|log| - 1];
      FoldHighest(reg, init);
      RowRaises(reg, Fold(reg, init).state, last);
      GreatestStep(init, Fold(reg, init).state.highestSeq, last);
      assert init + [last] == log;
    }
  }

  lemma NothingGreatest()
    ensures Greatest([], 0)
  {
  }

  /** Whatever log replays, it recovers the greatest sequence of its rows. */
  lemma ReplayedHighest(reg: Registry, log: Log)
    requires reg.nodes > 0 && Replay(reg, log).Recovered?
    ensures Greatest(log, Replay(reg, log).state.highestSeq)
  {
    hide Fold, Greatest, ProposalsAbove, VotesAbove, CertificatesAbove, DigestsAbove;
    FoldHighest(reg, log);
  }

  // ---------------------------------------------------------------- the live replica

  /** The live replica has seen every row but checkpoint votes, and nothing that is not in the log. */
  ghost predicate Seen(s: Core, log: Log) {
    && (forall rec :: rec in log && rec.phase != Code(Checkpoint) ==> rec.seqno <= s.highestSeq)
    && (s.highestSeq == 0 || exists rec :: rec in log && rec.seqno >= s.highestSeq)
  }

  lemma SeenMore(s: Core, log: Log, t: Core, rec: Record)
    requires Seen(s, log) && s.highestSeq <= t.highestSeq <= Max(s.highestSeq, rec.seqno)
    requires rec.phase != Code(Checkpoint) ==> rec.seqno <= t.highestSeq
    ensures Seen(t, log + [rec])
  {
    if s.highestSeq > 0 {
      var top :| top in log && top.seqno >= s.highestSeq;
      assert top in log + [rec];
    }
    assert rec in log + [rec];
  }

  lemma {:induction false} PruneKeeps(log: Log, floor: nat, rec: Record)
    requires rec in log && rec.seqno >= floor
    ensures rec in Prune(log, floor)
  {
    var last := log[|log| - 1];
    if rec in log[..|log| - 1] {
      PruneKeeps(log[..|log| - 1], floor, rec);
    } else {
      assert rec == last;
    }
  }

  /** The checkpoint row itself outlives the pruning it causes, and with it the greatest sequence. */
  lemma SeenPruned(s: Core, log: Log, rec: Record)
    requires Seen(s, log + [rec])
    ensures Seen(s, Prune(log + [rec], rec.seqno))
  {
    var longer := log + [rec];
    PrunedRows(longer, rec.seqno);
    assert longer[|log|] == rec;
    PruneKeeps(longer, rec.seqno, rec);
    if s.highestSeq > 0 {
      var top :| top in longer && top.seqno >= s.highestSeq;
      if top.seqno >= rec.seqno {
        PruneKeeps(longer, rec.seqno, top);
      }
    }
  }

  lemma ProposalSeen(reg: Registry, s: Core, k: Ballot)
    requires Inv(reg, s)
    ensures k in s.proposals ==> k.seqno <= s.highestSeq
  {
  }

  lemma PrepareSees(reg: Registry, s: Core, m: Message)
    requires Inv(reg, s) && m.phase == Prepare && OnPrepare(reg, s, m).Accepted?
    ensures OnPrepare(reg, s, m).state.highestSeq == s.highestSeq >= m.seqno
  {
    hide Full, Inv, AddVote, Certify;
    ProposalSeen(reg, s, m.Key());
  }

  lemma CommitSees(reg: Registry, s: Core, m: Message)
    requires Inv(reg, s) && m.phase == Commit && OnCommit(reg, s, m).Accepted?
    ensures OnCommit(reg, s, m).state.highestSeq == s.highestSeq >= m.seqno
  {
    hide Full, HasPrepared, Inv, AddVote, Certify, Decide;
    ProposalSeen(reg, s, m.Key());
  }

  lemma CheckpointSees(reg: Registry, s: Core, m: Message)
    requires m.phase == Checkpoint && OnCheckpoint(reg, s, m).Accepted?
    ensures OnCheckpoint(reg, s, m).state.highestSeq == s.highestSeq
  {
    hide Full, AddVote, ProposalsAbove, VotesAbove, CertificatesAbove, DigestsAbove;
  }

  /** What an accepted message does to the live highest sequence. */
  lemma HandleSees(reg: Registry, s: Core, m: Message)
    requires reg.nodes > 0 && Inv(reg, s) && Handle(reg, s, m).Accepted?
    ensures var t := Handle(reg, s, m).state;
      && t.highestSeq == (if m.phase == PrePrepare && m.seqno > s.highestSeq then m.seqno else s.highestSeq)
      && (m.phase != Checkpoint ==> m.seqno <= t.highestSeq)
  {
    hide Inv, OnPrepare, OnCommit, OnViewChange, OnCheckpoint;
    match m.phase {
      case PrePrepare =>
      case Prepare => PrepareSees(reg, s, m);
      case Commit => CommitSees(reg, s, m);
      case ViewChange => ReportSees(reg, s, m);
      case Checkpoint => CheckpointSees(reg, s, m);
    }
  }

  lemma ReportSees(reg: Registry, s: Core, m: Message)
    requires Inv(reg, s) && m.phase == ViewChange && OnViewChange(reg, s, m).Accepted?
    ensures m.seqno <= s.highestSeq && OnViewChange(reg, s, m).state.highestSeq == s.highestSeq
  {
    hide Full, FullReports, Inv, NewViewOk, HighestSlot, HasPreparedValue;
    if m.seqno > 0 {
      ReportedIsSeen(reg, s, m.seqno, m.digest);
    }
    var votes := AddReport(s.viewChangeVotes, m.view, m.sender, Report(m.seqno, m.digest, m.signature))[m.view];
    if HighestSlot(votes).Some? {
      var top := HighestSlot(votes).value;
      if SelectPrepared(reg, s.prepared, m.view, top.seqno, top.digest).Some? {
        SelectedIsSeen(reg, s, m.view, top.seqno, top.digest);
      }
    }
  }

  lemma DeliverHandledSees(node: Node, m: Message, fate: Fate, o: Outcome)
    requires Seen(node.live, node.log)
    requires o.Accepted? ==>
      && Seen(o.state, node.log + [RecordOf(m)])
      && Seen(o.state, Prune(node.log + [RecordOf(m)], m.seqno))
    ensures Seen(DeliverHandled(node, m, fate, o).0.live, DeliverHandled(node, m, fate, o).0.log)
  {
    hide Seen, Prune;
  }

  lemma AfterSees(reg: Registry, node: Node, e: Event)
    requires reg.nodes > 0 && NodeOk(reg, node) && Seen(node.live, node.log)
    ensures Seen(After(reg, node, e).live, After(reg, node, e).log)
  {
    hide Inv, Logged, Handle, Seen, DeliverHandled, Replay, Prune;
    match e {
      case Arrives(m, fate) =>
        var o := Handle(reg, node.live, m);
        if o.Accepted? {
          HandleSees(reg, node.live, m);
          SeenMore(node.live, node.log, o.state, RecordOf(m));
          SeenPruned(o.state, node.log, RecordOf(m));
        }
        DeliverHandledSees(node, m, fate, o);
      case Reboot =>
        if Restart(reg, node).Some? {
          ReplaySees(reg, OnDisk(node).value);
        }
    }
  }

  lemma ReplaySees(reg: Registry, log: Log)
    requires reg.nodes > 0 && Replay(reg, log).Recovered?
    ensures Seen(Replay(reg, log).state, log)
  {
    hide Replay;
    ReplayedHighest(reg, log);
  }

  lemma {:induction false} RunSees(reg: Registry, events: seq<Event>)
    requires reg.nodes > 0
    ensures Seen(Run(reg, events).live, Run(reg, events).log)
  {
    hide NodeOk, After, Seen;
    if |events| == 0 {
      assert Seen(INITIAL, []) by { NothingSeen(); }
    } else {
      RunSees(reg, events[..|events| - 1]);
      RunOk(reg, events[..|events| - 1]);
      AfterSees(reg, Run(reg, events[..|events| - 1]), events[|events| - 1]);
    }
  }

  lemma NothingSeen()
    ensures Seen(INITIAL, [])
  {
  }

  /**
   How far replay is ahead, in every run: it recovers the greater of the live highest sequence
   and the greatest checkpoint vote in the log, and so the live one exactly if no logged
   checkpoint vote is above it.
   */
  lemma RecoveredAhead(reg: Registry, events: seq<Event>)
    requires reg.nodes > 0 && Replay(reg, Run(reg, events).log).Recovered?
    ensures var node := Run(reg, events);
      var h := Replay(reg, node.log).state.highestSeq;
      && Greatest(node.log, h) && h >= node.live.highestSeq
      && (h > node.live.highestSeq ==>
            exists rec :: rec in node.log && rec.phase == Code(Checkpoint) && rec.seqno == h)
      && (h == node.live.highestSeq <==>
            forall rec :: rec in node.log && rec.phase == Code(Checkpoint) ==> rec.seqno <= node.live.highestSeq)
  {
    RunSees(reg, events);
    ReplayedHighest(reg, Run(reg, events).log);
    var node := Run(reg, events);
    hide Run, Replay;
    var h := Replay(reg, node.log).state.highestSeq;
    if h > 0 {
      var top :| top in node.log && top.seqno == h;
    }
  }
}
