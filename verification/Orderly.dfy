/**
 Runs in which every log replays: no accepted proposal is for a slot the log holds under
 another value, and no accepted report contradicts one the log holds of the same sender
 for the same target. Both can be looked up before the message is handled.
 */
module Orderly {
  import opened Base
  import opened Protocol
  import opened Recovery
  import opened Invariants
  import opened Completeness
  import opened Durability
  import opened LogMeaning
  import opened Compaction
  import opened Selection
  import opened Restarting

  /** The log holds no other report of the sender of `m` for its target. */
  predicate FreshReport(log: Log, m: Message) {
    forall rec :: rec in log && rec.phase == Code(ViewChange) && rec.view == m.view && rec.sender == m.sender ==>
      rec.seqno == m.seqno && rec.digest == m.digest
  }

  ghost predicate InOrder(reg: Registry, node: Node, e: Event)
    requires reg.nodes > 0
  {
    e.Arrives? && !node.failed && Handle(reg, node.live, e.m).Accepted? ==>
      && (e.m.phase == PrePrepare ==> FreshSlot(node.log, e.m.Key()))
      && (e.m.phase == ViewChange ==> FreshReport(node.log, e.m))
  }

  ghost predicate OrderlyRun(reg: Registry, events: seq<Event>)
    requires reg.nodes > 0
  {
    |events| == 0 ||
    (var before := events[..|events| - 1];
     OrderlyRun(reg, before) && InOrder(reg, Run(reg, before), events[|events| - 1]))
  }

  // -------------------------------------------------------------------- the invariant

  /** Every report row of the log is what the table holds of its sender. */
  ghost predicate RowsMatch(table: ReportTable, log: Log) {
    forall rec :: rec in log && rec.phase == Code(ViewChange) ==>
      && rec.sender in ReportsFor(table, rec.view)
      && ReportsFor(table, rec.view)[rec.sender].seqno == rec.seqno
      && ReportsFor(table, rec.view)[rec.sender].digest == rec.digest
  }

  /** No table outgrows a quorum, and the quorums are unambiguous. */
  ghost predicate TablesSettled(reg: Registry, table: ReportTable) {
    forall t: nat ::
      && |ReportsFor(table, t)| <= reg.Quorum()
      && (FullReports(reg, ReportsFor(table, t)) ==> HighestSlot(ReportsFor(table, t)).Some?)
  }

  ghost predicate Tidy(reg: Registry, s: Core, log: Log) {
    OneValuePerSlot(log) && RowsMatch(s.viewChangeVotes, log) && TablesSettled(reg, s.viewChangeVotes)
  }

  lemma {:induction false} LoggedReportIsRow(log: Log, t: nat, i: nat) returns (rec: Record)
    requires i in LoggedReports(log, t)
    ensures rec in log && rec.phase == Code(ViewChange) && rec.view == t && rec.sender == i
    ensures LoggedReports(log, t)[i].seqno == rec.seqno && LoggedReports(log, t)[i].digest == rec.digest
  {
    var last := log[|log| - 1];
    if last.phase == Code(ViewChange) && last.view == t && last.sender == i {
      rec := last;
    } else {
      rec := LoggedReportIsRow(log[..|log| - 1], t, i);
    }
  }

  /** Reports by the same senders of the same values have the same highest slot. */
  lemma SameTops(a: Reports, b: Reports)
    requires a.Keys == b.Keys && forall i :: i in a ==> a[i].seqno == b[i].seqno && a[i].digest == b[i].digest
    requires HighestSlot(b).Some?
    ensures HighestSlot(a).Some?
  {
    HighestSlotIff(b, 0, ZERO_DIGEST);
    HighestSlotIff(a, 0, ZERO_DIGEST);
    MapSize(a);
    MapSize(b);
    hide HighestSlot;
    assert b != map[];
    if |a| > 0 {
      SameMax(a, b);
    }
  }

  lemma SameMax(a: Reports, b: Reports)
    requires a.Keys == b.Keys && (forall i :: i in a ==> a[i].seqno == b[i].seqno) && |a| > 0 && |b| > 0
    ensures MaxReported(a) == MaxReported(b)
  {
    var i :| i in a && a[i].seqno == MaxReported(a);
    var j :| j in b && b[j].seqno == MaxReported(b);
    assert b[i].seqno <= MaxReported(b) && a[j].seqno <= MaxReported(a);
  }

  /** A tidy log is readable: a logged quorum is the whole quorum the state once settled. */
  lemma TidyReadable(reg: Registry, s: Core, log: Log)
    requires Tidy(reg, s, log)
    ensures Readable(reg, log)
  {
    forall t: nat | FullReports(reg, LoggedReports(log, t)) ensures HighestSlot(LoggedReports(log, t)).Some? {
      var a, b := LoggedReports(log, t), ReportsFor(s.viewChangeVotes, t);
      hide HighestSlot, LoggedReports, OneValuePerSlot;
      forall i | i in a ensures i in b && a[i].seqno == b[i].seqno && a[i].digest == b[i].digest {
        var rec := LoggedReportIsRow(log, t, i);
      }
      MapSize(a);
      MapSize(b);
      SameKeys(a.Keys, b.Keys);
      SameTops(a, b);
    }
  }

  lemma SameKeys(a: set<nat>, b: set<nat>)
    requires a <= b && |a| >= |b|
    ensures a == b
  {
    assert b == a + (b - a);
    assert b - a == {};
  }

  // --------------------------------------------------------------------- its steps

  lemma RowsMatchStep(table: ReportTable, log: Log, rec: Record)
    requires RowsMatch(table, log) && rec.phase != Code(ViewChange)
    ensures RowsMatch(table, log + [rec])
  {
  }

  lemma ReportMatches(table: ReportTable, log: Log, m: Message)
    requires RowsMatch(table, log) && m.phase == ViewChange && FreshReport(log, m)
    ensures RowsMatch(AddReport(table, m.view, m.sender, Report(m.seqno, m.digest, m.signature)), log + [RecordOf(m)])
  {
    var next := AddReport(table, m.view, m.sender, Report(m.seqno, m.digest, m.signature));
    forall rec | rec in log + [RecordOf(m)] && rec.phase == Code(ViewChange)
      ensures rec.sender in ReportsFor(next, rec.view)
      ensures ReportsFor(next, rec.view)[rec.sender].seqno == rec.seqno
      ensures ReportsFor(next, rec.view)[rec.sender].digest == rec.digest
    {
      assert rec in log || rec == RecordOf(m);
    }
  }

  /** One report more, in a table that had no quorum yet. */
  lemma SettledStep(reg: Registry, table: ReportTable, target: nat, sender: nat, report: Report)
    requires TablesSettled(reg, table) && !FullReports(reg, ReportsFor(table, target))
    requires var votes := ReportsFor(table, target)[sender := report];
      FullReports(reg, votes) ==> HighestSlot(votes).Some?
    ensures TablesSettled(reg, AddReport(table, target, sender, report))
  {
    hide HighestSlot;
    var before := ReportsFor(table, target);
    var after := before[sender := report];
    assert after.Keys == before.Keys + {sender};
    MapSize(before);
    MapSize(after);
    forall t: nat | t != target
      ensures ReportsFor(AddReport(table, target, sender, report), t) == ReportsFor(table, t)
    {
    }
  }

  /** An accepted report fills its table up to a quorum at most, and then unambiguously. */
  lemma ReportSettles(reg: Registry, s: Core, m: Message)
    requires Inv(reg, s) && TablesSettled(reg, s.viewChangeVotes) && OnViewChange(reg, s, m).Accepted?
    ensures TablesSettled(reg, OnViewChange(reg, s, m).state.viewChangeVotes)
  {
    OnViewChangeShape(reg, s, m);
    UnambiguousQuorum(reg, s, m);
    EmptyReportsNotFull(reg);
    assert m.view in s.viewChangeVotes ==> ReportsOk(reg, s.view, m.view, s.viewChangeVotes[m.view]);
    hide HighestSlot, OnViewChange, Inv, NewViewStep, FullReports, TablesSettled;
    SettledStep(reg, s.viewChangeVotes, m.view, m.sender, Report(m.seqno, m.digest, m.signature));
  }

  lemma UnambiguousQuorum(reg: Registry, s: Core, m: Message)
    requires OnViewChange(reg, s, m).Accepted?
    ensures var votes := AddReport(s.viewChangeVotes, m.view, m.sender, Report(m.seqno, m.digest, m.signature))[m.view];
      FullReports(reg, votes) ==> HighestSlot(votes).Some?
  {
    hide FullReports, HighestSlot, NewViewOk, HasPreparedValue, SelectPrepared;
  }

  lemma HandleTidy(reg: Registry, s: Core, log: Log, m: Message)
    requires reg.nodes > 0 && Inv(reg, s) && Tidy(reg, s, log) && Handle(reg, s, m).Accepted?
    requires m.phase == PrePrepare ==> FreshSlot(log, m.Key())
    requires m.phase == ViewChange ==> FreshReport(log, m)
    ensures Tidy(reg, Handle(reg, s, m).state, log + [RecordOf(m)])
  {
    var rec, t := RecordOf(m), Handle(reg, s, m).state;
    OneValueStep(log, rec);
    if m.phase == ViewChange {
      assert t == OnViewChange(reg, s, m).state;
      OnViewChangeShape(reg, s, m);
      ReportSettles(reg, s, m);
      hide Handle, OnViewChange, Inv, OneValuePerSlot, RowsMatch, TablesSettled, NewViewStep;
      ReportMatches(s.viewChangeVotes, log, m);
    } else {
      HandleTables(reg, s, m);
      hide Handle, Inv, OneValuePerSlot, RowsMatch, TablesSettled;
      RowsMatchStep(s.viewChangeVotes, log, rec);
    }
  }

  lemma PrunedTidy(reg: Registry, s: Core, log: Log, floor: nat)
    requires Tidy(reg, s, log)
    ensures Tidy(reg, s, Prune(log, floor))
  {
    hide TablesSettled, Prune;
    PrunedRows(log, floor);
    PrunedProposals(log, floor);
  }

  lemma {:induction false} ReportersBound(reg: Registry, log: Log, t: nat)
    requires reg.nodes > 0 && Justified(reg, log)
    ensures |LoggedReporters(log, t)| <= reg.Quorum()
  {
    if |log| > 0 {
      ReportersBound(reg, log[..|log| - 1], t);
      assert RowJustified(reg, log[..|log| - 1], log[|log| - 1]);
    }
  }

  /** A replica restarted from a tidy log is tidy. */
  lemma ReplayTidy(reg: Registry, s: Core, log: Log)
    requires reg.nodes > 0 && Tidy(reg, s, log) && Justified(reg, log) && Replay(reg, log).Recovered?
    ensures Tidy(reg, Replay(reg, log).state, log)
  {
    var r := Replay(reg, log).state;
    TidyReadable(reg, s, log);
    FoldReportsAre(reg, log);
    assert ReportsAre(r.viewChangeVotes, log);
    hide Replay, Justified, OneValuePerSlot, HighestSlot;
    forall t: nat
      ensures |ReportsFor(r.viewChangeVotes, t)| <= reg.Quorum()
      ensures FullReports(reg, ReportsFor(r.viewChangeVotes, t)) ==> HighestSlot(ReportsFor(r.viewChangeVotes, t)).Some?
    {
      ReportersAreKeys(log, t);
      ReportersBound(reg, log, t);
      MapSize(LoggedReports(log, t));
    }
    hide TablesSettled, LoggedReports, FullReports;
    forall rec | rec in log && rec.phase == Code(ViewChange)
      ensures rec.sender in ReportsFor(r.viewChangeVotes, rec.view)
      ensures ReportsFor(r.viewChangeVotes, rec.view)[rec.sender].seqno == rec.seqno
      ensures ReportsFor(r.viewChangeVotes, rec.view)[rec.sender].digest == rec.digest
    {
      RowIsReported(log, rec);
      var other := LoggedReportIsRow(log, rec.view, rec.sender);
    }
  }

  lemma {:induction false} RowIsReported(log: Log, rec: Record)
    requires rec in log && rec.phase == Code(ViewChange)
    ensures rec.sender in LoggedReports(log, rec.view)
  {
    var init, last := log[..|log| - 1], log[|log| - 1];
    if rec in init {
      RowIsReported(init, rec);
    } else {
      assert rec == last;
    }
  }

  ghost predicate NodeTidy(reg: Registry, node: Node) {
    && Tidy(reg, node.live, node.log)
    && (node.tail.Whole? ==> exists next: Core :: Tidy(reg, next, node.log + [node.tail.rec]))
  }

  lemma DeliverHandledTidy(reg: Registry, node: Node, m: Message, fate: Fate, o: Outcome)
    requires NodeTidy(reg, node)
    requires o.Accepted? ==>
      && Tidy(reg, o.state, node.log + [RecordOf(m)])
      && (o.response == CheckpointStabilized ==> Tidy(reg, o.state, Prune(node.log + [RecordOf(m)], m.seqno)))
    requires node.tail == Clean
    ensures NodeTidy(reg, DeliverHandled(node, m, fate, o).0)
  {
    hide Tidy, Prune;
  }

  lemma AfterTidy(reg: Registry, node: Node, e: Event)
    requires reg.nodes > 0 && NodeOk(reg, node) && NodeJustified(reg, node) && NodeTidy(reg, node)
      && InOrder(reg, node, e)
    ensures NodeTidy(reg, After(reg, node, e))
  {
    hide Inv, Logged, Handle, Tidy, Justified, Kept, Replay, DeliverHandled, Prune;
    match e {
      case Arrives(m, fate) =>
        if !node.failed {
          var o := Handle(reg, node.live, m);
          if o.Accepted? {
            HandleTidy(reg, node.live, node.log, m);
            PrunedTidy(reg, o.state, node.log + [RecordOf(m)], m.seqno);
          }
          DeliverHandledTidy(reg, node, m, fate, o);
        }
      case Reboot =>
        if Restart(reg, node).Some? {
          var s: Core :| Tidy(reg, s, OnDisk(node).value);
          ReplayTidy(reg, s, OnDisk(node).value);
        }
    }
  }

  lemma {:induction false} RunTidy(reg: Registry, events: seq<Event>)
    requires reg.nodes > 0 && OrderlyRun(reg, events)
    ensures NodeTidy(reg, Run(reg, events))
  {
    if |events| == 0 {
      FreshTidy(reg);
    } else {
      hide NodeTidy, NodeOk, NodeJustified, After;
      var before := events[..|events| - 1];
      RunTidy(reg, before);
      RunOk(reg, before);
      RunJustified(reg, before);
      AfterTidy(reg, Run(reg, before), events[|events| - 1]);
    }
  }

  lemma FreshTidy(reg: Registry)
    ensures NodeTidy(reg, FRESH)
  {
    EmptyReportsNotFull(reg);
  }

  // ------------------------------------------------------------------------ results

  /**
   In an orderly run a replica restarts from any log it may have left, compacted or not, unless
   the file ends in a torn record; and its log replays to the live stable checkpoint, to
   everything above it, and to a view no later than the live one.
   */
  lemma OrderlyRunRestarts(reg: Registry, events: seq<Event>)
    requires reg.nodes > 0 && Combines(reg) && OrderlyRun(reg, events)
    ensures var node := Run(reg, events);
      && (Restart(reg, node).Some? <==> node.tail != Torn)
      && Replay(reg, node.log).Recovered?
      && (var r := Replay(reg, node.log).state;
          r.stable == node.live.stable && r.view <= node.live.view && SameAbove(r, node.live, node.live.stable))
  {
    var node := Run(reg, events);
    RunTidy(reg, events);
    TidyReadable(reg, node.live, node.log);
    if node.tail.Whole? {
      var next: Core :| Tidy(reg, next, node.log + [node.tail.rec]);
      TidyReadable(reg, next, node.log + [node.tail.rec]);
    }
    hide Run, Readable, Tidy, Combines, Replay, SameAbove;
    RestartIff(reg, events);
    ReadableRunReplays(reg, events);
  }

  /** Right after a checkpoint of an orderly run stabilises, pruned or not, a restart comes back in the live view. */
  lemma OrderlyCheckpointKeepsView(reg: Registry, events: seq<Event>, m: Message, fate: Fate)
    requires reg.nodes > 0 && Combines(reg) && OrderlyRun(reg, events) && !Run(reg, events).failed
    requires Handle(reg, Run(reg, events).live, m).Accepted?
    requires Handle(reg, Run(reg, events).live, m).response == CheckpointStabilized
    requires fate in {Durable, PruneAborted, PruneUnsynced}
    ensures var node := Deliver(reg, Run(reg, events), m, fate).0;
      && Replay(reg, node.log).Recovered?
      && (var r := Replay(reg, node.log).state;
          && node.live.stable == m.seqno
          && r.stable == m.seqno && r.view == node.live.view && SameAbove(r, node.live, m.seqno))
  {
    var longer := events + [Arrives(m, fate)];
    assert longer[..|events|] == events && m.phase == Checkpoint;
    hide Handle, Combines, Replay, SameAbove, Deliver;
    OrderlyRunRestarts(reg, longer);
    FreshCheckpointKeepsView(reg, events, m, fate);
  }
}
