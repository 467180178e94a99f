/**
 The other way a replica loses its log. A node that reports a prepared value for a view
 and then reports none has only its last report counted, while replay of the pruned log
 meets only its first; if the others report another value, the log is refused.
 */
module DoubleReports {
  import opened Base
  import opened Protocol
  import opened Recovery
  import opened Invariants
  import opened Completeness
  import opened Durability
  import opened LogMeaning
  import opened Compaction
  import opened Restarting
  import opened Rounds
  import opened Limits
  import Selection

  // ------------------------------------------------------------- entering a view

  /** A node once reports of value `k` have completed a quorum and brought it to view `k.view`. */
  ghost predicate Entered(node: Node, k: Ballot, sign: Signer, from: nat, to: nat, after: Node) {
    && after == node.(live := after.live, log := node.log + RoundRows(ViewChange, k, sign, from, to))
    && after.live == node.live.(view := k.view, highestSeq := after.live.highestSeq, newViews := after.live.newViews,
                                viewChangeVotes := after.live.viewChangeVotes)
    && forall t: nat :: t != k.view ==>
         ReportsFor(after.live.viewChangeVotes, t) == ReportsFor(node.live.viewChangeVotes, t)
  }

  /** `k` may be reported and, if it is the highest report, selected. */
  ghost predicate Reportable(s: Core, k: Ballot) {
    k.view > s.view && (k.seqno > 0 ==> Backed(s.prepared, k.view, k.seqno, k.digest))
  }

  /** The reports so far are of the nodes below `from`, and all of sequence 0. */
  ghost predicate ZeroReports(votes: Reports, from: nat) {
    votes.Keys == Below(from) && forall i :: i in votes ==> votes[i].seqno == 0
  }

  lemma GrownTop(before: Reports, k: Ballot, from: nat, n: nat, now: Reports, report: Report) returns (top: Top)
    requires Grown(before, k, from, n, now) && ZeroReports(before, from) && from <= n
    requires report.seqno == k.seqno && report.digest == k.digest
    ensures Protocol.HighestSlot(now[n := report]) == Some(top)
    ensures top == if k.seqno > 0 then Top(k.seqno, k.digest) else Top(0, ZERO_DIGEST)
  {
    var votes := now[n := report];
    forall j | j in votes
      ensures if j < from then votes[j].seqno == 0 else votes[j].seqno == k.seqno && votes[j].digest == k.digest
    {
      if j < from {
        assert j in now && j in before;
      }
    }
    hide Protocol.HighestSlot;
    top := if k.seqno > 0 then Top(k.seqno, k.digest) else Top(0, ZERO_DIGEST);
    if k.seqno > 0 {
      OneTop(votes, k.seqno, k.digest, n);
    } else {
      ZeroTop(votes, n);
    }
  }

  lemma BackedReportable(reg: Registry, node: Node, k: Ballot)
    requires NodeOk(reg, node) && Reportable(node.live, k)
    ensures k.seqno > 0 ==> HasPreparedValue(reg, node.live.prepared, k.seqno, k.digest)
  {
    LiveInv(reg, node);
    if k.seqno > 0 {
      var v: nat :| v < k.view && PreparedFor(node.live.prepared, Ballot(v, k.seqno, k.digest));
      hide NodeOk, Inv, PreparedFor;
      MayReport(reg, node.live, Ballot(v, k.seqno, k.digest));
    }
  }

  lemma LastTop(table: ReportTable, s: Core, k: Ballot, from: nat, m: Message) returns (top: Top)
    requires from <= m.sender && TableGrown(table, k, from, m.sender, s.viewChangeVotes)
    requires ZeroReports(ReportsFor(table, k.view), from) && m.Key() == k
    ensures Protocol.HighestSlot(ReportsWith(s, m)) == Some(top)
    ensures top == if k.seqno > 0 then Top(k.seqno, k.digest) else Top(0, ZERO_DIGEST)
    ensures ReportsWith(s, m).Keys == Below(m.sender + 1)
  {
    var now := ReportsFor(s.viewChangeVotes, k.view);
    assert now.Keys == Below(m.sender);
    top := GrownTop(ReportsFor(table, k.view), k, from, m.sender, now, Report(k.seqno, k.digest, m.signature));
  }

  lemma Completing(reg: Registry, sign: Signer, node: Node, k: Ballot)
    requires reg.Topology() && Signs(reg, sign) && NodeOk(reg, node) && Reportable(node.live, k)
    requires ReportsWith(node.live, Sent(ViewChange, k, 2 * reg.faults, sign)).Keys == Below(2 * reg.faults + 1)
    ensures CompletesViewChange(reg, node.live, Sent(ViewChange, k, 2 * reg.faults, sign))
  {
    var m := Sent(ViewChange, k, 2 * reg.faults, sign);
    assert m.Key() == k && reg.sigOk(m.sender, m.Signed(), m.signature);
    hide Signs, ReportsWith, HasPreparedValue, NodeOk, Backed, Below, FullReports;
    BackedReportable(reg, node, k);
    ReportsSmall(reg, ReportsWith(node.live, m), m.sender + 1);
  }

  /** The report that completes the quorum. */
  lemma LastReport(reg: Registry, sign: Signer, before: Node, k: Ballot, table: ReportTable, from: nat)
    requires reg.Topology() && Signs(reg, sign) && NodeOk(reg, before)
    requires from <= 2 * reg.faults && TableGrown(table, k, from, 2 * reg.faults, before.live.viewChangeVotes)
    requires Reportable(before.live, k) && ZeroReports(ReportsFor(table, k.view), from)
    ensures var m := Sent(ViewChange, k, 2 * reg.faults, sign);
      var o := Handle(reg, before.live, m);
      && o.Accepted? && o.response == ViewChanged
      && o.state == before.live.(view := k.view, highestSeq := o.state.highestSeq, newViews := o.state.newViews,
                                 viewChangeVotes := before.live.viewChangeVotes[k.view := ReportsWith(before.live, m)])
  {
    var m := Sent(ViewChange, k, 2 * reg.faults, sign);
    assert k.seqno > 0 ==> Backed(before.live.prepared, k.view, k.seqno, k.digest);
    hide NodeOk, Inv, Protocol.HighestSlot, Handle, Backed, Signs, TableGrown, CompletesViewChange;
    hide ReportsWith, Below, ZeroReports, Reportable, ReportsFor;
    LiveInv(reg, before);
    var top := LastTop(table, before.live, k, from, m);
    Completing(reg, sign, before, k);
    ReportCompletes(reg, before.live, m, top);
  }

  /** Report `m` brings the replica into its view. */
  ghost predicate Enters(before: Node, m: Message, after: Node) {
    && after == before.(live := after.live, log := before.log + [RecordOf(m)])
    && after.live == before.live.(view := m.view, highestSeq := after.live.highestSeq, newViews := after.live.newViews,
                       viewChangeVotes := before.live.viewChangeVotes[m.view := ReportsWith(before.live, m)])
  }

  lemma EnteredStep(node: Node, k: Ballot, sign: Signer, from: nat, n: nat, before: Node, after: Node)
    requires AfterReports(node, k, sign, from, n, before) && from <= n
    requires Enters(before, Sent(ViewChange, k, n, sign), after)
    ensures Entered(node, k, sign, from, n + 1, after)
  {
    var m := Sent(ViewChange, k, n, sign);
    assert node.log + RoundRows(ViewChange, k, sign, from, n) + [RecordOf(m)]
        == node.log + RoundRows(ViewChange, k, sign, from, n + 1);
    hide RoundRows, ReportsWith, Grown;
  }

  lemma AllButOne(reg: Registry, sign: Signer, node: Node, k: Ballot, from: nat)
    requires reg.Topology() && Signs(reg, sign) && NodeOk(reg, node) && !node.failed
    requires from <= 2 * reg.faults && Reportable(node.live, k)
    requires ReportsFor(node.live.viewChangeVotes, k.view).Keys == Below(from)
    ensures var before := Continue(reg, node, Round(ViewChange, k, sign, from, 2 * reg.faults));
      && NodeOk(reg, before) && !before.failed && Reportable(before.live, k)
      && AfterReports(node, k, sign, from, 2 * reg.faults, before)
      && TableGrown(node.live.viewChangeVotes, k, from, 2 * reg.faults, before.live.viewChangeVotes)
  {
    hide NodeOk, Continue, Round, HasPreparedValue, Signs, Backed, TableGrown, RoundRows;
    BackedReportable(reg, node, k);
    Reported(reg, sign, node, k, from, 2 * reg.faults);
  }

  lemma Completed(reg: Registry, sign: Signer, before: Node, k: Ballot, table: ReportTable, from: nat)
    requires reg.Topology() && Signs(reg, sign) && NodeOk(reg, before) && !before.failed
    requires from <= 2 * reg.faults && TableGrown(table, k, from, 2 * reg.faults, before.live.viewChangeVotes)
    requires Reportable(before.live, k) && ZeroReports(ReportsFor(table, k.view), from)
    ensures var m := Sent(ViewChange, k, 2 * reg.faults, sign);
      var after := After(reg, before, Arrives(m, Durable));
      && NodeOk(reg, after)
      && Enters(before, m, after)
  {
    hide NodeOk, Handle, Signs, After, TableGrown, Reportable, ReportsWith, ZeroReports, ReportsFor;
    LastReport(reg, sign, before, k, table, from);
    Accepts(reg, before, Sent(ViewChange, k, 2 * reg.faults, sign));
  }

  /** A quorum of reports of one value, on top of empty ones, brings the replica into their view. */
  lemma ReportQuorum(reg: Registry, sign: Signer, node: Node, k: Ballot, from: nat)
    requires reg.Topology() && Signs(reg, sign) && NodeOk(reg, node) && !node.failed
    requires from <= 2 * reg.faults && Reportable(node.live, k)
    requires ZeroReports(ReportsFor(node.live.viewChangeVotes, k.view), from)
    ensures var after := Continue(reg, node, Round(ViewChange, k, sign, from, reg.Quorum()));
      NodeOk(reg, after) && Entered(node, k, sign, from, reg.Quorum(), after)
  {
    var n := 2 * reg.faults;
    hide NodeOk, Continue, Round, Signs, After, TableGrown, RoundRows, AfterReports, Entered, Reportable, ReportsWith;
    hide Below, ReportsFor, Enters, Sent;
    var before, m := Continue(reg, node, Round(ViewChange, k, sign, from, n)), Sent(ViewChange, k, n, sign);
    AllButOne(reg, sign, node, k, from);
    Completed(reg, sign, before, k, node.live.viewChangeVotes, from);
    var after := After(reg, before, Arrives(m, Durable));
    assert Continue(reg, node, Round(ViewChange, k, sign, from, reg.Quorum())) == after by {
      RoundStep(reg, node, ViewChange, k, sign, from, reg.Quorum());
    }
    EnteredStep(node, k, sign, from, n, before, after);
  }

  // ---------------------------------------------------------- the two reports of node 0

  /** Node 0 reports `k`, and then that it has prepared nothing. */
  function Retraction(k: Ballot, z: Digest, sign: Signer): seq<Event> {
    [Arrives(Sent(ViewChange, k, 0, sign), Durable)]
      + [Arrives(Sent(ViewChange, Ballot(k.view, 0, z), 0, sign), Durable)]
  }

  function RetractionRows(k: Ballot, z: Digest, sign: Signer): Log {
    [RecordOf(Sent(ViewChange, k, 0, sign))] + [RecordOf(Sent(ViewChange, Ballot(k.view, 0, z), 0, sign))]
  }

  /** One report by node 0, when nobody else has reported. */
  lemma FirstReport(reg: Registry, sign: Signer, node: Node, k: Ballot)
    requires reg.Topology() && reg.faults > 0 && Signs(reg, sign) && NodeOk(reg, node) && !node.failed
    requires Reportable(node.live, k) && ReportsFor(node.live.viewChangeVotes, k.view).Keys <= {0}
    ensures var m := Sent(ViewChange, k, 0, sign);
      var after := After(reg, node, Arrives(m, Durable));
      && NodeOk(reg, after)
      && after == node.(live := node.live.(viewChangeVotes := after.live.viewChangeVotes),
        log := node.log + [RecordOf(m)])
      && after.live.viewChangeVotes ==
           node.live.viewChangeVotes[k.view := map[0 := Report(k.seqno, k.digest, m.signature)]]
  {
    var m := Sent(ViewChange, k, 0, sign);
    BackedReportable(reg, node, k);
    assert ReportsWith(node.live, m) == map[0 := Report(k.seqno, k.digest, m.signature)];
    hide NodeOk, HasPreparedValue, Signs, Backed, After;
    ReportArrives(reg, sign, node, k, 0);
  }

  lemma OneZero(table: ReportTable, k: Ballot, first: Report, last: Report)
    requires last.seqno == 0
    ensures var next := table[k.view := map[0 := first]][k.view := map[0 := last]];
      && ZeroReports(ReportsFor(next, k.view), 1)
      && forall t: nat :: t != k.view ==> ReportsFor(next, t) == ReportsFor(table, t)
  {
    assert map[0 := last].Keys == Below(1);
  }

  lemma MayReportZero(s: Core, k: Ballot, z: Digest, table: ReportTable, report: Report)
    requires k.view > s.view && table == s.viewChangeVotes[k.view := map[0 := report]]
    ensures Reportable(s.(viewChangeVotes := table), Ballot(k.view, 0, z))
    ensures ReportsFor(table, k.view).Keys <= {0}
  {
  }

  lemma BothReports(reg: Registry, sign: Signer, node: Node, k: Ballot, z: Digest)
    requires reg.Topology() && reg.faults > 0 && Signs(reg, sign) && NodeOk(reg, node) && !node.failed
    requires Reportable(node.live, k) && ReportsFor(node.live.viewChangeVotes, k.view) == map[]
    ensures var p, q := Sent(ViewChange, k, 0, sign), Sent(ViewChange, Ballot(k.view, 0, z), 0, sign);
      var after := After(reg, After(reg, node, Arrives(p, Durable)), Arrives(q, Durable));
      && NodeOk(reg, after)
      && after.live == node.live.(viewChangeVotes := after.live.viewChangeVotes)
      && after == node.(live := after.live, log := node.log + [RecordOf(p)] + [RecordOf(q)])
      && after.live.viewChangeVotes ==
           node.live.viewChangeVotes[k.view := map[0 := Report(k.seqno, k.digest, p.signature)]]
             [k.view := map[0 := Report(0, z, q.signature)]]
  {
    var p := Sent(ViewChange, k, 0, sign);
    hide NodeOk, Signs, After, ReportsFor;
    assert k.view > node.live.view;
    FirstReport(reg, sign, node, k);
    var between := After(reg, node, Arrives(p, Durable));
    MayReportZero(node.live, k, z, between.live.viewChangeVotes, Report(k.seqno, k.digest, p.signature));
    hide Reportable;
    FirstReport(reg, sign, between, Ballot(k.view, 0, z));
  }

  lemma Retracted(reg: Registry, sign: Signer, node: Node, k: Ballot, z: Digest)
    requires reg.Topology() && reg.faults > 0 && Signs(reg, sign) && NodeOk(reg, node) && !node.failed
    requires Reportable(node.live, k) && ReportsFor(node.live.viewChangeVotes, k.view) == map[]
    ensures var after := Continue(reg, node, Retraction(k, z, sign));
      && NodeOk(reg, after)
      && after == node.(live := node.live.(viewChangeVotes := after.live.viewChangeVotes),
                        log := node.log + RetractionRows(k, z, sign))
      && ZeroReports(ReportsFor(after.live.viewChangeVotes, k.view), 1)
      && forall t: nat :: t != k.view ==>
           ReportsFor(after.live.viewChangeVotes, t) == ReportsFor(node.live.viewChangeVotes, t)
  {
    var p, q := Sent(ViewChange, k, 0, sign), Sent(ViewChange, Ballot(k.view, 0, z), 0, sign);
    hide NodeOk, Signs, After, Continue, ZeroReports, ReportsFor, Reportable;
    BothReports(reg, sign, node, k, z);
    One(reg, node, Arrives(p, Durable));
    ContinueStep(reg, node, [Arrives(p, Durable)], Arrives(q, Durable));
    OneZero(node.live.viewChangeVotes, k, Report(k.seqno, k.digest, p.signature), Report(0, z, q.signature));
    assert node.log + [RecordOf(p)] + [RecordOf(q)] == node.log + RetractionRows(k, z, sign);
  }

  // --------------------------------------------------------------- the pruned reports

  lemma PrunedReport(log: Log, rec: Record, floor: nat, t: nat)
    ensures LoggedReports(Prune(log + [rec], floor), t) ==
      if rec.seqno >= floor && rec.phase == Code(ViewChange) && rec.view == t
      then LoggedReports(Prune(log, floor), t)[rec.sender := Report(rec.seqno, rec.digest, rec.signature)]
      else LoggedReports(Prune(log, floor), t)
  {
    assert (log + [rec])[..|log|] == log;
    assert Prune(log, floor) + [] == Prune(log, floor);
    ReportsStep(Prune(log, floor), rec, t);
    hide LoggedReports;
  }

  lemma NeverReported(log: Log, floor: nat, t: nat)
    requires LoggedReporters(log, t) == {}
    ensures LoggedReports(Prune(log, floor), t) == map[]
  {
    PrunedReporters(log, floor, t);
    ReportersAreKeys(Prune(log, floor), t);
  }

  /** A round of reports at or above the floor survives the pruning. */
  lemma {:induction false} PrunedRound(log: Log, floor: nat, k: Ballot, sign: Signer, from: nat, to: nat)
    requires k.seqno >= floor && from <= to && LoggedReports(Prune(log, floor), k.view).Keys == Below(from)
    ensures Grown(LoggedReports(Prune(log, floor), k.view), k, from, to,
              LoggedReports(Prune(log + RoundRows(ViewChange, k, sign, from, to), floor), k.view))
  {
    hide Prune, LoggedReports, Below;
    if to == from {
      assert log + [] == log;
    } else {
      PrunedRound(log, floor, k, sign, from, to - 1);
      var rows, m := RoundRows(ViewChange, k, sign, from, to - 1), Sent(ViewChange, k, to - 1, sign);
      assert log + (rows + [RecordOf(m)]) == log + rows + [RecordOf(m)];
      PrunedReport(log + rows, RecordOf(m), floor, k.view);
      GrownStep(LoggedReports(Prune(log, floor), k.view), k, from, to - 1,
        LoggedReports(Prune(log + rows, floor), k.view),
        Report(k.seqno, k.digest, m.signature));
    }
  }

  lemma {:induction false} PrunedCheckpoints(log: Log, floor: nat, c: Ballot, sign: Signer, n: nat, t: nat)
    ensures LoggedReports(Prune(log + RoundRows(Checkpoint, c, sign, 0, n), floor), t) ==
      LoggedReports(Prune(log, floor), t)
  {
    hide Prune, LoggedReports;
    if n == 0 {
      assert log + [] == log;
    } else {
      PrunedCheckpoints(log, floor, c, sign, n - 1, t);
      var rows, m := RoundRows(Checkpoint, c, sign, 0, n - 1), Sent(Checkpoint, c, n - 1, sign);
      assert log + (rows + [RecordOf(m)]) == log + rows + [RecordOf(m)];
      PrunedReport(log + rows, RecordOf(m), floor, t);
    }
  }

  lemma PrunedRetraction(log: Log, floor: nat, k: Ballot, z: Digest, sign: Signer)
    requires LoggedReporters(log, k.view) == {} && 0 < floor <= k.seqno
    ensures LoggedReports(Prune(log + RetractionRows(k, z, sign), floor), k.view) ==
      map[0 := Report(k.seqno, k.digest, Sent(ViewChange, k, 0, sign).signature)]
  {
    var first := RecordOf(Sent(ViewChange, k, 0, sign));
    var second := RecordOf(Sent(ViewChange, Ballot(k.view, 0, z), 0, sign));
    assert log + RetractionRows(k, z, sign) == log + [first] + [second];
    NeverReported(log, floor, k.view);
    PrunedReport(log, first, floor, k.view);
    PrunedReport(log + [first], second, floor, k.view);
  }

  /** The rows the replica is left with: node 0 reports one value, the others another. */
  function Rows(reg: Registry, log: Log, k: Ballot, z: Digest, o: Ballot, c: Ballot, sign: Signer): Log {
    log + RetractionRows(k, z, sign) + RoundRows(ViewChange, o, sign, 1, reg.Quorum())
      + RoundRows(Checkpoint, c, sign, 0, reg.Quorum())
  }

  /** The pruned log holds a quorum at odds about its highest report. */
  lemma Ambiguous(reg: Registry, log: Log, k: Ballot, z: Digest, o: Ballot, c: Ballot, sign: Signer)
    requires reg.faults > 0 && LoggedReporters(log, k.view) == {} && 0 < c.seqno <= k.seqno
    requires o.view == k.view && o.seqno == k.seqno && o.digest != k.digest
    ensures !Readable(reg, Prune(Rows(reg, log, k, z, o, c, sign), c.seqno))
  {
    var floor, t := c.seqno, k.view;
    var a := log + RetractionRows(k, z, sign);
    var b := a + RoundRows(ViewChange, o, sign, 1, reg.Quorum());
    hide Prune, RoundRows, RetractionRows, LoggedReports, Protocol.HighestSlot;
    PrunedRetraction(log, floor, k, z, sign);
    PrunedRound(a, floor, o, sign, 1, reg.Quorum());
    PrunedCheckpoints(b, floor, c, sign, reg.Quorum(), t);
    AtOdds(reg, LoggedReports(Prune(a, floor), t), k, o, LoggedReports(Prune(b, floor), t));
  }

  lemma AtOdds(reg: Registry, before: Reports, k: Ballot, o: Ballot, votes: Reports)
    requires reg.faults > 0 && before.Keys == Below(1) && Grown(before, o, 1, reg.Quorum(), votes)
    requires 0 in before && before[0].seqno == k.seqno && before[0].digest == k.digest
    requires o.seqno == k.seqno > 0 && o.digest != k.digest
    ensures FullReports(reg, votes) && Protocol.HighestSlot(votes) == None
  {
    ReportsSmall(reg, votes, reg.Quorum());
    Selection.HighestSlotIff(votes, 0, ZERO_DIGEST);
    MapSize(votes);
    assert 0 in votes && votes[0] == before[0] && 1 in votes;
    forall i | i in votes ensures votes[i].seqno == k.seqno {
      assert i < 1 ==> i == 0;
    }
    hide Protocol.HighestSlot;
    assert MaxReported(votes) == k.seqno;
  }

  // --------------------------------------------------------------------- the result

  /** Two values for one sequence are prepared; no report for the view and no vote for the checkpoint is in yet. */
  ghost predicate Divided(s: Core, k: Ballot, o: Ballot, c: Ballot) {
    && k.view == o.view == c.view && k.seqno == o.seqno && k.digest != o.digest
    && s.stable < c.seqno <= k.seqno
    && Reportable(s, k) && Reportable(s, o)
    && ReportsFor(s.viewChangeVotes, k.view) == map[] && VotesFor(s.checkpointVotes, c) == map[]
  }

  /** Node 0 reports `k` and takes it back, the others report `o`, and a checkpoint of the new view stabilises. */
  function Contradiction(reg: Registry, k: Ballot, z: Digest, o: Ballot, c: Ballot, sign: Signer): seq<Event> {
    Retraction(k, z, sign) + Round(ViewChange, o, sign, 1, reg.Quorum()) + Round(Checkpoint, c, sign, 0, reg.Quorum())
  }

  lemma CheckpointRound(reg: Registry, sign: Signer, node: Node, c: Ballot)
    requires reg.Topology() && Signs(reg, sign) && NodeOk(reg, node) && !node.failed
    requires c.view == node.live.view && c.seqno > node.live.stable && VotesFor(node.live.checkpointVotes, c) == map[]
    ensures var after := Continue(reg, node, Round(Checkpoint, c, sign, 0, reg.Quorum()));
      && NodeOk(reg, after) && !after.failed && after.tail == node.tail
      && after.live.view == node.live.view && after.live.stable == c.seqno
      && after.live.proposals == ProposalsAbove(node.live.proposals, c.seqno)
      && after.log == Prune(node.log + RoundRows(Checkpoint, c, sign, 0, reg.Quorum()), c.seqno)
  {
    hide NodeOk, Handle, Signs, Continue, Deliver, Round, Prune;
    var n := 2 * reg.faults;
    var before, m := Continue(reg, node, Round(Checkpoint, c, sign, 0, n)), Sent(Checkpoint, c, n, sign);
    assert node.log + (RoundRows(Checkpoint, c, sign, 0, n) + [RecordOf(m)])
        == node.log + RoundRows(Checkpoint, c, sign, 0, n) + [RecordOf(m)];
    CheckpointQuorumVote(reg, sign, node, c);
    RoundStep(reg, node, Checkpoint, c, sign, 0, n + 1);
    Stabilizes(reg, before, m);
    DeliverOk(reg, before, m, Durable);
  }

  /** The view is entered on the reports of `o`. */
  lemma Divides(reg: Registry, sign: Signer, node: Node, k: Ballot, z: Digest, o: Ballot, c: Ballot)
    requires reg.Topology() && reg.faults > 0 && Signs(reg, sign) && NodeOk(reg, node) && !node.failed
    requires Divided(node.live, k, o, c)
    ensures var after := Continue(reg, Continue(reg, node, Retraction(k, z, sign)),
      Round(ViewChange, o, sign, 1, reg.Quorum()));
      && NodeOk(reg, after) && !after.failed && after.tail == node.tail
      && after.live.view == k.view && after.live.stable == node.live.stable
      && after.live.checkpointVotes == node.live.checkpointVotes
      && after.log == node.log + RetractionRows(k, z, sign) + RoundRows(ViewChange, o, sign, 1, reg.Quorum())
  {
    hide NodeOk, Signs, Continue, Retraction, RetractionRows, Round, RoundRows, Backed, ZeroReports, ReportsFor;
    hide VotesFor;
    Retracted(reg, sign, node, k, z);
    var between := Continue(reg, node, Retraction(k, z, sign));
    assert Reportable(between.live, o);
    hide Reportable, Divided;
    ReportQuorum(reg, sign, between, o, 1);
  }

  lemma ContradictionRuns(reg: Registry, sign: Signer, node: Node, k: Ballot, z: Digest, o: Ballot, c: Ballot)
    requires reg.Topology() && reg.faults > 0 && Signs(reg, sign) && NodeOk(reg, node) && !node.failed
    requires Divided(node.live, k, o, c)
    ensures var after := Continue(reg, node, Contradiction(reg, k, z, o, c, sign));
      && NodeOk(reg, after) && !after.failed && after.tail == node.tail
      && after.live.view == k.view && after.live.stable == c.seqno
      && after.log == Prune(Rows(reg, node.log, k, z, o, c, sign), c.seqno)
  {
    var first, second := Retraction(k, z, sign), Round(ViewChange, o, sign, 1, reg.Quorum());
    var third := Round(Checkpoint, c, sign, 0, reg.Quorum());
    hide NodeOk, Signs, Continue, Retraction, RetractionRows, Round, RoundRows, Prune, Reportable, ReportsFor, VotesFor;
    ContinueTwice(reg, node, first + second, third);
    ContinueTwice(reg, node, first, second);
    Divides(reg, sign, node, k, z, o, c);
    CheckpointRound(reg, sign, Continue(reg, node, first + second), c);
  }

  /** Nothing of this is a proposal. */
  lemma NothingProposed(reg: Registry, log: Log, k: Ballot, z: Digest, o: Ballot, c: Ballot, sign: Signer)
    requires OneValuePerSlot(log)
    ensures OneValuePerSlot(Prune(Rows(reg, log, k, z, o, c, sign), c.seqno))
  {
    var first := RecordOf(Sent(ViewChange, k, 0, sign));
    var second := RecordOf(Sent(ViewChange, Ballot(k.view, 0, z), 0, sign));
    var a := log + RetractionRows(k, z, sign);
    assert a == log + [first] + [second];
    hide Prune, RoundRows, LoggedProposals;
    LogStep(log, first);
    LogStep(log + [first], second);
    KeptByRound(a, ViewChange, o, sign, 1, reg.Quorum());
    KeptByRound(a + RoundRows(ViewChange, o, sign, 1, reg.Quorum()), Checkpoint, c, sign, 0, reg.Quorum());
    PrunedProposals(Rows(reg, log, k, z, o, c, sign), c.seqno);
  }

  /**
   A replica that holds two prepared values for one sequence, in any cluster with f > 0 and
   after any run: one sender reports twice, the view is entered, a checkpoint prunes the second
   report, and the replica can not restart, though its log gained no proposal at all.
   */
  lemma DoubleReportStopsRestart(reg: Registry, sign: Signer, events: seq<Event>, k: Ballot, z: Digest, o: Ballot,
                                 c: Ballot)
    requires reg.Topology() && reg.faults > 0 && Signs(reg, sign) && Combines(reg)
    requires !Run(reg, events).failed && Divided(Run(reg, events).live, k, o, c)
    ensures var (before, after) := (Run(reg, events), Run(reg, events + Contradiction(reg, k, z, o, c, sign)));
      && !after.failed && after.live.view == k.view && after.live.stable == c.seqno
      && Restart(reg, after) == None
      && (OneValuePerSlot(before.log) ==> OneValuePerSlot(after.log))
  {
    var node, more := Run(reg, events), Contradiction(reg, k, z, o, c, sign);
    RunOk(reg, events);
    RunContinues(reg, events, more);
    ReportersKeptHere(reg, node, k.view);
    hide Run, NodeOk, Signs, Combines, Continue, Contradiction, Rows, Prune, Readable, Replay, LoggedReporters;
    hide OneValuePerSlot;
    ContradictionRuns(reg, sign, node, k, z, o, c);
    Ambiguous(reg, node.log, k, z, o, c, sign);
    if OneValuePerSlot(node.log) {
      NothingProposed(reg, node.log, k, z, o, c, sign);
    }
    RestartIff(reg, events + more);
  }

  lemma ReportersKeptHere(reg: Registry, node: Node, t: nat)
    requires NodeOk(reg, node)
    ensures LoggedReporters(node.log, t) <= ReportsFor(node.live.viewChangeVotes, t).Keys
    ensures !node.failed ==> node.tail == Clean
  {
  }
}
