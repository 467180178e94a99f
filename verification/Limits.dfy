/**
 What does not hold, and exactly when. There is no low-watermark check on proposals: at
 or below its stable checkpoint a replica accepts a second value for a slot, and while its
 log still holds the first it cannot restart.
 */
module Limits {
  import opened Base
  import opened Protocol
  import opened Recovery
  import opened Invariants
  import opened Completeness
  import opened Durability
  import opened LogMeaning
  import opened Compaction
  import opened Restarting
  import opened Rounds
  import opened Cluster

  /** A proposal of the leader of the current view, with the leader's signature. */
  ghost predicate LeaderProposal(reg: Registry, s: Core, p: Message)
    requires reg.nodes > 0
  {
    && p.phase == PrePrepare && p.view == s.view
    && p.sender == reg.Leader(p.view) && reg.sigOk(p.sender, p.Signed(), p.signature)
  }

  // ------------------------------------------------------------ exact conditions

  /** Above the stable checkpoint, a proposal conflicts for the replica exactly when it conflicts with its log. */
  lemma ConflictIffLogged(reg: Registry, node: Node, m: Message)
    requires reg.nodes > 0 && NodeOk(reg, node)
    requires LeaderProposal(reg, node.live, m) && m.seqno > node.live.stable
    ensures Handle(reg, node.live, m) == Rejected(EquivocationDetected) <==> !FreshSlot(node.log, m.Key())
  {
    assert ProposalsRead(node.live.proposals, node.log, node.live.stable);
    hide NodeOk, LoggedProposals;
    var slot := m.Key().At();
    if k :| k in LoggedProposals(node.log) && k.At() == slot && k.digest != m.digest {
      assert k in node.live.proposals;
    }
    if k :| k in node.live.proposals && k.At() == slot && k.digest != m.digest {
      assert k in LoggedProposals(node.log);
    }
  }

  /** Right after checkpoint `m`, a second value for a logged slot gets in exactly at or below the checkpoint. */
  lemma StabilizedSlotIff(reg: Registry, events: seq<Event>, m: Message, p: Message)
    requires reg.nodes > 0 && !Run(reg, events).failed
    requires Handle(reg, Run(reg, events).live, m).Accepted?
    requires Handle(reg, Run(reg, events).live, m).response == CheckpointStabilized
    requires var node := Deliver(reg, Run(reg, events), m, Durable).0;
      LeaderProposal(reg, node.live, p) && !FreshSlot(node.log, p.Key())
    ensures var node := Deliver(reg, Run(reg, events), m, Durable).0;
      Handle(reg, node.live, p).Accepted? <==> p.seqno <= m.seqno
  {
    RunOk(reg, events);
    var before, node := Run(reg, events), Deliver(reg, Run(reg, events), m, Durable).0;
    hide Run, NodeOk, FreshSlot, Deliver, Handle, LeaderProposal;
    DeliverOk(reg, before, m, Durable);
    Stabilizes(reg, before, m);
    if p.seqno > m.seqno {
      ConflictIffLogged(reg, node, p);
    } else {
      NoneAtSlot(reg, node.live, p);
    }
  }

  lemma Stabilizes(reg: Registry, node: Node, m: Message)
    requires reg.nodes > 0 && !node.failed
    requires Handle(reg, node.live, m).Accepted? && Handle(reg, node.live, m).response == CheckpointStabilized
    ensures var after := Deliver(reg, node, m, Durable).0;
      && after == node.(live := Handle(reg, node.live, m).state, log := Prune(node.log + [RecordOf(m)], m.seqno))
      && after.live.stable == m.seqno
      && forall k :: k in after.live.proposals ==> k.seqno > m.seqno
  {
    StabilizedAbove(reg, node.live, m);
    hide Handle;
  }

  lemma NoneAtSlot(reg: Registry, s: Core, p: Message)
    requires reg.nodes > 0 && LeaderProposal(reg, s, p)
    requires forall k :: k in s.proposals ==> k.seqno != p.seqno
    ensures Handle(reg, s, p).Accepted?
  {
  }

  /** The log with the row of an accepted message replays exactly when the log did and the row is in order. */
  lemma AcceptedReplaysIff(reg: Registry, node: Node, m: Message)
    requires reg.nodes > 0 && Combines(reg) && NodeOk(reg, node) && NodeJustified(reg, node)
    requires Handle(reg, node.live, m).Accepted?
    ensures var log := node.log + [RecordOf(m)];
      Replay(reg, log).Recovered? <==>
        && Replay(reg, node.log).Recovered?
        && (m.phase == PrePrepare ==> FreshSlot(node.log, m.Key()))
        && (m.phase == ViewChange && FullReports(reg, LoggedReports(log, m.view)) ==>
              Protocol.HighestSlot(LoggedReports(log, m.view)).Some?)
  {
    var rec := RecordOf(m);
    assert rec.Key() == m.Key() && (rec.phase == Code(PrePrepare) <==> m.phase == PrePrepare)
      && (rec.phase == Code(ViewChange) <==> m.phase == ViewChange);
    hide Inv, Logged, Justified, Kept, Handle, Combines, Replay, RowJustified, Readable, LoggedReports, FullReports;
    hide Protocol.HighestSlot;
    AcceptedJustified(reg, node.live, node.log, m);
    JustifiedStep(reg, node.log, rec);
    ReplayIff(reg, node.log);
    ReplayIff(reg, node.log + [rec]);
    ReadableStep(reg, node.log, rec);
  }

  /** The same over runs: what an acknowledged proposal does to the restart of the replica. */
  lemma ProposalRestartsIff(reg: Registry, events: seq<Event>, p: Message)
    requires reg.nodes > 0 && Combines(reg) && p.phase == PrePrepare
    requires Deliver(reg, Run(reg, events), p, Durable).1.Accepted?
    ensures var (before, after) := (Run(reg, events), Run(reg, events + [Arrives(p, Durable)]));
      Restart(reg, after).Some? <==> Restart(reg, before).Some? && FreshSlot(before.log, p.Key())
  {
    RunOk(reg, events);
    RunJustified(reg, events);
    var before := Run(reg, events);
    ProposalDelivered(reg, before, p);
    RunContinues(reg, events, [Arrives(p, Durable)]);
    assert Continue(reg, before, [Arrives(p, Durable)]) == After(reg, Continue(reg, before, []), Arrives(p, Durable));
    hide Run, Deliver, NodeOk, NodeJustified, Combines, Replay, Handle, FreshSlot;
    AcceptedReplaysIff(reg, before, p);
  }

  lemma ProposalDelivered(reg: Registry, node: Node, p: Message)
    requires reg.nodes > 0 && NodeOk(reg, node) && p.phase == PrePrepare
    requires Deliver(reg, node, p, Durable).1.Accepted?
    ensures node.tail == Clean && Handle(reg, node.live, p).Accepted?
    ensures Deliver(reg, node, p, Durable).0.tail == Clean
    ensures Deliver(reg, node, p, Durable).0.log == node.log + [RecordOf(p)]
  {
    hide Inv, Logged, Handle;
  }

  // -------------------------------------------------------------- failing inputs

  /** The replies and votes of two proposals for one slot, the second of which leaves a log that does not replay. */
  ghost predicate VotesTwice(reg: Registry, self: nat, sign: Signer, first: Node, second: Node, a: Ballot, b: Ballot)
    requires reg.nodes > 0
  {
    var (p, q) := (Sent(PrePrepare, a, reg.Leader(a.view), sign), Sent(PrePrepare, b, reg.Leader(b.view), sign));
    var (x, y) := (Deliver(reg, first, p, Durable), Deliver(reg, second, q, Durable));
    && a.At() == b.At() && a.digest != b.digest
    && Emitted(self, p, x.0, x.1) == {Cast(self, Statement(Prepare, a.view, a.seqno, a.digest))}
    && Emitted(self, q, y.0, y.1) == {Cast(self, Statement(Prepare, b.view, b.seqno, b.digest))}
    && !y.0.failed && Restart(reg, y.0) == None
  }

  /** A second value for a logged slot that the state no longer holds is accepted, and stops the next restart. */
  lemma SecondValue(reg: Registry, sign: Signer, node: Node, a: Ballot, b: Ballot)
    requires reg.nodes > 0 && Signs(reg, sign) && Combines(reg)
    requires NodeOk(reg, node) && NodeJustified(reg, node) && !node.failed
    requires a in LoggedProposals(node.log) && a.At() == b.At() && a.digest != b.digest && b.view == node.live.view
    requires forall k :: k in node.live.proposals ==> k.At() != b.At()
    ensures var q := Sent(PrePrepare, b, reg.Leader(b.view), sign);
      var (after, reply) := Deliver(reg, node, q, Durable);
      reply.Accepted? && !after.failed && Restart(reg, after) == None
  {
    var q := Sent(PrePrepare, b, reg.Leader(b.view), sign);
    assert q.Key() == b && q.phase == PrePrepare;
    hide NodeOk, NodeJustified, Combines, Handle, Replay, Signs, LoggedProposals;
    Proposes(reg, sign, node, b);
    ProposalDelivered(reg, node, q);
    assert !FreshSlot(node.log, q.Key());
    AcceptedReplaysIff(reg, node, q);
  }

  lemma FirstValue(reg: Registry, sign: Signer, node: Node, a: Ballot)
    requires reg.nodes > 0 && Signs(reg, sign) && NodeOk(reg, node) && NodeJustified(reg, node) && !node.failed
    requires a.view == node.live.view && forall k :: k in node.live.proposals ==> k.At() != a.At()
    ensures var p := Sent(PrePrepare, a, reg.Leader(a.view), sign);
      var (after, reply) := Deliver(reg, node, p, Durable);
      && reply.Accepted? && NodeOk(reg, after) && NodeJustified(reg, after)
      && after == node.(live := after.live, log := node.log + [RecordOf(p)])
      && after.live == node.live.(proposals := node.live.proposals + {a}, highestSeq := after.live.highestSeq)
      && a in LoggedProposals(after.log)
  {
    var p := Sent(PrePrepare, a, reg.Leader(a.view), sign);
    Proposes(reg, sign, node, a);
    hide NodeOk, NodeJustified, Signs;
    AfterJustified(reg, node, Arrives(p, Durable));
    LogStep(node.log, RecordOf(p));
    assert RecordOf(p).Key() == a;
    hide Deliver, LoggedProposals;
  }

  lemma {:induction false} ContinueSound(reg: Registry, node: Node, events: seq<Event>)
    requires reg.nodes > 0 && NodeOk(reg, node) && NodeJustified(reg, node)
    ensures NodeOk(reg, Continue(reg, node, events)) && NodeJustified(reg, Continue(reg, node, events))
  {
    hide NodeOk, NodeJustified, After;
    ContinueOk(reg, node, events);
    if |events| > 0 {
      var before := events[..|events| - 1];
      ContinueSound(reg, node, before);
      AfterJustified(reg, Continue(reg, node, before), events[|events| - 1]);
    }
  }

  /** A round of votes proposes nothing. */
  lemma {:induction false} KeptByRound(log: Log, phase: Phase, k: Ballot, sign: Signer, from: nat, n: nat)
    requires phase != PrePrepare
    ensures LoggedProposals(log + RoundRows(phase, k, sign, from, n)) == LoggedProposals(log)
  {
    if n <= from {
      assert log + [] == log;
    } else {
      KeptByRound(log, phase, k, sign, from, n - 1);
      var rows, rec := RoundRows(phase, k, sign, from, n - 1), RecordOf(Sent(phase, k, n - 1, sign));
      assert log + (rows + [rec]) == log + rows + [rec];
      LogStep(log + rows, rec);
    }
  }

  /** A node after proposal `a` and all but the last vote of a quorum for checkpoint `c`. */
  ghost function ProposedAndVoted(reg: Registry, sign: Signer, node: Node, a: Ballot, c: Ballot): Node
    requires reg.nodes > 0
  {
    Continue(reg, Deliver(reg, node, Sent(PrePrepare, a, reg.Leader(a.view), sign), Durable).0,
      Round(Checkpoint, c, sign, 0, 2 * reg.faults))
  }

  /** Slot `a` is open above the stable checkpoint, and nobody has voted for checkpoint `c` yet. */
  ghost predicate Open(s: Core, a: Ballot, c: Ballot) {
    && a.view == s.view && c.view == s.view && s.stable < a.seqno <= c.seqno
    && (forall k :: k in s.proposals ==> k.At() != a.At())
    && VotesFor(s.checkpointVotes, c) == map[]
  }

  lemma LastVote(reg: Registry, sign: Signer, node: Node, a: Ballot, c: Ballot)
    requires reg.Topology() && Signs(reg, sign) && NodeOk(reg, node) && NodeJustified(reg, node) && !node.failed
    requires Open(node.live, a, c)
    ensures var before := ProposedAndVoted(reg, sign, node, a, c);
      var o := Handle(reg, before.live, Sent(Checkpoint, c, 2 * reg.faults, sign));
      && NodeOk(reg, before) && NodeJustified(reg, before) && !before.failed
      && o.Accepted? && o.response == CheckpointStabilized && o.state.view == node.live.view
      && (forall k :: k in o.state.proposals ==> k.At() != a.At())
      && before.log ==
           node.log + [RecordOf(Sent(PrePrepare, a, reg.Leader(a.view), sign))]
             + RoundRows(Checkpoint, c, sign, 0, 2 * reg.faults)
      && a in LoggedProposals(before.log)
  {
    FirstValue(reg, sign, node, a);
    var proposed := Deliver(reg, node, Sent(PrePrepare, a, reg.Leader(a.view), sign), Durable).0;
    var n := 2 * reg.faults;
    hide NodeOk, NodeJustified, Handle, Deliver, Signs, Continue, RoundRows, Round, LoggedProposals;
    CheckpointQuorumVote(reg, sign, proposed, c);
    ContinueSound(reg, proposed, Round(Checkpoint, c, sign, 0, n));
    KeptByRound(proposed.log, Checkpoint, c, sign, 0, n);
  }

  /** The events behind `ProposedAndVoted` and the last vote, with its fate. */
  function ProposalAndCheckpoint(reg: Registry, sign: Signer, a: Ballot, c: Ballot, fate: Fate): seq<Event>
    requires reg.nodes > 0
  {
    [Arrives(Sent(PrePrepare, a, reg.Leader(a.view), sign), Durable)] + Round(Checkpoint, c, sign, 0, 2 * reg.faults)
      + [Arrives(Sent(Checkpoint, c, 2 * reg.faults, sign), fate)]
  }

  lemma ContinueTwice(reg: Registry, node: Node, events: seq<Event>, more: seq<Event>)
    requires reg.nodes > 0
    ensures Continue(reg, node, events + more) == Continue(reg, Continue(reg, node, events), more)
  {
    hide After;
    if |more| == 0 {
      assert events + more == events;
    } else {
      ContinueTwice(reg, node, events, more[..|more| - 1]);
      assert (events + more)[..|events + more| - 1] == events + more[..|more| - 1];
    }
  }

  lemma One(reg: Registry, node: Node, e: Event)
    requires reg.nodes > 0
    ensures Continue(reg, node, [e]) == After(reg, node, e)
  {
    assert Continue(reg, node, []) == node && [e][..0] == [];
  }

  lemma RunVoted(reg: Registry, sign: Signer, events: seq<Event>, a: Ballot, c: Ballot, fate: Fate)
    requires reg.nodes > 0
    ensures Run(reg, events + ProposalAndCheckpoint(reg, sign, a, c, fate)) ==
      Deliver(reg, ProposedAndVoted(reg, sign, Run(reg, events), a, c), Sent(Checkpoint, c, 2 * reg.faults, sign),
        fate).0
  {
    var node := Run(reg, events);
    var p := Arrives(Sent(PrePrepare, a, reg.Leader(a.view), sign), Durable);
    var round := Round(Checkpoint, c, sign, 0, 2 * reg.faults);
    var v := Arrives(Sent(Checkpoint, c, 2 * reg.faults, sign), fate);
    RunContinues(reg, events, [p] + round + [v]);
    hide Run, Continue, Deliver, Round;
    ContinueTwice(reg, node, [p] + round, [v]);
    ContinueTwice(reg, node, [p], round);
    One(reg, node, p);
    One(reg, Continue(reg, node, [p] + round), v);
  }

  lemma AtCheckpoint(reg: Registry, sign: Signer, node: Node, a: Ballot, c: Ballot)
    requires reg.Topology() && Signs(reg, sign) && NodeOk(reg, node) && NodeJustified(reg, node) && !node.failed
    requires Open(node.live, a, c) && a.seqno == c.seqno
    ensures var after := Deliver(reg, ProposedAndVoted(reg, sign, node, a, c),
      Sent(Checkpoint, c, 2 * reg.faults, sign), Durable).0;
      && NodeOk(reg, after) && NodeJustified(reg, after) && !after.failed
      && after.live.stable == c.seqno && after.live.view == node.live.view
      && a in LoggedProposals(after.log)
      && forall k :: k in after.live.proposals ==> k.At() != a.At()
  {
    var before, m := ProposedAndVoted(reg, sign, node, a, c), Sent(Checkpoint, c, 2 * reg.faults, sign);
    hide NodeOk, NodeJustified, Handle, Deliver, Signs, ProposedAndVoted, LoggedProposals;
    LastVote(reg, sign, node, a, c);
    hide Open, RoundRows;
    Stabilizes(reg, before, m);
    DeliverOk(reg, before, m, Durable);
    DeliverJustified(reg, before, m, Durable);
    LogStep(before.log, RecordOf(m));
    PrunedProposals(before.log + [RecordOf(m)], c.seqno);
  }

  lemma BothVotes(reg: Registry, self: nat, sign: Signer, first: Node, second: Node, a: Ballot, b: Ballot)
    requires reg.nodes > 0 && a.At() == b.At() && a.digest != b.digest
    requires Deliver(reg, first, Sent(PrePrepare, a, reg.Leader(a.view), sign), Durable).1.Accepted?
    requires var (after, reply) := Deliver(reg, second, Sent(PrePrepare, b, reg.Leader(b.view), sign), Durable);
      reply.Accepted? && !after.failed && Restart(reg, after) == None
    ensures VotesTwice(reg, self, sign, first, second, a, b)
  {
    hide Deliver, Restart;
  }

  /**
   One value per slot fails, in any cluster and after any run: the leader proposes, a quorum
   makes the checkpoint at that sequence stable, and the leader proposes another value for the
   slot. The replica votes for both and can then not restart from its own log.
   */
  lemma SlotAtStableIsNotUnique(reg: Registry, self: nat, sign: Signer, events: seq<Event>, a: Ballot, b: Ballot,
                                c: Ballot)
    requires reg.Topology() && Signs(reg, sign) && Combines(reg)
    requires !Run(reg, events).failed && Open(Run(reg, events).live, a, c) && a.seqno == c.seqno
    requires a.At() == b.At() && a.digest != b.digest
    ensures
      var (first, second) := (Run(reg, events), Run(reg, events + ProposalAndCheckpoint(reg, sign, a, c, Durable)));
      second.live.stable == a.seqno && VotesTwice(reg, self, sign, first, second, a, b)
  {
    var first, second := Run(reg, events), Run(reg, events + ProposalAndCheckpoint(reg, sign, a, c, Durable));
    RunOk(reg, events);
    RunJustified(reg, events);
    hide Run, NodeOk, NodeJustified, Deliver, Combines, Signs, ProposedAndVoted, ProposalAndCheckpoint, Restart;
    hide LoggedProposals, VotesTwice;
    RunVoted(reg, sign, events, a, c, Durable);
    AtCheckpoint(reg, sign, first, a, c);
    FirstValue(reg, sign, first, a);
    SecondValue(reg, sign, second, a, b);
    BothVotes(reg, self, sign, first, second, a, b);
  }

  // ------------------------------------------------- the same after an aborted pruning

  lemma VoteReplays(reg: Registry, node: Node, m: Message)
    requires reg.nodes > 0 && Combines(reg) && NodeOk(reg, node) && NodeJustified(reg, node)
    requires m.phase == Checkpoint && m.sender < reg.nodes && reg.sigOk(m.sender, m.Signed(), m.signature)
    requires m.view == node.live.view && m.seqno > node.live.stable
    ensures Replay(reg, node.log + [RecordOf(m)]).Recovered? <==> Replay(reg, node.log).Recovered?
  {
    hide NodeOk, NodeJustified, Handle, Combines, Replay;
    CheckpointCounted(reg, node.live, m);
    AcceptedReplaysIff(reg, node, m);
  }

  lemma VotesPending(reg: Registry, sign: Signer, node: Node, c: Ballot, n: nat)
    requires reg.Topology() && Signs(reg, sign) && NodeOk(reg, node) && NodeJustified(reg, node)
    requires !node.failed && n < reg.Quorum() && c.view == node.live.view && c.seqno > node.live.stable
    requires VotesFor(node.live.checkpointVotes, c) == map[]
    ensures var before := Continue(reg, node, Round(Checkpoint, c, sign, 0, n));
      && NodeOk(reg, before) && NodeJustified(reg, before) && !before.failed
      && before.live.view == node.live.view && before.live.stable == node.live.stable
      && before.log == node.log + RoundRows(Checkpoint, c, sign, 0, n)
  {
    hide NodeOk, NodeJustified, Continue, Round, RoundRows;
    CheckpointVotes(reg, sign, node, c, n);
    ContinueSound(reg, node, Round(Checkpoint, c, sign, 0, n));
  }

  lemma {:induction false} RoundReplays(reg: Registry, sign: Signer, node: Node, c: Ballot, n: nat)
    requires reg.Topology() && Signs(reg, sign) && Combines(reg) && NodeOk(reg, node) && NodeJustified(reg, node)
    requires !node.failed && n < reg.Quorum() && c.view == node.live.view && c.seqno > node.live.stable
    requires VotesFor(node.live.checkpointVotes, c) == map[]
    ensures Replay(reg, node.log + RoundRows(Checkpoint, c, sign, 0, n)).Recovered? <==>
      Replay(reg, node.log).Recovered?
  {
    hide NodeOk, NodeJustified, Combines, Replay, Continue, Round;
    if n == 0 {
      assert node.log + [] == node.log;
    } else {
      RoundReplays(reg, sign, node, c, n - 1);
      var before, m := Continue(reg, node, Round(Checkpoint, c, sign, 0, n - 1)), Sent(Checkpoint, c, n - 1, sign);
      assert reg.sigOk(n - 1, m.Signed(), m.signature);
      assert node.log + (RoundRows(Checkpoint, c, sign, 0, n - 1) + [RecordOf(m)])
          == node.log + RoundRows(Checkpoint, c, sign, 0, n - 1) + [RecordOf(m)];
      VotesPending(reg, sign, node, c, n - 1);
      hide Signs, VotesFor;
      VoteReplays(reg, before, m);
    }
  }

  /** Everything up to the aborted pruning and the restart after it. */
  lemma Reloads(reg: Registry, sign: Signer, node: Node, a: Ballot, c: Ballot)
    requires reg.Topology() && Signs(reg, sign) && Combines(reg)
    requires NodeOk(reg, node) && NodeJustified(reg, node) && !node.failed && Replay(reg, node.log).Recovered?
    requires Open(node.live, a, c)
    ensures var before, m := ProposedAndVoted(reg, sign, node, a, c), Sent(Checkpoint, c, 2 * reg.faults, sign);
      Replay(reg, before.log + [RecordOf(m)]).Recovered?
  {
    var p, n := Sent(PrePrepare, a, reg.Leader(a.view), sign), 2 * reg.faults;
    var proposed := Deliver(reg, node, p, Durable).0;
    var before, m := ProposedAndVoted(reg, sign, node, a, c), Sent(Checkpoint, c, n, sign);
    assert LeaderProposal(reg, node.live, p) && p.Key() == a;
    FirstValue(reg, sign, node, a);
    hide NodeOk, NodeJustified, Combines, Replay, Deliver, Signs, RoundRows, FreshSlot, LeaderProposal, LoggedProposals;
    LastVote(reg, sign, node, a, c);
    ProposalDelivered(reg, node, p);
    ConflictIffLogged(reg, node, p);
    AcceptedReplaysIff(reg, node, p);
    hide Handle;
    RoundReplays(reg, sign, proposed, c, n);
    hide ProposedAndVoted;
    AcceptedReplaysIff(reg, before, m);
  }

  lemma Aborted(reg: Registry, node: Node, m: Message)
    requires reg.nodes > 0 && NodeOk(reg, node) && NodeJustified(reg, node) && !node.failed
    requires Handle(reg, node.live, m).Accepted? && Handle(reg, node.live, m).response == CheckpointStabilized
    ensures var after := Deliver(reg, node, m, PruneAborted).0;
      && after == Node(Handle(reg, node.live, m).state, node.log + [RecordOf(m)], Clean, true)
      && NodeOk(reg, after) && NodeJustified(reg, after)
      && after.live.stable == m.seqno && after.live.view == node.live.view
  {
    DeliverOk(reg, node, m, PruneAborted);
    DeliverJustified(reg, node, m, PruneAborted);
    StabilizedView(reg, node.live, m);
    hide Inv, Logged, Handle, NodeJustified;
  }

  lemma AbortedReplay(reg: Registry, node: Node, m: Message)
    requires reg.nodes > 0 && NodeOk(reg, node) && NodeJustified(reg, node) && !node.failed
    requires Handle(reg, node.live, m).Accepted? && Handle(reg, node.live, m).response == CheckpointStabilized
    requires Replay(reg, node.log + [RecordOf(m)]).Recovered?
    ensures var r := Replay(reg, node.log + [RecordOf(m)]).state;
      && r.stable == m.seqno && r.view == node.live.view
      && forall k :: k in r.proposals ==> k.seqno > m.seqno
  {
    var log := node.log + [RecordOf(m)];
    Aborted(reg, node, m);
    hide Inv, Logged, Handle, Replay, NodeJustified, SameAbove, Deliver;
    ReplayAgreesAbove(reg, Handle(reg, node.live, m).state, log);
    CheckpointProvesView(reg, node.live, node.log, m, log);
    ReplayCollected(reg, log);
  }

  /** A replica whose pruning was aborted restarts at the checkpoint, in its view, and with nothing at or below it. */
  lemma AbortedRestarts(reg: Registry, node: Node, m: Message)
    requires reg.nodes > 0 && NodeOk(reg, node) && NodeJustified(reg, node) && !node.failed
    requires Handle(reg, node.live, m).Accepted? && Handle(reg, node.live, m).response == CheckpointStabilized
    requires Replay(reg, node.log + [RecordOf(m)]).Recovered?
    ensures var after := Deliver(reg, node, m, PruneAborted).0;
      && Restart(reg, after).Some?
      && var up := Restart(reg, after).value;
         && up == Node(up.live, node.log + [RecordOf(m)], Clean, false)
         && NodeOk(reg, up) && NodeJustified(reg, up)
         && up.live.stable == m.seqno && up.live.view == node.live.view
         && forall k :: k in up.live.proposals ==> k.seqno > m.seqno
  {
    hide NodeOk, NodeJustified, Handle, Replay, Deliver;
    var after := Deliver(reg, node, m, PruneAborted).0;
    Aborted(reg, node, m);
    AbortedReplay(reg, node, m);
    AfterOk(reg, after, Reboot);
    AfterJustified(reg, after, Reboot);
  }

  lemma ReplayCollected(reg: Registry, log: Log)
    requires reg.nodes > 0 && Replay(reg, log).Recovered?
    ensures var r := Replay(reg, log).state;
      r.stable > 0 ==> forall k :: k in r.proposals ==> k.seqno > r.stable
  {
    hide Fold, VotesAbove, CertificatesAbove, DigestsAbove;
  }

  /** The node as the aborted pruning leaves it and as the restart brings it back. */
  lemma Reloaded(reg: Registry, sign: Signer, node: Node, a: Ballot, c: Ballot)
    requires reg.Topology() && Signs(reg, sign) && Combines(reg)
    requires NodeOk(reg, node) && NodeJustified(reg, node) && !node.failed && Replay(reg, node.log).Recovered?
    requires Open(node.live, a, c)
    ensures var after := Deliver(reg, ProposedAndVoted(reg, sign, node, a, c),
      Sent(Checkpoint, c, 2 * reg.faults, sign), PruneAborted).0;
      && Restart(reg, after).Some?
      && var up := Restart(reg, after).value;
         && NodeOk(reg, up) && NodeJustified(reg, up) && !up.failed
         && up.live.stable == c.seqno && up.live.view == node.live.view
         && a in LoggedProposals(up.log)
         && forall k :: k in up.live.proposals ==> k.seqno > c.seqno
  {
    var before, m := ProposedAndVoted(reg, sign, node, a, c), Sent(Checkpoint, c, 2 * reg.faults, sign);
    hide ProposedAndVoted, Handle, Replay, Combines, Signs, LoggedProposals, NodeJustified, NodeOk, Restart, Deliver;
    Reloads(reg, sign, node, a, c);
    LastVote(reg, sign, node, a, c);
    StabilizedView(reg, before.live, m);
    hide Open, RoundRows;
    LogStep(before.log, RecordOf(m));
    AbortedRestarts(reg, before, m);
  }

  /**
   The same at any slot up to the checkpoint when the pruning is aborted and the replica
   restarts: the log still holds the first value, the state no longer does.
   */
  lemma RestartedSlotIsNotUnique(reg: Registry, self: nat, sign: Signer, events: seq<Event>, a: Ballot, b: Ballot,
                                 c: Ballot)
    requires reg.Topology() && Signs(reg, sign) && Combines(reg)
    requires !Run(reg, events).failed && Replay(reg, Run(reg, events).log).Recovered?
    requires Open(Run(reg, events).live, a, c)
    requires a.At() == b.At() && a.digest != b.digest
    ensures var first := Run(reg, events);
      var second := Run(reg, events + ProposalAndCheckpoint(reg, sign, a, c, PruneAborted) + [Reboot]);
      second.live.stable == c.seqno && VotesTwice(reg, self, sign, first, second, a, b)
  {
    var first := Run(reg, events);
    var more := ProposalAndCheckpoint(reg, sign, a, c, PruneAborted);
    var down := Run(reg, events + more);
    RunOk(reg, events);
    RunJustified(reg, events);
    RunContinues(reg, events + more, [Reboot]);
    hide Run, NodeOk, NodeJustified, Deliver, Combines, Signs, ProposedAndVoted, ProposalAndCheckpoint, Replay;
    hide LoggedProposals, VotesTwice, Continue;
    One(reg, down, Reboot);
    RunVoted(reg, sign, events, a, c, PruneAborted);
    Reloaded(reg, sign, first, a, c);
    var second := Restart(reg, down).value;
    hide Restart;
    FirstValue(reg, sign, first, a);
    SecondValue(reg, sign, second, a, b);
    BothVotes(reg, self, sign, first, second, a, b);
  }
}
