/**
 Runs, from a fresh start, that bring a replica to where the example of `DoubleReports`
 begins: two values prepared for one sequence in two views.
 */
module Divisions {
  import opened Base
  import opened Protocol
  import opened Invariants
  import opened Completeness
  import opened Durability
  import opened Compaction
  import opened Recovery
  import opened Refinement
  import opened Restarting
  import opened Rounds
  import opened Limits
  import opened DoubleReports

  /** `k` is proposed and gets a quorum of Prepare votes. */
  function Preparation(reg: Registry, k: Ballot, sign: Signer): seq<Event>
    requires reg.nodes > 0
  {
    [Arrives(Sent(PrePrepare, k, reg.Leader(k.view), sign), Durable)] + Round(Prepare, k, sign, 0, reg.Quorum())
  }

  ghost predicate Prepares(before: Core, k: Ballot, after: Core) {
    && after.view == before.view && after.stable == before.stable
    && after.viewChangeVotes == before.viewChangeVotes && after.checkpointVotes == before.checkpointVotes
    && after.proposals == before.proposals + {k}
    && PreparedFor(after.prepared, k) && forall o :: PreparedFor(before.prepared, o) ==> PreparedFor(after.prepared, o)
  }

  lemma Prepared(reg: Registry, sign: Signer, node: Node, k: Ballot)
    requires reg.Topology() && Signs(reg, sign) && Combines(reg) && NodeOk(reg, node) && !node.failed
    requires k.view == node.live.view && forall o :: o in node.live.proposals ==> o.At() != k.At()
    ensures var after := Continue(reg, node, Preparation(reg, k, sign));
      NodeOk(reg, after) && !after.failed && Prepares(node.live, k, after.live)
  {
    var p := Arrives(Sent(PrePrepare, k, reg.Leader(k.view), sign), Durable);
    hide NodeOk, Signs, Combines, Continue, Round, RoundRows, PreparedFor, After;
    ContinueTwice(reg, node, [p], Round(Prepare, k, sign, 0, reg.Quorum()));
    One(reg, node, p);
    Proposes(reg, sign, node, k);
    PrepareQuorum(reg, sign, After(reg, node, p), k);
  }

  /** One value prepared in view 0, an empty view change, and another value prepared in view 1. */
  function TwoPreparations(reg: Registry, q: nat, d: Digest, e: Digest, z: Digest, sign: Signer): seq<Event>
    requires reg.nodes > 0
  {
    Preparation(reg, Ballot(0, q, d), sign) + Round(ViewChange, Ballot(1, 0, z), sign, 0, reg.Quorum())
      + Preparation(reg, Ballot(1, q, e), sign)
  }

  lemma FirstView(reg: Registry, q: nat, d: Digest, z: Digest, sign: Signer)
    requires reg.Topology() && Signs(reg, sign) && Combines(reg)
    ensures var after := Continue(reg, Continue(reg, FRESH, Preparation(reg, Ballot(0, q, d), sign)),
                           Round(ViewChange, Ballot(1, 0, z), sign, 0, reg.Quorum()));
      && NodeOk(reg, after) && !after.failed
      && after.live.view == 1 && after.live.stable == 0 && after.live.checkpointVotes == map[]
      && ReportsFor(after.live.viewChangeVotes, 2) == map[]
      && after.live.proposals == {Ballot(0, q, d)} && PreparedFor(after.live.prepared, Ballot(0, q, d))
  {
    var between := Continue(reg, FRESH, Preparation(reg, Ballot(0, q, d), sign));
    hide NodeOk, Signs, Combines, Continue, Round, RoundRows, PreparedFor, Preparation;
    FreshOk(reg);
    Prepared(reg, sign, FRESH, Ballot(0, q, d));
    assert Reportable(between.live, Ballot(1, 0, z)) && ReportsFor(between.live.viewChangeVotes, 1).Keys == Below(0);
    hide Backed, Reportable;
    ReportQuorum(reg, sign, between, Ballot(1, 0, z), 0);
  }

  /** From a fresh start any cluster can be brought where `DoubleReportStopsRestart` begins. */
  lemma DividedIsReached(reg: Registry, q: nat, d: Digest, e: Digest, z: Digest, c: Ballot, sign: Signer)
    requires reg.Topology() && Signs(reg, sign) && Combines(reg) && d != e && c.view == 2 && 0 < c.seqno <= q
    ensures var node := Run(reg, TwoPreparations(reg, q, d, e, z, sign));
      !node.failed && Divided(node.live, Ballot(2, q, d), Ballot(2, q, e), c) && Readable(reg, node.log)
  {
    var first := Preparation(reg, Ballot(0, q, d), sign);
    var second := Round(ViewChange, Ballot(1, 0, z), sign, 0, reg.Quorum());
    var third := Preparation(reg, Ballot(1, q, e), sign);
    var between := Continue(reg, Continue(reg, FRESH, first), second);
    assert [] + (first + second + third) == first + second + third;
    RunContinues(reg, [], first + second + third);
    assert Run(reg, []) == FRESH;
    hide NodeOk, Signs, Combines, Run, Continue, Round, PreparedFor, Preparation;
    FirstView(reg, q, d, z, sign);
    ContinueTwice(reg, FRESH, first + second, third);
    ContinueTwice(reg, FRESH, first, second);
    Prepared(reg, sign, between, Ballot(1, q, e));
    UnstableReadable(reg, TwoPreparations(reg, q, d, e, z, sign));
  }

  /** As long as no checkpoint is stable, the log is readable. */
  lemma UnstableReadable(reg: Registry, events: seq<Event>)
    requires reg.nodes > 0 && Combines(reg) && Run(reg, events).live.stable == 0
    ensures Readable(reg, Run(reg, events).log)
  {
    forall n | 0 <= n <= |events| ensures Run(reg, events[..n]).live.stable == 0 {
      assert events[..n] + events[n..] == events;
      StableNeverMovesBack(reg, events[..n], events[n..]);
    }
    assert NeverStable(reg, events);
    hide Run, Replay, Readable, Combines, NeverStable, Rebuilds;
    LiveStateIsReplayed(reg, events);
    RestartIff(reg, events);
  }
}
