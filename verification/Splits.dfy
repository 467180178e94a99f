/**
 Clusters that split: a leader proposes two values for one slot, and one group of honest
 replicas decides the one, another group the other.
 */
module Splits {
  import opened Protocol
  import opened Invariants
  import opened Completeness
  import opened Durability
  import opened Compaction
  import opened Cluster
  import opened Rounds
  import opened Limits
  import opened Schedules

  // --------------------------------------------------------------- one replica decides

  /** A replica in the view of `k` to which its slot is open. */
  ghost predicate Ready(reg: Registry, node: Node, k: Ballot) {
    && NodeOk(reg, node) && !node.failed && k.view == node.live.view
    && forall o :: o in node.live.proposals ==> o.At() != k.At()
  }

  /** A replica that has `k` as a proposal, and is otherwise where `before` was. */
  ghost predicate Has(reg: Registry, before: Core, node: Node, k: Ballot) {
    && NodeOk(reg, node) && !node.failed
    && node.live.view == before.view == k.view && node.live.stable == before.stable
    && node.live.checkpointVotes == before.checkpointVotes
    && node.live.proposals == before.proposals + {k}
  }

  function Proposal(reg: Registry, k: Ballot, sign: Signer): seq<Event>
    requires reg.nodes > 0
  {
    [Arrives(Sent(PrePrepare, k, reg.Leader(k.view), sign), Durable)]
  }

  lemma TakesProposal(reg: Registry, sign: Signer, i: nat, node: Node, k: Ballot)
    requires reg.nodes > 0 && Signs(reg, sign) && Ready(reg, node, k)
    ensures Has(reg, node.live, Continue(reg, node, Proposal(reg, k, sign)), k)
    ensures Cast(i, Statement(Prepare, k.view, k.seqno, k.digest)) in Given(reg, i, node, Proposal(reg, k, sign), 0)
  {
    var events := Proposal(reg, k, sign);
    assert events[..0] == [] && Continue(reg, node, []) == node;
    hide NodeOk, Signs, Continue, After;
    Proposes(reg, sign, node, k);
    One(reg, node, events[0]);
    hide Deliver;
  }

  /** The last of a round of Prepare votes is answered with Commit. */
  lemma TakesPrepares(reg: Registry, sign: Signer, i: nat, before: Core, node: Node, k: Ballot)
    requires reg.Topology() && Signs(reg, sign) && Combines(reg) && Has(reg, before, node, k)
    ensures var after := Continue(reg, node, Round(Prepare, k, sign, 0, reg.Quorum()));
      Has(reg, before, after, k) && PreparedFor(after.live.prepared, k)
    ensures Cast(i, Statement(Commit, k.view, k.seqno, k.digest))
         in Given(reg, i, node, Round(Prepare, k, sign, 0, reg.Quorum()), 2 * reg.faults)
  {
    var n := 2 * reg.faults;
    var round := Round(Prepare, k, sign, 0, n);
    var m := Sent(Prepare, k, n, sign);
    hide NodeOk, Signs, Combines, PreparedFor, Continue, RoundRows, Given;
    PrepareQuorum(reg, sign, node, k);
    PrepareVotes(reg, sign, node, k, n);
    RoundLength(Prepare, k, sign, n);
    assert Round(Prepare, k, sign, 0, reg.Quorum()) == round + [Arrives(m, Durable)];
    hide Round;
    LastPrepare(reg, sign, i, node, k, round);
  }

  lemma {:induction false} RoundLength(phase: Phase, k: Ballot, sign: Signer, n: nat)
    ensures |Round(phase, k, sign, 0, n)| == n
  {
    if n > 0 {
      RoundLength(phase, k, sign, n - 1);
    }
  }

  lemma LastPrepare(reg: Registry, sign: Signer, i: nat, node: Node, k: Ballot, round: seq<Event>)
    requires reg.Topology() && Signs(reg, sign) && Combines(reg)
    requires var before := Continue(reg, node, round);
      NodeOk(reg, before) && !before.failed && k.view == before.live.view && k in before.live.proposals
    requires var e := Arrives(Sent(Prepare, k, 2 * reg.faults, sign), Durable);
      |round| == 2 * reg.faults && PreparedFor(Continue(reg, node, round + [e]).live.prepared, k)
    ensures Cast(i, Statement(Commit, k.view, k.seqno, k.digest))
         in Given(reg, i, node, round + [Arrives(Sent(Prepare, k, 2 * reg.faults, sign), Durable)], |round|)
  {
    var m := Sent(Prepare, k, 2 * reg.faults, sign);
    var events := round + [Arrives(m, Durable)];
    var before := Continue(reg, node, round);
    assert events[..|round|] == round && events[|round|] == Arrives(m, Durable);
    assert m.Key() == k && reg.sigOk(m.sender, m.Signed(), m.signature);
    LiveInv(reg, before);
    hide NodeOk, Inv, Signs, Combines, Continue, VotePrepareAt, Handle;
    PrepareAccepted(reg, before.live, m);
    ContinueStep(reg, node, round, Arrives(m, Durable));
  }

  lemma TakesCommits(reg: Registry, sign: Signer, before: Core, node: Node, k: Ballot)
    requires reg.Topology() && Signs(reg, sign) && Combines(reg) && Has(reg, before, node, k)
    requires PreparedFor(node.live.prepared, k)
    ensures var after := Continue(reg, node, Round(Commit, k, sign, 0, reg.Quorum()));
      Has(reg, before, after, k) && Decided(after.live, k)
  {
    hide NodeOk, Signs, Combines, PreparedFor, Continue, Round, RoundRows, Decided;
    CommitQuorum(reg, sign, node, k);
  }

  // ----------------------------------------------------------------- a group decides

  /** The nodes `from` to `to` are honest, and enough for the adversary. */
  ghost predicate Group(reg: Registry, foe: Adversary, sys: System, from: nat, to: nat) {
    && from <= to <= reg.nodes && Suffices(reg, foe, from, to)
    && (forall j :: j in foe.byzantine ==> j < reg.nodes)
    && (forall j :: from <= j < to ==> j !in foe.byzantine && j in sys.nodes)
  }

  /** `next` comes from `sys`: outside the group nothing changed, and in the group every node has `k`. */
  ghost predicate GroupHas(reg: Registry, sys: System, from: nat, to: nat, k: Ballot, next: System) {
    && next.nodes.Keys == sys.nodes.Keys && sys.signed <= next.signed
    && (forall j :: j in sys.nodes && from <= j < to ==> Has(reg, sys.nodes[j].live, next.nodes[j], k))
    && (forall j :: j in sys.nodes && !(from <= j < to) ==> next.nodes[j] == sys.nodes[j])
  }

  ghost predicate GroupSigned(from: nat, to: nat, statement: Statement, signed: set<Cast>) {
    forall j :: from <= j < to ==> Cast(j, statement) in signed
  }

  ghost function Proposed(reg: Registry, foe: Adversary, sys: System, sign: Signer, k: Ballot, from: nat,
                          to: nat): System
    requires reg.nodes > 0
  {
    Proceed(reg, foe, sys, HandAll(from, to, Proposal(reg, k, sign)))
  }

  ghost function Voted(reg: Registry, foe: Adversary, sys: System, sign: Signer, phase: Phase, k: Ballot, from: nat,
                       to: nat)
    : System
    requires reg.nodes > 0
  {
    Proceed(reg, foe, sys, HandAll(from, to, Round(phase, k, sign, 0, reg.Quorum())))
  }

  lemma GroupProposed(reg: Registry, foe: Adversary, sys: System, sign: Signer, k: Ballot, from: nat, to: nat)
    requires reg.nodes > 0 && Signs(reg, sign) && Group(reg, foe, sys, from, to) && reg.Leader(k.view) in foe.byzantine
    requires forall j :: from <= j < to ==> Ready(reg, sys.nodes[j], k)
    ensures var next := Proposed(reg, foe, sys, sign, k, from, to);
      && GroupHas(reg, sys, from, to, k, next)
      && GroupSigned(from, to, Statement(Prepare, k.view, k.seqno, k.digest), next.signed)
  {
    var events := Proposal(reg, k, sign);
    var statement := Statement(Prepare, k.view, k.seqno, k.digest);
    assert Known(reg, foe, sys.signed, events) && |events| == 1;
    hide Signs, Ready, Given, Continue, HandAll, Has, Proceed, Known, Proposal, Suffices;
    HandedAll(reg, foe, sys, from, to, events);
    var next := Proposed(reg, foe, sys, sign, k, from, to);
    forall j | from <= j < to
      ensures Has(reg, sys.nodes[j].live, next.nodes[j], k) && Cast(j, statement) in next.signed
    {
      TakesProposal(reg, sign, j, sys.nodes[j], k);
      assert Given(reg, j, sys.nodes[j], events, 0) <= next.signed;
    }
  }

  ghost predicate GroupPrepared(from: nat, to: nat, k: Ballot, sys: System) {
    forall j :: j in sys.nodes && from <= j < to ==> PreparedFor(sys.nodes[j].live.prepared, k)
  }

  /** The votes of a phase, as a round, once the group has signed it. */
  lemma GroupRound(reg: Registry, foe: Adversary, sys: System, sign: Signer, phase: Phase, k: Ballot, from: nat,
                   to: nat)
    requires reg.nodes > 0 && Group(reg, foe, sys, from, to)
    requires GroupSigned(from, to, Statement(phase, k.view, k.seqno, k.digest), sys.signed)
    ensures var round := Round(phase, k, sign, 0, reg.Quorum());
      |round| == reg.Quorum() && HandedToAll(reg, sys, from, to, round, Voted(reg, foe, sys, sign, phase, k, from, to))
  {
    var statement := Statement(phase, k.view, k.seqno, k.digest);
    hide Obtainable, Suffices, Round, HandAll, Known, Proceed, HandedToAll;
    forall i: nat | i < reg.Quorum() && Honest(reg, foe, i) ensures Obtainable(reg, foe, sys.signed, i, statement) {
      GroupObtains(reg, foe, sys.signed, from, to, statement, i);
    }
    RoundKnown(reg, foe, sys.signed, phase, k, sign, reg.Quorum());
    HandedAll(reg, foe, sys, from, to, Round(phase, k, sign, 0, reg.Quorum()));
  }

  lemma GroupStays(reg: Registry, foe: Adversary, sys: System, from: nat, to: nat, k: Ballot, mid: System)
    requires Group(reg, foe, sys, from, to) && GroupHas(reg, sys, from, to, k, mid)
    ensures Group(reg, foe, mid, from, to)
  {
    hide Suffices;
  }

  lemma GroupPrepares(reg: Registry, foe: Adversary, sys: System, mid: System, sign: Signer, k: Ballot, from: nat,
                      to: nat)
    requires reg.Topology() && Signs(reg, sign) && Combines(reg) && Group(reg, foe, sys, from, to)
    requires GroupHas(reg, sys, from, to, k, mid)
    requires GroupSigned(from, to, Statement(Prepare, k.view, k.seqno, k.digest), mid.signed)
    ensures var next := Voted(reg, foe, mid, sign, Prepare, k, from, to);
      && GroupHas(reg, sys, from, to, k, next) && GroupPrepared(from, to, k, next)
      && GroupSigned(from, to, Statement(Commit, k.view, k.seqno, k.digest), next.signed)
  {
    hide Signs, Combines, Given, Continue, Round, Voted, Has, Suffices, PreparedFor, Unforged;
    var round := Round(Prepare, k, sign, 0, reg.Quorum());
    var next := Voted(reg, foe, mid, sign, Prepare, k, from, to);
    var statement := Statement(Commit, k.view, k.seqno, k.digest);
    GroupStays(reg, foe, sys, from, to, k, mid);
    GroupRound(reg, foe, mid, sign, Prepare, k, from, to);
    forall j | from <= j < to
      ensures Has(reg, sys.nodes[j].live, next.nodes[j], k) && PreparedFor(next.nodes[j].live.prepared, k)
      ensures Cast(j, statement) in next.signed
    {
      TakesPrepares(reg, sign, j, sys.nodes[j].live, mid.nodes[j], k);
      assert Given(reg, j, mid.nodes[j], round, 2 * reg.faults) <= next.signed;
    }
  }

  ghost predicate GroupDecided(from: nat, to: nat, k: Ballot, sys: System) {
    forall j :: j in sys.nodes && from <= j < to ==> Decided(sys.nodes[j].live, k)
  }

  lemma GroupCommits(reg: Registry, foe: Adversary, sys: System, mid: System, sign: Signer, k: Ballot, from: nat,
                     to: nat)
    requires reg.Topology() && Signs(reg, sign) && Combines(reg) && Group(reg, foe, sys, from, to)
    requires GroupHas(reg, sys, from, to, k, mid) && GroupPrepared(from, to, k, mid)
    requires GroupSigned(from, to, Statement(Commit, k.view, k.seqno, k.digest), mid.signed)
    ensures var next := Voted(reg, foe, mid, sign, Commit, k, from, to);
      GroupHas(reg, sys, from, to, k, next) && GroupDecided(from, to, k, next)
  {
    hide Signs, Combines, Given, Continue, Round, Voted, Has, Suffices, PreparedFor, Decided, Unforged;
    var next := Voted(reg, foe, mid, sign, Commit, k, from, to);
    GroupStays(reg, foe, sys, from, to, k, mid);
    GroupRound(reg, foe, mid, sign, Commit, k, from, to);
    forall j | from <= j < to
      ensures Has(reg, sys.nodes[j].live, next.nodes[j], k) && Decided(next.nodes[j].live, k)
    {
      TakesCommits(reg, sign, sys.nodes[j].live, mid.nodes[j], k);
    }
  }

  /** The proposal of `k`, a quorum of Prepare votes and a quorum of Commit votes, at every node of the group. */
  function Decision(reg: Registry, sign: Signer, k: Ballot, from: nat, to: nat): seq<Step>
    requires reg.nodes > 0
  {
    HandAll(from, to, Proposal(reg, k, sign)) + HandAll(from, to, Round(Prepare, k, sign, 0, reg.Quorum()))
      + HandAll(from, to, Round(Commit, k, sign, 0, reg.Quorum()))
  }

  /** A group decides what a Byzantine leader proposes to it. */
  lemma GroupDecides(reg: Registry, foe: Adversary, sys: System, sign: Signer, k: Ballot, from: nat, to: nat)
    requires reg.Topology() && Signs(reg, sign) && Combines(reg) && Group(reg, foe, sys, from, to)
    requires reg.Leader(k.view) in foe.byzantine && forall j :: from <= j < to ==> Ready(reg, sys.nodes[j], k)
    ensures var next := Proceed(reg, foe, sys, Decision(reg, sign, k, from, to));
      GroupHas(reg, sys, from, to, k, next) && GroupDecided(from, to, k, next)
  {
    var first := HandAll(from, to, Proposal(reg, k, sign));
    var second := HandAll(from, to, Round(Prepare, k, sign, 0, reg.Quorum()));
    var third := HandAll(from, to, Round(Commit, k, sign, 0, reg.Quorum()));
    var a := Proposed(reg, foe, sys, sign, k, from, to);
    var b := Voted(reg, foe, a, sign, Prepare, k, from, to);
    ProceedTwice(reg, foe, sys, first + second, third);
    ProceedTwice(reg, foe, sys, first, second);
    hide Signs, Combines, Group, Ready, GroupHas, GroupSigned, GroupPrepared, GroupDecided, Proceed, HandAll;
    hide Proposal, Round;
    GroupProposed(reg, foe, sys, sign, k, from, to);
    GroupPrepares(reg, foe, sys, a, sign, k, from, to);
    GroupCommits(reg, foe, sys, b, sign, k, from, to);
  }
}
