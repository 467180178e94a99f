/**
 Agreement, exactly. It holds in every run of a cluster with f > 0 if and only if it takes
 more than 2f signatures to derive another; and it does not extend to the checkpoints.
 */
module Disagreement {
  import opened Base
  import opened Protocol
  import opened Recovery
  import opened Invariants
  import opened Completeness
  import opened Durability
  import opened Compaction
  import opened Cluster
  import opened Rounds
  import opened Schedules
  import opened Splits
  import DoubleReports

  lemma StartReady(reg: Registry, foe: Adversary, j: nat, k: Ballot)
    requires Honest(reg, foe, j) && k.view == 0
    ensures j in Start(reg, foe).nodes && Ready(reg, Start(reg, foe).nodes[j], k)
    ensures Start(reg, foe).nodes[j] == FRESH
  {
    FreshOk(reg);
  }

  // ------------------------------------------------------------------ low thresholds

  /** One value is decided by nodes f to 2f - 1, another by nodes 2f to 3f - 1. */
  function SplitRun(reg: Registry, sign: Signer, q: nat, d: Digest, e: Digest): seq<Step>
    requires reg.nodes > 0
  {
    var f := reg.faults;
    Decision(reg, sign, Ballot(0, q, d), f, f + f) + Decision(reg, sign, Ballot(0, q, e), f + f, f + f + f)
  }

  /** The f lowest ids, with a key threshold. */
  ghost function Lowest(reg: Registry, threshold: nat): Adversary {
    Adversary(Below(reg.faults), threshold)
  }

  lemma SplitGroups(reg: Registry, sys: System, threshold: nat, from: nat)
    requires reg.Topology() && reg.faults > 0 && threshold <= 2 * reg.faults
    requires reg.faults <= from <= 2 * reg.faults
    requires forall j :: j in sys.nodes <==> Honest(reg, Lowest(reg, threshold), j)
    ensures Group(reg, Lowest(reg, threshold), sys, from, from + reg.faults)
  {
  }

  ghost predicate Unstable(sys: System) {
    forall j :: j in sys.nodes ==> sys.nodes[j].live.stable == 0
  }

  lemma StaysUnstable(reg: Registry, sys: System, from: nat, to: nat, k: Ballot, next: System)
    requires GroupHas(reg, sys, from, to, k, next) && Unstable(sys)
    ensures Unstable(next)
  {
    hide NodeOk;
  }

  /** A group decides in view 0, from a fresh start. */
  lemma FreshGroupDecides(reg: Registry, sign: Signer, threshold: nat, sys: System, k: Ballot, from: nat)
    requires reg.Topology() && reg.faults > 0 && Signs(reg, sign) && Combines(reg) && threshold <= 2 * reg.faults
    requires reg.faults <= from <= 2 * reg.faults && k.view == 0
    requires forall j :: j in sys.nodes <==> Honest(reg, Lowest(reg, threshold), j)
    requires Unstable(sys) && forall j :: from <= j < from + reg.faults ==> j in sys.nodes && sys.nodes[j] == FRESH
    ensures var (foe, to) := (Lowest(reg, threshold), from + reg.faults);
      var next := Proceed(reg, foe, sys, Decision(reg, sign, k, from, to));
      && next.nodes.Keys == sys.nodes.Keys && Unstable(next) && GroupDecided(from, to, k, next)
      && forall j :: j in sys.nodes && !(from <= j < to) ==> next.nodes[j] == sys.nodes[j]
  {
    hide Signs, Combines, Proceed, Decision, Ready, Decided, NodeOk, Has, Group;
    var foe, to := Lowest(reg, threshold), from + reg.faults;
    forall j | from <= j < to ensures Ready(reg, sys.nodes[j], k) {
      StartReady(reg, foe, j, k);
    }
    SplitGroups(reg, sys, threshold, from);
    hide Start;
    GroupDecides(reg, foe, sys, sign, k, from, to);
    StaysUnstable(reg, sys, from, to, k, Proceed(reg, foe, sys, Decision(reg, sign, k, from, to)));
  }

  /** The end of `SplitRun`. */
  ghost predicate SplitAt(reg: Registry, sys: System, q: nat, d: Digest, e: Digest) {
    && reg.faults in sys.nodes && 2 * reg.faults in sys.nodes && Unstable(sys)
    && Decided(sys.nodes[reg.faults].live, Ballot(0, q, d)) && Decided(sys.nodes[2 * reg.faults].live, Ballot(0, q, e))
  }

  /** The honest nodes are exactly those running, and so far nobody in the range has done anything. */
  ghost predicate FreshFrom(reg: Registry, foe: Adversary, sys: System, from: nat) {
    && (forall j :: j in sys.nodes <==> Honest(reg, foe, j))
    && Unstable(sys) && forall j :: j in sys.nodes && j >= from ==> sys.nodes[j] == FRESH
  }

  lemma StartFresh(reg: Registry, foe: Adversary)
    ensures FreshFrom(reg, foe, Start(reg, foe), 0)
  {
  }

  lemma NextGroup(reg: Registry, sign: Signer, threshold: nat, sys: System, k: Ballot, from: nat)
    requires reg.Topology() && reg.faults > 0 && Signs(reg, sign) && Combines(reg) && threshold <= 2 * reg.faults
    requires reg.faults <= from <= 2 * reg.faults && k.view == 0
    requires FreshFrom(reg, Lowest(reg, threshold), sys, from)
    ensures var (foe, to) := (Lowest(reg, threshold), from + reg.faults);
      var next := Proceed(reg, foe, sys, Decision(reg, sign, k, from, to));
      && FreshFrom(reg, foe, next, to)
      && from in sys.nodes && next.nodes.Keys == sys.nodes.Keys && Decided(next.nodes[from].live, k)
      && forall j :: j in sys.nodes && j < from ==> next.nodes[j] == sys.nodes[j]
  {
    hide Signs, Combines, Proceed, Decision, Decided;
    assert forall j: nat :: reg.faults <= j < reg.nodes ==> Honest(reg, Lowest(reg, threshold), j);
    hide Below;
    FreshGroupDecides(reg, sign, threshold, sys, k, from);
  }

  lemma SplitReached(reg: Registry, sign: Signer, threshold: nat, q: nat, d: Digest, e: Digest)
    requires reg.Topology() && reg.faults > 0 && Signs(reg, sign) && Combines(reg) && threshold <= 2 * reg.faults
    ensures SplitAt(reg, Proceed(reg, Lowest(reg, threshold), Start(reg, Lowest(reg, threshold)),
                      SplitRun(reg, sign, q, d, e)), q, d, e)
  {
    hide Signs, Combines, Proceed, Decision, Decided, FreshFrom, Start, Lowest;
    var foe, f := Lowest(reg, threshold), reg.faults;
    var k, o := Ballot(0, q, d), Ballot(0, q, e);
    var sys := Start(reg, foe);
    var mid := Proceed(reg, foe, sys, Decision(reg, sign, k, f, f + f));
    var last := Proceed(reg, foe, mid, Decision(reg, sign, o, f + f, f + f + f));
    ProceedTwice(reg, foe, sys, Decision(reg, sign, k, f, f + f), Decision(reg, sign, o, f + f, f + f + f));
    StartFresh(reg, foe);
    assert FreshFrom(reg, foe, sys, f) by { LaterFresh(reg, foe, sys, f); }
    NextGroup(reg, sign, threshold, sys, k, f);
    NextGroup(reg, sign, threshold, mid, o, f + f);
    FreshUnstable(reg, foe, last, f + f + f);
  }

  lemma LaterFresh(reg: Registry, foe: Adversary, sys: System, from: nat)
    requires FreshFrom(reg, foe, sys, 0)
    ensures FreshFrom(reg, foe, sys, from)
  {
  }

  lemma FreshUnstable(reg: Registry, foe: Adversary, sys: System, from: nat)
    requires FreshFrom(reg, foe, sys, from)
    ensures Unstable(sys)
  {
  }

  /**
   Below 2f + 1 coefficients two honest replicas decide different values for one slot, above
   all stable checkpoints: f Byzantine nodes, the leader among them, and two disjoint groups
   of f honest ones, each of which has the Byzantine votes and those derived from 2f others.
   */
  lemma LowThresholdSplits(reg: Registry, sign: Signer, threshold: nat, q: nat, d: Digest, e: Digest)
    requires reg.Topology() && reg.faults > 0 && Signs(reg, sign) && Combines(reg)
    requires threshold <= 2 * reg.faults && q > 0 && d != e
    ensures var (foe, f) := (Lowest(reg, threshold), reg.faults);
      var sys := Execute(reg, foe, SplitRun(reg, sign, q, d, e));
      && |foe.byzantine| == f && Honest(reg, foe, f) && Honest(reg, foe, 2 * f) && AboveStable(sys, q)
      && Decided(sys.nodes[f].live, Ballot(0, q, d)) && Decided(sys.nodes[2 * f].live, Ballot(0, q, e))
  {
    hide Signs, Combines, Proceed, Execute, SplitRun, Decided, Start;
    ExecuteProceeds(reg, Lowest(reg, threshold), SplitRun(reg, sign, q, d, e));
    SplitReached(reg, sign, threshold, q, d, e);
  }

  // ---------------------------------------------------------------- the exact condition

  /** In this run two honest replicas certify different values for one slot above all stable checkpoints. */
  ghost predicate SplitIn(reg: Registry, foe: Adversary, steps: seq<Step>, a: nat, b: nat, k1: Ballot, k2: Ballot)
    requires reg.nodes > 0
  {
    AboveStable(Execute(reg, foe, steps), k1.seqno) && Differ(Execute(reg, foe, steps), a, b, k1, k2)
  }

  /** With keys of `threshold` coefficients and at most f Byzantine nodes, no run splits. */
  ghost predicate Agrees(reg: Registry, threshold: nat)
    requires reg.nodes > 0
  {
    forall byzantine: set<nat>, steps: seq<Step>, a, b, k1, k2 :: |byzantine| <= reg.faults ==>
      !SplitIn(reg, Adversary(byzantine, threshold), steps, a, b, k1, k2)
  }

  /** A single replica has one certificate for a slot. */
  lemma OneReplicaAgrees(reg: Registry, foe: Adversary, steps: seq<Step>, a: nat, k1: Ballot, k2: Ballot)
    requires reg.nodes > 0
    ensures !Differ(Execute(reg, foe, steps), a, a, k1, k2)
  {
    var sys := Execute(reg, foe, steps);
    ExecuteInv(reg, foe, steps);
    hide Execute;
    if Differ(sys, a, a, k1, k2) {
      assert NodeInv(reg, foe, sys.signed, a, sys.nodes[a]);
      LiveInv(reg, sys.nodes[a]);
      hide Certified, NodeInv, Inv, Logged;
      CertifiedIsPrepared(reg, sys.nodes[a].live, k1);
      CertifiedIsPrepared(reg, sys.nodes[a].live, k2);
    }
  }

  lemma HighThresholdAgrees(reg: Registry, threshold: nat)
    requires reg.Topology() && threshold > 2 * reg.faults
    ensures Agrees(reg, threshold)
  {
    hide Execute, Certified;
    forall byzantine: set<nat>, steps: seq<Step>, a, b, k1, k2 | |byzantine| <= reg.faults
      ensures !SplitIn(reg, Adversary(byzantine, threshold), steps, a, b, k1, k2)
    {
      if SplitIn(reg, Adversary(byzantine, threshold), steps, a, b, k1, k2) {
        Agreement(reg, Adversary(byzantine, threshold), steps, a, b, k1, k2);
      }
    }
  }

  lemma OneNodeAgrees(reg: Registry, threshold: nat)
    requires reg.Topology() && reg.faults == 0
    ensures Agrees(reg, threshold)
  {
    hide Execute, Certified;
    forall byzantine: set<nat>, steps: seq<Step>, a, b, k1, k2 | |byzantine| <= reg.faults
      ensures !SplitIn(reg, Adversary(byzantine, threshold), steps, a, b, k1, k2)
    {
      OneReplicaAgrees(reg, Adversary(byzantine, threshold), steps, a, k1, k2);
    }
  }

  /** Agreement holds in every run if and only if another's vote takes more than 2f others to derive. */
  lemma AgreementIff(reg: Registry, sign: Signer, threshold: nat)
    requires reg.Topology() && Signs(reg, sign) && Combines(reg)
    ensures Agrees(reg, threshold) <==> threshold > 2 * reg.faults || reg.faults == 0
  {
    hide Signs, Combines, Agrees;
    if threshold > 2 * reg.faults {
      HighThresholdAgrees(reg, threshold);
    } else if reg.faults == 0 {
      OneNodeAgrees(reg, threshold);
    } else {
      SplitsIn(reg, sign, threshold);
    }
  }

  lemma SplitsIn(reg: Registry, sign: Signer, threshold: nat)
    requires reg.Topology() && reg.faults > 0 && Signs(reg, sign) && Combines(reg) && threshold <= 2 * reg.faults
    ensures !Agrees(reg, threshold)
  {
    var d, e := Digest(seq(32, i => 0)), Digest(seq(32, i => 1));
    assert d.bytes[0] != e.bytes[0];
    LowThresholdSplits(reg, sign, threshold, 1, d, e);
    var steps := SplitRun(reg, sign, 1, d, e);
    hide Signs, Combines, Execute, Decided, SplitRun, PreparedFor;
    assert SplitIn(reg, Lowest(reg, threshold), steps, reg.faults, 2 * reg.faults, Ballot(0, 1, d), Ballot(0, 1, e));
  }

  // -------------------------------------------------------------- at the checkpoint

  /** A replica that has decided `k` and makes its sequence stable is ready for another value there. */
  lemma TakesCheckpoint(reg: Registry, sign: Signer, node: Node, k: Ballot, c: Ballot, o: Ballot)
    requires reg.Topology() && Signs(reg, sign) && Has(reg, INITIAL, node, k)
    requires c.view == 0 && c.seqno == k.seqno > 0 && o.At() == k.At()
    ensures var after := Continue(reg, node, Round(Checkpoint, c, sign, 0, reg.Quorum()));
      Ready(reg, after, o) && after.live.stable == c.seqno
  {
    hide NodeOk, Signs, Continue, Round, RoundRows, Prune;
    DoubleReports.CheckpointRound(reg, sign, node, c);
  }

  /** The nodes 1 to 2f sign checkpoint `c`, and each gets a quorum of such votes. */
  function CheckpointSteps(reg: Registry, sign: Signer, c: Ballot): seq<Step> {
    var n := reg.Quorum();
    SignAll(1, n, Statement(Checkpoint, c.view, c.seqno, c.digest)) + HandAll(1, n, Round(Checkpoint, c, sign, 0, n))
  }

  /** Nodes 1 to 2f + 1 decide `k`; 1 to 2f make its sequence stable, and then decide `o`. */
  function CheckpointRun(reg: Registry, sign: Signer, k: Ballot, o: Ballot, c: Ballot): seq<Step>
    requires reg.nodes > 0
  {
    Decision(reg, sign, k, 1, reg.Quorum() + 1) + CheckpointSteps(reg, sign, c)
      + Decision(reg, sign, o, 1, reg.Quorum())
  }

  lemma CheckpointGroup(reg: Registry, threshold: nat, sys: System, to: nat)
    requires reg.Topology() && reg.faults > 0 && reg.Quorum() <= to <= reg.Quorum() + 1
    requires forall j :: j in sys.nodes <==> Honest(reg, Adversary({0}, threshold), j)
    ensures Group(reg, Adversary({0}, threshold), sys, 1, to)
  {
  }

  lemma FirstDecision(reg: Registry, sign: Signer, threshold: nat, k: Ballot)
    requires reg.Topology() && reg.faults > 0 && Signs(reg, sign) && Combines(reg) && k.view == 0
    ensures var foe := Adversary({0}, threshold);
      var next := Proceed(reg, foe, Start(reg, foe), Decision(reg, sign, k, 1, reg.Quorum() + 1));
      && (forall j :: j in next.nodes <==> Honest(reg, foe, j))
      && (forall j :: 1 <= j <= reg.Quorum() ==> j in next.nodes && Has(reg, INITIAL, next.nodes[j], k))
      && GroupDecided(1, reg.Quorum() + 1, k, next)
  {
    hide Signs, Combines, Proceed, Decision, Ready, Decided, Has, Group;
    var foe := Adversary({0}, threshold);
    var sys := Start(reg, foe);
    forall j | 1 <= j <= reg.Quorum() ensures j in sys.nodes && Ready(reg, sys.nodes[j], k) && sys.nodes[j] == FRESH {
      StartReady(reg, foe, j, k);
    }
    CheckpointGroup(reg, threshold, sys, reg.Quorum() + 1);
    GroupDecides(reg, foe, sys, sign, k, 1, reg.Quorum() + 1);
  }

  /** The checkpoint in between. */
  lemma CheckpointBetween(reg: Registry, sign: Signer, threshold: nat, sys: System, k: Ballot, o: Ballot, c: Ballot)
    requires reg.Topology() && reg.faults > 0 && Signs(reg, sign)
    requires c.view == 0 && c.seqno == k.seqno > 0 && o.At() == k.At()
    requires forall j :: j in sys.nodes <==> Honest(reg, Adversary({0}, threshold), j)
    requires forall j :: 1 <= j < reg.Quorum() ==> j in sys.nodes && Has(reg, INITIAL, sys.nodes[j], k)
    ensures var (foe, n) := (Adversary({0}, threshold), reg.Quorum());
      var next := Proceed(reg, foe, sys, CheckpointSteps(reg, sign, c));
      && next.nodes.Keys == sys.nodes.Keys
      && (forall j :: 1 <= j < n ==> Ready(reg, next.nodes[j], o) && next.nodes[j].live.stable == c.seqno)
      && (forall j :: j in sys.nodes && j >= n ==> next.nodes[j] == sys.nodes[j])
  {
    hide Signs, Proceed, Ready, Has, Group, HandAll, SignAll, Continue, Round, Given;
    var foe, n, statement := Adversary({0}, threshold), reg.Quorum(), Statement(Checkpoint, c.view, c.seqno, c.digest);
    var mid := Proceed(reg, foe, sys, SignAll(1, n, statement));
    ProceedTwice(reg, foe, sys, SignAll(1, n, statement), HandAll(1, n, Round(Checkpoint, c, sign, 0, n)));
    SignedAll(reg, foe, sys, 1, n, statement);
    CheckpointGroup(reg, threshold, mid, n);
    GroupRound(reg, foe, mid, sign, Checkpoint, c, 1, n);
    forall j | 1 <= j < n
      ensures var after := Continue(reg, mid.nodes[j], Round(Checkpoint, c, sign, 0, n));
        Ready(reg, after, o) && after.live.stable == c.seqno
    {
      TakesCheckpoint(reg, sign, sys.nodes[j], k, c, o);
    }
  }

  /** After the checkpoint, the other value. */
  lemma SecondDecision(reg: Registry, sign: Signer, threshold: nat, sys: System, o: Ballot)
    requires reg.Topology() && reg.faults > 0 && Signs(reg, sign) && Combines(reg) && o.view == 0
    requires forall j :: j in sys.nodes <==> Honest(reg, Adversary({0}, threshold), j)
    requires forall j :: 1 <= j < reg.Quorum() ==> j in sys.nodes && Ready(reg, sys.nodes[j], o)
    ensures var (foe, n) := (Adversary({0}, threshold), reg.Quorum());
      var next := Proceed(reg, foe, sys, Decision(reg, sign, o, 1, n));
      && n in sys.nodes && next.nodes.Keys == sys.nodes.Keys && next.nodes[n] == sys.nodes[n]
      && next.nodes[1].live.stable == sys.nodes[1].live.stable && Decided(next.nodes[1].live, o)
  {
    hide Signs, Combines, Proceed, Decision, Ready, Decided, Group, NodeOk;
    CheckpointGroup(reg, threshold, sys, reg.Quorum());
    GroupDecides(reg, Adversary({0}, threshold), sys, sign, o, 1, reg.Quorum());
  }

  /** The end of `CheckpointRun`. */
  ghost predicate SplitAround(reg: Registry, sys: System, k: Ballot, o: Ballot) {
    && reg.Quorum() in sys.nodes && 1 in sys.nodes
    && Decided(sys.nodes[reg.Quorum()].live, k) && sys.nodes[reg.Quorum()].live.stable == 0
    && Decided(sys.nodes[1].live, o) && sys.nodes[1].live.stable == k.seqno
  }

  lemma SplitAroundReached(reg: Registry, sign: Signer, threshold: nat, a: System, k: Ballot, o: Ballot, c: Ballot)
    requires reg.Topology() && reg.faults > 0 && Signs(reg, sign) && Combines(reg)
    requires k.view == 0 && k.At() == o.At() == c.At() && k.seqno > 0
    requires forall j :: j in a.nodes <==> Honest(reg, Adversary({0}, threshold), j)
    requires forall j :: 1 <= j <= reg.Quorum() ==> j in a.nodes && Has(reg, INITIAL, a.nodes[j], k)
    requires Decided(a.nodes[reg.Quorum()].live, k) && a.nodes[reg.Quorum()].live.stable == 0
    ensures var (foe, n) := (Adversary({0}, threshold), reg.Quorum());
      var b := Proceed(reg, foe, a, CheckpointSteps(reg, sign, c));
      SplitAround(reg, Proceed(reg, foe, b, Decision(reg, sign, o, 1, n)), k, o)
  {
    hide Signs, Combines, Proceed, Decision, Ready, Decided, HandAll, SignAll, Round, Has;
    var foe, n := Adversary({0}, threshold), reg.Quorum();
    CheckpointBetween(reg, sign, threshold, a, k, o, c);
    var b := Proceed(reg, foe, a, CheckpointSteps(reg, sign, c));
    SecondDecision(reg, sign, threshold, b, o);
  }

  lemma LastHas(reg: Registry, sys: System, k: Ballot, n: nat)
    requires n in sys.nodes && Has(reg, INITIAL, sys.nodes[n], k) && GroupDecided(1, n + 1, k, sys) && n > 0
    ensures Decided(sys.nodes[n].live, k) && sys.nodes[n].live.stable == 0
  {
    hide NodeOk, Decided;
  }

  lemma RunInThree(reg: Registry, foe: Adversary, sys: System, first: seq<Step>, second: seq<Step>, third: seq<Step>)
    requires reg.nodes > 0
    ensures Proceed(reg, foe, sys, first + second + third) ==
      Proceed(reg, foe, Proceed(reg, foe, Proceed(reg, foe, sys, first), second), third)
  {
    hide Proceed;
    ProceedTwice(reg, foe, sys, first + second, third);
    ProceedTwice(reg, foe, sys, first, second);
  }

  /**
   Agreement does not extend to the checkpoint, whatever the key threshold: with one Byzantine
   leader, an honest replica decides one value, another makes its sequence its stable checkpoint
   and then decides another value for the slot, on votes all of which were really cast.
   */
  lemma CheckpointSplits(reg: Registry, sign: Signer, threshold: nat, k: Ballot, o: Ballot, c: Ballot)
    requires reg.Topology() && reg.faults > 0 && Signs(reg, sign) && Combines(reg)
    requires k.view == 0 && k.At() == o.At() == c.At() && k != o && k.seqno > 0
    ensures var foe := Adversary({0}, threshold);
      var sys := Execute(reg, foe, CheckpointRun(reg, sign, k, o, c));
      && Honest(reg, foe, reg.Quorum()) && Honest(reg, foe, 1)
      && Decided(sys.nodes[reg.Quorum()].live, k) && Decided(sys.nodes[1].live, o)
      && Differ(sys, reg.Quorum(), 1, k, o)
      && sys.nodes[1].live.stable == k.seqno && sys.nodes[reg.Quorum()].live.stable == 0
  {
    hide Signs, Combines, Proceed, Execute, Decision, Decided, Start, HandAll, SignAll, Round, PreparedFor, Has;
    hide GroupDecided;
    var foe, n := Adversary({0}, threshold), reg.Quorum();
    var first := Decision(reg, sign, k, 1, n + 1);
    var second := CheckpointSteps(reg, sign, c);
    ExecuteProceeds(reg, foe, CheckpointRun(reg, sign, k, o, c));
    RunInThree(reg, foe, Start(reg, foe), first, second, Decision(reg, sign, o, 1, n));
    hide CheckpointRun;
    FirstDecision(reg, sign, threshold, k);
    var a := Proceed(reg, foe, Start(reg, foe), first);
    LastHas(reg, a, k, n);
    SplitAroundReached(reg, sign, threshold, a, k, o, c);
  }
}
