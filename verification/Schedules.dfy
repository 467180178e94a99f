/**
 Schedules of a cluster: the same messages handed to one honest node after another. From
 these the runs are put together in which honest replicas decide different values.
 */
module Schedules {
  import opened Protocol
  import opened Durability
  import opened Cluster
  import opened Rounds

  // ------------------------------------------------------------------ continued runs

  ghost function Proceed(reg: Registry, foe: Adversary, sys: System, steps: seq<Step>): (next: System)
    requires reg.nodes > 0
    ensures next.nodes.Keys == sys.nodes.Keys
  {
    if |steps| == 0 then sys
    else Next(reg, foe, Proceed(reg, foe, sys, steps[..|steps| - 1]), steps[|steps| - 1])
  }

  lemma {:induction false} ExecuteProceeds(reg: Registry, foe: Adversary, steps: seq<Step>)
    requires reg.nodes > 0
    ensures Execute(reg, foe, steps) == Proceed(reg, foe, Start(reg, foe), steps)
  {
    hide Next, Start;
    if |steps| > 0 {
      ExecuteProceeds(reg, foe, steps[..|steps| - 1]);
    }
  }

  lemma {:induction false} ProceedTwice(reg: Registry, foe: Adversary, sys: System, steps: seq<Step>, more: seq<Step>)
    requires reg.nodes > 0
    ensures Proceed(reg, foe, sys, steps + more) == Proceed(reg, foe, Proceed(reg, foe, sys, steps), more)
  {
    hide Next;
    if |more| == 0 {
      assert steps + more == steps;
    } else {
      ProceedTwice(reg, foe, sys, steps, more[..|more| - 1]);
      assert (steps + more)[..|steps + more| - 1] == steps + more[..|more| - 1];
    }
  }

  lemma ProceedOne(reg: Registry, foe: Adversary, sys: System, step: Step)
    requires reg.nodes > 0
    ensures Proceed(reg, foe, sys, [step]) == Next(reg, foe, sys, step)
  {
    hide Next;
    assert Proceed(reg, foe, sys, []) == sys && [step][..0] == [];
  }

  // ------------------------------------------------------------------ handing messages

  /** All these are messages whose signatures can be had. */
  ghost predicate Known(reg: Registry, foe: Adversary, signed: set<Cast>, events: seq<Event>) {
    forall e :: e in events ==> e.Arrives? && Unforged(reg, foe, signed, e.m)
  }

  function StepOf(i: nat, e: Event): Step {
    match e
    case Arrives(m, fate) => Receive(i, m, fate)
    case Reboot => Crash(i)
  }

  /** The events, at node `i`. */
  function Hand(i: nat, events: seq<Event>): seq<Step> {
    if |events| == 0 then [] else Hand(i, events[..|events| - 1]) + [StepOf(i, events[|events| - 1])]
  }

  /** The events, at each of the nodes `from` to `to`, exclusive. */
  function HandAll(from: nat, to: nat, events: seq<Event>): seq<Step>
    decreases to
  {
    if to <= from then [] else HandAll(from, to - 1, events) + Hand(to - 1, events)
  }

  /** What node `i` signs when the event at `n` arrives. */
  ghost function Given(reg: Registry, i: nat, node: Node, events: seq<Event>, n: nat): set<Cast>
    requires reg.nodes > 0
  {
    if n >= |events| || events[n].Reboot? then {}
    else
      var (after, reply) := Deliver(reg, Continue(reg, node, events[..n]), events[n].m, events[n].fate);
      Emitted(i, events[n].m, after, reply)
  }

  lemma UnforgedStill(reg: Registry, foe: Adversary, signed: set<Cast>, later: set<Cast>, m: Message)
    requires Unforged(reg, foe, signed, m) && signed <= later
    ensures Unforged(reg, foe, later, m)
  {
    if Obtainable(reg, foe, signed, m.sender, m.Signed()) {
      MoreObtainable(reg, foe, signed, later, m.sender, m.Signed());
      assert signed + later == later;
    }
  }

  /** Node `i` does what a single replica does with the events, and its votes are out. */
  ghost predicate HandedTo(reg: Registry, sys: System, i: nat, events: seq<Event>, next: System)
    requires reg.nodes > 0
  {
    && i in sys.nodes
    && next.nodes == sys.nodes[i := Continue(reg, sys.nodes[i], events)]
    && sys.signed <= next.signed
    && forall n: nat :: n < |events| ==> Given(reg, i, sys.nodes[i], events, n) <= next.signed
  }

  lemma HandedOne(reg: Registry, foe: Adversary, sys: System, i: nat, before: seq<Event>, e: Event, mid: System)
    requires reg.nodes > 0 && e.Arrives? && Unforged(reg, foe, mid.signed, e.m)
    requires HandedTo(reg, sys, i, before, mid)
    ensures HandedTo(reg, sys, i, before + [e], Next(reg, foe, mid, StepOf(i, e)))
  {
    var events, next := before + [e], Next(reg, foe, mid, StepOf(i, e));
    var node := sys.nodes[i];
    assert events[..|before|] == before;
    forall n: nat | n < |events| ensures Given(reg, i, node, events, n) <= next.signed {
      if n < |before| {
        assert events[..n] == before[..n] && events[n] == before[n];
        assert Given(reg, i, node, events, n) == Given(reg, i, node, before, n);
      }
    }
    hide Given, Deliver;
    ContinueStep(reg, node, before, e);
  }

  lemma {:induction false} Handed(reg: Registry, foe: Adversary, sys: System, i: nat, events: seq<Event>)
    requires reg.nodes > 0 && i in sys.nodes && Known(reg, foe, sys.signed, events)
    ensures HandedTo(reg, sys, i, events, Proceed(reg, foe, sys, Hand(i, events)))
  {
    hide Next, Unforged, StepOf;
    if |events| == 0 {
      assert sys.nodes[i := sys.nodes[i]] == sys.nodes;
    } else {
      var before, e := events[..|events| - 1], events[|events| - 1];
      assert before + [e] == events && e in events;
      Handed(reg, foe, sys, i, before);
      var mid := Proceed(reg, foe, sys, Hand(i, before));
      UnforgedStill(reg, foe, sys.signed, mid.signed, e.m);
      ProceedTwice(reg, foe, sys, Hand(i, before), [StepOf(i, e)]);
      ProceedOne(reg, foe, mid, StepOf(i, e));
      hide HandedTo, Proceed;
      HandedOne(reg, foe, sys, i, before, e, mid);
    }
  }

  /** Each of the nodes `from` to `to` does so, and nobody else does anything. */
  ghost predicate HandedToAll(reg: Registry, sys: System, from: nat, to: nat, events: seq<Event>, next: System)
    requires reg.nodes > 0
  {
    && next.nodes.Keys == sys.nodes.Keys && sys.signed <= next.signed
    && (forall i :: i in sys.nodes && from <= i < to ==> next.nodes[i] == Continue(reg, sys.nodes[i], events))
    && (forall i :: i in sys.nodes && !(from <= i < to) ==> next.nodes[i] == sys.nodes[i])
    && (forall i, n: nat :: i in sys.nodes && from <= i < to && n < |events| ==>
          Given(reg, i, sys.nodes[i], events, n) <= next.signed)
  }

  lemma {:induction false} HandedAll(reg: Registry, foe: Adversary, sys: System, from: nat, to: nat, events: seq<Event>)
    requires reg.nodes > 0 && Known(reg, foe, sys.signed, events) && forall i :: from <= i < to ==> i in sys.nodes
    ensures HandedToAll(reg, sys, from, to, events, Proceed(reg, foe, sys, HandAll(from, to, events)))
  {
    hide Next, Hand, Unforged, Continue, Given;
    if from < to {
      hide Known, HandedTo;
      HandedAll(reg, foe, sys, from, to - 1, events);
      var mid := Proceed(reg, foe, sys, HandAll(from, to - 1, events));
      ProceedTwice(reg, foe, sys, HandAll(from, to - 1, events), Hand(to - 1, events));
      hide Proceed;
      KnownStill(reg, foe, sys.signed, mid.signed, events);
      Handed(reg, foe, mid, to - 1, events);
      HandedNext(reg, sys, from, to, events, mid, Proceed(reg, foe, mid, Hand(to - 1, events)));
    }
  }

  lemma HandedNext(reg: Registry, sys: System, from: nat, to: nat, events: seq<Event>, mid: System, next: System)
    requires reg.nodes > 0 && from < to && to - 1 in sys.nodes
    requires HandedToAll(reg, sys, from, to - 1, events, mid) && HandedTo(reg, mid, to - 1, events, next)
    ensures HandedToAll(reg, sys, from, to, events, next)
  {
    hide Continue, Given;
  }

  lemma KnownStill(reg: Registry, foe: Adversary, signed: set<Cast>, later: set<Cast>, events: seq<Event>)
    requires Known(reg, foe, signed, events) && signed <= later
    ensures Known(reg, foe, later, events)
  {
    hide Unforged;
    forall e | e in events ensures e.Arrives? && Unforged(reg, foe, later, e.m) {
      UnforgedStill(reg, foe, signed, later, e.m);
    }
  }

  /** Nodes that may all be made to sign anything but votes. */
  function SignAll(from: nat, to: nat, statement: Statement): seq<Step>
    decreases to
  {
    if to <= from then [] else SignAll(from, to - 1, statement) + [Sign(to - 1, statement)]
  }

  lemma {:induction false} SignedAll(reg: Registry, foe: Adversary, sys: System, from: nat, to: nat,
                                     statement: Statement)
    requires reg.nodes > 0 && statement.phase != Prepare && statement.phase != Commit
    ensures var next := Proceed(reg, foe, sys, SignAll(from, to, statement));
      && next.nodes == sys.nodes && sys.signed <= next.signed
      && forall i :: from <= i < to ==> Cast(i, statement) in next.signed
  {
    if from < to {
      var before, last := SignAll(from, to - 1, statement), Sign(to - 1, statement);
      SignedAll(reg, foe, sys, from, to - 1, statement);
      ProceedTwice(reg, foe, sys, before, [last]);
      ProceedOne(reg, foe, Proceed(reg, foe, sys, before), last);
      SignNext(reg, foe, Proceed(reg, foe, sys, before), to - 1, statement);
      hide Proceed, Next;
    }
  }

  lemma SignNext(reg: Registry, foe: Adversary, sys: System, i: nat, statement: Statement)
    requires reg.nodes > 0 && statement.phase != Prepare && statement.phase != Commit
    ensures Next(reg, foe, sys, Sign(i, statement)) == sys.(signed := sys.signed + {Cast(i, statement)})
  {
    hide Unforged, Deliver, After;
  }

  // ------------------------------------------------------------- rounds of known votes

  /** The votes of a round are known if every voter is Byzantine or its signature can be had. */
  lemma {:induction false} RoundKnown(reg: Registry, foe: Adversary, signed: set<Cast>, phase: Phase, k: Ballot,
                                      sign: Signer, n: nat)
    requires forall i: nat :: i < n && Honest(reg, foe, i) ==>
      Obtainable(reg, foe, signed, i, Statement(phase, k.view, k.seqno, k.digest))
    ensures Known(reg, foe, signed, Round(phase, k, sign, 0, n)) && |Round(phase, k, sign, 0, n)| == n
  {
    hide Obtainable;
    if n > 0 {
      RoundKnown(reg, foe, signed, phase, k, sign, n - 1);
      var m := Sent(phase, k, n - 1, sign);
      assert Unforged(reg, foe, signed, m);
      assert forall e :: e in Round(phase, k, sign, 0, n) ==>
        e in Round(phase, k, sign, 0, n - 1) || e == Arrives(m, Durable);
    }
  }

  /** A group that, with the Byzantine nodes, makes up a quorum, or is enough to derive anyone's signature. */
  predicate Suffices(reg: Registry, foe: Adversary, from: nat, to: nat) {
    || (forall i: nat :: i < reg.Quorum() ==> i in foe.byzantine || from <= i < to)
    || |foe.byzantine| + (to - from) >= foe.threshold
  }

  ghost function Interval(low: nat, high: nat): (ids: set<nat>)
    requires low <= high
    ensures |ids| == high - low && forall i: nat :: i in ids <==> low <= i < high
    decreases high
  {
    if low == high then {} else Interval(low, high - 1) + {high - 1}
  }

  lemma GroupObtains(reg: Registry, foe: Adversary, signed: set<Cast>, from: nat, to: nat, statement: Statement, i: nat)
    requires from <= to <= reg.nodes && Suffices(reg, foe, from, to) && i < reg.Quorum() && Honest(reg, foe, i)
    requires forall j :: j in foe.byzantine ==> j < reg.nodes
    requires forall j :: from <= j < to ==> j !in foe.byzantine && Cast(j, statement) in signed
    ensures Obtainable(reg, foe, signed, i, statement)
  {
    if !(from <= i < to) {
      var who := foe.byzantine + Interval(from, to);
      assert foe.byzantine !! Interval(from, to);
      assert |who| == |foe.byzantine| + (to - from);
      assert Signatories(reg, foe, signed, statement, who);
    }
  }
}
