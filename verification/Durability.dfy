/**
 A replica together with its write-ahead log: append before acknowledge,
 rollback when the append fails, compaction after a stable checkpoint, restart.
 */
module Durability {
  import opened Base
  import opened Protocol
  import opened Recovery

  /** What the file system does while one message is handled. */
  datatype Fate =
    | Durable         // every write and sync succeeds
    | AppendLost      // the append fails before any byte of the record is on disk
    | AppendTorn      // the append fails in the middle of the record
    | AppendKept      // the whole record reaches the disk, but the append reports an error
    | PruneAborted    // compaction fails before the new log replaces the old one
    | PruneUnsynced   // compaction fails after the new log has replaced the old one

  /** What follows the acknowledged rows on disk. */
  datatype Tail = Clean | Torn | Whole(rec: Record)

  datatype Node = Node(live: Core, log: Log, tail: Tail, failed: bool)

  const FRESH: Node := Node(INITIAL, [], Clean, false)

  /** `handle_message`, with the durable half: the new node and the reply. */
  ghost function Deliver(reg: Registry, node: Node, m: Message, fate: Fate): (Node, Outcome)
    requires reg.nodes > 0
  {
    if node.failed then (node, Rejected(WalUnavailable))
    else
      DeliverHandled(node, m, fate, Handle(reg, node.live, m))
  }

  /** The durable half: `o` is what the protocol half decided. */
  function DeliverHandled(node: Node, m: Message, fate: Fate, o: Outcome): (Node, Outcome) {
    match o
    case Rejected(e) => (node, Rejected(e))
    case Acknowledged(reply) => (node, Acknowledged(reply))
    case Accepted(next, response) =>
      var rec := RecordOf(m);
      if fate == AppendLost then (node.(failed := true), Rejected(WalError))
      else if fate == AppendTorn then (node.(tail := Torn, failed := true), Rejected(WalError))
      else if fate == AppendKept then (node.(tail := Whole(rec), failed := true), Rejected(WalError))
      else if response != CheckpointStabilized then
        (node.(live := next, log := node.log + [rec]), Accepted(next, response))
      else if fate == PruneAborted then
        (node.(live := next, log := node.log + [rec], failed := true), Rejected(WalPruneError))
      else if fate == PruneUnsynced then
        (node.(live := next, log := Prune(node.log + [rec], m.seqno), failed := true), Rejected(WalPruneError))
      else
        (node.(live := next, log := Prune(node.log + [rec], m.seqno)), Accepted(next, response))
  }

  /** The rows a restart reads; none when the file ends in part of a record. */
  function OnDisk(node: Node): Option<Log> {
    match node.tail
    case Clean => Some(node.log)
    case Torn => None
    case Whole(rec) => Some(node.log + [rec])
  }

  /** A crash and a restart: replay, or refuse to start and stay down. */
  ghost function Restart(reg: Registry, node: Node): Option<Node>
    requires reg.nodes > 0
  {
    match OnDisk(node)
    case None => None
    case Some(log) =>
      match Replay(reg, log)
      case Refused => None
      case Recovered(r) => Some(Node(r, log, Clean, false))
  }

  datatype Event = Arrives(m: Message, fate: Fate) | Reboot

  /** One event in the life of a replica; a replica that refuses to start stays down. */
  ghost function After(reg: Registry, node: Node, e: Event): Node
    requires reg.nodes > 0
  {
    match e
    case Arrives(m, fate) => Deliver(reg, node, m, fate).0
    case Reboot =>
      match Restart(reg, node)
      case None => node.(failed := true)
      case Some(up) => up
  }

  /** A whole life: any messages, any file-system failures, any crashes and restarts. */
  ghost function Run(reg: Registry, events: seq<Event>): Node
    requires reg.nodes > 0
  {
    if |events| == 0 then FRESH
    else After(reg, Run(reg, events[..|events| - 1]), events[|events| - 1])
  }

  lemma {:induction false} FoldStep(reg: Registry, log: Log, rec: Record)
    requires reg.nodes > 0
    ensures Fold(reg, log + [rec]) ==
      match Fold(reg, log)
      case Refused => Refused
      case Recovered(r) => Row(reg, r, rec)
  {
    assert (log + [rec])[..|log|] == log;
  }

  /** What becomes of a node under more events. */
  ghost function Continue(reg: Registry, node: Node, events: seq<Event>): Node
    requires reg.nodes > 0
  {
    if |events| == 0 then node
    else After(reg, Continue(reg, node, events[..|events| - 1]), events[|events| - 1])
  }

  lemma {:induction false} RunContinues(reg: Registry, events: seq<Event>, more: seq<Event>)
    requires reg.nodes > 0
    ensures Run(reg, events + more) == Continue(reg, Run(reg, events), more)
  {
    hide After;
    if |more| == 0 {
      assert events + more == events;
    } else {
      RunContinues(reg, events, more[..|more| - 1]);
      assert (events + more)[..|events + more| - 1] == events + more[..|more| - 1];
    }
  }

  lemma ContinueStep(reg: Registry, node: Node, events: seq<Event>, e: Event)
    requires reg.nodes > 0
    ensures Continue(reg, node, events + [e]) == After(reg, Continue(reg, node, events), e)
  {
    assert (events + [e])[..|events|] == events;
  }
}
