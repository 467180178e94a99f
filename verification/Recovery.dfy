/**
 The restart path: the fold over the write-ahead log in
 `PbftState::new_with_wal_path`, a second implementation of the protocol that
 rebuilds the replica's fields row by row.
 */
module Recovery {
  import opened Base
  import opened Protocol

  /** One durable row. The phase is the raw byte of the log, which may be no phase at all. */
  datatype Record = Record(view: nat, seqno: nat, phase: nat, sender: nat, digest: Digest, signature: Sig) {
    function Key(): Ballot {
      Ballot(view, seqno, digest)
    }
  }

  type Log = seq<Record>

  function Code(phase: Phase): (c: nat)
    ensures c <= 4
  {
    match phase
    case PrePrepare => 0
    case Prepare => 1
    case Commit => 2
    case ViewChange => 3
    case Checkpoint => 4
  }

  function PhaseOf(code: nat): Phase
    requires code <= 4
  {
    if code == 0 then PrePrepare
    else if code == 1 then Prepare
    else if code == 2 then Commit
    else if code == 3 then ViewChange
    else Checkpoint
  }

  function RecordOf(m: Message): Record {
    Record(m.view, m.seqno, Code(m.phase), m.sender, m.digest, m.signature)
  }

  datatype Recovery = Recovered(state: Core) | Refused

  /** A row signed by the key registered for its sender. */
  predicate Authentic(reg: Registry, rec: Record) {
    && rec.phase <= Code(Checkpoint)
    && rec.sender < reg.nodes
    && reg.sigOk(rec.sender, Statement(PhaseOf(rec.phase), rec.view, rec.seqno, rec.digest), rec.signature)
  }

  /** The view and sequence evidence every authenticated row carries, whatever its phase. */
  function Raise(r: Core, rec: Record): Core {
    r.(view := if rec.phase <= Code(Commit) then Max(r.view, rec.view) else r.view,
       highestSeq := Max(r.highestSeq, rec.seqno))
  }

  ghost function RowPrePrepare(reg: Registry, r: Core, rec: Record): Recovery
    requires reg.nodes > 0
  {
    if rec.sender != reg.Leader(rec.view)
       || exists k :: k in r.proposals && k.view == rec.view && k.seqno == rec.seqno && k.digest != rec.digest
    then Refused
    else
      var up := Raise(r, rec);
      Recovered(up.(proposals := up.proposals + {rec.Key()}))
  }

  function RowPrepare(reg: Registry, r: Core, rec: Record): Recovery
    requires rec.phase == Code(Prepare)
  {
    if rec.Key() !in r.proposals then Refused
    else
      var next := VotePrepareAt(reg, Raise(r, rec), rec.Key(), rec.sender, rec.signature);
      var votes := next.prepareVotes[rec.Key()];
      if Full(reg, votes) && !reg.certOk(Statement(Prepare, rec.view, rec.seqno, rec.digest), votes) then Refused
      else Recovered(next)
  }

  ghost function RowCommit(reg: Registry, r: Core, rec: Record): Recovery
    requires rec.phase == Code(Commit)
  {
    if rec.Key() !in r.proposals || !HasPrepared(reg, r.prepared, rec.Key()) then Refused
    else
      var next := VoteCommitAt(reg, Raise(r, rec), rec.Key(), rec.sender, rec.signature);
      var votes := next.commitVotes[rec.Key()];
      if Full(reg, votes) && !reg.certOk(Statement(Commit, rec.view, rec.seqno, rec.digest), votes) then Refused
      else Recovered(next)
  }

  /** Unlike the live handler, replay also demands a certificate of an earlier view. */
  predicate HasEarlierPrepared(reg: Registry, prepared: Certificates, target: nat, seqno: nat, digest: Digest) {
    exists slot :: slot in prepared && CanSelect(reg, prepared[slot], target, seqno, digest)
  }

  function EnterView(r: Core, nv: NewView): Core {
    r.(view := Max(r.view, nv.target), newViews := Install(r.newViews, nv))
  }

  /** A view-change row once the votes for its view have reached a quorum. */
  ghost function QuorumRow(reg: Registry, r: Core, target: nat, votes: Reports): Recovery {
    match HighestSlot(votes)
    case None => Refused
    case Some(top) =>
      var bound := if top.seqno > 0 then SelectPrepared(reg, r.prepared, target, top.seqno, top.digest) else None;
      var nv := NewView(target, votes, bound);
      if (top.seqno > 0 && bound.None?) || !NewViewOk(reg, nv) then Refused else Recovered(EnterView(r, nv))
  }

  ghost function RowViewChange(reg: Registry, r: Core, rec: Record): Recovery {
    if rec.seqno > 0 && !HasEarlierPrepared(reg, r.prepared, rec.view, rec.seqno, rec.digest) then Refused
    else
      var next := ReportAt(Raise(r, rec), rec.view, rec.sender, Report(rec.seqno, rec.digest, rec.signature));
      var votes := next.viewChangeVotes[rec.view];
      if !FullReports(reg, votes) then Recovered(next)
      else QuorumRow(reg, next, rec.view, votes)
  }

  function Stabilize(r: Core, rec: Record): Core {
    r.(stable := Max(r.stable, rec.seqno), view := Max(r.view, rec.view))
  }

  function RowCheckpoint(reg: Registry, r: Core, rec: Record): Recovery {
    var next := VoteCheckpointAt(Raise(r, rec), rec.Key(), rec.sender, rec.signature);
    if !Full(reg, next.checkpointVotes[rec.Key()]) then Recovered(next)
    else Recovered(Stabilize(next, rec))
  }

  /** The replay closure on one row. */
  ghost function Row(reg: Registry, r: Core, rec: Record): Recovery
    requires reg.nodes > 0
  {
    if !Authentic(reg, rec) then Refused
    else if rec.phase == Code(PrePrepare) then RowPrePrepare(reg, r, rec)
    else if rec.phase == Code(Prepare) then RowPrepare(reg, r, rec)
    else if rec.phase == Code(Commit) then RowCommit(reg, r, rec)
    else if rec.phase == Code(ViewChange) then RowViewChange(reg, r, rec)
    else RowCheckpoint(reg, r, rec)
  }

  ghost function Fold(reg: Registry, log: Log): Recovery
    requires reg.nodes > 0
  {
    if |log| == 0 then Recovered(INITIAL)
    else
      match Fold(reg, log[..|log| - 1])
      case Refused => Refused
      case Recovered(r) => Row(reg, r, log[|log| - 1])
  }

  function Finish(r: Core): Core {
    if r.stable > 0 then Collect(r, r.stable) else r
  }

  /** `new_with_wal_path` on the rows of the log. */
  ghost function Replay(reg: Registry, log: Log): Recovery
    requires reg.nodes > 0
  {
    match Fold(reg, log)
    case Refused => Refused
    case Recovered(r) => Recovered(Finish(r))
  }

  /** `prune_before` on the rows of the log. */
  function Prune(log: Log, floor: nat): Log {
    if |log| == 0 then []
    else
      var last := log[|log| - 1];
      Prune(log[..|log| - 1], floor) + if last.seqno >= floor then [last] else []
  }
}
