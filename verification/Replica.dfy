/**
 `PbftState` as the object it is: fields that the handler updates in place, a
 snapshot it restores on every error, a log it appends to before it acknowledges.
 */
module Replica {
  import opened Base
  import opened Protocol
  import opened Recovery
  import opened Invariants
  import opened Durability
  import opened Compaction
  import opened Selection
  import opened WalFormat
  import opened Wal

  datatype Reply = Ok(response: Response) | Err(error: HandlerError)

  function ReplyOf(o: Outcome): Reply {
    match o
    case Accepted(_, response) => Ok(response)
    case Acknowledged(response) => Ok(response)
    case Rejected(error) => Err(error)
  }

  /** The reply and the fields `after`, as the outcome `o` of the protocol demands them. */
  ghost predicate Performs(o: Outcome, reply: Reply, after: Core) {
    reply == ReplyOf(o) && (o.Accepted? ==> after == o.state)
  }

  /** The rows of a log and what follows them, as bytes. */
  ghost predicate OnDiskAs(codec: PointCodec, disk: seq<Byte>, log: Log, tail: Tail) {
    && AllStorable(codec, log)
    && match tail
       case Clean => disk == EncodeLog(codec, log)
       case Torn => exists torn: seq<Byte> :: 0 < |torn| < RECORD_LEN && disk == EncodeLog(codec, log) + torn
       case Whole(rec) => Storable(codec, rec) && disk == EncodeLog(codec, log) + Encode(codec, rec)
  }

  /** How far a failing append got, as the log-level fate it amounts to. */
  function AppendFateOf(fault: AppendFault): Fate {
    match fault
    case StopsAfter(n) => if n == 0 then AppendLost else if n < RECORD_LEN then AppendTorn else AppendKept
    case SyncFails => AppendKept
    case AppendGood => Durable
  }

  /** The file-system faults of one call, as the log-level fate they may amount to. */
  ghost predicate FateOf(fault: AppendFault, pruneFault: PruneFault, schedule: seq<ReadEvent>, fate: Fate) {
    if fault != AppendGood then fate == AppendFateOf(fault)
    else
      && fate in {Durable, PruneAborted, PruneUnsynced}
      && (pruneFault == PruneGood && Healthy(schedule) ==> fate == Durable)
  }

  function TailAfter(rec: Record, fault: AppendFault): Tail
    requires fault != AppendGood
  {
    match AppendFateOf(fault)
    case AppendLost => Clean
    case AppendTorn => Torn
    case _ => Whole(rec)
  }

  /** The bytes an append leaves, faulty or not, as rows and tail. */
  lemma AppendedDisk(codec: PointCodec, disk: seq<Byte>, log: Log, rec: Record, fault: AppendFault)
    requires codec.Valid() && Storable(codec, rec) && OnDiskAs(codec, disk, log, Clean)
    ensures var disk' := disk + Written(codec, rec, fault);
      if fault == AppendGood then OnDiskAs(codec, disk', log + [rec], Clean)
      else OnDiskAs(codec, disk', log, TailAfter(rec, fault))
  {
    EncodeLogAppend(codec, log, rec);
    assert |Encode(codec, rec)| == RECORD_LEN;
    hide Encode, EncodeLog, Storable, AllStorable;
    if fault.StopsAfter? && fault.written < RECORD_LEN {
      var torn := Encode(codec, rec)[..fault.written];
      assert Written(codec, rec, fault) == torn;
      assert fault.written == 0 ==> disk + torn == disk;
    }
  }

  lemma PrunedDisk(codec: PointCodec, disk: seq<Byte>, log: Log, floor: nat)
    requires codec.Valid() && OnDiskAs(codec, disk, log, Clean)
    ensures PruneFile(disk, floor).Some? && OnDiskAs(codec, PruneFile(disk, floor).value, Prune(log, floor), Clean)
  {
    PrunesRows(codec, log, floor);
  }

  /** The counting loop of `NewViewCertificate::verify`, in any order of the votes. */
  method CountVerifiedReports(reg: Registry, target: nat, votes: Reports) returns (count: nat)
    ensures count == |set i | i in votes && ReportOk(reg, target, i, votes[i])|
  {
    count := 0;
    var rest := votes.Keys;
    ghost var valid := set i | i in votes && ReportOk(reg, target, i, votes[i]);
    hide ReportOk;
    assert valid - rest == {};
    while rest != {}
      invariant rest <= votes.Keys
      invariant count == |valid - rest|
      decreases rest
    {
      var i :| i in rest;
      if ReportOk(reg, target, i, votes[i]) {
        assert valid - (rest - {i}) == (valid - rest) + {i};
        count := count + 1;
      } else {
        assert valid - (rest - {i}) == valid - rest;
      }
      rest := rest - {i};
    }
    assert valid - {} == valid;
  }

  /** `NewViewCertificate::verify`. */
  method VerifyNewView(reg: Registry, nv: NewView) returns (ok: bool)
    ensures ok == NewViewOk(reg, nv)
  {
    hide HighestSlot, FullReports;
    if !FullReports(reg, nv.votes) {
      return false;
    }
    var top := HighestViewChangeSlot(nv.votes);
    if top.None? {
      return false;
    }
    match nv.selected {
      case Some(c) =>
        if !reg.CertificateOk(Prepare, c) || c.view >= nv.target || Top(c.seqno, c.digest) != top.value {
          return false;
        }
      case None =>
        if top.value.seqno > 0 {
          return false;
        }
    }
    var validCount := CountVerifiedReports(reg, nv.target, nv.votes);
    ok := validCount >= reg.Quorum();
  }

  class PbftState {
    const reg: Registry
    const wal: WriteAheadLog
    var currentView: nat
    var highestSeq: nat
    var lastStableCheckpoint: nat
    var preparedCertificates: Certificates
    var commitCertificates: Certificates
    var newViewCertificates: NewViews
    var committedDigest: Digests
    var prePreparedProposals: set<Ballot>
    var prepareVotes: VoteTable
    var commitVotes: VoteTable
    var checkpointVotes: VoteTable
    var viewChangeVotes: ReportTable
    var walFailed: bool
    /** The node this object and its file are. */
    ghost var model: Node

    /** The rollback image. */
    function Image(): Core
      reads this
    {
      Fields(currentView, highestSeq, lastStableCheckpoint,
             preparedCertificates, commitCertificates, newViewCertificates,
             committedDigest, prePreparedProposals, prepareVotes, commitVotes, checkpointVotes, viewChangeVotes)
    }

    /** A replica just recovered: `rows` are the whole log, and `start` is what they replayed to. */
    constructor (reg: Registry, wal: WriteAheadLog, start: Core, ghost rows: Log)
      ensures this.reg == reg && this.wal == wal && Image() == start && !walFailed
      ensures model == Node(start, rows, Clean, false)
    {
      this.reg := reg;
      this.wal := wal;
      currentView, highestSeq, lastStableCheckpoint := start.view, start.highestSeq, start.stable;
      preparedCertificates, commitCertificates, newViewCertificates := start.prepared, start.commits, start.newViews;
      committedDigest, prePreparedProposals := start.committed, start.proposals;
      prepareVotes, commitVotes, checkpointVotes := start.prepareVotes, start.commitVotes, start.checkpointVotes;
      viewChangeVotes := start.viewChangeVotes;
      walFailed := false;
      model := Node(start, rows, Clean, false);
    }

    method RestoreCounters(view: nat, highest: nat, stable: nat, proposals: set<Ballot>)
      modifies this`currentView, this`highestSeq, this`lastStableCheckpoint, this`prePreparedProposals
      ensures currentView == view && highestSeq == highest && lastStableCheckpoint == stable
        && prePreparedProposals == proposals
    {
      currentView := view;
      highestSeq := highest;
      lastStableCheckpoint := stable;
      prePreparedProposals := proposals;
    }

    method RestoreCertificates(prepared: Certificates, commits: Certificates, newViews: NewViews, committed: Digests)
      modifies this`preparedCertificates, this`commitCertificates, this`newViewCertificates, this`committedDigest
      ensures preparedCertificates == prepared && commitCertificates == commits && newViewCertificates == newViews
      ensures committedDigest == committed
    {
      preparedCertificates := prepared;
      commitCertificates := commits;
      newViewCertificates := newViews;
      committedDigest := committed;
    }

    method RestoreVotes(prepares: VoteTable, commits: VoteTable, checkpoints: VoteTable, reports: ReportTable)
      modifies this`prepareVotes, this`commitVotes, this`checkpointVotes, this`viewChangeVotes
      ensures prepareVotes == prepares && commitVotes == commits && checkpointVotes == checkpoints
        && viewChangeVotes == reports
    {
      prepareVotes := prepares;
      commitVotes := commits;
      checkpointVotes := checkpoints;
      viewChangeVotes := reports;
    }

    /** `restore_state`: all twelve fields, and nothing else. */
    method Restore(snapshot: Core)
      modifies this
      ensures Image() == snapshot && walFailed == old(walFailed) && model == old(model)
    {
      RestoreCounters(snapshot.view, snapshot.highestSeq, snapshot.stable, snapshot.proposals);
      RestoreCertificates(snapshot.prepared, snapshot.commits, snapshot.newViews, snapshot.committed);
      RestoreVotes(snapshot.prepareVotes, snapshot.commitVotes, snapshot.checkpointVotes, snapshot.viewChangeVotes);
    }

    method PrePrepareStep(m: Message) returns (reply: Reply)
      requires reg.nodes > 0
      modifies this
      ensures Performs(OnPrePrepare(reg, old(Image()), m), reply, Image())
      ensures walFailed == old(walFailed) && model == old(model)
    {
      if m.view != currentView {
        return Err(ViewMismatch);
      }
      if m.sender != reg.Leader(m.view) {
        return Err(LeaderViolation);
      }
      if exists k :: k in prePreparedProposals && k.view == m.view && k.seqno == m.seqno && k.digest != m.digest {
        return Err(EquivocationDetected);
      }
      if m.Key() in prePreparedProposals {
        return Err(DuplicateProposal);
      }
      prePreparedProposals := prePreparedProposals + {m.Key()};
      highestSeq := Max(highestSeq, m.seqno);
      reply := Ok(InboundPrePrepare);
    }

    method CountPrepare(m: Message) returns (reply: Reply)
      requires m.phase == Prepare
      modifies this`prepareVotes, this`preparedCertificates
      ensures Performs(CountedPrepare(reg, old(Image()), m), reply, Image())
    {
      hide Full, AddVote;
      prepareVotes := AddVote(prepareVotes, m.Key(), m.sender, m.signature);
      var sigs := prepareVotes[m.Key()];
      if Full(reg, sigs) {
        var cert := Certificate(m.view, m.seqno, m.digest, sigs);
        if !reg.CertificateOk(Prepare, cert) {
          return Err(CertificateVerificationFailed);
        }
        preparedCertificates := preparedCertificates[m.Key().At() := cert];
        return Ok(CertificatePrepared);
      }
      reply := Ok(VotePrepare);
    }

    method PrepareStep(m: Message) returns (reply: Reply)
      requires m.phase == Prepare
      modifies this
      ensures Performs(OnPrepare(reg, old(Image()), m), reply, Image())
      ensures walFailed == old(walFailed) && model == old(model)
    {
      hide Full, VotePrepareAt;
      if m.view != currentView {
        return Err(ViewMismatch);
      }
      if m.Key() !in prePreparedProposals {
        return Err(OrphanPrepare);
      }
      reply := CountPrepare(m);
    }

    method Decided(cert: Certificate)
      modifies this`commitCertificates, this`committedDigest
      ensures commitCertificates == old(commitCertificates)[Slot(cert.view, cert.seqno) := cert]
      ensures committedDigest == old(committedDigest)[Slot(cert.view, cert.seqno) := cert.digest]
    {
      commitCertificates := commitCertificates[Slot(cert.view, cert.seqno) := cert];
      committedDigest := committedDigest[Slot(cert.view, cert.seqno) := cert.digest];
    }

    method CountCommit(m: Message) returns (reply: Reply)
      requires m.phase == Commit
      modifies this`commitVotes, this`commitCertificates, this`committedDigest
      ensures Performs(CountedCommit(reg, old(Image()), m), reply, Image())
    {
      hide Full, AddVote;
      commitVotes := AddVote(commitVotes, m.Key(), m.sender, m.signature);
      var sigs := commitVotes[m.Key()];
      if Full(reg, sigs) {
        var cert := Certificate(m.view, m.seqno, m.digest, sigs);
        if !reg.CertificateOk(Commit, cert) {
          return Err(CertificateVerificationFailed);
        }
        Decided(cert);
        return Ok(Committed);
      }
      reply := Ok(VoteCommit);
    }

    method CommitStep(m: Message) returns (reply: Reply)
      requires m.phase == Commit
      modifies this
      ensures Performs(OnCommit(reg, old(Image()), m), reply, Image())
      ensures walFailed == old(walFailed) && model == old(model)
    {
      hide Full, VoteCommitAt, HasPrepared;
      if m.view != currentView {
        return Err(ViewMismatch);
      }
      if m.Key() !in prePreparedProposals {
        return Err(OrphanCommit);
      }
      if !HasPrepared(reg, preparedCertificates, m.Key()) {
        return Err(SafetyViolation);
      }
      if m.Key().At() in committedDigest && committedDigest[m.Key().At()] != m.digest {
        return Err(EquivocationDetected);
      }
      reply := CountCommit(m);
    }

    method EnterNewView(target: nat, supporters: Reports) returns (reply: Reply)
      requires CertificatesExact(reg, Prepare, prepareVotes, preparedCertificates)
      modifies this`currentView, this`highestSeq, this`newViewCertificates
      ensures Performs(QuorumOutcome(reg, old(Image()), target, supporters), reply, Image())
    {
      hide CertificatesExact, NewViewOk, HighestSlot, SelectPrepared, Install;
      currentView := target;
      var top := HighestViewChangeSlot(supporters);
      if top.None? {
        return Err(ConflictingViewChangeDigests);
      }
      var bound: Option<Certificate> := None;
      if top.value.seqno > 0 {
        bound := SelectFromTable(reg, old(Image()), preparedCertificates, target, top.value.seqno, top.value.digest);
        if bound.None? {
          return Err(MissingQuorumCertificate);
        }
        highestSeq := Max(highestSeq, bound.value.seqno);
      }
      var nv := NewView(target, supporters, bound);
      var verified := VerifyNewView(reg, nv);
      if !verified {
        return Err(NewViewVerificationFailed);
      }
      newViewCertificates := Install(newViewCertificates, nv);
      reply := Ok(ViewChanged);
    }

    method ViewChangeStep(m: Message) returns (reply: Reply)
      requires m.phase == ViewChange && CertificatesExact(reg, Prepare, prepareVotes, preparedCertificates)
      modifies this
      ensures Performs(OnViewChange(reg, old(Image()), m), reply, Image())
      ensures walFailed == old(walFailed) && model == old(model)
    {
      hide CertificatesExact, QuorumOutcome, FullReports, HasPreparedValue;
      ghost var s := Image();
      if m.view <= currentView {
        return Err(ViewChangeInvalid);
      }
      if m.seqno > 0 && !HasPreparedValue(reg, preparedCertificates, m.seqno, m.digest) {
        return Err(CertificateInvalid);
      }
      viewChangeVotes := AddReport(viewChangeVotes, m.view, m.sender, Report(m.seqno, m.digest, m.signature));
      if FullReports(reg, viewChangeVotes[m.view]) {
        reply := EnterNewView(m.view, viewChangeVotes[m.view]);
      } else {
        reply := Ok(VoteViewChange);
      }
    }

    method RetainVotes(floor: nat)
      modifies this`prePreparedProposals, this`prepareVotes, this`commitVotes, this`checkpointVotes
      ensures prePreparedProposals == ProposalsAbove(old(prePreparedProposals), floor)
      ensures prepareVotes == VotesAbove(old(prepareVotes), floor)
      ensures commitVotes == VotesAbove(old(commitVotes), floor)
      ensures checkpointVotes == VotesAbove(old(checkpointVotes), floor)
    {
      hide ProposalsAbove, VotesAbove;
      prePreparedProposals := ProposalsAbove(prePreparedProposals, floor);
      prepareVotes := VotesAbove(prepareVotes, floor);
      commitVotes := VotesAbove(commitVotes, floor);
      checkpointVotes := VotesAbove(checkpointVotes, floor);
    }

    method RetainCertificates(floor: nat)
      modifies this`preparedCertificates, this`commitCertificates, this`committedDigest
      ensures preparedCertificates == CertificatesAbove(old(preparedCertificates), floor)
      ensures commitCertificates == CertificatesAbove(old(commitCertificates), floor)
      ensures committedDigest == DigestsAbove(old(committedDigest), floor)
    {
      hide CertificatesAbove, DigestsAbove;
      preparedCertificates := CertificatesAbove(preparedCertificates, floor);
      commitCertificates := CertificatesAbove(commitCertificates, floor);
      committedDigest := DigestsAbove(committedDigest, floor);
    }

    method Stabilize(floor: nat)
      modifies this
      ensures Image() == Collect(old(Image()).(stable := floor), floor)
      ensures walFailed == old(walFailed) && model == old(model)
    {
      hide ProposalsAbove, VotesAbove, CertificatesAbove, DigestsAbove;
      lastStableCheckpoint := floor;
      RetainVotes(floor);
      RetainCertificates(floor);
    }

    method CheckpointStep(m: Message) returns (reply: Reply)
      modifies this
      ensures Performs(OnCheckpoint(reg, old(Image()), m), reply, Image())
      ensures walFailed == old(walFailed) && model == old(model)
    {
      hide Full, AddVote, Collect;
      if m.view != currentView {
        return Err(ViewMismatch);
      }
      checkpointVotes := AddVote(checkpointVotes, m.Key(), m.sender, m.signature);
      if Full(reg, checkpointVotes[m.Key()]) {
        Stabilize(m.seqno);
        return Ok(CheckpointStabilized);
      }
      reply := Ok(VoteCheckpoint);
    }

    /** The closure in the middle of `handle_message`; the fields may be left dirty on an error. */
    method PhaseStep(m: Message) returns (reply: Reply)
      requires reg.nodes > 0 && Inv(reg, Image())
      requires m.sender < reg.nodes && reg.sigOk(m.sender, m.Signed(), m.signature)
      requires m.phase == Checkpoint ==> m.seqno > lastStableCheckpoint
      modifies this
      ensures Performs(Handle(reg, old(Image()), m), reply, Image())
      ensures walFailed == old(walFailed) && model == old(model)
      ensures !Handle(reg, old(Image()), m).Acknowledged?
    {
      assert CertificatesExact(reg, Prepare, prepareVotes, preparedCertificates);
      hide Inv, CertificatesExact, OnPrePrepare, OnPrepare, OnCommit, OnViewChange, OnCheckpoint;
      match m.phase {
        case PrePrepare => reply := PrePrepareStep(m);
        case Prepare => reply := PrepareStep(m);
        case Commit => reply := CommitStep(m);
        case ViewChange => reply := ViewChangeStep(m);
        case Checkpoint => reply := CheckpointStep(m);
      }
    }

    /** The object and the bytes of its log are those of the node `model`. */
    ghost predicate Represents()
      reads this, wal
    {
      Image() == model.live && walFailed == model.failed && wal.codec.Valid()
        && OnDiskAs(wal.codec, wal.disk, model.log, model.tail)
    }

    ghost predicate Valid()
      reads this, wal
    {
      reg.nodes > 0 && Represents() && NodeOk(reg, model)
    }

    /** The append; if it fails, `snapshot` comes back and the log is not used again. */
    method Append(m: Message, snapshot: Core, fault: AppendFault) returns (ok: bool)
      requires wal.codec.Valid() && Storable(wal.codec, RecordOf(m))
      requires OnDiskAs(wal.codec, wal.disk, model.log, Clean)
      modifies this, wal
      ensures model == old(model) && (ok <==> fault == AppendGood)
      ensures ok ==>
        && Image() == old(Image()) && walFailed == old(walFailed) && model == old(model)
        && OnDiskAs(wal.codec, wal.disk, model.log + [RecordOf(m)], Clean)
      ensures !ok ==>
        && Image() == snapshot && walFailed
        && OnDiskAs(wal.codec, wal.disk, model.log, TailAfter(RecordOf(m), fault))
    {
      hide OnDiskAs, Storable, Written, PointCodec.Valid;
      AppendedDisk(wal.codec, wal.disk, model.log, RecordOf(m), fault);
      ok := wal.AppendEntry(RecordOf(m), fault);
      if !ok {
        Restore(snapshot);
        walFailed := true;
      }
    }

    /** The compaction after a stable checkpoint; once it has failed the log is not used again. */
    method Compact(floor: nat, fault: PruneFault, schedule: seq<ReadEvent>, ghost log: Log)
      returns (ok: bool, ghost kept: bool)
      requires wal.codec.Valid() && OnDiskAs(wal.codec, wal.disk, log, Clean)
      modifies this`walFailed, wal`disk
      ensures walFailed == (old(walFailed) || !ok)
      ensures OnDiskAs(wal.codec, wal.disk, if kept then log else Prune(log, floor), Clean)
      ensures ok ==> !kept
      ensures fault == PruneGood && Healthy(schedule) ==> ok
    {
      PrunedDisk(wal.codec, wal.disk, log, floor);
      hide OnDiskAs, Prune, PruneFile, PointCodec.Valid, Healthy;
      ok := wal.PruneBefore(floor, schedule, fault);
      kept := !ok && wal.disk == old(wal.disk);
      if !ok {
        walFailed := true;
      }
    }

    method Persist(m: Message, snapshot: Core, response: Response,
                   appendFault: AppendFault, pruneFault: PruneFault, schedule: seq<ReadEvent>)
      returns (reply: Reply, ghost fate: Fate)
      requires wal.codec.Valid() && Storable(wal.codec, RecordOf(m))
      requires !walFailed && !model.failed && model.tail == Clean && snapshot == model.live
      requires OnDiskAs(wal.codec, wal.disk, model.log, Clean)
      modifies this, wal
      ensures FateOf(appendFault, pruneFault, schedule, fate)
      ensures Represents()
      ensures model == DeliverHandled(old(model), m, fate, Accepted(old(Image()), response)).0
      ensures reply == ReplyOf(DeliverHandled(old(model), m, fate, Accepted(old(Image()), response)).1)
    {
      ghost var o := Accepted(Image(), response);
      hide OnDiskAs, Storable, Prune, PointCodec.Valid, Healthy;
      fate := AppendFateOf(appendFault);
      var done := Append(m, snapshot, appendFault);
      reply := if done then Ok(response) else Err(WalError);
      if done && response == CheckpointStabilized {
        ghost var kept;
        done, kept := Compact(m.seqno, pruneFault, schedule, model.log + [RecordOf(m)]);
        if !done {
          fate := if kept then PruneAborted else PruneUnsynced;
          reply := Err(WalPruneError);
        }
      }
      model := DeliverHandled(model, m, fate, o).0;
    }

    /** The part of `handle_message` between the guards and the reply: mutate, roll back or persist. */
    method Process(m: Message, appendFault: AppendFault, pruneFault: PruneFault, schedule: seq<ReadEvent>)
      returns (reply: Reply, ghost fate: Fate)
      requires reg.nodes > 0 && Inv(reg, Image()) && !walFailed && Represents() && model.tail == Clean
      requires Storable(wal.codec, RecordOf(m))
      requires m.sender < reg.nodes && reg.sigOk(m.sender, m.Signed(), m.signature)
      requires m.phase == Checkpoint ==> m.seqno > lastStableCheckpoint
      modifies this, wal
      ensures Represents()
      ensures FateOf(appendFault, pruneFault, schedule, fate)
      ensures model == DeliverHandled(old(model), m, fate, Handle(reg, old(model.live), m)).0
      ensures reply == ReplyOf(DeliverHandled(old(model), m, fate, Handle(reg, old(model.live), m)).1)
    {
      hide Inv, OnDiskAs, Storable, PointCodec.Valid, Handle, Healthy;
      var snapshot := Image();
      reply := PhaseStep(m);
      if reply.Err? {
        Restore(snapshot);
        fate := AppendFateOf(appendFault);
      } else {
        hide FateOf;
        reply, fate := Persist(m, snapshot, reply.response, appendFault, pruneFault, schedule);
      }
    }

    /** `handle_message`, down to the bytes of the log file. */
    method HandleMessage(m: Message, appendFault: AppendFault, pruneFault: PruneFault, schedule: seq<ReadEvent>)
      returns (reply: Reply, ghost fate: Fate)
      requires Valid() && Storable(wal.codec, RecordOf(m))
      modifies this, wal
      ensures Valid()
      ensures FateOf(appendFault, pruneFault, schedule, fate)
      ensures model == Deliver(reg, old(model), m, fate).0
      ensures reply == ReplyOf(Deliver(reg, old(model), m, fate).1)
      ensures match Deliver(reg, old(model), m, fate).1
        case Accepted(_, response) => reply == Ok(response)
        case Acknowledged(response) => reply == Ok(response)
        case Rejected(error) => reply == Err(error)
    {
      fate := AppendFateOf(appendFault);
      assert FateOf(appendFault, pruneFault, schedule, fate);
      assert Inv(reg, model.live) && (!walFailed ==> model.tail == Clean);
      hide Inv, NodeOk, Storable, PointCodec.Valid, OnDiskAs, DeliverHandled, FateOf, Healthy;
      hide OnPrePrepare, OnPrepare, OnCommit, OnViewChange, OnCheckpoint;
      if walFailed {
        reply := Err(WalUnavailable);
      } else if m.sender >= reg.nodes {
        reply := Err(AuthFailed);
      } else if !reg.sigOk(m.sender, m.Signed(), m.signature) {
        reply := Err(CryptoAuthFailed);
      } else if m.phase == Checkpoint && m.seqno <= lastStableCheckpoint {
        reply := Ok(CheckpointObsolete);
      } else {
        hide Handle;
        reply, fate := Process(m, appendFault, pruneFault, schedule);
        DeliverOk(reg, old(model), m, fate);
      }
    }
  }
}
