/**
 `new_with_wal_path`: the checks before a replica starts, and the loop that folds
 the rows of its log into mutable fields. It is a second implementation of the
 protocol, and shares no code with `handle_message`.
 */
module Startup {
  import opened Base
  import opened Protocol
  import opened Recovery
  import opened Invariants
  import opened Durability
  import opened Compaction
  import opened Selection
  import opened WalFormat
  import opened Wal
  import opened Replica

  /** Where one row leads: to the fields `after`, or to a recovery error. */
  ghost predicate Follows(o: Recovery, failed: bool, after: Core) {
    match o
    case Recovered(next) => !failed && after == next
    case Refused => failed
  }

  /** The mutable `recovered_*` variables of the replay closure. */
  class Replayer {
    const reg: Registry
    var view: nat
    var highestSeq: nat
    var stable: nat
    var certificates: Certificates
    var commitCertificates: Certificates
    var newViews: NewViews
    var committed: Digests
    var proposals: set<Ballot>
    var prepareVotes: VoteTable
    var commitVotes: VoteTable
    var checkpointVotes: VoteTable
    var viewChangeVotes: ReportTable
    var recoveryError: bool

    function Image(): Core
      reads this
    {
      Fields(view, highestSeq, stable, certificates, commitCertificates, newViews,
             committed, proposals, prepareVotes, commitVotes, checkpointVotes, viewChangeVotes)
    }

    constructor (reg: Registry)
      ensures this.reg == reg && Image() == INITIAL && !recoveryError
    {
      this.reg := reg;
      view, highestSeq, stable, proposals := 0, 0, 0, {};
      certificates, commitCertificates, newViews, committed := map[], map[], map[], map[];
      prepareVotes, commitVotes, checkpointVotes, viewChangeVotes := map[], map[], map[], map[];
      recoveryError := false;
    }

    method RaiseTo(rec: Record)
      modifies this`view, this`highestSeq
      ensures Image() == Raise(old(Image()), rec)
    {
      if rec.phase <= Code(Commit) && rec.view > view {
        view := rec.view;
      }
      if rec.seqno > highestSeq {
        highestSeq := rec.seqno;
      }
    }

    method ProposalRow(rec: Record)
      requires reg.nodes > 0 && !recoveryError
      modifies this
      ensures Follows(RowPrePrepare(reg, old(Image()), rec), recoveryError, Image())
    {
      if rec.sender != reg.Leader(rec.view)
         || exists k :: k in proposals && k.view == rec.view && k.seqno == rec.seqno && k.digest != rec.digest
      {
        recoveryError := true;
        return;
      }
      RaiseTo(rec);
      proposals := proposals + {rec.Key()};
    }

    method CountPrepare(rec: Record)
      requires !recoveryError
      modifies this`prepareVotes, this`certificates, this`recoveryError
      ensures var next := VotePrepareAt(reg, old(Image()), rec.Key(), rec.sender, rec.signature);
        var votes := next.prepareVotes[rec.Key()];
        && (recoveryError <==>
              Full(reg, votes) && !reg.certOk(Statement(Prepare, rec.view, rec.seqno, rec.digest), votes))
        && (!recoveryError ==> Image() == next)
    {
      hide Full, AddVote;
      prepareVotes := AddVote(prepareVotes, rec.Key(), rec.sender, rec.signature);
      var sigs := prepareVotes[rec.Key()];
      if Full(reg, sigs) {
        var cert := Certificate(rec.view, rec.seqno, rec.digest, sigs);
        if !reg.CertificateOk(Prepare, cert) {
          recoveryError := true;
          return;
        }
        certificates := certificates[Slot(rec.view, rec.seqno) := cert];
      }
    }

    method PrepareRow(rec: Record)
      requires rec.phase == Code(Prepare) && !recoveryError
      modifies this
      ensures Follows(RowPrepare(reg, old(Image()), rec), recoveryError, Image())
    {
      hide Full, VotePrepareAt, Raise;
      ghost var r := Image();
      assert Raise(r, rec).proposals == r.proposals by { RaiseKeeps(r, rec); }
      RaiseTo(rec);
      if rec.Key() !in proposals {
        recoveryError := true;
        return;
      }
      CountPrepare(rec);
    }

    method CountCommit(rec: Record)
      requires !recoveryError
      modifies this`commitVotes, this`commitCertificates, this`committed, this`recoveryError
      ensures var next := VoteCommitAt(reg, old(Image()), rec.Key(), rec.sender, rec.signature);
        var votes := next.commitVotes[rec.Key()];
        && (recoveryError <==>
              Full(reg, votes) && !reg.certOk(Statement(Commit, rec.view, rec.seqno, rec.digest), votes))
        && (!recoveryError ==> Image() == next)
    {
      hide Full, AddVote;
      commitVotes := AddVote(commitVotes, rec.Key(), rec.sender, rec.signature);
      var sigs := commitVotes[rec.Key()];
      if Full(reg, sigs) {
        var cert := Certificate(rec.view, rec.seqno, rec.digest, sigs);
        if !reg.CertificateOk(Commit, cert) {
          recoveryError := true;
          return;
        }
        commitCertificates := commitCertificates[Slot(rec.view, rec.seqno) := cert];
        committed := committed[Slot(rec.view, rec.seqno) := rec.digest];
      }
    }

    method CommitRow(rec: Record)
      requires rec.phase == Code(Commit) && !recoveryError
      modifies this
      ensures Follows(RowCommit(reg, old(Image()), rec), recoveryError, Image())
    {
      hide Full, VoteCommitAt, HasPrepared, Raise;
      ghost var r := Image();
      assert Raise(r, rec).proposals == r.proposals && Raise(r, rec).prepared == r.prepared by { RaiseKeeps(r, rec); }
      RaiseTo(rec);
      if rec.Key() !in proposals || !HasPrepared(reg, certificates, rec.Key()) {
        recoveryError := true;
        return;
      }
      CountCommit(rec);
    }

    method EnterNewView(target: nat, supporters: Reports)
      requires CertificatesExact(reg, Prepare, prepareVotes, certificates) && !recoveryError
      modifies this`view, this`newViews, this`recoveryError
      ensures Follows(QuorumRow(reg, old(Image()), target, supporters), recoveryError, Image())
    {
      hide CertificatesExact, NewViewOk, HighestSlot, SelectPrepared, Install;
      var top := HighestViewChangeSlot(supporters);
      if top.None? {
        recoveryError := true;
        return;
      }
      var bound: Option<Certificate> := None;
      if top.value.seqno > 0 {
        bound := SelectFromTable(reg, old(Image()), certificates, target, top.value.seqno, top.value.digest);
        if bound.None? {
          recoveryError := true;
          return;
        }
      }
      var nv := NewView(target, supporters, bound);
      var verified := VerifyNewView(reg, nv);
      if !verified {
        recoveryError := true;
        return;
      }
      view := Max(view, target);
      newViews := Install(newViews, nv);
    }

    method ViewChangeRow(rec: Record)
      requires CertificatesExact(reg, Prepare, prepareVotes, certificates) && !recoveryError
      modifies this
      ensures Follows(RowViewChange(reg, old(Image()), rec), recoveryError, Image())
    {
      hide CertificatesExact, FullReports, HasEarlierPrepared, QuorumRow, Raise;
      ghost var r := Image();
      assert Raise(r, rec).prepared == r.prepared by { RaiseKeeps(r, rec); }
      RaiseTo(rec);
      if rec.seqno > 0 && !HasEarlierPrepared(reg, certificates, rec.view, rec.seqno, rec.digest) {
        recoveryError := true;
        return;
      }
      viewChangeVotes := AddReport(viewChangeVotes, rec.view, rec.sender, Report(rec.seqno, rec.digest, rec.signature));
      if FullReports(reg, viewChangeVotes[rec.view]) {
        EnterNewView(rec.view, viewChangeVotes[rec.view]);
      }
    }

    method CheckpointRow(rec: Record)
      requires !recoveryError
      modifies this
      ensures Follows(RowCheckpoint(reg, old(Image()), rec), recoveryError, Image())
    {
      hide Full, AddVote, Raise;
      RaiseTo(rec);
      checkpointVotes := AddVote(checkpointVotes, rec.Key(), rec.sender, rec.signature);
      if Full(reg, checkpointVotes[rec.Key()]) {
        if rec.seqno > stable {
          stable := rec.seqno;
        }
        view := Max(view, rec.view);
      }
    }

    /** The replay closure on one row. */
    method Apply(rec: Record)
      requires reg.nodes > 0 && Inv(reg, Image()) && !recoveryError
      modifies this
      ensures Follows(Row(reg, old(Image()), rec), recoveryError, Image())
    {
      assert CertificatesExact(reg, Prepare, prepareVotes, certificates);
      hide Inv, CertificatesExact, RowPrePrepare, RowPrepare, RowCommit, RowViewChange, RowCheckpoint;
      if !Authentic(reg, rec) {
        recoveryError := true;
        return;
      }
      match rec.phase {
        case 0 => ProposalRow(rec);
        case 1 => PrepareRow(rec);
        case 2 => CommitRow(rec);
        case 3 => ViewChangeRow(rec);
        case _ => CheckpointRow(rec);
      }
    }

    method RetainVotes(floor: nat)
      modifies this`proposals, this`prepareVotes, this`commitVotes, this`checkpointVotes
      ensures proposals == ProposalsAbove(old(proposals), floor)
      ensures prepareVotes == VotesAbove(old(prepareVotes), floor)
      ensures commitVotes == VotesAbove(old(commitVotes), floor)
      ensures checkpointVotes == VotesAbove(old(checkpointVotes), floor)
    {
      hide ProposalsAbove, VotesAbove;
      proposals := ProposalsAbove(proposals, floor);
      prepareVotes := VotesAbove(prepareVotes, floor);
      commitVotes := VotesAbove(commitVotes, floor);
      checkpointVotes := VotesAbove(checkpointVotes, floor);
    }

    method RetainCertificates(floor: nat)
      modifies this`certificates, this`commitCertificates, this`committed
      ensures certificates == CertificatesAbove(old(certificates), floor)
      ensures commitCertificates == CertificatesAbove(old(commitCertificates), floor)
      ensures committed == DigestsAbove(old(committed), floor)
    {
      hide CertificatesAbove, DigestsAbove;
      certificates := CertificatesAbove(certificates, floor);
      commitCertificates := CertificatesAbove(commitCertificates, floor);
      committed := DigestsAbove(committed, floor);
    }

    /** Drop what a recovered stable checkpoint covers. */
    method RetainAbove()
      modifies this
      ensures Image() == Finish(old(Image())) && recoveryError == old(recoveryError)
    {
      hide ProposalsAbove, VotesAbove, CertificatesAbove, DigestsAbove;
      if stable > 0 {
        RetainVotes(stable);
        RetainCertificates(stable);
      }
    }

    /** All rows of the log, in order; rows after an error are ignored. */
    method ReplayRows(rows: Log)
      requires reg.nodes > 0 && Image() == INITIAL && !recoveryError
      modifies this
      ensures Follows(Replay(reg, rows), recoveryError, Image())
    {
      hide Row, Inv, Finish;
      for n := 0 to |rows|
        invariant Follows(Fold(reg, rows[..n]), recoveryError, Image())
      {
        assert rows[..n + 1][..n] == rows[..n];
        if !recoveryError {
          FoldInv(reg, rows[..n]);
          Apply(rows[n]);
        }
      }
      assert rows[..|rows|] == rows;
      if !recoveryError {
        RetainAbove();
      }
    }
  }

  lemma RaiseKeeps(r: Core, rec: Record)
    ensures Raise(r, rec).proposals == r.proposals && Raise(r, rec).prepared == r.prepared
    ensures Raise(r, rec).prepareVotes == r.prepareVotes
  {
  }

  datatype StartError = TopologyViolation | RegistryViolation | WalOpenError | ReplayError

  datatype Start = Started(state: PbftState) | NotStarted(error: StartError)

  /** The registry a start would use, with the threshold check at the quorum size. */
  function RegistryFor(total: nat, sigOk: (nat, Statement, Sig) -> bool,
                       thresholdOk: (nat, Statement, Votes) -> bool): Registry
    requires total > 0
  {
    var f := (total - 1) / 3;
    Registry(total, f, sigOk, (s, votes) => thresholdOk(2 * f + 1, s, votes))
  }

  /** A log that replays makes a node in good order, whoever wrote it. */
  lemma OpenedOk(reg: Registry, rows: Log)
    requires reg.nodes > 0 && Replay(reg, rows).Recovered?
    ensures NodeOk(reg, Node(Replay(reg, rows).state, rows, Clean, false))
  {
    hide Inv, Logged, Replay;
    ReplayEstablishesInv(reg, rows);
    ReplayLogged(reg, rows);
  }

  /** The node a start makes of the bytes of a log file, if it makes one. */
  ghost function Opened(reg: Registry, codec: PointCodec, disk: seq<Byte>): Option<Node>
    requires reg.nodes > 0
  {
    match DecodeLog(codec, disk)
    case None => None
    case Some(rows) =>
      match Replay(reg, rows)
      case Refused => None
      case Recovered(r) => Some(Node(r, rows, Clean, false))
  }

  /** The second half of `new_with_wal_path`: replay the log into a new replica. */
  method OpenLog(reg: Registry, wal: WriteAheadLog, schedule: seq<ReadEvent>) returns (start: Start)
    requires reg.nodes > 0 && wal.codec.Valid()
    ensures start.Started? || start == NotStarted(ReplayError)
    ensures start.Started? ==>
      && fresh(start.state) && start.state.Valid() && start.state.wal == wal && start.state.reg == reg
      && Opened(reg, wal.codec, wal.disk) == Some(start.state.model)
    ensures start.NotStarted? && Healthy(schedule) ==> Opened(reg, wal.codec, wal.disk) == None
  {
    hide Replay, NodeOk, Encode, Decode, Storable, PointCodec.Valid, Healthy;
    var rows := wal.ReplayLog(schedule);
    if rows.None? {
      return NotStarted(ReplayError);
    }
    var replayer := new Replayer(reg);
    replayer.ReplayRows(rows.value);
    if replayer.recoveryError {
      return NotStarted(ReplayError);
    }
    OpenedOk(reg, rows.value);
    WritesReplayed(wal.codec, wal.disk);
    var state := new PbftState(reg, wal, replayer.Image(), rows.value);
    start := Started(state);
  }

  /** `new_with_wal_path`; `opens` says whether the operating system opens the log file. */
  method NewWithWalPath(total: nat, keys: set<nat>, sigOk: (nat, Statement, Sig) -> bool,
                        thresholdOk: (nat, Statement, Votes) -> bool, wal: WriteAheadLog, opens: bool,
                        schedule: seq<ReadEvent>)
    returns (start: Start)
    requires total > 0 && wal.codec.Valid()
    ensures start == NotStarted(TopologyViolation) <==> total % 3 != 1
    ensures start == NotStarted(RegistryViolation) <==> total % 3 == 1 && exists id :: 0 <= id < total && id !in keys
    ensures start == NotStarted(WalOpenError) <==>
      total % 3 == 1 && (forall id :: 0 <= id < total ==> id in keys) && !opens
    ensures start.Started? ==>
      && fresh(start.state) && start.state.Valid() && start.state.wal == wal
      && start.state.reg == RegistryFor(total, sigOk, thresholdOk) && start.state.reg.Topology()
      && Opened(start.state.reg, wal.codec, wal.disk) == Some(start.state.model)
    ensures start == NotStarted(ReplayError) && Healthy(schedule) ==>
      Opened(RegistryFor(total, sigOk, thresholdOk), wal.codec, wal.disk) == None
  {
    hide Opened, NodeOk, PbftState.Valid, Healthy, PointCodec.Valid;
    var f := (total - 1) / 3;
    if total != 3 * f + 1 {
      return NotStarted(TopologyViolation);
    }
    for id := 0 to total
      invariant forall k :: 0 <= k < id ==> k in keys
    {
      if id !in keys {
        return NotStarted(RegistryViolation);
      }
    }
    if !opens {
      return NotStarted(WalOpenError);
    }
    start := OpenLog(RegistryFor(total, sigOk, thresholdOk), wal, schedule);
  }

  /** A replica started on the bytes another left behind is that replica restarted. */
  lemma StartIsRestart(reg: Registry, codec: PointCodec, disk: seq<Byte>, left: Node)
    requires reg.nodes > 0 && codec.Valid() && OnDiskAs(codec, disk, left.log, left.tail)
    ensures Opened(reg, codec, disk) == Restart(reg, left)
  {
    hide Replay, Encode, Decode, Storable;
    match left.tail {
      case Clean => LogRoundTrip(codec, left.log);
      case Torn =>
        var torn: seq<Byte> :| 0 < |torn| < RECORD_LEN && disk == EncodeLog(codec, left.log) + torn;
        TornRefused(codec, left.log, torn);
      case Whole(rec) =>
        EncodeLogAppend(codec, left.log, rec);
        LogRoundTrip(codec, left.log + [rec]);
    }
  }
}
