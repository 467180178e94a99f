/**
 The PBFT replica as a transition function: what `PbftState::handle_message`
 does to the twelve protocol fields, phase by phase.
 */
module Protocol {
  import opened Base

  datatype Phase = PrePrepare | Prepare | Commit | ViewChange | Checkpoint

  /** What a signature covers: phase, view, sequence and digest, not the sender. */
  datatype Statement = Statement(phase: Phase, view: nat, seqno: nat, digest: Digest)

  datatype Message = Message(phase: Phase, view: nat, seqno: nat, digest: Digest, sender: nat, signature: Sig) {
    function Signed(): Statement {
      Statement(phase, view, seqno, digest)
    }

    function Key(): Ballot {
      Ballot(view, seqno, digest)
    }
  }

  datatype Slot = Slot(view: nat, seqno: nat)

  /** A slot together with a value proposed for it. */
  datatype Ballot = Ballot(view: nat, seqno: nat, digest: Digest) {
    function At(): Slot {
      Slot(view, seqno)
    }
  }

  type Votes = map<nat, Sig>

  type VoteTable = map<Ballot, Votes>

  datatype Certificate = Certificate(view: nat, seqno: nat, digest: Digest, signatures: Votes)

  type Certificates = map<Slot, Certificate>

  type Digests = map<Slot, Digest>

  /** One view-change vote: the highest prepared slot its sender reports. */
  datatype Report = Report(seqno: nat, digest: Digest, signature: Sig)

  type Reports = map<nat, Report>

  type ReportTable = map<nat, Reports>

  /** The highest value a set of view-change votes reports. */
  datatype Top = Top(seqno: nat, digest: Digest)

  datatype NewView = NewView(target: nat, votes: Reports, selected: Option<Certificate>)

  type NewViews = map<nat, NewView>

  /**
   The registered nodes and their keys. `sigOk(i, s, sig)` is `verify_bls_signature`
   under the key registered for `i`; `certOk(s, sigs)` is `verify_threshold_signature`
   at the quorum size under the master key.
   */
  datatype Registry = Registry(
    nodes: nat,
    faults: nat,
    sigOk: (nat, Statement, Sig) -> bool,
    certOk: (Statement, Votes) -> bool)
  {
    predicate Topology() {
      nodes == 3 * faults + 1
    }

    function Quorum(): nat {
      2 * faults + 1
    }

    function Leader(view: nat): nat
      requires nodes > 0
    {
      view % nodes
    }

    predicate CertificateOk(phase: Phase, c: Certificate) {
      certOk(Statement(phase, c.view, c.seqno, c.digest), c.signatures)
    }
  }

  /**
   The protocol fields of a replica, over the types of its tables. The tables are
   type parameters only to keep the verifier's datatype axioms away from their keys.
   */
  datatype Fields<Certs, Views, Chosen, Proposed, Tally, Reported> = Fields(
    view: nat,
    highestSeq: nat,
    stable: nat,
    prepared: Certs,
    commits: Certs,
    newViews: Views,
    committed: Chosen,
    proposals: Proposed,
    prepareVotes: Tally,
    commitVotes: Tally,
    checkpointVotes: Tally,
    viewChangeVotes: Reported)

  /** The rollback image of `handle_message`. */
  type Core = Fields<Certificates, NewViews, Digests, set<Ballot>, VoteTable, ReportTable>

  const INITIAL: Core :=
    Fields(0, 0, 0, map[], map[], map[], map[], {}, map[], map[], map[], map[])

  datatype Response =
    | InboundPrePrepare
    | CertificatePrepared
    | VotePrepare
    | Committed
    | VoteCommit
    | ViewChanged
    | VoteViewChange
    | CheckpointStabilized
    | VoteCheckpoint
    | CheckpointObsolete

  datatype HandlerError =
    | WalUnavailable
    | AuthFailed
    | CryptoAuthFailed
    | ViewMismatch
    | LeaderViolation
    | EquivocationDetected
    | DuplicateProposal
    | OrphanPrepare
    | OrphanCommit
    | CertificateVerificationFailed
    | SafetyViolation
    | ViewChangeInvalid
    | CertificateInvalid
    | ConflictingViewChangeDigests
    | MissingQuorumCertificate
    | NewViewVerificationFailed
    | WalError
    | WalPruneError

  datatype Outcome =
    | Accepted(state: Core, response: Response)
    | Acknowledged(reply: Response)
    | Rejected(error: HandlerError)

  /** Votes of a quorum of nodes. */
  predicate Full(reg: Registry, votes: Votes) {
    |votes| >= reg.Quorum()
  }

  predicate FullReports(reg: Registry, votes: Reports) {
    |votes| >= reg.Quorum()
  }

  // ---------------------------------------------------------------- vote tables

  function VotesFor(table: VoteTable, k: Ballot): Votes {
    if k in table then table[k] else map[]
  }

  function AddVote(table: VoteTable, k: Ballot, sender: nat, sig: Sig): (next: VoteTable)
    ensures k in next && next[k] == VotesFor(table, k)[sender := sig]
  {
    table[k := VotesFor(table, k)[sender := sig]]
  }

  function ReportsFor(table: ReportTable, target: nat): Reports {
    if target in table then table[target] else map[]
  }

  function AddReport(table: ReportTable, target: nat, sender: nat, report: Report): (next: ReportTable)
    ensures target in next && next[target] == ReportsFor(table, target)[sender := report]
  {
    table[target := ReportsFor(table, target)[sender := report]]
  }

  /** The certificates after a vote: a quorum for `k` writes the entry of its slot. */
  function Certify(reg: Registry, certs: Certificates, k: Ballot, votes: Votes): Certificates {
    if Full(reg, votes) then certs[k.At() := Certificate(k.view, k.seqno, k.digest, votes)] else certs
  }

  function Decide(reg: Registry, committed: Digests, k: Ballot, votes: Votes): Digests {
    if Full(reg, votes) then committed[k.At() := k.digest] else committed
  }

  function VotePrepareAt(reg: Registry, s: Core, k: Ballot, sender: nat, sig: Sig): Core {
    var table := AddVote(s.prepareVotes, k, sender, sig);
    s.(prepareVotes := table, prepared := Certify(reg, s.prepared, k, table[k]))
  }

  function VoteCommitAt(reg: Registry, s: Core, k: Ballot, sender: nat, sig: Sig): Core {
    var table := AddVote(s.commitVotes, k, sender, sig);
    s.(commitVotes := table,
       commits := Certify(reg, s.commits, k, table[k]),
       committed := Decide(reg, s.committed, k, table[k]))
  }

  function VoteCheckpointAt(s: Core, k: Ballot, sender: nat, sig: Sig): Core {
    s.(checkpointVotes := AddVote(s.checkpointVotes, k, sender, sig))
  }

  function ReportAt(s: Core, target: nat, sender: nat, report: Report): Core {
    s.(viewChangeVotes := AddReport(s.viewChangeVotes, target, sender, report))
  }

  function ProposalsAbove(proposals: set<Ballot>, floor: nat): set<Ballot> {
    set k | k in proposals && k.seqno > floor
  }

  function VotesAbove(table: VoteTable, floor: nat): VoteTable {
    map k | k in table && k.seqno > floor :: table[k]
  }

  function CertificatesAbove(certs: Certificates, floor: nat): Certificates {
    map slot | slot in certs && slot.seqno > floor :: certs[slot]
  }

  function DigestsAbove(committed: Digests, floor: nat): Digests {
    map slot | slot in committed && slot.seqno > floor :: committed[slot]
  }

  /** Drop every slot at or below `floor`: the `retain` calls of a stable checkpoint. */
  function Collect(s: Core, floor: nat): Core {
    s.(proposals := ProposalsAbove(s.proposals, floor),
       prepareVotes := VotesAbove(s.prepareVotes, floor),
       commitVotes := VotesAbove(s.commitVotes, floor),
       prepared := CertificatesAbove(s.prepared, floor),
       commits := CertificatesAbove(s.commits, floor),
       committed := DigestsAbove(s.committed, floor),
       checkpointVotes := VotesAbove(s.checkpointVotes, floor))
  }

  // ---------------------------------------------------------- view-change choice

  ghost function MaxReported(votes: Reports): (q: nat)
    requires |votes| > 0
    ensures exists i :: i in votes && votes[i].seqno == q
    ensures forall i :: i in votes ==> votes[i].seqno <= q
    decreases |votes|
  {
    MapSize(votes);
    var i :| i in votes.Keys;
    var rest := map j | j in votes && j != i :: votes[j];
    assert rest.Keys == votes.Keys - {i};
    MapSize(rest);
    if |rest| == 0 then
      assert votes.Keys - {i} == {};
      assert forall j :: j in votes ==> j == i || j in votes.Keys - {i};
      votes[i].seqno
    else
      assert forall j :: j in votes ==> j == i || (j in rest && rest[j] == votes[j]);
      Max(votes[i].seqno, MaxReported(rest))
  }

  /** All votes that report sequence `q` report digest `d`. */
  ghost predicate OneDigestAt(votes: Reports, q: nat, d: Digest) {
    forall i :: i in votes && votes[i].seqno == q ==> votes[i].digest == d
  }

  /** `highest_view_change_slot`: none on an empty map or on conflicting digests at the top. */
  ghost function HighestSlot(votes: Reports): Option<Top> {
    if |votes| == 0 then None
    else
      var q := MaxReported(votes);
      if q == 0 then Some(Top(0, ZERO_DIGEST))
      else
        var i :| i in votes && votes[i].seqno == q;
        if OneDigestAt(votes, q, votes[i].digest) then Some(Top(q, votes[i].digest)) else None
  }

  predicate CanSelect(reg: Registry, c: Certificate, target: nat, seqno: nat, digest: Digest) {
    c.view < target && c.seqno == seqno && c.digest == digest && reg.CertificateOk(Prepare, c)
  }

  /** The eligible prepared certificate of the greatest view below `target`. */
  function SelectPrepared(reg: Registry, prepared: Certificates, target: nat, seqno: nat, digest: Digest)
    : Option<Certificate>
  {
    if target == 0 then None
    else
      var v := target - 1;
      if Slot(v, seqno) in prepared && CanSelect(reg, prepared[Slot(v, seqno)], target, seqno, digest)
      then Some(prepared[Slot(v, seqno)])
      else SelectPrepared(reg, prepared, v, seqno, digest)
  }

  predicate ReportOk(reg: Registry, target: nat, sender: nat, r: Report) {
    reg.sigOk(sender, Statement(ViewChange, target, r.seqno, r.digest), r.signature)
  }

  /** `NewViewCertificate::verify`. */
  ghost predicate NewViewOk(reg: Registry, nv: NewView) {
    && FullReports(reg, nv.votes)
    && HighestSlot(nv.votes).Some?
    && (match nv.selected
        case Some(c) =>
          && reg.CertificateOk(Prepare, c)
          && c.view < nv.target
          && Top(c.seqno, c.digest) == HighestSlot(nv.votes).value
        case None => HighestSlot(nv.votes).value.seqno == 0)
    && |set i | i in nv.votes && ReportOk(reg, nv.target, i, nv.votes[i])| >= reg.Quorum()
  }

  function Install(newViews: NewViews, nv: NewView): NewViews {
    newViews[nv.target := nv]
  }

  // ------------------------------------------------------------------ the handler

  ghost function OnPrePrepare(reg: Registry, s: Core, m: Message): (o: Outcome)
    requires reg.nodes > 0
    ensures o.Accepted? || o.Rejected?
    ensures o.Accepted? ==> o.state.stable == s.stable && o.state.view >= s.view
    ensures o.Accepted? ==> o.response == InboundPrePrepare
    ensures o.Rejected? ==>
      o.error == ViewMismatch || o.error == LeaderViolation || o.error == EquivocationDetected
        || o.error == DuplicateProposal
  {
    if m.view != s.view then Rejected(ViewMismatch)
    else if m.sender != reg.Leader(m.view) then Rejected(LeaderViolation)
    else if exists k :: k in s.proposals && k.view == m.view && k.seqno == m.seqno && k.digest != m.digest then
      Rejected(EquivocationDetected)
    else if m.Key() in s.proposals then Rejected(DuplicateProposal)
    else
      Accepted(s.(proposals := s.proposals + {m.Key()}, highestSeq := Max(s.highestSeq, m.seqno)),
               InboundPrePrepare)
  }

  /** A Prepare vote for a known proposal is counted. */
  function CountedPrepare(reg: Registry, s: Core, m: Message): Outcome {
    var next := VotePrepareAt(reg, s, m.Key(), m.sender, m.signature);
    if !Full(reg, next.prepareVotes[m.Key()]) then Accepted(next, VotePrepare)
    else if !reg.certOk(m.Signed(), next.prepareVotes[m.Key()]) then Rejected(CertificateVerificationFailed)
    else Accepted(next, CertificatePrepared)
  }

  /** A Commit vote for a prepared proposal is counted. */
  function CountedCommit(reg: Registry, s: Core, m: Message): Outcome {
    var next := VoteCommitAt(reg, s, m.Key(), m.sender, m.signature);
    if !Full(reg, next.commitVotes[m.Key()]) then Accepted(next, VoteCommit)
    else if !reg.certOk(m.Signed(), next.commitVotes[m.Key()]) then Rejected(CertificateVerificationFailed)
    else Accepted(next, Committed)
  }

  function OnPrepare(reg: Registry, s: Core, m: Message): (o: Outcome)
    ensures o.Accepted? || o.Rejected?
    ensures o.Accepted? ==> o.state.stable == s.stable && o.state.view >= s.view
    ensures o.Accepted? ==> o.response == VotePrepare || o.response == CertificatePrepared
    ensures o.Rejected? ==>
      o.error == ViewMismatch || o.error == OrphanPrepare || o.error == CertificateVerificationFailed
  {
    var k := m.Key();
    if m.view != s.view then Rejected(ViewMismatch)
    else if k !in s.proposals then Rejected(OrphanPrepare)
    else CountedPrepare(reg, s, m)
  }

  predicate HasPrepared(reg: Registry, prepared: Certificates, k: Ballot) {
    exists slot :: slot in prepared
      && prepared[slot].view == k.view && prepared[slot].seqno == k.seqno && prepared[slot].digest == k.digest
      && reg.CertificateOk(Prepare, prepared[slot])
  }

  ghost function OnCommit(reg: Registry, s: Core, m: Message): (o: Outcome)
    ensures o.Accepted? || o.Rejected?
    ensures o.Accepted? ==> o.state.stable == s.stable && o.state.view >= s.view
    ensures o.Accepted? ==> o.response == VoteCommit || o.response == Committed
    ensures o.Rejected? ==>
      o.error == ViewMismatch || o.error == OrphanCommit || o.error == SafetyViolation
        || o.error == EquivocationDetected || o.error == CertificateVerificationFailed
  {
    var k := m.Key();
    if m.view != s.view then Rejected(ViewMismatch)
    else if k !in s.proposals then Rejected(OrphanCommit)
    else if !HasPrepared(reg, s.prepared, k) then Rejected(SafetyViolation)
    else if k.At() in s.committed && s.committed[k.At()] != k.digest then Rejected(EquivocationDetected)
    else CountedCommit(reg, s, m)
  }

  /** Some valid prepared certificate, of any view, backs (seqno, digest). */
  predicate HasPreparedValue(reg: Registry, prepared: Certificates, seqno: nat, digest: Digest) {
    exists slot :: slot in prepared
      && prepared[slot].seqno == seqno && prepared[slot].digest == digest
      && reg.CertificateOk(Prepare, prepared[slot])
  }

  /** What becomes of a view change once the votes for `target` have reached a quorum. */
  ghost function QuorumOutcome(reg: Registry, s: Core, target: nat, votes: Reports): Outcome {
    match HighestSlot(votes)
    case None => Rejected(ConflictingViewChangeDigests)
    case Some(top) =>
      var bound := if top.seqno > 0 then SelectPrepared(reg, s.prepared, target, top.seqno, top.digest) else None;
      var nv := NewView(target, votes, bound);
      if top.seqno > 0 && bound.None? then Rejected(MissingQuorumCertificate)
      else if !NewViewOk(reg, nv) then Rejected(NewViewVerificationFailed)
      else
        Accepted(s.(view := target,
                    highestSeq := if bound.Some? then Max(s.highestSeq, bound.value.seqno) else s.highestSeq,
                    newViews := Install(s.newViews, nv)),
                 ViewChanged)
  }

  ghost function OnViewChange(reg: Registry, s: Core, m: Message): (o: Outcome)
    ensures o.Accepted? || o.Rejected?
    ensures o.Accepted? ==> o.state.stable == s.stable && o.state.view >= s.view
    ensures o.Accepted? ==> o.response == VoteViewChange || o.response == ViewChanged
    ensures o.Rejected? ==>
      o.error == ViewChangeInvalid || o.error == CertificateInvalid
        || o.error == ConflictingViewChangeDigests || o.error == MissingQuorumCertificate
        || o.error == NewViewVerificationFailed
  {
    if m.view <= s.view then Rejected(ViewChangeInvalid)
    else if m.seqno > 0 && !HasPreparedValue(reg, s.prepared, m.seqno, m.digest) then Rejected(CertificateInvalid)
    else
      var table := AddReport(s.viewChangeVotes, m.view, m.sender, Report(m.seqno, m.digest, m.signature));
      var next := s.(viewChangeVotes := table);
      if !FullReports(reg, table[m.view]) then Accepted(next, VoteViewChange)
      else QuorumOutcome(reg, next, m.view, table[m.view])
  }

  function OnCheckpoint(reg: Registry, s: Core, m: Message): (o: Outcome)
    ensures o.Accepted? || o == Rejected(ViewMismatch)
    ensures o.Accepted? ==>
      o.state.view == s.view && (o.response == VoteCheckpoint || o.response == CheckpointStabilized)
    ensures o.Accepted? ==> o.state.stable == if o.response == CheckpointStabilized then m.seqno else s.stable
  {
    if m.view != s.view then Rejected(ViewMismatch)
    else
      var k := m.Key();
      var table := AddVote(s.checkpointVotes, k, m.sender, m.signature);
      if !Full(reg, table[k]) then Accepted(s.(checkpointVotes := table), VoteCheckpoint)
      else Accepted(Collect(s.(checkpointVotes := table, stable := m.seqno), m.seqno), CheckpointStabilized)
  }

  /** `handle_message` up to, but not including, the durable append. */
  ghost function Handle(reg: Registry, s: Core, m: Message): (o: Outcome)
    requires reg.nodes > 0
    ensures o.Accepted? ==> o.state.view >= s.view
    ensures o.Accepted? ==>
      if o.response == CheckpointStabilized then o.state.stable == m.seqno > s.stable && m.phase == Checkpoint
      else o.state.stable == s.stable
  {
    if m.sender >= reg.nodes then Rejected(AuthFailed)
    else if !reg.sigOk(m.sender, m.Signed(), m.signature) then Rejected(CryptoAuthFailed)
    else if m.phase == Checkpoint && m.seqno <= s.stable then Acknowledged(CheckpointObsolete)
    else match m.phase
      case PrePrepare => OnPrePrepare(reg, s, m)
      case Prepare => OnPrepare(reg, s, m)
      case Commit => OnCommit(reg, s, m)
      case ViewChange => OnViewChange(reg, s, m)
      case Checkpoint => OnCheckpoint(reg, s, m)
  }
}
