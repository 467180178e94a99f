/**
 The state invariant of a replica: every step of the live handler keeps it, and
 every successful replay, of any log whatever, establishes it.
 */
module Invariants {
  import opened Base
  import opened Protocol
  import opened Recovery

  ghost predicate UniqueProposals(proposals: set<Ballot>) {
    forall k1, k2 :: k1 in proposals && k2 in proposals && k1.At() == k2.At() ==> k1 == k2
  }

  /** `votes` are by registered nodes, each verified under its key for ballot `k`. */
  ghost predicate BallotOk(reg: Registry, phase: Phase, k: Ballot, votes: Votes) {
    forall i :: i in votes ==> i < reg.nodes && reg.sigOk(i, Statement(phase, k.view, k.seqno, k.digest), votes[i])
  }

  ghost predicate VotesOk(reg: Registry, phase: Phase, table: VoteTable) {
    forall k :: k in table ==> table[k] != map[] && BallotOk(reg, phase, k, table[k])
  }

  ghost predicate CertificateBacked(reg: Registry, phase: Phase, table: VoteTable, slot: Slot, c: Certificate) {
    var k := Ballot(slot.view, slot.seqno, c.digest);
    && c.view == slot.view && c.seqno == slot.seqno
    && k in table && c.signatures == table[k] && Full(reg, c.signatures)
    && reg.CertificateOk(phase, c)
  }

  /** `certs` has an entry for a slot exactly when some ballot of the slot has a quorum, and holds those votes. */
  ghost predicate CertificatesExact(reg: Registry, phase: Phase, table: VoteTable, certs: Certificates) {
    && (forall k :: k in table && Full(reg, table[k]) ==> k.At() in certs && certs[k.At()].digest == k.digest)
    && (forall slot :: slot in certs ==> CertificateBacked(reg, phase, table, slot, certs[slot]))
  }

  ghost predicate PrepareSide(reg: Registry, proposals: set<Ballot>, table: VoteTable, prepared: Certificates) {
    && VotesOk(reg, Prepare, table)
    && table.Keys <= proposals
    && CertificatesExact(reg, Prepare, table, prepared)
  }

  ghost predicate PreparedFor(prepared: Certificates, k: Ballot) {
    k.At() in prepared && prepared[k.At()].digest == k.digest
  }

  /** The decision recorded for the slot of `k` is the value of `k`. */
  predicate Decided(s: Core, k: Ballot) {
    k.At() in s.committed && s.committed[k.At()] == k.digest
  }

  /** Commit votes only pile up behind a prepared certificate for the same digest. */
  ghost predicate CommitSide(reg: Registry, proposals: set<Ballot>, prepared: Certificates, table: VoteTable,
                             commits: Certificates, committed: Digests) {
    && VotesOk(reg, Commit, table)
    && table.Keys <= proposals
    && (forall k :: k in table ==> PreparedFor(prepared, k))
    && CertificatesExact(reg, Commit, table, commits)
    && committed.Keys == commits.Keys
    && (forall slot :: slot in commits ==> committed[slot] == commits[slot].digest)
  }

  /** A prepared certificate for the reported value, from a view before `target`. */
  ghost predicate Backed(prepared: Certificates, target: nat, seqno: nat, digest: Digest) {
    exists v: nat :: v < target && PreparedFor(prepared, Ballot(v, seqno, digest))
  }

  ghost predicate ReportsOk(reg: Registry, view: nat, target: nat, votes: Reports) {
    && (target > view ==> !FullReports(reg, votes))
    && forall i :: i in votes ==> i < reg.nodes && ReportOk(reg, target, i, votes[i])
  }

  /** Every report above the stable checkpoint still has its certificate. */
  ghost predicate ReportsBacked(stable: nat, prepared: Certificates, table: ReportTable) {
    forall t, i :: t in table && i in table[t] && table[t][i].seqno > stable ==>
      Backed(prepared, t, table[t][i].seqno, table[t][i].digest)
  }

  ghost predicate ViewSide(reg: Registry, view: nat, table: ReportTable, newViews: NewViews) {
    && (forall t :: t in table ==> ReportsOk(reg, view, t, table[t]))
    && (forall t :: t in newViews ==> t <= view && newViews[t].target == t && NewViewOk(reg, newViews[t]))
  }

  ghost predicate ProposalsBounded(view: nat, highestSeq: nat, proposals: set<Ballot>) {
    forall k :: k in proposals ==> k.view <= view && k.seqno <= highestSeq
  }

  ghost predicate CheckpointSide(reg: Registry, stable: nat, table: VoteTable) {
    && VotesOk(reg, Checkpoint, table)
    && (forall k :: k in table && k.seqno > stable ==> !Full(reg, table[k]))
  }

  ghost predicate Inv(reg: Registry, s: Core) {
    && UniqueProposals(s.proposals)
    && PrepareSide(reg, s.proposals, s.prepareVotes, s.prepared)
    && CommitSide(reg, s.proposals, s.prepared, s.commitVotes, s.commits, s.committed)
    && ViewSide(reg, s.view, s.viewChangeVotes, s.newViews)
    && ReportsBacked(s.stable, s.prepared, s.viewChangeVotes)
    && ProposalsBounded(s.view, s.highestSeq, s.proposals)
    && CheckpointSide(reg, s.stable, s.checkpointVotes)
  }

  lemma InitialInv(reg: Registry)
    ensures Inv(reg, INITIAL)
  {
    hide Full, FullReports;
  }

  // -------------------------------------------------------------------- vote tables

  lemma GrownMap<V>(votes: map<nat, V>, sender: nat, vote: V)
    ensures |votes| <= |votes[sender := vote]|
  {
    var after := votes[sender := vote];
    assert after.Keys == votes.Keys + {sender};
    SubsetSize(votes.Keys, after.Keys);
    MapSize(votes);
    MapSize(after);
  }

  /** A quorum stays a quorum when another vote is added or replaced. */
  lemma FullStays(reg: Registry, votes: Votes, sender: nat, sig: Sig)
    requires Full(reg, votes)
    ensures Full(reg, votes[sender := sig])
  {
    GrownMap(votes, sender, sig);
  }

  lemma AddVoteOk(reg: Registry, phase: Phase, table: VoteTable, k: Ballot, sender: nat, sig: Sig)
    requires VotesOk(reg, phase, table)
    requires sender < reg.nodes && reg.sigOk(sender, Statement(phase, k.view, k.seqno, k.digest), sig)
    ensures VotesOk(reg, phase, AddVote(table, k, sender, sig))
  {
    hide Full, FullReports;
    assert sender in AddVote(table, k, sender, sig)[k];
  }

  /** A slot with a certificate already has the votes of its one proposed ballot. */
  lemma CertificateAtProposal(reg: Registry, phase: Phase, proposals: set<Ballot>, table: VoteTable,
                              certs: Certificates, k: Ballot)
    requires UniqueProposals(proposals) && k in proposals && table.Keys <= proposals
    requires CertificatesExact(reg, phase, table, certs)
    ensures k.At() in certs ==> certs[k.At()].digest == k.digest
  {
    hide Full, FullReports;
    if k.At() in certs {
      assert CertificateBacked(reg, phase, table, k.At(), certs[k.At()]);
      var o := Ballot(k.view, k.seqno, certs[k.At()].digest);
      assert o in proposals && o.At() == k.At();
    }
  }

  /** A certificate at the slot of a proposed ballot is for that ballot, and stays a quorum with one more vote. */
  lemma FullAtProposal(reg: Registry, phase: Phase, proposals: set<Ballot>, table: VoteTable,
                       certs: Certificates, k: Ballot, sender: nat, sig: Sig)
    requires UniqueProposals(proposals) && k in proposals && table.Keys <= proposals
    requires CertificatesExact(reg, phase, table, certs)
    ensures k.At() in certs ==>
      certs[k.At()].digest == k.digest && Full(reg, VotesFor(table, k)[sender := sig])
  {
    hide Full, FullReports;
    CertificateAtProposal(reg, phase, proposals, table, certs, k);
    if k.At() in certs {
      assert CertificateBacked(reg, phase, table, k.At(), certs[k.At()]);
      assert Ballot(k.view, k.seqno, certs[k.At()].digest) == k;
      FullStays(reg, table[k], sender, sig);
    }
  }

  /** One more vote for a proposed ballot keeps the certificates exact. */
  lemma CertificatesStayExact(reg: Registry, phase: Phase, proposals: set<Ballot>, table: VoteTable,
                              certs: Certificates, k: Ballot, sender: nat, sig: Sig)
    requires UniqueProposals(proposals) && k in proposals && table.Keys <= proposals
    requires CertificatesExact(reg, phase, table, certs)
    requires var votes := VotesFor(table, k)[sender := sig];
             Full(reg, votes) ==> reg.certOk(Statement(phase, k.view, k.seqno, k.digest), votes)
    ensures var next := AddVote(table, k, sender, sig);
            CertificatesExact(reg, phase, next, Certify(reg, certs, k, next[k]))
  {
    hide Full, FullReports;
    var next := AddVote(table, k, sender, sig);
    var out := Certify(reg, certs, k, next[k]);
    FullAtProposal(reg, phase, proposals, table, certs, k, sender, sig);
    forall slot | slot in out ensures CertificateBacked(reg, phase, next, slot, out[slot]) {
      if slot != k.At() {
        assert CertificateBacked(reg, phase, table, slot, certs[slot]);
      }
    }
    hide CertificateBacked;
    forall o | o in next && Full(reg, next[o]) ensures o.At() in out && out[o.At()].digest == o.digest {
      if o != k {
        assert o in proposals && o.At() != k.At();
      }
    }
  }

  /** One more vote for a proposed ballot keeps the certificates exact, and no slot changes its digest. */
  lemma CertificatesAfterVote(reg: Registry, phase: Phase, proposals: set<Ballot>, table: VoteTable,
                              certs: Certificates, k: Ballot, sender: nat, sig: Sig)
    requires UniqueProposals(proposals) && k in proposals && table.Keys <= proposals
    requires CertificatesExact(reg, phase, table, certs)
    requires var votes := VotesFor(table, k)[sender := sig];
             Full(reg, votes) ==> reg.certOk(Statement(phase, k.view, k.seqno, k.digest), votes)
    ensures var next := AddVote(table, k, sender, sig);
            CertificatesExact(reg, phase, next, Certify(reg, certs, k, next[k]))
    ensures forall o :: PreparedFor(certs, o) ==>
      PreparedFor(Certify(reg, certs, k, VotesFor(table, k)[sender := sig]), o)
  {
    CertificatesStayExact(reg, phase, proposals, table, certs, k, sender, sig);
    FullAtProposal(reg, phase, proposals, table, certs, k, sender, sig);
    hide Full, FullReports, CertificatesExact, UniqueProposals;
  }

  /** Reports stay backed while no prepared slot above the stable checkpoint changes its digest. */
  lemma ReportsStayBacked(stable: nat, prepared: Certificates, table: ReportTable, stable': nat,
                          prepared': Certificates)
    requires ReportsBacked(stable, prepared, table) && stable <= stable'
    requires forall o: Ballot :: o.seqno > stable' && PreparedFor(prepared, o) ==> PreparedFor(prepared', o)
    ensures ReportsBacked(stable', prepared', table)
  {
    forall t, i | t in table && i in table[t] && table[t][i].seqno > stable'
      ensures Backed(prepared', t, table[t][i].seqno, table[t][i].digest)
    {
      var r := table[t][i];
      var v: nat :| v < t && PreparedFor(prepared, Ballot(v, r.seqno, r.digest));
      assert PreparedFor(prepared', Ballot(v, r.seqno, r.digest));
    }
  }

  // ---------------------------------------------------- the effects both sides share

  lemma RaiseInv(reg: Registry, s: Core, view: nat, highest: nat)
    requires Inv(reg, s)
    requires view >= s.view && highest >= s.highestSeq
    ensures Inv(reg, s.(view := view, highestSeq := highest))
  {
    hide Full, FullReports;
    assert ViewSide(reg, view, s.viewChangeVotes, s.newViews);
  }

  lemma ProposeInv(reg: Registry, s: Core, k: Ballot)
    requires Inv(reg, s)
    requires k.view <= s.view && k.seqno <= s.highestSeq
    requires forall o :: o in s.proposals && o.At() == k.At() ==> o == k
    ensures Inv(reg, s.(proposals := s.proposals + {k}))
  {
    hide Full, FullReports, NewViewOk, ReportsOk, ReportsBacked, CheckpointSide, CertificatesExact, VotesOk;
    assert PrepareSide(reg, s.proposals + {k}, s.prepareVotes, s.prepared);
    assert CommitSide(reg, s.proposals + {k}, s.prepared, s.commitVotes, s.commits, s.committed);
  }

  lemma VotePrepareInv(reg: Registry, s: Core, k: Ballot, sender: nat, sig: Sig)
    requires Inv(reg, s) && k in s.proposals
    requires sender < reg.nodes && reg.sigOk(sender, Statement(Prepare, k.view, k.seqno, k.digest), sig)
    requires var votes := VotesFor(s.prepareVotes, k)[sender := sig];
             Full(reg, votes) ==> reg.certOk(Statement(Prepare, k.view, k.seqno, k.digest), votes)
    ensures Inv(reg, VotePrepareAt(reg, s, k, sender, sig))
  {
    hide Full, FullReports;
    var t := VotePrepareAt(reg, s, k, sender, sig);
    AddVoteOk(reg, Prepare, s.prepareVotes, k, sender, sig);
    CertificatesAfterVote(reg, Prepare, s.proposals, s.prepareVotes, s.prepared, k, sender, sig);
    ReportsStayBacked(s.stable, s.prepared, s.viewChangeVotes, t.stable, t.prepared);
    assert CommitSide(reg, t.proposals, t.prepared, t.commitVotes, t.commits, t.committed);
  }

  lemma VoteCommitInv(reg: Registry, s: Core, k: Ballot, sender: nat, sig: Sig)
    requires Inv(reg, s) && k in s.proposals && PreparedFor(s.prepared, k)
    requires sender < reg.nodes && reg.sigOk(sender, Statement(Commit, k.view, k.seqno, k.digest), sig)
    requires var votes := VotesFor(s.commitVotes, k)[sender := sig];
             Full(reg, votes) ==> reg.certOk(Statement(Commit, k.view, k.seqno, k.digest), votes)
    ensures Inv(reg, VoteCommitAt(reg, s, k, sender, sig))
  {
    hide Full, FullReports;
    var t := VoteCommitAt(reg, s, k, sender, sig);
    AddVoteOk(reg, Commit, s.commitVotes, k, sender, sig);
    CertificatesAfterVote(reg, Commit, s.proposals, s.commitVotes, s.commits, k, sender, sig);
    assert t.committed.Keys == t.commits.Keys;
  }

  lemma CheckpointVoteInv(reg: Registry, s: Core, k: Ballot, sender: nat, sig: Sig, stable: nat)
    requires Inv(reg, s)
    requires sender < reg.nodes && reg.sigOk(sender, Statement(Checkpoint, k.view, k.seqno, k.digest), sig)
    requires stable >= s.stable
    requires Full(reg, VotesFor(s.checkpointVotes, k)[sender := sig]) ==> stable >= k.seqno
    ensures Inv(reg, s.(checkpointVotes := AddVote(s.checkpointVotes, k, sender, sig), stable := stable))
  {
    hide Full, FullReports;
    AddVoteOk(reg, Checkpoint, s.checkpointVotes, k, sender, sig);
    ReportsStayBacked(s.stable, s.prepared, s.viewChangeVotes, stable, s.prepared);
  }

  lemma CertificatesCollected(reg: Registry, phase: Phase, table: VoteTable, certs: Certificates,
                              table': VoteTable, certs': Certificates, floor: nat)
    requires VotesOk(reg, phase, table) && CertificatesExact(reg, phase, table, certs)
    requires table' == VotesAbove(table, floor) && certs' == CertificatesAbove(certs, floor)
    ensures VotesOk(reg, phase, table') && CertificatesExact(reg, phase, table', certs')
    ensures forall o: Ballot :: o.seqno > floor ==> (PreparedFor(certs, o) <==> PreparedFor(certs', o))
  {
    hide Full, FullReports;
    forall slot | slot in certs' ensures CertificateBacked(reg, phase, table', slot, certs'[slot]) {
      assert CertificateBacked(reg, phase, table, slot, certs[slot]);
    }
  }

  lemma CollectPrepareSide(reg: Registry, s: Core, floor: nat)
    requires PrepareSide(reg, s.proposals, s.prepareVotes, s.prepared)
    ensures var t := Collect(s, floor); PrepareSide(reg, t.proposals, t.prepareVotes, t.prepared)
    ensures forall o: Ballot :: o.seqno > floor ==>
      (PreparedFor(s.prepared, o) <==> PreparedFor(Collect(s, floor).prepared, o))
  {
    hide Full, FullReports;
    var t := Collect(s, floor);
    CertificatesCollected(reg, Prepare, s.prepareVotes, s.prepared, t.prepareVotes, t.prepared, floor);
    hide VotesOk, CertificatesExact, PreparedFor;
  }

  lemma CollectCommitSide(reg: Registry, s: Core, floor: nat)
    requires CommitSide(reg, s.proposals, s.prepared, s.commitVotes, s.commits, s.committed)
    requires forall o: Ballot :: o.seqno > floor ==>
      (PreparedFor(s.prepared, o) <==> PreparedFor(Collect(s, floor).prepared, o))
    ensures var t := Collect(s, floor); CommitSide(reg, t.proposals, t.prepared, t.commitVotes, t.commits, t.committed)
  {
    hide Full, FullReports;
    var t := Collect(s, floor);
    CertificatesCollected(reg, Commit, s.commitVotes, s.commits, t.commitVotes, t.commits, floor);
    hide VotesOk, CertificatesExact, PreparedFor;
    assert t.committed.Keys == t.commits.Keys;
  }

  lemma CollectInv(reg: Registry, s: Core, floor: nat)
    requires Inv(reg, s) && floor <= s.stable
    ensures Inv(reg, Collect(s, floor))
  {
    hide Full, FullReports, PrepareSide, CommitSide, ViewSide, ReportsBacked, PreparedFor;
    var t := Collect(s, floor);
    CollectPrepareSide(reg, s, floor);
    CollectCommitSide(reg, s, floor);
    ReportsStayBacked(s.stable, s.prepared, s.viewChangeVotes, t.stable, t.prepared);
    assert CheckpointSide(reg, t.stable, t.checkpointVotes);
  }

  // ------------------------------------------------------------- certificates by lookup

  lemma HasPreparedIsLookup(reg: Registry, s: Core, k: Ballot)
    requires CertificatesExact(reg, Prepare, s.prepareVotes, s.prepared)
    ensures HasPrepared(reg, s.prepared, k) <==> PreparedFor(s.prepared, k)
  {
    hide Full, FullReports;
    if HasPrepared(reg, s.prepared, k) {
      var slot :| slot in s.prepared && s.prepared[slot].view == k.view && s.prepared[slot].seqno == k.seqno
        && s.prepared[slot].digest == k.digest;
      assert CertificateBacked(reg, Prepare, s.prepareVotes, slot, s.prepared[slot]);
      assert slot == k.At();
    }
    if PreparedFor(s.prepared, k) {
      assert CertificateBacked(reg, Prepare, s.prepareVotes, k.At(), s.prepared[k.At()]);
    }
  }

  lemma EarlierPreparedIsBacked(reg: Registry, s: Core, target: nat, seqno: nat, digest: Digest)
    requires CertificatesExact(reg, Prepare, s.prepareVotes, s.prepared)
    ensures HasEarlierPrepared(reg, s.prepared, target, seqno, digest) <==> Backed(s.prepared, target, seqno, digest)
  {
    hide Full, FullReports;
    if HasEarlierPrepared(reg, s.prepared, target, seqno, digest) {
      var slot :| slot in s.prepared && CanSelect(reg, s.prepared[slot], target, seqno, digest);
      assert CertificateBacked(reg, Prepare, s.prepareVotes, slot, s.prepared[slot]);
      assert PreparedFor(s.prepared, Ballot(slot.view, seqno, digest));
    }
    if Backed(s.prepared, target, seqno, digest) {
      var v: nat :| v < target && PreparedFor(s.prepared, Ballot(v, seqno, digest));
      assert CertificateBacked(reg, Prepare, s.prepareVotes, Slot(v, seqno), s.prepared[Slot(v, seqno)]);
      assert CanSelect(reg, s.prepared[Slot(v, seqno)], target, seqno, digest);
    }
  }

  /** The handler's view-change check has no bound on the view, yet it finds only earlier certificates. */
  lemma PreparedValueIsEarlier(reg: Registry, s: Core, target: nat, seqno: nat, digest: Digest)
    requires Inv(reg, s) && target > s.view
    ensures HasPreparedValue(reg, s.prepared, seqno, digest) <==>
      HasEarlierPrepared(reg, s.prepared, target, seqno, digest)
  {
    hide Full, FullReports;
    if HasPreparedValue(reg, s.prepared, seqno, digest) {
      var slot :| slot in s.prepared && s.prepared[slot].seqno == seqno && s.prepared[slot].digest == digest
        && reg.CertificateOk(Prepare, s.prepared[slot]);
      assert CertificateBacked(reg, Prepare, s.prepareVotes, slot, s.prepared[slot]);
      assert Ballot(slot.view, slot.seqno, digest) in s.proposals;
      assert CanSelect(reg, s.prepared[slot], target, seqno, digest);
    }
    if HasEarlierPrepared(reg, s.prepared, target, seqno, digest) {
      var slot :| slot in s.prepared && CanSelect(reg, s.prepared[slot], target, seqno, digest);
    }
  }

  /** `SelectPrepared` finds a certificate exactly when one backs the value, and it is of the highest view. */
  lemma {:induction false} SelectPreparedIsHighest(reg: Registry, s: Core, target: nat, seqno: nat, digest: Digest)
    requires CertificatesExact(reg, Prepare, s.prepareVotes, s.prepared)
    ensures SelectPrepared(reg, s.prepared, target, seqno, digest).Some? <==> Backed(s.prepared, target, seqno, digest)
    ensures var c := SelectPrepared(reg, s.prepared, target, seqno, digest);
      c.Some? ==>
        && CanSelect(reg, c.value, target, seqno, digest)
        && Slot(c.value.view, seqno) in s.prepared && s.prepared[Slot(c.value.view, seqno)] == c.value
        && forall v: nat :: v < target && PreparedFor(s.prepared, Ballot(v, seqno, digest)) ==> v <= c.value.view
  {
    hide Full, FullReports;
    if target > 0 {
      var slot := Slot(target - 1, seqno);
      if slot in s.prepared {
        assert CertificateBacked(reg, Prepare, s.prepareVotes, slot, s.prepared[slot]);
        assert CanSelect(reg, s.prepared[slot], target, seqno, digest) <==>
               PreparedFor(s.prepared, Ballot(target - 1, seqno, digest));
      }
      SelectPreparedIsHighest(reg, s, target - 1, seqno, digest);
    }
  }

  /** A new-view certificate assembled from verified votes and a selected certificate always verifies. */
  lemma AssembledNewViewOk(reg: Registry, s: Core, target: nat, votes: Reports)
    requires Inv(reg, s)
    requires FullReports(reg, votes) && HighestSlot(votes).Some?
    requires forall i :: i in votes ==> ReportOk(reg, target, i, votes[i])
    ensures var top := HighestSlot(votes).value;
      var bound := if top.seqno > 0 then SelectPrepared(reg, s.prepared, target, top.seqno, top.digest) else None;
      (top.seqno > 0 ==> bound.Some?) ==> NewViewOk(reg, NewView(target, votes, bound))
  {
    assert CertificatesExact(reg, Prepare, s.prepareVotes, s.prepared);
    hide Inv;
    var top := HighestSlot(votes).value;
    SelectPreparedIsHighest(reg, s, target, top.seqno, top.digest);
    assert (set i | i in votes && ReportOk(reg, target, i, votes[i])) == votes.Keys;
    MapSize(votes);
  }

  // ------------------------------------------------------------------ main results

  lemma ReportsAfterVote(reg: Registry, s: Core, target: nat, sender: nat, report: Report)
    requires Inv(reg, s)
    requires sender < reg.nodes && ReportOk(reg, target, sender, report)
    ensures var votes := ReportsFor(s.viewChangeVotes, target)[sender := report];
      forall i :: i in votes ==> i < reg.nodes && ReportOk(reg, target, i, votes[i])
  {
    hide Full, FullReports;
    assert ViewSide(reg, s.view, s.viewChangeVotes, s.newViews);
    hide Inv;
    if target in s.viewChangeVotes {
      assert ReportsOk(reg, s.view, target, s.viewChangeVotes[target]);
    }
  }

  lemma BackedAfterVote(reg: Registry, s: Core, target: nat, sender: nat, report: Report)
    requires Inv(reg, s)
    requires report.seqno == 0 || Backed(s.prepared, target, report.seqno, report.digest)
    ensures ReportsBacked(s.stable, s.prepared, AddReport(s.viewChangeVotes, target, sender, report))
  {
    hide Full, FullReports;
    assert ReportsBacked(s.stable, s.prepared, s.viewChangeVotes);
    hide Inv;
  }

  lemma ViewSideAfterVote(reg: Registry, s: Core, target: nat, sender: nat, report: Report, view: nat)
    requires Inv(reg, s) && view >= s.view
    requires sender < reg.nodes && ReportOk(reg, target, sender, report)
    requires FullReports(reg, ReportsFor(s.viewChangeVotes, target)[sender := report]) ==> view >= target
    ensures ViewSide(reg, view, AddReport(s.viewChangeVotes, target, sender, report), s.newViews)
  {
    hide Full, FullReports;
    ReportsAfterVote(reg, s, target, sender, report);
    var table := AddReport(s.viewChangeVotes, target, sender, report);
    forall t | t in table ensures ReportsOk(reg, view, t, table[t]) {
      if t != target {
        assert ReportsOk(reg, s.view, t, s.viewChangeVotes[t]);
      }
    }
  }

  /** At a quorum the view moves to `target` under a verified certificate; below it, no certificate is added. */
  ghost predicate NewViewStep(reg: Registry, s: Core, target: nat, t: Core) {
    && target in t.viewChangeVotes
    && if FullReports(reg, t.viewChangeVotes[target])
       then
         && t.view >= target
         && exists nv: NewView ::
              nv.target == target && NewViewOk(reg, nv) && t.newViews == Install(s.newViews, nv)
       else t.newViews == s.newViews
  }

  lemma OnViewChangeShape(reg: Registry, s: Core, m: Message)
    requires OnViewChange(reg, s, m).Accepted?
    ensures var t := OnViewChange(reg, s, m).state;
      && m.view > s.view
      && t == s.(view := t.view, highestSeq := t.highestSeq, newViews := t.newViews,
                 viewChangeVotes := AddReport(s.viewChangeVotes, m.view, m.sender,
                   Report(m.seqno, m.digest, m.signature)))
      && t.view >= s.view && t.highestSeq >= s.highestSeq
      && NewViewStep(reg, s, m.view, t)
  {
    hide Full, FullReports, NewViewOk, HighestSlot, HasPreparedValue;
    var t := OnViewChange(reg, s, m).state;
    if FullReports(reg, t.viewChangeVotes[m.view]) {
      var nv := t.newViews[m.view];
      assert NewViewOk(reg, nv) && nv.target == m.view && t.newViews == Install(s.newViews, nv);
    }
  }

  lemma RowViewChangeShape(reg: Registry, r: Core, rec: Record)
    requires rec.phase == Code(ViewChange) && RowViewChange(reg, r, rec).Recovered?
    ensures var t := RowViewChange(reg, r, rec).state;
      && t == r.(view := t.view, highestSeq := t.highestSeq, newViews := t.newViews,
                 viewChangeVotes := AddReport(r.viewChangeVotes, rec.view, rec.sender,
                   Report(rec.seqno, rec.digest, rec.signature)))
      && t.view >= r.view && t.highestSeq >= r.highestSeq
      && NewViewStep(reg, r, rec.view, t)
  {
    hide Full, FullReports, NewViewOk, HighestSlot, HasEarlierPrepared;
    var t := RowViewChange(reg, r, rec).state;
    if FullReports(reg, t.viewChangeVotes[rec.view]) {
      var nv := t.newViews[rec.view];
      assert NewViewOk(reg, nv) && nv.target == rec.view && t.newViews == Install(r.newViews, nv);
    }
  }

  lemma InstallKeepsViewSide(reg: Registry, view: nat, table: ReportTable, newViews: NewViews, nv: NewView)
    requires ViewSide(reg, view, table, newViews) && nv.target <= view && NewViewOk(reg, nv)
    ensures ViewSide(reg, view, table, Install(newViews, nv))
  {
    hide Full, FullReports, ReportsOk, NewViewOk;
  }

  /** A recorded view-change vote, with or without the new view it completes. */
  lemma ReportInv(reg: Registry, s: Core, target: nat, sender: nat, report: Report, t: Core)
    requires Inv(reg, s)
    requires sender < reg.nodes && ReportOk(reg, target, sender, report)
    requires report.seqno == 0 || Backed(s.prepared, target, report.seqno, report.digest)
    requires t == s.(view := t.view, highestSeq := t.highestSeq, newViews := t.newViews,
                     viewChangeVotes := AddReport(s.viewChangeVotes, target, sender, report))
    requires t.view >= s.view && t.highestSeq >= s.highestSeq
    requires NewViewStep(reg, s, target, t)
    ensures Inv(reg, t)
  {
    hide Full, FullReports, UniqueProposals, PrepareSide, CommitSide, CheckpointSide, ReportsBacked, ViewSide;
    hide NewViewOk, Install, Backed;
    BackedAfterVote(reg, s, target, sender, report);
    ViewSideAfterVote(reg, s, target, sender, report, t.view);
    if FullReports(reg, t.viewChangeVotes[target]) {
      var nv: NewView :| nv.target == target && NewViewOk(reg, nv) && t.newViews == Install(s.newViews, nv);
      InstallKeepsViewSide(reg, t.view, t.viewChangeVotes, s.newViews, nv);
    }
  }

  lemma ViewChangeInv(reg: Registry, s: Core, m: Message)
    requires Inv(reg, s)
    requires m.sender < reg.nodes && reg.sigOk(m.sender, Statement(ViewChange, m.view, m.seqno, m.digest), m.signature)
    requires OnViewChange(reg, s, m).Accepted?
    ensures Inv(reg, OnViewChange(reg, s, m).state)
  {
    hide Full, FullReports;
    var t := OnViewChange(reg, s, m).state;
    PreparedValueIsEarlier(reg, s, m.view, m.seqno, m.digest);
    EarlierPreparedIsBacked(reg, s, m.view, m.seqno, m.digest);
    OnViewChangeShape(reg, s, m);
    ReportInv(reg, s, m.view, m.sender, Report(m.seqno, m.digest, m.signature), t);
  }

  lemma PrePrepareInv(reg: Registry, s: Core, m: Message)
    requires reg.nodes > 0 && Inv(reg, s)
    requires OnPrePrepare(reg, s, m).Accepted?
    ensures Inv(reg, OnPrePrepare(reg, s, m).state)
  {
    hide Full, FullReports;
    RaiseInv(reg, s, s.view, Max(s.highestSeq, m.seqno));
    ProposeInv(reg, s.(highestSeq := Max(s.highestSeq, m.seqno)), m.Key());
  }

  lemma PrepareInv(reg: Registry, s: Core, m: Message)
    requires Inv(reg, s)
    requires m.sender < reg.nodes && reg.sigOk(m.sender, Statement(Prepare, m.view, m.seqno, m.digest), m.signature)
    requires m.phase == Prepare && OnPrepare(reg, s, m).Accepted?
    ensures Inv(reg, OnPrepare(reg, s, m).state)
  {
    hide Full, FullReports, Inv;
    VotePrepareInv(reg, s, m.Key(), m.sender, m.signature);
  }

  lemma CommitInv(reg: Registry, s: Core, m: Message)
    requires Inv(reg, s)
    requires m.sender < reg.nodes && reg.sigOk(m.sender, Statement(Commit, m.view, m.seqno, m.digest), m.signature)
    requires m.phase == Commit && OnCommit(reg, s, m).Accepted?
    ensures Inv(reg, OnCommit(reg, s, m).state)
  {
    hide Full, FullReports;
    HasPreparedIsLookup(reg, s, m.Key());
    VoteCommitInv(reg, s, m.Key(), m.sender, m.signature);
  }

  lemma CheckpointInv(reg: Registry, s: Core, m: Message)
    requires Inv(reg, s) && m.seqno > s.stable
    requires m.sender < reg.nodes && reg.sigOk(m.sender, Statement(Checkpoint, m.view, m.seqno, m.digest), m.signature)
    requires OnCheckpoint(reg, s, m).Accepted?
    ensures Inv(reg, OnCheckpoint(reg, s, m).state)
  {
    hide Full, FullReports;
    var table := AddVote(s.checkpointVotes, m.Key(), m.sender, m.signature);
    if Full(reg, table[m.Key()]) {
      CheckpointVoteInv(reg, s, m.Key(), m.sender, m.signature, m.seqno);
      CollectInv(reg, s.(checkpointVotes := table, stable := m.seqno), m.seqno);
    } else {
      CheckpointVoteInv(reg, s, m.Key(), m.sender, m.signature, s.stable);
    }
  }

  /** Every message the handler accepts leaves a good state good. */
  lemma HandlePreservesInv(reg: Registry, s: Core, m: Message)
    requires reg.nodes > 0 && Inv(reg, s)
    requires Handle(reg, s, m).Accepted?
    ensures Inv(reg, Handle(reg, s, m).state)
  {
    hide Full, FullReports, Inv, OnPrePrepare, OnPrepare, OnCommit, OnViewChange, OnCheckpoint;
    match m.phase {
      case PrePrepare => PrePrepareInv(reg, s, m);
      case Prepare => PrepareInv(reg, s, m);
      case Commit => CommitInv(reg, s, m);
      case ViewChange => ViewChangeInv(reg, s, m);
      case Checkpoint => CheckpointInv(reg, s, m);
    }
  }

  lemma RowViewChangeInv(reg: Registry, r: Core, rec: Record)
    requires Inv(reg, r)
    requires rec.phase == Code(ViewChange) && Authentic(reg, rec) && RowViewChange(reg, r, rec).Recovered?
    ensures Inv(reg, RowViewChange(reg, r, rec).state)
  {
    hide Full, FullReports;
    var t := RowViewChange(reg, r, rec).state;
    EarlierPreparedIsBacked(reg, r, rec.view, rec.seqno, rec.digest);
    RowViewChangeShape(reg, r, rec);
    ReportInv(reg, r, rec.view, rec.sender, Report(rec.seqno, rec.digest, rec.signature), t);
  }

  lemma RowCheckpointInv(reg: Registry, r: Core, rec: Record)
    requires reg.nodes > 0 && Inv(reg, r)
    requires rec.phase == Code(Checkpoint) && Authentic(reg, rec) && RowCheckpoint(reg, r, rec).Recovered?
    ensures Inv(reg, RowCheckpoint(reg, r, rec).state)
  {
    hide Full, FullReports, Inv;
    var t := RowCheckpoint(reg, r, rec).state;
    CheckpointVoteInv(reg, r, rec.Key(), rec.sender, rec.signature, t.stable);
    RaiseInv(reg, r.(checkpointVotes := t.checkpointVotes, stable := t.stable), t.view, t.highestSeq);
  }

  lemma RowPrePrepareInv(reg: Registry, r: Core, rec: Record)
    requires reg.nodes > 0 && Inv(reg, r)
    requires rec.phase == Code(PrePrepare) && RowPrePrepare(reg, r, rec).Recovered?
    ensures Inv(reg, RowPrePrepare(reg, r, rec).state)
  {
    hide Full, FullReports, Inv;
    var up := Raise(r, rec);
    RaiseInv(reg, r, up.view, up.highestSeq);
    ProposeInv(reg, up, rec.Key());
  }

  lemma RowVoteInv(reg: Registry, r: Core, rec: Record)
    requires Inv(reg, r) && Authentic(reg, rec)
    ensures rec.phase == Code(Prepare) && RowPrepare(reg, r, rec).Recovered? ==> Inv(reg, RowPrepare(reg, r, rec).state)
    ensures rec.phase == Code(Commit) && RowCommit(reg, r, rec).Recovered? ==> Inv(reg, RowCommit(reg, r, rec).state)
  {
    hide Full, FullReports;
    assert CertificatesExact(reg, Prepare, r.prepareVotes, r.prepared);
    hide Inv;
    var up := Raise(r, rec);
    RaiseInv(reg, r, up.view, up.highestSeq);
    if rec.phase == Code(Prepare) && RowPrepare(reg, r, rec).Recovered? {
      VotePrepareInv(reg, up, rec.Key(), rec.sender, rec.signature);
    } else if rec.phase == Code(Commit) && RowCommit(reg, r, rec).Recovered? {
      HasPreparedIsLookup(reg, r, rec.Key());
      VoteCommitInv(reg, up, rec.Key(), rec.sender, rec.signature);
    }
  }

  lemma RowPreservesInv(reg: Registry, r: Core, rec: Record)
    requires reg.nodes > 0 && Inv(reg, r)
    requires Row(reg, r, rec).Recovered?
    ensures Inv(reg, Row(reg, r, rec).state)
  {
    hide Full, FullReports, Inv, RowPrePrepare, RowPrepare, RowCommit, RowViewChange, RowCheckpoint;
    if rec.phase == Code(PrePrepare) {
      RowPrePrepareInv(reg, r, rec);
    } else if rec.phase <= Code(Commit) {
      RowVoteInv(reg, r, rec);
    } else if rec.phase == Code(ViewChange) {
      RowViewChangeInv(reg, r, rec);
    } else {
      RowCheckpointInv(reg, r, rec);
    }
  }

  lemma {:induction false} FoldInv(reg: Registry, log: Log)
    requires reg.nodes > 0 && Fold(reg, log).Recovered?
    ensures Inv(reg, Fold(reg, log).state)
  {
    hide Full, FullReports;
    if |log| == 0 {
      InitialInv(reg);
    } else {
      FoldInv(reg, log[..|log| - 1]);
      RowPreservesInv(reg, Fold(reg, log[..|log| - 1]).state, log[|log| - 1]);
    }
  }

  /** Whatever the bytes on disk, a replica that starts from them starts in a good state. */
  lemma ReplayEstablishesInv(reg: Registry, log: Log)
    requires reg.nodes > 0 && Replay(reg, log).Recovered?
    ensures Inv(reg, Replay(reg, log).state)
  {
    hide Full, FullReports;
    FoldInv(reg, log);
    var r := Fold(reg, log).state;
    if r.stable > 0 {
      CollectInv(reg, r, r.stable);
    }
  }
}
