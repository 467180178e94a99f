# Sovereign Lattice: a verified model

This project models the two cores of the Rust engine and proves what they are for. The
first is the PBFT replica with its write-ahead log and its restart path; the second is
joint Feldman key generation with threshold BLS verification. A last layer puts them
together: the replica a node starts on the keys it has generated.

`dafny verify dfyconfig.toml` checks everything.

## How it is laid out

| module | what it models |
|---|---|
| `Protocol` | `handle_message` up to the append, as a transition function over the twelve protocol fields |
| `Recovery` | the replay closure of `new_with_wal_path`, row by row: the second implementation of the same protocol |
| `Invariants`, `Completeness` | the state invariant, and which error branches can be taken |
| `Leadership`, `Replies`, `Refusals` | whose turn it is to propose; the exact condition of every reply, and of every row that replay refuses |
| `Durability` | a replica with its log: append before acknowledge, rollback, compaction, crash, restart, whole runs |
| `Refinement` | live state against replayed state while no checkpoint has stabilised |
| `Sequences` | the highest sequence number, replayed and live |
| `LogMeaning`, `Compaction` | what a log says on its own, and live and replayed state compared through it, compactions included |
| `Restarting`, `Orderly` | when a replica can restart: the exact condition on its log, and runs that always meet it |
| `Cluster` | n = 3f + 1 nodes, Byzantine ones included, with votes derived from others' votes; agreement |
| `Schedules`, `Splits`, `Disagreement` | runs of the whole cluster, group by group; exactly when honest replicas can be split |
| `Rounds`, `Limits`, `DoubleReports`, `Divisions` | rounds of votes; where uniqueness and restart stop, exactly, with the runs that get there |
| `Selection` | the two choices at a view change, as loops over hash maps |
| `Bytes`, `WalFormat`, `Wal` | the 101-byte records, the short-read loops, pruning |
| `Replica`, `Startup`, `Network` | `PbftState`, the replay loop and `handle_connection` as mutable objects and methods, proved against the functions above |
| `Scalars`, `Lagrange`, `Sharing` | the scalar field, interpolation at zero, secret sharing |
| `Threshold`, `Forgery`, `Derivation`, `Frost` | `verify_threshold_signature`, its limits, what partial signatures give away, and the FROST form of the same weights |
| `Codecs`, `Packets`, `Layout` | canonical encodings, DKG packets, consensus messages, and where every byte stands |
| `Ceremony` | the start-up when everyone is honest |
| `Dkg`, `Bootstrap`, `Feldman` | `DkgSession`, the start-up in `main.rs`, `MultiDealerDKG` and `run_feldman_dkg` |
| `Link`, `Thresholds` | the replica on jointly generated keys, and the key threshold that agreement needs |
| `Materials`, `Fields` | length-prefixed materials of package roots and attestations, hexadecimal |

The recursive functions in `Protocol`, `Recovery` and `Durability` are specifications.
The imperative code of the source is modelled by methods: `PbftState` and `Replayer` hold
the source's fields, and their methods are proved to do exactly what the functions say,
down to the bytes of the log file. The theorems are then about the functions.

## What is assumed

- A signature scheme: PBFT results hold for every pair of verification functions of a
  `Registry`. Votes are partial signatures under shares of one polynomial, so the votes of as
  many nodes as it has coefficients give everyone's (`Thresholds.VotesDerive`). The cluster's
  adversary has that power: a valid signature of an honest node is used once that node has
  signed, or once as many nodes as the key threshold are each Byzantine or have signed
  (`Cluster.Unforged`). Otherwise signatures are not forged.
- Restarts keep their keys. `main.rs` generates keys anew at every start; a log that holds a row
  of a sender whose key has changed is then refused (`Link.NewKeysRefuseOldLog`), so everything
  said about restarts is about a replica restarted on the keys it had.
- The group: points of G1 and G2 are named by their discrete logarithms, pairing is
  multiplication, hash-to-curve is any function. That the BLS12-381 group order is prime is
  the hypothesis `IsPrime(Q)`; the field laws are proved, the inverse by extended Euclid.
- Point and scalar encodings are canonical (`PointCodec.Valid`, `Codec.Valid`). Where a
  collision-free hash is needed, only the inputs at hand are assumed not to collide.
- The file system: a failing append leaves a prefix of its record, a rename is atomic, a
  sync may fail.

## Where the code and its documentation differ

The model follows the code.

- The protocol description and the threat model (THREAT_MODEL.md:37) have a message persisted
  before it changes state. The code changes its fields, appends, and rolls back if the append
  fails.
- The protocol description lists four phases on the wire; the code has a fifth, Checkpoint.
- The protocol description lets the primary's PrePrepare count towards the prepared quorum; the
  code counts Prepare votes only.
- The threat model has signature forgery prevented (THREAT_MODEL.md:20), and the key-generation
  threshold is read from the environment without a bound (`main.rs`). Honest replicas always
  agree if and only if that threshold, counted in coefficients that are not leading zeros, is more
  than 2f (`Disagreement.AgreementIff`, `Thresholds.BootAgreementIff`); up to 2f + 2
  coefficients, certificates always verify and replicas always agree exactly at 2f + 1
  (`Thresholds.SafeThresholdIff`). The default, 3 for 4 nodes, is that value.
- The documents promise one value per view and sequence. The handler has no low watermark, so
  this holds above the stable checkpoint (`Limits.ConflictIffLogged`, `Cluster.HonestPreparesOnce`,
  `Cluster.Agreement`) and fails at and below it, exactly there (`Limits.StabilizedSlotIff`), in
  every cluster (`Limits.SlotAtStableIsNotUnique`, `Limits.RestartedSlotIsNotUnique`). There two
  honest replicas can decide different values whatever the keys (`Disagreement.CheckpointSplits`).
- The documents have a replica recover from its own log. It does exactly when the log,
  as far as it is readable bytes, holds one value per slot and no quorum of view-change reports
  that disagrees about its highest report (`Restarting.RestartIff`). Both can fail: the first by a
  second value at or below the checkpoint, the second when a sender reports twice and the
  pruning drops its last report (`DoubleReports.DoubleReportStopsRestart`). In a run in which
  neither a slot nor a report is contradicted by what the log holds, every log replays
  (`Orderly.OrderlyRunRestarts`).
- The start-up code never calls `verify_transcript_consistency`. That all parties hold the same
  commitments is therefore a hypothesis of `Dkg.JointSharesVerify`, and
  `Dkg.ConsistentTranscripts` says how the check would establish it.

## Model

| member | source | states |
|---|---|---|
| `Protocol.Handle` | rust_engine/src/pbft.rs:630-895 | the current view never decreases; the stable checkpoint changes only when a checkpoint stabilises, and then to a strictly greater sequence |
| `Leadership.LeaderRefusedIff` | rust_engine/src/pbft.rs:690-716 | a registered, signed proposal of the current view is refused with `LEADER_VIOLATION` if and only if (view - sender) mod n is not zero; one for a fresh slot is accepted if and only if it is |
| `Leadership.LeaderRowRefusedIff` | rust_engine/src/pbft.rs:420-428 | replay refuses an authentic proposal row that conflicts with none if and only if (view - sender) mod n is not zero |
| `Leadership.EveryoneLeadsOnce` | rust_engine/src/pbft.rs:600-602 | among any n consecutive views every node may propose in exactly one; node 0 in view 0 |
| `Replies.UnsignedReplies` | rust_engine/src/pbft.rs:630-655 | `AUTH_FAILED` iff the sender is not registered; `CRYPTO_AUTH_FAILED` iff it is and the signature fails; an obsolete checkpoint vote is acknowledged, and nothing else is |
| `Replies.ProposalReplies` | rust_engine/src/pbft.rs:690-716 | wrong view, wrong turn, another value held for the slot, the same value held: each error exactly under its condition, in this order; otherwise the proposal is taken |
| `Replies.PrepareReplies` | rust_engine/src/pbft.rs:718-749 | wrong view, no such proposal, a quorum that does not verify; otherwise a counted vote, or the certificate exactly when 2f + 1 nodes have voted |
| `Replies.CommitReplies` | rust_engine/src/pbft.rs:751-800 | wrong view, no such proposal, no prepared certificate of the value, a quorum that does not verify; otherwise a counted vote, or the decision exactly when 2f + 1 nodes have voted |
| `Replies.ReportReplies` | rust_engine/src/pbft.rs:802-870 | an old target, a value nobody prepared, a quorum at odds: each exactly under its condition; otherwise a counted report below a quorum, and the new view or a missing certificate at one |
| `Replies.CheckpointReplies` | rust_engine/src/pbft.rs:872-895 | obsolete at or below the stable checkpoint, wrong view above it; otherwise a counted vote, or a stable checkpoint exactly when 2f + 1 nodes have voted |
| `Replies.DurableReplies` | rust_engine/src/pbft.rs:904-922 | `WAL_UNAVAILABLE` iff the log has failed, `WAL_ERROR` iff the append of an accepted message fails, `WAL_PRUNE_ERROR` iff the compaction after a stable checkpoint fails; otherwise the handler's own reply |
| `Replies.FailedStaysFailed` | rust_engine/src/pbft.rs:904-922 | after any of these three nothing is handled any more until a restart |
| `Replies.NewViewIff` | rust_engine/src/pbft.rs:268-313 | a new-view certificate is valid if and only if it has 2f + 1 votes with one highest report, a verified Prepare certificate of an earlier view for exactly that report or none at sequence zero, and 2f + 1 nodes whose signatures on their reports verify |
| `Replies.NewViewsKept` | rust_engine/src/pbft.rs:824-895 | no accepted message, checkpoints included, forgets a new view |
| `Invariants.HandlePreservesInv` | rust_engine/src/pbft.rs:630-895 | every accepted message keeps the state invariant: one proposed value per slot; a certificate exactly where some ballot has a quorum of votes, holding those votes; every commit vote behind a prepared certificate of the same value; every stored vote by a registered, verified signer; proposals at or below the current view; no view above the current one with a quorum of view-change votes |
| `Invariants.ReplayEstablishesInv` | rust_engine/src/pbft.rs:398-574 | the same invariant holds of whatever a successful replay returns, for any log, whoever wrote it |
| `Invariants.RowPreservesInv` | rust_engine/src/pbft.rs:398-560 | the replay closure keeps the invariant row by row |
| `Invariants.CertificatesAfterVote` | rust_engine/src/pbft.rs:718-800 | one more vote keeps the certificate table exact, and no slot's certificate changes its value |
| `Invariants.CollectInv` | rust_engine/src/pbft.rs:872-892 | the garbage collection of a stable checkpoint keeps the invariant |
| `Invariants.SelectPreparedIsHighest` | rust_engine/src/pbft.rs:237-266 | a certificate is selected exactly when some earlier view prepared the reported value, and it is the one of the greatest such view |
| `Invariants.AssembledNewViewOk` | rust_engine/src/pbft.rs:268-313 | a new-view certificate assembled from verified reports passes its own verification |
| `Invariants.PreparedValueIsEarlier` | rust_engine/src/pbft.rs:807-822 | a prepared value reported in a view change was always prepared in a view below the target |
| `Completeness.CommitEquivocationUnreachable` | rust_engine/src/pbft.rs:773-777 | in a good state the commit-phase `EQUIVOCATION_DETECTED` cannot be returned |
| `Completeness.NewViewFailureUnreachable` | rust_engine/src/pbft.rs:850-858 | in a good state `NEW_VIEW_VERIFICATION_FAILED` cannot be returned |
| `Completeness.MissingCertificateIff` | rust_engine/src/pbft.rs:830-850 | `MISSING_QUORUM_CERTIFICATE` is returned if and only if the vote completes a quorum whose unambiguous top report, above sequence zero, has no certificate left from an earlier view |
| `Completeness.MissingOnlyBelowStable` | rust_engine/src/pbft.rs:830-850 | and then the top reported sequence is positive and at or below the stable checkpoint, so never before the first checkpoint stabilises |
| `Completeness.NewViewBindsHighest` | rust_engine/src/pbft.rs:824-866 | an accepted new view carries exactly the quorum of votes it was built from, and binds the local certificate of the greatest view strictly below the target for the greatest reported sequence, or nothing when all reports are empty |
| `Completeness.CertificateFailureUnreachable` | rust_engine/src/pbft.rs:729-745 | with keys under which verified votes combine, `CERTIFICATE_VERIFICATION_FAILED` cannot be returned, in either voting phase |
| `Completeness.ReplayVoteRefusedIff` | rust_engine/src/pbft.rs:445-484 | with such keys replay refuses an authentic Prepare or Commit row if and only if its proposal, or for a Commit its prepared certificate, is missing |
| `Refusals.UnauthenticRow` | rust_engine/src/pbft.rs:398-419 | replay refuses a row of an unknown phase, of an unregistered sender, or whose signature does not verify |
| `Refusals.ProposalRow` | rust_engine/src/pbft.rs:420-444 | an authentic proposal row is refused if and only if it is not its sender's turn or the slot has another recovered value |
| `Refusals.PrepareRow` | rust_engine/src/pbft.rs:445-460 | a Prepare row is refused if and only if its proposal is missing, or it makes 2f + 1 voters whose signatures do not verify together |
| `Refusals.CommitRow` | rust_engine/src/pbft.rs:461-484 | a Commit row likewise, or for want of a prepared certificate of its value |
| `Refusals.ReportRow` | rust_engine/src/pbft.rs:485-543 | a view-change row is refused if and only if its value was not prepared in an earlier view, or it makes 2f + 1 reports that are at odds about the highest or whose highest has no certificate of an earlier view |
| `Refusals.CheckpointRow` | rust_engine/src/pbft.rs:544-560 | a checkpoint row is always taken |
| `Refinement.StepAgrees` | rust_engine/src/pbft.rs:398-560 | from agreeing states, handling an accepted message and replaying its row lead to agreeing states: all fields equal, the recovered highest sequence at least the live one and equal if it was equal and the row is no checkpoint vote |
| `Refinement.StabilizationAgrees` | rust_engine/src/pbft.rs:544-574 | replaying the row of a stabilising checkpoint vote, and then retaining what is above it, gives what the handler did at once |
| `Refinement.LiveStateIsReplayed` | rust_engine/src/pbft.rs:357-598 | in every run with file-system failures, crashes and restarts in which the live stable checkpoint stays at zero, lost and refused checkpoint votes included, replaying the log succeeds and gives back the live state; only the highest sequence may be greater, and only if a checkpoint vote was logged |
| `Refinement.FailedAppendTrichotomy` | rust_engine/src/pbft.rs:904-908 | an append that fails, of any accepted message, leaves the protocol fields unchanged and every later message refused; a restart then gives the old state, the state after the message, or a refusal, according to whether nothing, everything or part of the record reached the disk, and the highest sequence exactly unless a checkpoint vote was logged |
| `LogMeaning.FoldReads` | rust_engine/src/pbft.rs:393-564 | replay tables are exactly the log's own reading: proposals, last vote of each sender per ballot, view-change voters, and the stable checkpoint as the greatest sequence with a logged checkpoint quorum |
| `Refusals.ReplayDrops` | rust_engine/src/pbft.rs:564-574 | of those tables exactly what is at or below a positive recovered stable checkpoint is dropped, in all seven, and nothing else changes |
| `Refusals.StabilizedDrops` | rust_engine/src/pbft.rs:880-892 | a checkpoint that stabilises drops exactly what is at or below it from the seven tables, its own votes included, and nothing else changes |
| `Sequences.ReplayedHighest` | rust_engine/src/pbft.rs:437-439 | whatever log replays, the recovered highest sequence is the greatest of any of its rows, of whatever phase, and 0 for no rows |
| `Sequences.RecoveredAhead` | rust_engine/src/pbft.rs:357-598 | in every run the recovered highest sequence is at least the live one, above it only by a logged checkpoint vote, and equal to it if and only if no logged checkpoint vote is above it |
| `LogMeaning.PruneByRow` | rust_engine/src/wal.rs:144-148 | pruning goes row by row: each is kept, in its place, exactly if it is at or above the floor |
| `LogMeaning.PrunedVotes` | rust_engine/src/wal.rs:144-148 | pruning keeps every vote at or above the floor and drops every vote below it |
| `LogMeaning.FoldViewBelow` | rust_engine/src/pbft.rs:430-436 | a log whose rows justify no view above some bound replays to no view above it |
| `Compaction.HandleLogged` | rust_engine/src/pbft.rs:890-920 | an accepted message and its row keep the live tables equal, above the stable checkpoint, to what the log says |
| `Compaction.PrunedLogged` | rust_engine/src/pbft.rs:912-920 | so does pruning the log at the new stable checkpoint |
| `Compaction.DeliverOk` | rust_engine/src/pbft.rs:904-922 | the node invariant, live state against log and leftover tail, is kept whatever the file system does, and the stable checkpoint never moves back |
| `Compaction.RestartOk` | rust_engine/src/pbft.rs:357-598 | a restart keeps the node invariant and never loses a stable checkpoint |
| `Compaction.StableNeverMovesBack` | rust_engine/src/pbft.rs:880-888 | over any continuation of any run the stable checkpoint does not decrease |
| `Restarting.AcceptedJustified` | rust_engine/src/pbft.rs:690-895 | whatever the handler accepts has, in the log before it, all that replay will ask of its row: proposal, prepared quorum, earlier certificate, and at most a quorum of reporters |
| `Restarting.PrunedJustified` | rust_engine/src/wal.rs:144-148 | pruning never separates a row from what justifies it |
| `Restarting.RowReplaysIff` | rust_engine/src/pbft.rs:398-560 | replay refuses such a row if and only if it is a second value for a slot, or completes a quorum whose highest reports conflict; none of its other errors can occur |
| `Restarting.FoldIff` | rust_engine/src/pbft.rs:393-564 | so such a log replays if and only if it holds one value per slot and no quorum of reports in conflict |
| `Restarting.RestartIff` | rust_engine/src/pbft.rs:357-598 | in every run, with compactions, failures, crashes and restarts, the replica can restart if and only if its file does not end in a torn record and its rows meet that condition; likewise for the replay of its acknowledged rows |
| `Restarting.ReadableRunReplays` | rust_engine/src/pbft.rs:544-574 | in every run, a log that meets the condition replays, to the live stable checkpoint, the live tables above it, checkpoint votes included, and a view not above the live one |
| `Orderly.OrderlyRunRestarts` | rust_engine/src/pbft.rs:357-598 | if no accepted proposal is for a slot the log holds under another value and no accepted report contradicts one the log holds of the same sender for the same view, then at every moment the log replays, to the live checkpoint and all above it, and the replica restarts unless its file ends in a torn record |
| `Orderly.OrderlyCheckpointKeepsView` | rust_engine/src/pbft.rs:555-560 | and right after a checkpoint stabilises in such a run, pruned or not, the log replays to exactly the live view as well |
| `Limits.StabilizedSlotIff` | rust_engine/src/pbft.rs:690-716 | in every run, right after a checkpoint stabilises, a leader's well-signed proposal of a second value for a logged slot is accepted if and only if it is at or below the checkpoint |
| `Limits.AcceptedReplaysIff` | rust_engine/src/pbft.rs:904-908 | with the row of an accepted message a log replays if and only if it replayed before and the row is in order: for a proposal, the log holds no other value for the slot; for a report that makes a quorum, the highest reports agree |
| `Limits.ProposalRestartsIff` | rust_engine/src/pbft.rs:420-428 | in every run, after an acknowledged proposal the replica can restart if and only if it could before and the log held no other value for the slot |
| `Limits.SlotAtStableIsNotUnique` | rust_engine/src/pbft.rs:690-716 | in any cluster of 3f + 1 whose nodes can sign, after any run: a proposal, a quorum of checkpoint votes at its sequence and a second proposal for the slot make the replica answer both with its vote, and then it cannot restart from its own log |
| `Limits.RestartedSlotIsNotUnique` | rust_engine/src/pbft.rs:566-574 | the same at any slot up to the checkpoint, when the compaction is aborted and the replica restarts before the second proposal |
| `Limits.ConflictIffLogged` | rust_engine/src/pbft.rs:703-711 | above the stable checkpoint a leader's proposal is refused as equivocation if and only if the log holds another value for the slot |
| `Rounds.PrepareQuorum` | rust_engine/src/pbft.rs:718-749 | with combining keys, the Prepare votes of 2f + 1 nodes for a proposed value of the current view are all accepted and leave it prepared |
| `Rounds.CommitQuorum` | rust_engine/src/pbft.rs:751-800 | with combining keys, the Commit votes of 2f + 1 nodes for a prepared value are all accepted and decide it |
| `DoubleReports.ReportQuorum` | rust_engine/src/pbft.rs:802-870 | 2f + 1 reports of one value prepared in an earlier view are all accepted and bring the replica into their view |
| `DoubleReports.DoubleReportStopsRestart` | rust_engine/src/pbft.rs:489-516 | in any cluster with f > 0, after any run that leaves two values prepared for one sequence: a node reports one and then none, 2f others report the other, the view is entered, a checkpoint prunes the second report, and the running replica cannot restart, even if its log holds one value per slot |
| `Divisions.DividedIsReached` | rust_engine/src/pbft.rs:690-870 | such a run exists from a fresh start in every such cluster, and its log is still readable |
| `Cluster.NextInv` | rust_engine/src/network.rs:195-239 | every cluster step keeps the invariant that each Prepare an honest node has signed above its stable checkpoint is a proposal in its log |
| `Cluster.HonestPreparesOnce` | rust_engine/src/network.rs:200-216 | an honest node never signs Prepare for two values of one slot above its stable checkpoint, across crashes and restarts |
| `Cluster.QuorumIntersection` | docs/invariants.md:7-13 | two sets of 2f + 1 among 3f + 1 nodes share at least f + 1 nodes |
| `Cluster.QuorumsShareHonest` | rust_engine/src/pbft.rs:363-376 | two sets of 2f + 1 among 3f + 1 nodes share a node that is not Byzantine |
| `Cluster.QuorumFits` | rust_engine/src/pbft.rs:363-376 | 2f + 1 is the size that works: the honest nodes alone make up a quorum, and two sets of 2f may share fewer than f |
| `Cluster.CommitVoteIsBacked` | rust_engine/src/network.rs:217-235 | a node that signs Commit for a value holds a prepared certificate for that very value, although the code looks only at the slot |
| `Cluster.Agreement` | rust_engine/src/pbft.rs:690-800 | if deriving a vote takes the partial signatures of at least 2f + 1 nodes, then in every run of 3f + 1 nodes with at most f Byzantine, with crashes and restarts, two honest nodes never certify different values for one view and sequence above all honest stable checkpoints |
| `Disagreement.AgreementIff` | rust_engine/src/pbft.rs:690-800 | for every cluster that can sign and combine: no run whatever has such a disagreement if and only if deriving a vote takes more than 2f others, or there is one node |
| `Disagreement.LowThresholdSplits` | rust_engine/src/main.rs:32 | with a key threshold of at most 2f, a run from a fresh start in which two honest replicas decide different values for one slot above all stable checkpoints: f Byzantine nodes and two disjoint groups of f honest ones |
| `Disagreement.CheckpointSplits` | rust_engine/src/pbft.rs:872-892 | at the checkpoint agreement fails whatever the key threshold: one honest replica has decided a value, another makes its sequence its stable checkpoint and then decides another value for the slot, on votes that were all cast |
| `Splits.GroupDecides` | rust_engine/src/network.rs:195-239 | any group of honest nodes that has, with the Byzantine ones, a quorum, or enough to derive one, decides what a Byzantine leader proposes to it, and nobody else changes |
| `Network.HandleConnection` | rust_engine/src/network.rs:164-246 | the method: `CONSENSUS_STATE_NOT_INITIALIZED` before anything else if there is no replica yet, rejection before the lock, a missing secret key, each exactly under its condition and with nothing changed; otherwise exactly the cluster step of the message under the fate of the given faults, the handler's own error if it has one, and exactly the vote that step emits |
| `Network.VoteAfter` | rust_engine/src/network.rs:200-237 | Prepare after a proposal; Commit after a Prepare whose slot has a certificate; nothing otherwise; signed over the statement |
| `Replica.PbftState.HandleMessage` | rust_engine/src/pbft.rs:630-922 | the method over mutable fields and log bytes computes exactly `Durability.Deliver`: reply, fields, rollback, fail-stop flag and bytes on disk, for every file-system fault |
| `Replica.PbftState.PhaseStep` | rust_engine/src/pbft.rs:688-895 | the in-memory half follows the protocol function, phase by phase, error by error |
| `Replica.PbftState.PrePrepareStep` | rust_engine/src/pbft.rs:690-716 | view, leader, equivocation and duplicate checks in this order, then exactly the new proposal and the raised sequence |
| `Replica.PbftState.PrepareStep` | rust_engine/src/pbft.rs:718-749 | an orphan is refused; the vote is recorded, and at a quorum the verified certificate |
| `Replica.PbftState.CommitStep` | rust_engine/src/pbft.rs:751-800 | an orphan, a missing prepared certificate and a contradicting decision are refused in this order; then the vote, and at a quorum certificate and decision |
| `Replica.PbftState.ViewChangeStep` | rust_engine/src/pbft.rs:802-870 | an old target and an unbacked report are refused; then the vote, and at a quorum the new view or one of its three errors |
| `Replica.PbftState.CheckpointStep` | rust_engine/src/pbft.rs:872-895 | the vote, and at a quorum the new stable checkpoint with exactly the slots above it kept |
| `Replica.PbftState.Restore` | rust_engine/src/pbft.rs:672-686 | all twelve protocol fields come back, and nothing else changes |
| `Replica.PbftState.Persist` | rust_engine/src/pbft.rs:904-922 | append, rollback on failure, compaction after a stable checkpoint, and the fail-stop flag, as `DeliverHandled` says |
| `Replica.PbftState.Append` | rust_engine/src/pbft.rs:904-908 | the row is on disk and the fields stand, or the snapshot is back, the log is marked failed and the disk holds a tail |
| `Replica.PbftState.Compact` | rust_engine/src/pbft.rs:912-920 | the log on disk is the whole one or the pruned one, the pruned one on success, and a failure marks the log failed |
| `Replica.VerifyNewView` | rust_engine/src/pbft.rs:268-313 | the counting method decides exactly the certificate's validity, in any iteration order |
| `Replica.AppendedDisk` | rust_engine/src/wal.rs:44-69 | the bytes a good, torn or unsynced append leaves are those of the rows and tail of the model |
| `Replica.PrunedDisk` | rust_engine/src/wal.rs:111-148 | pruning the file of a log gives the file of the pruned log |
| `Startup.Replayer.Apply` | rust_engine/src/pbft.rs:398-564 | the replay closure over its mutable variables follows the row function: the same new fields, or a recovery error |
| `Startup.Replayer.ProposalRow` | rust_engine/src/pbft.rs:421-444 | a proposal not from the leader, or conflicting with a recovered one, is a recovery error; otherwise it is added |
| `Startup.Replayer.PrepareRow` | rust_engine/src/pbft.rs:445-460 | an orphan or a failing certificate is a recovery error; otherwise vote and certificate are as specified |
| `Startup.Replayer.CommitRow` | rust_engine/src/pbft.rs:461-484 | likewise, with the prepared certificate required |
| `Startup.Replayer.ViewChangeRow` | rust_engine/src/pbft.rs:485-543 | a report without an earlier certificate, a conflict, a missing or failing certificate is a recovery error; a quorum enters the new view |
| `Startup.Replayer.CheckpointRow` | rust_engine/src/pbft.rs:544-559 | a quorum raises the stable checkpoint and the view, never lowers them |
| `Startup.Replayer.RetainAbove` | rust_engine/src/pbft.rs:566-574 | nothing at or below a positive stable checkpoint stays in the seven tables |
| `Startup.Replayer.ReplayRows` | rust_engine/src/pbft.rs:393-574 | the whole fold, with its final retention, is `Replay` |
| `Startup.NewWithWalPath` | rust_engine/src/pbft.rs:357-598 | `TOPOLOGY_VIOLATION` iff n is not 3f + 1; `REGISTRY_VIOLATION` iff it is and some id has no key; `WAL_ERROR` iff neither and the log file does not open; otherwise a started replica is in good order and holds exactly what the bytes of its log replay to, and a refusal on a healthy disk means they do not replay |
| `Startup.StartIsRestart` | rust_engine/src/pbft.rs:357-598 | starting on the bytes a replica left behind is restarting that replica, torn and unacknowledged tails included |
| `Startup.OpenedOk` | rust_engine/src/pbft.rs:576-598 | whatever log it opened, a started replica satisfies the node invariant |
| `Selection.HighestSlotIff` | rust_engine/src/pbft.rs:209-232 | the highest slot is (q, d) iff q is the maximum and all votes at a non-zero maximum carry d, with a zero digest at zero; it is none iff there are no votes or two digests conflict at a non-zero maximum |
| `Selection.HighestViewChangeSlot` | rust_engine/src/pbft.rs:209-232 | the two loops find it in any iteration order |
| `Selection.SelectHighestPreparedCertificate` | rust_engine/src/pbft.rs:237-266 | filter and sort return a first eligible candidate, of the greatest view and then of the least signer list, or none exactly when no candidate is eligible |
| `Selection.SelectionIgnoresOrder` | rust_engine/src/pbft.rs:237-266 | for any permutation of the candidates the selected view and signer set are the same, and the view is the greatest eligible one |
| `Selection.SortIds` | rust_engine/src/threshold_bls.rs:43-45 | the ids in ascending order, each once |
| `Selection.SortedAscends` | rust_engine/src/threshold_bls.rs:43-45 | the sorted ids ascend strictly and are as many as the set |
| `Selection.LexLessIff` | rust_engine/src/pbft.rs:257-262 | one signer list comes before another if and only if it is a proper prefix, or smaller where they first differ |
| `Selection.SelectFromTable` | rust_engine/src/pbft.rs:832-848 | on an exact certificate table the loop returns what `SelectPrepared` specifies |
| `Wal.FileReader.Fill` | rust_engine/src/wal.rs:79-93 | the inner loop fills the buffer with the next 101 bytes, or reports the end, a torn record, or a read error, for every schedule of short reads and finitely many interrupts |
| `Wal.FileReader.Read` | rust_engine/src/wal.rs:81 | the environment's read: at least one byte before the end of the file, none only at it, or an interrupt or error that uses up the schedule |
| `Wal.WriteAheadLog.AppendEntry` | rust_engine/src/wal.rs:44-69 | after success the whole record is on disk, and a readable log reads as its rows and the new one; after a failure some part of the record is, and the log reads as the old rows, as the old rows and the new one, or not at all |
| `Wal.WriteAheadLog.ReplayLog` | rust_engine/src/wal.rs:71-109 | for every schedule of short reads the rows handed over are those the bytes decode to; with no read error an unreadable file is reported exactly when it is unreadable |
| `Wal.WriteAheadLog.PruneBefore` | rust_engine/src/wal.rs:111-168 | the file is the old one or the filtered one, the filtered one on success, and which one is fixed by where the fault struck |
| `WalFormat.DecodesWritten` | rust_engine/src/wal.rs:95-107 | a written record reads back as itself |
| `Layout.RecordLayout` | rust_engine/src/wal.rs:57-65 | a record is 101 bytes: view, sequence, phase, sender, digest, signature, at their offsets, numbers with the most significant byte first |
| `Layout.PhaseNumbers` | rust_engine/src/pbft.rs:9-16 | the phases are numbered 0 to 4 in the order PrePrepare, Prepare, Commit, ViewChange, Checkpoint |
| `Bytes.ByteAt` | rust_engine/src/wal.rs:57-65 | byte i of a number in w bytes counts units of 256 to the power w - 1 - i |
| `Bytes.FirstByteWeighs` | rust_engine/src/wal.rs:95-99 | read back, the first byte carries the greatest weight |
| `WalFormat.WritesDecoded` | rust_engine/src/wal.rs:95-107 | any 101 bytes that read as a record are what writing that record produces |
| `WalFormat.LogRoundTrip` | rust_engine/src/wal.rs:71-109 | a log written record by record replays to exactly its rows, in order |
| `WalFormat.TornRefused` | rust_engine/src/wal.rs:83-88 | a non-empty remainder shorter than a record makes the whole file unreadable |
| `WalFormat.WritesReplayed` | rust_engine/src/wal.rs:71-109 | the rows a file replays to determine its bytes |
| `WalFormat.PrunedFileReplays` | rust_engine/src/wal.rs:111-148 | pruning a readable file leaves a readable file, with exactly the rows at or above the floor |
| `Scalars.InverseLaw` | rust_engine/src/threshold_bls.rs:65-67 | over a prime modulus the extended Euclid inverse of a non-zero scalar inverts it |
| `Lagrange.WeightsSumToOne` | rust_engine/src/threshold_bls.rs:49-72 | the Lagrange weights at zero of any distinct points add up to one |
| `Lagrange.ShiftFromPoint` | rust_engine/src/threshold_bls.rs:49-72 | how the weighted sum changes when a polynomial is multiplied by x, in terms of the sum with one point left out |
| `Lagrange.Interpolation` | rust_engine/src/threshold_bls.rs:49-72 | n distinct points recover at zero every polynomial with at most n coefficients |
| `Lagrange.OneCoefficientMore` | rust_engine/src/threshold_bls.rs:49-72 | with one coefficient more the combination is off by exactly the leading coefficient times a product of the negated points |
| `Lagrange.RecoveredIff` | rust_engine/src/threshold_bls.rs:49-72 | so n distinct points recover a polynomial of n + 1 coefficients if and only if the leading one is zero or one of the points is |
| `Lagrange.DenNotZero` | rust_engine/src/threshold_bls.rs:56-71 | the denominator of a weight is never zero, so the failing branch after the inversion is not taken |
| `Sharing.EvaluateByPowers` | rust_engine/src/dkg.rs:156-166 | the accumulator loop over powers computes the polynomial's value; on commitments, the same in the exponent |
| `Sharing.SharesFixTheSecret` | docs/key-generation.md:26-28 | polynomials of at most n coefficients with the same n shares have the same secret |
| `Sharing.FewSharesHideTheRest` | docs/key-generation.md:28 | fewer shares than coefficients fit every value at every other point, by an explicit polynomial of the same length |
| `Sharing.FewSharesHideTheSecret` | docs/key-generation.md:28 | in particular every secret |
| `Sharing.VanishesExactly` | rust_engine/src/threshold_bls.rs:49-72 | the product of (X - x) over a list of points is zero at those points and nowhere else |
| `Threshold.VerifiesIffSigned` | rust_engine/src/threshold_bls.rs:14-23 | a signature verifies under a key if and only if it is the one the key's secret makes |
| `Threshold.VerifyThresholdSignature` | rust_engine/src/threshold_bls.rs:33-75 | the nested loops decide exactly whether the weighted sum over the lowest `threshold` ids verifies under the master key |
| `Threshold.ChosenLowest` | rust_engine/src/threshold_bls.rs:43-45 | the ids used ascend and are below all ids not used |
| `Forgery.CheckInterpolates` | rust_engine/src/threshold_bls.rs:33-75 | the check decides whether the polynomial of at most `threshold` coefficients that has the signatures of the lowest `threshold` ids at one more than each id (at zero for id 2^32 - 1) is, at zero, the signature under the master key |
| `Forgery.TooFewRefused` | rust_engine/src/threshold_bls.rs:39-41 | fewer signatures than the threshold never verify |
| `Threshold.Products` | rust_engine/src/threshold_bls.rs:53-63 | the inner loop computes both products over the other points |
| `Threshold.AggregateSignatures` | rust_engine/src/threshold_bls.rs:25-31 | the loop returns the plain sum |
| `Forgery.AggregateVerifies` | rust_engine/src/threshold_bls.rs:25-31 | valid signatures of one message add up to a signature that verifies under the sum of their keys |
| `Threshold.PointsDistinct` | rust_engine/src/threshold_bls.rs:51-60 | distinct 32-bit ids stand at distinct points, the wrapped successor included |
| `Threshold.Reconstructs` | rust_engine/src/threshold_bls.rs:47-72 | any len(f) or more partial signatures under shares of f combine to the signature under f(0) |
| `Threshold.SubsetIndependence` | rust_engine/src/threshold_bls.rs:43-72 | any two large enough sets of signers reconstruct the same signature |
| `Threshold.ValidPartialsVerify` | rust_engine/src/threshold_bls.rs:33-75 | individually valid partial signatures, at least `threshold` of them, verify together when the key polynomial has at most `threshold` coefficients |
| `Forgery.OneForgedPartialIff` | rust_engine/src/threshold_bls.rs:43-74 | one wrong partial signature among otherwise valid chosen ones passes verification if and only if id 2^32 - 1 is chosen and the wrong signature is not its own |
| `Forgery.LastIdDecides` | rust_engine/src/threshold_bls.rs:51-72 | if id 2^32 - 1, whose successor wraps to zero, is among the chosen ids, its partial signature alone is checked |
| `Forgery.BoundIsTight` | rust_engine/src/threshold_bls.rs:33-75 | with one coefficient more than `threshold`, valid partial signatures of a message with a non-zero hash verify together if and only if that coefficient is zero, or id 2^32 - 1 is chosen |
| `Derivation.OthersSignature` | rust_engine/src/threshold_bls.rs:14-23 | as many valid partial signatures as there are coefficients give, by a weighted sum of them alone, the valid partial signature of any other node |
| `Frost.TwoForms` | rust_engine/src/frost_sim.rs:106-122 | the aggregator's x_j / (x_j - x_i) and the verifier's -x_j / (x_i - x_j) are the same weight |
| `Frost.FrostDenNotZero` | rust_engine/src/frost_sim.rs:107-121 | its denominator is never zero, so the `unwrap` does not panic on distinct ids |
| `Frost.Aggregate` | rust_engine/src/frost_sim.rs:95-128 | an error iff there are fewer than `threshold` shares; otherwise the weighted sum over the first `threshold` of them |
| `Frost.FrostProducts` | rust_engine/src/frost_sim.rs:106-119 | the inner loop computes both products over the other points |
| `Frost.TrustedDealer` | rust_engine/src/frost_sim.rs:28-75 | every node gets the dealer polynomial's value at its point, the group key, and everyone's verification key |
| `Frost.AggregateVerifies` | rust_engine/src/frost_sim.rs:95-148 | whichever signers are picked, dealt shares aggregate to a signature that verifies under the group key |
| `Dkg.DkgSession.constructor` | rust_engine/src/dkg.rs:129-143 | a new session holds no shares |
| `Dkg.DkgSession.GenerateCommitments` | rust_engine/src/dkg.rs:149-154 | the commitments name the coefficients of the secret polynomial, in order |
| `Dkg.DkgSession.EvaluateShareFor` | rust_engine/src/dkg.rs:156-166 | the share of node id is the secret polynomial at the scalar id + 1, and for id 2^32 - 1 its constant term |
| `Dkg.DkgSession.ProcessIncomingShare` | rust_engine/src/dkg.rs:168-196 | a share is stored iff it has `threshold` commitments and is their polynomial's value at the scalar nodeId + 1 (the constant term for id 2^32 - 1); the two errors exactly otherwise, with nothing stored |
| `Dkg.DkgSession.VerifyTranscriptConsistency` | rust_engine/src/dkg.rs:204-215 | success iff every peer hash is the hash of this node's transcript |
| `Dkg.DkgSession.FinalizeDkg` | rust_engine/src/dkg.rs:217-235 | success iff no other participant's share is missing; then the share is the joint polynomial at this node's point, that is `ShareOf`, and the master key its constant term |
| `Dkg.ShareAtSuccessor` | rust_engine/src/dkg.rs:217-235 | the final share of node i is the joint polynomial at the scalar i + 1 |
| `Dkg.CommitmentTranscript` | rust_engine/src/dkg.rs:9-27 | the buffer loops build the transcript entries in ascending id order |
| `Layout.TranscriptFromLowest` | rust_engine/src/dkg.rs:9-27 | a transcript is the entry of its lowest id, four bytes of id and then its commitments, followed by the transcript of the others |
| `Dkg.TranscriptInjective` | rust_engine/src/dkg.rs:9-27 | commitment maps with lists of one length and equal transcripts are equal |
| `Dkg.ConsistentTranscripts` | rust_engine/src/dkg.rs:198-215 | unless the hash collides, equal transcript hashes mean equal commitments |
| `Dkg.JointOrder` | rust_engine/src/dkg.rs:217-235 | adding one's own polynomial first or in its place gives the same joint values |
| `Dkg.JointSharesVerify` | rust_engine/src/dkg.rs:156-236 | end to end, with dishonest dealers: final shares on the same commitments are values of one joint polynomial of at most `threshold` coefficients, and the partial signatures of any `quorum` of them, `quorum` at least `threshold`, verify under the master key |
| `Bootstrap.SignedByDealerIff` | rust_engine/src/dkg.rs:110-116 | a packet's signature is accepted if and only if it is the one the secret behind its first commitment makes |
| `Bootstrap.AcceptableIff` | rust_engine/src/main.rs:168-180 | a packet counts if and only if it is addressed to this node, is so signed, has `threshold` commitments, and its share is their value at the scalar self + 1 |
| `Bootstrap.DealShare` | rust_engine/src/main.rs:110-126 | the packet a session makes for a node, with its commitments, the share and its signature, is acceptable to that node |
| `Bootstrap.AcceptedIff` | rust_engine/src/main.rs:148-190 | a sender is in exactly if an acceptable packet of it has come, and with the commitments of its first one |
| `Bootstrap.CollectShares` | rust_engine/src/main.rs:148-203 | the loop ends with exactly n - 1 senders, holding the first acceptable packet of each; it succeeds if and only if n - 1 senders are in before the channel ends or the deadline passes, and reports the end of the channel if and only if that came first |
| `Bootstrap.Pigeonhole` | rust_engine/src/main.rs:148-206 | n - 1 senders that include every other participant are exactly the other participants |
| `Bootstrap.JointIsSum` | rust_engine/src/main.rs:209-232 | the sum of dealer values over a hash map, in any order, is the joint polynomial's value |
| `Bootstrap.DeriveRegistry` | rust_engine/src/main.rs:208-232 | the nested loops give every id the generator times the joint polynomial at its point |
| `Bootstrap.DeriveKey` | rust_engine/src/main.rs:211-231 | one key is the sum of one's own and all peers' values, in any order of the map |
| `Bootstrap.FinalizeKeys` | rust_engine/src/main.rs:205-232 | it succeeds iff this node is a participant and every other participant is among the collected peers, and the only error is a missing share; then the peers are exactly the others and all keys come from the joint polynomial |
| `Bootstrap.BootstrapKeys` | rust_engine/src/main.rs:146-232 | it succeeds whenever the inbox holds an acceptable packet of every other participant, and of nobody else, whatever else it holds; a node that comes up has collected exactly the other n - 1 ids, its share, master key and registry all come from the one joint polynomial, and its share is the secret behind its own registry entry |
| `Ceremony.HonestInboxComplete` | rust_engine/src/main.rs:110-203 | the packets of n - 1 honest nodes, in any order and even repeated, are such an inbox |
| `Ceremony.HonestAccepted` | rust_engine/src/main.rs:168-190 | on them, whoever is in is in with its own polynomial |
| `Ceremony.OneJointPolynomial` | rust_engine/src/main.rs:205-232 | so every honest node ends with the one joint polynomial of all |
| `Link.JointKeysCombine` | rust_engine/src/pbft.rs:167-184 | with jointly generated keys and at most 2f + 1 coefficients, individually verified votes always form a valid certificate |
| `Link.BootstrappedRegistry` | rust_engine/src/main.rs:205-233 | the registry `new_with_wal_path` builds from the keys of the start-up, with a key-generation threshold of at most 2f + 1, makes verified votes combine, lets the shares sign whatever it accepts, and has n = 3f + 1 nodes when n allows it |
| `Link.BootstrappedVotesCertify` | rust_engine/src/pbft.rs:729-745 | a replica started on such keys, from any bytes it starts on and through any run, never rejects a vote for its certificate, and a quorum of votes always has its certificate |
| `Link.AuthenticUnderNewKeysIff` | rust_engine/src/pbft.rs:398-419 | a row authentic under one start's keys is authentic under another's if and only if its sender's public key is the same, or its message hashes to zero |
| `Link.NewKeysRefuseOldLog` | rust_engine/src/main.rs:110-233 | started on newly generated keys, a replica refuses any file with a row of a sender whose key has changed |
| `Thresholds.VotesDerive` | rust_engine/src/main.rs:208-233 | under start-up keys the votes of as many nodes as the joint polynomial has coefficients, leading zeros aside, give every other node's valid vote |
| `Thresholds.BootAgreementIff` | rust_engine/src/main.rs:110-233 | under such keys, with that many votes giving away the rest, honest replicas agree in every run if and only if there are more than 2f coefficients |
| `Thresholds.SafeThresholdIff` | rust_engine/src/main.rs:32 | with at most 2f + 2 coefficients, verified votes always combine and replicas always agree if and only if there are exactly 2f + 1 |
| `Thresholds.StartupThreshold` | rust_engine/src/main.rs:32 | with a key-generation threshold of at most 2f replicas can be split; with 2f + 1 they cannot unless the leading coefficients of the dealers cancel |
| `Link.LongerKeysCombineIff` | rust_engine/src/pbft.rs:729-745 | the bound is exact: under keys of 2f + 2 coefficients verified votes of a quorum always combine if and only if the extra coefficient is zero |
| `Link.LongerKeysNeedNotCombine` | rust_engine/src/pbft.rs:729-745 | so any polynomial of 2f + 2 coefficients with a leading one that is not zero gives keys under which valid votes of a quorum need not combine |
| `Feldman.MultiDealerDKG.Deal` | rust_engine/src/Dkg/feldman.rs:52-80 | the dealer's commitments and all n shares are stored and returned, the share of recipient i being the polynomial at the scalar i; a second deal replaces the first |
| `Feldman.MultiDealerDKG.VerifyShare` | rust_engine/src/Dkg/feldman.rs:83-95 | true iff the dealer has commitments and the share is their value at its index |
| `Feldman.MultiDealerDKG.FileComplaint` | rust_engine/src/Dkg/feldman.rs:97-101 | a complaint is recorded unless its target is already disqualified |
| `Feldman.MultiDealerDKG.ResolveAndDisqualify` | rust_engine/src/Dkg/feldman.rs:103-116 | exactly the dealers accused more than t times are disqualified, with their commitments and shares; complaints are cleared; stored shares still are exactly those of dealers with commitments, and all verify |
| `Feldman.AccusationsCount` | rust_engine/src/Dkg/feldman.rs:104-107 | a dealer's accusations are the complaints that name it |
| `Feldman.GuiltyIff` | rust_engine/src/Dkg/feldman.rs:108-114 | a dealer goes if and only if there are more than t of them |
| `Feldman.MultiDealerDKG.FinalShare` | rust_engine/src/Dkg/feldman.rs:119-129 | for 1 to n, the sum of the surviving dealers' polynomials at that index, in any order of the map; none iff there is no surviving dealer or the index is out of range |
| `Feldman.FinalSharesInterpolate` | rust_engine/src/Dkg/feldman.rs:119-129 | any t or more final shares interpolate to the sum of the surviving dealers' secrets |
| `Feldman.FinalSharesRecover` | rust_engine/src/Dkg/feldman.rs:119-129 | the values `final_share` gives any t different recipients, with the Lagrange weights of the scalars the recipients are, add up to the sum of the surviving dealers' secrets |
| `Feldman.RunFeldmanDkg` | rust_engine/src/feldman_dkg.rs:26-86 | every output holds the joint polynomial's value at its index, the joint public key, and the first commitments |
| `Feldman.OutputsRecover` | rust_engine/src/feldman_dkg.rs:62-86 | any t outputs recover, with the weights of their indices, the secret behind the public key they all hold |
| `Feldman.DealAll` | rust_engine/src/feldman_dkg.rs:33-62 | every dealer's value at every recipient's index |
| `Packets.ParsePacket` | rust_engine/src/dkg.rs:56-108 | the loop parses as specified, with the errors in the order of the code |
| `Packets.ParseCommitments` | rust_engine/src/dkg.rs:73-90 | all whole 96-byte points up to the signature, an error at the first invalid one, and whether bytes are left over |
| `Packets.ParsesEncoded` | rust_engine/src/dkg.rs:39-108 | a packet with any number of commitments reads back as its message |
| `Packets.EncodesParsed` | rust_engine/src/dkg.rs:39-108 | an accepted packet is byte for byte the encoding of what it parsed to |
| `Packets.StatementsDistinct` | rust_engine/src/pbft.rs:641-645 | different statements are signed as different bytes |
| `Packets.ParsesIffPrefix` | rust_engine/src/pbft.rs:29-88 | bytes parse to a message iff they start with its encoding; trailing bytes are ignored |
| `Layout.StatementLayout` | rust_engine/src/pbft.rs:641-645 | what a consensus signature covers is 49 bytes: phase, view, sequence, digest, and not the sender |
| `Layout.MessageLayout` | rust_engine/src/pbft.rs:28-38 | a message is what is signed, then the sender in four bytes and the signature in 48 |
| `Layout.MessageRefusals` | rust_engine/src/pbft.rs:40-86 | each refusal exactly under its condition: too short, a phase number above 4, an invalid signature point, in this order |
| `Layout.PacketLayout` | rust_engine/src/dkg.rs:39-54 | a DKG packet is from, to, share, commitments of 96 bytes each, and the signature, the signed part being all but the last 48 bytes |
| `Layout.PacketRefusals` | rust_engine/src/dkg.rs:56-108 | each refusal exactly under its condition: too short, an invalid share, an invalid commitment, bytes left over, an invalid signature, in this order |
| `Materials.FrameInjective` | rust_engine/src/signed_package_root.rs:20-26 | a length-prefixed material is the material of one list of fields only |
| `Materials.PushAll` | rust_engine/src/signed_package_root.rs:20-26 | the buffer grows by the framed fields, or an over-long field is an error |
| `Materials.CanonicalPackageRoot` | rust_engine/src/signed_package_root.rs:31-83 | each error exactly under its condition, the first faulty artifact deciding; otherwise the fingerprint of the specified fields |
| `Fields.BaseFields` | rust_engine/src/signed_package_root.rs:36-78 | the fields of a base package are the two schemas, run, subject, and then index, role, digest, number of bindings and bindings of WITNESS, EVIDENCE and WORKBENCH |
| `Fields.AttestedFields` | rust_engine/src/signed_package_root.rs:36-78 | a fourth artifact appends those of ATTESTATION, bound to the three before |
| `Fields.FaultIff` | rust_engine/src/signed_package_root.rs:51-68 | an artifact is refused for its role or the form of its digest, for a digest that is not its own, for bindings other than the digests before it: each exactly under its condition, in this order |
| `Fields.ShapeIff` | rust_engine/src/signed_package_root.rs:37-42 | a package has a run, a subject, and three artifacts or four |
| `Fields.FingerprintIff` | rust_engine/src/signed_package_root.rs:15-19 | a digest is well formed if and only if it is the prefix and 64 hexadecimal digits of either case |
| `Fields.FieldLayout` | rust_engine/src/signed_package_root.rs:20-26 | a field is its length in four bytes, the most significant first, and then itself |
| `Materials.RootMaterialInjective` | rust_engine/src/signed_package_root.rs:44-82 | equal root materials have equal run id, subject, artifact count and digests |
| `Materials.RootBindsPackage` | rust_engine/src/signed_package_root.rs:31-83 | unless the hash collides, accepted packages with one root are the same package |
| `Materials.AttestationMaterialInjective` | rust_engine/src/assurance_attestation.rs:36-53 | one attestation material, one review |
| `Fields.ReviewFields` | rust_engine/src/assurance_attestation.rs:36-53 | the material of a review is schema, certificate, reviewer, decision and scope, in this order |
| `Fields.SignedFields` | rust_engine/src/assurance_attestation.rs:133-139 | what is signed is schema, attestation digest and key id |
| `Materials.SignatureMaterialInjective` | rust_engine/src/assurance_attestation.rs:133-139 | one signature material, one digest and key id |
| `Materials.MaterialsDisjoint` | rust_engine/src/assurance_attestation.rs:30-53 | what is hashed as an attestation is never what is signed |
| `Materials.HexDecode` | rust_engine/src/assurance_attestation.rs:118-127 | success iff the length is 2n and all are hexadecimal digits, with the pairs as bytes |
| `Fields.DigitValue` | rust_engine/src/assurance_attestation.rs:114-127 | the digits are worth 0 to 15 in the order of the alphabet, in either case, and are written in lower case |
| `Fields.PairValue` | rust_engine/src/assurance_attestation.rs:122-126 | the first digit of a pair is the high half of the byte |
| `Materials.DecodesHex` | rust_engine/src/assurance_attestation.rs:114-127 | what is encoded decodes to itself |
| `Materials.EncodesHex` | rust_engine/src/assurance_attestation.rs:114-127 | what is decoded encodes to the same digits in lower case |

## Left out

- Agreement across views and lock inheritance: the engine keeps no locks and never compares a new proposal with the certificate a new view inherited, so agreement is per view and sequence.
- Liveness, timeouts and the sending of proposals and view changes: no code decides them; such messages are the environment's.
- Restart with keys under which verified votes do not combine: `Restarting.RestartIff` takes keys of at most 2f + 1 coefficients, which is when a certificate cannot fail (`Link.LongerKeysCombineIff`).
- `handle_view_change_payload`: it checks and changes nothing.
- TCP framing, tasks, locks, the allow-list, environment parsing, `epoch.rs`, `quorum_tracker.rs`, `consensus_engine.rs`, `schnorr_proof.rs`, `pedersen_vss.rs`, `repair_attestation.rs` and the web pages: plumbing or small members.
- `pbft_state.rs` and the Lean files: not compiled into the engine.
- Curve arithmetic, SHA-256, Ed25519, hash-to-curve and randomness: parameters of the model. Signing and verifying an attestation envelope with Ed25519 is left out; its materials are modelled.
- Byte order and width of scalars on the wire: any canonical 32-byte encoding.
- Startup.Replayer.ReplayRows: the source interleaves reading and folding through a callback; the model reads all rows first. A read error and a recovery error give the same result in both.
- Startup.NewWithWalPath: does not model n = 0, which underflows in the source.
- Wal.WriteAheadLog.AppendEntry: takes what the operating system makes of `write_all` and `sync_data` as one fault; the loop inside `write_all` is the standard library's.
- Wal.WriteAheadLog.PruneBefore: does not model the temporary file, only where a fault strikes relative to the rename.
- Replica.PbftState.HandleMessage: takes messages whose fields fit their wire widths, as every decoded message does; 64-bit sequence and view numbers are only compared and maximised, so they need no wrap-around.
- Replica.PbftState.Restore: assigns the fields in three groups of four, to keep each proof small.
- Frost.Aggregate: does not model duplicate ids, on which the source panics.
- Frost.TrustedDealer: does not model an empty polynomial, on which the source panics.
- Dkg.DkgSession.FinalizeDkg: does not model an empty polynomial, on which the source panics.
- Feldman.MultiDealerDKG.ResolveAndDisqualify: counts complaints without the 32-bit limit of the source's counter.
- The `id + 1` of node points wraps at 32 bits, as in a release build; a debug build would panic at the last id.
