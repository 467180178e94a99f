/** The consensus branch of `handle_connection`: check, handle, and answer with a vote. */
module Network {
  import opened Base
  import opened Protocol
  import opened Recovery
  import opened Durability
  import opened WalFormat
  import opened Wal
  import opened Replica
  import opened Cluster

  datatype ConnectionReply =
    | Handled
    | StateNotInitialized
    | RejectedBeforeLock
    | SecretKeyNotSet
    | HandlerFailed(error: HandlerError)

  /** What goes out, as the set of statements this node has thereby signed. */
  function Outgoing(out: Option<Message>): set<Cast> {
    match out
    case None => {}
    case Some(m) => {Cast(m.sender, m.Signed())}
  }

  /** A message that the check before the lock lets through. */
  predicate Checked(reg: Registry, m: Message) {
    m.sender < reg.nodes && reg.sigOk(m.sender, m.Signed(), m.signature)
  }

  /** The vote that follows an accepted message. */
  method VoteAfter(state: PbftState, self: nat, sign: Statement -> Sig, m: Message) returns (out: Option<Message>)
    ensures Outgoing(out) ==
      match m.phase
      case PrePrepare => {Cast(self, Statement(Prepare, m.view, m.seqno, m.digest))}
      case Prepare =>
        if m.Key().At() in state.preparedCertificates
        then {Cast(self, Statement(Commit, m.view, m.seqno, m.digest))}
        else {}
      case _ => {}
    ensures out.Some? ==> out.value.signature == sign(out.value.Signed())
  {
    out := None;
    match m.phase {
      case PrePrepare =>
        var vote := Statement(Prepare, m.view, m.seqno, m.digest);
        out := Some(Message(Prepare, m.view, m.seqno, m.digest, self, sign(vote)));
      case Prepare =>
        if Slot(m.view, m.seqno) in state.preparedCertificates {
          var vote := Statement(Commit, m.view, m.seqno, m.digest);
          out := Some(Message(Commit, m.view, m.seqno, m.digest, self, sign(vote)));
        }
      case _ =>
    }
  }

  /**
   `handle_connection` on a consensus message: it is refused for one reason at a time; otherwise the
   replica takes exactly the step of the cluster, and what goes out is exactly what that step emits.
   */
  method HandleConnection(state: PbftState?, self: nat, secretKey: Option<Statement -> Sig>, m: Message,
                          appendFault: AppendFault, pruneFault: PruneFault, schedule: seq<ReadEvent>)
    returns (reply: ConnectionReply, out: Option<Message>, ghost fate: Fate)
    requires state != null ==> state.Valid() && Storable(state.wal.codec, RecordOf(m))
    modifies state, if state == null then null else state.wal
    ensures state != null ==> state.Valid()
    ensures reply == StateNotInitialized <==> state == null
    ensures reply == RejectedBeforeLock <==>
      state != null && (m.sender >= state.reg.nodes || !state.reg.sigOk(m.sender, m.Signed(), m.signature))
    ensures reply == SecretKeyNotSet <==>
      && state != null && m.sender < state.reg.nodes && state.reg.sigOk(m.sender, m.Signed(), m.signature)
      && secretKey.None?
    ensures if state == null then out == None
            else if reply in {RejectedBeforeLock, SecretKeyNotSet} then state.model == old(state.model) && out == None
            else
              var (after, o) := Deliver(state.reg, old(state.model), m, fate);
              && state.model == after && Outgoing(out) == Emitted(self, m, after, o)
              && (if o.Rejected? then reply == HandlerFailed(o.error) else reply == Handled)
              && FateOf(appendFault, pruneFault, schedule, fate)
    ensures out.Some? ==> secretKey.Some? && out.value.signature == secretKey.value(out.value.Signed())
  {
    fate := Durable;
    out := None;
    hide PbftState.Valid, Storable, Deliver, FateOf;
    if state == null {
      return StateNotInitialized, out, fate;
    }
    if !Checked(state.reg, m) {
      return RejectedBeforeLock, out, fate;
    }
    if secretKey.None? {
      return SecretKeyNotSet, out, fate;
    }
    var handled;
    handled, fate := state.HandleMessage(m, appendFault, pruneFault, schedule);
    match handled {
      case Err(error) => reply := HandlerFailed(error);
      case Ok(_) =>
        assert state.preparedCertificates == state.model.live.prepared by { ModelIsImage(state); }
        out := VoteAfter(state, self, secretKey.value, m);
        reply := Handled;
    }
  }

  lemma ModelIsImage(state: PbftState)
    requires state.Valid()
    ensures state.model.live == state.Image()
  {
  }
}
