/**
 The start-up of a node: collecting authenticated shares until n - 1 senders are in,
 finalising the key generation, and deriving the public key of every node from the
 commitments.
 */
module Bootstrap {
  import opened Base
  import opened Scalars
  import opened Lagrange
  import opened Sharing
  import opened Selection
  import opened Threshold
  import opened Packets
  import opened Dkg

  // ------------------------------------------------- sums over sets, in any order

  ghost function SumOver(values: map<nat, Scalar>, ids: set<nat>): Scalar
    requires ids <= values.Keys
    decreases ids
  {
    if ids == {} then ZERO else Add(values[Least(ids)], SumOver(values, ids - {Least(ids)}))
  }

  /** Any element may be taken out first. */
  lemma {:induction false} SumTakes(values: map<nat, Scalar>, ids: set<nat>, p: nat)
    requires ids <= values.Keys && p in ids
    ensures SumOver(values, ids) == Add(values[p], SumOver(values, ids - {p}))
    decreases ids
  {
    hide Add, Q;
    var m := Least(ids);
    if p != m {
      SumTakes(values, ids - {m}, p);
      assert m in ids - {p};
      assert Least(ids - {p}) == m && ids - {p} - {m} == ids - {m} - {p};
      var rest := SumOver(values, ids - {m} - {p});
      AddAssoc(values[m], values[p], rest);
      AddComm(values[m], values[p]);
      AddAssoc(values[p], values[m], rest);
    }
  }

  ghost function Evaluated(all: Commitments, x: Scalar): map<nat, Scalar> {
    map p | p in all :: Eval(all[p], x)
  }

  /** The joint polynomial at a point is the sum of the dealers' values, whatever the order of dealers. */
  lemma {:induction false} JointIsSum(all: Commitments, dealers: seq<nat>, ids: set<nat>, x: Scalar)
    requires Distinct(dealers) && (forall p :: p in dealers <==> p in ids) && ids <= all.Keys
    ensures Eval(Joint(all, dealers), x) == SumOver(Evaluated(all, x), ids)
  {
    hide Add, Eval, PolyAdd, Q;
    if |dealers| == 0 {
      assert ids == {};
      EvalAtNothing(x);
    } else {
      var p, rest := dealers[0], dealers[1..];
      assert p in dealers && forall q :: q in rest <==> q in ids - {p};
      JointIsSum(all, rest, ids - {p}, x);
      EvalSum(all[p], Joint(all, rest), x);
      SumTakes(Evaluated(all, x), ids, p);
    }
  }

  lemma EvalAtNothing(x: Scalar)
    ensures Eval([], x) == ZERO
  {
  }

  // ------------------------------------------------------------------- the messages

  /** What the collection loop waits for: a message, the end of the channel, or the deadline. */
  datatype Inbound = Received(m: ShareMessage) | ChannelClosed | DeadlineExpired

  /** `verify_signature`: self-signed under the dealer's first commitment. */
  predicate SignedByDealer(w: Wire, hash: seq<Byte> -> Scalar, m: ShareMessage) {
    |m.commitments| > 0 && VerifyHash(hash(Canonical(w, m)), m.signature, m.commitments[0])
  }

  /** `m` is for node `self`, signed, and its share fits its commitments. */
  ghost predicate Acceptable(w: Wire, hash: seq<Byte> -> Scalar, self: nat, threshold: nat, m: ShareMessage) {
    && m.toNode == self
    && SignedByDealer(w, hash, m)
    && |m.commitments| == threshold
    && m.share == Eval(m.commitments, NodePoint(self))
  }

  /** The first acceptable message of every sender, in the order of the inbox. */
  ghost function Accepted(w: Wire, hash: seq<Byte> -> Scalar, self: nat, threshold: nat,
                          inbox: seq<Inbound>): Commitments {
    if |inbox| == 0 then map[]
    else
      var before := Accepted(w, hash, self, threshold, inbox[..|inbox| - 1]);
      match inbox[|inbox| - 1]
      case Received(m) =>
        if m.fromNode !in before && Acceptable(w, hash, self, threshold, m) then before[m.fromNode := m.commitments]
        else before
      case _ => before
  }

  /** A dealer's signature is the one made by the secret behind its first commitment, and no other. */
  lemma SignedByDealerIff(w: Wire, hash: seq<Byte> -> Scalar, m: ShareMessage)
    ensures SignedByDealer(w, hash, m) <==>
      |m.commitments| > 0 && m.signature == SignHash(hash(Canonical(w, m)), m.commitments[0])
  {
    hide Canonical, SignHash, VerifyHash, Mul, Q;
    if |m.commitments| > 0 {
      MulUnit(m.commitments[0]);
      VerifiesIffSigned(hash(Canonical(w, m)), m.signature, m.commitments[0]);
    }
  }

  /** What a message must be to count: the addressee, the signature, the number of commitments, and the share. */
  lemma AcceptableIff(w: Wire, hash: seq<Byte> -> Scalar, self: nat, threshold: nat, m: ShareMessage)
    requires self < 0xFFFF_FFFF
    ensures Acceptable(w, hash, self, threshold, m) <==>
      && m.toNode == self && |m.commitments| == threshold > 0
      && m.signature == SignHash(hash(Canonical(w, m)), m.commitments[0])
      && m.share == Eval(m.commitments, self + 1)
  {
    hide SignedByDealer, Canonical, SignHash, Eval, NodePoint, Q;
    SignedByDealerIff(w, hash, m);
    PointOf(self);
  }

  /** The messages a node sends: its commitments, the addressee's share, and its signature over them. */
  method DealShare(session: DkgSession, w: Wire, hash: seq<Byte> -> Scalar, id: nat) returns (m: ShareMessage)
    requires session.threshold > 0 && |session.secretPolynomial| == session.threshold
    ensures m == PacketOf(w, hash, session.secretPolynomial, session.nodeId, id)
    ensures Acceptable(w, hash, id, session.threshold, m)
  {
    hide Canonical, SignHash, Eval, NodePoint, Q;
    var commitments := session.GenerateCommitments();
    var share := session.EvaluateShareFor(id);
    m := ShareMessage(session.nodeId, id, share, commitments, ZERO);
    m := m.(signature := SignHash(hash(Canonical(w, m)), session.secretPolynomial[0]));
    PacketAcceptable(w, hash, session.secretPolynomial, session.nodeId, id);
    SameCanonical(w, m, ZERO);
  }

  /** The signature is not part of what is signed. */
  lemma SameCanonical(w: Wire, m: ShareMessage, signature: Scalar)
    ensures Canonical(w, m.(signature := signature)) == Canonical(w, m)
  {
  }

  /** The packet of an honest dealer with polynomial `f`. */
  function PacketOf(w: Wire, hash: seq<Byte> -> Scalar, f: Poly, self: nat, id: nat): ShareMessage
    requires |f| > 0
  {
    var m := ShareMessage(self, id, Eval(f, NodePoint(id)), f, ZERO);
    m.(signature := SignHash(hash(Canonical(w, m)), f[0]))
  }

  lemma PacketAcceptable(w: Wire, hash: seq<Byte> -> Scalar, f: Poly, self: nat, id: nat)
    requires |f| > 0
    ensures Acceptable(w, hash, id, |f|, PacketOf(w, hash, f, self, id))
  {
    hide SignedByDealer, Canonical, SignHash, Eval, NodePoint, Q;
    var m := PacketOf(w, hash, f, self, id);
    SameCanonical(w, m, ZERO);
    SignedByDealerIff(w, hash, m);
  }

  /** Message `k` is an acceptable one from `p`. */
  ghost predicate AcceptableFrom(w: Wire, hash: seq<Byte> -> Scalar, self: nat, threshold: nat, inbox: seq<Inbound>,
                                 p: nat, k: nat) {
    k < |inbox| && inbox[k].Received? && inbox[k].m.fromNode == p && Acceptable(w, hash, self, threshold, inbox[k].m)
  }

  ghost predicate HeardFrom(w: Wire, hash: seq<Byte> -> Scalar, self: nat, threshold: nat, inbox: seq<Inbound>,
                            p: nat) {
    exists k: nat :: AcceptableFrom(w, hash, self, threshold, inbox, p, k)
  }

  lemma AcceptedNext(w: Wire, hash: seq<Byte> -> Scalar, self: nat, threshold: nat, inbox: seq<Inbound>, n: nat)
    requires n < |inbox|
    ensures var before := Accepted(w, hash, self, threshold, inbox[..n]);
      Accepted(w, hash, self, threshold, inbox[..n + 1]) ==
        if inbox[n].Received? && inbox[n].m.fromNode !in before && Acceptable(w, hash, self, threshold, inbox[n].m)
        then before[inbox[n].m.fromNode := inbox[n].m.commitments]
        else before
  {
    hide Acceptable;
    assert inbox[..n + 1][..n] == inbox[..n];
  }

  /** Message `k` is the first acceptable one from `p`. */
  ghost predicate FirstFrom(w: Wire, hash: seq<Byte> -> Scalar, self: nat, threshold: nat, inbox: seq<Inbound>,
                            p: nat, k: nat) {
    && AcceptableFrom(w, hash, self, threshold, inbox, p, k)
    && forall j: nat :: j < k ==> !AcceptableFrom(w, hash, self, threshold, inbox, p, j)
  }

  /** A sender counts exactly if an acceptable message of it has come, and with the commitments of the first one. */
  lemma {:induction false} AcceptedIff(w: Wire, hash: seq<Byte> -> Scalar, self: nat, threshold: nat,
                                       inbox: seq<Inbound>, p: nat)
    ensures p in Accepted(w, hash, self, threshold, inbox) <==> HeardFrom(w, hash, self, threshold, inbox, p)
    ensures forall k: nat :: FirstFrom(w, hash, self, threshold, inbox, p, k) ==>
      p in Accepted(w, hash, self, threshold, inbox)
      && Accepted(w, hash, self, threshold, inbox)[p] == inbox[k].m.commitments
  {
    hide Acceptable;
    if |inbox| > 0 {
      var n := |inbox| - 1;
      var init := inbox[..n];
      AcceptedIff(w, hash, self, threshold, init, p);
      forall k: nat | k < n
        ensures AcceptableFrom(w, hash, self, threshold, init, p, k)
                <==> AcceptableFrom(w, hash, self, threshold, inbox, p, k)
      {
        assert init[k] == inbox[k];
      }
      assert inbox[..n + 1] == inbox;
      AcceptedNext(w, hash, self, threshold, inbox, n);
      hide Accepted;
      LastFrom(w, hash, self, threshold, inbox, p);
      assert forall k: nat :: AcceptableFrom(w, hash, self, threshold, inbox, p, k) ==>
        k == n || AcceptableFrom(w, hash, self, threshold, init, p, k);
      if p in Accepted(w, hash, self, threshold, init) {
        var k: nat :| AcceptableFrom(w, hash, self, threshold, init, p, k);
        assert AcceptableFrom(w, hash, self, threshold, inbox, p, k);
      } else if p in Accepted(w, hash, self, threshold, inbox) {
        assert AcceptableFrom(w, hash, self, threshold, inbox, p, n);
      }
    }
  }

  /** The first acceptable message from `p` is among the earlier ones, or is the last of all. */
  lemma LastFrom(w: Wire, hash: seq<Byte> -> Scalar, self: nat, threshold: nat, inbox: seq<Inbound>, p: nat)
    requires |inbox| > 0
    ensures var n := |inbox| - 1;
      forall k: nat :: FirstFrom(w, hash, self, threshold, inbox, p, k) ==>
        FirstFrom(w, hash, self, threshold, inbox[..n], p, k)
        || (k == n && forall j: nat :: !AcceptableFrom(w, hash, self, threshold, inbox[..n], p, j))
  {
    hide Acceptable;
    var n := |inbox| - 1;
    forall j: nat | j < n
      ensures AcceptableFrom(w, hash, self, threshold, inbox[..n], p, j)
              <==> AcceptableFrom(w, hash, self, threshold, inbox, p, j)
    {
      assert inbox[..n][j] == inbox[j];
    }
  }

  /** More messages never take a sender away. */
  lemma {:induction false} AcceptedGrows(w: Wire, hash: seq<Byte> -> Scalar, self: nat, threshold: nat,
                                         inbox: seq<Inbound>, n: nat)
    requires n <= |inbox|
    ensures Accepted(w, hash, self, threshold, inbox[..n]).Keys <= Accepted(w, hash, self, threshold, inbox).Keys
    ensures |Accepted(w, hash, self, threshold, inbox[..n])| <= |Accepted(w, hash, self, threshold, inbox)|
    decreases |inbox|
  {
    hide Acceptable;
    if n == |inbox| {
      assert inbox[..n] == inbox;
    } else {
      var init := inbox[..|inbox| - 1];
      AcceptedGrows(w, hash, self, threshold, init, n);
      assert init[..n] == inbox[..n];
    }
    var a, b := Accepted(w, hash, self, threshold, inbox[..n]), Accepted(w, hash, self, threshold, inbox);
    SubsetSize(a.Keys, b.Keys);
    MapSize(a);
    MapSize(b);
  }

  /** Nothing but messages. */
  predicate AllReceived(inbox: seq<Inbound>) {
    forall k :: 0 <= k < |inbox| ==> inbox[k].Received?
  }

  lemma NoneYet(w: Wire, hash: seq<Byte> -> Scalar, self: nat, threshold: nat, inbox: seq<Inbound>)
    ensures Accepted(w, hash, self, threshold, inbox[..0]) == map[] && AllReceived(inbox[..0])
  {
  }

  lemma AllReceivedNext(inbox: seq<Inbound>, n: nat)
    requires n < |inbox| && AllReceived(inbox[..n])
    ensures AllReceived(inbox[..n + 1]) <==> inbox[n].Received?
  {
    assert forall k :: 0 <= k < n ==> inbox[..n][k] == inbox[..n + 1][k];
    assert inbox[..n + 1][n] == inbox[n];
  }

  lemma ReceivedAll(inbox: seq<Inbound>, n: nat)
    requires n <= |inbox|
    ensures AllReceived(inbox[..n]) <==> forall k :: 0 <= k < n ==> inbox[k].Received?
  {
    assert forall k :: 0 <= k < n ==> inbox[..n][k] == inbox[k];
  }

  /** After `n` messages and nothing else, all the others of `total` are in. */
  ghost predicate ReachedAt(w: Wire, hash: seq<Byte> -> Scalar, self: nat, threshold: nat, inbox: seq<Inbound>,
                            total: nat, n: nat) {
    n <= |inbox| && AllReceived(inbox[..n]) && |Accepted(w, hash, self, threshold, inbox[..n])| >= total - 1
  }

  /** At `n` the channel ends before they are. */
  ghost predicate EndsAt(w: Wire, hash: seq<Byte> -> Scalar, self: nat, threshold: nat, inbox: seq<Inbound>,
                         total: nat, n: nat) {
    && n < |inbox| && inbox[n] == ChannelClosed && AllReceived(inbox[..n])
    && |Accepted(w, hash, self, threshold, inbox[..n])| < total - 1
  }

  lemma FewerBefore(w: Wire, hash: seq<Byte> -> Scalar, self: nat, threshold: nat, inbox: seq<Inbound>, k: nat, n: nat)
    requires k <= n <= |inbox|
    ensures |Accepted(w, hash, self, threshold, inbox[..k])| <= |Accepted(w, hash, self, threshold, inbox[..n])|
  {
    AcceptedGrows(w, hash, self, threshold, inbox[..n], k);
    assert inbox[..n][..k] == inbox[..k];
  }

  /** A collection that stops at `n` short of its goal can nowhere reach it. */
  lemma StopsShort(w: Wire, hash: seq<Byte> -> Scalar, self: nat, threshold: nat, inbox: seq<Inbound>, total: nat,
                   n: nat)
    requires n <= |inbox| && AllReceived(inbox[..n]) && (n < |inbox| ==> !inbox[n].Received?)
    requires |Accepted(w, hash, self, threshold, inbox[..n])| < total - 1
    ensures forall k: nat :: !ReachedAt(w, hash, self, threshold, inbox, total, k)
    ensures forall k: nat :: EndsAt(w, hash, self, threshold, inbox, total, k) ==> k == n
  {
    ReceivedAll(inbox, n);
    forall k: nat | k <= |inbox| && AllReceived(inbox[..k])
      ensures k <= n && |Accepted(w, hash, self, threshold, inbox[..k])| < total - 1
    {
      ReceivedAll(inbox, k);
      FewerBefore(w, hash, self, threshold, inbox, k, n);
    }
  }

  /** A collection that reaches its goal at `n` is not ended by the channel before. */
  lemma StopsThere(w: Wire, hash: seq<Byte> -> Scalar, self: nat, threshold: nat, inbox: seq<Inbound>, total: nat,
                   n: nat)
    requires n <= |inbox| && AllReceived(inbox[..n])
    requires |Accepted(w, hash, self, threshold, inbox[..n])| >= total - 1
    ensures ReachedAt(w, hash, self, threshold, inbox, total, n)
    ensures forall k: nat :: !EndsAt(w, hash, self, threshold, inbox, total, k)
  {
    ReceivedAll(inbox, n);
    forall k: nat | n <= k <= |inbox| ensures |Accepted(w, hash, self, threshold, inbox[..k])| >= total - 1 {
      FewerBefore(w, hash, self, threshold, inbox, n, k);
    }
  }

  datatype BootError = ChannelEnded | DkgTimeout | MissingShare

  datatype Collection = Collected(peers: Commitments) | NotCollected(error: BootError)

  /** The collection loop: it ends with exactly n - 1 senders, or not at all. */
  method CollectShares(session: DkgSession, w: Wire, hash: seq<Byte> -> Scalar, inbox: seq<Inbound>)
    returns (r: Collection)
    requires session.Valid() && session.totalNodes > 0 && session.receivedShares == map[]
    modifies session`receivedShares, session`receivedCommitments
    ensures session.Valid()
    ensures r.Collected? ==>
      && r.peers == session.receivedCommitments && |r.peers| == session.totalNodes - 1
      && exists n :: 0 <= n <= |inbox| && r.peers == Accepted(w, hash, session.nodeId, session.threshold, inbox[..n])
    ensures r.Collected? <==> exists n: nat ::
      ReachedAt(w, hash, session.nodeId, session.threshold, inbox, session.totalNodes, n)
    ensures r == NotCollected(ChannelEnded) <==> exists n: nat ::
      EndsAt(w, hash, session.nodeId, session.threshold, inbox, session.totalNodes, n)
    ensures r.NotCollected? ==> r.error != MissingShare
  {
    hide SignedByDealer, Eval, NodePoint, Accepted, ReachedAt, AllReceived, Q;
    NoneYet(w, hash, session.nodeId, session.threshold, inbox);
    var peers: Commitments := map[];
    var n := 0;
    assert session.receivedCommitments.Keys == {};
    while |peers| < session.totalNodes - 1
      invariant session.Valid() && peers == session.receivedCommitments
      invariant n <= |inbox| && |peers| <= session.totalNodes - 1
      invariant peers == Accepted(w, hash, session.nodeId, session.threshold, inbox[..n])
      invariant AllReceived(inbox[..n])
      decreases |inbox| - n
    {
      if n == |inbox| || !inbox[n].Received? {
        StopsShort(w, hash, session.nodeId, session.threshold, inbox, session.totalNodes, n);
      }
      if n == |inbox| {
        return NotCollected(DkgTimeout);
      }
      AcceptedNext(w, hash, session.nodeId, session.threshold, inbox, n);
      AllReceivedNext(inbox, n);
      match inbox[n] {
        case ChannelClosed =>
          assert EndsAt(w, hash, session.nodeId, session.threshold, inbox, session.totalNodes, n);
          return NotCollected(ChannelEnded);
        case DeadlineExpired => return NotCollected(DkgTimeout);
        case Received(m) =>
          if m.toNode == session.nodeId && m.fromNode !in peers && SignedByDealer(w, hash, m) {
            var result := session.ProcessIncomingShare(m.fromNode, m.share, m.commitments);
            if result == ShareOk {
              NewKeySize(peers, m.fromNode, m.commitments);
              peers := peers[m.fromNode := m.commitments];
            }
          }
      }
      n := n + 1;
    }
    StopsThere(w, hash, session.nodeId, session.threshold, inbox, session.totalNodes, n);
    r := Collected(peers);
  }

  lemma NewKeySize(peers: Commitments, p: nat, c: Poly)
    requires p !in peers
    ensures |peers[p := c]| == |peers| + 1
  {
    assert peers[p := c].Keys == peers.Keys + {p};
    MapSize(peers);
    MapSize(peers[p := c]);
  }

  function Participants(total: nat): (ids: seq<nat>)
    ensures |ids| == total && forall i :: 0 <= i < total ==> ids[i] == i
  {
    seq(total, i => i)
  }

  lemma ParticipantsAre(total: nat)
    ensures Distinct(Participants(total)) && forall i: nat :: i in Participants(total) <==> i < total
  {
    var ids := Participants(total);
    forall i: nat ensures i in ids <==> i < total {
      if i < total {
        assert ids[i] == i;
      }
      if i in ids {
        var k :| 0 <= k < |ids| && ids[k] == i;
      }
    }
  }

  /** n - 1 senders that include every other participant are exactly the other participants. */
  lemma Pigeonhole(total: nat, self: nat, senders: set<nat>)
    requires total > 0 && |senders| == total - 1
    requires forall i: nat :: i < total && i != self ==> i in senders
    ensures self < total && forall i: nat :: i in senders <==> i < total && i != self
  {
    var all := Below(total);
    if self >= total {
      SubsetSize(all, senders);
      assert false;
    }
    var others := all - {self};
    assert |others| == total - 1;
    assert others <= senders;
    assert senders == others + (senders - others);
    assert senders - others == {} && others + {} == others;
    forall i: nat ensures i in senders <==> i < total && i != self {
      assert i in all <==> i < total;
      assert i in senders <==> i in others;
    }
  }

  /** The key of one node, from one's own polynomial and the peers' commitments in any order. */
  method DeriveKey(self: nat, secret: Poly, peers: Commitments, id: nat) returns (key: Scalar)
    requires self !in peers
    ensures key == SumOver(Evaluated(peers[self := secret], NodePoint(id)), peers.Keys + {self})
  {
    var x := NodePoint(id);
    ghost var values := Evaluated(peers[self := secret], x);
    hide Add, Mul, Eval, NodePoint, Q;
    var own := EvaluateByPowers(secret, x);
    MulUnit(own);
    var sum := Mul(ONE, own);
    var rest := peers.Keys;
    SumTakes(values, peers.Keys + {self}, self);
    assert peers.Keys + {self} - {self} == peers.Keys;
    while rest != {}
      invariant rest <= peers.Keys
      invariant Add(sum, SumOver(values, rest)) == SumOver(values, peers.Keys + {self})
      decreases rest
    {
      var p :| p in rest;
      var value := EvaluateByPowers(peers[p], x);
      SumTakes(values, rest, p);
      AddAssoc(sum, value, SumOver(values, rest - {p}));
      sum := Add(sum, value);
      rest := rest - {p};
    }
    AddUnit(sum);
    key := sum;
  }

  datatype Boot =
    | Booted(secretShare: Scalar, masterPk: Scalar, publicKeys: map<nat, Scalar>)
    | NotBooted(error: BootError)

  /** The keys of a node: everything in them is the one joint polynomial `f`, so its share fits its registry entry. */
  ghost predicate KeysFrom(f: Poly, total: nat, self: nat, boot: Boot) {
    && boot.Booted?
    && boot.secretShare == Eval(f, NodePoint(self))
    && boot.masterPk == Mul(ONE, Eval(f, ZERO))
    && (forall i: nat :: i in boot.publicKeys <==> i < total)
    && (forall i :: i in boot.publicKeys ==> boot.publicKeys[i] == Mul(ONE, Eval(f, NodePoint(i))))
    && (self < total ==> boot.publicKeys[self] == Mul(ONE, boot.secretShare))
  }

  /** The registry loop: a key for every participant. */
  method DeriveRegistry(self: nat, secret: Poly, peers: Commitments, total: nat) returns (publicKeys: map<nat, Scalar>)
    requires self < total && forall i: nat :: i in peers <==> i < total && i != self
    ensures forall p :: p in Participants(total) ==> p in peers[self := secret]
    ensures forall i: nat :: i in publicKeys <==> i < total
    ensures forall i :: i in publicKeys ==>
      publicKeys[i] == Mul(ONE, Eval(Joint(peers[self := secret], Participants(total)), NodePoint(i)))
  {
    ghost var all, participants := peers[self := secret], Participants(total);
    ParticipantsAre(total);
    hide Add, Mul, Eval, Joint, NodePoint, SumOver, Participants, Evaluated, Q;
    publicKeys := map[];
    for id := 0 to total
      invariant forall i: nat :: i in publicKeys <==> i < id
      invariant forall i :: i in publicKeys ==> publicKeys[i] == Mul(ONE, Eval(Joint(all, participants), NodePoint(i)))
    {
      var key := DeriveKey(self, secret, peers, id);
      JointIsSum(all, participants, peers.Keys + {self}, NodePoint(id));
      MulUnit(key);
      publicKeys := publicKeys[id := key];
    }
  }

  /** Finalising on n - 1 collected shares means every other participant's share is among them. */
  lemma FinalizedOnAll(total: nat, self: nat, peers: Commitments)
    requires total > 0 && |peers| == total - 1
    requires forall p :: p in Others(Participants(total), self) ==> p in peers
    ensures self < total && forall i: nat :: i in peers <==> i < total && i != self
  {
    ParticipantsAre(total);
    OthersElements(Participants(total), self);
    MapSize(peers);
    Pigeonhole(total, self, peers.Keys);
  }

  /** From n - 1 collected peers to the keys: finalise, then derive the registry. */
  method FinalizeKeys(session: DkgSession, peers: Commitments) returns (boot: Boot)
    requires session.Valid() && 0 < session.totalNodes && session.threshold > 0
    requires peers == session.receivedCommitments && |peers| == session.totalNodes - 1
    ensures boot.NotBooted? ==> boot.error == MissingShare
    ensures boot.Booted? <==>
      && session.nodeId < session.totalNodes
      && forall i: nat :: i < session.totalNodes && i != session.nodeId ==> i in peers
    ensures boot.Booted? ==>
      && (forall i: nat :: i in peers <==> i < session.totalNodes && i != session.nodeId)
      && (forall p :: p in Participants(session.totalNodes) ==> p in session.AllCommitments())
      && KeysFrom(Joint(session.AllCommitments(), Participants(session.totalNodes)), session.totalNodes,
        session.nodeId, boot)
  {
    var total, self := session.totalNodes, session.nodeId;
    hide Add, Mul, Eval, Joint, NodePoint, Others, Participants, Distinct, PolyAdd, Q;
    var participants := Participants(total);
    var keys := session.FinalizeDkg(participants);
    ParticipantsAre(total);
    OthersElements(participants, self);
    if keys.MissingFromPeer? {
      return NotBooted(MissingShare);
    }
    FinalizedOnAll(total, self, peers);
    ParticipantsAre(total);
    JointOrder(session.AllCommitments(), participants, self, NodePoint(self));
    JointOrder(session.AllCommitments(), participants, self, ZERO);
    MulUnit(keys.masterPk);
    hide DkgSession.Valid;
    var publicKeys := DeriveRegistry(self, session.secretPolynomial, peers, total);
    boot := Booted(keys.share, keys.masterPk, publicKeys);
  }

  /** Only messages, an acceptable one of every other participant, and no acceptable one of anybody else. */
  ghost predicate Complete(w: Wire, hash: seq<Byte> -> Scalar, self: nat, threshold: nat, total: nat,
                           inbox: seq<Inbound>) {
    && AllReceived(inbox)
    && forall p: nat :: HeardFrom(w, hash, self, threshold, inbox, p) <==> p < total && p != self
  }

  lemma OthersSize(total: nat, self: nat)
    requires self < total
    ensures |Below(total) - {self}| == total - 1
  {
  }

  /** The collection reaches its goal on such messages. */
  lemma CompleteReaches(w: Wire, hash: seq<Byte> -> Scalar, self: nat, threshold: nat, total: nat, inbox: seq<Inbound>)
    requires self < total && Complete(w, hash, self, threshold, total, inbox)
    ensures ReachedAt(w, hash, self, threshold, inbox, total, |inbox|)
    ensures forall p: nat :: p in Accepted(w, hash, self, threshold, inbox) <==> p < total && p != self
  {
    hide HeardFrom, Accepted;
    assert inbox[..|inbox|] == inbox;
    var accepted := Accepted(w, hash, self, threshold, inbox);
    forall p: nat ensures p in accepted <==> p < total && p != self {
      AcceptedIff(w, hash, self, threshold, inbox, p);
    }
    OthersSize(total, self);
    MapSize(accepted);
    assert accepted.Keys == Below(total) - {self};
  }

  /** And n - 1 senders are then all the others. */
  lemma CompleteCovers(w: Wire, hash: seq<Byte> -> Scalar, self: nat, threshold: nat, total: nat, inbox: seq<Inbound>,
                       n: nat)
    requires self < total && Complete(w, hash, self, threshold, total, inbox)
    requires n <= |inbox| && |Accepted(w, hash, self, threshold, inbox[..n])| == total - 1
    ensures forall p: nat :: p < total && p != self ==> p in Accepted(w, hash, self, threshold, inbox[..n])
  {
    hide Acceptable, Accepted, Complete;
    CompleteReaches(w, hash, self, threshold, total, inbox);
    AcceptedGrows(w, hash, self, threshold, inbox, n);
    var some, others := Accepted(w, hash, self, threshold, inbox[..n]), Below(total) - {self};
    OthersSize(total, self);
    MapSize(some);
    assert some.Keys <= others;
    assert others == some.Keys + (others - some.Keys);
    assert others - some.Keys == {};
    forall p: nat | p < total && p != self ensures p in some {
      assert p in others;
    }
  }

  /** The start-up, from the messages to the registry of public keys. */
  method BootstrapKeys(session: DkgSession, w: Wire, hash: seq<Byte> -> Scalar, inbox: seq<Inbound>)
    returns (boot: Boot)
    requires session.Valid() && 0 < session.totalNodes < U32 && session.threshold > 0 && session.receivedShares == map[]
    modifies session`receivedShares, session`receivedCommitments
    ensures session.Valid()
    ensures session.nodeId < session.totalNodes ==>
      Complete(w, hash, session.nodeId, session.threshold, session.totalNodes, inbox) ==> boot.Booted?
    ensures boot.Booted? ==>
      && session.nodeId < session.totalNodes
      && (forall i: nat :: i in session.receivedCommitments <==> i < session.totalNodes && i != session.nodeId)
      && (exists n :: 0 <= n <= |inbox|
            && session.receivedCommitments == Accepted(w, hash, session.nodeId, session.threshold, inbox[..n]))
      && (forall p :: p in Participants(session.totalNodes) ==>
            p in session.AllCommitments() && |session.AllCommitments()[p]| == session.threshold)
      && KeysFrom(Joint(session.AllCommitments(), Participants(session.totalNodes)), session.totalNodes,
        session.nodeId, boot)
  {
    hide Accepted, KeysFrom, Joint, Participants, Complete, ReachedAt;
    var total, self := session.totalNodes, session.nodeId;
    ghost var complete := self < total && Complete(w, hash, self, session.threshold, total, inbox);
    if complete {
      CompleteReaches(w, hash, self, session.threshold, total, inbox);
    }
    var collection := CollectShares(session, w, hash, inbox);
    if collection.NotCollected? {
      return NotBooted(collection.error);
    }
    if complete {
      ghost var n :| 0 <= n <= |inbox| && collection.peers == Accepted(w, hash, self, session.threshold, inbox[..n]);
      CompleteCovers(w, hash, self, session.threshold, total, inbox, n);
    }
    boot := FinalizeKeys(session, collection.peers);
  }
}
