/**
 The key generation when everyone is honest: each node sends every other one its packet.
 Whatever order they arrive in, every start-up succeeds, and all on the same polynomials.
 */
module Ceremony {
  import opened Base
  import opened Scalars
  import opened Lagrange
  import opened Packets
  import opened Dkg
  import opened Bootstrap

  /** Everyone's secret polynomial. */
  ghost predicate Dealers(polys: Commitments, threshold: nat, total: nat) {
    threshold > 0 && forall p: nat :: p < total ==> p in polys && |polys[p]| == threshold
  }

  /** The packets of the other nodes for `self`, in the order in which they come, perhaps more than once. */
  ghost function HonestInbox(w: Wire, hash: seq<Byte> -> Scalar, polys: Commitments, threshold: nat, total: nat,
                             order: seq<nat>, self: nat): (inbox: seq<Inbound>)
    requires Dealers(polys, threshold, total) && forall k :: 0 <= k < |order| ==> order[k] < total
    ensures |inbox| == |order|
    ensures forall k :: 0 <= k < |order| ==>
      inbox[k] == Received(PacketOf(w, hash, polys[order[k]], order[k], self))
  {
    seq(|order|, k requires 0 <= k < |order| => Received(PacketOf(w, hash, polys[order[k]], order[k], self)))
  }

  /** The others, each at least once. */
  ghost predicate OthersIn(order: seq<nat>, total: nat, self: nat) {
    && (forall k :: 0 <= k < |order| ==> order[k] < total && order[k] != self)
    && (forall p: nat :: p < total && p != self ==> p in order)
  }

  /** An all-honest inbox is complete, whatever its order, and holds everyone's own polynomial. */
  lemma HonestInboxComplete(w: Wire, hash: seq<Byte> -> Scalar, polys: Commitments, threshold: nat, total: nat,
                            order: seq<nat>, self: nat)
    requires Dealers(polys, threshold, total) && OthersIn(order, total, self)
    ensures Complete(w, hash, self, threshold, total, HonestInbox(w, hash, polys, threshold, total, order, self))
  {
    var inbox := HonestInbox(w, hash, polys, threshold, total, order, self);
    hide Acceptable, PacketOf, HonestInbox;
    forall k | 0 <= k < |order| ensures AcceptableFrom(w, hash, self, threshold, inbox, order[k], k) {
      PacketAcceptable(w, hash, polys[order[k]], order[k], self);
      PacketFrom(w, hash, polys[order[k]], order[k], self);
    }
    forall p: nat ensures HeardFrom(w, hash, self, threshold, inbox, p) <==> p < total && p != self {
      if p in order {
        var k :| 0 <= k < |order| && order[k] == p;
        assert AcceptableFrom(w, hash, self, threshold, inbox, p, k);
      }
      if k: nat :| AcceptableFrom(w, hash, self, threshold, inbox, p, k) {
          PacketFrom(w, hash, polys[order[k]], order[k], self);
      }
    }
  }

  lemma PacketFrom(w: Wire, hash: seq<Byte> -> Scalar, f: Poly, self: nat, id: nat)
    requires |f| > 0
    ensures PacketOf(w, hash, f, self, id).fromNode == self && PacketOf(w, hash, f, self, id).commitments == f
  {
  }

  /** So whoever counts at any moment counts with its own polynomial. */
  lemma {:induction false} HonestAccepted(w: Wire, hash: seq<Byte> -> Scalar, polys: Commitments, threshold: nat,
                                          total: nat, order: seq<nat>, self: nat, n: nat, p: nat)
    requires Dealers(polys, threshold, total) && OthersIn(order, total, self) && n <= |order|
    ensures var inbox := HonestInbox(w, hash, polys, threshold, total, order, self);
      p in Accepted(w, hash, self, threshold, inbox[..n]) ==>
        p < total && Accepted(w, hash, self, threshold, inbox[..n])[p] == polys[p]
  {
    var inbox := HonestInbox(w, hash, polys, threshold, total, order, self);
    hide Acceptable, PacketOf, HonestInbox;
    if n == 0 {
      NoneYet(w, hash, self, threshold, inbox);
    } else {
      HonestAccepted(w, hash, polys, threshold, total, order, self, n - 1, p);
      AcceptedNext(w, hash, self, threshold, inbox, n - 1);
      PacketFrom(w, hash, polys[order[n - 1]], order[n - 1], self);
    }
  }

  /**
   What every honest node ends with: commitments that cover the others and are their polynomials
   make, with its own, the one joint polynomial of all.
   */
  lemma OneJointPolynomial(polys: Commitments, threshold: nat, total: nat, self: nat, peers: Commitments)
    requires Dealers(polys, threshold, total) && self < total
    requires forall p: nat :: p in peers <==> p < total && p != self
    requires forall p :: p in peers ==> peers[p] == polys[p]
    ensures forall p :: p in Participants(total) ==> p in peers[self := polys[self]] && p in polys
    ensures Joint(peers[self := polys[self]], Participants(total)) == Joint(polys, Participants(total))
  {
    ParticipantsAre(total);
    SameJoint(peers[self := polys[self]], polys, Participants(total));
  }

  lemma {:induction false} SameJoint(a: Commitments, b: Commitments, dealers: seq<nat>)
    requires forall p :: p in dealers ==> p in a && p in b && a[p] == b[p]
    ensures Joint(a, dealers) == Joint(b, dealers)
  {
    if |dealers| > 0 {
      SameJoint(a, b, dealers[1..]);
    }
  }
}
