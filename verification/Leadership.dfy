/**
 Who may propose. The leader moves on by one node with every view; the handler and the
 replay of the log enforce the same rotation.
 */
module Leadership {
  import opened Base
  import opened Protocol
  import opened Recovery
  import opened Durability

  lemma Spread(n: int, k: int)
    requires n > 0
    ensures k >= 1 ==> n * k >= n
    ensures k <= -1 ==> n * k <= -n
  {
  }

  /** No multiple of n lies strictly between -n and n but zero. */
  lemma Between(n: int, k: int, d: int)
    requires n > 0 && d == n * k && -n < d < n
    ensures d == 0
  {
    Spread(n, k);
  }

  lemma Exact(n: int, k: int)
    requires n > 0
    ensures (n * k) % n == 0
  {
    var r, p := (n * k) % n, (n * k) / n;
    assert r == n * (k - p) by {
      assert n * k == n * p + r;
    }
    Between(n, k - p, r);
  }

  /** Within less than n of a multiple of n there is no other. */
  lemma Turn(n: int, a: int, b: int, k: int)
    requires n > 0 && b == n * k && -n < a - b < n
    ensures a % n == 0 <==> a == b
  {
    if a == b {
      Exact(n, k);
    } else if a % n == 0 {
      var p := a / n;
      assert a == n * p;
      assert a - b == n * (p - k);
      Between(n, p - k, a - b);
    }
  }

  lemma RemainderIff(view: nat, i: nat, n: nat)
    requires i < n
    ensures view % n == i <==> (view - i) % n == 0
  {
    var q, r := view / n, view % n;
    Turn(n, view - i, n * q, q);
  }

  /** A registered, signed proposal of the current view is refused for its leader exactly off its sender's turn. */
  lemma LeaderRefusedIff(reg: Registry, s: Core, m: Message)
    requires reg.nodes > 0 && m.phase == PrePrepare && m.view == s.view
    requires m.sender < reg.nodes && reg.sigOk(m.sender, m.Signed(), m.signature)
    ensures Handle(reg, s, m) == Rejected(LeaderViolation) <==> (m.view - m.sender) % reg.nodes != 0
    ensures (forall k :: k in s.proposals ==> k.At() != m.Key().At()) ==>
      (Handle(reg, s, m).Accepted? <==> (m.view - m.sender) % reg.nodes == 0)
  {
    RemainderIff(m.view, m.sender, reg.nodes);
  }

  /** Replay asks the same of a proposal row, in whatever view it has come to. */
  lemma LeaderRowRefusedIff(reg: Registry, r: Core, rec: Record)
    requires reg.nodes > 0 && rec.phase == 0 && Authentic(reg, rec)
    requires forall k :: k in r.proposals && k.At() == rec.Key().At() ==> k.digest == rec.digest
    ensures Row(reg, r, rec).Refused? <==> (rec.view - rec.sender) % reg.nodes != 0
  {
    RemainderIff(rec.view, rec.sender, reg.nodes);
    assert forall k: Ballot :: k.At() == rec.Key().At() <==> k.view == rec.view && k.seqno == rec.seqno;
  }

  /** One of n consecutive numbers is i plus a multiple of n. */
  lemma TurnOf(i: nat, start: nat, n: nat) returns (turn: nat, k: int)
    requires i < n
    ensures start <= turn < start + n && turn - i == n * k
  {
    var a: int := i - start;
    k := -(a / n);
    turn := start + a % n;
    NegProduct(n, a / n);
  }

  lemma NegProduct(n: int, q: int)
    ensures n * -q == -(n * q)
  {
  }

  /** Node `i` may propose, to a fresh replica in view `v`. */
  ghost predicate MayPropose(reg: Registry, i: nat, v: nat, seqno: nat, d: Digest, sig: Sig)
    requires reg.nodes > 0
  {
    Handle(reg, INITIAL.(view := v), Message(PrePrepare, v, seqno, d, i, sig)).Accepted?
  }

  lemma MayProposeIff(reg: Registry, i: nat, v: nat, seqno: nat, d: Digest, sig: Sig)
    requires i < reg.nodes && reg.sigOk(i, Statement(PrePrepare, v, seqno, d), sig)
    ensures MayPropose(reg, i, v, seqno, d, sig) <==> (v - i) % reg.nodes == 0
  {
    var s, m := INITIAL.(view := v), Message(PrePrepare, v, seqno, d, i, sig);
    assert s.proposals == {};
    hide Handle;
    LeaderRefusedIff(reg, s, m);
  }

  /** Of any n consecutive views every node leads exactly one; node 0 leads the first of all. */
  lemma EveryoneLeadsOnce(reg: Registry, sig: nat -> Sig, i: nat, start: nat, seqno: nat, d: Digest) returns (turn: nat)
    requires i < reg.nodes
    requires forall v: nat :: reg.sigOk(i, Statement(PrePrepare, v, seqno, d), sig(v))
    ensures start <= turn < start + reg.nodes
    ensures forall v: nat :: start <= v < start + reg.nodes ==> (MayPropose(reg, i, v, seqno, d, sig(v)) <==> v == turn)
    ensures start == 0 ==> turn == i
  {
    hide MayPropose;
    var n, k := reg.nodes, 0;
    turn, k := TurnOf(i, start, n);
    forall v: nat | start <= v < start + n ensures MayPropose(reg, i, v, seqno, d, sig(v)) <==> v == turn {
      MayProposeIff(reg, i, v, seqno, d, sig(v));
      Turn(n, v - i, turn - i, k);
    }
    if start == 0 {
      Between(n, k, turn - i);
    }
  }
}
