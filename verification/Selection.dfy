/**
 The two choices made at a view change, as the loops over hash maps they are. Hash
 maps iterate in any order; neither choice depends on it.
 */
module Selection {
  import opened Base
  import opened Protocol
  import opened Invariants

  // ------------------------------------------------------------ the highest report

  /** When a slot is chosen, which one, and when none is. */
  lemma HighestSlotIff(votes: Reports, q: nat, d: Digest)
    ensures HighestSlot(votes) == Some(Top(q, d)) <==>
      && (exists i :: i in votes && votes[i].seqno == q && (q > 0 ==> votes[i].digest == d))
      && (forall i :: i in votes ==> votes[i].seqno <= q)
      && (if q == 0 then d == ZERO_DIGEST else OneDigestAt(votes, q, d))
    ensures HighestSlot(votes) == None <==>
      || votes == map[]
      || exists i, j :: i in votes && j in votes
           && votes[i].seqno == votes[j].seqno == MaxReported(votes) > 0 && votes[i].digest != votes[j].digest
  {
    if votes == map[] {
      assert |votes| == 0;
    } else {
      var k :| k in votes;
      MapSize(votes);
      assert |votes| > 0;
      var top := MaxReported(votes);
      if top > 0 && HighestSlot(votes).None? {
        var i :| i in votes && votes[i].seqno == top && !OneDigestAt(votes, top, votes[i].digest);
      }
    }
  }

  /** `highest_view_change_slot`, visiting the votes in any order. */
  method HighestViewChangeSlot(votes: Reports) returns (top: Option<Top>)
    ensures top == HighestSlot(votes)
  {
    MapSize(votes);
    if |votes| == 0 {
      return None;
    }
    var rest := votes.Keys;
    var maxSeq := 0;
    while rest != {}
      invariant rest <= votes.Keys
      invariant forall i :: i in votes && i !in rest ==> votes[i].seqno <= maxSeq
      invariant maxSeq == 0 || exists i :: i in votes && i !in rest && votes[i].seqno == maxSeq
      decreases rest
    {
      var i :| i in rest;
      rest := rest - {i};
      maxSeq := Max(maxSeq, votes[i].seqno);
    }
    ghost var topmost: nat :| topmost in votes && votes[topmost].seqno == MaxReported(votes);
    assert maxSeq == MaxReported(votes);
    if maxSeq == 0 {
      return Some(Top(0, ZERO_DIGEST));
    }
    var digestAtMax: Option<Digest> := None;
    rest := votes.Keys;
    while rest != {}
      invariant rest <= votes.Keys
      invariant match digestAtMax
        case None => forall i :: i in votes && i !in rest ==> votes[i].seqno != maxSeq
        case Some(d) =>
          && (exists i :: i in votes && i !in rest && votes[i].seqno == maxSeq && votes[i].digest == d)
          && (forall i :: i in votes && i !in rest && votes[i].seqno == maxSeq ==> votes[i].digest == d)
      decreases rest
    {
      var i :| i in rest;
      rest := rest - {i};
      if votes[i].seqno == maxSeq {
        if digestAtMax.Some? && digestAtMax.value != votes[i].digest {
          ghost var j :| j in votes && votes[j].seqno == maxSeq && votes[j].digest == digestAtMax.value;
          ConflictMeansNone(votes, i, j);
          return None;
        }
        digestAtMax := Some(votes[i].digest);
      }
    }
    HighestSlotIff(votes, maxSeq, digestAtMax.value);
    top := Some(Top(maxSeq, digestAtMax.value));
  }

  lemma ConflictMeansNone(votes: Reports, i: nat, j: nat)
    requires |votes| > 0 && i in votes && j in votes
    requires votes[i].seqno == votes[j].seqno == MaxReported(votes) > 0 && votes[i].digest != votes[j].digest
    ensures HighestSlot(votes) == None
  {
  }

  // ------------------------------------------------------- the prepared certificate

  ghost function Least(ids: set<nat>): (m: nat)
    requires ids != {}
    ensures m in ids && forall i :: i in ids ==> m <= i
  {
    LeastExists(ids);
    var m :| m in ids && forall i :: i in ids ==> m <= i;
    m
  }

  lemma {:induction false} LeastExists(ids: set<nat>)
    requires ids != {}
    ensures exists m :: m in ids && forall i :: i in ids ==> m <= i
  {
    var x :| x in ids;
    var rest := ids - {x};
    var least := x;
    if rest != {} {
      LeastExists(rest);
      var m :| m in rest && forall i :: i in rest ==> m <= i;
      least := if x < m then x else m;
    }
    forall i | i in ids ensures least <= i {
      assert i == x || i in rest;
    }
    assert least in ids;
  }

  /** The ids in ascending order: the tie-break key of a certificate. */
  ghost function Sorted(ids: set<nat>): seq<nat>
    decreases ids
  {
    if ids == {} then [] else [Least(ids)] + Sorted(ids - {Least(ids)})
  }

  lemma {:induction false} SortedElements(ids: set<nat>)
    ensures forall i :: i in Sorted(ids) <==> i in ids
    decreases ids
  {
    if ids != {} {
      SortedElements(ids - {Least(ids)});
    }
  }

  /** Every id once, each below the next. */
  lemma {:induction false} SortedAscends(ids: set<nat>)
    ensures |Sorted(ids)| == |ids|
    ensures forall i, j :: 0 <= i < j < |Sorted(ids)| ==> Sorted(ids)[i] < Sorted(ids)[j]
    decreases ids
  {
    if ids != {} {
      var rest := ids - {Least(ids)};
      SortedAscends(rest);
      SortedElements(rest);
      forall j | 0 <= j < |Sorted(rest)| ensures Least(ids) < Sorted(rest)[j] {
        assert Sorted(rest)[j] in rest;
      }
    }
  }

  /** Lexicographic order of id lists, a shorter prefix first. */
  predicate LexLess(a: seq<nat>, b: seq<nat>) {
    |b| > 0 && (|a| == 0 || a[0] < b[0] || (a[0] == b[0] && LexLess(a[1..], b[1..])))
  }

  /** The lists agree below `k`; there `a` ends, or has the smaller id. */
  predicate SmallerAt(a: seq<nat>, b: seq<nat>, k: nat) {
    k <= |a| && k < |b| && a[..k] == b[..k] && (k == |a| || a[k] < b[k])
  }

  lemma SmallerLater(a: seq<nat>, b: seq<nat>, k: nat)
    requires |a| > 0 && |b| > 0
    ensures SmallerAt(a, b, k + 1) <==> a[0] == b[0] && SmallerAt(a[1..], b[1..], k)
  {
    if k + 1 <= |a| && k + 1 < |b| {
      assert a[..k + 1] == [a[0]] + a[1..][..k] && b[..k + 1] == [b[0]] + b[1..][..k];
      assert a[..k + 1][1..] == a[1..][..k] && b[..k + 1][1..] == b[1..][..k];
      assert a[..k + 1][0] == a[0] && b[..k + 1][0] == b[0];
    }
  }

  /** One list comes first if it is a proper prefix of the other, or smaller where they first differ. */
  lemma {:induction false} LexLessIff(a: seq<nat>, b: seq<nat>)
    ensures LexLess(a, b) <==> exists k: nat :: SmallerAt(a, b, k)
  {
    assert SmallerAt(a, b, 0) <==> |b| > 0 && (|a| == 0 || a[0] < b[0]);
    if |a| > 0 && |b| > 0 {
      LexLessIff(a[1..], b[1..]);
      hide SmallerAt;
      if k: nat :| SmallerAt(a[1..], b[1..], k) {
        SmallerLater(a, b, k);
      }
      if k: nat :| SmallerAt(a, b, k) {
        if k > 0 {
          SmallerLater(a, b, k - 1);
        }
      }
    }
  }

  lemma {:induction false} LexTotal(a: seq<nat>, b: seq<nat>)
    ensures LexLess(a, b) || a == b || LexLess(b, a)
    ensures !(LexLess(a, b) && LexLess(b, a))
  {
    if |a| > 0 && |b| > 0 && a[0] == b[0] {
      LexTotal(a[1..], b[1..]);
      assert a == [a[0]] + a[1..] && b == [b[0]] + b[1..];
    }
  }

  lemma {:induction false} LexTransitive(a: seq<nat>, b: seq<nat>, c: seq<nat>)
    requires LexLess(a, b) && LexLess(b, c)
    ensures LexLess(a, c)
  {
    if |a| > 0 && a[0] == b[0] == c[0] {
      LexTransitive(a[1..], b[1..], c[1..]);
    }
  }

  /** The comparator of `candidates.sort_by`: later views first, then signer lists. */
  ghost predicate Precedes(a: Certificate, b: Certificate) {
    a.view > b.view || (a.view == b.view && LexLess(Sorted(a.signatures.Keys), Sorted(b.signatures.Keys)))
  }

  lemma PrecedesTransitive(a: Certificate, b: Certificate, c: Certificate)
    requires Precedes(a, b) && Precedes(b, c)
    ensures Precedes(a, c)
  {
    if a.view == b.view == c.view {
      LexTransitive(Sorted(a.signatures.Keys), Sorted(b.signatures.Keys), Sorted(c.signatures.Keys));
    }
  }

  /** `c` is an eligible candidate that no eligible candidate precedes. */
  ghost predicate IsFirst(reg: Registry, c: Certificate, candidates: seq<Certificate>, target: nat, seqno: nat,
                          digest: Digest) {
    && c in candidates && CanSelect(reg, c, target, seqno, digest)
    && forall o :: o in candidates && CanSelect(reg, o, target, seqno, digest) ==> !Precedes(o, c)
  }

  /** Whatever the order of the candidates, the selected view and signer set are the same. */
  lemma SelectionIgnoresOrder(reg: Registry, xs: seq<Certificate>, ys: seq<Certificate>, a: Certificate, b: Certificate,
                              target: nat, seqno: nat, digest: Digest)
    requires multiset(xs) == multiset(ys)
    requires IsFirst(reg, a, xs, target, seqno, digest) && IsFirst(reg, b, ys, target, seqno, digest)
    ensures a.view == b.view && a.signatures.Keys == b.signatures.Keys
    ensures forall o :: o in xs && CanSelect(reg, o, target, seqno, digest) ==> o.view <= a.view
  {
    assert a in multiset(ys) && b in multiset(xs);
    LexTotal(Sorted(a.signatures.Keys), Sorted(b.signatures.Keys));
    SortedElements(a.signatures.Keys);
    SortedElements(b.signatures.Keys);
  }

  method SortIds(ids: set<nat>) returns (sorted: seq<nat>)
    ensures sorted == Sorted(ids)
    ensures |sorted| == |ids| && forall i :: i in sorted <==> i in ids
    ensures forall i, j :: 0 <= i < j < |sorted| ==> sorted[i] < sorted[j]
  {
    sorted := [];
    var rest := ids;
    while rest != {}
      invariant sorted + Sorted(rest) == Sorted(ids)
      decreases rest
    {
      var least :| least in rest;
      var others := rest;
      while others != {}
        invariant least in rest && others <= rest
        invariant forall i :: i in rest && i !in others ==> least <= i
        decreases others
      {
        var i :| i in others;
        others := others - {i};
        if i < least {
          least := i;
        }
      }
      assert least == Least(rest);
      assert sorted + ([least] + Sorted(rest - {least})) == (sorted + [least]) + Sorted(rest - {least});
      sorted := sorted + [least];
      rest := rest - {least};
    }
    assert sorted + [] == sorted;
    SortedElements(ids);
    SortedAscends(ids);
  }

  /** `select_highest_prepared_certificate`: filter, sort, take the first. */
  method SelectHighestPreparedCertificate(reg: Registry, certificates: seq<Certificate>, target: nat, seqno: nat,
                                          digest: Digest)
    returns (selected: Option<Certificate>)
    ensures selected.Some? ==> IsFirst(reg, selected.value, certificates, target, seqno, digest)
    ensures selected.None? ==> forall o :: o in certificates ==> !CanSelect(reg, o, target, seqno, digest)
    ensures selected.Some? ==>
      var c := selected.value;
      forall o :: o in certificates && CanSelect(reg, o, target, seqno, digest) ==>
        || o.view < c.view
        || (o.view == c.view && !LexLess(Sorted(o.signatures.Keys), Sorted(c.signatures.Keys)))
  {
    selected := None;
    for n := 0 to |certificates|
      invariant selected.Some? ==> IsFirst(reg, selected.value, certificates[..n], target, seqno, digest)
      invariant selected.None? ==> forall o :: o in certificates[..n] ==> !CanSelect(reg, o, target, seqno, digest)
    {
      var c := certificates[n];
      assert certificates[..n + 1] == certificates[..n] + [c];
      if CanSelect(reg, c, target, seqno, digest) {
        if selected.None? {
          LexTotal(Sorted(c.signatures.Keys), Sorted(c.signatures.Keys));
          selected := Some(c);
        } else {
          var best := selected.value;
          var signers := SortIds(c.signatures.Keys);
          var bestSigners := SortIds(best.signatures.Keys);
          LexTotal(signers, bestSigners);
          LexTotal(signers, signers);
          if c.view > best.view || (c.view == best.view && LexLess(signers, bestSigners)) {
            BetterIsFirst(reg, certificates[..n], best, c, target, seqno, digest);
            selected := Some(c);
          }
        }
      }
    }
    assert certificates[..|certificates|] == certificates;
  }

  lemma BetterIsFirst(reg: Registry, seen: seq<Certificate>, best: Certificate, c: Certificate, target: nat,
                      seqno: nat, digest: Digest)
    requires IsFirst(reg, best, seen, target, seqno, digest)
    requires CanSelect(reg, c, target, seqno, digest) && Precedes(c, best)
    ensures IsFirst(reg, c, seen + [c], target, seqno, digest)
  {
    forall o | o in seen + [c] && CanSelect(reg, o, target, seqno, digest) ensures !Precedes(o, c) {
      if o in seen && Precedes(o, c) {
        PrecedesTransitive(o, c, best);
        assert false;
      } else {
        LexTotal(Sorted(c.signatures.Keys), Sorted(c.signatures.Keys));
      }
    }
  }

  /** The certificates of the table, in some iteration order. */
  method Values(prepared: Certificates) returns (certs: seq<Certificate>)
    ensures forall c :: c in certs <==> exists slot :: slot in prepared && prepared[slot] == c
  {
    certs := [];
    var rest := prepared.Keys;
    while rest != {}
      invariant rest <= prepared.Keys
      invariant forall c :: c in certs <==> exists slot :: slot in prepared && slot !in rest && prepared[slot] == c
      decreases rest
    {
      var slot :| slot in rest;
      rest := rest - {slot};
      certs := certs + [prepared[slot]];
    }
  }

  /** On a table of exact certificates the loop finds what `SelectPrepared` specifies. */
  method SelectFromTable(reg: Registry, ghost s: Core, prepared: Certificates, target: nat, seqno: nat, digest: Digest)
    returns (selected: Option<Certificate>)
    requires s.prepared == prepared && CertificatesExact(reg, Prepare, s.prepareVotes, s.prepared)
    ensures selected == SelectPrepared(reg, prepared, target, seqno, digest)
  {
    var certs := Values(prepared);
    selected := SelectHighestPreparedCertificate(reg, certs, target, seqno, digest);
    FirstIsSelected(reg, s, certs, selected, target, seqno, digest);
  }

  lemma FirstIsSelected(reg: Registry, s: Core, certs: seq<Certificate>, selected: Option<Certificate>, target: nat,
                        seqno: nat, digest: Digest)
    requires CertificatesExact(reg, Prepare, s.prepareVotes, s.prepared)
    requires forall c :: c in certs <==> exists slot :: slot in s.prepared && s.prepared[slot] == c
    requires selected.Some? ==> IsFirst(reg, selected.value, certs, target, seqno, digest)
    requires selected.None? ==> forall o :: o in certs ==> !CanSelect(reg, o, target, seqno, digest)
    ensures selected == SelectPrepared(reg, s.prepared, target, seqno, digest)
  {
    hide Full, SelectPrepared;
    SelectPreparedIsHighest(reg, s, target, seqno, digest);
    var spec := SelectPrepared(reg, s.prepared, target, seqno, digest);
    if selected.Some? {
      var c := selected.value;
      var slot :| slot in s.prepared && s.prepared[slot] == c;
      assert CertificateBacked(reg, Prepare, s.prepareVotes, slot, c);
      assert PreparedFor(s.prepared, Ballot(c.view, seqno, digest));
      assert spec.value in certs;
      assert !Precedes(spec.value, c);
    }
  }
}
