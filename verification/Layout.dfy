/**
 Where every byte stands: the numbers of the phases, the fields of a log record, of what is
 signed and of what is sent, each at its offset.
 */
module Layout {
  import opened Base
  import opened Bytes
  import opened Codecs
  import opened Scalars
  import opened Lagrange
  import opened Protocol
  import opened Recovery
  import opened Selection
  import opened WalFormat
  import opened Packets
  import opened Dkg

  /** The numbers of the phases on the wire and in the log. */
  lemma PhaseNumbers()
    ensures Code(PrePrepare) == 0 && Code(Prepare) == 1 && Code(Commit) == 2
    ensures Code(ViewChange) == 3 && Code(Checkpoint) == 4
    ensures forall p: Phase :: PhaseOf(Code(p)) == p
  {
  }

  /** The bytes write `n`, the most significant first. */
  ghost predicate Writes(b: seq<Byte>, n: nat) {
    forall i :: 0 <= i < |b| ==> b[i] == (n / Pow256(|b| - 1 - i)) % 256
  }

  lemma BigEndianWrites(n: nat, width: nat)
    ensures Writes(BigEndian(n, width), n)
  {
    var b := BigEndian(n, width);
    forall i | 0 <= i < |b| ensures b[i] == (n / Pow256(|b| - 1 - i)) % 256 {
      ByteAt(n, width, i);
    }
  }

  /** A record of the log: view, sequence, phase, sender, digest, signature, 101 bytes in all. */
  lemma RecordLayout(codec: PointCodec, m: Message)
    requires codec.Valid() && Storable(codec, RecordOf(m))
    ensures var b := Encode(codec, RecordOf(m));
      && |b| == 101
      && Writes(b[0..8], m.view) && Writes(b[8..16], m.seqno)
      && b[16] == Code(m.phase)
      && Writes(b[17..21], m.sender) && b[21..53] == m.digest.bytes && b[53..101] == codec.compress(m.signature)
  {
    var rec := RecordOf(m);
    var b := Encode(codec, rec);
    EncodeParts(codec, rec);
    hide Encode, BigEndian, Writes;
    BigEndianWrites(m.view, 8);
    BigEndianWrites(m.seqno, 8);
    BigEndianWrites(m.sender, 4);
  }

  /** What a consensus signature covers: phase, view, sequence, digest, and not the sender. */
  lemma StatementLayout(s: Statement)
    requires Fits(s)
    ensures var b := StatementBytes(s);
      && |b| == 49
      && b[0] == Code(s.phase)
      && Writes(b[1..9], s.view) && Writes(b[9..17], s.seqno) && b[17..49] == s.digest.bytes
  {
    var b := StatementBytes(s);
    StatementParts(s);
    hide BigEndian, Writes;
    BigEndianWrites(s.view, 8);
    BigEndianWrites(s.seqno, 8);
  }

  /** A consensus message: what is signed, then the sender and the signature. */
  lemma MessageLayout(codec: PointCodec, m: Message)
    requires codec.Valid() && MessageFits(codec, m)
    ensures var b := MessageBytes(codec, m);
      && |b| == 101 && b[..49] == StatementBytes(m.Signed())
      && Writes(b[49..53], m.sender) && b[53..101] == codec.compress(m.signature)
  {
    var b, st := MessageBytes(codec, m), StatementBytes(m.Signed());
    assert |st| == 49 && |codec.compress(m.signature)| == 48;
    assert b[..49] == st && b[49..53] == BigEndian(m.sender, 4);
    hide BigEndian, Writes, StatementBytes, MessageBytes;
    BigEndianWrites(m.sender, 4);
  }

  lemma Shifted(head: seq<Byte>, tail: seq<Byte>, at: nat, width: nat)
    requires at + width <= |tail|
    ensures (head + tail)[|head| + at..|head| + at + width] == tail[at..at + width]
  {
  }

  /** The encodings of a list stand one after another. */
  lemma {:induction false} BlockAt(c: Codec<Scalar>, xs: seq<Scalar>, i: nat)
    requires c.Valid() && i < |xs|
    ensures |EncodeAll(c, xs)| == c.width * |xs| && 0 <= c.width * i && c.width * i + c.width <= c.width * |xs|
    ensures EncodeAll(c, xs)[c.width * i..c.width * i + c.width] == c.encode(xs[i])
  {
    DecodesAll(c, xs);
    Steps(c.width, i, |xs|);
    var head, tail := c.encode(xs[0]), EncodeAll(c, xs[1..]);
    assert EncodeAll(c, xs) == head + tail && |head| == c.width;
    hide EncodeAll;
    if i > 0 {
      BlockAt(c, xs[1..], i - 1);
      hide Codec.Valid;
      Distributes(c.width, 1, i - 1);
      Shifted(head, tail, c.width * (i - 1), c.width);
    } else {
      hide Codec.Valid;
      assert c.width * 0 == 0 && (head + tail)[..|head|] == head;
    }
  }

  lemma Steps(width: nat, i: nat, n: nat)
    requires i < n
    ensures 0 <= width * i && width * i + width <= width * n
  {
    Distributes(width, i, n - i);
    Distributes(width, 1, n - i - 1);
  }

  lemma Distributes(a: nat, b: nat, c: nat)
    ensures a * (b + c) == a * b + a * c
  {
  }

  /** A DKG packet: from, to, share, then each commitment in 96 bytes, and last the signature. */
  lemma PacketLayout(w: Wire, m: ShareMessage)
    requires w.Valid()
    ensures var b := ToBytes(w, m);
      && |b| == 88 + 96 * |m.commitments|
      && Writes(b[0..4], m.fromNode) && Writes(b[4..8], m.toNode) && b[8..40] == w.scalars.encode(m.share)
      && b[40..|b| - 48] == EncodeAll(w.g2, m.commitments)
      && b[|b| - 48..] == w.g1.encode(m.signature) && Canonical(w, m) == b[..|b| - 48]
  {
    DecodesAll(w.g2, m.commitments);
    var f, t, s, c, g := BigEndian(m.fromNode, 4), BigEndian(m.toNode, 4), w.scalars.encode(m.share),
      EncodeAll(w.g2, m.commitments), w.g1.encode(m.signature);
    assert |s| == 32 && |g| == 48 && |c| == 96 * |m.commitments|;
    Pieces(f, t, s, c, g);
    var b := ToBytes(w, m);
    assert b == f + t + s + c + g;
    assert Canonical(w, m) == b[..|b| - 48];
    hide BigEndian, EncodeAll, ToBytes, Canonical, Writes, Codec.Valid;
    assert b[0..4] == f && b[4..8] == t;
    BigEndianWrites(m.fromNode, 4);
    BigEndianWrites(m.toNode, 4);
  }

  /** A transcript starts with the entry of the lowest id, and goes on with the transcript of the others. */
  lemma TranscriptFromLowest(c: Codec<Scalar>, all: Commitments, id: nat, list: Poly)
    requires forall p :: p in all ==> id < p
    ensures Transcript(c, map[]) == []
    ensures Transcript(c, all[id := list]) == BigEndian(id, 4) + EncodeAll(c, list) + Transcript(c, all)
  {
    hide EncodeAll, BigEndian;
    var more := all[id := list];
    SortedElements(more.Keys);
    SortedElements(all.Keys);
    assert more.Keys == all.Keys + {id};
    assert Least(more.Keys) == id && more.Keys - {id} == all.Keys;
    assert Sorted(more.Keys)[1..] == Sorted(all.Keys);
    SameEntries(c, more, all, Sorted(all.Keys));
  }

  lemma {:induction false} SameEntries(c: Codec<Scalar>, a: Commitments, b: Commitments, ids: seq<nat>)
    requires forall id :: id in ids ==> id in a && id in b && a[id] == b[id]
    ensures Entries(c, a, ids) == Entries(c, b, ids)
  {
    hide EncodeAll, BigEndian;
    if |ids| > 0 {
      SameEntries(c, a, b, ids[1..]);
    }
  }

  // ------------------------------------------------------------------------- refusals

  /** Block `k` of 96 bytes is whole and not the encoding of anything. */
  ghost predicate BadBlock(c: Codec<Scalar>, b: seq<Byte>, k: nat) {
    96 * k + 96 <= |b| && c.decode(b[96 * k..96 * k + 96]).None?
  }

  ghost predicate HasBadBlock(c: Codec<Scalar>, b: seq<Byte>) {
    exists k: nat :: BadBlock(c, b, k)
  }

  lemma NextBlock(c: Codec<Scalar>, b: seq<Byte>, k: nat)
    requires |b| >= 96
    ensures BadBlock(c, b, k + 1) <==> BadBlock(c, b[96..], k)
    ensures BadBlock(c, b, 0) <==> c.decode(b[..96]).None?
  {
    if 96 * k + 96 <= |b[96..]| {
      assert b[96..][96 * k..96 * k + 96] == b[96 * (k + 1)..96 * (k + 1) + 96];
    }
    assert b[96 * 0..96 * 0 + 96] == b[..96];
  }

  /** The front of a string is unreadable exactly if one of its whole blocks is. */
  lemma {:induction false} FrontUnreadableIff(c: Codec<Scalar>, b: seq<Byte>)
    requires c.width == 96
    ensures Front(c, b).None? <==> HasBadBlock(c, b)
    decreases |b|
  {
    if |b| >= 96 {
      var rest := b[96..];
      FrontUnreadableIff(c, rest);
      NextBlock(c, b, 0);
      if k: nat :| BadBlock(c, rest, k) {
        NextBlock(c, b, k);
      }
      if k: nat :| BadBlock(c, b, k) {
        if k > 0 {
          NextBlock(c, b, k - 1);
        }
      }
    }
  }

  /** Why a packet is refused: its length, the share, a commitment, what is left over, the signature, in this order. */
  lemma PacketRefusals(w: Wire, b: seq<Byte>)
    requires w.Valid()
    ensures |b| < 88 <==> Parse(w, b) == Malformed(PacketTooShort)
    ensures |b| >= 88 ==>
      var share := w.scalars.decode(b[8..40]).Some?;
      var points := !HasBadBlock(w.g2, b[40..|b| - 48]);
      var whole := (|b| - 88) % 96 == 0;
      var signature := w.g1.decode(b[|b| - 48..]).Some?;
      && (Parse(w, b) == Malformed(InvalidShareScalar) <==> !share)
      && (Parse(w, b) == Malformed(InvalidG2Commitment) <==> share && !points)
      && (Parse(w, b) == Malformed(InvalidPacketStructure) <==> share && points && !whole)
      && (Parse(w, b) == Malformed(InvalidG1Signature) <==> share && points && whole && !signature)
      && (Parse(w, b).Packet? <==> share && points && whole && signature)
  {
    if |b| >= 88 {
      FrontUnreadableIff(w.g2, b[40..|b| - 48]);
    }
    hide Front, FromBigEndian, HasBadBlock;
  }

  /** Why a message is refused: its length, the number of its phase, its signature, in this order. */
  lemma MessageRefusals(codec: PointCodec, b: seq<Byte>)
    ensures ParseMessage(codec, b) == InvalidMessageLength <==> |b| < 101
    ensures ParseMessage(codec, b) == InvalidPhase <==> |b| >= 101 && b[0] !in [0, 1, 2, 3, 4]
    ensures ParseMessage(codec, b) == InvalidSignatureBytes <==>
      |b| >= 101 && b[0] in [0, 1, 2, 3, 4] && codec.decompress(b[53..101]).None?
  {
    hide FromBigEndian;
  }
}
