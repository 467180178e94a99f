/** The byte layouts of DKG packets and of consensus messages. */
module Packets {
  import opened Base
  import opened Bytes
  import opened Codecs
  import opened Scalars
  import opened Lagrange
  import opened Protocol
  import opened Recovery
  import opened WalFormat

  // --------------------------------------------------------------------- DKG packets

  datatype ShareMessage = ShareMessage(fromNode: nat, toNode: nat, share: Scalar, commitments: Poly, signature: Scalar)

  /** Canonical encodings of scalars and of compressed G2 and G1 points. */
  datatype Wire = Wire(scalars: Codec<Scalar>, g2: Codec<Scalar>, g1: Codec<Scalar>) {
    ghost predicate Valid() {
      scalars.Valid() && g2.Valid() && g1.Valid() && scalars.width == 32 && g2.width == 96 && g1.width == 48
    }
  }

  datatype PacketError =
    | PacketTooShort
    | InvalidShareScalar
    | InvalidG2Commitment
    | InvalidPacketStructure
    | InvalidG1Signature

  datatype Parsed = Packet(m: ShareMessage) | Malformed(error: PacketError)

  /** `canonical_bytes`: what a dealer signs. */
  function Canonical(w: Wire, m: ShareMessage): seq<Byte> {
    BigEndian(m.fromNode, 4) + BigEndian(m.toNode, 4) + w.scalars.encode(m.share) + EncodeAll(w.g2, m.commitments)
  }

  function ToBytes(w: Wire, m: ShareMessage): seq<Byte> {
    Canonical(w, m) + w.g1.encode(m.signature)
  }

  /** The whole encodings at the front of `b`; none if one of them is invalid. */
  function Front(c: Codec<Scalar>, b: seq<Byte>): Option<Poly>
    decreases |b|
  {
    if |b| < c.width || c.width == 0 then Some([])
    else
      match c.decode(b[..c.width])
      case None => None
      case Some(x) =>
        match Front(c, b[c.width..])
        case None => None
        case Some(rest) => Some([x] + rest)
  }

  /** What `from_bytes` makes of a packet; the checks in the order it makes them. */
  function Parse(w: Wire, b: seq<Byte>): Parsed {
    if |b| < 88 then Malformed(PacketTooShort)
    else if w.scalars.decode(b[8..40]).None? then Malformed(InvalidShareScalar)
    else if Front(w.g2, b[40..|b| - 48]).None? then Malformed(InvalidG2Commitment)
    else if (|b| - 88) % 96 != 0 then Malformed(InvalidPacketStructure)
    else if w.g1.decode(b[|b| - 48..]).None? then Malformed(InvalidG1Signature)
    else
      Packet(ShareMessage(FromBigEndian(b[0..4]), FromBigEndian(b[4..8]), w.scalars.decode(b[8..40]).value,
                          Front(w.g2, b[40..|b| - 48]).value, w.g1.decode(b[|b| - 48..]).value))
  }

  /** A string cut exactly into encodings has nothing after its front. */
  lemma {:induction false} FrontOfWhole(c: Codec<Scalar>, b: seq<Byte>)
    requires c.width == 96 && |b| % 96 == 0
    ensures Front(c, b) == DecodeAll(c, b)
    decreases |b|
  {
    if |b| > 0 {
      FrontOfWhole(c, b[c.width..]);
    }
  }

  /** A packet reads back as the message it was made from, whatever its number of commitments. */
  lemma ParsesEncoded(w: Wire, m: ShareMessage)
    requires w.Valid() && m.fromNode < Pow256(4) && m.toNode < Pow256(4)
    ensures Parse(w, ToBytes(w, m)) == Packet(m)
  {
    DecodesEncoded(m.fromNode, 4);
    DecodesEncoded(m.toNode, 4);
    DecodesAll(w.g2, m.commitments);
    var f, t, s, c, g := BigEndian(m.fromNode, 4), BigEndian(m.toNode, 4), w.scalars.encode(m.share),
      EncodeAll(w.g2, m.commitments), w.g1.encode(m.signature);
    assert |s| == 32 && |g| == 48 && |c| == 96 * |m.commitments|;
    assert w.scalars.decode(s) == Some(m.share) && w.g1.decode(g) == Some(m.signature);
    FrontOfWhole(w.g2, c);
    Pieces(f, t, s, c, g);
    var b := f + t + s + c + g;
    assert b == ToBytes(w, m);
    hide BigEndian, FromBigEndian, EncodeAll, DecodeAll, Front, Codec.Valid, ToBytes;
    assert b[0..4] == b[..4];
  }

  /** Any byte string accepted as a packet is the encoding of what it parses to. */
  lemma EncodesParsed(w: Wire, b: seq<Byte>)
    requires w.Valid() && Parse(w, b).Packet?
    ensures ToBytes(w, Parse(w, b).m) == b
    ensures Parse(w, b).m.fromNode < Pow256(4) && Parse(w, b).m.toNode < Pow256(4)
  {
    var body := b[40..|b| - 48];
    EncodesDecoded(b[0..4]);
    EncodesDecoded(b[4..8]);
    FrontOfWhole(w.g2, body);
    EncodesAllDecoded(w.g2, body);
    assert |b[8..40]| == 32 && |b[|b| - 48..]| == 48;
    hide BigEndian, FromBigEndian, EncodeAll, DecodeAll, Front;
    assert b == b[0..4] + b[4..8] + b[8..40] + body + b[|b| - 48..];
  }

  /** The commitment loop of `from_bytes`, from `offset` up to the signature. */
  method ParseCommitments(c: Codec<Scalar>, b: seq<Byte>, start: nat, end: nat)
    returns (commitments: Option<Poly>, offset: nat)
    requires c.width == 96 && start <= end <= |b|
    ensures commitments == Front(c, b[start..end])
    ensures commitments.Some? ==> start <= offset <= end && (offset == end <==> (end - start) % 96 == 0)
  {
    offset := start;
    var found: Poly := [];
    assert Front(c, b[start..end]).Some? ==> [] + Front(c, b[start..end]).value == Front(c, b[start..end]).value;
    while offset + 96 <= end
      invariant start <= offset <= end && (offset - start) % 96 == 0
      invariant Front(c, b[start..end]) ==
        match Front(c, b[offset..end])
        case None => None
        case Some(more) => Some(found + more)
    {
      assert b[offset..end][..96] == b[offset..offset + 96] && b[offset..end][96..] == b[offset + 96..end];
      var point := c.decode(b[offset..offset + 96]);
      if point.None? {
        return None, offset;
      }
      ghost var more := Front(c, b[offset + 96..end]);
      assert more.Some? ==> found + ([point.value] + more.value) == (found + [point.value]) + more.value;
      found := found + [point.value];
      offset := offset + 96;
    }
    assert found + [] == found;
    commitments := Some(found);
  }

  /** `DkgShareMessage::from_bytes`. */
  method ParsePacket(w: Wire, b: seq<Byte>) returns (r: Parsed)
    requires w.Valid()
    ensures r == Parse(w, b)
  {
    hide Front, FromBigEndian;
    if |b| < 88 {
      return Malformed(PacketTooShort);
    }
    var share := w.scalars.decode(b[8..40]);
    if share.None? {
      return Malformed(InvalidShareScalar);
    }
    var commitments, offset := ParseCommitments(w.g2, b, 40, |b| - 48);
    if commitments.None? {
      return Malformed(InvalidG2Commitment);
    }
    if |b| - offset != 48 {
      return Malformed(InvalidPacketStructure);
    }
    assert b[offset..offset + 48] == b[|b| - 48..];
    var signature := w.g1.decode(b[offset..offset + 48]);
    if signature.None? {
      return Malformed(InvalidG1Signature);
    }
    r := Packet(ShareMessage(FromBigEndian(b[0..4]), FromBigEndian(b[4..8]),
                             share.value, commitments.value, signature.value));
  }

  // -------------------------------------------------------------- consensus messages

  /** The bytes a consensus signature covers. */
  function StatementBytes(s: Statement): seq<Byte> {
    [Code(s.phase)] + BigEndian(s.view, 8) + BigEndian(s.seqno, 8) + s.digest.bytes
  }

  predicate Fits(s: Statement) {
    s.view < Pow256(8) && s.seqno < Pow256(8) && |s.digest.bytes| == 32
  }

  /** Different statements are signed as different bytes. */
  lemma StatementsDistinct(a: Statement, b: Statement)
    requires Fits(a) && Fits(b) && StatementBytes(a) == StatementBytes(b)
    ensures a == b
  {
    DecodesEncoded(a.view, 8);
    DecodesEncoded(a.seqno, 8);
    DecodesEncoded(b.view, 8);
    DecodesEncoded(b.seqno, 8);
    hide BigEndian, FromBigEndian;
    StatementParts(a);
    StatementParts(b);
  }

  lemma StatementParts(s: Statement)
    ensures var b := StatementBytes(s);
      b[0] == Code(s.phase) && b[1..9] == BigEndian(s.view, 8) && b[9..17] == BigEndian(s.seqno, 8)
      && b[17..] == s.digest.bytes
  {
  }

  datatype MessageResult = MessageOk(m: Message) | InvalidMessageLength | InvalidPhase | InvalidSignatureBytes

  /** `PbftMessage::to_bytes`. */
  function MessageBytes(codec: PointCodec, m: Message): seq<Byte>
    requires codec.isPoint(m.signature)
  {
    StatementBytes(m.Signed()) + BigEndian(m.sender, 4) + codec.compress(m.signature)
  }

  /** `PbftMessage::from_bytes`, which reads 101 bytes and ignores any that follow. */
  function ParseMessage(codec: PointCodec, b: seq<Byte>): MessageResult {
    if |b| < 101 then InvalidMessageLength
    else if b[0] > 4 then InvalidPhase
    else
      match codec.decompress(b[53..101])
      case None => InvalidSignatureBytes
      case Some(point) =>
        MessageOk(Message(PhaseOf(b[0]), FromBigEndian(b[1..9]), FromBigEndian(b[9..17]), Digest(b[17..49]),
                          FromBigEndian(b[49..53]), point))
  }

  predicate MessageFits(codec: PointCodec, m: Message) {
    Fits(m.Signed()) && m.sender < Pow256(4) && codec.isPoint(m.signature)
  }

  /** A byte string parses to `m` exactly when it starts with the bytes of `m`. */
  lemma ParsesIffPrefix(codec: PointCodec, b: seq<Byte>, m: Message)
    requires codec.Valid()
    ensures ParseMessage(codec, b) == MessageOk(m) <==> MessageFits(codec, m) && MessageBytes(codec, m) <= b
  {
    if ParseMessage(codec, b) == MessageOk(m) {
      EncodesDecoded(b[1..9]);
      EncodesDecoded(b[9..17]);
      EncodesDecoded(b[49..53]);
      assert |b[53..101]| == 48;
      hide BigEndian, FromBigEndian;
      assert b[..101] == [b[0]] + b[1..9] + b[9..17] + b[17..49] + b[49..53] + b[53..101];
      assert MessageBytes(codec, m) == b[..101];
    } else if MessageFits(codec, m) && MessageBytes(codec, m) <= b {
      ParsesPrefix(codec, b, m);
    }
  }

  lemma ParsesPrefix(codec: PointCodec, b: seq<Byte>, m: Message)
    requires codec.Valid() && MessageFits(codec, m) && MessageBytes(codec, m) <= b
    ensures ParseMessage(codec, b) == MessageOk(m)
  {
    DecodesEncoded(m.view, 8);
    DecodesEncoded(m.seqno, 8);
    DecodesEncoded(m.sender, 4);
    var st, sender, point := StatementBytes(m.Signed()), BigEndian(m.sender, 4), codec.compress(m.signature);
    var rest := b[101..];
    assert |MessageBytes(codec, m)| == 101 && b == st + sender + point + rest + [];
    hide BigEndian, FromBigEndian, MessageBytes;
    Pieces(st, sender, point, rest, []);
    StatementParts(m.Signed());
    hide StatementBytes;
    assert b[1..9] == b[..49][1..9] && b[9..17] == b[..49][9..17] && b[17..49] == b[..49][17..];
  }
}
