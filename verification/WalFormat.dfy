/** The bytes of the write-ahead log: fixed records of 101 bytes, no header, no checksum. */
module WalFormat {
  import opened Base
  import opened Bytes
  import opened Protocol
  import opened Recovery

  const RECORD_LEN: nat := 101

  /** Compressed G1 points: a canonical 48-byte encoding of the points of the group. */
  datatype PointCodec = PointCodec(
    isPoint: Sig -> bool,
    compress: Sig -> seq<Byte>,
    decompress: seq<Byte> -> Option<Sig>)
  {
    ghost predicate Valid() {
      && (forall p: Sig :: isPoint(p) ==> |compress(p)| == 48 && decompress(compress(p)) == Some(p))
      && (forall b: seq<Byte> :: |b| == 48 && decompress(b).Some? ==>
            isPoint(decompress(b).value) && compress(decompress(b).value) == b)
    }
  }

  /** A row whose fields fit the fixed widths of the record. */
  predicate Storable(codec: PointCodec, rec: Record) {
    && rec.view < Pow256(8) && rec.seqno < Pow256(8) && rec.phase < 256 && rec.sender < Pow256(4)
    && |rec.digest.bytes| == 32
    && codec.isPoint(rec.signature)
  }

  function Encode(codec: PointCodec, rec: Record): seq<Byte>
    requires Storable(codec, rec)
  {
    BigEndian(rec.view, 8) + BigEndian(rec.seqno, 8) + [rec.phase] + BigEndian(rec.sender, 4)
      + rec.digest.bytes + codec.compress(rec.signature)
  }

  function SeqnoIn(buf: seq<Byte>): nat
    requires |buf| == RECORD_LEN
  {
    FromBigEndian(buf[8..16])
  }

  function Decode(codec: PointCodec, buf: seq<Byte>): Option<Record>
    requires |buf| == RECORD_LEN
  {
    match codec.decompress(buf[53..101])
    case None => None
    case Some(point) =>
      Some(Record(FromBigEndian(buf[0..8]), SeqnoIn(buf), buf[16], FromBigEndian(buf[17..21]),
                  Digest(buf[21..53]), point))
  }

  lemma EncodeParts(codec: PointCodec, rec: Record)
    requires codec.Valid() && Storable(codec, rec)
    ensures var b := Encode(codec, rec);
      && |b| == RECORD_LEN
      && b[0..8] == BigEndian(rec.view, 8) && b[8..16] == BigEndian(rec.seqno, 8) && b[16] == rec.phase
      && b[17..21] == BigEndian(rec.sender, 4) && b[21..53] == rec.digest.bytes
      && b[53..101] == codec.compress(rec.signature)
  {
  }

  /** A written record reads back as itself. */
  lemma DecodesWritten(codec: PointCodec, rec: Record)
    requires codec.Valid() && Storable(codec, rec)
    ensures |Encode(codec, rec)| == RECORD_LEN
    ensures Decode(codec, Encode(codec, rec)) == Some(rec)
    ensures SeqnoIn(Encode(codec, rec)) == rec.seqno
  {
    EncodeParts(codec, rec);
    DecodesEncoded(rec.view, 8);
    DecodesEncoded(rec.seqno, 8);
    DecodesEncoded(rec.sender, 4);
  }

  /** Whatever reads as a record is exactly what writing that record would have produced. */
  lemma WritesDecoded(codec: PointCodec, buf: seq<Byte>)
    requires codec.Valid() && |buf| == RECORD_LEN && Decode(codec, buf).Some?
    ensures Storable(codec, Decode(codec, buf).value)
    ensures Encode(codec, Decode(codec, buf).value) == buf
  {
    var rec := Decode(codec, buf).value;
    EncodesDecoded(buf[0..8]);
    EncodesDecoded(buf[8..16]);
    EncodesDecoded(buf[17..21]);
    assert |buf[53..101]| == 48;
    EncodeParts(codec, rec);
    assert buf == buf[0..8] + buf[8..16] + [buf[16]] + buf[17..21] + buf[21..53] + buf[53..101];
  }

  // -------------------------------------------------------------------- whole files

  ghost predicate AllStorable(codec: PointCodec, log: Log) {
    forall rec :: rec in log ==> Storable(codec, rec)
  }

  ghost function EncodeLog(codec: PointCodec, log: Log): seq<Byte>
    requires AllStorable(codec, log)
  {
    if |log| == 0 then [] else Encode(codec, log[0]) + EncodeLog(codec, log[1..])
  }

  /** `replay_log`: the rows of the file, or none if it ends in part of a record or holds an invalid point. */
  ghost function DecodeLog(codec: PointCodec, file: seq<Byte>): Option<Log>
    decreases |file|
  {
    if |file| == 0 then Some([])
    else if |file| < RECORD_LEN then None
    else
      match Decode(codec, file[..RECORD_LEN])
      case None => None
      case Some(rec) =>
        match DecodeLog(codec, file[RECORD_LEN..])
        case None => None
        case Some(rest) => Some([rec] + rest)
  }

  /** `prune_before`: keep the raw records at or above the floor; none on a torn file. */
  ghost function PruneFile(file: seq<Byte>, floor: nat): Option<seq<Byte>>
    decreases |file|
  {
    if |file| == 0 then Some([])
    else if |file| < RECORD_LEN then None
    else
      match PruneFile(file[RECORD_LEN..], floor)
      case None => None
      case Some(rest) => Some((if SeqnoIn(file[..RECORD_LEN]) >= floor then file[..RECORD_LEN] else []) + rest)
  }

  /** A file that starts with a whole record. */
  lemma FirstRecord(codec: PointCodec, rec: Record, rest: seq<Byte>, floor: nat)
    requires codec.Valid() && Storable(codec, rec)
    ensures DecodeLog(codec, Encode(codec, rec) + rest) ==
      match DecodeLog(codec, rest)
      case None => None
      case Some(more) => Some([rec] + more)
    ensures PruneFile(Encode(codec, rec) + rest, floor) ==
      match PruneFile(rest, floor)
      case None => None
      case Some(more) => Some((if rec.seqno >= floor then Encode(codec, rec) else []) + more)
  {
    DecodesWritten(codec, rec);
    var head := Encode(codec, rec);
    hide Encode, Decode, SeqnoIn;
    var file := head + rest;
    assert file[..RECORD_LEN] == head && file[RECORD_LEN..] == rest;
  }

  lemma EncodeLogFirst(codec: PointCodec, rec: Record, log: Log)
    requires Storable(codec, rec) && AllStorable(codec, log)
    ensures AllStorable(codec, [rec] + log)
    ensures EncodeLog(codec, [rec] + log) == Encode(codec, rec) + EncodeLog(codec, log)
  {
    hide Encode, Storable;
    assert ([rec] + log)[1..] == log;
  }

  lemma {:induction false} ReplaysWritten(codec: PointCodec, log: Log, rest: seq<Byte>)
    requires codec.Valid() && AllStorable(codec, log)
    ensures DecodeLog(codec, EncodeLog(codec, log) + rest) ==
      match DecodeLog(codec, rest)
      case None => None
      case Some(more) => Some(log + more)
  {
    hide Encode, Decode, Storable, DecodeLog;
    if |log| == 0 {
      assert EncodeLog(codec, log) + rest == rest;
      if DecodeLog(codec, rest).Some? {
        assert log + DecodeLog(codec, rest).value == DecodeLog(codec, rest).value;
      }
    } else {
      var head := Encode(codec, log[0]);
      FirstRecord(codec, log[0], EncodeLog(codec, log[1..]) + rest, 0);
      ReplaysWritten(codec, log[1..], rest);
      assert EncodeLog(codec, log) + rest == head + (EncodeLog(codec, log[1..]) + rest);
      if DecodeLog(codec, rest).Some? {
        assert [log[0]] + (log[1..] + DecodeLog(codec, rest).value) == log + DecodeLog(codec, rest).value;
      }
    }
  }

  /** The rows a file replays to determine its bytes. */
  lemma {:induction false} WritesReplayed(codec: PointCodec, file: seq<Byte>)
    requires codec.Valid() && DecodeLog(codec, file).Some?
    ensures AllStorable(codec, DecodeLog(codec, file).value)
    ensures EncodeLog(codec, DecodeLog(codec, file).value) == file
    decreases |file|
  {
    if |file| > 0 {
      WritesDecoded(codec, file[..RECORD_LEN]);
      WritesReplayed(codec, file[RECORD_LEN..]);
      var log := DecodeLog(codec, file).value;
      assert log[1..] == DecodeLog(codec, file[RECORD_LEN..]).value;
      assert file == file[..RECORD_LEN] + file[RECORD_LEN..];
    }
  }

  /** The log written so far replays to exactly its rows, in order. */
  lemma LogRoundTrip(codec: PointCodec, log: Log)
    requires codec.Valid() && AllStorable(codec, log)
    ensures DecodeLog(codec, EncodeLog(codec, log)) == Some(log)
  {
    ReplaysWritten(codec, log, []);
    assert EncodeLog(codec, log) + [] == EncodeLog(codec, log);
    assert log + [] == log;
  }

  /** A record cut short anywhere makes the whole file unreadable. */
  lemma TornRefused(codec: PointCodec, log: Log, torn: seq<Byte>)
    requires codec.Valid() && AllStorable(codec, log) && 0 < |torn| < RECORD_LEN
    ensures DecodeLog(codec, EncodeLog(codec, log) + torn) == None
  {
    ReplaysWritten(codec, log, torn);
  }

  lemma {:induction false} EncodeLogAppend(codec: PointCodec, log: Log, rec: Record)
    requires AllStorable(codec, log) && Storable(codec, rec)
    ensures AllStorable(codec, log + [rec])
    ensures EncodeLog(codec, log + [rec]) == EncodeLog(codec, log) + Encode(codec, rec)
  {
    if |log| == 0 {
      assert log + [rec] == [rec] && [rec][1..] == [];
    } else {
      EncodeLogAppend(codec, log[1..], rec);
      assert (log + [rec])[1..] == log[1..] + [rec];
    }
  }

  /** `Prune` of a log read from the front. */
  lemma {:induction false} PruneFront(log: Log, floor: nat)
    requires |log| > 0
    ensures Prune(log, floor) == (if log[0].seqno >= floor then [log[0]] else []) + Prune(log[1..], floor)
  {
    if |log| > 1 {
      var init := log[..|log| - 1];
      PruneFront(init, floor);
      assert init[1..] == log[1..][..|log[1..]| - 1];
      assert log[1..][|log[1..]| - 1] == log[|log| - 1];
    }
  }

  /** Pruning the bytes of a written log is pruning its rows. */
  lemma {:induction false} PrunesRows(codec: PointCodec, log: Log, floor: nat)
    requires codec.Valid() && AllStorable(codec, log)
    ensures AllStorable(codec, Prune(log, floor))
    ensures PruneFile(EncodeLog(codec, log), floor) == Some(EncodeLog(codec, Prune(log, floor)))
  {
    if |log| > 0 {
      hide Encode, Storable, PruneFile;
      PrunesRows(codec, log[1..], floor);
      PruneFront(log, floor);
      FirstRecord(codec, log[0], EncodeLog(codec, log[1..]), floor);
      EncodeLogFirst(codec, log[0], Prune(log[1..], floor));
      assert [] + Prune(log[1..], floor) == Prune(log[1..], floor);
      assert [] + EncodeLog(codec, Prune(log[1..], floor)) == EncodeLog(codec, Prune(log[1..], floor));
    }
  }

  /** Pruning any readable file leaves a readable file, with exactly the rows at or above the floor. */
  lemma PrunedFileReplays(codec: PointCodec, file: seq<Byte>, floor: nat)
    requires codec.Valid() && DecodeLog(codec, file).Some?
    ensures PruneFile(file, floor).Some?
    ensures DecodeLog(codec, PruneFile(file, floor).value) == Some(Prune(DecodeLog(codec, file).value, floor))
  {
    hide Encode, Storable;
    WritesReplayed(codec, file);
    PrunesRows(codec, DecodeLog(codec, file).value, floor);
    LogRoundTrip(codec, Prune(DecodeLog(codec, file).value, floor));
  }
}
