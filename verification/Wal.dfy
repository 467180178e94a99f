/** `WriteAheadLog`: appends, the short-read loop of replay, and the rewriting prune. */
module Wal {
  import opened Base
  import opened Protocol
  import opened Recovery
  import opened WalFormat

  /** What the operating system answers to one `read`. */
  datatype ReadEvent = Interrupted | AtMost(limit: nat) | Broken

  datatype ReadResult = Got(n: nat) | Retry | Failed

  /** How one `append_entry` can fail: after a prefix of the record, or only at the sync. */
  datatype AppendFault = AppendGood | StopsAfter(written: nat) | SyncFails

  datatype PruneFault = PruneGood | BeforeRename | AfterRename

  datatype FillStatus = Filled | AtEnd | Truncated | ReadError

  /** What of a record reaches the file. */
  function Written(codec: PointCodec, rec: Record, fault: AppendFault): seq<Byte>
    requires Storable(codec, rec)
  {
    var buf := Encode(codec, rec);
    match fault
    case StopsAfter(n) => if n < |buf| then buf[..n] else buf
    case _ => buf
  }

  lemma WrittenIsPrefix(codec: PointCodec, rec: Record, fault: AppendFault) returns (n: nat)
    requires codec.Valid() && Storable(codec, rec)
    ensures n <= RECORD_LEN == |Encode(codec, rec)| && Written(codec, rec, fault) == Encode(codec, rec)[..n]
    ensures fault == AppendGood ==> n == RECORD_LEN
  {
    EncodeParts(codec, rec);
    n := match fault case StopsAfter(w) => if w < RECORD_LEN then w else RECORD_LEN case _ => RECORD_LEN;
  }

  /** What a log reads as after an append, by how much of the record was written. */
  lemma AppendReads(codec: PointCodec, disk: seq<Byte>, rec: Record, fault: AppendFault)
    requires codec.Valid() && Storable(codec, rec)
    ensures DecodeLog(codec, disk).Some? ==>
      var (rows, written) := (DecodeLog(codec, disk).value, Written(codec, rec, fault));
      DecodeLog(codec, disk + written) ==
        if |written| == 0 then Some(rows) else if |written| < RECORD_LEN then None else Some(rows + [rec])
  {
    hide Decode, Storable, PointCodec.Valid, Written;
    var n := WrittenIsPrefix(codec, rec, fault);
    hide Encode;
    if DecodeLog(codec, disk).Some? {
      var rows := DecodeLog(codec, disk).value;
      WritesReplayed(codec, disk);
      hide DecodeLog, EncodeLog;
      if n == 0 {
        assert disk + [] == disk;
      } else if n < RECORD_LEN {
        TornRefused(codec, rows, Encode(codec, rec)[..n]);
      } else {
        assert Encode(codec, rec)[..n] == Encode(codec, rec);
        EncodeLogAppend(codec, rows, rec);
        LogRoundTrip(codec, rows + [rec]);
      }
    }
  }

  predicate Healthy(schedule: seq<ReadEvent>) {
    Broken !in schedule
  }

  /** An open file, and the schedule of short reads and interrupts it will answer with. */
  class FileReader {
    const file: seq<Byte>
    var pos: nat
    var schedule: seq<ReadEvent>

    ghost predicate Valid()
      reads this
    {
      pos <= |file|
    }

    constructor (file: seq<Byte>, schedule: seq<ReadEvent>)
      ensures Valid() && this.file == file && pos == 0 && this.schedule == schedule
    {
      this.file := file;
      this.schedule := schedule;
      pos := 0;
    }

    /** One `read` into `buf[from..]`: some bytes, none only at the end of the file, or an error. */
    method Read(buf: array<Byte>, from: nat) returns (r: ReadResult)
      requires Valid() && from < buf.Length
      modifies this`pos, this`schedule, buf
      ensures Valid()
      ensures r.Got? ==>
        && pos == old(pos) + r.n && from + r.n <= buf.Length
        && (r.n == 0 <==> old(pos) == |file|)
        && buf[..] == old(buf[..from]) + file[old(pos)..pos] + old(buf[from + r.n..])
        && |schedule| <= |old(schedule)|
      ensures !r.Got? ==> pos == old(pos) && buf[..] == old(buf[..]) && |schedule| < |old(schedule)|
      ensures Healthy(old(schedule)) ==> Healthy(schedule) && r != Failed
    {
      var room := buf.Length - from;
      var n := if |file| - pos < room then |file| - pos else room;
      if |schedule| > 0 {
        var event := schedule[0];
        schedule := schedule[1..];
        match event {
          case Interrupted => return Retry;
          case Broken => return Failed;
          case AtMost(limit) => n := if limit + 1 < n then limit + 1 else n;
        }
      }
      ghost var before := buf[..];
      forall i | 0 <= i < n {
        buf[from + i] := file[pos + i];
      }
      pos := pos + n;
      r := Got(n);
      assert buf[..] == before[..from] + file[pos - n..pos] + before[from + n..];
    }

    /** The inner loop: fill the whole buffer, whatever the short reads and interrupts. */
    method Fill(buf: array<Byte>) returns (status: FillStatus)
      requires Valid() && buf.Length == RECORD_LEN
      modifies this`pos, this`schedule, buf
      ensures Valid() && old(pos) <= pos
      ensures status == Filled ==> pos == old(pos) + RECORD_LEN && buf[..] == file[old(pos)..pos]
      ensures status == AtEnd ==> old(pos) == |file| == pos
      ensures status == Truncated ==> 0 < |file| - old(pos) < RECORD_LEN
      ensures Healthy(old(schedule)) ==> Healthy(schedule) && status != ReadError
    {
      var read := 0;
      ghost var start := pos;
      while read < buf.Length
        invariant Valid() && read <= buf.Length && pos == start + read
        invariant buf[..read] == file[start..pos]
        invariant Healthy(old(schedule)) ==> Healthy(schedule)
        decreases |schedule| + (buf.Length - read)
      {
        var r := Read(buf, read);
        match r {
          case Got(n) =>
            if n == 0 {
              return if read == 0 then AtEnd else Truncated;
            }
            assert buf[..read + n] == file[start..pos];
            read := read + n;
          case Retry =>
          case Failed => return ReadError;
        }
      }
      assert buf[..] == buf[..read];
      status := Filled;
    }
  }

  class WriteAheadLog {
    const codec: PointCodec
    /** The bytes of the file at the log's path. */
    var disk: seq<Byte>

    constructor (codec: PointCodec, disk: seq<Byte>)
      ensures this.codec == codec && this.disk == disk
    {
      this.codec := codec;
      this.disk := disk;
    }

    /**
     `append_entry`. Success means the whole record is on disk; a failure may have left any part
     of it. Whoever reads a readable log afterwards finds the row behind its rows after a success;
     after a failure, the old rows, the row as well, or a log that cannot be read.
     */
    method AppendEntry(rec: Record, fault: AppendFault) returns (ok: bool)
      requires codec.Valid() && Storable(codec, rec)
      modifies this`disk
      ensures ok <==> fault == AppendGood
      ensures disk == old(disk) + Written(codec, rec, fault)
      ensures ok ==> disk == old(disk) + Encode(codec, rec)
      ensures !ok ==> exists n :: 0 <= n <= RECORD_LEN && disk == old(disk) + Encode(codec, rec)[..n]
      ensures DecodeLog(codec, old(disk)).Some? ==>
        var rows := DecodeLog(codec, old(disk)).value;
        && (ok ==> DecodeLog(codec, disk) == Some(rows + [rec]))
        && (!ok ==> DecodeLog(codec, disk) in {Some(rows), Some(rows + [rec]), None})
    {
      AppendReads(codec, disk, rec, fault);
      ghost var n := WrittenIsPrefix(codec, rec, fault);
      hide DecodeLog, Encode;
      disk := disk + Written(codec, rec, fault);
      ok := fault == AppendGood;
    }

    /** `replay_log`: the rows handed to the closure, for any schedule of short reads. */
    method ReplayLog(schedule: seq<ReadEvent>) returns (rows: Option<Log>)
      ensures rows.Some? ==> rows == DecodeLog(codec, disk)
      ensures Healthy(schedule) ==> rows == DecodeLog(codec, disk)
    {
      hide Decode;
      var reader := new FileReader(disk, schedule);
      var buf := new Byte[RECORD_LEN];
      var handed: Log := [];
      assert disk[0..] == disk;
      assert DecodeLog(codec, disk).Some? ==> handed + DecodeLog(codec, disk).value == DecodeLog(codec, disk).value;
      while true
        invariant reader.Valid() && fresh(reader) && fresh(buf) && reader.file == disk
        invariant Healthy(schedule) ==> Healthy(reader.schedule)
        invariant DecodeLog(codec, disk) ==
          match DecodeLog(codec, disk[reader.pos..])
          case None => None
          case Some(more) => Some(handed + more)
        decreases |disk| - reader.pos
      {
        ghost var start := reader.pos;
        var status := reader.Fill(buf);
        match status {
          case AtEnd =>
            assert handed + [] == handed;
            return Some(handed);
          case Truncated => return None;
          case ReadError => return None;
          case Filled =>
            assert disk[start..][..RECORD_LEN] == buf[..] && disk[start..][RECORD_LEN..] == disk[reader.pos..];
            var rec := Decode(codec, buf[..]);
            match rec {
              case None => return None;
              case Some(row) =>
                ghost var rest := DecodeLog(codec, disk[reader.pos..]);
                assert rest.Some? ==> handed + ([row] + rest.value) == (handed + [row]) + rest.value;
                handed := handed + [row];
            }
        }
      }
    }

    /** `prune_before`: rewrite the records at or above `minSeq`, then replace the file. */
    method PruneBefore(minSeq: nat, schedule: seq<ReadEvent>, fault: PruneFault) returns (ok: bool)
      modifies this`disk
      ensures disk == old(disk) || Some(disk) == PruneFile(old(disk), minSeq)
      ensures ok ==> fault == PruneGood && Some(disk) == PruneFile(old(disk), minSeq)
      ensures Healthy(schedule) && PruneFile(old(disk), minSeq).Some? ==>
        && (ok <==> fault == PruneGood)
        && (fault == BeforeRename ==> disk == old(disk))
        && (fault != BeforeRename ==> Some(disk) == PruneFile(old(disk), minSeq))
    {
      hide SeqnoIn;
      var reader := new FileReader(disk, schedule);
      var buf := new Byte[RECORD_LEN];
      var temp: seq<Byte> := [];
      assert disk[0..] == disk;
      assert PruneFile(disk, minSeq).Some? ==> temp + PruneFile(disk, minSeq).value == PruneFile(disk, minSeq).value;
      var reading := true;
      while reading
        invariant reader.Valid() && fresh(reader) && fresh(buf) && reader.file == disk == old(disk)
        invariant Healthy(schedule) ==> Healthy(reader.schedule)
        invariant PruneFile(disk, minSeq) ==
          match PruneFile(disk[reader.pos..], minSeq)
          case None => None
          case Some(more) => Some(temp + more)
        invariant !reading ==> reader.pos == |disk|
        decreases |disk| - reader.pos, reading
      {
        ghost var start := reader.pos;
        var status := reader.Fill(buf);
        match status {
          case AtEnd => reading := false;
          case Truncated => return false;
          case ReadError => return false;
          case Filled =>
            assert disk[start..][..RECORD_LEN] == buf[..] && disk[start..][RECORD_LEN..] == disk[reader.pos..];
            var kept := if SeqnoIn(buf[..]) >= minSeq then buf[..] else [];
            ghost var rest := PruneFile(disk[reader.pos..], minSeq);
            assert rest.Some? ==> temp + (kept + rest.value) == (temp + kept) + rest.value;
            temp := temp + kept;
        }
      }
      assert temp + [] == temp;
      if fault == BeforeRename {
        return false;
      }
      disk := temp;
      ok := fault == PruneGood;
    }
  }
}
