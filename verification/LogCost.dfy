/** What rotations cost a run of records, and how large they let the active file grow. */
module LogCost {
  import opened LogFile

  ghost function Offered(run: seq<Call>): nat {
    if run == [] then 0 else Offered(run[..|run| - 1]) + |run[|run| - 1].buf|
  }

  lemma MadeRoomCounts(log: Log, buf: Record, f: Faults)
    requires log.Valid()
    ensures var r := MadeRoom(log, buf, f);
            && r.maxBytes == log.maxBytes && r.keep == log.keep
            && (!IsDue(log, buf) ==> r == log)
            && (IsDue(log, buf) ==> r.attempts == log.attempts + 1)
            && (IsDue(log, buf) ==>
                  || (r.written == 0 && r.rotateAt == log.maxBytes)
                  || (r.written == log.written && r.rotateAt == SaturatingAdd(log.written, log.maxBytes)))
  {
  }

  lemma AppendedCounts(log: Log, buf: Record, sync: bool, f: Faults)
    requires log.Valid()
    ensures var r := Appended(log, buf, sync, f).0;
            && r.maxBytes == log.maxBytes && r.keep == log.keep
            && r.attempts == log.attempts && r.rotateAt == log.rotateAt
            && (r.written == log.written || r.written == log.written + |buf|)
  {
  }

  /** The state of one budget: it started at `start` bytes, and the next attempt is a budget away. */
  ghost predicate InBudget(log: Log, start: nat) {
    start <= log.written && log.rotateAt == SaturatingAdd(start, log.maxBytes)
  }

  /** One record either stays within its budget, or pays for the attempt with it. */
  lemma RecordPays(log: Log, c: Call, start: nat) returns (next: nat)
    requires log.Valid() && InBudget(log, start)
    requires log.written + |c.buf| <= U64_MAX && log.maxBytes <= U64_MAX
    ensures var r := Recorded(log, c.buf, c.sync, c.faults).0;
            && r.maxBytes == log.maxBytes
            && r.written <= log.written + |c.buf|
            && InBudget(r, next)
            && log.attempts <= r.attempts <= log.attempts + 1
            && (if r.attempts == log.attempts then 0 else log.maxBytes) + (r.written - next)
               <= 2 * |c.buf| + (log.written - start)
  {
    var room := MadeRoom(log, c.buf, c.faults);
    MadeRoomCounts(log, c.buf, c.faults);
    AppendedCounts(room, c.buf, c.sync, c.faults);
    next := if !IsDue(log, c.buf) then start else room.written;
  }

  /**
    Rotations are paid for: however many of them fail, their attempts times the
    budget never exceed twice the bytes the log started with and was offered.
   */
  lemma {:induction false} RotationsAreAmortised(log: Log, run: seq<Call>) returns (start: nat)
    requires log.Valid() && log.attempts == 0 && log.rotateAt == log.maxBytes
    requires log.maxBytes <= U64_MAX && log.written + Offered(run) <= U64_MAX
    ensures After(log, run).attempts * log.maxBytes <= 2 * (log.written + Offered(run))
    ensures After(log, run).maxBytes == log.maxBytes
    ensures After(log, run).written <= log.written + Offered(run)
    ensures InBudget(After(log, run), start)
    ensures After(log, run).attempts * log.maxBytes + (After(log, run).written - start)
            <= 2 * (log.written + Offered(run))
  {
    if run == [] {
      start := 0;
    } else {
      var before, c := run[..|run| - 1], run[|run| - 1];
      start := RotationsAreAmortised(log, before);
      var mid := After(log, before);
      start := RecordPays(mid, c, start);
      assert (mid.attempts + 1) * log.maxBytes == mid.attempts * log.maxBytes + log.maxBytes;
    }
  }

  /** Rotating starts the count again with the new file, or leaves both. */
  lemma RoomKeepsTheCount(log: Log, buf: Record, f: Faults)
    requires log.Valid() && log.written == Size(log.disk.files[log.handle].records)
    ensures var room := MadeRoom(log, buf, f);
            room.written == Size(room.disk.files[room.handle].records)
  {
  }

  /**
    The count stays the size of the open file, rotations that fail included, exactly
    unless a write stops part of the way: what it left behind is not counted.
   */
  lemma SizeIsCountedUnlessTorn(log: Log, c: Call)
    requires log.Valid() && log.written == Size(log.disk.files[log.handle].records)
    ensures var r := Recorded(log, c.buf, c.sync, c.faults).0;
            r.written == Size(r.disk.files[r.handle].records) <==>
            Piece(c.buf, c.faults) == c.buf || Piece(c.buf, c.faults) == ""
  {
    RoomKeepsTheCount(log, c.buf, c.faults);
    var room := MadeRoom(log, c.buf, c.faults);
    GrownSize(room.disk.files[room.handle].records, Piece(c.buf, c.faults));
  }

  lemma GrownSize(records: seq<Record>, r: Record)
    ensures Size(records + [r]) == Size(records) + |r|
  {
    assert (records + [r])[..|records|] == records;
  }

  /** The log is as it opens, or as an untroubled record leaves it: its next rotation will work. */
  ghost predicate IsUntroubled(log: Log) {
    && log.rotateAt == log.maxBytes && (log.keep == 0 || 0 in log.disk.names)
    && log.handle in log.disk.files && log.written == Size(log.disk.files[log.handle].records)
  }

  /** The open file is within the budget, or its last record alone is all of it. */
  ghost predicate IsCapped(log: Log) {
    && log.handle in log.disk.files
    && var records := log.disk.files[log.handle].records;
       records != [] && (Size(records) <= log.maxBytes || Size(records) == |records[|records| - 1]|)
  }

  lemma {:induction false} UntroubledShift(disk: Disk, n: nat)
    ensures Shifted(disk, n, NO_FAULTS).1
    ensures 0 in Shifted(disk, n, NO_FAULTS).0.names <==> 0 in disk.names
    decreases n
  {
    if n > 0 {
      UntroubledShift(if n in disk.names then Renamed(disk, n, n + 1) else disk, n - 1);
    }
  }

  lemma UntroubledGenerations(log: Log)
    requires log.Valid() && log.keep > 0 && 0 in log.disk.names
    ensures var (r, ok) := RotatedGenerations(log, NO_FAULTS);
            && ok && r.written == 0 && 0 in r.disk.names && r.keep == log.keep && r.maxBytes == log.maxBytes
            && r.disk.files[r.handle].records == []
  {
    UntroubledShift(Removed(log.disk, log.keep), log.keep - 1);
  }

  lemma UntroubledRotation(log: Log)
    requires log.Valid() && (log.keep == 0 || 0 in log.disk.names)
    ensures var (r, ok) := Rotated(log, NO_FAULTS);
            && ok && r.written == 0 && 0 in r.disk.names && r.keep == log.keep && r.maxBytes == log.maxBytes
            && r.disk.files[r.handle].records == []
  {
    if log.keep > 0 {
      UntroubledGenerations(log.(disk := Synced(log.disk, log.handle)));
    }
  }

  /** While nothing goes wrong, every record leaves the active file within its budget, or alone in it. */
  lemma UntroubledRecord(log: Log, c: Call)
    requires log.Valid() && IsUntroubled(log) && c.faults == NO_FAULTS
    ensures var r := Recorded(log, c.buf, c.sync, c.faults).0;
            && IsUntroubled(r) && IsCapped(r) && r.maxBytes == log.maxBytes
  {
    RoomForARecord(log, c.buf);
    var room := MadeRoom(log, c.buf, NO_FAULTS);
    GrownSize(room.disk.files[room.handle].records, c.buf);
  }

  lemma RoomForARecord(log: Log, buf: Record)
    requires log.Valid() && IsUntroubled(log)
    ensures var room := MadeRoom(log, buf, NO_FAULTS);
            && IsUntroubled(room) && room.maxBytes == log.maxBytes
            && (room.written == 0 || room.written + |buf| <= room.maxBytes)
  {
    UntroubledRotation(Attempted(log));
  }

  /**
    Over a whole run in which nothing goes wrong, the active file is within the
    budget after every record, or holds that record alone, however large the file
    was that the log was opened on.
   */
  lemma {:induction false} ActiveFileIsCapped(log: Log, run: seq<Call>)
    requires log.Valid() && IsUntroubled(log)
    requires forall i | 0 <= i < |run| :: run[i].faults == NO_FAULTS
    ensures IsUntroubled(After(log, run)) && After(log, run).maxBytes == log.maxBytes
    ensures run != [] ==> IsCapped(After(log, run))
  {
    if run != [] {
      ActiveFileIsCapped(log, run[..|run| - 1]);
      UntroubledRecord(After(log, run[..|run| - 1]), run[|run| - 1]);
    }
  }

  lemma StartsUntroubled(disk: Disk, nextId: FileId, maxBytes: nat, keep: nat)
    requires IsSound(disk, nextId)
    ensures IsUntroubled(Start(disk, nextId, maxBytes, keep))
  {
  }
}
