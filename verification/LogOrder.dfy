/**
  The order of the log over single records and whole runs: what the files hold is
  the end of what was written, and exactly when it is not.
 */
module LogOrder {
  import opened LogFile
  import opened LogRotation

  // ---------------------------------------------------------------------------
  // One record
  // ---------------------------------------------------------------------------

  predicate Loses(log: Log, c: Call) {
    IsDue(log, c.buf) && LetsGo(log, c.faults)
  }

  /**
    The record makes the log rotate, and the rotation skips: a generation that is
    there is missed, the next newer file is renamed over it, and an older one stays.
   */
  ghost predicate Skips(log: Log, c: Call) {
    IsDue(log, c.buf) && RotationSkips(log, c.faults)
  }

  /** The newest record is there, and whole unless the write itself was torn. */
  ghost predicate EndsWithNewest(records: seq<Record>, c: Call) {
    && records != []
    && records[|records| - 1] == Piece(c.buf, c.faults)
    && (c.faults.torn.None? ==> records[|records| - 1] == c.buf)
  }

  /** No name the log is read by is left. */
  ghost predicate IsLost(log: Log) {
    log.keep > 0 && forall m: nat | m <= log.keep :: m !in log.disk.names
  }

  lemma {:induction false} NothingToShift(disk: Disk, n: nat)
    requires forall m: nat | m <= n :: m !in disk.names
    ensures forall f :: Shifted(disk, n, f) == (disk, true)
  {
    if n > 0 {
      NothingToShift(disk, n - 1);
    }
  }

  lemma LostStaysLost(log: Log, f: Faults)
    requires log.Valid() && IsLost(log)
    ensures Rotated(log, f).0.keep == log.keep && IsLost(Rotated(log, f).0)
  {
    var purged := Purged(log, f);
    assert Synced(log.disk, log.handle).names == log.disk.names;
    NothingToShift(Purged(log.(disk := Synced(log.disk, log.handle)), f), log.keep - 1);
  }

  /** Letting go leaves nothing to read: the open file was the last with a name. */
  lemma LettingGoLoses(log: Log, f: Faults, h: nat)
    requires log.Valid() && OpenAt(log, h) && LetsGo(log, f)
    ensures Rotated(log, f).0.keep == log.keep && IsLost(Rotated(log, f).0)
  {
    assert h == log.keep;
    NothingToShift(Removed(Synced(log.disk, log.handle), log.keep), log.keep - 1);
  }

  lemma LostRoomReadsNothing(log: Log, c: Call)
    requires log.Valid() && IsLost(MadeRoom(log, c.buf, c.faults)) && MadeRoom(log, c.buf, c.faults).keep == log.keep
    ensures var r := Recorded(log, c.buf, c.sync, c.faults).0;
            IsLost(r) && r.keep == log.keep && !IsNamed(r) && Reading(r.disk, r.keep) == []
  {
    NothingBelow(Recorded(log, c.buf, c.sync, c.faults).0.disk, log.keep);
  }

  /** A log that is lost stays lost: with no active file to rename, no rotation gets as far as making one. */
  lemma LostForGood(log: Log, c: Call)
    requires log.Valid() && IsLost(log)
    ensures var r := Recorded(log, c.buf, c.sync, c.faults).0;
            IsLost(r) && r.keep == log.keep && !IsNamed(r) && Reading(r.disk, r.keep) == []
  {
    RoomIsRotated(log, c);
    LostStaysLost(Attempted(log), c.faults);
    LostRoomReadsNothing(log, c);
  }

  lemma {:induction false} GrownReads(log: Log, h: nat, r: Record, n: nat)
    requires log.Valid() && OpenAt(log, h) && h <= n
    ensures Reading(Grown(log.disk, log.handle, r), n) == Reading(log.disk, n) + [r]
  {
    var grown := Grown(log.disk, log.handle, r);
    if n == h {
      if n > 0 {
        NothingBelow(grown, h - 1);
        NothingBelow(log.disk, h - 1);
      }
    } else {
      GrownReads(log, h, r, n - 1);
      assert Held(grown, n) == Held(log.disk, n);
    }
  }

  lemma AppendedReads(log: Log, c: Call, h: nat)
    requires log.Valid() && OpenAt(log, h)
    ensures var r := Appended(log, c.buf, c.sync, c.faults).0;
            && r.keep == log.keep && OpenAt(r, h) && r.disk.names == log.disk.names
            && Reading(r.disk, log.keep) == Reading(log.disk, log.keep) + [Piece(c.buf, c.faults)]
  {
    GrownReads(log, h, Piece(c.buf, c.faults), log.keep);
    SameBelow(Appended(log, c.buf, c.sync, c.faults).0.disk,
              Grown(log.disk, log.handle, Piece(c.buf, c.faults)), log.keep);
  }

  lemma SameNamesAfter(d: Disk, r: Disk, s: Disk, keep: nat)
    requires r.names == s.names
    ensures Gap(d, r, keep) ==> Gap(d, s, keep)
  {
    assert forall id: FileId :: IsRead(r, id, keep) <==> IsRead(s, id, keep);
  }

  lemma RoomPlace(log: Log, c: Call, h: nat) returns (h': nat)
    requires log.Valid() && OpenAt(log, h) && !Loses(log, c)
    ensures OpenAt(MadeRoom(log, c.buf, c.faults), h') && MadeRoom(log, c.buf, c.faults).keep == log.keep
    ensures h == 0 && !c.faults.reopenFails ==> h' == 0
  {
    RoomIsRotated(log, c);
    h' := h;
    if IsDue(log, c.buf) {
      h' := RotatedPlace(Attempted(log), c.faults, h);
    }
  }

  lemma RoomGap(log: Log, c: Call)
    requires log.Valid()
    ensures Gap(log.disk, MadeRoom(log, c.buf, c.faults).disk, log.keep) <==> Skips(log, c)
  {
    RoomIsRotated(log, c);
    if IsDue(log, c.buf) {
      RotatedGap(Attempted(log), c.faults);
      assert Skips(log, c) <==> RotationSkips(Attempted(log), c.faults);
    } else {
      NoGap(log.disk, log.keep);
    }
  }

  lemma RoomReads(log: Log, c: Call)
    requires log.Valid() && !Skips(log, c)
    ensures IsSuffix(Reading(MadeRoom(log, c.buf, c.faults).disk, log.keep), Reading(log.disk, log.keep))
  {
    RoomIsRotated(log, c);
    if IsDue(log, c.buf) {
      RotatedReads(Attempted(log), c.faults);
    } else {
      TailIsSuffix([], Reading(log.disk, log.keep));
    }
  }

  lemma RecordInPlace(log: Log, c: Call, h: nat) returns (h': nat)
    requires log.Valid() && OpenAt(log, h) && !Loses(log, c)
    ensures var r := Recorded(log, c.buf, c.sync, c.faults).0;
            && OpenAt(r, h') && r.keep == log.keep
            && (Gap(log.disk, r.disk, log.keep) <==> Skips(log, c))
            && (!Skips(log, c) ==>
                  IsSuffix(Reading(r.disk, r.keep), Reading(log.disk, log.keep) + [Piece(c.buf, c.faults)]))
            && EndsWithNewest(Reading(r.disk, r.keep), c)
    ensures h == 0 && !c.faults.reopenFails ==> h' == 0
  {
    var room := MadeRoom(log, c.buf, c.faults);
    var r := Recorded(log, c.buf, c.sync, c.faults).0;
    h' := RoomPlace(log, c, h);
    RoomGap(log, c);
    AppendedReads(room, c, h');
    SameNamesAfter(log.disk, room.disk, r.disk, log.keep);
    SameNamesAfter(log.disk, r.disk, room.disk, log.keep);
    if !Skips(log, c) {
      RoomReads(log, c);
      SuffixGrows(Reading(room.disk, log.keep), Reading(log.disk, log.keep), [Piece(c.buf, c.faults)]);
    }
  }

  /** A record that lets go of the open file leaves nothing to read. */
  lemma LosingReadsNothing(log: Log, c: Call)
    requires log.Valid() && IsNamed(log) && Loses(log, c)
    ensures var r := Recorded(log, c.buf, c.sync, c.faults).0;
            IsLost(r) && r.keep == log.keep && !IsNamed(r) && Reading(r.disk, r.keep) == []
  {
    var h :| OpenAt(log, h);
    RoomIsRotated(log, c);
    LettingGoLoses(Attempted(log), c.faults, h);
    LostRoomReadsNothing(log, c);
  }

  /** Nothing is skipped when the open file is let go: it was the only one there. */
  lemma LosingSkipsNothing(log: Log, c: Call)
    requires log.Valid() && IsNamed(log) && Loses(log, c)
    ensures !Skips(log, c) && !Gap(log.disk, Recorded(log, c.buf, c.sync, c.faults).0.disk, log.keep)
  {
    var h :| OpenAt(log, h);
    assert h == log.keep;
    OnlyOldestIsNotSkipped(log.disk, log.keep - 1, log.keep, c.faults);
    LosingReadsNothing(log, c);
  }

  /**
    One record, whatever goes wrong. The open file keeps a name exactly unless the
    rotation lets go of it, and then nothing at all can be read. A file is missing
    from the middle exactly when the rotation skips. Otherwise the files read
    oldest to newest are the end of what they were, with the record after it.
   */
  lemma RecordKeepsOrderUnless(log: Log, c: Call)
    requires log.Valid() && IsNamed(log)
    ensures var r := Recorded(log, c.buf, c.sync, c.faults).0;
            && r.keep == log.keep
            && (IsNamed(r) <==> !Loses(log, c))
            && (Gap(log.disk, r.disk, log.keep) <==> Skips(log, c))
            && (!Loses(log, c) && !Skips(log, c) ==>
                  IsSuffix(Reading(r.disk, r.keep), Reading(log.disk, log.keep) + [Piece(c.buf, c.faults)]))
            && (!Loses(log, c) ==> EndsWithNewest(Reading(r.disk, r.keep), c))
            && (Loses(log, c) ==> Reading(r.disk, r.keep) == [])
  {
    var h :| OpenAt(log, h);
    if Loses(log, c) {
      LosingReadsNothing(log, c);
      LosingSkipsNothing(log, c);
    } else {
      var h' := RecordInPlace(log, c, h);
    }
  }

  // ---------------------------------------------------------------------------
  // Runs
  // ---------------------------------------------------------------------------

  /** What the run was asked to write, as far as it reached the files. */
  ghost function Pieces(run: seq<Call>): seq<Record> {
    if run == [] then []
    else Pieces(run[..|run| - 1]) + [Piece(run[|run| - 1].buf, run[|run| - 1].faults)]
  }

  /** No call of the run loses the log, in the state that it finds. */
  ghost predicate NeverLoses(log: Log, run: seq<Call>)
    requires log.Valid()
  {
    run == [] ||
    (NeverLoses(log, run[..|run| - 1]) && !Loses(After(log, run[..|run| - 1]), run[|run| - 1]))
  }

  /** No call of the run skips a generation, in the state that it finds. */
  ghost predicate NeverSkips(log: Log, run: seq<Call>)
    requires log.Valid()
  {
    run == [] ||
    (NeverSkips(log, run[..|run| - 1]) && !Skips(After(log, run[..|run| - 1]), run[|run| - 1]))
  }

  /** Over a whole run, the open file keeps a name exactly as long as no rotation lets go of it. */
  lemma {:induction false} NamedExactlyUnlessLetGo(log: Log, run: seq<Call>)
    requires log.Valid() && IsNamed(log)
    ensures After(log, run).keep == log.keep
    ensures IsNamed(After(log, run)) <==> NeverLoses(log, run)
    ensures !NeverLoses(log, run) ==> IsLost(After(log, run)) && Reading(After(log, run).disk, log.keep) == []
  {
    if run != [] {
      var before, c := run[..|run| - 1], run[|run| - 1];
      NamedExactlyUnlessLetGo(log, before);
      if !NeverLoses(log, before) {
        LostForGood(After(log, before), c);
      } else {
        RecordKeepsOrderUnless(After(log, before), c);
        if Loses(After(log, before), c) {
          LosingReadsNothing(After(log, before), c);
        }
      }
    }
  }

  lemma Regroup(a: seq<Record>, b: seq<Record>, c: seq<Record>)
    ensures a + b + c == a + (b + c)
  {
  }

  /**
    Over a whole run, with every fault allowed: unless some rotation lets go of the
    open file or skips a generation, the files read as the end of everything
    written, newest record included.
   */
  lemma {:induction false} RunKeepsOrderUnless(log: Log, run: seq<Call>)
    requires log.Valid() && IsNamed(log) && NeverLoses(log, run) && NeverSkips(log, run)
    ensures IsNamed(After(log, run)) && After(log, run).keep == log.keep
    ensures IsSuffix(Reading(After(log, run).disk, log.keep), Reading(log.disk, log.keep) + Pieces(run))
    ensures run != [] ==> EndsWithNewest(Reading(After(log, run).disk, log.keep), run[|run| - 1])
  {
    if run == [] {
      assert Reading(log.disk, log.keep) + [] == Reading(log.disk, log.keep);
      TailIsSuffix([], Reading(log.disk, log.keep));
    } else {
      var before, c := run[..|run| - 1], run[|run| - 1];
      var mid, all := After(log, before), Reading(log.disk, log.keep) + Pieces(before);
      RunKeepsOrderUnless(log, before);
      RecordKeepsOrderUnless(mid, c);
      SuffixGrows(Reading(mid.disk, log.keep), all, [Piece(c.buf, c.faults)]);
      SuffixTransitive(Reading(After(log, run).disk, log.keep),
                       Reading(mid.disk, log.keep) + [Piece(c.buf, c.faults)], all + [Piece(c.buf, c.faults)]);
      Regroup(Reading(log.disk, log.keep), Pieces(before), [Piece(c.buf, c.faults)]);
    }
  }

  /** No rotation lets go of the active file, and none skips when every generation is found. */
  lemma NothingMissed(log: Log, c: Call)
    requires log.Valid() && OpenAt(log, 0) && c.faults.missed == {}
    ensures !Loses(log, c) && !Skips(log, c)
  {
    if log.keep > 0 {
      FoundIsNotSkipped(Purged(log, c.faults), log.keep - 1, log.keep, c.faults);
    }
  }

  lemma {:induction false} StaysActive(log: Log, run: seq<Call>)
    requires log.Valid() && OpenAt(log, 0)
    requires forall i | 0 <= i < |run| :: !run[i].faults.reopenFails && run[i].faults.missed == {}
    ensures OpenAt(After(log, run), 0) && NeverLoses(log, run) && NeverSkips(log, run)
  {
    if run != [] {
      var before, c := run[..|run| - 1], run[|run| - 1];
      StaysActive(log, before);
      NothingMissed(After(log, before), c);
      var h := RecordInPlace(After(log, before), c, 0);
    }
  }

  /** Opening a log touches nothing it holds: at most an empty active file is added. */
  lemma OpeningKeepsTheLog(disk: Disk, nextId: FileId, maxBytes: nat, keep: nat, n: nat)
    requires IsSound(disk, nextId)
    ensures var start := Start(disk, nextId, maxBytes, keep);
            && OpenAt(start, 0) && start.keep == keep
            && Reading(start.disk, n) == Reading(disk, n)
            && (forall m | m in disk.names :: m in start.disk.names && start.disk.names[m] == disk.names[m])
            && (forall m | m in start.disk.names :: m in disk.names || m == 0)
            && (forall id | id in disk.files && id != nextId ::
                  id in start.disk.files && start.disk.files[id] == disk.files[id])
  {
    SameBelow(Start(disk, nextId, maxBytes, keep).disk, disk, n);
  }

  lemma RunFromActiveIsInOrder(log: Log, run: seq<Call>)
    requires log.Valid() && OpenAt(log, 0)
    requires forall i | 0 <= i < |run| :: !run[i].faults.reopenFails && run[i].faults.missed == {}
    ensures OpenAt(After(log, run), 0) && After(log, run).keep == log.keep
    ensures IsSuffix(Reading(After(log, run).disk, log.keep), Reading(log.disk, log.keep) + Pieces(run))
    ensures run != [] ==> EndsWithNewest(Reading(After(log, run).disk, log.keep), run[|run| - 1])
  {
    StaysActive(log, run);
    RunKeepsOrderUnless(log, run);
  }

  /**
    Order under faults, from the disk the log was opened on: as long as every
    generation is found and the active name can be reopened, any sync, remove or
    rename may fail, and any write be torn. The files always read, oldest generation
    to active, as the end of everything written before and since, newest record
    included and whole.
   */
  lemma {:induction false} LogReadsInOrder(disk: Disk, nextId: FileId, maxBytes: nat, keep: nat, run: seq<Call>)
    requires IsSound(disk, nextId)
    requires forall i | 0 <= i < |run| :: !run[i].faults.reopenFails && run[i].faults.missed == {}
    ensures var log := After(Start(disk, nextId, maxBytes, keep), run);
            && OpenAt(log, 0)
            && IsSuffix(Reading(log.disk, keep), Reading(disk, keep) + Pieces(run))
            && (run != [] ==> EndsWithNewest(Reading(log.disk, keep), run[|run| - 1]))
  {
    OpeningKeepsTheLog(disk, nextId, maxBytes, keep, keep);
    RunFromActiveIsInOrder(Start(disk, nextId, maxBytes, keep), run);
  }

  // ---------------------------------------------------------------------------
  // What goes wrong otherwise
  // ---------------------------------------------------------------------------

  const CANNOT_REOPEN := NO_FAULTS.(reopenFails := true)

  /**
    It has to be reopened. A log that keeps one generation and once could not
    reopen its active name is written on in that generation, and loses
    everything at the next rotation, with nothing else going wrong.
   */
  lemma ReopenFailureLosesTheLog(log: Log, first: Record, second: Record)
    requires log.Valid() && OpenAt(log, 0) && log.keep == 1
    requires IsDue(log, first) && |first| + |second| > log.maxBytes
    requires log.written + log.maxBytes <= U64_MAX
    ensures var r := Recorded(log, first, false, CANNOT_REOPEN).0;
            && Reading(r.disk, 1) != []
            && Reading(Recorded(r, second, false, NO_FAULTS).0.disk, 1) == []
  {
    var c := Call(first, false, CANNOT_REOPEN);
    OnlyReopenFails(Attempted(log));
    AppendedReads(MadeRoom(log, first, CANNOT_REOPEN), c, 1);
    var r := Recorded(log, first, false, CANNOT_REOPEN).0;
    RecordKeepsOrderUnless(r, Call(second, false, NO_FAULTS));
  }

  lemma OnlyReopenFails(log: Log)
    requires log.Valid() && OpenAt(log, 0) && log.keep == 1
    ensures var (r, ok) := Rotated(log, CANNOT_REOPEN);
            && !ok && OpenAt(r, 1) && r.keep == 1 && r.written == log.written && r.maxBytes == log.maxBytes
  {
  }

  const MISSES_THE_LAST := NO_FAULTS.(missed := {1})

  /**
    Every generation has to be found. With three kept, two there and the newer of
    them missed, the rotation renames the active file over it and the older
    stays: what is read has lost its middle.
   */
  lemma MissedGenerationBreaksTheOrder(log: Log, b: Record, a: Record, x: Record, buf: Record)
    requires log.Valid() && OpenAt(log, 0) && log.keep == 3 && IsDue(log, buf)
    requires 1 in log.disk.names && 2 in log.disk.names && 3 !in log.disk.names
    requires Held(log.disk, 2) == [b] && Held(log.disk, 1) == [a] && Held(log.disk, 0) == [x] && a != b
    ensures var before, after := Reading(log.disk, 3), Reading(Recorded(log, buf, false, MISSES_THE_LAST).0.disk, 3);
            && before == [b, a, x] && after == [b, x, buf]
            && !IsSuffix(after, before + [buf])
    ensures !Loses(log, Call(buf, false, MISSES_THE_LAST))
  {
    RoomThatMissesTheLast(log, buf);
    var room := MadeRoom(log, buf, MISSES_THE_LAST);
    ReadingOfThree(log.disk);
    ReadingOfThree(room.disk);
    AppendedReads(room, Call(buf, false, MISSES_THE_LAST), 0);
    MiddleIsLost(b, a, x, buf);
  }

  lemma MiddleIsLost(b: Record, a: Record, x: Record, r: Record)
    requires a != b
    ensures [b] + ([] + ([x] + [])) + [r] == [b, x, r]
    ensures [] + ([b] + ([a] + [x])) == [b, a, x]
    ensures !IsSuffix([b, x, r], [b, a, x] + [r])
  {
    assert ([b, a, x] + [r])[1..][0] == a;
  }

  lemma RoomThatMissesTheLast(log: Log, buf: Record)
    requires log.Valid() && OpenAt(log, 0) && log.keep == 3 && IsDue(log, buf)
    requires 1 in log.disk.names && 2 in log.disk.names && 3 !in log.disk.names
    ensures var r := MadeRoom(log, buf, MISSES_THE_LAST);
            && OpenAt(r, 0) && r.keep == 3
            && Held(r.disk, 3) == Held(log.disk, 2) && Held(r.disk, 2) == []
            && Held(r.disk, 1) == Held(log.disk, 0) && Held(r.disk, 0) == []
  {
    var counted := Attempted(log);
    var synced := counted.(disk := Synced(counted.disk, counted.handle));
    RoomIsRotated(log, Call(buf, false, MISSES_THE_LAST));
    RotationThatMissesTheLast(synced);
    assert Rotated(counted, MISSES_THE_LAST) == RotatedGenerations(synced, MISSES_THE_LAST);
  }

  lemma ReadingOfThree(disk: Disk)
    ensures Reading(disk, 3) == Held(disk, 3) + (Held(disk, 2) + (Held(disk, 1) + Held(disk, 0)))
  {
    assert Reading(disk, 1) == Held(disk, 1) + Reading(disk, 0);
  }

  lemma RotationThatMissesTheLast(log: Log)
    requires log.Valid() && OpenAt(log, 0) && log.keep == 3
    requires 1 in log.disk.names && 2 in log.disk.names && 3 !in log.disk.names
    ensures var (r, ok) := RotatedGenerations(log, MISSES_THE_LAST);
            && ok && OpenAt(r, 0) && r.keep == 3
            && Held(r.disk, 3) == Held(log.disk, 2) && Held(r.disk, 2) == []
            && Held(r.disk, 1) == Held(log.disk, 0) && Held(r.disk, 0) == []
  {
    var moved := Renamed(log.disk, 2, 3);
    assert Removed(log.disk, 3).names == log.disk.names;
    TwoMovesAlone(log.disk);
    assert 0 !in Renamed(moved, 0, 1).names;
  }

  lemma TwoMovesAlone(disk: Disk)
    requires 2 in disk.names
    ensures Shifted(disk, 2, MISSES_THE_LAST) == (Renamed(disk, 2, 3), true)
  {
    var moved := Renamed(disk, 2, 3);
    assert Shifted(moved, 1, MISSES_THE_LAST) == Shifted(moved, 0, MISSES_THE_LAST);
  }
}
