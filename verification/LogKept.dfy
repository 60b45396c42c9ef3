/** How much of the log a record may cost, how many files there can be, and what a record answers. */
module LogKept {
  import opened LogFile
  import opened LogOrder
  import opened LogRotation

  /** With the oldest name free and every generation found, the renames lose nothing, wherever they stop. */
  lemma {:induction false} RolledLosesNothing(disk: Disk, n: nat, keep: nat, f: Faults)
    requires n < keep && n + 1 !in disk.names && f.missed == {}
    ensures Reading(Rolled(disk, n, f).0, keep) == Reading(disk, keep)
    decreases n
  {
    if n in disk.names && n !in f.renameFails {
      RenamedIntoFree(disk, n, keep);
      if n > 0 {
        RolledLosesNothing(Renamed(disk, n, n + 1), n - 1, keep, f);
      }
    } else if n > 0 && n !in disk.names {
      RolledLosesNothing(disk, n - 1, keep, f);
    }
  }

  lemma PurgedAndRolledLosesTheOldest(log: Log, f: Faults)
    requires log.keep > 0 && !f.removeFails && f.missed == {}
    ensures Reading(Rolled(Purged(log, f), log.keep - 1, f).0, log.keep) == Reading(log.disk, log.keep - 1)
  {
    var removed := Removed(log.disk, log.keep);
    RolledLosesNothing(removed, log.keep - 1, log.keep, f);
    SameBelow(removed, log.disk, log.keep - 1);
    assert Held(removed, log.keep) == [];
  }

  lemma GenerationsLoseTheOldest(log: Log, f: Faults)
    requires log.Valid() && log.keep > 0 && !f.removeFails && f.missed == {}
    ensures Reading(RotatedGenerations(log, f).0.disk, log.keep) == Reading(log.disk, log.keep - 1)
  {
    GenerationsAreRolled(log, f);
    PurgedAndRolledLosesTheOldest(log, f);
    var (rolled, ok) := Rolled(Purged(log, f), log.keep - 1, f);
    if ok {
      ReopenedReads(log, rolled);
    }
  }

  /**
    What one record costs the log: nothing if no rotation is due or the old file
    cannot be synced; otherwise the oldest generation, if it can be removed, and no
    more, however far the rotation gets.
   */
  lemma RecordLosesTheOldestAtMost(log: Log, c: Call)
    requires log.Valid() && IsNamed(log) && !Loses(log, c) && log.keep > 0
    requires c.faults.missed == {} && !c.faults.removeFails
    ensures Reading(Recorded(log, c.buf, c.sync, c.faults).0.disk, log.keep) ==
            Reading(log.disk, if IsDue(log, c.buf) && !c.faults.rotateSyncFails then log.keep - 1 else log.keep)
            + [Piece(c.buf, c.faults)]
  {
    var h0 :| OpenAt(log, h0);
    var room := MadeRoom(log, c.buf, c.faults);
    var h := RoomPlace(log, c, h0);
    AppendedReads(room, c, h);
    RoomLosesTheOldest(log, c);
  }

  lemma RoomLosesTheOldest(log: Log, c: Call)
    requires log.Valid() && log.keep > 0 && c.faults.missed == {} && !c.faults.removeFails
    ensures Reading(MadeRoom(log, c.buf, c.faults).disk, log.keep) ==
            Reading(log.disk, if IsDue(log, c.buf) && !c.faults.rotateSyncFails then log.keep - 1 else log.keep)
  {
    RoomIsRotated(log, c);
    if IsDue(log, c.buf) && !c.faults.rotateSyncFails {
      var counted := Attempted(log);
      GenerationsLoseTheOldest(counted.(disk := Synced(counted.disk, counted.handle)), c.faults);
      SyncedReads(log, log.keep - 1);
    }
  }

  /** No name is ever older than the generations kept. */
  ghost predicate IsBounded(log: Log) {
    forall n | n in log.disk.names :: n <= log.keep
  }

  lemma GenerationsStayBounded(log: Log, f: Faults)
    requires log.Valid() && log.keep > 0 && IsBounded(log)
    ensures IsBounded(RotatedGenerations(log, f).0) && RotatedGenerations(log, f).0.keep == log.keep
  {
    var rolled := Rolled(Purged(log, f), log.keep - 1, f).0;
    GenerationsAreRolled(log, f);
    RolledMoves(Purged(log, f), log.keep - 1, f);
    RolledIsBounded(Purged(log, f), log.keep - 1, f, rolled);
  }

  lemma RotatedIsBounded(log: Log, f: Faults)
    requires log.Valid() && IsBounded(log)
    ensures IsBounded(Rotated(log, f).0) && Rotated(log, f).0.keep == log.keep
  {
    if !f.rotateSyncFails && log.keep > 0 {
      GenerationsStayBounded(log.(disk := Synced(log.disk, log.handle)), f);
    }
  }

  lemma RolledIsBounded(disk: Disk, top: nat, f: Faults, r: Disk)
    requires IsRolled(disk, top, f, r) && forall n | n in disk.names :: n <= top + 1
    ensures forall n | n in r.names :: n <= top + 1
  {
    forall n | n in r.names ensures n <= top + 1 {
      assert HoldsRolled(disk, top, f, r, n);
    }
  }

  /** Over any run, whatever fails, there are never more generations than are kept. */
  lemma {:induction false} GenerationsAreBounded(log: Log, run: seq<Call>)
    requires log.Valid() && IsBounded(log)
    ensures IsBounded(After(log, run)) && After(log, run).keep == log.keep
  {
    if run != [] {
      var before, c := run[..|run| - 1], run[|run| - 1];
      var mid := After(log, before);
      GenerationsAreBounded(log, before);
      RoomIsRotated(mid, c);
      RotatedIsBounded(Attempted(mid), c.faults);
      RoomIsBounded(mid, c);
    }
  }

  lemma RoomIsBounded(log: Log, c: Call)
    requires log.Valid() && IsBounded(log) && IsBounded(Rotated(Attempted(log), c.faults).0)
    requires Rotated(Attempted(log), c.faults).0.keep == log.keep
    ensures var r := Recorded(log, c.buf, c.sync, c.faults).0;
            IsBounded(r) && r.keep == log.keep
  {
    RoomIsRotated(log, c);
  }

  /**
    Whether a record is acknowledged depends on the write alone: no fault of a
    rotation is a reason to refuse it. Each durable one that is acknowledged is
    synced once, and each rotation that is due is attempted once.
   */
  lemma OutcomeIsTheWrites(log: Log, c: Call)
    requires log.Valid()
    ensures var (r, ok) := Recorded(log, c.buf, c.sync, c.faults);
            && (ok <==> (c.faults.torn.Some? ==> c.faults.torn.value >= |c.buf|)
                        && !c.faults.flushFails && (c.sync ==> !c.faults.syncFails))
            && r.syncs == log.syncs + (if ok && c.sync then 1 else 0)
            && r.attempts == log.attempts + (if log.written > 0 && log.written + |c.buf| > log.rotateAt then 1 else 0)
  {
    RoomIsRotated(log, c);
    assert Rotated(Attempted(log), c.faults).0.syncs == log.syncs;
  }
}
