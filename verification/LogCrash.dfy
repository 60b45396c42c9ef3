/** What a power cut leaves of a run of records. */
module LogCrash {
  import opened LogFile

  ghost predicate OnDisk(disk: Disk, id: FileId) {
    id in disk.files && disk.files[id].synced == |disk.files[id].records|
  }

  /**
    Every file that still has a name is on disk, but for the one being written
    and the generations an earlier run left behind.
   */
  ghost predicate IsSafe(log: Log, inherited: set<FileId>) {
    && log.handle !in inherited && (forall id | id in inherited :: id < log.nextId)
    && (log.keep == 0 ==> 0 in log.disk.names && log.disk.names[0] == log.handle)
    && forall n | n in log.disk.names ::
         log.disk.names[n] == log.handle || log.disk.names[n] in inherited || OnDisk(log.disk, log.disk.names[n])
  }

  /** Nothing named could be lost. */
  ghost predicate AllSafe(disk: Disk, inherited: set<FileId>) {
    forall n | n in disk.names :: disk.names[n] in inherited || OnDisk(disk, disk.names[n])
  }

  /** A rename moves a file's name, not what is on disk of it. */
  lemma {:induction false} ShiftedIsSafe(disk: Disk, n: nat, f: Faults, inherited: set<FileId>)
    requires AllSafe(disk, inherited)
    ensures AllSafe(Shifted(disk, n, f).0, inherited)
    decreases n
  {
    if n > 0 {
      if n !in disk.names || n in f.missed {
        ShiftedIsSafe(disk, n - 1, f, inherited);
      } else if n !in f.renameFails {
        ShiftedIsSafe(Renamed(disk, n, n + 1), n - 1, f, inherited);
      }
    }
  }

  lemma ReopenedIsSafe(log: Log, rolled: Disk, inherited: set<FileId>)
    requires log.keep > 0 && AllSafe(rolled, inherited) && 0 !in rolled.names && IsSound(rolled, log.nextId)
    requires forall id | id in inherited :: id < log.nextId
    ensures IsSafe(Opened(log, rolled, false), inherited)
  {
  }

  lemma RenamedIsSafe(disk: Disk, inherited: set<FileId>)
    requires AllSafe(disk, inherited) && 0 in disk.names
    ensures AllSafe(Renamed(disk, 0, 1), inherited) && 0 !in Renamed(disk, 0, 1).names
  {
  }

  lemma ShiftStaysSafe(log: Log, f: Faults, inherited: set<FileId>)
    requires log.keep > 0 && AllSafe(log.disk, inherited)
    ensures var removed := if f.removeFails then log.disk else Removed(log.disk, log.keep);
            AllSafe(Shifted(removed, log.keep - 1, f).0, inherited)
  {
    ShiftedIsSafe(if f.removeFails then log.disk else Removed(log.disk, log.keep), log.keep - 1, f, inherited);
  }

  lemma GenerationsStaySafe(log: Log, f: Faults, inherited: set<FileId>)
    requires log.Valid() && log.keep > 0 && AllSafe(log.disk, inherited)
    requires log.handle !in inherited && forall id | id in inherited :: id < log.nextId
    ensures IsSafe(RotatedGenerations(log, f).0, inherited)
  {
    ShiftStaysSafe(log, f, inherited);
    var removed := if f.removeFails then log.disk else Removed(log.disk, log.keep);
    var (shifted, moved) := Shifted(removed, log.keep - 1, f);
    var after := log.(disk := shifted);
    if moved {
      assert RotatedGenerations(log, f) == ActiveReplaced(after, f);
      ReplacedStaysSafe(after, f, inherited);
    } else {
      MovedIsSafe(log, shifted, inherited);
    }
  }

  lemma ReplacedStaysSafe(log: Log, f: Faults, inherited: set<FileId>)
    requires log.Valid() && log.keep > 0 && AllSafe(log.disk, inherited)
    requires log.handle !in inherited && forall id | id in inherited :: id < log.nextId
    ensures IsSafe(ActiveReplaced(log, f).0, inherited)
  {
    if 0 in log.disk.names && 0 !in f.renameFails {
      RenamedIsSafe(log.disk, inherited);
      MovedIsSafe(log, Renamed(log.disk, 0, 1), inherited);
      ReopenedIsSafe(log, Renamed(log.disk, 0, 1), inherited);
    }
  }

  lemma MovedIsSafe(log: Log, disk: Disk, inherited: set<FileId>)
    requires log.keep > 0 && AllSafe(disk, inherited)
    requires log.handle !in inherited && forall id | id in inherited :: id < log.nextId
    ensures IsSafe(log.(disk := disk), inherited)
  {
  }

  lemma SyncedIsSafe(log: Log, inherited: set<FileId>)
    requires log.Valid() && IsSafe(log, inherited)
    ensures AllSafe(Synced(log.disk, log.handle), inherited)
    ensures IsSafe(log.(disk := Synced(log.disk, log.handle)), inherited)
  {
  }

  lemma RotatedStaysSafe(log: Log, f: Faults, inherited: set<FileId>)
    requires log.Valid() && IsSafe(log, inherited)
    ensures IsSafe(Rotated(log, f).0, inherited)
  {
    SyncedIsSafe(log, inherited);
    if !f.rotateSyncFails && log.keep > 0 {
      GenerationsStaySafe(log.(disk := Synced(log.disk, log.handle)), f, inherited);
    }
  }

  lemma RescheduledIsSafe(log: Log, r: Log, inherited: set<FileId>)
    requires IsSafe(log, inherited) && r.disk == log.disk && r.handle == log.handle && r.keep == log.keep
    requires r.nextId == log.nextId
    ensures IsSafe(r, inherited)
  {
  }

  lemma RoomStaysSafe(log: Log, c: Call, inherited: set<FileId>)
    requires log.Valid() && IsSafe(log, inherited)
    ensures IsSafe(MadeRoom(log, c.buf, c.faults), inherited)
  {
    RoomIsRotated(log, c);
    if IsDue(log, c.buf) {
      RotatedStaysSafe(Attempted(log), c.faults, inherited);
      RescheduledIsSafe(Rotated(Attempted(log), c.faults).0, MadeRoom(log, c.buf, c.faults), inherited);
    }
  }

  lemma AppendedStaysSafe(log: Log, c: Call, inherited: set<FileId>)
    requires log.Valid() && IsSafe(log, inherited)
    ensures var (r, ok) := Appended(log, c.buf, c.sync, c.faults);
            IsSafe(r, inherited) && (ok && c.sync ==> AllSafe(r.disk, inherited))
  {
  }

  /** A durable record that succeeds leaves nothing this run wrote, and still has, to a power cut. */
  lemma RecordStaysSafe(log: Log, c: Call, inherited: set<FileId>)
    requires log.Valid() && IsSafe(log, inherited)
    ensures var (r, ok) := Recorded(log, c.buf, c.sync, c.faults);
            && IsSafe(r, inherited)
            && (ok && c.sync ==> AllSafe(r.disk, inherited))
  {
    RoomStaysSafe(log, c, inherited);
    AppendedStaysSafe(MadeRoom(log, c.buf, c.faults), c, inherited);
  }

  /** The generations already there when the log was opened. */
  ghost function Inherited(disk: Disk): set<FileId> {
    set n | n in disk.names && n > 0 :: disk.names[n]
  }

  /** A log opens on its active file, with nothing of this run to lose yet. */
  lemma StartsSafe(disk: Disk, nextId: FileId, maxBytes: nat, keep: nat)
    requires IsSound(disk, nextId)
    ensures IsSafe(Start(disk, nextId, maxBytes, keep), Inherited(disk))
  {
  }

  lemma {:induction false} RunIsSafe(disk: Disk, nextId: FileId, maxBytes: nat, keep: nat, run: seq<Call>)
    requires IsSound(disk, nextId)
    ensures IsSafe(After(Start(disk, nextId, maxBytes, keep), run), Inherited(disk))
  {
    var start := Start(disk, nextId, maxBytes, keep);
    StartsSafe(disk, nextId, maxBytes, keep);
    if run != [] {
      var before, c := run[..|run| - 1], run[|run| - 1];
      RunIsSafe(disk, nextId, maxBytes, keep, before);
      RecordStaysSafe(After(start, before), c, Inherited(disk));
    }
  }

  /**
    Crash durability over a whole run, with every fault allowed: once a durable
    record has been acknowledged, whatever of this run the active file and the
    generations still hold is on disk.
   */
  lemma {:induction false} AcknowledgedMeansOnDisk(
      disk: Disk, nextId: FileId, maxBytes: nat, keep: nat, run: seq<Call>, c: Call)
    requires IsSound(disk, nextId) && c.sync
    requires Recorded(After(Start(disk, nextId, maxBytes, keep), run), c.buf, true, c.faults).1
    ensures AllSafe(Recorded(After(Start(disk, nextId, maxBytes, keep), run), c.buf, true, c.faults).0.disk,
                    Inherited(disk))
  {
    RunIsSafe(disk, nextId, maxBytes, keep, run);
    RecordStaysSafe(After(Start(disk, nextId, maxBytes, keep), run), c, Inherited(disk));
  }
}
