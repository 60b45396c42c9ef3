/**
  The rotating log file, on a file system that can refuse any single operation.

  A file is the records written to it, in order, and how many of them a power cut
  would leave. A name is a number: 0 is the active file, `n` the generation `n`
  rotations back. `Rotating` is the code; `Recorded` and what it is made of say
  what one call does to the state, and the other `Log` modules what that adds up to over a run.
 */
module LogFile {

  datatype Option<T> = None | Some(value: T)

  type Record = string
  type FileId = nat

  const U64_MAX: nat := 0xFFFF_FFFF_FFFF_FFFF

  /** The records in a file, and how many of the first of them are on disk. */
  datatype File = File(records: seq<Record>, synced: nat)

  datatype Disk = Disk(names: map<nat, FileId>, files: map<FileId, File>)

  /**
    What goes wrong in one call. A rename is named by the generation it moves. A
    generation is `missed` when the look for it says it is not there though it is.
   */
  datatype Faults = Faults(
    rotateSyncFails: bool,
    removeFails: bool,
    missed: set<nat>,
    renameFails: set<nat>,
    reopenFails: bool,
    torn: Option<nat>,  // `write_all` stops after this many bytes
    flushFails: bool,
    syncFails: bool)

  const NO_FAULTS := Faults(false, false, {}, {}, false, None, false, false)

  datatype Log = Log(
    keep: nat,
    maxBytes: nat,
    disk: Disk,
    handle: FileId,
    nextId: FileId,
    written: nat,
    rotateAt: nat,
    attempts: nat,
    syncs: nat)
  {
    ghost predicate Valid() {
      handle in disk.files && handle < nextId && IsSound(disk, nextId)
    }
  }

  /** Names name files, no two the same one. */
  ghost predicate IsSound(disk: Disk, nextId: FileId) {
    && (forall n | n in disk.names :: disk.names[n] in disk.files && disk.names[n] < nextId)
    && (forall m, n | m in disk.names && n in disk.names && m != n :: disk.names[m] != disk.names[n])
  }

  function Size(records: seq<Record>): nat {
    if records == [] then 0 else Size(records[..|records| - 1]) + |records[|records| - 1]|
  }

  function SaturatingAdd(a: nat, b: nat): (sum: nat)
    ensures sum <= U64_MAX && sum <= a + b && (sum < a + b ==> sum == U64_MAX)
  {
    if a + b > U64_MAX then U64_MAX else a + b
  }

  function Synced(disk: Disk, id: FileId): Disk
    requires id in disk.files
  {
    disk.(files := disk.files[id := disk.files[id].(synced := |disk.files[id].records|)])
  }

  function Removed(disk: Disk, n: nat): (r: Disk)
    ensures forall id :: IsSound(disk, id) ==> IsSound(r, id)
  {
    disk.(names := disk.names - {n})
  }

  /** A rename replaces whatever had the new name. */
  function Renamed(disk: Disk, from: nat, to: nat): (r: Disk)
    requires from in disk.names
    ensures forall id :: IsSound(disk, id) ==> IsSound(r, id)
  {
    disk.(names := (disk.names - {from})[to := disk.names[from]])
  }

  /** Move generations `n`, `n - 1`, ..., 1 one back, up to the first that will not move. */
  function Shifted(disk: Disk, n: nat, f: Faults): (r: (Disk, bool))
    ensures forall id :: IsSound(disk, id) ==> IsSound(r.0, id)
    ensures r.0.files == disk.files
    decreases n
  {
    if n == 0 then (disk, true)
    else if n !in disk.names || n in f.missed then Shifted(disk, n - 1, f)
    else if n in f.renameFails then (disk, false)
    else Shifted(Renamed(disk, n, n + 1), n - 1, f)
  }

  /** The file under a name is emptied, or made: what `create` and `open` leave behind. */
  function Opened(log: Log, disk: Disk, truncate: bool): Log
    requires IsSound(disk, log.nextId)
  {
    if 0 in disk.names then
      var id := disk.names[0];
      log.(disk := if truncate then disk.(files := disk.files[id := File([], 0)]) else disk,
           handle := id, written := 0)
    else
      log.(disk := Disk(disk.names[0 := log.nextId], disk.files[log.nextId := File([], 0)]),
           handle := log.nextId, nextId := log.nextId + 1, written := 0)
  }

  /** The active file renamed out of the way, and a new one opened in its place. */
  function ActiveReplaced(log: Log, f: Faults): (r: (Log, bool))
    requires log.Valid()
    ensures r.0.Valid() && (!r.1 ==> r.0.written == log.written)
  {
    if 0 !in log.disk.names || 0 in f.renameFails then (log, false)
    else
      var rolled := Renamed(log.disk, 0, 1);
      if f.reopenFails then (log.(disk := rolled), false)
      else (Opened(log, rolled, false), true)
  }

  function RotatedGenerations(log: Log, f: Faults): (r: (Log, bool))
    requires log.Valid() && log.keep > 0
    ensures r.0.Valid() && (!r.1 ==> r.0.written == log.written)
  {
    var removed := if f.removeFails then log.disk else Removed(log.disk, log.keep);
    var (shifted, moved) := Shifted(removed, log.keep - 1, f);
    if !moved then (log.(disk := shifted), false) else ActiveReplaced(log.(disk := shifted), f)
  }

  function Rotated(log: Log, f: Faults): (r: (Log, bool))
    requires log.Valid()
    ensures r.0.Valid() && (!r.1 ==> r.0.written == log.written)
  {
    if f.rotateSyncFails then (log, false)
    else
      var synced := log.(disk := Synced(log.disk, log.handle));
      if log.keep > 0 then RotatedGenerations(synced, f)
      else if f.reopenFails then (synced, false)
      else (Opened(synced, synced.disk, true), true)
  }

  /** What of `buf` reaches the file. */
  function Piece(buf: Record, f: Faults): Record {
    if f.torn.Some? && f.torn.value < |buf| then buf[..f.torn.value] else buf
  }

  function Grown(disk: Disk, id: FileId, r: Record): Disk
    requires id in disk.files
  {
    disk.(files := disk.files[id := disk.files[id].(records := disk.files[id].records + [r])])
  }

  function Appended(log: Log, buf: Record, sync: bool, f: Faults): (Log, bool)
    requires log.Valid()
  {
    var grown := log.(disk := Grown(log.disk, log.handle, Piece(buf, f)));
    if Piece(buf, f) != buf then (grown, false)
    else
      var counted := grown.(written := log.written + |buf|);
      if f.flushFails then (counted, false)
      else if !sync then (counted, true)
      else if f.syncFails then (counted, false)
      else (counted.(disk := Synced(counted.disk, log.handle), syncs := log.syncs + 1), true)
  }

  predicate IsDue(log: Log, buf: Record) {
    log.written > 0 && log.written + |buf| > log.rotateAt
  }

  function Attempted(log: Log): Log {
    log.(attempts := log.attempts + 1)
  }

  /** Rotated if due, and the next attempt put where the outcome says. */
  function MadeRoom(log: Log, buf: Record, f: Faults): (r: Log)
    requires log.Valid()
    ensures r.Valid()
  {
    if !IsDue(log, buf) then log
    else
      var (rotated, ok) := Rotated(Attempted(log), f);
      rotated.(rotateAt := if ok then log.maxBytes else SaturatingAdd(log.written, log.maxBytes))
  }

  function Recorded(log: Log, buf: Record, sync: bool, f: Faults): (r: (Log, bool))
    requires log.Valid()
    ensures r.0.Valid()
  {
    Appended(MadeRoom(log, buf, f), buf, sync, f)
  }

  /** A log as it opens: what the active file already holds counts towards the first rotation. */
  function Start(disk: Disk, nextId: FileId, maxBytes: nat, keep: nat): (r: Log)
    requires IsSound(disk, nextId)
    ensures r.Valid() && r.written == Size(r.disk.files[r.handle].records)
  {
    var log := Opened(Log(keep, maxBytes, disk, 0, nextId, 0, maxBytes, 0, 0), disk, false);
    log.(written := Size(log.disk.files[log.handle].records))
  }

  datatype Call = Call(buf: Record, sync: bool, faults: Faults)

  /** The log after a run of records. */
  ghost function After(log: Log, run: seq<Call>): (r: Log)
    requires log.Valid()
    ensures r.Valid()
  {
    if run == [] then log
    else
      var c := run[|run| - 1];
      Recorded(After(log, run[..|run| - 1]), c.buf, c.sync, c.faults).0
  }

  /** Making room is a rotation, as far as the files go, or nothing. */
  lemma RoomIsRotated(log: Log, c: Call)
    requires log.Valid()
    ensures var room := MadeRoom(log, c.buf, c.faults);
            && (!IsDue(log, c.buf) ==> room == log)
            && (IsDue(log, c.buf) ==>
                  var r := Rotated(Attempted(log), c.faults).0;
                  room == r.(rotateAt := room.rotateAt))
  {
  }

  class Rotating {
    const keep: nat
    const maxBytes: nat
    var disk: Disk
    var handle: FileId
    var nextId: FileId
    var written: nat
    var rotateAt: nat
    var rotationAttempts: nat
    var syncs: nat

    function State(): Log
      reads this
    {
      Log(keep, maxBytes, disk, handle, nextId, written, rotateAt, rotationAttempts, syncs)
    }

    /** The file under the active name, or a new one. */
    constructor (disk: Disk, nextId: FileId, maxBytes: nat, keep: nat)
      requires IsSound(disk, nextId)
      ensures State() == Start(disk, nextId, maxBytes, keep)
    {
      this.keep, this.maxBytes := keep, maxBytes;
      if 0 in disk.names {
        this.disk, this.handle, this.nextId := disk, disk.names[0], nextId;
        written := Size(disk.files[disk.names[0]].records);
      } else {
        this.disk := Disk(disk.names[0 := nextId], disk.files[nextId := File([], 0)]);
        this.handle, this.nextId := nextId, nextId + 1;
        written := 0;
      }
      rotateAt, rotationAttempts, syncs := maxBytes, 0, 0;
    }

    method Rotate(f: Faults) returns (ok: bool)
      requires State().Valid()
      modifies this`disk, this`handle, this`nextId, this`written
      ensures (State(), ok) == Rotated(old(State()), f)
    {
      if f.rotateSyncFails {
        return false;
      }
      disk := Synced(disk, handle);
      if keep > 0 {
        ok := RotateGenerations(f);
      } else if f.reopenFails {
        ok := false;
      } else {
        Reopen(true);
        ok := true;
      }
    }

    method RotateGenerations(f: Faults) returns (ok: bool)
      requires State().Valid() && keep > 0
      modifies this`disk, this`handle, this`nextId, this`written
      ensures (State(), ok) == RotatedGenerations(old(State()), f)
    {
      if !f.removeFails {
        disk := Removed(disk, keep);
      }
      var moved := ShiftGenerations(f);
      if !moved {
        return false;
      }
      ok := ReplaceActive(f);
    }

    method ReplaceActive(f: Faults) returns (ok: bool)
      requires State().Valid()
      modifies this`disk, this`handle, this`nextId, this`written
      ensures (State(), ok) == ActiveReplaced(old(State()), f)
    {
      if 0 !in disk.names || 0 in f.renameFails {
        return false;
      }
      disk := Renamed(disk, 0, 1);
      if f.reopenFails {
        return false;
      }
      Reopen(false);
      return true;
    }

    method ShiftGenerations(f: Faults) returns (ok: bool)
      requires keep > 0
      modifies this`disk
      ensures (disk, ok) == Shifted(old(disk), keep - 1, f)
    {
      var n := keep - 1;
      while n >= 1
        invariant 0 <= n < keep
        invariant Shifted(old(disk), keep - 1, f) == Shifted(disk, n, f)
      {
        if n in disk.names && n !in f.missed {
          if n in f.renameFails {
            return false;
          }
          disk := Renamed(disk, n, n + 1);
        }
        n := n - 1;
      }
      return true;
    }

    method Reopen(truncate: bool)
      requires IsSound(disk, nextId)
      modifies this`disk, this`handle, this`nextId, this`written
      ensures State() == Opened(old(State()), old(disk), truncate)
    {
      if 0 in disk.names {
        handle := disk.names[0];
        if truncate {
          disk := disk.(files := disk.files[handle := File([], 0)]);
        }
      } else {
        disk := Disk(disk.names[0 := nextId], disk.files[nextId := File([], 0)]);
        handle := nextId;
        nextId := nextId + 1;
      }
      written := 0;
    }

    method Append(buf: Record, sync: bool, f: Faults) returns (ok: bool)
      requires State().Valid()
      modifies this`disk, this`written, this`syncs
      ensures (State(), ok) == Appended(old(State()), buf, sync, f)
    {
      disk := Grown(disk, handle, Piece(buf, f));
      if Piece(buf, f) != buf {
        return false;
      }
      written := written + |buf|;
      if f.flushFails {
        return false;
      }
      if sync {
        if f.syncFails {
          return false;
        }
        disk := Synced(disk, handle);
        syncs := syncs + 1;
      }
      return true;
    }

    /** Rotate if the record would not fit, and decide when to try next. */
    method MakeRoom(buf: Record, f: Faults)
      requires State().Valid()
      modifies this
      ensures State() == MadeRoom(old(State()), buf, f)
    {
      if written > 0 && written + |buf| > rotateAt {
        rotationAttempts := rotationAttempts + 1;
        assert State() == Attempted(old(State()));
        var rotated := Rotate(f);
        // After a failure the file has to grow by a full budget before another try.
        rotateAt := if rotated then maxBytes else SaturatingAdd(written, maxBytes);
      }
    }

    /** Write one whole record, making room for it first when it is due. */
    method Record(buf: Record, sync: bool, f: Faults) returns (ok: bool)
      requires State().Valid()
      requires written + |buf| <= U64_MAX
      modifies this
      ensures (State(), ok) == Recorded(old(State()), buf, sync, f)
    {
      MakeRoom(buf, f);
      ok := Append(buf, sync, f);
    }
  }
}
