/**
  What one rotation does to the log read oldest generation first, wherever it
  stops and whatever it misses.
 */
module LogRotation {
  import opened LogFile

  // ---------------------------------------------------------------------------
  // Reading the log
  // ---------------------------------------------------------------------------

  ghost function Held(disk: Disk, n: nat): seq<Record> {
    if n in disk.names && disk.names[n] in disk.files then disk.files[disk.names[n]].records else []
  }

  /** The files read from generation `n` up to the active one. */
  ghost function Reading(disk: Disk, n: nat): seq<Record> {
    Held(disk, n) + if n == 0 then [] else Reading(disk, n - 1)
  }

  ghost predicate IsSuffix(a: seq<Record>, b: seq<Record>) {
    |a| <= |b| && b[|b| - |a|..] == a
  }

  /** The file `id` is read when generations up to `keep` are. */
  ghost predicate IsRead(disk: Disk, id: FileId, keep: nat) {
    exists n: nat | n <= keep :: n in disk.names && disk.names[n] == id
  }

  /** A file is gone although an older one is still read. */
  ghost predicate Gap(before: Disk, after: Disk, keep: nat) {
    exists a: nat, b: nat | a < b <= keep ::
      && a in before.names && b in before.names
      && IsRead(after, before.names[b], keep) && !IsRead(after, before.names[a], keep)
  }

  /** The file `id` goes by name `h`, and nothing newer exists. */
  ghost predicate Newest(disk: Disk, id: FileId, h: nat) {
    h in disk.names && disk.names[h] == id && forall m | m in disk.names :: h <= m
  }

  /** The open file is the newest, at generation `h`. */
  ghost predicate OpenAt(log: Log, h: nat) {
    h <= log.keep && Newest(log.disk, log.handle, h)
  }

  /** The open file can be reached by a name, and it is the newest that can. */
  ghost predicate IsNamed(log: Log) {
    exists h :: OpenAt(log, h)
  }

  lemma SuffixTransitive(a: seq<Record>, b: seq<Record>, c: seq<Record>)
    requires IsSuffix(a, b) && IsSuffix(b, c)
    ensures IsSuffix(a, c)
  {
    assert c[|c| - |a|..] == c[|c| - |b|..][|b| - |a|..];
  }

  lemma SuffixGrows(a: seq<Record>, b: seq<Record>, more: seq<Record>)
    requires IsSuffix(a, b)
    ensures IsSuffix(a + more, b + more)
  {
    assert (b + more)[|b| - |a|..] == b[|b| - |a|..] + more;
  }

  lemma TailIsSuffix(a: seq<Record>, b: seq<Record>)
    ensures IsSuffix(b, a + b)
  {
    assert (a + b)[|a|..] == b;
  }

  lemma {:induction false} SameBelow(d: Disk, e: Disk, n: nat)
    requires forall m: nat | m <= n :: Held(d, m) == Held(e, m)
    ensures Reading(d, n) == Reading(e, n)
  {
    if n > 0 {
      SameBelow(d, e, n - 1);
    }
  }

  lemma {:induction false} NothingBelow(disk: Disk, n: nat)
    requires forall m: nat | m <= n :: m !in disk.names
    ensures Reading(disk, n) == []
  {
    if n > 0 {
      NothingBelow(disk, n - 1);
    }
  }

  lemma {:induction false} NothingAbove(disk: Disk, n: nat, keep: nat)
    requires n <= keep && !HasOlder(disk, n, keep)
    ensures Reading(disk, keep) == Reading(disk, n)
  {
    if n < keep {
      NothingAbove(disk, n, keep - 1);
    }
  }

  // ---------------------------------------------------------------------------
  // Rolling: what the renames of one rotation do to the names
  // ---------------------------------------------------------------------------

  /** Generations `n` down to the active file, each moved one back, up to the first that will not move. */
  ghost function Rolled(disk: Disk, n: nat, f: Faults): (r: (Disk, bool))
    ensures r.0.files == disk.files
    ensures r.1 ==> 0 !in r.0.names
    ensures forall id :: IsSound(disk, id) ==> IsSound(r.0, id)
    decreases n
  {
    if n == 0 then
      if 0 !in disk.names || 0 in f.renameFails then (disk, false) else (Renamed(disk, 0, 1), true)
    else if n !in disk.names || n in f.missed then Rolled(disk, n - 1, f)
    else if n in f.renameFails then (disk, false)
    else Rolled(Renamed(disk, n, n + 1), n - 1, f)
  }

  lemma {:induction false} RolledIsShiftedThenMoved(disk: Disk, n: nat, f: Faults)
    ensures var (shifted, moved) := Shifted(disk, n, f);
            Rolled(disk, n, f) ==
            if moved && 0 in shifted.names && 0 !in f.renameFails then (Renamed(shifted, 0, 1), true)
            else (shifted, false)
    decreases n
  {
    if n > 0 {
      if n !in disk.names || n in f.missed {
        RolledIsShiftedThenMoved(disk, n - 1, f);
      } else if n !in f.renameFails {
        RolledIsShiftedThenMoved(Renamed(disk, n, n + 1), n - 1, f);
      }
    }
  }

  /**
    Generation `n` moves when the renames start at `top`: it is there and found,
    its rename works, and so does every rename before it. The active file, 0, is
    renamed without being looked for.
   */
  ghost predicate Moves(disk: Disk, top: nat, f: Faults, n: nat) {
    && n <= top && n in disk.names && n !in f.renameFails && (n > 0 ==> n !in f.missed)
    && forall m | n < m <= top && m in disk.names && m !in f.missed :: m !in f.renameFails
  }

  ghost predicate HasOlder(disk: Disk, n: nat, keep: nat) {
    exists m: nat | n < m <= keep :: m in disk.names
  }

  /** Name `m` holds what the next newer one held, if that moved, and otherwise what it held, if that did not. */
  ghost predicate HoldsRolled(disk: Disk, top: nat, f: Faults, r: Disk, m: nat) {
    if m > 0 && Moves(disk, top, f, m - 1) then m in r.names && r.names[m] == disk.names[m - 1]
    else if m in disk.names && !Moves(disk, top, f, m) then m in r.names && r.names[m] == disk.names[m]
    else m !in r.names
  }

  ghost predicate IsRolled(disk: Disk, top: nat, f: Faults, r: Disk) {
    forall m: nat :: HoldsRolled(disk, top, f, r, m)
  }

  lemma NoMoveAlike(disk: Disk, n: nat, f: Faults, i: nat)
    requires 0 < n && (n !in disk.names || n in f.missed)
    ensures Moves(disk, n, f, i) <==> Moves(disk, n - 1, f, i)
  {
  }

  lemma MoveAlike(disk: Disk, n: nat, f: Faults, i: nat)
    requires 0 < n && Moves(disk, n, f, n) && i < n
    ensures Moves(disk, n, f, i) <==> Moves(Renamed(disk, n, n + 1), n - 1, f, i)
  {
  }

  lemma {:induction false} RolledMoves(disk: Disk, n: nat, f: Faults)
    ensures IsRolled(disk, n, f, Rolled(disk, n, f).0)
    ensures Rolled(disk, n, f).1 <==> Moves(disk, n, f, 0)
    decreases n
  {
    if n > 0 {
      var r := Rolled(disk, n, f).0;
      if n !in disk.names || n in f.missed {
        RolledMoves(disk, n - 1, f);
        forall m: nat ensures HoldsRolled(disk, n, f, r, m) {
          NoMoveAlike(disk, n, f, m);
          if m > 0 { NoMoveAlike(disk, n, f, m - 1); }
          assert HoldsRolled(disk, n - 1, f, r, m);
        }
        NoMoveAlike(disk, n, f, 0);
      } else if n !in f.renameFails {
        var renamed := Renamed(disk, n, n + 1);
        RolledMoves(renamed, n - 1, f);
        forall m: nat ensures HoldsRolled(disk, n, f, r, m) {
          if m < n { MoveAlike(disk, n, f, m); }
          if 0 < m <= n { MoveAlike(disk, n, f, m - 1); }
          assert HoldsRolled(renamed, n - 1, f, r, m);
        }
        MoveAlike(disk, n, f, 0);
      }
    }
  }

  // ---------------------------------------------------------------------------
  // Skipping: a generation is missed, and the next newer one moves onto it
  // ---------------------------------------------------------------------------

  /**
    Some generation is not found when it should move, the next newer one is renamed
    over it, and a file older than it is still there.
   */
  ghost predicate SkipsFrom(disk: Disk, top: nat, keep: nat, f: Faults) {
    exists n: nat :: SkipsAt(disk, top, keep, f, n)
  }

  /** Generation `n + 1` stays while `n` moves onto it. */
  ghost predicate SkipsAt(disk: Disk, top: nat, keep: nat, f: Faults, n: nat) {
    && Moves(disk, top, f, n)
    && n + 1 in disk.names && (n == top || n + 1 in f.missed)
    && HasOlder(disk, n + 1, keep)
  }

  /** A rotation that finds every generation skips none. */
  lemma FoundIsNotSkipped(disk: Disk, top: nat, keep: nat, f: Faults)
    requires f.missed == {} && keep == top + 1
    ensures !SkipsFrom(disk, top, keep, f)
  {
    forall n: nat ensures !SkipsAt(disk, top, keep, f, n) {
    }
  }

  lemma OnlyOldestIsNotSkipped(disk: Disk, top: nat, keep: nat, f: Faults)
    requires keep == top + 1 && forall m: nat | m < keep :: m !in disk.names
    ensures !SkipsFrom(Removed(disk, keep), top, keep, f)
  {
    forall n: nat ensures !SkipsAt(Removed(disk, keep), top, keep, f, n) {
    }
  }

  ghost predicate NamesApart(disk: Disk) {
    forall m, n | m in disk.names && n in disk.names && m != n :: disk.names[m] != disk.names[n]
  }

  lemma SkipLeavesGap(disk: Disk, keep: nat, f: Faults, r: Disk)
    requires keep > 0 && NamesApart(disk) && IsRolled(disk, keep - 1, f, r)
    requires SkipsFrom(disk, keep - 1, keep, f)
    ensures Gap(disk, r, keep)
  {
    var top := keep - 1;
    var n: nat :| SkipsAt(disk, top, keep, f, n);
    var m: nat :| n + 1 < m <= keep && m in disk.names;
    // The older file itself, or the one that has been moved onto it.
    var older: nat := if Moves(disk, top, f, m - 1) then m - 1 else m;
    assert n + 1 < older;
    assert IsRead(r, disk.names[older], keep) by {
      assert HoldsRolled(disk, top, f, r, m) && HoldsRolled(disk, top, f, r, m + 1);
    }
    forall k: nat | k <= keep && k in r.names ensures r.names[k] != disk.names[n + 1] {
      assert HoldsRolled(disk, top, f, r, k);
    }
    assert !IsRead(r, disk.names[n + 1], keep);
  }

  lemma GapIsASkip(disk: Disk, keep: nat, f: Faults, r: Disk)
    requires keep > 0 && IsRolled(disk, keep - 1, f, r)
    requires Gap(disk, r, keep)
    ensures SkipsFrom(disk, keep - 1, keep, f)
  {
    var top := keep - 1;
    var a: nat, b: nat :| a < b <= keep && a in disk.names && b in disk.names
                          && IsRead(r, disk.names[b], keep) && !IsRead(r, disk.names[a], keep);
    assert HoldsRolled(disk, top, f, r, a) && HoldsRolled(disk, top, f, r, a + 1);
    assert !Moves(disk, top, f, a);
    var n: nat := a - 1;
    assert Moves(disk, top, f, n);
    assert HasOlder(disk, a, keep);
    assert SkipsAt(disk, top, keep, f, n);
  }

  // ---------------------------------------------------------------------------
  // Rolling keeps the reading
  // ---------------------------------------------------------------------------

  /** A rename drops what had the new name from the reading, and moves nothing else. */
  lemma RenamedOnto(disk: Disk, n: nat)
    requires n in disk.names
    ensures Reading(Renamed(disk, n, n + 1), n + 1) == Reading(disk, n)
  {
    var moved := Renamed(disk, n, n + 1);
    if n > 0 {
      SameBelow(moved, disk, n - 1);
    }
    var below := if n == 0 then [] else Reading(disk, n - 1);
    assert Held(moved, n + 1) == Held(disk, n) && Held(moved, n) == [];
    assert Reading(moved, n) == below;
  }

  lemma {:induction false} RenamedIntoFree(disk: Disk, n: nat, k: nat)
    requires n in disk.names && n < k && n + 1 !in disk.names
    ensures Reading(Renamed(disk, n, n + 1), k) == Reading(disk, k)
  {
    var moved := Renamed(disk, n, n + 1);
    if k == n + 1 {
      RenamedOnto(disk, n);
      assert Held(disk, k) == [];
    } else {
      RenamedIntoFree(disk, n, k - 1);
      assert Held(moved, k) == Held(disk, k);
    }
  }

  /** Renaming over the oldest generation, or into a free name, keeps the order. */
  lemma RenamedReads(disk: Disk, n: nat, k: nat)
    requires n in disk.names && n < k
    requires n + 1 in disk.names ==> !HasOlder(disk, n + 1, k)
    ensures IsSuffix(Reading(Renamed(disk, n, n + 1), k), Reading(disk, k))
  {
    var moved := Renamed(disk, n, n + 1);
    if n + 1 in disk.names {
      RenamedOnto(disk, n);
      assert !HasOlder(moved, n + 1, k);
      NothingAbove(disk, n + 1, k);
      NothingAbove(moved, n + 1, k);
      TailIsSuffix(Held(disk, n + 1), Reading(disk, n));
    } else {
      RenamedIntoFree(disk, n, k);
      TailIsSuffix([], Reading(disk, k));
    }
  }

  /** What the later renames skip, the whole rotation skips. */
  lemma SkipsLater(disk: Disk, n: nat, keep: nat, f: Faults)
    requires 0 < n < keep
    ensures (n !in disk.names || n in f.missed) && SkipsFrom(disk, n - 1, keep, f) ==> SkipsFrom(disk, n, keep, f)
    ensures Moves(disk, n, f, n) && SkipsFrom(Renamed(disk, n, n + 1), n - 1, keep, f) ==> SkipsFrom(disk, n, keep, f)
  {
    if (n !in disk.names || n in f.missed) && SkipsFrom(disk, n - 1, keep, f) {
      var i: nat :| SkipsAt(disk, n - 1, keep, f, i);
      NoMoveAlike(disk, n, f, i);
      assert SkipsAt(disk, n, keep, f, i);
    }
    if Moves(disk, n, f, n) && SkipsFrom(Renamed(disk, n, n + 1), n - 1, keep, f) {
      var i: nat :| SkipsAt(Renamed(disk, n, n + 1), n - 1, keep, f, i);
      MoveAlike(disk, n, f, i);
      OlderAlike(disk, n, i + 1, keep);
      assert SkipsAt(disk, n, keep, f, i);
    }
  }

  lemma OlderAlike(disk: Disk, n: nat, i: nat, keep: nat)
    requires n in disk.names && i <= n < keep
    ensures i < n && HasOlder(Renamed(disk, n, n + 1), i, keep) ==> HasOlder(disk, i, keep)
  {
    var renamed := Renamed(disk, n, n + 1);
    if i < n && HasOlder(renamed, i, keep) {
      var m: nat :| i < m <= keep && m in renamed.names;
      assert m != n + 1 ==> m in disk.names;
    }
  }

  /** The renames of a rotation keep the order, wherever they stop, unless they skip. */
  lemma {:induction false} RolledReads(disk: Disk, n: nat, keep: nat, f: Faults)
    requires n < keep && !SkipsFrom(disk, n, keep, f)
    ensures IsSuffix(Reading(Rolled(disk, n, f).0, keep), Reading(disk, keep))
    decreases n
  {
    TailIsSuffix([], Reading(disk, keep));
    if n > 0 {
      SkipsLater(disk, n, keep, f);
    }
    if Moves(disk, n, f, n) {
      assert !SkipsAt(disk, n, keep, f, n);
      RenamedReads(disk, n, keep);
      if n > 0 {
        var renamed := Renamed(disk, n, n + 1);
        RolledReads(renamed, n - 1, keep, f);
        SuffixTransitive(Reading(Rolled(renamed, n - 1, f).0, keep), Reading(renamed, keep), Reading(disk, keep));
      }
    } else if n > 0 && (n !in disk.names || n in f.missed) {
      RolledReads(disk, n - 1, keep, f);
    }
  }

  /** Rolling never passes the newest file, and moves it if it is the active one and nothing fails. */
  lemma RolledPlaces(disk: Disk, id: FileId, top: nat, f: Faults, r: Disk, h: nat) returns (h': nat)
    requires IsRolled(disk, top, f, r) && Newest(disk, id, h) && h <= top + 1
    ensures Newest(r, id, h') && h' <= top + 1
    ensures h' == if Moves(disk, top, f, h) then h + 1 else h
  {
    h' := if Moves(disk, top, f, h) then h + 1 else h;
    assert HoldsRolled(disk, top, f, r, h');
    forall m: nat | m in r.names ensures h' <= m {
      assert HoldsRolled(disk, top, f, r, m);
    }
  }

  // ---------------------------------------------------------------------------
  // One rotation
  // ---------------------------------------------------------------------------

  /** The disk once the oldest generation has been removed, or could not be. */
  function Purged(log: Log, f: Faults): Disk {
    if f.removeFails then log.disk else Removed(log.disk, log.keep)
  }

  /**
    The one way a rotation lets go of the file being written: an earlier one
    could not reopen the active name, and the open file has since been shifted
    all the way to the generation that is removed.
   */
  predicate LetsGo(log: Log, f: Faults) {
    && log.keep > 0 && !f.rotateSyncFails && !f.removeFails
    && log.keep in log.disk.names && log.disk.names[log.keep] == log.handle
  }

  ghost predicate RotationSkips(log: Log, f: Faults) {
    log.keep > 0 && !f.rotateSyncFails && SkipsFrom(Purged(log, f), log.keep - 1, log.keep, f)
  }

  lemma GenerationsAreRolled(log: Log, f: Faults)
    requires log.Valid() && log.keep > 0
    ensures var (rolled, ok) := Rolled(Purged(log, f), log.keep - 1, f);
            && (ok ==> 0 !in rolled.names) && IsSound(rolled, log.nextId)
            && RotatedGenerations(log, f).0
               == if ok && !f.reopenFails then Opened(log, rolled, false) else log.(disk := rolled)
  {
    RolledIsShiftedThenMoved(Purged(log, f), log.keep - 1, f);
    var (shifted, moved) := Shifted(Purged(log, f), log.keep - 1, f);
    assert RotatedGenerations(log, f) ==
           if !moved then (log.(disk := shifted), false) else ActiveReplaced(log.(disk := shifted), f);
    ReplacedIsRolled(log, shifted, f);
  }

  lemma ReplacedIsRolled(log: Log, shifted: Disk, f: Faults)
    requires log.(disk := shifted).Valid()
    ensures ActiveReplaced(log.(disk := shifted), f).0 ==
            if 0 !in shifted.names || 0 in f.renameFails then log.(disk := shifted)
            else if f.reopenFails then log.(disk := Renamed(shifted, 0, 1))
            else Opened(log, Renamed(shifted, 0, 1), false)
  {
  }

  lemma PurgedAndRolledPlace(log: Log, f: Faults, h: nat) returns (h': nat)
    requires log.keep > 0 && OpenAt(log, h) && (f.removeFails || h != log.keep)
    ensures h' <= log.keep && Newest(Rolled(Purged(log, f), log.keep - 1, f).0, log.handle, h')
    ensures h == 0 && !Rolled(Purged(log, f), log.keep - 1, f).1 ==> h' == 0
  {
    RolledMoves(Purged(log, f), log.keep - 1, f);
    h' := RolledPlaces(Purged(log, f), log.handle, log.keep - 1, f, Rolled(Purged(log, f), log.keep - 1, f).0, h);
  }

  lemma GenerationsPlace(log: Log, f: Faults, h: nat) returns (h': nat)
    requires log.Valid() && log.keep > 0 && OpenAt(log, h) && (f.removeFails || h != log.keep)
    ensures OpenAt(RotatedGenerations(log, f).0, h') && RotatedGenerations(log, f).0.keep == log.keep
    ensures h == 0 && !f.reopenFails ==> h' == 0
  {
    GenerationsAreRolled(log, f);
    h' := PurgedAndRolledPlace(log, f, h);
    if Rolled(Purged(log, f), log.keep - 1, f).1 && !f.reopenFails {
      h' := 0;
    }
  }

  lemma RolledFromOld(disk: Disk, top: nat, f: Faults, r: Disk, id: FileId)
    requires IsRolled(disk, top, f, r) && IsRead(r, id, top + 1)
    ensures IsRead(disk, id, top + 1)
  {
    var n: nat :| n <= top + 1 && n in r.names && r.names[n] == id;
    assert HoldsRolled(disk, top, f, r, n);
    var m: nat := if n > 0 && Moves(disk, top, f, n - 1) then n - 1 else n;
    assert m in disk.names && disk.names[m] == id;
  }

  /** The removed generation leaves no gap: nothing older is read. */
  lemma PurgedGap(disk: Disk, r: Disk, keep: nat)
    requires keep > 0 && NamesApart(disk)
    requires forall id: FileId :: IsRead(r, id, keep) ==> IsRead(Removed(disk, keep), id, keep)
    ensures Gap(disk, r, keep) <==> Gap(Removed(disk, keep), r, keep)
  {
    var removed := Removed(disk, keep);
    if Gap(disk, r, keep) {
      var a: nat, b: nat :| a < b <= keep && a in disk.names && b in disk.names
                            && IsRead(r, disk.names[b], keep) && !IsRead(r, disk.names[a], keep);
      assert IsRead(removed, disk.names[b], keep);
      assert b != keep;
      assert a in removed.names && b in removed.names;
    }
    if Gap(removed, r, keep) {
      var a: nat, b: nat :| a < b <= keep && a in removed.names && b in removed.names
                            && IsRead(r, removed.names[b], keep) && !IsRead(r, removed.names[a], keep);
      assert a in disk.names && b in disk.names;
    }
  }

  /** Nor does the new active file hide one. */
  lemma ReopenedGap(log: Log, rolled: Disk)
    requires log.Valid() && 0 !in rolled.names && IsSound(rolled, log.nextId)
    ensures Gap(log.disk, Opened(log, rolled, false).disk, log.keep) <==> Gap(log.disk, rolled, log.keep)
  {
    var after := Opened(log, rolled, false).disk;
    forall id: FileId | id < log.nextId ensures IsRead(after, id, log.keep) <==> IsRead(rolled, id, log.keep) {
      if IsRead(rolled, id, log.keep) {
        var n: nat :| n <= log.keep && n in rolled.names && rolled.names[n] == id;
        assert n in after.names && after.names[n] == id;
      }
      if IsRead(after, id, log.keep) {
        var n: nat :| n <= log.keep && n in after.names && after.names[n] == id;
        assert n in rolled.names && rolled.names[n] == id;
      }
    }
  }

  lemma RolledGap(log: Log, f: Faults, rolled: Disk)
    requires log.keep > 0 && NamesApart(log.disk)
    requires IsRolled(Purged(log, f), log.keep - 1, f, rolled)
    ensures Gap(log.disk, rolled, log.keep) <==> SkipsFrom(Purged(log, f), log.keep - 1, log.keep, f)
  {
    var purged := Purged(log, f);
    if !f.removeFails {
      forall id: FileId | IsRead(rolled, id, log.keep) ensures IsRead(purged, id, log.keep) {
        RolledFromOld(purged, log.keep - 1, f, rolled, id);
      }
      PurgedGap(log.disk, rolled, log.keep);
    }
    if SkipsFrom(purged, log.keep - 1, log.keep, f) {
      SkipLeavesGap(purged, log.keep, f, rolled);
    }
    if Gap(purged, rolled, log.keep) {
      GapIsASkip(purged, log.keep, f, rolled);
    }
  }

  /** A rotation leaves a gap exactly when it skips. */
  lemma GenerationsGap(log: Log, f: Faults)
    requires log.Valid() && log.keep > 0
    ensures Gap(log.disk, RotatedGenerations(log, f).0.disk, log.keep) <==>
            SkipsFrom(Purged(log, f), log.keep - 1, log.keep, f)
  {
    var (rolled, ok) := Rolled(Purged(log, f), log.keep - 1, f);
    GenerationsAreRolled(log, f);
    RolledMoves(Purged(log, f), log.keep - 1, f);
    RolledGap(log, f, rolled);
    if ok {
      ReopenedGap(log, rolled);
    }
  }

  lemma RemovedReads(disk: Disk, n: nat)
    requires n > 0
    ensures IsSuffix(Reading(Removed(disk, n), n), Reading(disk, n))
  {
    SameBelow(Removed(disk, n), disk, n - 1);
    assert Reading(Removed(disk, n), n) == Reading(disk, n - 1);
    TailIsSuffix(Held(disk, n), Reading(disk, n - 1));
  }

  lemma PurgedAndRolledReads(log: Log, f: Faults)
    requires log.keep > 0 && !SkipsFrom(Purged(log, f), log.keep - 1, log.keep, f)
    ensures IsSuffix(Reading(Rolled(Purged(log, f), log.keep - 1, f).0, log.keep), Reading(log.disk, log.keep))
  {
    if f.removeFails {
      TailIsSuffix([], Reading(log.disk, log.keep));
    } else {
      RemovedReads(log.disk, log.keep);
    }
    RolledReads(Purged(log, f), log.keep - 1, log.keep, f);
    SuffixTransitive(Reading(Rolled(Purged(log, f), log.keep - 1, f).0, log.keep),
                     Reading(Purged(log, f), log.keep), Reading(log.disk, log.keep));
  }

  lemma ReopenedReads(log: Log, rolled: Disk)
    requires 0 !in rolled.names && IsSound(rolled, log.nextId)
    ensures Reading(Opened(log, rolled, false).disk, log.keep) == Reading(rolled, log.keep)
  {
    SameBelow(Opened(log, rolled, false).disk, rolled, log.keep);
  }

  lemma GenerationsRead(log: Log, f: Faults)
    requires log.Valid() && log.keep > 0 && !SkipsFrom(Purged(log, f), log.keep - 1, log.keep, f)
    ensures IsSuffix(Reading(RotatedGenerations(log, f).0.disk, log.keep), Reading(log.disk, log.keep))
  {
    var (rolled, ok) := Rolled(Purged(log, f), log.keep - 1, f);
    GenerationsAreRolled(log, f);
    PurgedAndRolledReads(log, f);
    if ok {
      ReopenedReads(log, rolled);
    }
  }

  lemma SyncedReads(log: Log, n: nat)
    requires log.Valid()
    ensures Reading(Synced(log.disk, log.handle), n) == Reading(log.disk, n)
  {
    SameBelow(Synced(log.disk, log.handle), log.disk, n);
  }

  lemma NoGap(disk: Disk, keep: nat)
    ensures !Gap(disk, disk, keep)
  {
    assert forall n: nat | n <= keep && n in disk.names :: IsRead(disk, disk.names[n], keep);
  }

  /** Renames look at names alone, not at what is on disk of a file. */
  lemma {:induction false} SyncedSkips(log: Log, f: Faults)
    requires log.Valid()
    ensures var synced := log.(disk := Synced(log.disk, log.handle));
            RotationSkips(synced, f) <==> RotationSkips(log, f)
  {
    if log.keep > 0 {
      var synced := log.(disk := Synced(log.disk, log.handle));
      SameNamesSkip(Purged(synced, f), Purged(log, f), log.keep - 1, log.keep, f);
      SameNamesSkip(Purged(log, f), Purged(synced, f), log.keep - 1, log.keep, f);
    }
  }

  lemma SameNamesSkip(d: Disk, e: Disk, top: nat, keep: nat, f: Faults)
    requires d.names == e.names
    ensures SkipsFrom(d, top, keep, f) ==> SkipsFrom(e, top, keep, f)
  {
    if SkipsFrom(d, top, keep, f) {
      var n: nat :| SkipsAt(d, top, keep, f, n);
      assert SkipsAt(e, top, keep, f, n);
    }
  }

  lemma SameNamesGap(d: Disk, e: Disk, r: Disk, keep: nat)
    requires d.names == e.names
    ensures Gap(d, r, keep) ==> Gap(e, r, keep)
  {
    if Gap(d, r, keep) {
      var a: nat, b: nat :| a < b <= keep && a in d.names && b in d.names
                            && IsRead(r, d.names[b], keep) && !IsRead(r, d.names[a], keep);
      assert IsRead(r, e.names[b], keep) && !IsRead(r, e.names[a], keep);
    }
  }

  /** A rotation that never lets go of the open file leaves it the newest. */
  lemma RotatedPlace(log: Log, f: Faults, h: nat) returns (h': nat)
    requires log.Valid() && OpenAt(log, h) && !LetsGo(log, f)
    ensures OpenAt(Rotated(log, f).0, h') && Rotated(log, f).0.keep == log.keep
    ensures h == 0 && !f.reopenFails ==> h' == 0
  {
    h' := h;
    if !f.rotateSyncFails && log.keep > 0 {
      h' := GenerationsPlace(log.(disk := Synced(log.disk, log.handle)), f, h);
    }
  }

  /** A rotation leaves a gap exactly when it skips, whatever else fails. */
  lemma RotatedGap(log: Log, f: Faults)
    requires log.Valid()
    ensures Gap(log.disk, Rotated(log, f).0.disk, log.keep) <==> RotationSkips(log, f)
  {
    if f.rotateSyncFails {
      NoGap(log.disk, log.keep);
    } else if log.keep > 0 {
      var synced := log.(disk := Synced(log.disk, log.handle));
      SyncedSkips(log, f);
      GenerationsGap(synced, f);
      SameNamesGap(synced.disk, log.disk, Rotated(log, f).0.disk, log.keep);
      SameNamesGap(log.disk, synced.disk, Rotated(log, f).0.disk, log.keep);
    }
  }

  /** Keeping no generations, a rotation empties the file or leaves it. */
  lemma TruncatedReads(log: Log, f: Faults)
    requires log.Valid() && log.keep == 0
    ensures IsSuffix(Reading(Rotated(log, f).0.disk, 0), Reading(log.disk, 0))
  {
    if f.rotateSyncFails || f.reopenFails {
      SyncedReads(log, 0);
      TailIsSuffix([], Reading(log.disk, 0));
    } else {
      assert Reading(Rotated(log, f).0.disk, 0) == [];
      TailIsSuffix(Reading(log.disk, 0), []);
    }
  }

  /** A rotation that does not skip keeps the order and drops only from the old end, wherever it stops. */
  lemma RotatedReads(log: Log, f: Faults)
    requires log.Valid() && !RotationSkips(log, f)
    ensures IsSuffix(Reading(Rotated(log, f).0.disk, log.keep), Reading(log.disk, log.keep))
  {
    if log.keep == 0 {
      TruncatedReads(log, f);
    } else if f.rotateSyncFails {
      TailIsSuffix([], Reading(log.disk, log.keep));
    } else {
      SyncedReads(log, log.keep);
      SyncedSkips(log, f);
      GenerationsRead(log.(disk := Synced(log.disk, log.handle)), f);
    }
  }
}
