/**
  Inode numbers for paths. Two maps are permanent, and forgotten only by name;
  the metadata beside them may be evicted at any moment.
 */
module InodeCache {
  import opened Paths

  datatype Option<T> = None | Some(value: T)

  type Ino = nat

  datatype Entry = Entry(ino: Ino, path: string, size: Option<nat>)

  const ROOT: Ino := 1

  class InodeCache {
    const fold: CaseMap
    var nextIno: Ino
    var byIno: map<Ino, Entry>
    var pathToIno: map<string, Ino>
    var inoToPath: map<Ino, string>
    /** The lowercased path each inode was first handed out for. */
    ghost var allocatedFor: map<Ino, string>

    /** Metadata still cached names the path the permanent map names. */
    ghost predicate Valid()
      reads this
    {
      forall i | i in byIno :: i in inoToPath && byIno[i].path == inoToPath[i]
    }

    /** What the maps say of each other while callers insert only what they allocated. */
    ghost predicate Consistent()
      reads this
    {
      && ROOT < nextIno
      && (forall i | i in allocatedFor :: i < nextIno)
      && (forall k | k in pathToIno :: pathToIno[k] in allocatedFor && allocatedFor[pathToIno[k]] == k)
      && (forall i | i in inoToPath :: i in allocatedFor && allocatedFor[i] == Fold(fold, inoToPath[i]))
    }

    ghost predicate WasAllocatedFor(ino: Ino, path: string)
      reads this
    {
      ino in allocatedFor && allocatedFor[ino] == Fold(fold, path)
    }

    /** Inodes once handed out keep their path, whatever has been forgotten since. */
    twostate predicate KeepsAllocations()
      reads this
    {
      forall i | i in old(allocatedFor) :: i in allocatedFor && allocatedFor[i] == old(allocatedFor)[i]
    }

    constructor (fold: CaseMap)
      ensures this.fold == fold && Valid() && Consistent()
      ensures pathToIno == map[] && inoToPath == map[] && byIno == map[] && allocatedFor == map[]
    {
      this.fold := fold;
      nextIno := 2;  // 1 is reserved for the root
      byIno, pathToIno, inoToPath, allocatedFor := map[], map[], map[], map[];
    }

    /** The cache may drop metadata whenever it likes. */
    method Evict(gone: set<Ino>)
      requires Valid()
      modifies this`byIno
      ensures Valid()
      ensures byIno == old(byIno) - gone
    {
      byIno := byIno - gone;
    }

    method GetOrAllocIno(path: string) returns (ino: Ino)
      modifies this`nextIno, this`pathToIno, this`allocatedFor
      ensures old(Valid()) ==> Valid()
      ensures pathToIno == old(pathToIno)[Fold(fold, path) := ino]
      ensures Fold(fold, path) in old(pathToIno) ==>
                ino == old(pathToIno)[Fold(fold, path)] && nextIno == old(nextIno) && allocatedFor == old(allocatedFor)
      ensures Fold(fold, path) !in old(pathToIno) ==>
                ino == old(nextIno) && nextIno == ino + 1 && allocatedFor == old(allocatedFor)[ino := Fold(fold, path)]
      ensures old(Consistent()) ==> Consistent() && WasAllocatedFor(ino, path) && KeepsAllocations()
    {
      var key := Fold(fold, path);
      if key in pathToIno {
        return pathToIno[key];
      }
      ino := nextIno;
      nextIno := nextIno + 1;
      pathToIno := pathToIno[key := ino];
      allocatedFor := allocatedFor[ino := key];
    }

    method Insert(ino: Ino, path: string, size: Option<nat>)
      requires Valid()
      modifies this`byIno, this`pathToIno, this`inoToPath
      ensures Valid()
      ensures byIno == old(byIno)[ino := Entry(ino, path, size)]
      ensures pathToIno == old(pathToIno)[Fold(fold, path) := ino]
      ensures inoToPath == old(inoToPath)[ino := path]
      ensures old(Consistent()) && WasAllocatedFor(ino, path) ==> Consistent()
    {
      byIno := byIno[ino := Entry(ino, path, size)];
      pathToIno := pathToIno[Fold(fold, path) := ino];
      inoToPath := inoToPath[ino := path];
    }

    method SeedRoot(path: string, size: Option<nat>)
      requires Valid()
      modifies this
      ensures Valid() && nextIno == old(nextIno)
      ensures byIno == old(byIno)[ROOT := Entry(ROOT, path, size)]
      ensures pathToIno == old(pathToIno)[Fold(fold, path) := ROOT]
      ensures inoToPath == old(inoToPath)[ROOT := path]
      ensures old(Consistent()) && (ROOT in old(allocatedFor) ==> old(WasAllocatedFor(ROOT, path))) ==>
                Consistent() && WasAllocatedFor(ROOT, path) && KeepsAllocations()
    {
      byIno := byIno[ROOT := Entry(ROOT, path, size)];
      pathToIno := pathToIno[Fold(fold, path) := ROOT];
      inoToPath := inoToPath[ROOT := path];
      allocatedFor := allocatedFor[ROOT := Fold(fold, path)];
    }

    /** The path comes out the same whether or not the metadata has been evicted. */
    method GetPathForIno(ino: Ino) returns (path: Option<string>)
      requires Valid()
      ensures path == if ino in inoToPath then Some(inoToPath[ino]) else None
    {
      if ino in byIno {
        return Some(byIno[ino].path);
      }
      return if ino in inoToPath then Some(inoToPath[ino]) else None;
    }

    method InvalidatePrefix(prefix: string)
      requires Valid()
      modifies this`byIno, this`pathToIno, this`inoToPath
      ensures Valid()
      ensures pathToIno == map k | k in old(pathToIno) && !(Fold(fold, prefix) <= k) :: old(pathToIno)[k]
      ensures inoToPath == map i | i in old(inoToPath) && !IsSwept(old(pathToIno), Fold(fold, prefix), i)
                             :: old(inoToPath)[i]
      ensures byIno == map i | i in old(byIno) && !IsSwept(old(pathToIno), Fold(fold, prefix), i) :: old(byIno)[i]
      ensures old(Consistent()) ==> Consistent()
    {
      var lower := Fold(fold, prefix);
      var toRemove := set k | k in pathToIno && lower <= k;
      var rest := toRemove;
      while rest != {}
        invariant rest <= toRemove <= old(pathToIno).Keys
        invariant pathToIno == old(pathToIno) - (toRemove - rest)
        invariant inoToPath == old(inoToPath) - InosOf(old(pathToIno), toRemove - rest)
        invariant byIno == old(byIno) - InosOf(old(pathToIno), toRemove - rest)
        decreases rest
      {
        var path :| path in rest;
        var ino := pathToIno[path];
        InosOfOneMore(old(pathToIno), toRemove - rest, path);
        assert toRemove - (rest - {path}) == toRemove - rest + {path};
        byIno := byIno - {ino};
        inoToPath := inoToPath - {ino};
        pathToIno := pathToIno - {path};
        rest := rest - {path};
      }
      assert toRemove - rest == toRemove;
      SweptMap(old(pathToIno), lower, toRemove, old(inoToPath));
      SweptMap(old(pathToIno), lower, toRemove, old(byIno));
    }

    method InvalidatePath(path: string)
      requires Valid()
      modifies this`byIno, this`pathToIno, this`inoToPath
      ensures Valid()
      ensures var key := Fold(fold, path);
              if key in old(pathToIno) then
                var ino := old(pathToIno)[key];
                && pathToIno == old(pathToIno) - {key}
                && inoToPath == old(inoToPath) - {ino}
                && byIno == old(byIno) - {ino}
              else
                pathToIno == old(pathToIno) && inoToPath == old(inoToPath) && byIno == old(byIno)
      ensures old(Consistent()) ==> Consistent()
    {
      var key := Fold(fold, path);
      if key in pathToIno {
        var ino := pathToIno[key];
        byIno := byIno - {ino};
        inoToPath := inoToPath - {ino};
        pathToIno := pathToIno - {key};
      }
    }

    method GetInoForPath(path: string) returns (ino: Option<Ino>)
      ensures ino == if Fold(fold, path) in pathToIno then Some(pathToIno[Fold(fold, path)]) else None
    {
      var key := Fold(fold, path);
      return if key in pathToIno then Some(pathToIno[key]) else None;
    }

    /** Two paths share an inode only if they are one path, up to case. */
    lemma PathsHaveTheirOwnInode(j: string, k: string)
      requires Consistent()
      requires j in pathToIno && k in pathToIno && pathToIno[j] == pathToIno[k]
      ensures j == k
    {
      assert allocatedFor[pathToIno[j]] == j;
    }

    /** The inode's path leads back to it, up to case. */
    lemma InodeLeadsBack(path: string)
      requires Consistent() && Fold(fold, path) in pathToIno
      requires pathToIno[Fold(fold, path)] in inoToPath
      ensures Fold(fold, inoToPath[pathToIno[Fold(fold, path)]]) == Fold(fold, path)
    {
      assert allocatedFor[pathToIno[Fold(fold, path)]] == Fold(fold, path);
    }
  }

  /** `ino` belongs to a path that starts with `prefix`. */
  ghost predicate IsSwept(paths: map<string, Ino>, prefix: string, ino: Ino) {
    exists k | k in paths :: prefix <= k && paths[k] == ino
  }

  lemma SweptInos(paths: map<string, Ino>, prefix: string, keys: set<string>)
    requires keys == set k | k in paths && prefix <= k
    ensures forall i: Ino :: i in InosOf(paths, keys) <==> IsSwept(paths, prefix, i)
  {
    forall i: Ino | IsSwept(paths, prefix, i) ensures i in InosOf(paths, keys) {
      var k :| k in paths && prefix <= k && paths[k] == i;
      assert k in keys;
    }
  }

  lemma SweptMap<T>(paths: map<string, Ino>, prefix: string, keys: set<string>, m: map<Ino, T>)
    requires keys == set k | k in paths && prefix <= k
    ensures m - InosOf(paths, keys) == map i | i in m && !IsSwept(paths, prefix, i) :: m[i]
  {
    SweptInos(paths, prefix, keys);
  }

  ghost function InosOf(paths: map<string, Ino>, keys: set<string>): set<Ino>
    requires keys <= paths.Keys
  {
    set k | k in keys :: paths[k]
  }

  lemma InosOfOneMore(paths: map<string, Ino>, keys: set<string>, key: string)
    requires keys <= paths.Keys && key in paths
    ensures InosOf(paths, keys + {key}) == InosOf(paths, keys) + {paths[key]}
  {
  }
}

/**
  Callers racing through the double-checked lock of `get_or_alloc_ino`: the look
  under the read lock and the second look under the write lock are separate steps.
 */
module InodeRace {
  type Caller = nat
  type Ino = nat

  datatype Looking = Missed(key: string) | Got(key: string, ino: Ino)

  datatype Race = Race(next: Ino, pathToIno: map<string, Ino>, callers: map<Caller, Looking>)

  datatype Step =
    | FirstLook(caller: Caller, key: string)
    | SecondLook(caller: Caller)
    | Inserted(caller: Caller)  // a caller stores metadata under the path it asked for

  predicate Enabled(r: Race, s: Step) {
    match s
    case FirstLook(c, _) => c !in r.callers
    case SecondLook(c) => c in r.callers && r.callers[c].Missed?
    case Inserted(c) => c in r.callers && r.callers[c].Got?
  }

  function Next(r: Race, s: Step): Race
    requires Enabled(r, s)
  {
    match s
    case FirstLook(c, key) =>
      r.(callers := r.callers[c := if key in r.pathToIno then Got(key, r.pathToIno[key]) else Missed(key)])
    case SecondLook(c) =>
      var key := r.callers[c].key;
      if key in r.pathToIno then r.(callers := r.callers[c := Got(key, r.pathToIno[key])])
      else Race(r.next + 1, r.pathToIno[key := r.next], r.callers[c := Got(key, r.next)])
    case Inserted(c) => r.(pathToIno := r.pathToIno[r.callers[c].key := r.callers[c].ino])
  }

  ghost predicate Inv(r: Race) {
    && (forall c | c in r.callers && r.callers[c].Got? ::
          r.callers[c].key in r.pathToIno && r.pathToIno[r.callers[c].key] == r.callers[c].ino)
    && (forall k | k in r.pathToIno :: r.pathToIno[k] < r.next)
    && (forall j, k | j in r.pathToIno && k in r.pathToIno :: r.pathToIno[j] == r.pathToIno[k] ==> j == k)
  }

  ghost predicate IsRun(r: Race, run: seq<Step>)
    decreases |run|
  {
    run == [] || (Enabled(r, run[0]) && IsRun(Next(r, run[0]), run[1..]))
  }

  ghost function After(r: Race, run: seq<Step>): Race
    requires IsRun(r, run)
    decreases |run|
  {
    if run == [] then r else After(Next(r, run[0]), run[1..])
  }

  lemma {:induction false} RunKeepsInv(r: Race, run: seq<Step>)
    requires Inv(r) && IsRun(r, run)
    ensures Inv(After(r, run))
    decreases |run|
  {
    if run != [] {
      RunKeepsInv(Next(r, run[0]), run[1..]);
    }
  }

  /** As long as nothing is invalidated, callers agree: one inode a path, one path an inode. */
  lemma RacersAgree(root: string, run: seq<Step>, c: Caller, d: Caller)
    requires IsRun(Race(2, map[root := 1], map[]), run)
    requires var end := After(Race(2, map[root := 1], map[]), run);
             c in end.callers && d in end.callers && end.callers[c].Got? && end.callers[d].Got?
    ensures var end := After(Race(2, map[root := 1], map[]), run);
            end.callers[c].key == end.callers[d].key <==> end.callers[c].ino == end.callers[d].ino
  {
    RunKeepsInv(Race(2, map[root := 1], map[]), run);
  }
}
