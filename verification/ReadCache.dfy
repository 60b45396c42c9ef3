/**
  File data in fixed-size blocks: what a reader is handed, and whose download is
  whose. The block store may drop anything at any moment; the claims may not.
 */
module ReadCache {

  datatype Option<T> = None | Some(value: T)

  type Bytes = seq<bv8>

  datatype Key = Key(ino: nat, idx: nat)

  /** What has been put into the cache, and deliberately taken out of it. */
  datatype Event =
    | Inserted(key: Key, data: Bytes)
    | DroppedBlock(key: Key)
    | DroppedIno(ino: nat)

  /** The bytes last inserted for `key` since it or its inode was last invalidated. */
  ghost function Latest(history: seq<Event>, key: Key): Option<Bytes> {
    if history == [] then None
    else
      match history[|history| - 1]
      case Inserted(k, data) => if k == key then Some(data) else Latest(history[..|history| - 1], key)
      case DroppedBlock(k) => if k == key then None else Latest(history[..|history| - 1], key)
      case DroppedIno(ino) => if ino == key.ino then None else Latest(history[..|history| - 1], key)
  }

  lemma LatestAfter(history: seq<Event>, e: Event, key: Key)
    ensures Latest(history + [e], key) ==
            match e
            case Inserted(k, data) => if k == key then Some(data) else Latest(history, key)
            case DroppedBlock(k) => if k == key then None else Latest(history, key)
            case DroppedIno(ino) => if ino == key.ino then None else Latest(history, key)
  {
    assert (history + [e])[..|history|] == history;
  }

  /** Everything in `m` but what is kept for `ino`. */
  function Without<T>(m: map<Key, T>, ino: nat): map<Key, T> {
    map k | k in m && k.ino != ino :: m[k]
  }

  lemma IsWithout<T>(m: map<Key, T>, ino: nat, rest: map<Key, T>)
    requires forall k | k in rest :: k in m && rest[k] == m[k]
    requires forall k | k in m :: k in rest <==> k.ino != ino
    ensures rest == Without(m, ino)
  {
  }

  /** `left` is `arrived` but for the blocks of `ino` already swept, `rest` being those still to come. */
  ghost predicate IsSweeping(arrived: map<Key, Bytes>, left: map<Key, Bytes>, ino: nat, rest: set<nat>) {
    && (forall k | k in left :: k in arrived && left[k] == arrived[k])
    && (forall k | k in arrived :: k in left <==> k.ino != ino || k.idx in rest)
  }

  lemma SweepOne(arrived: map<Key, Bytes>, left: map<Key, Bytes>, ino: nat, rest: set<nat>, idx: nat)
    requires IsSweeping(arrived, left, ino, rest)
    ensures IsSweeping(arrived, left - {Key(ino, idx)}, ino, rest - {idx})
  {
  }

  lemma LatestWithout(history: seq<Event>, blocks: map<Key, Bytes>, ino: nat)
    requires forall k | k in blocks :: Latest(history, k) == Some(blocks[k])
    ensures forall k | k in Without(blocks, ino) ::
              Latest(history + [DroppedIno(ino)], k) == Some(Without(blocks, ino)[k])
  {
    forall k | k in Without(blocks, ino) {
      LatestAfter(history, DroppedIno(ino), k);
    }
  }

  /** A block being downloaded. Its waiters hold it too. */
  class BlockSlot {
    var resolved: bool

    constructor ()
      ensures !resolved
    {
      resolved := false;
    }
  }

  class ReadCache {
    var blocks: map<Key, Bytes>
    var inoBlocks: map<nat, set<nat>>
    var inFlight: map<Key, BlockSlot>
    ghost var history: seq<Event>

    /** Every cached block is the latest insertion, and is known to its inode. */
    ghost predicate BlocksValid()
      reads `blocks, `inoBlocks, `history
    {
      && (forall k | k in blocks :: Latest(history, k) == Some(blocks[k]))
      && (forall k | k in blocks :: k.ino in inoBlocks && k.idx in inoBlocks[k.ino])
    }

    /** A claim's slot is its own, and still unresolved. */
    ghost predicate ClaimsValid()
      reads `inFlight, inFlight.Values
    {
      && (forall k | k in inFlight :: inFlight[k] in inFlight.Values && !inFlight[k].resolved)
      && (forall j, k | j in inFlight && k in inFlight && j != k :: inFlight[j] != inFlight[k])
    }

    ghost predicate Valid()
      reads this, inFlight.Values
    {
      BlocksValid() && ClaimsValid()
    }

    constructor ()
      ensures Valid() && history == [] && blocks == map[] && inFlight == map[]
    {
      blocks, inoBlocks, inFlight, history := map[], map[], map[], [];
    }

    /** Nothing, or the latest bytes inserted and not since invalidated. */
    method Get(ino: nat, idx: nat) returns (data: Option<Bytes>)
      requires Valid()
      ensures data.Some? ==> data == Latest(history, Key(ino, idx))
      ensures data.Some? <==> Key(ino, idx) in blocks
    {
      return if Key(ino, idx) in blocks then Some(blocks[Key(ino, idx)]) else None;
    }

    /** The store may drop blocks whenever it likes. */
    method Evict(gone: set<Key>)
      requires Valid()
      modifies this`blocks
      ensures Valid() && blocks == old(blocks) - gone
    {
      blocks := blocks - gone;
    }

    method Insert(ino: nat, idx: nat, data: Bytes)
      requires Valid()
      modifies this, if Key(ino, idx) in inFlight then {inFlight[Key(ino, idx)]} else {}
      ensures Valid()
      ensures history == old(history) + [Inserted(Key(ino, idx), data)]
      ensures blocks == old(blocks)[Key(ino, idx) := data]
      ensures inFlight == old(inFlight) - {Key(ino, idx)}
      ensures Key(ino, idx) in old(inFlight) ==> old(inFlight)[Key(ino, idx)].resolved
    {
      var key := Key(ino, idx);
      blocks := blocks[key := data];
      var known := if ino in inoBlocks then inoBlocks[ino] else {};
      inoBlocks := inoBlocks[ino := known + {idx}];
      history := history + [Inserted(key, data)];
      forall k | k in blocks ensures Latest(history, k) == Some(blocks[k]) {
        LatestAfter(old(history), Inserted(key, data), k);
      }
      Resolve(ino, idx);
    }

    /** Take the claim on a block, if it is free. */
    method ClaimInflight(ino: nat, idx: nat) returns (won: bool)
      requires Valid()
      modifies this`inFlight
      ensures Valid()
      ensures won <==> Key(ino, idx) !in old(inFlight)
      ensures won ==> Key(ino, idx) in inFlight && fresh(inFlight[Key(ino, idx)])
                      && inFlight == old(inFlight)[Key(ino, idx) := inFlight[Key(ino, idx)]]
      ensures !won ==> inFlight == old(inFlight)
    {
      if Key(ino, idx) in inFlight {
        return false;
      }
      var slot := new BlockSlot();
      inFlight := inFlight[Key(ino, idx) := slot];
      return true;
    }

    /** Take a claim out, if there is one, and let its waiters go. */
    method Resolve(ino: nat, idx: nat)
      requires ClaimsValid()
      modifies this`inFlight, if Key(ino, idx) in inFlight then {inFlight[Key(ino, idx)]} else {}
      ensures ClaimsValid()
      ensures inFlight == old(inFlight) - {Key(ino, idx)}
      ensures Key(ino, idx) in old(inFlight) ==> old(inFlight)[Key(ino, idx)].resolved
    {
      var key := Key(ino, idx);
      if key in inFlight {
        var slot := inFlight[key];
        inFlight := inFlight - {key};
        slot.resolved := true;
      }
    }

    method CancelInflight(ino: nat, idx: nat)
      requires Valid()
      modifies this`inFlight, if Key(ino, idx) in inFlight then {inFlight[Key(ino, idx)]} else {}
      ensures Valid()
      ensures inFlight == old(inFlight) - {Key(ino, idx)}
      ensures Key(ino, idx) in old(inFlight) ==> old(inFlight)[Key(ino, idx)].resolved
    {
      Resolve(ino, idx);
    }

    /** Evict one block. A download of it under way keeps its claim. */
    method InvalidateBlock(ino: nat, idx: nat)
      requires Valid()
      modifies this`blocks, this`inoBlocks, this`history
      ensures Valid()
      ensures history == old(history) + [DroppedBlock(Key(ino, idx))]
      ensures blocks == old(blocks) - {Key(ino, idx)}
    {
      blocks := blocks - {Key(ino, idx)};
      if ino in inoBlocks {
        inoBlocks := inoBlocks[ino := inoBlocks[ino] - {idx}];
      }
      history := history + [DroppedBlock(Key(ino, idx))];
      forall k | k in blocks ensures Latest(history, k) == Some(blocks[k]) {
        LatestAfter(old(history), DroppedBlock(Key(ino, idx)), k);
      }
    }

    /** After a write to the file or its removal: no block of `ino` is left, and nobody waits for one. */
    method InvalidateIno(ino: nat)
      requires Valid()
      modifies this, inFlight.Values
      ensures Valid()
      ensures history == old(history) + [DroppedIno(ino)]
      ensures blocks == Without(old(blocks), ino)
      ensures inFlight == Without(old(inFlight), ino)
      ensures forall k | k in old(inFlight) && k.ino == ino :: old(inFlight)[k].resolved
    {
      ghost var claims := inFlight;
      DropArrived(ino);
      ForgetArrived(ino, old(blocks));
      ReleaseClaims(ino, claims);
      IsWithout(claims, ino, inFlight);
    }

    ghost method ForgetArrived(ino: nat, before: map<Key, Bytes>)
      requires forall k | k in before :: Latest(history, k) == Some(before[k])
      requires forall k | k in before && k.ino != ino :: k.ino in inoBlocks && k.idx in inoBlocks[k.ino]
      requires blocks == Without(before, ino)
      modifies this`history
      ensures history == old(history) + [DroppedIno(ino)] && BlocksValid()
    {
      history := history + [DroppedIno(ino)];
      LatestWithout(old(history), before, ino);
    }

    /** Of `claims`, some on blocks of `ino` have been resolved, and the rest are as they were. */
    ghost predicate OnlyLetGo(claims: map<Key, BlockSlot>, ino: nat)
      reads `inFlight, claims.Values
    {
      && (forall k | k in inFlight :: k in claims && inFlight[k] == claims[k])
      && (forall k | k in claims && k !in inFlight :: k.ino == ino && claims[k] in claims.Values && claims[k].resolved)
    }

    /** `Resolve`, as one of the resolves of a sweep that began with `claims`. */
    method ResolveOneOf(ino: nat, idx: nat, ghost claims: map<Key, BlockSlot>)
      requires ClaimsValid() && OnlyLetGo(claims, ino)
      modifies this`inFlight, if Key(ino, idx) in inFlight then {inFlight[Key(ino, idx)]} else {}
      ensures ClaimsValid() && OnlyLetGo(claims, ino)
      ensures inFlight == old(inFlight) - {Key(ino, idx)}
      ensures Key(ino, idx) in old(inFlight) ==> old(inFlight)[Key(ino, idx)].resolved
    {
      Resolve(ino, idx);
    }

    /** The blocks of `ino` that arrived, and any claim beside them. */
    method DropArrived(ino: nat)
      requires Valid()
      modifies this`blocks, this`inoBlocks, this`inFlight, inFlight.Values
      ensures blocks == Without(old(blocks), ino)
      ensures inoBlocks == old(inoBlocks) - {ino}
      ensures ClaimsValid() && OnlyLetGo(old(inFlight), ino)
    {
      ghost var arrived, claims := blocks, inFlight;
      var rest := if ino in inoBlocks then inoBlocks[ino] else {};
      inoBlocks := inoBlocks - {ino};
      while rest != {}
        invariant IsSweeping(arrived, blocks, ino, rest)
        invariant inoBlocks == old(inoBlocks) - {ino}
        invariant inFlight.Values <= old(inFlight.Values)
        invariant ClaimsValid() && OnlyLetGo(claims, ino)
        decreases rest
      {
        var idx :| idx in rest;
        SweepOne(arrived, blocks, ino, rest, idx);
        blocks := blocks - {Key(ino, idx)};
        ResolveOneOf(ino, idx, claims);
        rest := rest - {idx};
      }
      IsWithout(arrived, ino, blocks);
    }

    /** Claims beside no arrival: their blocks are on the way still, with readers asleep on them. */
    method ReleaseClaims(ino: nat, ghost claims: map<Key, BlockSlot>)
      requires ClaimsValid() && OnlyLetGo(claims, ino)
      modifies this`inFlight, inFlight.Values
      ensures ClaimsValid() && OnlyLetGo(claims, ino)
      ensures forall k | k in inFlight :: k.ino != ino
    {
      var claimed := set k | k in inFlight && k.ino == ino;
      while claimed != {}
        invariant forall k | k in inFlight && k.ino == ino :: k in claimed
        invariant forall k | k in claimed :: k.ino == ino
        invariant inFlight.Values <= old(inFlight.Values)
        invariant ClaimsValid() && OnlyLetGo(claims, ino)
        decreases claimed
      {
        var key :| key in claimed;
        ResolveOneOf(ino, key.idx, claims);
        claimed := claimed - {key};
      }
    }
  }
}
