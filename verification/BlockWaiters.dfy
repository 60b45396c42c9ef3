/**
  Who wakes whom, and with what. `insert`, `claim_inflight`, `resolve` and
  `wait_for_block_until` in the steps their locks cut them into, taken by any
  threads in any order, while blocks may be dropped at any moment.
 */
module BlockWaiters {

  type Thread = nat
  type Slot = nat

  datatype Key = Key(ino: nat, idx: nat)

  datatype World = World(
    inFlight: map<Key, Slot>,
    slots: seq<Key>,             // the block each slot was made for; a slot is its index
    resolved: set<Slot>,
    inserting: map<Thread, Key>, // put the bytes in the cache, and has the claim still to resolve
    waking: map<Thread, Slot>,   // took a slot out of the map, and is about to wake its waiters
    waiting: map<Thread, Slot>,  // asleep on a slot, or about to look at it
    blocks: set<Key>,
    dropped: set<Key>,           // evicted since they were last put in
    delivered: set<Slot>)        // resolved, or being resolved, by an insert
  {
    predicate Idle(t: Thread) {
      t !in inserting && t !in waking && t !in waiting
    }
  }

  datatype Action =
    | Claim(thread: Thread, key: Key)    // one lock: look, and put a new slot in
    | Publish(thread: Thread, key: Key)  // an insert puts the bytes in the cache
    | Finish(thread: Thread, key: Key)   // and takes the slot out
    | Cancel(thread: Thread, key: Key)   // a resolve with no bytes takes the slot out
    | Wake(thread: Thread)               // the second lock of a resolve: set the flag, ring the bell
    | Join(thread: Thread, key: Key)     // a reader picks up the slot, if there is one
    | Leave(thread: Thread)              // a waiter sees the flag
    | TimeOut(thread: Thread)            // a waiter has waited long enough
    | Drop(key: Key)                     // the cache lets a block go

  const START := World(map[], [], {}, map[], map[], map[], {}, {}, {})

  predicate Enabled(w: World, a: Action) {
    match a
    case Claim(t, _) => w.Idle(t)
    case Publish(t, _) => w.Idle(t)
    case Finish(t, k) => t in w.inserting && w.inserting[t] == k
    case Cancel(t, _) => w.Idle(t)
    case Wake(t) => t in w.waking
    case Join(t, _) => w.Idle(t)
    case Leave(t) => t in w.waiting && w.waiting[t] in w.resolved
    case TimeOut(t) => t in w.waiting
    case Drop(k) => k in w.blocks
  }

  /** The first lock of a resolve. */
  function Removed(w: World, t: Thread, k: Key): World {
    if k !in w.inFlight then w
    else w.(inFlight := w.inFlight - {k}, waking := w.waking[t := w.inFlight[k]])
  }

  function Next(w: World, a: Action): World
    requires Enabled(w, a)
  {
    match a
    case Claim(_, k) =>
      if k in w.inFlight then w
      else w.(inFlight := w.inFlight[k := |w.slots|], slots := w.slots + [k])
    case Publish(t, k) =>
      w.(blocks := w.blocks + {k}, dropped := w.dropped - {k}, inserting := w.inserting[t := k])
    case Finish(t, k) =>
      var done := w.(inserting := w.inserting - {t});
      if k in w.inFlight then Removed(done, t, k).(delivered := w.delivered + {w.inFlight[k]}) else done
    case Cancel(t, k) => Removed(w, t, k)
    case Wake(t) => w.(resolved := w.resolved + {w.waking[t]}, waking := w.waking - {t})
    case Join(t, k) =>
      if k !in w.inFlight then w
      else w.(waiting := w.waiting[t := w.inFlight[k]])
    case Leave(t) => w.(waiting := w.waiting - {t})
    case TimeOut(t) => w.(waiting := w.waiting - {t})
    case Drop(k) => w.(blocks := w.blocks - {k}, dropped := w.dropped + {k})
  }

  // ---------------------------------------------------------------------------
  // Invariants
  // ---------------------------------------------------------------------------

  /** Somebody will get to this slot, or has. */
  ghost predicate Accounted(w: World, s: Slot) {
    || (exists k :: k in w.inFlight && w.inFlight[k] == s)
    || s in w.resolved
    || (exists t: Thread :: t in w.waking && w.waking[t] == s)
  }

  /** Every slot in use was made, and the one in the map under a key was made for it. */
  ghost predicate SlotsMade(w: World) {
    && (forall k | k in w.inFlight :: w.inFlight[k] < |w.slots| && w.slots[w.inFlight[k]] == k)
    && (forall t: Thread | t in w.waking :: w.waking[t] < |w.slots|)
    && (forall t: Thread | t in w.waiting :: w.waiting[t] < |w.slots|)
    && (forall s: Slot | s in w.resolved :: s < |w.slots|)
  }

  /** A slot in the map is in nobody's hands and unresolved. */
  ghost predicate SlotsApart(w: World) {
    && (forall k | k in w.inFlight :: w.inFlight[k] !in w.resolved)
    && (forall k, t: Thread | k in w.inFlight && t in w.waking :: w.inFlight[k] != w.waking[t])
    && (forall t: Thread | t in w.inserting :: t !in w.waking)
  }

  /** What an insert has published is there, or was dropped after it. */
  ghost predicate BytesInv(w: World) {
    && (forall t: Thread | t in w.inserting :: w.inserting[t] in w.blocks + w.dropped)
    && (forall s: Slot | s in w.delivered :: s < |w.slots| && w.slots[s] in w.blocks + w.dropped)
  }

  ghost predicate Inv(w: World) {
    && SlotsMade(w)
    && SlotsApart(w)
    && BytesInv(w)
    && (forall t: Thread | t in w.waiting :: Accounted(w, w.waiting[t]))
  }

  /** The step that takes the claim on `k` out of the map, whatever came of its download. */
  predicate Frees(a: Action, k: Key) {
    (a.Finish? || a.Cancel?) && a.key == k
  }

  /** A claim ends when somebody resolves it, and at no other step: not when a waiter gives up. */
  lemma OnlyAResolveFreesAClaim(w: World, a: Action, k: Key)
    requires Enabled(w, a) && k in w.inFlight
    ensures k !in Next(w, a).inFlight <==> Frees(a, k)
    ensures k in Next(w, a).inFlight ==> Next(w, a).inFlight[k] == w.inFlight[k]
  {
  }

  lemma StillAccounted(w: World, a: Action, s: Slot)
    requires SlotsApart(w) && Enabled(w, a) && Accounted(w, s)
    ensures Accounted(Next(w, a), s)
  {
    var w' := Next(w, a);
    if s in w.resolved {
    } else if exists k :: k in w.inFlight && w.inFlight[k] == s {
      var k :| k in w.inFlight && w.inFlight[k] == s;
      OnlyAResolveFreesAClaim(w, a, k);
      if Frees(a, k) {
        assert w'.waking[a.thread] == s;
      }
    } else {
      var t: Thread :| t in w.waking && w.waking[t] == s;
      assert a != Wake(t) ==> t in w'.waking && w'.waking[t] == s;
    }
  }

  lemma StepKeepsSlotsMade(w: World, a: Action)
    requires SlotsMade(w) && Enabled(w, a)
    ensures SlotsMade(Next(w, a))
  {
  }

  lemma StepKeepsSlotsApart(w: World, a: Action)
    requires SlotsMade(w) && SlotsApart(w) && Enabled(w, a)
    ensures SlotsApart(Next(w, a))
  {
  }

  lemma StepKeepsBytes(w: World, a: Action)
    requires SlotsMade(w) && BytesInv(w) && Enabled(w, a)
    ensures BytesInv(Next(w, a))
  {
  }

  lemma StepKeepsInv(w: World, a: Action)
    requires Inv(w) && Enabled(w, a)
    ensures Inv(Next(w, a))
  {
    StepKeepsSlotsMade(w, a);
    StepKeepsSlotsApart(w, a);
    StepKeepsBytes(w, a);
    var w' := Next(w, a);
    forall t: Thread | t in w'.waiting ensures Accounted(w', w'.waiting[t]) {
      if t in w.waiting {
        StillAccounted(w, a, w.waiting[t]);
      } else {
        assert a.Join? && a.key in w'.inFlight;
      }
    }
  }

  // ---------------------------------------------------------------------------
  // Runs
  // ---------------------------------------------------------------------------

  ghost predicate IsRun(w: World, run: seq<Action>)
    decreases |run|
  {
    run == [] || (Enabled(w, run[0]) && IsRun(Next(w, run[0]), run[1..]))
  }

  ghost function After(w: World, run: seq<Action>): World
    requires IsRun(w, run)
    decreases |run|
  {
    if run == [] then w else After(Next(w, run[0]), run[1..])
  }

  lemma {:induction false} RunKeepsInv(w: World, run: seq<Action>)
    requires Inv(w) && IsRun(w, run)
    ensures Inv(After(w, run))
    decreases |run|
  {
    if run != [] {
      StepKeepsInv(w, run[0]);
      RunKeepsInv(Next(w, run[0]), run[1..]);
    }
  }

  /**
    No waiter is stranded: its block is still claimed, or it can leave now, or
    there is a thread whose next step is the one that lets it leave.
   */
  lemma NoWaiterIsStranded(run: seq<Action>, t: Thread)
    requires IsRun(START, run) && t in After(START, run).waiting
    ensures var w := After(START, run);
            || (exists k :: k in w.inFlight && w.inFlight[k] == w.waiting[t])
            || Enabled(w, Leave(t))
            || exists u: Thread :: Enabled(w, Wake(u)) && Enabled(Next(w, Wake(u)), Leave(t))
  {
    RunKeepsInv(START, run);
    var w := After(START, run);
    assert Accounted(w, w.waiting[t]);
    if exists u: Thread :: u in w.waking && w.waking[u] == w.waiting[t] {
      var u: Thread :| u in w.waking && w.waking[u] == w.waiting[t];
      assert Enabled(w, Wake(u)) && Enabled(Next(w, Wake(u)), Leave(t));
    }
  }

  lemma {:induction false} ClaimedUntilFreed(w: World, run: seq<Action>, k: Key)
    requires IsRun(w, run) && k in w.inFlight
    requires forall i | 0 <= i < |run| :: !Frees(run[i], k)
    ensures k in After(w, run).inFlight && After(w, run).inFlight[k] == w.inFlight[k]
    decreases |run|
  {
    if run != [] {
      OnlyAResolveFreesAClaim(w, run[0], k);
      assert forall i | 0 <= i < |run| - 1 :: run[1..][i] == run[i + 1];
      ClaimedUntilFreed(Next(w, run[0]), run[1..], k);
    }
  }

  /**
    One download at a time: between a claim that won and the next claim of the
    same block that wins, somebody resolved it.
   */
  lemma ClaimsAreSeparatedByAResolve(w: World, first: Thread, between: seq<Action>, k: Key)
    requires Enabled(w, Claim(first, k)) && k !in w.inFlight
    requires IsRun(Next(w, Claim(first, k)), between)
    requires k !in After(Next(w, Claim(first, k)), between).inFlight
    ensures exists i :: 0 <= i < |between| && Frees(between[i], k)
  {
    if forall i | 0 <= i < |between| :: !Frees(between[i], k) {
      ClaimedUntilFreed(Next(w, Claim(first, k)), between, k);
    }
  }

  /** The run lets go of `k` after it last put it in the cache. */
  ghost predicate DropsLast(run: seq<Action>, k: Key) {
    exists i | 0 <= i < |run| :: run[i] == Drop(k) && !PublishesFrom(run, i, k)
  }

  ghost predicate PublishesFrom(run: seq<Action>, i: nat, k: Key) {
    exists j | i <= j < |run| :: run[j].Publish? && run[j].key == k
  }

  lemma TailPublishes(run: seq<Action>, i: nat, k: Key)
    requires run != []
    ensures PublishesFrom(run[1..], i, k) <==> PublishesFrom(run, i + 1, k)
  {
    var tail := run[1..];
    assert forall j | 0 <= j < |tail| :: tail[j] == run[j + 1];
    if PublishesFrom(run, i + 1, k) {
      var j :| i + 1 <= j < |run| && run[j].Publish? && run[j].key == k;
      assert tail[j - 1] == run[j];
    }
  }

  lemma TailDropsLast(run: seq<Action>, k: Key)
    requires run != []
    ensures DropsLast(run, k) <==> DropsLast(run[1..], k) || (run[0] == Drop(k) && !PublishesFrom(run[1..], 0, k))
  {
    var tail := run[1..];
    forall i: nat { TailPublishes(run, i, k); }
    assert forall j | 0 <= j < |tail| :: tail[j] == run[j + 1];
    assert run[0] == Drop(k) ==> (PublishesFrom(run, 0, k) <==> PublishesFrom(run, 1, k));
    if DropsLast(tail, k) {
      var i :| 0 <= i < |tail| && tail[i] == Drop(k) && !PublishesFrom(tail, i, k);
      assert run[i + 1] == Drop(k) && !PublishesFrom(run, i + 1, k);
    }
    if DropsLast(run, k) {
      var i :| 0 <= i < |run| && run[i] == Drop(k) && !PublishesFrom(run, i, k);
      if i > 0 {
        assert tail[i - 1] == Drop(k) && !PublishesFrom(tail, i - 1, k);
      }
    }
  }

  /** What counts as dropped is what the run dropped after putting it in last. */
  lemma {:induction false} DroppedExactly(w: World, run: seq<Action>, k: Key)
    requires IsRun(w, run) && w.blocks !! w.dropped
    ensures After(w, run).blocks !! After(w, run).dropped
    ensures k in After(w, run).dropped <==> DropsLast(run, k) || (k in w.dropped && !PublishesFrom(run, 0, k))
    decreases |run|
  {
    if run != [] {
      TailDropsLast(run, k);
      TailPublishes(run, 0, k);
      assert PublishesFrom(run, 0, k) <==> (run[0].Publish? && run[0].key == k) || PublishesFrom(run, 1, k);
      DroppedExactly(Next(w, run[0]), run[1..], k);
    }
  }

  /**
    The bytes are there by the time the flag is set: a waiter woken by an insert
    finds its block in the cache, exactly unless the cache has let go of it since it
    was last put in.
   */
  lemma WokenByAnInsertFindsTheBytes(run: seq<Action>, t: Thread)
    requires IsRun(START, run) && t in After(START, run).waiting
    requires After(START, run).waiting[t] in After(START, run).delivered
    ensures var w := After(START, run);
            && w.waiting[t] < |w.slots|
            && (w.slots[w.waiting[t]] in w.blocks <==> !DropsLast(run, w.slots[w.waiting[t]]))
  {
    RunKeepsInv(START, run);
    var w := After(START, run);
    DroppedExactly(START, run, w.slots[w.waiting[t]]);
  }

  /** A waiter waits for the block it asked for, whoever claims what in between. */
  lemma {:induction false} WaitsForItsBlock(w: World, t: Thread, k: Key, run: seq<Action>)
    requires Inv(w) && Enabled(w, Join(t, k)) && k in w.inFlight
    requires IsRun(Next(w, Join(t, k)), run)
    requires forall i | 0 <= i < |run| :: run[i] != Leave(t) && run[i] != TimeOut(t)
    ensures var end := After(Next(w, Join(t, k)), run);
            t in end.waiting && end.waiting[t] < |end.slots| && end.slots[end.waiting[t]] == k
  {
    StillWaiting(Next(w, Join(t, k)), t, k, run);
  }

  lemma {:induction false} StillWaiting(w: World, t: Thread, k: Key, run: seq<Action>)
    requires t in w.waiting && w.waiting[t] < |w.slots| && w.slots[w.waiting[t]] == k
    requires IsRun(w, run)
    requires forall i | 0 <= i < |run| :: run[i] != Leave(t) && run[i] != TimeOut(t)
    ensures var end := After(w, run);
            t in end.waiting && end.waiting[t] < |end.slots| && end.slots[end.waiting[t]] == k
    decreases |run|
  {
    if run != [] {
      assert run[0] != Leave(t) && run[0] != TimeOut(t);
      assert forall i | 0 <= i < |run| - 1 :: run[1..][i] == run[i + 1];
      StillWaiting(Next(w, run[0]), t, k, run[1..]);
    }
  }
}
