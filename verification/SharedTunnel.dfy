/**
  One VPN tunnel for many connections, kept up by them alone. A state machine over
  the steps of all callers, in any interleaving. The lock is held across a raise,
  so everything `get_or_raise` does between two awaits is one step here.

  A caller is one call of `through` and, if it succeeds, the connection it made:
  it holds a strong reference from the moment it has a tunnel until it is dropped.
 */
module SharedTunnel {

  datatype Option<T> = None | Some(value: T)

  type Caller = nat
  type Tunnel = nat

  datatype Phase =
    | Raising                                  // holds the lock, its login under way
    | Connecting(tunnel: Tunnel, isNew: bool)  // lock released
    | Connected(tunnel: Tunnel)

  datatype World = World(
    callers: map<Caller, Phase>,  // those with a call under way or a connection open
    running: set<Tunnel>,
    raised: nat,                  // tunnels raised so far, which names the next one
    held: Option<Tunnel>)         // the weak handle
  {
    predicate Referenced(t: Tunnel) {
      exists c: Caller | c in callers :: !callers[c].Raising? && callers[c].tunnel == t
    }

    predicate Live(t: Tunnel) {
      t in running && Referenced(t)
    }

    predicate Locked() {
      exists c: Caller | c in callers :: callers[c].Raising?
    }
  }

  datatype Action =
    | Ask(caller: Caller)          // takes the lock, and the tunnel if there is one
    | Raised(caller: Caller)
    | RaiseFailed(caller: Caller)  // or its future was dropped
    | Opened(caller: Caller)
    | Dropped(caller: Caller)      // the connection failed, or was closed
    | Died(tunnel: Tunnel)         // the link stopped

  const START := World(map[], {}, 0, None)

  predicate Enabled(w: World, a: Action) {
    match a
    case Ask(c) => c !in w.callers && !w.Locked()
    case Raised(c) => c in w.callers && w.callers[c].Raising?
    case RaiseFailed(c) => c in w.callers && w.callers[c].Raising?
    case Opened(c) => c in w.callers && w.callers[c].Connecting?
    case Dropped(c) => c in w.callers && !w.callers[c].Raising?
    case Died(t) => t in w.running
  }

  /** `held.upgrade()`, kept only when it is running. */
  function Found(w: World): Option<Tunnel> {
    if w.held.Some? && w.Live(w.held.value) then w.held else None
  }

  function Next(w: World, a: Action): World
    requires Enabled(w, a)
  {
    match a
    case Ask(c) =>
      w.(callers := w.callers[c := match Found(w)
                                   case Some(t) => Connecting(t, false)
                                   case None => Raising])
    case Raised(c) =>
      World(w.callers[c := Connecting(w.raised, true)], w.running + {w.raised}, w.raised + 1, Some(w.raised))
    case RaiseFailed(c) => w.(callers := w.callers - {c})
    case Opened(c) => w.(callers := w.callers[c := Connected(w.callers[c].tunnel)])
    case Dropped(c) => w.(callers := w.callers - {c})
    case Died(t) => w.(running := w.running - {t})
  }

  /** Everything live is what the weak handle names, and nothing is live during a raise. */
  ghost predicate Inv(w: World) {
    && (forall c: Caller, d: Caller | c in w.callers && d in w.callers ::
          w.callers[c].Raising? && w.callers[d].Raising? ==> c == d)
    && (forall t: Tunnel | w.Live(t) :: w.held == Some(t))
    && (w.Locked() ==> forall t: Tunnel :: !w.Live(t))
    && (forall t: Tunnel | t in w.running :: t < w.raised)
    && (forall c: Caller | c in w.callers && !w.callers[c].Raising? :: w.callers[c].tunnel < w.raised)
    && (w.held.Some? ==> w.held.value < w.raised)
  }

  lemma StepKeepsInv(w: World, a: Action)
    requires Inv(w) && Enabled(w, a)
    ensures Inv(Next(w, a))
  {
    var w' := Next(w, a);
    assert a.Raised? ==> w.Locked();
    forall t: Tunnel | w'.Live(t)
      ensures w'.held == Some(t) && (w.Live(t) || (a.Raised? && t == w.raised))
    {
      var c: Caller :| c in w'.callers && !w'.callers[c].Raising? && w'.callers[c].tunnel == t;
      if a.Ask? && c == a.caller {
        assert Found(w) == Some(t);
        assert w.Live(t);
      } else if !(a.Raised? && c == a.caller) {
        assert c in w.callers && !w.callers[c].Raising? && w.callers[c].tunnel == t;
        assert w.Referenced(t) && t < w.raised && t in w.running;
        assert w.Live(t);
        assert w.held == Some(t);
        assert !a.Raised?;
      }
    }
    if w'.Locked() && !w.Locked() {
      assert a.Ask? && Found(w).None?;
    }
  }

  ghost predicate IsRun(w: World, run: seq<Action>)
    decreases |run|
  {
    run == [] || (Enabled(w, run[0]) && IsRun(Next(w, run[0]), run[1..]))
  }

  ghost function After(w: World, run: seq<Action>): World
    requires IsRun(w, run)
    decreases |run|
  {
    if run == [] then w else After(Next(w, run[0]), run[1..])
  }

  lemma {:induction false} RunKeepsInv(w: World, run: seq<Action>)
    requires Inv(w) && IsRun(w, run)
    ensures Inv(After(w, run))
    decreases |run|
  {
    if run != [] {
      StepKeepsInv(w, run[0]);
      RunKeepsInv(Next(w, run[0]), run[1..]);
    }
  }

  /** However callers, dying links and cancelled raises interleave, one tunnel at most is in use. */
  lemma AtMostOneTunnel(run: seq<Action>)
    requires IsRun(START, run)
    ensures forall t: Tunnel, u: Tunnel :: After(START, run).Live(t) && After(START, run).Live(u) ==> t == u
  {
    RunKeepsInv(START, run);
  }

  /** A caller logs in exactly when no tunnel is in use, and otherwise gets the one that is. */
  lemma RaisesExactlyWhenNoneIsLive(run: seq<Action>, c: Caller)
    requires IsRun(START, run) && Enabled(After(START, run), Ask(c))
    ensures var w := After(START, run);
            var phase := Next(w, Ask(c)).callers[c];
            && (phase.Raising? <==> forall t: Tunnel :: !w.Live(t))
            && (forall t: Tunnel | w.Live(t) :: phase == Connecting(t, false))
  {
    RunKeepsInv(START, run);
  }

  /** A login never happens beside a tunnel in use. */
  lemma RaisedOnlyWhenNoneIsLive(run: seq<Action>, c: Caller)
    requires IsRun(START, run) && Enabled(After(START, run), Raised(c))
    ensures forall t: Tunnel :: !After(START, run).Live(t)
  {
    RunKeepsInv(START, run);
    assert After(START, run).Locked();
  }

  /** The actions that end `user`'s connection, or the link under it. */
  predicate Ends(a: Action, user: Caller, t: Tunnel) {
    a == Dropped(user) || a == Died(t)
  }

  /**
    While one connection through a running tunnel lasts, whatever happens to the
    others, connections that will not open included, causes no login.
   */
  lemma {:induction false} NoLoginWhileInUse(w: World, run: seq<Action>, user: Caller, t: Tunnel)
    requires Inv(w) && IsRun(w, run)
    requires user in w.callers && !w.callers[user].Raising? && w.callers[user].tunnel == t && t in w.running
    requires forall i | 0 <= i < |run| :: !Ends(run[i], user, t)
    ensures After(w, run).raised == w.raised && After(w, run).held == Some(t)
    ensures forall i | 0 <= i < |run| :: !run[i].Raised?
    decreases |run|
  {
    assert w.Live(t);
    if run != [] {
      var w' := Next(w, run[0]);
      assert !Ends(run[0], user, t);
      StepKeepsInv(w, run[0]);
      assert run[0].Raised? ==> w.Locked();
      assert forall i | 0 <= i < |run| - 1 :: run[1..][i] == run[i + 1];
      NoLoginWhileInUse(w', run[1..], user, t);
    }
  }

  /** Some caller but `c` has tunnel `t`, connected through it or on the way. */
  ghost predicate SharedWithAnother(w: World, c: Caller, t: Tunnel) {
    exists e: Caller | e in w.callers && e != c :: !w.callers[e].Raising? && w.callers[e].tunnel == t
  }

  /**
    What a connection that fails, or closes, costs: the next caller logs in exactly
    when no other caller has the tunnel. Nothing but the callers' own references
    keeps a tunnel, however well it was running.
   */
  lemma FailureCostsALoginExactlyWhenAlone(run: seq<Action>, c: Caller, d: Caller)
    requires IsRun(START, run) && Enabled(After(START, run), Dropped(c))
    requires var w := After(START, run); w.callers[c].tunnel in w.running
    requires Enabled(Next(After(START, run), Dropped(c)), Ask(d))
    ensures var w := After(START, run);
            var phase := Next(Next(w, Dropped(c)), Ask(d)).callers[d];
            && (phase.Raising? <==> !SharedWithAnother(w, c, w.callers[c].tunnel))
            && (!phase.Raising? ==> phase == Connecting(w.callers[c].tunnel, false))
  {
    RunKeepsInv(START, run);
    var w := After(START, run);
    var t := w.callers[c].tunnel;
    var w' := Next(w, Dropped(c));
    assert w.Live(t);
    assert w'.Live(t) <==> SharedWithAnother(w, c, t) by {
      if SharedWithAnother(w, c, t) {
        var e: Caller :| e in w.callers && e != c && !w.callers[e].Raising? && w.callers[e].tunnel == t;
        assert e in w'.callers;
      }
    }
  }

  /** A first connection that will not open, through a tunnel that came up: the next caller logs in again. */
  lemma LoneFailureRaisesAgain(c: Caller, d: Caller)
    ensures var run := [Ask(c), Raised(c), Dropped(c)];
            && IsRun(START, run)
            && 0 in After(START, run).running && Enabled(After(START, run), Ask(d))
            && Next(After(START, run), Ask(d)).callers[d].Raising?
  {
    var w1 := Next(START, Ask(c));
    var w2 := Next(w1, Raised(c));
    var w3 := Next(w2, Dropped(c));
    assert c in w1.callers && w1.callers[c].Raising?;
    assert w2.callers[c] == Connecting(0, true);
    assert w3.callers == map[];
    assert !w3.Live(0);
    Unrolled(START, Ask(c), Raised(c), Dropped(c));
  }

  lemma Unrolled(w: World, a: Action, b: Action, c: Action)
    requires Enabled(w, a) && Enabled(Next(w, a), b) && Enabled(Next(Next(w, a), b), c)
    ensures IsRun(w, [a, b, c]) && After(w, [a, b, c]) == Next(Next(Next(w, a), b), c)
  {
    var w1, w2 := Next(w, a), Next(Next(w, a), b);
    OneStep(w2, c);
    assert [b, c][1..] == [c];
    assert IsRun(w1, [b, c]) && After(w1, [b, c]) == After(w2, [c]);
    assert [a, b, c][1..] == [b, c];
  }

  lemma OneStep(w: World, a: Action)
    requires Enabled(w, a)
    ensures IsRun(w, [a]) && After(w, [a]) == Next(w, a)
  {
    assert [a][1..] == [];
  }
}
