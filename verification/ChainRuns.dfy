/**
  What the chain keeps over a whole run of calls: how often it looks, and how often
  it can put a failing tunnel through a login.
 */
module ChainRuns {
  import opened Arithmetic
  import opened ChainCalls
  import opened ChainSteps

  // ---------------------------------------------------------------------------
  // Runs
  // ---------------------------------------------------------------------------

  ghost function After(cfg: Config, s: State, run: seq<Op>): State {
    if run == [] then s else Apply(cfg, After(cfg, s, run[..|run| - 1]), run[|run| - 1]).0
  }

  /** What the last call of a run did. */
  ghost function LastEffects(cfg: Config, s: State, run: seq<Op>): Effects
    requires run != []
  {
    Apply(cfg, After(cfg, s, run[..|run| - 1]), run[|run| - 1]).1
  }

  /** Calls follow one another, each with the clock going forward. */
  ghost predicate InOrder(run: seq<Op>) {
    && (forall i | 0 <= i < |run| :: run[i].w.InOrder())
    && (forall i, j | 0 <= i < j < |run| :: run[i].w.settled <= run[j].w.asked)
  }

  ghost predicate NeverReconsiders(run: seq<Op>) {
    forall i | 0 <= i < |run| :: !run[i].Reconsiders?
  }

  lemma Shorter(run: seq<Op>)
    requires run != []
    ensures InOrder(run) ==> InOrder(run[..|run| - 1])
    ensures NeverReconsiders(run) ==> NeverReconsiders(run[..|run| - 1])
  {
  }

  // ---------------------------------------------------------------------------
  // Rest on the best leg
  // ---------------------------------------------------------------------------

  /** A call that a caller resting on the direct leg can make. */
  predicate Rests(op: Op) {
    op.Asks? || op.Reaches? || op.Another? || op.CarriedNothing? || (op.Improves? && op.current == SmbDirect)
  }

  /** A direct decision costs no traffic, for as long as nobody tells the chain otherwise. */
  lemma {:induction false} DirectLegIsFree(cfg: Config, s: State, host: string, run: seq<Op>)
    requires s.decision == Some(Decision(Route(SmbDirect, Some(host)), None))
    requires forall i | 0 <= i < |run| :: Rests(run[i])
    ensures After(cfg, s, run).decision == s.decision
    ensures run != [] ==> LastEffects(cfg, s, run) == NOTHING
  {
    if run != [] {
      DirectLegIsFree(cfg, s, host, run[..|run| - 1]);
    }
  }

  // ---------------------------------------------------------------------------
  // Quiet after a failure
  // ---------------------------------------------------------------------------

  /**
    `since` some failure, at time `now`: the tunnel is refused, or still counted
    as failed no earlier than that, or its interval has passed.
   */
  ghost predicate Quiet(cfg: Config, s: State, since: nat, now: nat) {
    || s.refused.Some?
    || (s.tunnelFailedAt.Some? && s.tunnelFailedAt.value >= since)
    || now >= since + cfg.tunnelRecheck
  }

  /** No call ends the quiet early, and the tunnel is opened on its own account only after it. */
  lemma QuietIsKept(cfg: Config, s: State, op: Op, since: nat)
    requires !op.Reconsiders? && op.w.InOrder() && since <= op.w.asked
    requires Quiet(cfg, s, since, op.w.asked)
    ensures Quiet(cfg, Apply(cfg, s, op).0, since, op.w.settled)
    ensures var open := Apply(cfg, s, op).1.open;
            open.Some? && open.value.reason == Rationed ==>
              open.value.at == op.w.rationed && op.w.rationed >= since + cfg.tunnelRecheck
  {
    if op.Asks? || op.Reaches? || op.Improves? {
      RaiseKeepsQuiet(cfg, s, op.w, since);
    }
    if op.Reaches? && Cached(s, op.w.asked).Some? {
      ReachKeepsQuiet(cfg, s, op.w, since);
    }
  }

  lemma RaiseKeepsQuiet(cfg: Config, s: State, w: Replies, since: nat)
    requires w.InOrder() && since <= w.asked && Quiet(cfg, s, since, w.asked)
    ensures Quiet(cfg, RaiseTunnel(cfg, s, w).state, since, w.settled)
    ensures RaiseTunnel(cfg, s, w).open.Some? ==> w.rationed >= since + cfg.tunnelRecheck
  {
  }

  lemma ReachKeepsQuiet(cfg: Config, s: State, w: Replies, since: nat)
    requires w.InOrder() && since <= w.asked && Quiet(cfg, s, since, w.asked) && Cached(s, w.asked).Some?
    ensures Quiet(cfg, ReachSmb(cfg, s, w).state, since, w.settled)
    ensures var open := ReachSmb(cfg, s, w).effects.open;
            open.Some? && open.value.reason == Rationed ==>
              open.value.at == w.rationed && w.rationed >= since + cfg.tunnelRecheck
  {
    RaiseKeepsQuiet(cfg, s, w, since);
  }

  /** A failure, or a session the tunnel could not carry, starts the quiet. */
  lemma FailureStartsQuiet(cfg: Config, s: State, op: Op)
    requires op.w.InOrder()
    requires Noted(Apply(cfg, s, op).1) || op.CarriedNothing?
    ensures Quiet(cfg, Apply(cfg, s, op).0, op.w.failed, op.w.settled)
    ensures op.CarriedNothing? ==> Quiet(cfg, Apply(cfg, s, op).0, op.w.settled, op.w.settled)
  {
  }

  /** A quiet that starts with call `i` of a run outlasts the calls up to `j`. */
  lemma {:induction false} QuietOverARun(cfg: Config, s: State, run: seq<Op>, i: nat, since: nat, j: nat)
    requires InOrder(run) && i < j <= |run| && forall k | i < k < j :: !run[k].Reconsiders?
    requires since <= run[i].w.settled && Quiet(cfg, After(cfg, s, run[..i + 1]), since, run[i].w.settled)
    ensures Quiet(cfg, After(cfg, s, run[..j]), since, run[j - 1].w.settled)
    ensures since <= run[j - 1].w.settled
    decreases j
  {
    if j > i + 1 {
      QuietOverARun(cfg, s, run, i, since, j - 1);
      assert run[..j][..j - 1] == run[..j - 1];
      QuietLasts(cfg, After(cfg, s, run[..j - 1]), since, run[j - 2].w.settled, run[j - 1].w.asked);
      QuietIsKept(cfg, After(cfg, s, run[..j - 1]), run[j - 1], since);
    }
  }

  lemma QuietLasts(cfg: Config, s: State, since: nat, now: nat, later: nat)
    requires Quiet(cfg, s, since, now) && now <= later
    ensures Quiet(cfg, s, since, later)
  {
  }

  /** What call `i` of a run did. */
  ghost function EffectsAt(cfg: Config, s: State, run: seq<Op>, i: nat): Effects
    requires i < |run|
  {
    Apply(cfg, After(cfg, s, run[..i]), run[i]).1
  }

  /**
    After a failing open, or a tunnel that carried no session, the tunnel is not
    asked on its own account until its interval has passed, whatever else happens.
   */
  lemma OpensAreSpaced(cfg: Config, s: State, run: seq<Op>, i: nat, j: nat)
    requires InOrder(run) && i < j < |run| && forall k | i < k <= j :: !run[k].Reconsiders?
    requires Noted(EffectsAt(cfg, s, run, i)) || run[i].CarriedNothing?
    ensures var open := EffectsAt(cfg, s, run, j).open;
            open.Some? && open.value.reason == Rationed ==> open.value.at >= run[i].w.failed + cfg.tunnelRecheck
  {
    FailureStartsQuiet(cfg, After(cfg, s, run[..i]), run[i]);
    assert run[..i + 1][..i] == run[..i];
    QuietOverARun(cfg, s, run, i, run[i].w.failed, j);
    QuietLasts(cfg, After(cfg, s, run[..j]), run[i].w.failed, run[j - 1].w.settled, run[j].w.asked);
    QuietIsKept(cfg, After(cfg, s, run[..j]), run[j], run[i].w.failed);
  }

  // ---------------------------------------------------------------------------
  // Rationing
  // ---------------------------------------------------------------------------

  function One(b: bool): nat {
    if b then 1 else 0
  }

  ghost predicate LastFailsRationed(cfg: Config, s: State, run: seq<Op>)
    requires run != []
  {
    var open := LastEffects(cfg, s, run).open;
    Fails(open) && open.value.reason == Rationed
  }

  /** Failing opens the interval rations. */
  ghost function RationedFailures(cfg: Config, s: State, run: seq<Op>): nat {
    if run == [] then 0
    else RationedFailures(cfg, s, run[..|run| - 1]) + One(LastFailsRationed(cfg, s, run))
  }

  /** Failing opens of a tunnel that was remembered as working. */
  ghost function RememberedFailures(cfg: Config, s: State, run: seq<Op>): nat {
    if run == [] then 0
    else
      var e := LastEffects(cfg, s, run);
      RememberedFailures(cfg, s, run[..|run| - 1]) + One(Fails(e.open) && e.open.value.reason == Remembered)
  }

  /** Decisions for the tunnel that the run recorded. */
  ghost function TunnelDecisions(cfg: Config, s: State, run: seq<Op>): nat {
    if run == [] then 0
    else
      TunnelDecisions(cfg, s, run[..|run| - 1]) + One(LastEffects(cfg, s, run).settled == Some(SmbOverVpn))
  }

  predicate OnTunnel(s: State) {
    s.decision.Some? && s.decision.value.route.transport == SmbOverVpn
  }

  /** A remembered tunnel that fails costs the decision that remembered it. */
  lemma FailureConsumesTheDecision(cfg: Config, s: State, op: Op)
    requires !op.Reconsiders?
    ensures var (s', e) := Apply(cfg, s, op);
            One(Fails(e.open) && e.open.value.reason == Remembered) + One(OnTunnel(s'))
            <= One(OnTunnel(s)) + One(e.settled == Some(SmbOverVpn))
  {
  }

  lemma {:induction false} RememberedFailuresAreConsumed(cfg: Config, s: State, run: seq<Op>)
    requires NeverReconsiders(run)
    ensures RememberedFailures(cfg, s, run) + One(OnTunnel(After(cfg, s, run)))
            <= One(OnTunnel(s)) + TunnelDecisions(cfg, s, run)
  {
    if run != [] {
      Shorter(run);
      RememberedFailuresAreConsumed(cfg, s, run[..|run| - 1]);
      FailureConsumesTheDecision(cfg, After(cfg, s, run[..|run| - 1]), run[|run| - 1]);
    }
  }

  /** When the last failing rationed open of a run was noted. */
  ghost function LastFailure(cfg: Config, s: State, run: seq<Op>): nat {
    if run == [] then 0
    else if LastFailsRationed(cfg, s, run) then run[|run| - 1].w.failed
    else LastFailure(cfg, s, run[..|run| - 1])
  }

  /** Each rationed failure of the run but its first has waited an interval, and the last one's quiet lasts. */
  ghost predicate Spaced(cfg: Config, s: State, run: seq<Op>)
    requires run != []
  {
    RationedFailures(cfg, s, run) > 0 ==>
      var last := LastFailure(cfg, s, run);
      && run[0].w.asked <= last <= run[|run| - 1].w.settled
      && AllButTheFirst(RationedFailures(cfg, s, run), cfg.tunnelRecheck) <= last - run[0].w.asked
      && Quiet(cfg, After(cfg, s, run), last, run[|run| - 1].w.settled)
  }

  lemma FirstIsSpaced(cfg: Config, s: State, run: seq<Op>)
    requires |run| == 1 && run[0].w.InOrder()
    ensures Spaced(cfg, s, run)
  {
    assert run[..0] == [];
    if LastFailsRationed(cfg, s, run) {
      FailureStartsQuiet(cfg, s, run[0]);
    }
  }

  lemma NextIsSpaced(cfg: Config, s: State, run: seq<Op>)
    requires InOrder(run) && |run| > 1 && !run[|run| - 1].Reconsiders?
    requires Spaced(cfg, s, run[..|run| - 1])
    ensures Spaced(cfg, s, run)
  {
    var n := |run| - 1;
    var before, op, mid := run[..n], run[n], After(cfg, s, run[..n]);
    var count := RationedFailures(cfg, s, before);
    assert before[n - 1] == run[n - 1] && before[0] == run[0];
    if count > 0 {
      QuietLasts(cfg, mid, LastFailure(cfg, s, before), run[n - 1].w.settled, op.w.asked);
      QuietIsKept(cfg, mid, op, LastFailure(cfg, s, before));
    }
    assert RationedFailures(cfg, s, run) == count + One(LastFailsRationed(cfg, s, run));
    if LastFailsRationed(cfg, s, run) {
      FailureStartsQuiet(cfg, mid, op);
      OneMoreThanTheFirst(count, cfg.tunnelRecheck);
      assert run[0].w.settled <= op.w.asked;
    }
  }

  lemma {:induction false} RationedFailuresAreSpaced(cfg: Config, s: State, run: seq<Op>)
    requires InOrder(run) && NeverReconsiders(run) && run != []
    ensures Spaced(cfg, s, run)
  {
    if |run| == 1 {
      FirstIsSpaced(cfg, s, run);
    } else {
      Shorter(run);
      RationedFailuresAreSpaced(cfg, s, run[..|run| - 1]);
      NextIsSpaced(cfg, s, run);
    }
  }

  /** All failing opens that the chain asked for itself. */
  ghost function NotedFailures(cfg: Config, s: State, run: seq<Op>): nat {
    if run == [] then 0
    else NotedFailures(cfg, s, run[..|run| - 1]) + One(Noted(LastEffects(cfg, s, run)))
  }

  lemma {:induction false} FailuresAddUp(cfg: Config, s: State, run: seq<Op>)
    ensures NotedFailures(cfg, s, run) == RationedFailures(cfg, s, run) + RememberedFailures(cfg, s, run)
  {
    if run != [] {
      FailuresAddUp(cfg, s, run[..|run| - 1]);
    }
  }

  /**
    The tunnel's ration over a whole run, from whatever state it finds, a window of a
    longer run included: at most one failing open, one more for each interval the run
    lasts, and one more for each decision for the tunnel, held at the start or recorded.
   */
  lemma {:induction false} FailingOpensAreRationed(cfg: Config, s: State, run: seq<Op>)
    requires InOrder(run) && NeverReconsiders(run) && run != []
    ensures (NotedFailures(cfg, s, run) - 1 - One(OnTunnel(s)) - TunnelDecisions(cfg, s, run)) * cfg.tunnelRecheck
            <= run[|run| - 1].w.settled - run[0].w.asked
  {
    RationedFailuresAreSpaced(cfg, s, run);
    FailuresAddUp(cfg, s, run);
    RememberedFailuresAreConsumed(cfg, s, run);
    TimeGoesForward(run);
    Spread(NotedFailures(cfg, s, run) - 1 - One(OnTunnel(s)) - TunnelDecisions(cfg, s, run),
           RationedFailures(cfg, s, run), cfg.tunnelRecheck, run[|run| - 1].w.settled - run[0].w.asked);
  }

  lemma TimeGoesForward(run: seq<Op>)
    requires InOrder(run) && run != []
    ensures run[0].w.asked <= run[|run| - 1].w.settled
  {
    assert run[0].w.InOrder() && run[|run| - 1].w.InOrder();
  }

  // ---------------------------------------------------------------------------
  // A refusal
  // ---------------------------------------------------------------------------

  lemma RefusalStands(cfg: Config, s: State, op: Op)
    requires s.refused.Some? && !op.Reconsiders?
    ensures Apply(cfg, s, op).0.refused.Some?
    ensures var e := Apply(cfg, s, op).1;
            && (e.open.Some? ==> e.open.value.reason != Rationed)
            && (op.Asks? || op.Improves? ==> e.open.None?)
            && (e.settled == Some(SmbOverVpn) ==> op.Settles?)
  {
  }

  /** Runs in which nobody settles on the tunnel from outside. */
  ghost predicate NeverSettlesOnTunnel(run: seq<Op>) {
    forall i | 0 <= i < |run| :: !(run[i].Settles? && run[i].route.transport == SmbOverVpn)
  }

  /**
    A refusal is final until somebody reconsiders: asking for a route or for a
    better leg never opens the tunnel again, and reaching SMB fails at most once
    more, on a tunnel still remembered, unless somebody settles on the tunnel anew.
   */
  lemma {:induction false} RefusalIsFinal(cfg: Config, s: State, run: seq<Op>)
    requires s.refused.Some? && NeverReconsiders(run)
    ensures After(cfg, s, run).refused.Some?
    ensures run != [] && (run[|run| - 1].Asks? || run[|run| - 1].Improves?) ==> LastEffects(cfg, s, run).open.None?
    ensures run != [] && LastEffects(cfg, s, run).open.Some? ==> LastEffects(cfg, s, run).open.value.reason != Rationed
    ensures NeverSettlesOnTunnel(run) ==> TunnelDecisions(cfg, s, run) == 0
    ensures NeverSettlesOnTunnel(run) ==> RememberedFailures(cfg, s, run) <= One(OnTunnel(s))
  {
    if run != [] {
      Shorter(run);
      RefusalIsFinal(cfg, s, run[..|run| - 1]);
      RefusalStands(cfg, After(cfg, s, run[..|run| - 1]), run[|run| - 1]);
      assert NeverSettlesOnTunnel(run) ==> NeverSettlesOnTunnel(run[..|run| - 1]);
    }
    RememberedFailuresAreConsumed(cfg, s, run);
  }

  /**
    The same from the call that was refused: that call latches it, and whatever
    follows, nothing but a tunnel still remembered is opened again, once.
   */
  lemma RefusedOnceIsFinal(cfg: Config, s: State, refusing: Op, run: seq<Op>)
    requires !refusing.Reconsiders? && NeverReconsiders(run)
    requires var e := Apply(cfg, s, refusing).1; Noted(e) && e.open.value.answer.Refused?
    ensures var s' := Apply(cfg, s, refusing).0;
            && After(cfg, s', run).refused.Some?
            && (run != [] && (run[|run| - 1].Asks? || run[|run| - 1].Improves?) ==>
                  LastEffects(cfg, s', run).open.None?)
            && (run != [] && LastEffects(cfg, s', run).open.Some? ==>
                  LastEffects(cfg, s', run).open.value.reason != Rationed)
            && (NeverSettlesOnTunnel(run) ==> RememberedFailures(cfg, s', run) <= One(OnTunnel(s')))
  {
    RefusalIsLatched(cfg, s, refusing);
    RefusalIsFinal(cfg, Apply(cfg, s, refusing).0, run);
  }
}
