/** The promises of the watcher, for one look and over whole runs. */
module LegRuns {
  import opened ChainSteps
  import opened LegSteps
  import Calls = ChainCalls
  import Chains = ChainRuns

  // ---------------------------------------------------------------------------
  // One look
  // ---------------------------------------------------------------------------

  /**
    No look makes matters worse: the leg changes exactly when a session was built on
    a better one, and a mount on the direct leg is left in peace.
   */
  lemma StepOnlyClimbs(cfg: Config, v: View, w: Replies, take: Take)
    ensures var o := Step(cfg, v, w, take);
            && (v.connected ==> o.view.connected)
            && (if o.took.Some? && take.Took?
                then Current(o.view) == LegOf(o.took.value) && Rank(Current(o.view)) > Rank(Current(v))
                else Current(o.view) == Current(v))
            && (Current(v) == SmbDirect ==> o.view == v && o.took.None? && forall e | e in o.effects :: e == NOTHING)
  {
    Calls.BetterIsBetter(cfg, v.chain, Current(v), w);
  }

  /** If sessions can be built, no SMB leg outranks the one a look ends on. */
  lemma StepFindsTheBest(cfg: Config, v: View, w: Replies)
    requires !v.refused
    ensures var leg := Current(Step(cfg, v, w, Took).view);
            && (forall other | other != Https && Calls.Available(cfg, v.chain, w, true, other) ::
                  Rank(other) <= Rank(leg))
            && (leg == Current(v) || Calls.Available(cfg, v.chain, w, true, leg))
  {
    Calls.BetterIsBetter(cfg, v.chain, Current(v), w);
    StepOnlyClimbs(cfg, v, w, Took);
  }

  /**
    After a look that took a route, the chain has settled on that very leg and host;
    otherwise its decision is what it was. Of the tunnel it hears that it failed
    exactly when the session on it could not be built for want of a login's refusal.
   */
  lemma StepSettlesWhatItTook(cfg: Config, v: View, w: Replies, take: Take)
    requires !v.refused
    ensures var o := Step(cfg, v, w, take);
            var found := BetterThan(cfg, v.chain, Current(v), w);
            && o.took == found.value
            && (if o.took.Some? && take.Took?
                then CurrentRoute(o.view.chain) == Some(Route(LegOf(o.took.value), Some(o.took.value.host)))
                else o.view.chain.decision == v.chain.decision)
            && o.view.chain.refused == found.state.refused
            && o.view.chain.tunnelFailedAt ==
               (if o.took.Some? && o.took.value.Tunnelled? && take.Failed? then Some(w.settled)
                else found.state.tunnelFailedAt)
            && o.view.connected == (v.connected || (o.took.Some? && take.Took?))
            && o.view.refused == (o.took.Some? && take.RefusedLogin?)
  {
    Calls.BetterIsBetter(cfg, v.chain, Current(v), w);
  }

  function HostOf(v: View): Option<string> {
    if CurrentRoute(v.chain).Some? then CurrentRoute(v.chain).value.smbHost else None
  }

  /** Two looks report the same exactly when they end on the same leg and, if it is SMB, at the same host. */
  lemma ReportTellsLegsApart(v: View, u: View)
    ensures Described(v, Current(v)) == Described(u, Current(u)) <==>
            Current(v) == Current(u) && (Current(v) == Https || HostOf(v) == HostOf(u))
  {
    DescribedAs(v);
    DescribedAs(u);
  }

  /** How a report begins tells the leg, and the rest of it the host. */
  lemma DescribedAs(v: View)
    ensures var said := Described(v, Current(v));
            && said != "" && (said[0] == 'H' <==> Current(v) == Https)
            && (Current(v) == Https ==> said == Name(Https))
            && (Current(v) == SmbDirect && HostOf(v).None? ==> |said| == 3)
            && (Current(v) == SmbDirect && HostOf(v).Some? ==>
                  |said| >= 7 && said[4] == 'a' && said[7..] == HostOf(v).value)
            && (Current(v) == SmbOverVpn ==> |said| >= 11 && said[4] == 'v')
            && (Current(v) == SmbOverVpn && HostOf(v).None? ==> |said| == 11)
            && (Current(v) == SmbOverVpn && HostOf(v).Some? ==> |said| >= 15 && said[15..] == HostOf(v).value)
  {
  }

  /** The log says SMB exactly when the leg is SMB, and then only of a live session. */
  lemma ReportIsHonest(v: View)
    ensures Described(v, Current(v)) == Name(Https) <==> Current(v) == Https
    ensures Current(v) != Https ==>
              v.connected && Name(Current(v)) <= Described(v, Current(v))
  {
    var said := Described(v, Current(v));
    assert said[0] == if Current(v) == Https then 'H' else 'S';
  }

  // ---------------------------------------------------------------------------
  // Runs
  // ---------------------------------------------------------------------------

  /**
    A look, a call of the chain by anybody else, or the session changing by
    itself: dying, coming back, or having its login refused. A refusal is not
    taken back.
   */
  datatype Event =
    | Looks(w: Replies, take: Take)
    | Calls(op: Calls.Op)
    | Changes(at: nat, connected: bool, refused: bool)

  function Begins(e: Event): nat {
    match e
    case Looks(w, _) => w.asked
    case Calls(op) => op.w.asked
    case Changes(at, _, _) => at
  }

  function Ends(e: Event): nat {
    match e
    case Looks(w, _) => w.settled
    case Calls(op) => op.w.settled
    case Changes(at, _, _) => at
  }

  predicate Forward(e: Event) {
    match e
    case Looks(w, _) => w.InOrder()
    case Calls(op) => op.w.InOrder()
    case Changes(_, _, _) => true
  }

  function Apply(cfg: Config, v: View, e: Event): View {
    match e
    case Looks(w, take) => Step(cfg, v, w, take).view
    case Calls(op) => v.(chain := Calls.Apply(cfg, v.chain, op).0)
    case Changes(_, connected, refused) => v.(connected := connected, refused := v.refused || refused)
  }

  ghost function After(cfg: Config, v: View, run: seq<Event>): View {
    if run == [] then v else Apply(cfg, After(cfg, v, run[..|run| - 1]), run[|run| - 1])
  }

  /** Events follow one another, each with the clock going forward, and nobody reconsiders. */
  ghost predicate InOrder(run: seq<Event>) {
    && (forall i | 0 <= i < |run| :: Forward(run[i]) && !(run[i].Calls? && run[i].op.Reconsiders?))
    && (forall i, j | 0 <= i < j < |run| :: Ends(run[i]) <= Begins(run[j]))
  }

  /** Once a login was refused, no look asks for, opens or hands over anything ever again. */
  lemma {:induction false} RefusedLoginIsFinal(cfg: Config, v: View, run: seq<Event>)
    requires v.refused
    ensures After(cfg, v, run).refused
    ensures run != [] && run[|run| - 1].Looks? ==>
              var before := After(cfg, v, run[..|run| - 1]);
              Step(cfg, before, run[|run| - 1].w, run[|run| - 1].take) == Outcome(before, [], None)
  {
    if run != [] {
      RefusedLoginIsFinal(cfg, v, run[..|run| - 1]);
    }
  }

  // ---------------------------------------------------------------------------
  // Rationing
  // ---------------------------------------------------------------------------

  /** The tunnel a look opened, if it opened one. */
  function Opening(cfg: Config, v: View, w: Replies, take: Take): Option<Open> {
    var effects := Step(cfg, v, w, take).effects;
    if effects == [] then None else effects[0].open
  }

  /** When an event showed the tunnel not to work: it failed to open, or it carried no session. */
  function FailsAt(cfg: Config, v: View, e: Event): Option<nat> {
    match e
    case Changes(_, _, _) => None
    case Calls(op) =>
      if Calls.Noted(Calls.Apply(cfg, v.chain, op).1) then Some(op.w.failed)
      else if op.CarriedNothing? then Some(op.w.settled)
      else None
    case Looks(w, take) =>
      var o := Step(cfg, v, w, take);
      if Calls.Fails(Opening(cfg, v, w, take)) then Some(w.failed)
      else if o.took.Some? && o.took.value.Tunnelled? && !take.Took? then Some(w.settled)
      else None
  }

  /** Since some failure: no look is made any more, or the chain keeps quiet. */
  ghost predicate Quiet(cfg: Config, v: View, since: nat, now: nat) {
    v.refused || Chains.Quiet(cfg, v.chain, since, now)
  }

  /** A look is, to the chain, a search for something better and then at most one more word. */
  lemma StepIsTwoCalls(cfg: Config, v: View, w: Replies, take: Take)
    requires !v.refused
    ensures var o := Step(cfg, v, w, take);
            var (found, e) := Calls.Apply(cfg, v.chain, Calls.Improves(Current(v), w));
            && Opening(cfg, v, w, take) == e.open
            && (o.view.chain == found
                || o.view.chain == TunnelFailed(found, Transient, w.settled)
                || exists route :: o.view.chain == Remember(cfg, found, route, w.settled))
            && (o.took.Some? && o.took.value.Tunnelled? && !take.Took? ==>
                  o.view.refused || o.view.chain == TunnelFailed(found, Transient, w.settled))
  {
    var better := BetterThan(cfg, v.chain, Current(v), w);
    if better.value.Some? && !better.value.value.Unavailable? {
      var route := Route(LegOf(better.value.value), Some(better.value.value.host));
      assert take.Took? ==> Step(cfg, v, w, take).view.chain == Remember(cfg, better.state, route, w.settled);
    }
  }

  lemma QuietIsKept(cfg: Config, v: View, e: Event, since: nat)
    requires InOrder([e]) && since <= Begins(e)
    requires Quiet(cfg, v, since, Begins(e))
    ensures Quiet(cfg, Apply(cfg, v, e), since, Ends(e))
    ensures e.Looks? ==>
              var open := Opening(cfg, v, e.w, e.take);
              open.Some? ==> open.value.at >= since + cfg.tunnelRecheck
  {
    assert Forward([e][0]) && !([e][0].Calls? && [e][0].op.Reconsiders?);
    if e.Calls? {
      if !v.refused {
        Chains.QuietIsKept(cfg, v.chain, e.op, since);
      }
    } else if e.Looks? && !v.refused {
      StepIsTwoCalls(cfg, v, e.w, e.take);
      Chains.QuietIsKept(cfg, v.chain, Calls.Improves(Current(v), e.w), since);
      Calls.BetterIsBetter(cfg, v.chain, Current(v), e.w);
    }
  }

  lemma FailureStartsQuiet(cfg: Config, v: View, e: Event)
    requires Forward(e) && FailsAt(cfg, v, e).Some?
    ensures Begins(e) <= FailsAt(cfg, v, e).value <= Ends(e)
    ensures Quiet(cfg, Apply(cfg, v, e), FailsAt(cfg, v, e).value, Ends(e))
  {
    if e.Calls? {
      Chains.FailureStartsQuiet(cfg, v.chain, e.op);
    } else if e.Looks? && !v.refused {
      StepIsTwoCalls(cfg, v, e.w, e.take);
      var op := Calls.Improves(Current(v), e.w);
      if Calls.Fails(Opening(cfg, v, e.w, e.take)) {
        Chains.FailureStartsQuiet(cfg, v.chain, op);
      }
    }
  }

  lemma {:induction false} QuietOverARun(cfg: Config, v: View, run: seq<Event>, i: nat, since: nat, j: nat)
    requires InOrder(run) && i < j <= |run|
    requires since <= Ends(run[i]) && Quiet(cfg, After(cfg, v, run[..i + 1]), since, Ends(run[i]))
    ensures Quiet(cfg, After(cfg, v, run[..j]), since, Ends(run[j - 1])) && since <= Ends(run[j - 1])
    decreases j
  {
    if j > i + 1 {
      QuietOverARun(cfg, v, run, i, since, j - 1);
      assert run[..j][..j - 1] == run[..j - 1];
      OneInOrder(run, j - 1);
      QuietLasts(cfg, After(cfg, v, run[..j - 1]), since, Ends(run[j - 2]), Begins(run[j - 1]));
      QuietIsKept(cfg, After(cfg, v, run[..j - 1]), run[j - 1], since);
    }
  }

  lemma QuietLasts(cfg: Config, v: View, since: nat, now: nat, later: nat)
    requires Quiet(cfg, v, since, now) && now <= later
    ensures Quiet(cfg, v, since, later)
  {
  }

  lemma OneInOrder(run: seq<Event>, i: nat)
    requires InOrder(run) && i < |run|
    ensures InOrder([run[i]]) && Begins(run[i]) <= Ends(run[i])
  {
  }

  /**
    After the tunnel failed to open, or carried no session, no look raises it
    before its interval has passed, whatever the session and the chain's other
    callers do in between.
   */
  lemma LooksAreRationed(cfg: Config, v: View, run: seq<Event>, i: nat, j: nat)
    requires InOrder(run) && i < j < |run| && run[j].Looks?
    requires FailsAt(cfg, After(cfg, v, run[..i]), run[i]).Some?
    ensures var open := Opening(cfg, After(cfg, v, run[..j]), run[j].w, run[j].take);
            open.Some? ==>
              open.value.at >= FailsAt(cfg, After(cfg, v, run[..i]), run[i]).value + cfg.tunnelRecheck
  {
    var since := FailsAt(cfg, After(cfg, v, run[..i]), run[i]).value;
    FailureStartsQuiet(cfg, After(cfg, v, run[..i]), run[i]);
    assert run[..i + 1][..i] == run[..i];
    QuietOverARun(cfg, v, run, i, since, j);
    QuietLasts(cfg, After(cfg, v, run[..j]), since, Ends(run[j - 1]), Begins(run[j]));
    OneInOrder(run, j);
    QuietIsKept(cfg, After(cfg, v, run[..j]), run[j], since);
  }
}
