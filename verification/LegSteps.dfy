/**
  The leg of a mount, and what one look of the watcher does to the chain and to
  the session. The class `Legs` does it; `LegRuns` says what it adds up to.
 */
module LegSteps {
  import opened ChainSteps
  import Steps = ChainSteps

  /** How handing the session a route turns out. */
  datatype Take = Took | Failed | RefusedLogin

  /** What a look depends on: the chain, and whether the session is up or its login refused. */
  datatype View = View(chain: State, connected: bool, refused: bool)

  /** HTTPS unless a live session has an SMB leg on record. */
  function Current(v: View): Transport {
    if v.connected && CurrentRoute(v.chain).Some? then CurrentRoute(v.chain).value.transport else Https
  }

  function Name(leg: Transport): string {
    match leg
    case SmbDirect => "SMB"
    case SmbOverVpn => "SMB via VPN"
    case Https => "HTTPS"
  }

  /** The name of a leg in the log, with its host if it is SMB. */
  function Described(v: View, leg: Transport): string {
    match CurrentRoute(v.chain)
    case Some(Route(_, Some(host))) => if leg != Https then Name(leg) + " at " + host else Name(leg)
    case _ => Name(leg)
  }

  function LegOf(route: SmbRoute): Transport {
    match route
    case Direct(_) => SmbDirect
    case Tunnelled(_, _) => SmbOverVpn
    case Unavailable => Https
  }

  /** The session after a take: a failed one leaves the old session as it was. */
  function Taken(v: View, take: Take): View {
    match take
    case Took => v.(connected := true)
    case Failed => v
    case RefusedLogin => v.(refused := true)
  }

  /** The state after a look, what it did to the world, and the route it handed over. */
  datatype Outcome = Outcome(view: View, effects: seq<Effects>, took: Option<SmbRoute>)

  function MoveTo(cfg: Config, v: View, route: SmbRoute, take: Take, now: nat): Outcome {
    if route.Unavailable? then Outcome(v, [], None)
    else
      var after := Taken(v, take);
      if take.Took? then
        Outcome(after.(chain := Remember(cfg, v.chain, Route(LegOf(route), Some(route.host)), now)),
                [NOTHING.(settled := Some(LegOf(route)))], Some(route))
      else if after.refused then Outcome(after, [], Some(route))
      else if route.Tunnelled? then
        Outcome(after.(chain := TunnelFailed(v.chain, Transient, now)), [NOTHING], Some(route))
      else Outcome(after, [], Some(route))
  }

  function Step(cfg: Config, v: View, w: Replies, take: Take): Outcome {
    if v.refused then Outcome(v, [], None)
    else
      var better := Steps.BetterThan(cfg, v.chain, Current(v), w);
      var found := v.(chain := better.state);
      if better.value.None? then Outcome(found, [better.effects], None)
      else
        var moved := MoveTo(cfg, found, better.value.value, take, w.settled);
        Outcome(moved.view, [better.effects] + moved.effects, moved.took)
  }
}
