/**
  The decision for a transport: how it is made, and what is remembered of it.

  The network and the clock are a parameter of each call: `Replies` is what they
  answer while it runs. These functions say what one call does to the chain's
  state; the class `Chain` does it, field by field, and `ChainRuns` says what it
  adds up to.
 */
module ChainSteps {

  datatype Option<T> = None | Some(value: T)

  datatype Transport = Https | SmbOverVpn | SmbDirect

  function Rank(t: Transport): nat {
    match t case Https => 0 case SmbOverVpn => 1 case SmbDirect => 2
  }

  datatype Policy = Policy(smb: bool, vpn: bool, https: bool)

  /** The policy of the three `--disable-*` flags, unless nothing would be left. */
  function FromFlags(disableSmb: bool, disableVpn: bool, disableHttps: bool): (p: Option<Policy>)
    ensures p.None? <==> disableSmb && disableHttps
    ensures p.Some? ==> (p.value.vpn ==> p.value.smb) && (p.value.smb || p.value.https)
    ensures p.Some? ==> (p.value.smb <==> !disableSmb) && (p.value.https <==> !disableHttps)
    ensures p.Some? ==> (p.value.vpn <==> p.value.smb && !disableVpn)
  {
    if disableSmb && disableHttps then None
    else Some(Policy(!disableSmb, !disableSmb && !disableVpn, !disableHttps))
  }

  datatype Config = Config(
    policy: Policy,
    publicHost: string,
    tunnelHost: Option<string>,
    recheck: nat,
    tunnelRecheck: nat)

  datatype Route = Route(transport: Transport, smbHost: Option<string>)

  type Connection = nat

  datatype SmbRoute =
    | Direct(host: string)
    | Tunnelled(host: string, connection: Connection)
    | Unavailable

  datatype TunnelAnswer = Opened(connection: Connection) | Transient | Refused(why: string)

  /** What the world answers during one call, and what the clock reads along the way. */
  datatype Replies = Replies(
    asked: nat,            // when the remembered decision is looked at
    reachable: bool,       // the direct probe
    rationed: nat,         // when the tunnel's quiet interval is looked at
    answer: TunnelAnswer,  // the tunnel
    failed: nat,           // when a failure of it is noted
    settled: nat)          // when a decision is remembered, or a session built or not
  {
    predicate InOrder() {
      asked <= rationed <= failed <= settled
    }
  }

  datatype Decision = Decision(route: Route, expiresAt: Option<nat>)

  datatype State = State(decision: Option<Decision>, refused: Option<string>, tunnelFailedAt: Option<nat>)

  const FRESH := State(None, None, None)

  /** Why the tunnel was asked. */
  datatype Reason = Rationed | Remembered | Extra

  datatype Open = Open(reason: Reason, at: nat, answer: TunnelAnswer)

  /** What a call did to the world, and whether it recorded a decision. */
  datatype Effects = Effects(probed: bool, open: Option<Open>, settled: Option<Transport>)

  const NOTHING := Effects(false, None, None)

  function IsBest(t: Transport): bool {
    t == SmbDirect
  }

  function Cached(s: State, now: nat): Option<Route> {
    match s.decision
    case None => None
    case Some(d) =>
      if d.expiresAt.None? || now < d.expiresAt.value then Some(d.route) else None
  }

  function Remember(cfg: Config, s: State, route: Route, now: nat): State {
    s.(decision := Some(Decision(route, if IsBest(route.transport) then None else Some(now + cfg.recheck))))
  }

  function Forget(s: State, actedOn: Route): State {
    if s.decision.Some? && s.decision.value.route == actedOn then s.(decision := None) else s
  }

  function TunnelFailed(s: State, answer: TunnelAnswer, now: nat): State
    requires !answer.Opened?
  {
    match answer
    case Refused(why) => s.(refused := Some(why))
    case Transient => s.(tunnelFailedAt := Some(now))
  }

  /** Whether the tunnel may be asked on its own account. */
  predicate MayRaise(cfg: Config, s: State, now: nat) {
    && cfg.policy.vpn
    && s.refused.None?
    && (s.tunnelFailedAt.Some? ==> now >= s.tunnelFailedAt.value + cfg.tunnelRecheck)
  }

  datatype Raise = Raise(state: State, connection: Option<Connection>, open: Option<Open>)

  function RaiseTunnel(cfg: Config, s: State, w: Replies): Raise {
    if !MayRaise(cfg, s, w.rationed) then Raise(s, None, None)
    else
      var open := Some(Open(Rationed, w.rationed, w.answer));
      match w.answer
      case Opened(c) => Raise(s.(tunnelFailedAt := None), Some(c), open)
      case _ => Raise(TunnelFailed(s, w.answer, w.failed), None, open)
  }

  /** Where a decision ended, and the connection it opened if that is the tunnel. */
  datatype Choice = Choice(
    state: State,
    route: Option<Route>,
    connection: Option<Connection>,
    probed: bool,
    open: Option<Open>)

  function Decide(cfg: Config, s: State, w: Replies, mayOpen: bool): Choice {
    var fallback := if cfg.policy.https then Some(Route(Https, None)) else None;
    if !cfg.policy.smb then Choice(s, fallback, None, false, None)
    else if w.reachable then Choice(s, Some(Route(SmbDirect, Some(cfg.publicHost))), None, true, None)
    else if cfg.policy.vpn && cfg.tunnelHost.Some? && mayOpen then
      var raise := RaiseTunnel(cfg, s, w);
      if raise.connection.Some? then
        Choice(raise.state, Some(Route(SmbOverVpn, cfg.tunnelHost)), raise.connection, true, raise.open)
      else Choice(raise.state, fallback, None, true, raise.open)
    else Choice(s, fallback, None, true, None)
  }

  datatype Answer<T> = Answer(state: State, effects: Effects, value: T)

  function RememberChoice(cfg: Config, choice: Choice, now: nat): State {
    if choice.route.Some? then Remember(cfg, choice.state, choice.route.value, now) else choice.state
  }

  function ChoiceEffects(choice: Choice): Effects {
    Effects(choice.probed, choice.open, if choice.route.Some? then Some(choice.route.value.transport) else None)
  }

  function AskRoute(cfg: Config, s: State, w: Replies): Answer<Option<Route>> {
    if Cached(s, w.asked).Some? then Answer(s, NOTHING, Cached(s, w.asked))
    else
      var choice := Decide(cfg, s, w, true);
      Answer(RememberChoice(cfg, choice, w.settled), ChoiceEffects(choice), choice.route)
  }

  /** SMB on a decided route; no route at all is no transport. */
  function OnRoute(choice: Choice): Option<SmbRoute> {
    if choice.route.None? then None
    else
      match (choice.route.value.transport, choice.route.value.smbHost, choice.connection)
      case (SmbOverVpn, Some(host), Some(c)) => Some(Tunnelled(host, c))
      case (SmbDirect, Some(host), _) => Some(Direct(host))
      case _ => Some(Unavailable)
  }

  function DecideAfresh(cfg: Config, s: State, w: Replies): Answer<Option<SmbRoute>> {
    var choice := Decide(cfg, s, w, true);
    Answer(RememberChoice(cfg, choice, w.settled), ChoiceEffects(choice), OnRoute(choice))
  }

  /** A tunnel believed in has failed: decide again among the other legs. */
  function DecideWithoutTheTunnel(cfg: Config, s: State, w: Replies, cached: Route, open: Open)
    : Answer<Option<SmbRoute>>
    requires !w.answer.Opened?
  {
    var choice := Decide(cfg, Forget(TunnelFailed(s, w.answer, w.failed), cached), w, false);
    Answer(RememberChoice(cfg, choice, w.settled), ChoiceEffects(choice).(open := Some(open)), OnRoute(choice))
  }

  function ReachSmb(cfg: Config, s: State, w: Replies): Answer<Option<SmbRoute>> {
    match Cached(s, w.asked)
    case Some(Route(SmbDirect, Some(host))) => Answer(s, NOTHING, Some(Direct(host)))
    case Some(Route(Https, _)) => Answer(s, NOTHING, Some(Unavailable))
    case Some(Route(SmbOverVpn, Some(host))) =>
      var open := Open(Remembered, w.asked, w.answer);
      if w.answer.Opened? then Answer(s, NOTHING.(open := Some(open)), Some(Tunnelled(host, w.answer.connection)))
      else DecideWithoutTheTunnel(cfg, s, w, Route(SmbOverVpn, Some(host)), open)
    case _ => DecideAfresh(cfg, s, w)
  }

  function BetterThan(cfg: Config, s: State, current: Transport, w: Replies): Answer<Option<SmbRoute>> {
    if IsBest(current) || !cfg.policy.smb then Answer(s, NOTHING, None)
    else if w.reachable then Answer(s, NOTHING.(probed := true), Some(Direct(cfg.publicHost)))
    else if Rank(current) >= Rank(SmbOverVpn) || cfg.tunnelHost.None? then Answer(s, NOTHING.(probed := true), None)
    else
      var raise := RaiseTunnel(cfg, s, w);
      Answer(raise.state, Effects(true, raise.open, None),
             if raise.connection.Some? then Some(Tunnelled(cfg.tunnelHost.value, raise.connection.value)) else None)
  }

  function CurrentRoute(s: State): Option<Route> {
    if s.decision.Some? then Some(s.decision.value.route) else None
  }

  /** One more connection on the settled leg. Nothing in it is the chain's to remember. */
  function AnotherConnection(s: State, w: Replies): (Effects, Option<SmbRoute>) {
    match CurrentRoute(s)
    case Some(Route(SmbDirect, Some(host))) => (NOTHING, Some(Direct(host)))
    case Some(Route(SmbOverVpn, Some(host))) =>
      (NOTHING.(open := Some(Open(Extra, w.asked, w.answer))),
       if w.answer.Opened? then Some(Tunnelled(host, w.answer.connection)) else None)
    case _ => (NOTHING, Some(Unavailable))
  }
}
