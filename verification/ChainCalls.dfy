/**
  What one call of the chain answers, asks and remembers, said without the steps
  that it takes.
 */
module ChainCalls {
  import opened ChainSteps

  // ---------------------------------------------------------------------------
  // One decision
  // ---------------------------------------------------------------------------

  /** Whether `leg` could carry the data, as far as the policy and the world's answers go. */
  ghost predicate Available(cfg: Config, s: State, w: Replies, mayOpen: bool, leg: Transport) {
    match leg
    case SmbDirect => cfg.policy.smb && w.reachable
    case SmbOverVpn =>
      && cfg.policy.smb && cfg.policy.vpn && cfg.tunnelHost.Some? && mayOpen
      && s.refused.None?
      && (s.tunnelFailedAt.None? || w.rationed >= s.tunnelFailedAt.value + cfg.tunnelRecheck)
      && w.answer.Opened?
    case Https => cfg.policy.https
  }

  /** Whether a decision gets as far as asking the tunnel: nothing better answers, and it may be asked. */
  predicate AsksTunnel(cfg: Config, s: State, w: Replies) {
    && cfg.policy.smb && !w.reachable
    && cfg.policy.vpn && cfg.tunnelHost.Some?
    && s.refused.None?
    && (s.tunnelFailedAt.None? || w.rationed >= s.tunnelFailedAt.value + cfg.tunnelRecheck)
  }

  ghost predicate IsBestAvailable(cfg: Config, s: State, w: Replies, mayOpen: bool, leg: Transport) {
    && Available(cfg, s, w, mayOpen, leg)
    && forall other :: Available(cfg, s, w, mayOpen, other) ==> Rank(other) <= Rank(leg)
  }

  /** Where SMB is reached on a leg. */
  function HostOn(cfg: Config, leg: Transport): Option<string> {
    match leg
    case SmbDirect => Some(cfg.publicHost)
    case SmbOverVpn => cfg.tunnelHost
    case Https => None
  }

  /** The ladder ends on an available leg that no other outranks, and nowhere only when none is available. */
  lemma DecideTakesTheBestLeg(cfg: Config, s: State, w: Replies, mayOpen: bool)
    ensures var d := Decide(cfg, s, w, mayOpen);
            && (d.route.None? <==> forall leg :: !Available(cfg, s, w, mayOpen, leg))
            && (d.route.Some? ==>
                  && IsBestAvailable(cfg, s, w, mayOpen, d.route.value.transport)
                  && d.route.value.smbHost == HostOn(cfg, d.route.value.transport)
                  && (d.connection.Some? <==> d.route.value.transport == SmbOverVpn))
            && (d.connection.Some? ==> w.answer == Opened(d.connection.value))
            && (d.probed <==> cfg.policy.smb)
            && d.open == (if mayOpen && AsksTunnel(cfg, s, w) then Some(Open(Rationed, w.rationed, w.answer)) else None)
  {
    var d := Decide(cfg, s, w, mayOpen);
    if d.route.Some? {
      assert Available(cfg, s, w, mayOpen, d.route.value.transport);
      forall other | Available(cfg, s, w, mayOpen, other) ensures Rank(other) <= Rank(d.route.value.transport) {
        match other
        case SmbDirect =>
        case SmbOverVpn =>
        case Https =>
      }
    } else {
      forall leg ensures !Available(cfg, s, w, mayOpen, leg) {
        match leg
        case SmbDirect =>
        case SmbOverVpn =>
        case Https =>
      }
    }
  }

  /**
    Asking which transport to use is a memo over the ladder: a live decision is
    the answer, at no cost; otherwise the best leg is, and becomes the decision.
   */
  lemma RouteIsARememberedLadder(cfg: Config, s: State, w: Replies)
    requires w.InOrder()
    ensures var a := AskRoute(cfg, s, w);
            if Cached(s, w.asked).Some? then a == Answer(s, NOTHING, Cached(s, w.asked))
            else
              && (a.value.None? <==> forall leg :: !Available(cfg, s, w, true, leg))
              && (a.value.Some? ==>
                    && IsBestAvailable(cfg, s, w, true, a.value.value.transport)
                    && a.value.value.smbHost == HostOn(cfg, a.value.value.transport)
                    && CurrentRoute(a.state) == a.value
                    && (forall t: nat :: Cached(a.state, t) == a.value <==>
                          a.value.value.transport == SmbDirect || t < w.settled + cfg.recheck))
              && (a.effects.probed <==> cfg.policy.smb)
              && a.effects.open == (if AsksTunnel(cfg, s, w) then Some(Open(Rationed, w.rationed, w.answer)) else None)
  {
    DecideTakesTheBestLeg(cfg, s, w, true);
  }

  /**
    Reaching SMB with nothing remembered: on the best leg if that carries SMB, and
    unavailable if it does not.
   */
  lemma ReachTakesTheBestLeg(cfg: Config, s: State, w: Replies)
    requires Cached(s, w.asked).None?
    ensures var a := ReachSmb(cfg, s, w);
            match a.value
            case None => forall leg :: !Available(cfg, s, w, true, leg)
            case Some(Direct(host)) => IsBestAvailable(cfg, s, w, true, SmbDirect) && host == cfg.publicHost
            case Some(Tunnelled(host, c)) =>
              && IsBestAvailable(cfg, s, w, true, SmbOverVpn)
              && Some(host) == cfg.tunnelHost && w.answer == Opened(c)
            case Some(Unavailable) => IsBestAvailable(cfg, s, w, true, Https)
  {
    DecideTakesTheBestLeg(cfg, s, w, true);
  }

  /**
    Reaching SMB through a remembered tunnel: the tunnel if it opens, and if it
    does not, the best of the other legs, the tunnel having been asked once.
   */
  lemma ReachFallsBackOnce(cfg: Config, s: State, w: Replies, host: string)
    requires Cached(s, w.asked) == Some(Route(SmbOverVpn, Some(host)))
    ensures var a := ReachSmb(cfg, s, w);
            && a.effects.open == Some(Open(Remembered, w.asked, w.answer))
            && (w.answer.Opened? ==> a.state == s && a.value == Some(Tunnelled(host, w.answer.connection)))
            && (!w.answer.Opened? ==>
                  match a.value
                  case None => a.state.decision.None? && forall leg :: !Available(cfg, s, w, false, leg)
                  case Some(Direct(h)) => IsBestAvailable(cfg, s, w, false, SmbDirect) && h == cfg.publicHost
                  case Some(Tunnelled(_, _)) => false
                  case Some(Unavailable) => IsBestAvailable(cfg, s, w, false, Https))
  {
    if !w.answer.Opened? {
      var forgotten := Forget(TunnelFailed(s, w.answer, w.failed), Route(SmbOverVpn, Some(host)));
      DecideTakesTheBestLeg(cfg, forgotten, w, false);
      forall leg ensures Available(cfg, forgotten, w, false, leg) <==> Available(cfg, s, w, false, leg) {
        match leg
        case SmbDirect =>
        case SmbOverVpn =>
        case Https =>
      }
    }
  }

  /** A better leg is strictly better, and asked for only as far as it could be better. */
  lemma BetterIsBetter(cfg: Config, s: State, current: Transport, w: Replies)
    ensures var a := BetterThan(cfg, s, current, w);
            && (a.value.Some? <==>
                  exists leg :: leg != Https && Rank(leg) > Rank(current) && Available(cfg, s, w, true, leg))
            && (a.value.Some? ==>
                  match a.value.value
                  case Direct(host) => host == cfg.publicHost && IsBestAvailable(cfg, s, w, true, SmbDirect)
                  case Tunnelled(host, c) =>
                    && Some(host) == cfg.tunnelHost && w.answer == Opened(c) && current == Https
                    && IsBestAvailable(cfg, s, w, true, SmbOverVpn)
                  case Unavailable => false)
            && (a.effects.probed <==> current != SmbDirect && cfg.policy.smb)
            && a.effects.open == (if current == Https && AsksTunnel(cfg, s, w)
                                  then Some(Open(Rationed, w.rationed, w.answer)) else None)
            && a.effects.settled.None? && a.state.decision == s.decision
  {
    var a := BetterThan(cfg, s, current, w);
    if current != SmbDirect && cfg.policy.smb {
      if w.reachable {
        assert Available(cfg, s, w, true, SmbDirect);
      } else if a.value.Some? {
        assert Available(cfg, s, w, true, SmbOverVpn);
      }
    }
  }

  /** The decision is for an SMB leg that can be reached. */
  predicate OnSmb(s: State) {
    CurrentRoute(s).Some? && CurrentRoute(s).value.transport != Https && CurrentRoute(s).value.smbHost.Some?
  }

  /** An extra connection decides nothing: it is on the decided leg, or there is none to be on. */
  lemma AnotherConnectionStaysOnTheLeg(s: State, w: Replies)
    ensures var (effects, route) := AnotherConnection(s, w);
            && !effects.probed && effects.settled.None?
            && effects.open == (if OnSmb(s) && CurrentRoute(s).value.transport == SmbOverVpn
                                then Some(Open(Extra, w.asked, w.answer)) else None)
            && (route.None? <==> effects.open.Some? && !w.answer.Opened?)
            && (route == Some(Unavailable) <==> !OnSmb(s))
            && (route.Some? && !route.value.Unavailable? ==> IsOn(route.value, CurrentRoute(s).value, w))
  {
  }

  /** An answer in terms of SMB says the same as a route: its leg, its host, and the connection just opened. */
  predicate IsOn(smb: SmbRoute, route: Route, w: Replies) {
    match smb
    case Direct(host) => route == Route(SmbDirect, Some(host))
    case Tunnelled(host, c) => route == Route(SmbOverVpn, Some(host)) && w.answer == Opened(c)
    case Unavailable => route.transport == Https
  }

  /**
    Reaching SMB agrees with asking for a route, in what it costs, what it remembers
    and what it answers, unless what is live is a tunnel, which it has to open, or a
    direct leg with no host to dial.
   */
  lemma ReachAgreesWithRoute(cfg: Config, s: State, w: Replies)
    requires match Cached(s, w.asked)
             case Some(route) => route.transport != SmbOverVpn && (route.transport == SmbDirect ==> route.smbHost.Some?)
             case None => true
    ensures var r, a := ReachSmb(cfg, s, w), AskRoute(cfg, s, w);
            && r.state == a.state && r.effects == a.effects
            && (r.value.None? <==> a.value.None?)
            && (r.value.Some? ==> IsOn(r.value.value, a.value.value, w))
  {
    DecideTakesTheBestLeg(cfg, s, w, true);
  }

  /** An SMB decision without a host is no use to it: it decides as if nothing were remembered. */
  lemma ReachDecidesWithoutAHost(cfg: Config, s: State, w: Replies)
    requires Cached(s, w.asked).Some?
    requires Cached(s, w.asked).value.transport != Https && Cached(s, w.asked).value.smbHost.None?
    ensures var r, a := ReachSmb(cfg, s, w), ReachSmb(cfg, s.(decision := None), w);
            && r.value == a.value && r.effects == a.effects
            && (r.effects.probed <==> cfg.policy.smb)
            && AskRoute(cfg, s, w).effects == NOTHING
  {
    var bare := s.(decision := None);
    assert RaiseTunnel(cfg, bare, w) ==
           var raise := RaiseTunnel(cfg, s, w); raise.(state := raise.state.(decision := None));
  }

  // ---------------------------------------------------------------------------
  // Any call
  // ---------------------------------------------------------------------------

  datatype Op =
    | Asks(w: Replies)
    | Reaches(w: Replies)
    | Improves(current: Transport, w: Replies)
    | Settles(route: Route, w: Replies)
    | CarriedNothing(w: Replies)
    | Another(w: Replies)
    | Reconsiders(w: Replies)

  function Apply(cfg: Config, s: State, op: Op): (State, Effects) {
    match op
    case Asks(w) => (AskRoute(cfg, s, w).state, AskRoute(cfg, s, w).effects)
    case Reaches(w) => (ReachSmb(cfg, s, w).state, ReachSmb(cfg, s, w).effects)
    case Improves(current, w) => (BetterThan(cfg, s, current, w).state, BetterThan(cfg, s, current, w).effects)
    case Settles(route, w) => (Remember(cfg, s, route, w.settled), NOTHING.(settled := Some(route.transport)))
    case CarriedNothing(w) => (TunnelFailed(s, Transient, w.settled), NOTHING)
    case Another(w) => (s, AnotherConnection(s, w).0)
    case Reconsiders(_) => (FRESH, NOTHING)
  }

  predicate Fails(open: Option<Open>) {
    open.Some? && !open.value.answer.Opened?
  }

  /** A failing open the chain hears of: all but those that are the caller's own. */
  predicate Noted(e: Effects) {
    Fails(e.open) && e.open.value.reason != Extra
  }

  // ---------------------------------------------------------------------------
  // What a call leaves behind
  // ---------------------------------------------------------------------------

  /** A refusal is latched by the call that hears it, and by no other; its reason is kept. */
  lemma RefusalIsLatched(cfg: Config, s: State, op: Op)
    requires !op.Reconsiders?
    ensures var (s', e) := Apply(cfg, s, op);
            s'.refused == if Noted(e) && e.open.value.answer.Refused? then Some(e.open.value.answer.why) else s.refused
  {
  }

  /** The time of the tunnel's last failure is that, cleared by an open that works on its own account. */
  lemma FailureIsTimed(cfg: Config, s: State, op: Op)
    requires !op.Reconsiders?
    ensures var (s', e) := Apply(cfg, s, op);
            s'.tunnelFailedAt ==
            if op.CarriedNothing? then Some(op.w.settled)
            else if Noted(e) && e.open.value.answer.Transient? then Some(op.w.failed)
            else if e.open.Some? && e.open.value.reason == Rationed && e.open.value.answer.Opened? then None
            else s.tunnelFailedAt
  {
  }

  /**
    The decision changes only by a new one, or by the failure of the tunnel it is
    for; a new one for the direct leg never expires, and any other does after the
    recheck interval.
   */
  lemma DecisionIsRecorded(cfg: Config, s: State, op: Op)
    requires !op.Reconsiders?
    ensures var (s', e) := Apply(cfg, s, op);
            && (e.settled.Some? ==>
                  && s'.decision.Some? && s'.decision.value.route.transport == e.settled.value
                  && s'.decision.value.expiresAt
                     == if e.settled.value == SmbDirect then None else Some(op.w.settled + cfg.recheck))
            && (e.settled.None? ==>
                  s'.decision == if Noted(e) && e.open.value.reason == Remembered then None else s.decision)
            && (op.Settles? ==> CurrentRoute(s') == Some(op.route))
  {
  }

  /** A decision answers for nothing exactly until it expires, the direct one for ever. */
  lemma SettledIsRemembered(cfg: Config, s: State, route: Route, at: nat, w: Replies)
    requires cfg.policy.smb || cfg.policy.https
    ensures var a := AskRoute(cfg, Remember(cfg, s, route, at), w);
            && (a.effects == NOTHING <==> route.transport == SmbDirect || w.asked < at + cfg.recheck)
            && (a.effects == NOTHING ==> a.value == Some(route))
  {
  }

  /**
    The quiet after a transient failure, or a session the tunnel could not carry, is
    the interval and no more: unless the tunnel has refused, a look from HTTPS that
    finds nothing direct asks it again exactly from then on.
   */
  lemma QuietEndsWithItsInterval(cfg: Config, s: State, op: Op, w: Replies)
    requires op.CarriedNothing? || (Noted(Apply(cfg, s, op).1) && Apply(cfg, s, op).1.open.value.answer.Transient?)
    requires cfg.policy.smb && cfg.policy.vpn && cfg.tunnelHost.Some? && !w.reachable
    ensures var since := if op.CarriedNothing? then op.w.settled else op.w.failed;
            BetterThan(cfg, Apply(cfg, s, op).0, Https, w).effects.open.Some? <==>
            s.refused.None? && w.rationed >= since + cfg.tunnelRecheck
  {
    FailureIsTimed(cfg, s, op);
    RefusalIsLatched(cfg, s, op);
  }

  /** Forgetting a route that failed spares any decision made since for another. */
  lemma ForgettingSparesOthers(s: State, actedOn: Route)
    ensures var s' := Forget(s, actedOn);
            && CurrentRoute(s') == (if CurrentRoute(s) == Some(actedOn) then None else CurrentRoute(s))
            && s'.refused == s.refused && s'.tunnelFailedAt == s.tunnelFailedAt
            && (CurrentRoute(s) != Some(actedOn) ==> s' == s)
  {
  }
}
