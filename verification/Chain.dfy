/** The chain itself: three remembered things, changed step by step. */
module Chain {
  import opened ChainSteps
  import Steps = ChainSteps

  class Chain {
    const cfg: Config
    var decision: Option<Decision>
    var refused: Option<string>
    var tunnelFailedAt: Option<nat>
    ghost var trace: seq<Effects>

    function Snapshot(): State
      reads this
    {
      State(decision, refused, tunnelFailedAt)
    }

    constructor (cfg: Config)
      ensures this.cfg == cfg && Snapshot() == FRESH && trace == []
    {
      this.cfg := cfg;
      decision, refused, tunnelFailedAt, trace := None, None, None, [];
    }

    /** Search above `current` only, and leave the decision alone. */
    method BetterThan(current: Transport, w: Replies) returns (route: Option<SmbRoute>)
      modifies this
      ensures var a := Steps.BetterThan(cfg, old(Snapshot()), current, w);
              Snapshot() == a.state && route == a.value && trace == old(trace) + [a.effects]
    {
      if IsBest(current) || !cfg.policy.smb {
        trace := trace + [NOTHING];
        return None;
      }
      if w.reachable {
        trace := trace + [NOTHING.(probed := true)];
        return Some(Direct(cfg.publicHost));
      }
      if Rank(current) >= Rank(SmbOverVpn) || cfg.tunnelHost.None? {
        trace := trace + [NOTHING.(probed := true)];
        return None;
      }
      var connection, open := RaiseTunnel(w);
      trace := trace + [Effects(true, open, None)];
      return if connection.Some? then Some(Tunnelled(cfg.tunnelHost.value, connection.value)) else None;
    }

    /** A session is up on `route`: it becomes the decision. */
    method Settle(route: Route, now: nat)
      modifies this
      ensures Snapshot() == Steps.Remember(cfg, old(Snapshot()), route, now)
      ensures trace == old(trace) + [NOTHING.(settled := Some(route.transport))]
    {
      Remember(route, now);
      trace := trace + [NOTHING.(settled := Some(route.transport))];
    }

    /** A tunnel without a session counts as a failure like any other. */
    method TunnelCarriedNothing(now: nat)
      modifies this
      ensures Snapshot() == Steps.TunnelFailed(old(Snapshot()), Transient, now)
      ensures trace == old(trace) + [NOTHING]
    {
      TunnelFailed(Transient, now);
      trace := trace + [NOTHING];
    }

    method RaiseTunnel(w: Replies) returns (connection: Option<Connection>, ghost open: Option<Open>)
      modifies this`refused, this`tunnelFailedAt
      ensures Raise(Snapshot(), connection, open) == Steps.RaiseTunnel(cfg, old(Snapshot()), w)
    {
      if !cfg.policy.vpn {
        return None, None;
      }
      if refused.Some? {
        return None, None;
      }
      if tunnelFailedAt.Some? && w.rationed < tunnelFailedAt.value + cfg.tunnelRecheck {
        return None, None;
      }
      open := Some(Open(Rationed, w.rationed, w.answer));
      match w.answer {
        case Opened(c) =>
          tunnelFailedAt := None;
          connection := Some(c);
        case _ =>
          TunnelFailed(w.answer, w.failed);
          connection := None;
      }
    }

    method TunnelFailed(answer: TunnelAnswer, now: nat)
      requires !answer.Opened?
      modifies this`refused, this`tunnelFailedAt
      ensures Snapshot() == Steps.TunnelFailed(old(Snapshot()), answer, now)
    {
      match answer {
        case Refused(why) => refused := Some(why);
        case Transient => tunnelFailedAt := Some(now);
      }
    }

    /** The live decision, or a new one. */
    method AskRoute(w: Replies) returns (route: Option<Route>)
      modifies this
      ensures var a := Steps.AskRoute(cfg, old(Snapshot()), w);
              Snapshot() == a.state && route == a.value && trace == old(trace) + [a.effects]
    {
      var cached := Cached(w.asked);
      if cached.Some? {
        trace := trace + [NOTHING];
        return cached;
      }
      var chosen, proof, probed, open := Decide(w, true);
      route := chosen;
      if route.Some? {
        Remember(route.value, w.settled);
      }
      trace := trace + [Effects(probed, open, if route.Some? then Some(route.value.transport) else None)];
    }

    /** One more connection beside a session that is already there. */
    method AnotherSmbConnection(w: Replies) returns (route: Option<SmbRoute>)
      modifies this`trace
      ensures var (effects, value) := AnotherConnection(old(Snapshot()), w);
              Snapshot() == old(Snapshot()) && route == value && trace == old(trace) + [effects]
    {
      var current := Current();
      if current.None? || current.value.smbHost.None? {
        trace := trace + [NOTHING];
        return Some(Unavailable);
      }
      var host := current.value.smbHost.value;
      match current.value.transport {
        case SmbDirect =>
          trace := trace + [NOTHING];
          return Some(Direct(host));
        case SmbOverVpn =>
          trace := trace + [NOTHING.(open := Some(Open(Extra, w.asked, w.answer)))];
          return if w.answer.Opened? then Some(Tunnelled(host, w.answer.connection)) else None;
        case Https =>
          trace := trace + [NOTHING];
          return Some(Unavailable);
      }
    }

    /** The answer in a form that SMB can use: a host to dial, or a connection already made. */
    method ReachSmb(w: Replies) returns (route: Option<SmbRoute>)
      modifies this
      ensures var a := Steps.ReachSmb(cfg, old(Snapshot()), w);
              Snapshot() == a.state && route == a.value && trace == old(trace) + [a.effects]
    {
      var cached := Cached(w.asked);
      if cached.Some? {
        var host := cached.value.smbHost;
        match cached.value.transport {
          case SmbDirect =>
            if host.Some? {
              trace := trace + [NOTHING];
              return Some(Direct(host.value));
            }
          case Https =>
            trace := trace + [NOTHING];
            return Some(Unavailable);
          case SmbOverVpn =>
            if host.Some? {
              route := ReachThroughRemembered(cached.value, host.value, w);
              return;
            }
        }
      }
      var chosen, connection, probed, open := Decide(w, true);
      ghost var s := Snapshot();
      if chosen.Some? {
        Remember(chosen.value, w.settled);
      }
      ghost var choice := Choice(s, chosen, connection, probed, open);
      trace := trace + [ChoiceEffects(choice)];
      route := SmbOn(chosen, connection);
    }

    /** The part of `ReachSmb` that trusts a remembered tunnel until it fails. */
    method ReachThroughRemembered(cached: Route, host: string, w: Replies) returns (route: Option<SmbRoute>)
      requires cached == Route(SmbOverVpn, Some(host))
      modifies this
      ensures var open := Open(Remembered, w.asked, w.answer);
              var a := if w.answer.Opened? then
                         Answer(old(Snapshot()), NOTHING.(open := Some(open)),
                                Some(Tunnelled(host, w.answer.connection)))
                       else DecideWithoutTheTunnel(cfg, old(Snapshot()), w, cached, open);
              Snapshot() == a.state && route == a.value && trace == old(trace) + [a.effects]
    {
      ghost var asked := Open(Remembered, w.asked, w.answer);
      if w.answer.Opened? {
        trace := trace + [NOTHING.(open := Some(asked))];
        return Some(Tunnelled(host, w.answer.connection));
      }
      TunnelFailed(w.answer, w.failed);
      Forget(cached);
      var chosen, connection, probed, open := Decide(w, false);
      ghost var s := Snapshot();
      if chosen.Some? {
        Remember(chosen.value, w.settled);
      }
      ghost var choice := Choice(s, chosen, connection, probed, open);
      trace := trace + [ChoiceEffects(choice).(open := Some(asked))];
      route := SmbOn(chosen, connection);
    }

    method SmbOn(chosen: Option<Route>, connection: Option<Connection>) returns (route: Option<SmbRoute>)
      ensures route == OnRoute(Choice(FRESH, chosen, connection, false, None))
    {
      if chosen.None? {
        return None;
      }
      match (chosen.value.transport, chosen.value.smbHost, connection) {
        case (SmbOverVpn, Some(host), Some(c)) => return Some(Tunnelled(host, c));
        case (SmbDirect, Some(host), _) => return Some(Direct(host));
        case _ => return Some(Unavailable);
      }
    }

    /** Forget everything: only a caller knows that the world has changed. */
    method Reconsider()
      modifies this
      ensures Snapshot() == FRESH && trace == old(trace) + [NOTHING]
    {
      decision := None;
      refused := None;
      tunnelFailedAt := None;
      trace := trace + [NOTHING];
    }

    method Forget(actedOn: Route)
      modifies this`decision
      ensures Snapshot() == Steps.Forget(old(Snapshot()), actedOn)
    {
      if decision.Some? && decision.value.route == actedOn {
        decision := None;
      }
    }

    method Current() returns (route: Option<Route>)
      ensures route == CurrentRoute(Snapshot())
    {
      return if decision.Some? then Some(decision.value.route) else None;
    }

    method Cached(now: nat) returns (route: Option<Route>)
      ensures route == Steps.Cached(Snapshot(), now)
    {
      if decision.None? {
        return None;
      }
      match decision.value.expiresAt {
        case None => return Some(decision.value.route);
        case Some(at) => return if now < at then Some(decision.value.route) else None;
      }
    }

    method Remember(route: Route, now: nat)
      modifies this`decision
      ensures Snapshot() == Steps.Remember(cfg, old(Snapshot()), route, now)
    {
      var expiresAt := if IsBest(route.transport) then None else Some(now + cfg.recheck);
      decision := Some(Decision(route, expiresAt));
    }

    /** Try the legs from the best down, the tunnel only if `mayOpen`. */
    method Decide(w: Replies, mayOpen: bool)
      returns (route: Option<Route>, connection: Option<Connection>, ghost probed: bool, ghost open: Option<Open>)
      modifies this`refused, this`tunnelFailedAt
      ensures Choice(Snapshot(), route, connection, probed, open) == Steps.Decide(cfg, old(Snapshot()), w, mayOpen)
    {
      connection, probed, open := None, false, None;
      if cfg.policy.smb {
        probed := true;
        if w.reachable {
          route := Some(Route(SmbDirect, Some(cfg.publicHost)));
          return;
        }
        if cfg.policy.vpn && cfg.tunnelHost.Some? && mayOpen {
          connection, open := RaiseTunnel(w);
          if connection.Some? {
            route := Some(Route(SmbOverVpn, cfg.tunnelHost));
            return;
          }
        }
      }
      route := if cfg.policy.https then Some(Route(Https, None)) else None;
    }
  }
}
