/** The watcher itself: a chain, a session, and the leg last reported. */
module Legs {
  import opened ChainSteps
  import opened LegSteps
  import C = Chain
  import Steps = LegSteps

  /**
    What the watcher needs of an SMB transport. How a `Take` turns out is the
    server's answer; that a failed one leaves the old session in use is what the
    transport promises.
   */
  class Session {
    var connected: bool
    var refused: bool
    ghost var taken: seq<SmbRoute>

    constructor ()
      ensures !connected && !refused && taken == []
    {
      connected, refused, taken := false, false, [];
    }

    method Take(route: SmbRoute, answer: Take)
      modifies this
      ensures taken == old(taken) + [route]
      ensures var v := Taken(View(FRESH, old(connected), old(refused)), answer);
              connected == v.connected && refused == v.refused
    {
      taken := taken + [route];
      match answer {
        case Took => connected := true;
        case Failed =>
        case RefusedLogin => refused := true;
      }
    }
  }

  function Handed(took: Option<SmbRoute>): seq<SmbRoute> {
    if took.Some? then [took.value] else []
  }

  class Legs {
    const chain: C.Chain
    const session: Session
    var reported: Option<string>

    constructor (chain: C.Chain, session: Session)
      ensures this.chain == chain && this.session == session && reported == None
    {
      this.chain, this.session, reported := chain, session, None;
    }

    function Seen(): View
      reads this, chain, session
    {
      View(chain.Snapshot(), session.connected, session.refused)
    }

    method Current() returns (leg: Transport)
      ensures leg == Steps.Current(Seen())
    {
      if !session.connected {
        return Https;
      }
      var route := chain.Current();
      if route.Some? && route.value.transport != Https {
        return route.value.transport;
      }
      return Https;
    }

    /** One tick of the watch. */
    method Step(w: Replies, take: Take) returns (after: Transport, logged: bool)
      modifies this, chain, session
      ensures var o := Steps.Step(chain.cfg, old(Seen()), w, take);
              && Seen() == o.view && after == Steps.Current(o.view)
              && chain.trace == old(chain.trace) + o.effects
              && session.taken == old(session.taken) + Handed(o.took)
              && reported == Some(Described(o.view, after))
      ensures logged <==> reported != old(reported)
    {
      var before := Current();
      if !session.refused {
        var route := chain.BetterThan(before, w);
        if route.Some? {
          MoveTo(route.value, take, w.settled);
        }
      }
      after := Current();
      logged := Report(after);
    }

    method MoveTo(route: SmbRoute, take: Take, now: nat)
      requires !session.refused
      modifies chain, session
      ensures var o := Steps.MoveTo(chain.cfg, old(Seen()), route, take, now);
              && Seen() == o.view
              && chain.trace == old(chain.trace) + o.effects
              && session.taken == old(session.taken) + Handed(o.took)
    {
      if route.Unavailable? {
        return;
      }
      session.Take(route, take);
      if take.Took? {
        chain.Settle(Route(LegOf(route), Some(route.host)), now);
      } else if session.refused {
      } else if route.Tunnelled? {
        chain.TunnelCarriedNothing(now);
      }
    }

    /** Only changes are logged. */
    method Report(now: Transport) returns (logged: bool)
      modifies this`reported
      ensures reported == Some(Described(Seen(), now))
      ensures logged <==> reported != old(reported)
    {
      var description := DescribedLeg(now);
      logged := reported != Some(description);
      reported := Some(description);
    }

    method DescribedLeg(leg: Transport) returns (description: string)
      ensures description == Described(Seen(), leg)
    {
      var route := chain.Current();
      if route.Some? && route.value.smbHost.Some? && leg != Https {
        return Name(leg) + " at " + route.value.smbHost.value;
      }
      return Name(leg);
    }
  }
}
