/**
  The per-backend circuit breaker: what it does in one call, and what that adds
  up to over a run in which the backend stays down.
 */
module Breaker {
  import opened Arithmetic

  datatype Option<T> = None | Some(value: T)

  datatype Config = Config(failureThreshold: nat, cooldown: nat)

  datatype State = Closed | Open(openedAt: nat) | HalfOpen

  datatype Health = Health(state: State, consecutiveFailures: nat)

  datatype Event = Ask(at: nat) | Failure(at: nat) | Success(at: nat)

  /** How long after `earlier` it is, and nothing when it is not after it. */
  function Since(now: nat, earlier: nat): nat {
    if now < earlier then 0 else now - earlier
  }

  predicate Grants(config: Config, h: Health, now: nat) {
    match h.state
    case Closed => true
    case Open(openedAt) => Since(now, openedAt) >= config.cooldown
    case HalfOpen => false
  }

  function Next(config: Config, h: Health, e: Event): Health {
    match e
    case Ask(now) => if h.state.Open? && Grants(config, h, now) then h.(state := HalfOpen) else h
    case Success(_) => Health(Closed, 0)
    case Failure(now) =>
      if h.state.HalfOpen? then h.(state := Open(now))
      else
        var failures := h.consecutiveFailures + 1;
        Health(if failures >= config.failureThreshold then Open(now) else h.state, failures)
  }

  class CircuitBreaker {
    const config: Config
    var state: State
    var consecutiveFailures: nat

    function Snapshot(): Health
      reads this
    {
      Health(state, consecutiveFailures)
    }

    constructor (config: Config)
      ensures this.config == config && Snapshot() == Fresh()
    {
      this.config := config;
      state, consecutiveFailures := Closed, 0;
    }

    method Allows(now: nat) returns (allowed: bool)
      modifies this
      ensures allowed == Grants(config, old(Snapshot()), now)
      ensures Snapshot() == Next(config, old(Snapshot()), Ask(now))
      // A trial is out: nothing else is allowed until its verdict.
      ensures allowed && !old(state).Closed? ==> state.HalfOpen? && !Grants(config, Snapshot(), now)
    {
      match state {
        case Closed => return true;
        case Open(openedAt) =>
          if Since(now, openedAt) >= config.cooldown {
            state := HalfOpen;
            return true;
          }
          return false;
        case HalfOpen => return false;
      }
    }

    method OnSuccess()
      modifies this
      ensures forall now :: Snapshot() == Next(config, old(Snapshot()), Success(now))
    {
      state := Closed;
      consecutiveFailures := 0;
    }

    method OnFailure(now: nat)
      modifies this
      ensures Snapshot() == Next(config, old(Snapshot()), Failure(now))
    {
      if state.HalfOpen? {
        state := Open(now);
      } else {
        consecutiveFailures := consecutiveFailures + 1;
        if consecutiveFailures >= config.failureThreshold {
          state := Open(now);
        }
      }
    }
  }

  function Fresh(): Health {
    Health(Closed, 0)
  }

  /** The breaker after a run, from fresh. */
  ghost function After(config: Config, run: seq<Event>): Health {
    if run == [] then Fresh() else Next(config, After(config, run[..|run| - 1]), run[|run| - 1])
  }

  ghost predicate LastIsAttempt(config: Config, run: seq<Event>)
    requires run != []
  {
    var e := run[|run| - 1];
    e.Ask? && Grants(config, After(config, run[..|run| - 1]), e.at)
  }

  /** How many asks of the run were granted. */
  ghost function Attempts(config: Config, run: seq<Event>): nat {
    if run == [] then 0
    else Attempts(config, run[..|run| - 1]) + if LastIsAttempt(config, run) then 1 else 0
  }

  ghost function Failures(run: seq<Event>): nat {
    if run == [] then 0 else Failures(run[..|run| - 1]) + if run[|run| - 1].Failure? then 1 else 0
  }

  /** When the run first opened the breaker. */
  ghost function FirstOpening(config: Config, run: seq<Event>): Option<nat> {
    if run == [] then None
    else
      var before := FirstOpening(config, run[..|run| - 1]);
      if before.None? && After(config, run).state.Open? then Some(After(config, run).state.openedAt) else before
  }

  /** Asks granted since the breaker first opened. */
  ghost function Trials(config: Config, run: seq<Event>): nat {
    if run == [] || FirstOpening(config, run[..|run| - 1]).None? then 0
    else Trials(config, run[..|run| - 1]) + if LastIsAttempt(config, run) then 1 else 0
  }

  /** A cooldown for each of the trials. */
  ghost function Waited(config: Config, run: seq<Event>): nat {
    if run == [] || FirstOpening(config, run[..|run| - 1]).None? then 0
    else Waited(config, run[..|run| - 1]) + if LastIsAttempt(config, run) then config.cooldown else 0
  }

  lemma {:induction false} WaitedPerTrial(config: Config, run: seq<Event>)
    ensures Waited(config, run) == Trials(config, run) * config.cooldown
  {
    if run != [] && FirstOpening(config, run[..|run| - 1]).Some? {
      WaitedPerTrial(config, run[..|run| - 1]);
      OneMore(Trials(config, run[..|run| - 1]), config.cooldown);
    }
  }

  ghost predicate InTimeOrder(run: seq<Event>) {
    forall i, j | 0 <= i < j < |run| :: run[i].at <= run[j].at
  }

  ghost predicate NeverAnswers(run: seq<Event>) {
    forall i | 0 <= i < |run| :: !run[i].Success?
  }

  /** Nobody asks before every attempt granted so far has reported its failure. */
  ghost predicate OneAtATime(config: Config, run: seq<Event>) {
    forall i | 0 <= i < |run| && run[i].Ask? :: Attempts(config, run[..i]) <= Failures(run[..i])
  }

  /** Failures since the last success. */
  ghost function Streak(run: seq<Event>): nat {
    if run == [] || run[|run| - 1].Success? then 0
    else Streak(run[..|run| - 1]) + if run[|run| - 1].Failure? then 1 else 0
  }

  lemma OneMoreEvent(config: Config, run: seq<Event>, e: Event)
    ensures After(config, run + [e]) == Next(config, After(config, run), e)
    ensures Streak(run + [e]) == if e.Success? then 0 else Streak(run) + if e.Failure? then 1 else 0
    ensures e.Ask? ==> (LastIsAttempt(config, run + [e]) <==> Grants(config, After(config, run), e.at))
  {
    assert (run + [e])[..|run|] == run;
  }

  /** Closed, over any history, is fewer failures since the last success than the threshold. */
  lemma {:induction false} ClosedExactlyBelowThreshold(config: Config, run: seq<Event>)
    requires config.failureThreshold >= 1
    ensures After(config, run).state.Closed? <==> Streak(run) < config.failureThreshold
    ensures After(config, run).state.Closed? ==> After(config, run).consecutiveFailures == Streak(run)
    ensures !After(config, run).state.Closed? ==> After(config, run).consecutiveFailures >= config.failureThreshold
  {
    if run != [] {
      ClosedExactlyBelowThreshold(config, run[..|run| - 1]);
    }
  }

  /**
    When an ask is granted, by the history alone. Below the threshold, always. A
    failure that reaches it is followed by refusals until the cooldown has passed
    since, and then by a grant; a clock that reads earlier than the failure has
    waited for nothing. What is granted so is granted once: nothing more is until
    its verdict. An ask refused changes nothing.
   */
  lemma AsksAreGrantedExactly(config: Config, run: seq<Event>, f: nat, t: nat, later: nat)
    requires config.failureThreshold >= 1
    ensures Streak(run) < config.failureThreshold ==> LastIsAttempt(config, run + [Ask(t)])
    ensures Streak(run + [Failure(f)]) >= config.failureThreshold && f <= t ==>
              (LastIsAttempt(config, run + [Failure(f)] + [Ask(t)]) <==> t >= f + config.cooldown)
    ensures Streak(run + [Failure(f)]) >= config.failureThreshold && t < f ==>
              (LastIsAttempt(config, run + [Failure(f)] + [Ask(t)]) <==> config.cooldown == 0)
    ensures Streak(run) >= config.failureThreshold && LastIsAttempt(config, run + [Ask(t)]) ==>
              !LastIsAttempt(config, run + [Ask(t)] + [Ask(later)])
    ensures !LastIsAttempt(config, run + [Ask(t)]) ==> After(config, run + [Ask(t)]) == After(config, run)
  {
    ClosedExactlyBelowThreshold(config, run);
    ClosedExactlyBelowThreshold(config, run + [Failure(f)]);
    OneMoreEvent(config, run, Ask(t));
    OneMoreEvent(config, run, Failure(f));
    OneMoreEvent(config, run + [Failure(f)], Ask(t));
    OneMoreEvent(config, run + [Ask(t)], Ask(later));
  }

  /** A success puts the breaker back to what it was when made. */
  lemma SuccessForgives(config: Config, run: seq<Event>, t: nat)
    ensures After(config, run + [Success(t)]) == After(config, [])
  {
    OneMoreEvent(config, run, Success(t));
  }

  ghost predicate TrustedBelowThreshold(config: Config, run: seq<Event>) {
    After(config, run).state.Closed? <==> After(config, run).consecutiveFailures < config.failureThreshold
  }

  /** The breaker trusts its backend exactly while the failures are below the threshold. */
  lemma {:induction false} ClosedBelowThreshold(config: Config, run: seq<Event>)
    requires config.failureThreshold >= 1
    ensures TrustedBelowThreshold(config, run)
  {
    if run != [] {
      ClosedBelowThreshold(config, run[..|run| - 1]);
    }
  }

  /** A threshold of zero breaks it: a fresh breaker is closed on no failures at all. */
  lemma ClosedIsTrustOnlyWithAThreshold(config: Config)
    ensures (forall run :: TrustedBelowThreshold(config, run)) <==> config.failureThreshold >= 1
  {
    if config.failureThreshold >= 1 {
      forall run ensures TrustedBelowThreshold(config, run) {
        ClosedBelowThreshold(config, run);
      }
    } else {
      assert !TrustedBelowThreshold(config, []);
    }
  }

  /** While the backend stays down and the breaker has not opened, every failure is counted. */
  lemma {:induction false} BeforeOpening(config: Config, run: seq<Event>)
    requires config.failureThreshold >= 1 && NeverAnswers(run)
    ensures FirstOpening(config, run).None? <==> After(config, run).state.Closed?
    ensures FirstOpening(config, run).None? ==> After(config, run).consecutiveFailures == Failures(run)
  {
    if run != [] {
      BeforeOpening(config, run[..|run| - 1]);
      ClosedBelowThreshold(config, run[..|run| - 1]);
    }
  }

  /**
    However asks and failures interleave: once open, each attempt costs the
    backend a whole cooldown.
   */
  lemma {:induction false} TrialsAreSpaced(config: Config, run: seq<Event>)
    requires config.failureThreshold >= 1 && NeverAnswers(run) && InTimeOrder(run)
    requires FirstOpening(config, run).Some?
    ensures run != []
    ensures var last := run[|run| - 1].at;
            var h := After(config, run);
            && FirstOpening(config, run).value <= last
            && (h.state.Open? ==> h.state.openedAt <= last)
            && Waited(config, run)
               <= (if h.state.Open? then h.state.openedAt else last) - FirstOpening(config, run).value
  {
    var before := run[..|run| - 1];
    if FirstOpening(config, before).Some? {
      TrialsAreSpaced(config, before);
      BeforeOpening(config, before);
      assert before[|before| - 1].at <= run[|run| - 1].at;
    }
  }

  lemma {:induction false} AttemptsBeforeOpening(config: Config, run: seq<Event>)
    requires config.failureThreshold >= 1 && NeverAnswers(run) && OneAtATime(config, run)
    ensures Attempts(config, run) <= config.failureThreshold + Trials(config, run)
  {
    if run != [] {
      var n := |run| - 1;
      var before := run[..n];
      assert OneAtATime(config, before) by {
        forall i | 0 <= i < n && before[i].Ask?
          ensures Attempts(config, before[..i]) <= Failures(before[..i])
        {
          assert run[i].Ask? && before[..i] == run[..i];
        }
      }
      AttemptsBeforeOpening(config, before);
      BeforeOpening(config, before);
      ClosedBelowThreshold(config, before);
    }
  }

  /**
    The price of a backend that stays down: the threshold, and then one attempt
    per cooldown since the breaker first opened.
   */
  lemma {:induction false} AttemptBound(config: Config, run: seq<Event>)
    requires config.failureThreshold >= 1
    requires NeverAnswers(run) && InTimeOrder(run) && OneAtATime(config, run)
    ensures match FirstOpening(config, run)
            case None => Attempts(config, run) <= config.failureThreshold
            case Some(t0) =>
              && run != []
              && (Attempts(config, run) - config.failureThreshold) * config.cooldown <= run[|run| - 1].at - t0
  {
    AttemptsBeforeOpening(config, run);
    if FirstOpening(config, run).Some? {
      TrialsAreSpaced(config, run);
      Scaled(Attempts(config, run) - config.failureThreshold, Trials(config, run), config.cooldown);
      WaitedPerTrial(config, run);
    }
  }
}
