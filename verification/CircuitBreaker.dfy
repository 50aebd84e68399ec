/**
  The circuit breaker of cyxcloud-core/src/circuit_breaker.rs. Calls may overlap: each of the three
  methods is one event, in any order, and `at` is the clock when it runs.
*/
module CircuitBreaker {
  import opened Wrappers

  datatype CircuitState = Closed | Open | HalfOpen

  datatype Config = Config(failureThreshold: nat, recoveryTimeout: nat)

  datatype Circuit = Circuit(state: CircuitState, failureCount: nat, successCount: nat, lastFailure: Option<int>)

  datatype Event = Allow(at: int) | Success(at: int) | Failure(at: int)

  const Fresh := Circuit(Closed, 0, 0, None)

  predicate Recovered(cfg: Config, c: Circuit, at: int) {
    c.lastFailure.Some? && at - c.lastFailure.value >= cfg.recoveryTimeout
  }

  predicate Admits(cfg: Config, c: Circuit, at: int) {
    c.state != Open || Recovered(cfg, c, at)
  }

  function Next(cfg: Config, c: Circuit, e: Event): Circuit {
    match e
    case Allow(at) => if c.state == Open && Recovered(cfg, c, at) then c.(state := HalfOpen) else c
    case Success(_) =>
      if c.state == Open then c.(successCount := c.successCount + 1)
      else c.(state := Closed, failureCount := 0, successCount := c.successCount + 1)
    case Failure(at) =>
      var count := c.failureCount + 1;
      var trips := c.state == HalfOpen || (c.state == Closed && count >= cfg.failureThreshold);
      c.(state := if trips then Open else c.state, failureCount := count, lastFailure := Some(at))
  }

  /** The circuit after a history of events. */
  function Run(cfg: Config, es: seq<Event>): Circuit {
    if es == [] then Fresh else Next(cfg, Run(cfg, es[..|es| - 1]), es[|es| - 1])
  }

  class Breaker {
    const cfg: Config
    var state: CircuitState
    var failureCount: nat
    var successCount: nat
    var lastFailureTime: Option<int>

    ghost function Value(): Circuit
      reads this
    {
      Circuit(state, failureCount, successCount, lastFailureTime)
    }

    constructor (config: Config)
      ensures cfg == config && Value() == Fresh
    {
      cfg, state, failureCount, successCount, lastFailureTime := config, Closed, 0, 0, None;
    }

    method AllowRequest(now: int) returns (allowed: bool)
      modifies this`state
      ensures Value() == Next(cfg, old(Value()), Allow(now)) && allowed == Admits(cfg, old(Value()), now)
    {
      match state {
        case Closed => return true;
        case HalfOpen => return true;
        case Open =>
          if lastFailureTime.Some? && now - lastFailureTime.value >= cfg.recoveryTimeout {
            state := HalfOpen;
            return true;
          }
          return false;
      }
    }

    method RecordSuccess(now: int)
      modifies this`state, this`failureCount, this`successCount
      ensures Value() == Next(cfg, old(Value()), Success(now))
    {
      successCount := successCount + 1;
      if state == HalfOpen {
        state := Closed;
        failureCount := 0;
      } else if state == Closed {
        failureCount := 0;
      }
    }

    method RecordFailure(now: int)
      modifies this`state, this`failureCount, this`lastFailureTime
      ensures Value() == Next(cfg, old(Value()), Failure(now))
    {
      failureCount := failureCount + 1;
      lastFailureTime := Some(now);
      if state == Closed && failureCount >= cfg.failureThreshold {
        state := Open;
      } else if state == HalfOpen {
        state := Open;
      }
    }

    /** One call without overlap: None if rejected, else the outcome of the operation. */
    method Call(now: int, finished: int, outcome: bool) returns (r: Option<bool>)
      modifies this`state, this`failureCount, this`successCount, this`lastFailureTime
      ensures r == if Admits(cfg, old(Value()), now) then Some(outcome) else None
      ensures Value() == if r.None? then old(Value())
                         else Next(cfg, Next(cfg, old(Value()), Allow(now)), if outcome then Success(finished) else Failure(finished))
    {
      var allowed := AllowRequest(now);
      if !allowed { return None; }
      if outcome { RecordSuccess(finished); } else { RecordFailure(finished); }
      return Some(outcome);
    }
  }

  // ---------- what the history says ----------

  /** The number of failures recorded since the last recorded success. */
  function Trailing(es: seq<Event>): nat {
    if es == [] then 0
    else match es[|es| - 1]
         case Failure(_) => Trailing(es[..|es| - 1]) + 1
         case Success(_) => 0
         case Allow(_) => Trailing(es[..|es| - 1])
  }

  /** When the latest failure was recorded. */
  function LatestFailure(es: seq<Event>): Option<int> {
    if es == [] then None
    else match es[|es| - 1]
         case Failure(at) => Some(at)
         case _ => LatestFailure(es[..|es| - 1])
  }

  lemma {:induction false} RunHistory(cfg: Config, es: seq<Event>)
    requires cfg.failureThreshold >= 1
    ensures var c := Run(cfg, es);
            && c.lastFailure == LatestFailure(es)
            && (c.state == Closed ==> c.failureCount == Trailing(es) < cfg.failureThreshold)
            && (c.state != Closed ==> c.lastFailure.Some? && c.failureCount >= 1)
  {
    if es != [] { RunHistory(cfg, es[..|es| - 1]); }
  }

  /** A closed circuit counts exactly the trailing failures, and opens exactly when they reach the threshold. */
  lemma {:induction false} ClosedCounts(cfg: Config, es: seq<Event>, e: Event)
    requires cfg.failureThreshold >= 1 && Run(cfg, es).state == Closed
    ensures Run(cfg, es).failureCount == Trailing(es) < cfg.failureThreshold
    ensures Run(cfg, es + [e]).state == Open <==> e.Failure? && Trailing(es + [e]) == cfg.failureThreshold
    ensures Run(cfg, es + [e]).state != HalfOpen
  {
    RunHistory(cfg, es);
    assert (es + [e])[..|es|] == es;
  }

  /** A half-open circuit is decided by the next recorded outcome, whichever call it belongs to. */
  lemma {:induction false} HalfOpenDecides(cfg: Config, es: seq<Event>, e: Event)
    requires Run(cfg, es).state == HalfOpen
    ensures Run(cfg, es + [e]).state == match e case Failure(_) => Open case Success(_) => Closed case Allow(_) => HalfOpen
  {
    assert (es + [e])[..|es|] == es;
  }

  /** From Open a request is admitted exactly when the recovery timeout has passed since the latest recorded failure. */
  lemma {:induction false} OpenAdmits(cfg: Config, es: seq<Event>, at: int)
    requires cfg.failureThreshold >= 1 && Run(cfg, es).state == Open
    ensures LatestFailure(es).Some?
    ensures Admits(cfg, Run(cfg, es), at) <==> at - LatestFailure(es).value >= cfg.recoveryTimeout
    ensures Run(cfg, es + [Allow(at)]).state == if Admits(cfg, Run(cfg, es), at) then HalfOpen else Open
  {
    RunHistory(cfg, es);
    assert (es + [Allow(at)])[..|es|] == es;
  }

  /** Every event from i to j comes before the timeout since the failure recorded latest by then. */
  ghost predicate TooEarly(cfg: Config, es: seq<Event>, i: nat, j: nat) {
    forall k | i <= k < j && k < |es| ::
      LatestFailure(es[..k]).Some? && es[k].at - LatestFailure(es[..k]).value < cfg.recoveryTimeout
  }

  /** Whatever calls overlap, an open circuit stays open until the timeout. */
  lemma {:induction false} StaysOpen(cfg: Config, es: seq<Event>, i: nat, j: nat)
    requires cfg.failureThreshold >= 1 && i <= j <= |es| && Run(cfg, es[..i]).state == Open && TooEarly(cfg, es, i, j)
    ensures Run(cfg, es[..j]).state == Open
    decreases j
  {
    if i < j {
      StaysOpen(cfg, es, i, j - 1);
      OpenStep(cfg, es[..j - 1], es[j - 1]);
      assert es[..j] == es[..j - 1] + [es[j - 1]];
    }
  }

  /** And it rejects every request until then. */
  lemma RejectsUntilTimeout(cfg: Config, es: seq<Event>, i: nat, j: nat, k: nat)
    requires cfg.failureThreshold >= 1 && i <= k < j <= |es| && Run(cfg, es[..i]).state == Open && TooEarly(cfg, es, i, j)
    requires es[k].Allow?
    ensures !Admits(cfg, Run(cfg, es[..k]), es[k].at)
  {
    StaysOpen(cfg, es, i, k);
    OpenStep(cfg, es[..k], es[k]);
  }

  lemma {:induction false} OpenStep(cfg: Config, es: seq<Event>, e: Event)
    requires cfg.failureThreshold >= 1 && Run(cfg, es).state == Open
    requires LatestFailure(es).Some? && e.at - LatestFailure(es).value < cfg.recoveryTimeout
    ensures Run(cfg, es + [e]).state == Open && (e.Allow? ==> !Admits(cfg, Run(cfg, es), e.at))
  {
    RunHistory(cfg, es);
    assert (es + [e])[..|es|] == es;
  }

  /** The documentation speaks of limited requests, but a half-open circuit admits every one of them. */
  lemma {:induction false} HalfOpenAdmitsAll(cfg: Config, es: seq<Event>, more: seq<Event>)
    requires Run(cfg, es).state == HalfOpen && forall i | 0 <= i < |more| :: more[i].Allow?
    ensures Run(cfg, es + more).state == HalfOpen
    ensures forall i | 0 <= i < |more| :: Admits(cfg, Run(cfg, es + more[..i]), more[i].at)
  {
    if more == [] {
      assert es + more == es;
    } else {
      var front := more[..|more| - 1];
      HalfOpenAdmitsAll(cfg, es, front);
      assert (es + more)[..|es + more| - 1] == es + front;
      forall i | 0 <= i < |more| ensures Admits(cfg, Run(cfg, es + more[..i]), more[i].at) {
        if i < |front| { assert front[..i] == more[..i] && front[i] == more[i]; }
      }
    }
  }

  /** The successes recorded are counted in every state. */
  function Successes(es: seq<Event>): nat {
    if es == [] then 0 else Successes(es[..|es| - 1]) + (if es[|es| - 1].Success? then 1 else 0)
  }

  lemma {:induction false} SuccessesCounted(cfg: Config, es: seq<Event>)
    ensures Run(cfg, es).successCount == Successes(es)
  {
    if es != [] { SuccessesCounted(cfg, es[..|es| - 1]); }
  }
}
