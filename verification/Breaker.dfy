/**
 * The circuit breaker of asb_api/providers/health.py, driven by overlapping `get_proxy` calls and by the
 * health checker, which writes the breaker's fields without taking its lock.
 */
module Breaker {
  import opened Common

  datatype Mode = Up | Degraded | Down | Recovering

  datatype Breaker = Breaker(threshold: int, timeout: int, failures: int, lastFailure: Option<real>, mode: Mode) {
    /** `if self.last_failure and (now - self.last_failure) > timeout`: 0.0 is falsy. */
    predicate RecoveryDue(now: real) {
      lastFailure.Some? && lastFailure.value != 0.0 && now - lastFailure.value > timeout as real
    }

    /** The gate of `get_proxy`: false is PoolExhaustedError without asking the provider. */
    function Enter(now: real): (Breaker, bool) {
      if mode != Down then (this, true)
      else if RecoveryDue(now) then (this.(mode := Recovering), true)
      else (this, false)
    }

    function RecordSuccess(): Breaker {
      this.(failures := 0, mode := if mode == Recovering then Up else mode)
    }

    function RecordFailure(now: real): Breaker {
      this.(failures := failures + 1, lastFailure := Some(now),
            mode := if failures + 1 >= threshold then Down else mode)
    }

    /** One round of the checker; `None` is a health check that raised. */
    function HealthResult(healthy: Option<bool>): Breaker {
      if healthy == None then this.(mode := Down)
      else if healthy.value && (mode == Down || mode == Degraded) then this.(mode := Recovering)
      else if !healthy.value && mode == Up then this.(mode := Degraded, failures := 1)
      else this
    }
  }

  function Fresh(threshold: int, timeout: int): Breaker {
    Breaker(threshold, timeout, 0, None, Up)
  }

  // ---------------------------------------------------------------- runs

  datatype Outcome = Success | Failure | Unrecorded

  datatype Event =
    | Call(now: real)
    | Finish(outcome: Outcome, now: real)
    | Health(healthy: Option<bool>)

  /** The breaker, the calls now inside the provider, and the length of the trailing run of failures. */
  datatype State = State(b: Breaker, inside: nat, streak: nat)

  predicate Enabled(s: State, e: Event) {
    e.Finish? ==> s.inside > 0
  }

  function Next(s: State, e: Event): State
    requires Enabled(s, e)
  {
    match e
    case Call(now) => var (b, passed) := s.b.Enter(now); State(b, if passed then s.inside + 1 else s.inside, s.streak)
    case Finish(Success, _) => State(s.b.RecordSuccess(), s.inside - 1, 0)
    case Finish(Failure, now) => State(s.b.RecordFailure(now), s.inside - 1, s.streak + 1)
    case Finish(Unrecorded, _) => State(s.b, s.inside - 1, s.streak)
    case Health(healthy) => State(s.b.HealthResult(healthy), s.inside, s.streak)
  }

  /** The states a run visits, the initial one first. */
  ghost predicate Trace(states: seq<State>, events: seq<Event>) {
    && |states| == |events| + 1
    && states[0].b == Fresh(states[0].b.threshold, states[0].b.timeout)
    && states[0].inside == states[0].streak == 0
    && forall i :: 0 <= i < |events| ==> Enabled(states[i], events[i]) && states[i + 1] == Next(states[i], events[i])
  }

  predicate WithoutHealth(events: seq<Event>) {
    forall i :: 0 <= i < |events| ==> !events[i].Health?
  }

  // ---------------------------------------------------------------- counting failures

  /** `failures` never exceeds the trailing run of recorded failures by more than one. */
  lemma {:induction false} FailuresTrackStreak(states: seq<State>, events: seq<Event>, i: nat)
    requires Trace(states, events) && i < |states|
    ensures 0 <= states[i].b.failures <= states[i].streak + 1
    ensures states[i].b.threshold == states[0].b.threshold && states[i].b.timeout == states[0].b.timeout
    ensures states[i].b.threshold >= 2 && (states[i].b.mode == Up || states[i].b.mode == Degraded) ==>
              states[i].b.failures < states[i].b.threshold
  {
    if i > 0 {
      FailuresTrackStreak(states, events, i - 1);
      assert states[i] == Next(states[i - 1], events[i - 1]);
    }
  }

  /**
   * What the counter is supposed to hold: nothing after a success, one more with each recorded failure, and one
   * when the health checker degrades a breaker that is up.
   */
  function Counted(states: seq<State>, events: seq<Event>, i: nat): nat
    requires |states| == |events| + 1 && i < |states|
  {
    if i == 0 then 0
    else
      var before := Counted(states, events, i - 1);
      match events[i - 1]
      case Finish(Success, _) => 0
      case Finish(Failure, _) => before + 1
      case Health(Some(healthy)) => if !healthy && states[i - 1].b.mode == Up then 1 else before
      case _ => before
  }

  /** In every run, checker or not, that is what it holds. */
  lemma {:induction false} FailuresAreCounted(states: seq<State>, events: seq<Event>, i: nat)
    requires Trace(states, events) && i < |states|
    ensures states[i].b.failures == Counted(states, events, i)
  {
    if i > 0 {
      FailuresAreCounted(states, events, i - 1);
      assert states[i] == Next(states[i - 1], events[i - 1]);
    }
  }

  lemma {:induction false} CountedIsStreak(states: seq<State>, events: seq<Event>, i: nat)
    requires Trace(states, events) && WithoutHealth(events) && i < |states|
    ensures Counted(states, events, i) == states[i].streak
  {
    if i > 0 {
      CountedIsStreak(states, events, i - 1);
      assert states[i] == Next(states[i - 1], events[i - 1]);
    }
  }

  /**
   * Without the health checker `failures` is exactly the trailing run of recorded failures, however the calls
   * overlap, and a breaker that is down knows when it failed.
   */
  lemma {:induction false} FailuresAreStreak(states: seq<State>, events: seq<Event>, i: nat)
    requires Trace(states, events) && WithoutHealth(events) && i < |states|
    ensures states[i].b.failures == states[i].streak
    ensures states[i].b.mode == Down ==> states[i].b.lastFailure.Some?
    ensures states[i].b.mode != Degraded
  {
    FailuresAreCounted(states, events, i);
    CountedIsStreak(states, events, i);
    if i > 0 {
      FailuresAreStreak(states, events, i - 1);
      assert states[i] == Next(states[i - 1], events[i - 1]);
    }
  }

  /** A breaker tripped by a recorded failure from UP or DEGRADED saw at least threshold - 1 in a row. */
  lemma TripNeedsStreak(states: seq<State>, events: seq<Event>, i: nat)
    requires Trace(states, events) && i < |events|
    requires states[i].b.mode == Up || states[i].b.mode == Degraded
    requires events[i].Finish? && states[i + 1].b.mode == Down
    ensures events[i].outcome == Failure
    ensures states[i + 1].streak >= states[0].b.threshold - 1
    ensures WithoutHealth(events) ==> states[i + 1].streak >= states[0].b.threshold
  {
    FailuresTrackStreak(states, events, i);
    assert states[i + 1] == Next(states[i], events[i]);
    if WithoutHealth(events) {
      FailuresAreStreak(states, events, i);
    }
  }

  // ---------------------------------------------------------------- recovering

  /** The way from DOWN or DEGRADED back to UP goes through RECOVERING and a recorded success. */
  lemma {:induction false} RecoveryNeedsSuccess(states: seq<State>, events: seq<Event>, i: nat, j: nat) returns (k: nat)
    requires Trace(states, events) && i < j < |states|
    requires states[i].b.mode == Down || states[i].b.mode == Degraded
    requires states[j].b.mode == Up
    ensures i < k < j && states[k].b.mode == Recovering && events[k].Finish? && events[k].outcome == Success
    ensures forall m :: k < m <= j ==> states[m].b.mode == Up
    decreases j - i
  {
    assert states[j] == Next(states[j - 1], events[j - 1]);
    if states[j - 1].b.mode == Up {
      k := RecoveryNeedsSuccess(states, events, i, j - 1);
    } else {
      k := j - 1;
    }
  }

  predicate TurnedAway(s: State, e: Event) {
    e.Call? && !s.b.Enter(e.now).1
  }

  /** The first `i` events of a run without the calls that were turned away. */
  function Effective(states: seq<State>, events: seq<Event>, i: nat): seq<Event>
    requires |states| == |events| + 1 && i < |states|
  {
    if i == 0 then []
    else Effective(states, events, i - 1) + if TurnedAway(states[i - 1], events[i - 1]) then [] else [events[i - 1]]
  }

  /**
   * Calls turned away, which happens while DOWN only, might as well not have been made: without them the run is
   * still a run and ends in the same state, so they never prolong an outage.
   */
  lemma {:induction false} RejectedCallsChangeNothing(states: seq<State>, events: seq<Event>, i: nat)
    returns (without: seq<State>)
    requires Trace(states, events) && i < |states|
    ensures Trace(without, Effective(states, events, i)) && without[|without| - 1] == states[i]
    ensures forall k :: 0 <= k < |Effective(states, events, i)| ==>
              !TurnedAway(without[k], Effective(states, events, i)[k])
    ensures forall k :: 0 <= k < i && TurnedAway(states[k], events[k]) ==> states[k].b.mode == Down
  {
    if i == 0 {
      without := [states[0]];
    } else {
      without := RejectedCallsChangeNothing(states, events, i - 1);
      assert states[i] == Next(states[i - 1], events[i - 1]);
      if !TurnedAway(states[i - 1], events[i - 1]) {
        without := without + [states[i]];
      }
    }
  }

  /** When the last failure among the first `i` events was recorded. */
  function LastFailureAt(events: seq<Event>, i: nat): Option<real>
    requires i <= |events|
  {
    if i == 0 then None
    else
      match events[i - 1]
      case Finish(Failure, now) => Some(now)
      case _ => LastFailureAt(events, i - 1)
  }

  /** In every run `last_failure` is that time: neither successes nor the health checker move it. */
  lemma {:induction false} LastFailureIsLast(states: seq<State>, events: seq<Event>, i: nat)
    requires Trace(states, events) && i < |states|
    ensures states[i].b.lastFailure == LastFailureAt(events, i)
  {
    if i > 0 {
      LastFailureIsLast(states, events, i - 1);
      assert states[i] == Next(states[i - 1], events[i - 1]);
    }
  }

  /** That time is a failure's, with no failure recorded after it. */
  lemma {:induction false} LastFailureIsOne(events: seq<Event>, i: nat)
    requires i <= |events|
    ensures LastFailureAt(events, i) == None <==>
              forall k :: 0 <= k < i ==> !(events[k].Finish? && events[k].outcome == Failure)
    ensures LastFailureAt(events, i).Some? ==>
              exists k :: 0 <= k < i && events[k] == Finish(Failure, LastFailureAt(events, i).value) &&
                          forall m :: k < m < i ==> !(events[m].Finish? && events[m].outcome == Failure)
  {
    if i > 0 {
      LastFailureIsOne(events, i - 1);
    }
  }

  /**
   * While DOWN, in any run, the provider is reached exactly by calls made more than the timeout after the last
   * recorded failure, unless that failure was stamped 0.0: then no call ever gets through on its own.  Without the
   * health checker there is always such a failure.
   */
  lemma RecoveryOpens(states: seq<State>, events: seq<Event>, i: nat, now: real)
    requires Trace(states, events) && i < |states| && states[i].b.mode == Down
    ensures var failed := LastFailureAt(events, i);
            && (WithoutHealth(events) ==> failed.Some?)
            && (states[i].b.Enter(now).1 <==>
                failed.Some? && failed.value != 0.0 && now > failed.value + states[0].b.timeout as real)
    ensures states[i].b.Enter(now).1 ==> Next(states[i], Call(now)).inside == states[i].inside + 1
    ensures Next(states[i], Call(now)).b.mode == if states[i].b.Enter(now).1 then Recovering else Down
  {
    LastFailureIsLast(states, events, i);
    FailuresTrackStreak(states, events, i);
    if WithoutHealth(events) {
      FailuresAreStreak(states, events, i);
    }
  }

  /** A call that finds the breaker in any other state reaches the provider and changes nothing. */
  lemma OpenUnlessDown(s: State, now: real)
    requires s.b.mode != Down
    ensures Next(s, Call(now)) == s.(inside := s.inside + 1)
  {
  }

  /**
   * What the end of a call does to the state: a success takes RECOVERING to UP, a failure that does not bring the
   * count to the threshold leaves it, and any other exception leaves everything.
   */
  lemma OutcomeMoves(states: seq<State>, events: seq<Event>, i: nat)
    requires Trace(states, events) && i < |events| && events[i].Finish?
    ensures var before, after := states[i].b, states[i + 1].b;
            && (events[i].outcome == Success ==>
                  (after.mode == if before.mode == Recovering then Up else before.mode) && after.failures == 0)
            && (events[i].outcome == Failure ==>
                  after.mode == if Counted(states, events, i + 1) >= states[0].b.threshold then Down else before.mode)
            && (events[i].outcome == Unrecorded ==> after == before)
    ensures states[i + 1].inside == states[i].inside - 1
  {
    FailuresAreCounted(states, events, i + 1);
    FailuresTrackStreak(states, events, i);
    assert states[i + 1] == Next(states[i], events[i]);
  }

  /** What one round of the health checker does to the state: where each state comes from. */
  lemma HealthMoves(b: Breaker, healthy: Option<bool>)
    ensures var after := b.HealthResult(healthy);
            && (after.mode == Down <==> healthy == None || (b.mode == Down && healthy == Some(false)))
            && (after.mode == Up <==> b.mode == Up && healthy == Some(true))
            && (after.mode == Degraded <==> b.mode in {Up, Degraded} && healthy == Some(false))
            && (after.mode == Recovering <==>
                (b.mode in {Down, Degraded} && healthy == Some(true)) || (b.mode == Recovering && healthy != None))
            && after.lastFailure == b.lastFailure && after.threshold == b.threshold && after.timeout == b.timeout
            && after.failures == if b.mode == Up && healthy == Some(false) then 1 else b.failures
  {
  }

  /**
   * A breaker that is down since a failure stamped 0.0, with no call under way, stays exactly as it is for the
   * rest of the run: every later call is turned away.
   */
  lemma {:induction false} StuckAtClockZero(states: seq<State>, events: seq<Event>, i: nat, j: nat)
    requires Trace(states, events) && WithoutHealth(events) && i <= j < |states|
    requires states[i].b.mode == Down && states[i].b.lastFailure == Some(0.0) && states[i].inside == 0
    ensures states[j] == states[i]
    ensures forall now :: !states[j].b.Enter(now).1
  {
    if i < j {
      StuckAtClockZero(states, events, i, j - 1);
      assert states[j] == Next(states[j - 1], events[j - 1]);
    }
  }

  /** For every threshold such a state is reached: as many failing calls at 0.0 as it takes. */
  lemma {:induction false} ClockZeroIsReached(threshold: int, timeout: int, n: nat)
    returns (states: seq<State>, events: seq<Event>)
    requires n == 0 || n <= threshold
    ensures Trace(states, events) && WithoutHealth(events)
    ensures states[|events|] ==
            State(Breaker(threshold, timeout, n, if n == 0 then None else Some(0.0),
                          if n >= threshold && n > 0 then Down else Up), 0, n)
  {
    if n == 0 {
      states, events := [State(Fresh(threshold, timeout), 0, 0)], [];
    } else {
      states, events := ClockZeroIsReached(threshold, timeout, n - 1);
      var s := states[|events|];
      var entered := Next(s, Call(0.0));
      states := states + [entered, Next(entered, Finish(Failure, 0.0))];
      events := events + [Call(0.0), Finish(Failure, 0.0)];
    }
  }

  /**
   * In every run a failure brings the breaker down, from RECOVERING as from UP and DEGRADED, exactly when it
   * brings the count to the threshold; RECOVERING by itself does not make it trip.
   */
  lemma RecoveringTrips(states: seq<State>, events: seq<Event>, i: nat)
    requires Trace(states, events) && i < |events|
    requires states[i].b.mode != Down && events[i].Finish? && events[i].outcome == Failure
    ensures states[i + 1].b.mode == Down <==> Counted(states, events, i + 1) >= states[0].b.threshold
    ensures WithoutHealth(events) ==> Counted(states, events, i + 1) == states[i + 1].streak
  {
    FailuresAreCounted(states, events, i + 1);
    FailuresTrackStreak(states, events, i);
    assert states[i + 1] == Next(states[i], events[i]);
    if WithoutHealth(events) {
      CountedIsStreak(states, events, i + 1);
    }
  }

  /** At most one call is inside the provider at any time. */
  predicate Serial(states: seq<State>) {
    forall i :: 0 <= i < |states| ==> states[i].inside <= 1
  }

  /** With serial calls and no health checker RECOVERING keeps its failures, so the next failure trips it. */
  lemma {:induction false} SerialRecoveringTrips(states: seq<State>, events: seq<Event>, i: nat, now: real)
    requires Trace(states, events) && WithoutHealth(events) && Serial(states) && i < |states|
    ensures states[i].b.mode == Down ==> states[i].inside == 0
    ensures states[i].b.mode == Down || states[i].b.mode == Recovering ==> states[i].b.failures >= states[i].b.threshold
    ensures states[i].b.mode == Recovering ==> states[i].b.RecordFailure(now).mode == Down
  {
    if i > 0 {
      SerialRecoveringTrips(states, events, i - 1, now);
      FailuresTrackStreak(states, events, i - 1);
      assert states[i] == Next(states[i - 1], events[i - 1]);
    }
  }

  /** With overlapping calls it need not: a late success of a second call clears the counter while DOWN. */
  lemma OverlapForgetsFailures() returns (states: seq<State>, events: seq<Event>)
    ensures Trace(states, events) && WithoutHealth(events)
    ensures var s := states[|states| - 1];
            s.b.mode == Recovering && s.inside > 0 && s.b.RecordFailure(9.0).mode == Recovering
  {
    events := [Call(1.0), Call(1.0), Call(1.0), Finish(Failure, 2.0), Finish(Failure, 2.0),
               Finish(Success, 3.0), Call(5.0)];
    var s0 := State(Fresh(2, 1), 0, 0);
    var s1 := Next(s0, events[0]);
    var s2 := Next(s1, events[1]);
    var s3 := Next(s2, events[2]);
    var s4 := Next(s3, events[3]);
    var s5 := Next(s4, events[4]);
    var s6 := Next(s5, events[5]);
    states := [s0, s1, s2, s3, s4, s5, s6, Next(s6, events[6])];
  }

  /**
   * With the health checker even serial calls need not: it moves a degraded breaker, or one it took down itself,
   * to RECOVERING with one failure counted or none, and the next failure trips that only for thresholds up to
   * two or one.
   */
  lemma CheckerRecoversEarly(threshold: int, timeout: int, now: real, later: real, degraded: bool)
    returns (states: seq<State>, events: seq<Event>)
    ensures Trace(states, events) && Serial(states) && states[0].b == Fresh(threshold, timeout)
    ensures var s := states[|states| - 1];
            && s.b.mode == Recovering && s.inside == 1
            && (s.b.RecordFailure(later).mode == Down <==> threshold <= if degraded then 2 else 1)
  {
    events := [Health(if degraded then Some(false) else None), Health(Some(true)), Call(now)];
    var s0 := State(Fresh(threshold, timeout), 0, 0);
    var s1 := Next(s0, events[0]);
    var s2 := Next(s1, events[1]);
    states := [s0, s1, s2, Next(s2, events[2])];
  }

  // ---------------------------------------------------------------- the object

  class CircuitBreaker {
    const failureThreshold: int
    const recoveryTimeout: int
    var failures: int
    var lastFailure: Option<real>
    var mode: Mode

    function Model(): Breaker
      reads this
    {
      Breaker(failureThreshold, recoveryTimeout, failures, lastFailure, mode)
    }

    constructor (failureThreshold: int, recoveryTimeout: int)
      ensures Model() == Fresh(failureThreshold, recoveryTimeout)
    {
      this.failureThreshold, this.recoveryTimeout := failureThreshold, recoveryTimeout;
      failures, lastFailure, mode := 0, None, Up;
    }

    method RecordSuccess()
      modifies this
      ensures Model() == old(Model()).RecordSuccess()
    {
      failures := 0;
      if mode == Recovering {
        mode := Up;
      }
    }

    method RecordFailure(now: real)
      modifies this
      ensures Model() == old(Model()).RecordFailure(now)
    {
      failures := failures + 1;
      lastFailure := Some(now);
      if failures >= failureThreshold {
        mode := Down;
      }
    }

    method Enter(now: real) returns (passed: bool)
      modifies this
      ensures (Model(), passed) == old(Model().Enter(now))
    {
      passed := true;
      if mode == Down {
        if lastFailure.Some? && lastFailure.value != 0.0 && now - lastFailure.value > recoveryTimeout as real {
          mode := Recovering;
        } else {
          passed := false;
        }
      }
    }

    /** An uninterrupted call; `outcome` is what the provider does if it is reached. */
    method GetProxy(outcome: Outcome, now: real, later: real) returns (reached: bool)
      modifies this
      ensures reached == old(Model()).Enter(now).1
      ensures var b := old(Model()).Enter(now).0;
              Model() == if !reached || outcome.Unrecorded? then b
                         else if outcome.Success? then b.RecordSuccess() else b.RecordFailure(later)
    {
      reached := Enter(now);
      if reached {
        match outcome
        case Success => RecordSuccess();
        case Failure => RecordFailure(later);
        case Unrecorded =>
      }
    }

    /** The body of the checker's loop for one breaker. */
    method Check(healthy: Option<bool>)
      modifies this
      ensures Model() == old(Model()).HealthResult(healthy)
    {
      if healthy == None {
        mode := Down;
      } else if healthy.value && (mode == Down || mode == Degraded) {
        mode := Recovering;
      } else if !healthy.value && mode == Up {
        mode := Degraded;
        failures := 1;
      }
    }
  }
}
