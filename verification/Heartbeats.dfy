/**
 * The heartbeat in discrete time, with writes that succeed at once. A ticker and a one-slot pong channel
 * feed a loop that waits for a tick, sends a ping, and then waits for a pong or the timeout.
 */
module Heartbeats {
  import opened Options

  datatype Settings = Settings(interval: nat, timeout: nat)

  datatype Phase = Waiting | Pinged(at: nat) | Closed(at: nat)

  /**
   * `untilTick` counts down to the next tick; `tick` and `pong` are the one-slot channels; `owed` is the
   * time of the earliest ping that no pong has followed, `lastPong` when the last pong arrived.
   */
  datatype State = State(now: nat, untilTick: nat, tick: bool, pong: bool, phase: Phase,
                         owed: Option<nat>, lastPong: nat)

  function Initial(c: Settings): State {
    State(0, c.interval, false, false, Waiting, None, 0)
  }

  datatype Action = Advance | Ping | TakePong | Timeout | PongArrives

  /** The loop acts as soon as it can, so time only passes while it has nothing to do. */
  predicate Busy(c: Settings, s: State) {
    match s.phase
    case Waiting => s.tick
    case Pinged(at) => s.pong || s.now >= at + c.timeout
    case Closed(_) => false
  }

  function Step(c: Settings, s: State, a: Action): Option<State> {
    match a
    case Advance =>
      if Busy(c, s) then None
      else if s.untilTick <= 1 then Some(s.(now := s.now + 1, untilTick := c.interval, tick := true))
      else Some(s.(now := s.now + 1, untilTick := s.untilTick - 1))
    case Ping =>
      if s.phase != Waiting || !s.tick then None
      else Some(s.(tick := false, phase := Pinged(s.now), owed := if s.owed.Some? then s.owed else Some(s.now)))
    case TakePong =>
      if !s.phase.Pinged? || !s.pong then None else Some(s.(pong := false, phase := Waiting))
    case Timeout =>
      if !s.phase.Pinged? || s.now < s.phase.at + c.timeout then None else Some(s.(phase := Closed(s.now)))
    case PongArrives => Some(s.(pong := true, owed := None, lastPong := s.now))
  }

  function Run(c: Settings, run: seq<Action>): Option<State> {
    if run == [] then Some(Initial(c))
    else
      match Run(c, run[..|run| - 1])
      case None => None
      case Some(s) => Step(c, s, run[|run| - 1])
  }

  ghost predicate Positive(c: Settings) {
    c.interval > 0 && c.timeout > 0
  }

  // ----- a responsive peer is never closed -----

  /** At every moment of the run, no ping has gone without a pong for `timeout`. */
  ghost predicate Responsive(c: Settings, run: seq<Action>) {
    forall k :: 0 <= k <= |run| ==> PromptAt(c, Run(c, run[..k]))
  }

  predicate PromptAt(c: Settings, s: Option<State>) {
    s.Some? && s.value.owed.Some? ==> s.value.now < s.value.owed.value + c.timeout
  }

  predicate InTime(c: Settings, s: State) {
    match s.phase
    case Waiting => true
    case Pinged(at) => s.now < at + c.timeout && (!s.pong ==> s.owed.Some? && s.owed.value <= at)
    case Closed(_) => false
  }

  /** A peer that answers every ping strictly within the timeout is never closed by the heartbeat. */
  lemma {:induction false} ResponsivePeerStays(c: Settings, run: seq<Action>)
    requires Positive(c) && Run(c, run).Some? && Responsive(c, run)
    ensures InTime(c, Run(c, run).value) && OwedIsPast(Run(c, run).value)
  {
    if run != [] {
      var before := run[..|run| - 1];
      assert forall k :: 0 <= k <= |before| ==> before[..k] == run[..k];
      ResponsivePeerStays(c, before);
      assert run[..|run|] == run;
      assert PromptAt(c, Run(c, run[..|run|]));
    }
  }

  predicate OwedIsPast(s: State) {
    s.owed.Some? ==> s.owed.value <= s.now
  }

  // ----- a silent peer is closed in time -----

  /** The latest time at which the connection is still open if no further pong arrives. */
  function Deadline(c: Settings, s: State): nat {
    match s.phase
    case Waiting =>
      if s.pong then (if s.tick then s.now + s.untilTick else s.now + s.untilTick + c.interval) + c.timeout
      else if s.tick then s.now + c.timeout
      else s.now + s.untilTick + c.timeout
    case Pinged(at) =>
      if s.pong then (if s.tick then s.now else s.now + s.untilTick) + c.timeout
      else at + c.timeout
    case Closed(at) => at
  }

  predicate Shaped(c: Settings, s: State) {
    && 1 <= s.untilTick <= c.interval
    && s.lastPong <= s.now
    && (s.phase.Pinged? ==> s.phase.at <= s.now <= s.phase.at + c.timeout)
    && (s.phase.Closed? ==> s.phase.at <= s.now)
  }

  /** Only a pong puts the deadline off, and then to at most two intervals and a timeout later. */
  lemma DeadlineStep(c: Settings, s: State, a: Action)
    requires Positive(c) && Shaped(c, s) && Step(c, s, a).Some?
    ensures var s' := Step(c, s, a).value;
            && Shaped(c, s')
            && (a != PongArrives && !s.phase.Closed? ==> Deadline(c, s') <= Deadline(c, s))
            && (s.phase.Closed? ==> s'.phase == s.phase)
            && (!s'.phase.Closed? ==> s'.now <= Deadline(c, s'))
            && (a == PongArrives && !s.phase.Closed? ==> Deadline(c, s') <= s.now + 2 * c.interval + c.timeout)
  {
  }

  /**
   * After the last pong, or the start, the connection is closed within two ping intervals and one
   * timeout: if it is closed it was by then, and if it is open that time has not passed.
   */
  lemma {:induction false} SilentPeerIsClosed(c: Settings, run: seq<Action>)
    requires Positive(c) && Run(c, run).Some?
    ensures var s := Run(c, run).value;
            && Shaped(c, s)
            && (s.phase.Closed? || s.now <= Deadline(c, s))
            && (!s.phase.Closed? ==> Deadline(c, s) <= s.lastPong + 2 * c.interval + c.timeout)
            && (!s.phase.Closed? ==> s.now <= s.lastPong + 2 * c.interval + c.timeout)
  {
    if run != [] {
      SilentPeerIsClosed(c, run[..|run| - 1]);
      DeadlineStep(c, Run(c, run[..|run| - 1]).value, run[|run| - 1]);
    }
  }

  /** The step that closes the connection happens by then, too. */
  lemma {:induction false} ClosingIsInTime(c: Settings, run: seq<Action>)
    requires Positive(c) && Run(c, run).Some? && Step(c, Run(c, run).value, Timeout).Some?
    ensures var s := Run(c, run).value;
            Step(c, s, Timeout).value.phase == Closed(s.now) && s.now <= s.lastPong + 2 * c.interval + c.timeout
  {
    SilentPeerIsClosed(c, run);
  }

  lemma {:induction false} RunThen(c: Settings, run: seq<Action>, a: Action)
    requires Run(c, run).Some?
    ensures Run(c, run + [a]) == Step(c, Run(c, run).value, a)
  {
    assert (run + [a])[..|run|] == run;
  }

  /** Time passes up to the next tick while the loop waits for it. */
  lemma {:induction false} WaitForTick(c: Settings, run: seq<Action>, n: nat) returns (longer: seq<Action>)
    requires Run(c, run).Some? && Run(c, run).value.phase == Waiting && !Run(c, run).value.tick
    requires n < Run(c, run).value.untilTick
    ensures var s := Run(c, run).value;
            Run(c, longer) == Some(s.(now := s.now + n, untilTick := s.untilTick - n))
  {
    longer := run;
    if n > 0 {
      var before := WaitForTick(c, run, n - 1);
      RunThen(c, before, Advance);
      longer := before + [Advance];
    }
    hide Run;
  }

  /** A whole interval, from one tick to the next, and the ping it causes. */
  lemma {:induction false} NextPing(c: Settings, run: seq<Action>) returns (longer: seq<Action>)
    requires Positive(c) && Run(c, run).Some?
    requires var s := Run(c, run).value;
             s.phase == Waiting && !s.tick && s.untilTick == c.interval
    ensures Run(c, longer).Some?
    ensures var s, s' := Run(c, run).value, Run(c, longer).value;
            && s'.now == s.now + c.interval && s'.phase == Pinged(s'.now) && !s'.tick
            && s'.untilTick == c.interval && s'.pong == s.pong && s'.lastPong == s.lastPong
  {
    var waited := WaitForTick(c, run, c.interval - 1);
    RunThen(c, waited, Advance);
    RunThen(c, waited + [Advance], Ping);
    longer := waited + [Advance] + [Ping];
    hide Run;
  }

  /** Time passes while the loop waits for a pong that does not come. */
  lemma {:induction false} WaitForPong(c: Settings, run: seq<Action>, n: nat) returns (longer: seq<Action>)
    requires Positive(c) && Run(c, run).Some? && n <= c.timeout
    requires var s := Run(c, run).value;
             s.phase == Pinged(s.now) && !s.pong
    ensures Run(c, longer).Some?
    ensures var s, s' := Run(c, run).value, Run(c, longer).value;
            s'.now == s.now + n && s'.phase == s.phase && !s'.pong && s'.lastPong == s.lastPong
  {
    longer := run;
    if n > 0 {
      var before := WaitForPong(c, run, n - 1);
      RunThen(c, before, Advance);
      longer := before + [Advance];
    }
    hide Run;
  }

  /**
   * The bound is reached for all settings: a pong kept in its slot answers the first ping, and only the
   * second one times out.
   */
  lemma {:induction false} TwoIntervalsAreNeeded(c: Settings) returns (run: seq<Action>)
    requires Positive(c)
    ensures Run(c, run).Some? && Run(c, run).value.lastPong == 0
    ensures Run(c, run).value.phase == Closed(2 * c.interval + c.timeout)
  {
    RunThen(c, [], PongArrives);
    run := NextPing(c, [] + [PongArrives]);
    RunThen(c, run, TakePong);
    run := NextPing(c, run + [TakePong]);
    run := WaitForPong(c, run, c.timeout);
    RunThen(c, run, Timeout);
    run := run + [Timeout];
    hide Run;
  }
}
