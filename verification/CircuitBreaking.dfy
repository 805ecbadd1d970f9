/** The per-node circuit breaker, its persistence, and what holds over all of its runs. */
module CircuitBreaking {
  import opened Common

  datatype State = Closed | Open | HalfOpen

  datatype Config = Config(failureThreshold: int, halfOpenMaxProbes: int, recoveryThreshold: int, initialBackoff: real)

  datatype Breaker = Breaker(
    state: State,
    failureCount: int,
    consecutiveSuccesses: int,
    lastFailure: Option<real>,
    lastSuccess: Option<real>,
    openSince: Option<real>,
    backoffUntil: Option<real>,
    currentBackoff: real,
    halfOpenProbes: int)

  function Fresh(cfg: Config): Breaker {
    Breaker(Closed, 0, 0, None, None, None, None, cfg.initialBackoff, 0)
  }

  function ToOpen(b: Breaker, now: real): Breaker {
    b.(state := Open, openSince := Some(now), halfOpenProbes := 0, backoffUntil := Some(now + b.currentBackoff))
  }

  function ToHalfOpen(b: Breaker): Breaker {
    b.(state := HalfOpen, halfOpenProbes := 0, consecutiveSuccesses := 0, backoffUntil := None)
  }

  function ToClosed(cfg: Config, b: Breaker): Breaker {
    b.(state := Closed, failureCount := 0, consecutiveSuccesses := 0, openSince := None, backoffUntil := None,
       currentBackoff := cfg.initialBackoff)
  }

  /** `_check_open_timeout`: reading the state moves an OPEN breaker on once its backoff has run out. */
  function Checked(b: Breaker, now: real): Breaker {
    if b.state == Open && b.backoffUntil.Some? && now >= b.backoffUntil.value then ToHalfOpen(b) else b
  }

  function AfterSuccess(cfg: Config, b: Breaker, now: real): Breaker {
    var b1 := b.(lastSuccess := Some(now), consecutiveSuccesses := b.consecutiveSuccesses + 1);
    match b1.state
    case Closed => b1.(failureCount := 0)
    case Open => b1
    case HalfOpen =>
      var b2 := b1.(halfOpenProbes := b1.halfOpenProbes + 1);
      if b2.consecutiveSuccesses >= cfg.recoveryThreshold then ToClosed(cfg, b2) else b2
  }

  function AfterFailure(cfg: Config, b: Breaker, now: real): Breaker {
    var b1 := b.(failureCount := b.failureCount + 1, consecutiveSuccesses := 0, lastFailure := Some(now));
    match b1.state
    case Closed => if b1.failureCount >= cfg.failureThreshold then ToOpen(b1, now) else b1
    case Open => b1
    case HalfOpen => ToOpen(b1, now)
  }

  function Allows(cfg: Config, b: Breaker): bool {
    match b.state
    case Closed => true
    case Open => false
    case HalfOpen => b.halfOpenProbes < cfg.halfOpenMaxProbes
  }

  /** The row of `circuit_breaker_state`: everything but the half-open probe counter. */
  datatype Record = Record(
    state: State,
    failureCount: int,
    consecutiveSuccesses: int,
    lastFailure: Option<real>,
    lastSuccess: Option<real>,
    openSince: Option<real>,
    backoffUntil: Option<real>,
    currentBackoff: real)

  function Persisted(b: Breaker): Record {
    Record(b.state, b.failureCount, b.consecutiveSuccesses, b.lastFailure, b.lastSuccess, b.openSince,
           b.backoffUntil, b.currentBackoff)
  }

  function Restored(b: Breaker, r: Record): Breaker {
    Breaker(r.state, r.failureCount, r.consecutiveSuccesses, r.lastFailure, r.lastSuccess, r.openSince,
            r.backoffUntil, r.currentBackoff,
            if r.state == Open || r.state == HalfOpen then 0 else b.halfOpenProbes)
  }

  /** The mutable breaker. */
  class CircuitBreaker {
    const cfg: Config
    var state: State
    var failureCount: int
    var consecutiveSuccesses: int
    var lastFailure: Option<real>
    var lastSuccess: Option<real>
    var openSince: Option<real>
    var backoffUntil: Option<real>
    var currentBackoff: real
    var halfOpenProbes: int

    function View(): Breaker
      reads this
    {
      Breaker(state, failureCount, consecutiveSuccesses, lastFailure, lastSuccess, openSince, backoffUntil,
              currentBackoff, halfOpenProbes)
    }

    constructor (cfg: Config)
      ensures this.cfg == cfg && View() == Fresh(cfg)
    {
      this.cfg := cfg;
      state, failureCount, consecutiveSuccesses, halfOpenProbes := Closed, 0, 0, 0;
      lastFailure, lastSuccess, openSince, backoffUntil := None, None, None, None;
      currentBackoff := cfg.initialBackoff;
    }

    method TransitionToOpen(now: real)
      modifies this
      ensures View() == ToOpen(old(View()), now)
    {
      state := Open;
      openSince := Some(now);
      halfOpenProbes := 0;
      backoffUntil := Some(now + currentBackoff);
    }

    method TransitionToHalfOpen()
      modifies this
      ensures View() == ToHalfOpen(old(View()))
    {
      state := HalfOpen;
      halfOpenProbes := 0;
      consecutiveSuccesses := 0;
      backoffUntil := None;
    }

    method TransitionToClosed()
      modifies this
      ensures View() == ToClosed(cfg, old(View()))
    {
      state := Closed;
      failureCount := 0;
      consecutiveSuccesses := 0;
      openSince := None;
      backoffUntil := None;
      currentBackoff := cfg.initialBackoff;
    }

    method CheckOpenTimeout(now: real)
      modifies this
      ensures View() == Checked(old(View()), now)
    {
      if state != Open || backoffUntil.None? {
        return;
      }
      if now >= backoffUntil.value {
        TransitionToHalfOpen();
      }
    }

    method ReadState(now: real) returns (s: State)
      modifies this
      ensures View() == Checked(old(View()), now) && s == View().state
    {
      CheckOpenTimeout(now);
      s := state;
    }

    method IsAllowProbe(now: real) returns (allowed: bool)
      modifies this
      ensures View() == Checked(old(View()), now) && allowed == Allows(cfg, View())
    {
      CheckOpenTimeout(now);
      if state == Closed {
        return true;
      }
      if state == HalfOpen {
        return halfOpenProbes < cfg.halfOpenMaxProbes;
      }
      return false;
    }

    method RecordSuccess(now: real)
      modifies this
      ensures View() == AfterSuccess(cfg, old(View()), now)
    {
      lastSuccess := Some(now);
      consecutiveSuccesses := consecutiveSuccesses + 1;
      if state == Closed {
        failureCount := 0;
      } else if state == HalfOpen {
        halfOpenProbes := halfOpenProbes + 1;
        if consecutiveSuccesses >= cfg.recoveryThreshold {
          TransitionToClosed();
        }
      }
    }

    method RecordFailure(now: real)
      modifies this
      ensures View() == AfterFailure(cfg, old(View()), now)
    {
      failureCount := failureCount + 1;
      consecutiveSuccesses := 0;
      lastFailure := Some(now);
      if state == Closed {
        if failureCount >= cfg.failureThreshold {
          TransitionToOpen(now);
        }
      } else if state == HalfOpen {
        TransitionToOpen(now);
      }
    }

    method RestoreState(r: Record)
      modifies this
      ensures View() == Restored(old(View()), r)
    {
      state := r.state;
      failureCount := r.failureCount;
      consecutiveSuccesses := r.consecutiveSuccesses;
      lastFailure := r.lastFailure;
      lastSuccess := r.lastSuccess;
      openSince := r.openSince;
      backoffUntil := r.backoffUntil;
      currentBackoff := r.currentBackoff;
      if r.state == Open || r.state == HalfOpen {
        halfOpenProbes := 0;
      }
    }
  }

  // ---------------------------------------------------------------------------------------------
  // Runs

  /** `Save` reads the state and writes the record; `Restart` also replaces the breaker by a fresh one
      restored from that record. */
  datatype Op = Success | Failure | ReadState | AllowProbe | ForceOpen | ForceClose | Save | Restart

  datatype Event = Event(op: Op, at: real)

  function Step(cfg: Config, b: Breaker, e: Event): Breaker {
    match e.op
    case Success => AfterSuccess(cfg, b, e.at)
    case Failure => AfterFailure(cfg, b, e.at)
    case ReadState => Checked(b, e.at)
    case AllowProbe => Checked(b, e.at)
    case ForceOpen => ToOpen(b, e.at)
    case ForceClose => ToClosed(cfg, b)
    case Save => Checked(b, e.at)
    case Restart => Restored(Fresh(cfg), Persisted(Checked(b, e.at)))
  }

  /** What can be seen after a step: the failure count and the backoff always, the state or the probe
      permission when asked for. */
  datatype Output = Output(failureCount: int, currentBackoff: real, state: Option<State>, allowed: Option<bool>)

  function Observe(cfg: Config, b: Breaker, e: Event): Output {
    var b' := Step(cfg, b, e);
    Output(b'.failureCount, b'.currentBackoff,
           if e.op in {ReadState, Save, Restart} then Some(b'.state) else None,
           if e.op == AllowProbe then Some(Allows(cfg, b')) else None)
  }

  function Outputs(cfg: Config, b: Breaker, events: seq<Event>): (r: seq<Output>)
    ensures |r| == |events|
    decreases |events|
  {
    if events == [] then []
    else [Observe(cfg, b, events[0])] + Outputs(cfg, Step(cfg, b, events[0]), events[1..])
  }

  /** The breaker after a whole run from a fresh start. */
  function Run(cfg: Config, events: seq<Event>): Breaker {
    if events == [] then Fresh(cfg)
    else Step(cfg, Run(cfg, events[..|events| - 1]), events[|events| - 1])
  }

  predicate Ordered(events: seq<Event>) {
    forall i, j | 0 <= i < j < |events| :: events[i].at <= events[j].at
  }

  // ---------------------------------------------------------------------------------------------
  // Persist and restore is invisible

  /** The same run with every restart replaced by a mere save. */
  function WithoutRestarts(events: seq<Event>): (r: seq<Event>)
    ensures |r| == |events|
    ensures forall i | 0 <= i < |events| :: r[i].at == events[i].at
  {
    if events == [] then []
    else
      [if events[0].op == Restart then events[0].(op := Save) else events[0]] + WithoutRestarts(events[1..])
  }

  predicate RestartSafe(cfg: Config) {
    cfg.recoveryThreshold <= cfg.halfOpenMaxProbes || cfg.halfOpenMaxProbes <= 0
  }

  /** In a half-open episode the probe counter equals the success counter and has not reached the
      recovery threshold (past the first step). */
  predicate Coherent(cfg: Config, b: Breaker) {
    b.state == HalfOpen ==>
      && 0 <= b.halfOpenProbes == b.consecutiveSuccesses
      && (b.halfOpenProbes == 0 || b.halfOpenProbes < cfg.recoveryThreshold)
  }

  /** `b` has been restarted where `a` has not: equal but for the counter that is not saved. */
  predicate SameButProbes(a: Breaker, b: Breaker) {
    && a == b.(halfOpenProbes := a.halfOpenProbes)
    && (a.state == HalfOpen ==> 0 <= b.halfOpenProbes <= a.halfOpenProbes)
  }

  lemma {:induction false} RestartStep(cfg: Config, a: Breaker, b: Breaker, e: Event)
    requires RestartSafe(cfg) && Coherent(cfg, a) && SameButProbes(a, b)
    ensures var e' := if e.op == Restart then e.(op := Save) else e;
            && Coherent(cfg, Step(cfg, a, e')) && SameButProbes(Step(cfg, a, e'), Step(cfg, b, e))
            && Observe(cfg, a, e') == Observe(cfg, b, e)
  {
  }

  lemma {:induction false} RestartsInvisible(cfg: Config, a: Breaker, b: Breaker, events: seq<Event>)
    requires RestartSafe(cfg) && Coherent(cfg, a) && SameButProbes(a, b)
    ensures Outputs(cfg, b, events) == Outputs(cfg, a, WithoutRestarts(events))
    decreases |events|
  {
    if events != [] {
      RestartStep(cfg, a, b, events[0]);
      var e' := WithoutRestarts(events)[0];
      RestartsInvisible(cfg, Step(cfg, a, e'), Step(cfg, b, events[0]), events[1..]);
      assert WithoutRestarts(events)[1..] == WithoutRestarts(events[1..]);
    }
  }

  /** No run shows whether, and where, the service was restarted. */
  ghost predicate RestartInvisible(cfg: Config) {
    forall events: seq<Event> | Ordered(events) ::
      Outputs(cfg, Fresh(cfg), events) == Outputs(cfg, Fresh(cfg), WithoutRestarts(events))
  }

  function StepAll(cfg: Config, b: Breaker, events: seq<Event>): Breaker
    decreases |events|
  {
    if events == [] then b else StepAll(cfg, Step(cfg, b, events[0]), events[1..])
  }

  lemma {:induction false} StepAllLast(cfg: Config, b: Breaker, events: seq<Event>, e: Event)
    ensures StepAll(cfg, b, events + [e]) == Step(cfg, StepAll(cfg, b, events), e)
    decreases |events|
  {
    if events == [] {
      assert events + [e] == [e] && [e][1..] == [];
    } else {
      assert (events + [e])[1..] == events[1..] + [e];
      StepAllLast(cfg, Step(cfg, b, events[0]), events[1..], e);
    }
  }

  lemma {:induction false} RunIsStepAll(cfg: Config, events: seq<Event>)
    ensures Run(cfg, events) == StepAll(cfg, Fresh(cfg), events)
    decreases |events|
  {
    if events != [] {
      var front, e := events[..|events| - 1], events[|events| - 1];
      RunIsStepAll(cfg, front);
      StepAllLast(cfg, Fresh(cfg), front, e);
      assert events == front + [e];
    }
  }

  lemma {:induction false} OutputAt(cfg: Config, b: Breaker, events: seq<Event>, i: nat)
    requires i < |events|
    ensures Outputs(cfg, b, events)[i] == Observe(cfg, StepAll(cfg, b, events[..i]), events[i])
    decreases i
  {
    if i > 0 {
      OutputAt(cfg, Step(cfg, b, events[0]), events[1..], i - 1);
      assert events[..i][1..] == events[1..][..i - 1];
    }
  }

  lemma {:induction false} RunLast(cfg: Config, events: seq<Event>, e: Event)
    ensures Run(cfg, events + [e]) == Step(cfg, Run(cfg, events), e)
  {
    assert (events + [e])[..|events|] == events;
  }

  /** A CLOSED breaker with `n` failures, or one that the last of them tripped. */
  predicate Failing(cfg: Config, b: Breaker, n: int) {
    && b.failureCount == n && b.currentBackoff == cfg.initialBackoff
    && if n < Max(1, cfg.failureThreshold) then b.state == Closed
       else b.state == Open && b.backoffUntil == Some(cfg.initialBackoff)
  }

  lemma {:induction false} OneMoreFailure(cfg: Config, b: Breaker, n: nat)
    requires n < Max(1, cfg.failureThreshold) && Failing(cfg, b, n)
    ensures Failing(cfg, AfterFailure(cfg, b, 0.0), n + 1)
  {
  }

  lemma {:induction false} FailureBurst(cfg: Config, n: nat)
    requires n <= Max(1, cfg.failureThreshold)
    ensures Failing(cfg, Run(cfg, Repeat(Event(Failure, 0.0), n)), n)
  {
    if n > 0 {
      var e := Event(Failure, 0.0);
      var front := Repeat(e, n - 1);
      FailureBurst(cfg, n - 1);
      OneMoreFailure(cfg, Run(cfg, front), n - 1);
      RunLast(cfg, front, e);
      assert Repeat(e, n) == front + [e];
    }
  }

  lemma {:induction false} SuccessBurst(cfg: Config, events: seq<Event>, t: real, n: nat)
    requires Run(cfg, events).state == HalfOpen
    requires Run(cfg, events).consecutiveSuccesses == Run(cfg, events).halfOpenProbes == 0
    requires n < cfg.recoveryThreshold
    ensures var b := Run(cfg, events + Repeat(Event(Success, t), n));
            b.state == HalfOpen && b.halfOpenProbes == b.consecutiveSuccesses == n
  {
    var e := Event(Success, t);
    if n == 0 {
      assert events + Repeat(e, 0) == events;
    } else {
      SuccessBurst(cfg, events, t, n - 1);
      assert events + Repeat(e, n) == (events + Repeat(e, n - 1)) + [e];
      RunLast(cfg, events + Repeat(e, n - 1), e);
    }
  }

  lemma {:induction false} WithoutRestartsAppend(a: seq<Event>, b: seq<Event>)
    ensures WithoutRestarts(a + b) == WithoutRestarts(a) + WithoutRestarts(b)
  {
    if a == [] {
      assert a + b == b;
    } else {
      assert (a + b)[0] == a[0] && (a + b)[1..] == a[1..] + b;
      WithoutRestartsAppend(a[1..], b);
    }
  }

  lemma {:induction false} NothingToErase(events: seq<Event>)
    requires forall i | 0 <= i < |events| :: events[i].op != Restart
    ensures WithoutRestarts(events) == events
  {
    if events != [] {
      NothingToErase(events[1..]);
      assert events == [events[0]] + events[1..];
    }
  }

  /** Trip the breaker, wait out the backoff, and use up the half-open probes. */
  function ProbesUsedUp(cfg: Config): seq<Event>
    requires 1 <= cfg.halfOpenMaxProbes < cfg.recoveryThreshold
  {
    var t := if cfg.initialBackoff > 0.0 then cfg.initialBackoff else 0.0;
    Repeat(Event(Failure, 0.0), Max(1, cfg.failureThreshold)) + [Event(ReadState, t)]
    + Repeat(Event(Success, t), cfg.halfOpenMaxProbes)
  }

  lemma {:induction false} ProbesUsedUpState(cfg: Config)
    requires 1 <= cfg.halfOpenMaxProbes < cfg.recoveryThreshold
    ensures Run(cfg, ProbesUsedUp(cfg)).state == HalfOpen
    ensures Run(cfg, ProbesUsedUp(cfg)).halfOpenProbes == cfg.halfOpenMaxProbes
  {
    var t := if cfg.initialBackoff > 0.0 then cfg.initialBackoff else 0.0;
    var k := Max(1, cfg.failureThreshold);
    FailureBurst(cfg, k);
    RunLast(cfg, Repeat(Event(Failure, 0.0), k), Event(ReadState, t));
    SuccessBurst(cfg, Repeat(Event(Failure, 0.0), k) + [Event(ReadState, t)], t, cfg.halfOpenMaxProbes);
  }

  lemma {:induction false} ProbesUsedUpOrdered(cfg: Config, last: seq<Event>)
    requires 1 <= cfg.halfOpenMaxProbes < cfg.recoveryThreshold
    requires var t := if cfg.initialBackoff > 0.0 then cfg.initialBackoff else 0.0;
             forall e | e in last :: e.at == t
    ensures Ordered(ProbesUsedUp(cfg) + last)
    ensures forall e | e in ProbesUsedUp(cfg) :: e.op != Restart
  {
    var t := if cfg.initialBackoff > 0.0 then cfg.initialBackoff else 0.0;
    var k := Max(1, cfg.failureThreshold);
    var all := ProbesUsedUp(cfg) + last;
    forall i | 0 <= i < |all| ensures all[i].at == if i < k then 0.0 else t {
      if i >= |ProbesUsedUp(cfg)| {
        assert all[i] in last;
      }
    }
  }

  /** The answer to `AllowProbe` after a run and one more event. */
  lemma {:induction false} AskedAfter(cfg: Config, events: seq<Event>, e: Event, ask: Event)
    requires ask.op == AllowProbe
    ensures Outputs(cfg, Fresh(cfg), events + [e, ask])[|events| + 1].allowed
            == Some(Allows(cfg, Checked(Step(cfg, Run(cfg, events), e), ask.at)))
  {
    var all, n := events + [e, ask], |events|;
    OutputAt(cfg, Fresh(cfg), all, n + 1);
    assert all[..n + 1] == events + [e];
    StepAllLast(cfg, Fresh(cfg), events, e);
    RunIsStepAll(cfg, events);
  }

  lemma {:induction false} RestartErased(events: seq<Event>, t: real)
    requires forall e | e in events :: e.op != Restart
    ensures WithoutRestarts(events + [Event(Restart, t), Event(AllowProbe, t)])
            == events + [Event(Save, t), Event(AllowProbe, t)]
  {
    var restart, save, ask := Event(Restart, t), Event(Save, t), Event(AllowProbe, t);
    WithoutRestartsAppend(events, [restart, ask]);
    NothingToErase(events);
    assert [restart, ask][1..] == [ask] && [ask][1..] == [];
    assert WithoutRestarts([restart, ask]) == [save] + WithoutRestarts([ask]);
  }

  /** Outside the safe settings a restart hands out probes that were already used up. */
  lemma {:induction false} RestartVisible(cfg: Config)
    requires !RestartSafe(cfg)
    ensures exists events :: Ordered(events)
              && Outputs(cfg, Fresh(cfg), events) != Outputs(cfg, Fresh(cfg), WithoutRestarts(events))
  {
    var t := if cfg.initialBackoff > 0.0 then cfg.initialBackoff else 0.0;
    var p := ProbesUsedUp(cfg);
    var events := p + [Event(Restart, t), Event(AllowProbe, t)];
    ProbesUsedUpOrdered(cfg, [Event(Restart, t), Event(AllowProbe, t)]);
    RestartErased(p, t);
    var before, after := Outputs(cfg, Fresh(cfg), WithoutRestarts(events)), Outputs(cfg, Fresh(cfg), events);
    assert before[|p| + 1].allowed == Some(false) && after[|p| + 1].allowed == Some(true) by {
      ProbesUsedUpState(cfg);
      AskedAfter(cfg, p, Event(Save, t), Event(AllowProbe, t));
      AskedAfter(cfg, p, Event(Restart, t), Event(AllowProbe, t));
    }
  }

  /** Restarting is invisible over all runs exactly when the recovery threshold does not exceed the
      half-open probe budget, or there is no such budget at all. */
  lemma {:induction false} RestartInvisibleExactly(cfg: Config)
    ensures RestartInvisible(cfg) <==> RestartSafe(cfg)
  {
    if RestartSafe(cfg) {
      forall events: seq<Event> | Ordered(events)
        ensures Outputs(cfg, Fresh(cfg), events) == Outputs(cfg, Fresh(cfg), WithoutRestarts(events))
      {
        RestartsInvisible(cfg, Fresh(cfg), Fresh(cfg), events);
      }
    } else {
      RestartVisible(cfg);
    }
  }

  // ---------------------------------------------------------------------------------------------
  // Recovery over whole runs without forced transitions or restarts

  predicate Organic(events: seq<Event>) {
    forall e | e in events :: e.op !in {ForceOpen, ForceClose, Restart}
  }

  /** How many probe failures end the run, with no success after them. */
  function TrailingFailures(events: seq<Event>): nat {
    if events == [] then 0
    else
      var e, front := events[|events| - 1], events[..|events| - 1];
      match e.op
      case Failure => 1 + TrailingFailures(front)
      case Success => 0
      case _ => TrailingFailures(front)
  }

  function CountOp(events: seq<Event>, op: Op): nat {
    if events == [] then 0
    else (if events[|events| - 1].op == op then 1 else 0) + CountOp(events[..|events| - 1], op)
  }

  /** How many events had happened when the breaker entered the state it is in. */
  function EpisodeStart(cfg: Config, events: seq<Event>): (n: nat)
    ensures n <= |events|
  {
    if events == [] then 0
    else
      var front := events[..|events| - 1];
      if Run(cfg, front).state == Run(cfg, events).state then EpisodeStart(cfg, front) else |events|
  }

  /** The breaker has been in its present state ever since the start of the episode, and not before. */
  lemma {:induction false} EpisodeIsOneState(cfg: Config, events: seq<Event>, i: nat)
    requires EpisodeStart(cfg, events) <= i <= |events|
    ensures Run(cfg, events[..i]).state == Run(cfg, events).state
    ensures var n := EpisodeStart(cfg, events);
            n > 0 ==> Run(cfg, events[..n - 1]).state != Run(cfg, events).state
    decreases |events|
  {
    assert events[..|events|] == events;
    if events != [] {
      var front := events[..|events| - 1];
      if Run(cfg, front).state == Run(cfg, events).state {
        EpisodeIsOneState(cfg, front, if i < |events| then i else EpisodeStart(cfg, front));
        if i < |events| {
          assert front[..i] == events[..i];
        }
        var n := EpisodeStart(cfg, events);
        if n > 0 {
          assert front[..n - 1] == events[..n - 1];
        }
      }
    }
  }

  /** What each state of a breaker says about the run that led to it. */
  ghost predicate TellsItsHistory(cfg: Config, events: seq<Event>) {
    var b, n := Run(cfg, events), EpisodeStart(cfg, events);
    && b.currentBackoff == cfg.initialBackoff
    && (b.state == Closed ==>
          b.failureCount == TrailingFailures(events) < Max(1, cfg.failureThreshold))
    && (b.state == Open ==>
          && 0 < n && events[n - 1].op == Failure
          && b.openSince == Some(events[n - 1].at)
          && b.backoffUntil == Some(events[n - 1].at + cfg.initialBackoff))
    && (b.state == HalfOpen ==>
          && 0 < n && CountOp(events[n..], Failure) == 0
          && CountOp(events[n..], Success) == b.consecutiveSuccesses
          && (b.consecutiveSuccesses == 0 || b.consecutiveSuccesses < cfg.recoveryThreshold))
  }

  lemma {:induction false} CountOpAppend(events: seq<Event>, e: Event, op: Op)
    ensures CountOp(events + [e], op) == (if e.op == op then 1 else 0) + CountOp(events, op)
  {
    assert (events + [e])[..|events|] == events;
  }

  /** An event that leaves the state alone lengthens the episode. */
  lemma {:induction false} EpisodeGoesOn(cfg: Config, front: seq<Event>, e: Event)
    requires Run(cfg, front + [e]).state == Run(cfg, front).state
    ensures var n := EpisodeStart(cfg, front);
            && EpisodeStart(cfg, front + [e]) == n
            && (n > 0 ==> (front + [e])[n - 1] == front[n - 1])
            && (front + [e])[n..] == front[n..] + [e]
  {
    assert (front + [e])[..|front|] == front;
  }

  lemma {:induction false} EpisodeCounts(cfg: Config, front: seq<Event>, e: Event, op: Op)
    requires Run(cfg, front + [e]).state == Run(cfg, front).state
    ensures CountOp((front + [e])[EpisodeStart(cfg, front + [e])..], op) ==
              (if e.op == op then 1 else 0) + CountOp(front[EpisodeStart(cfg, front)..], op)
  {
    EpisodeGoesOn(cfg, front, e);
    CountOpAppend(front[EpisodeStart(cfg, front)..], e, op);
  }

  /** One more event keeps the story true when it leaves the state alone. */
  lemma {:induction false} HistoryToldSameState(cfg: Config, front: seq<Event>, e: Event)
    requires TellsItsHistory(cfg, front) && e.op !in {ForceOpen, ForceClose, Restart}
    requires Run(cfg, front + [e]).state == Run(cfg, front).state
    ensures TellsItsHistory(cfg, front + [e])
  {
    var b, b' := Run(cfg, front), Run(cfg, front + [e]);
    assert b' == Step(cfg, b, e) by { RunLast(cfg, front, e); }
    assert EpisodeStart(cfg, front + [e]) == EpisodeStart(cfg, front)
        && (EpisodeStart(cfg, front) > 0 ==> (front + [e])[EpisodeStart(cfg, front) - 1] == front[EpisodeStart(cfg, front) - 1]) by {
      EpisodeGoesOn(cfg, front, e);
    }
    if b.state == Closed {
      TrailingLast(front, e);
    } else if b.state == HalfOpen {
      EpisodeCounts(cfg, front, e, Success);
      EpisodeCounts(cfg, front, e, Failure);
    }
  }

  lemma {:induction false} TrailingLast(front: seq<Event>, e: Event)
    ensures TrailingFailures(front + [e]) ==
            (match e.op case Failure => 1 + TrailingFailures(front) case Success => 0 case _ => TrailingFailures(front))
  {
    assert (front + [e])[..|front|] == front;
  }

  lemma {:induction false} HistoryToldNewState(cfg: Config, front: seq<Event>, e: Event)
    requires TellsItsHistory(cfg, front) && e.op !in {ForceOpen, ForceClose, Restart}
    requires Run(cfg, front + [e]).state != Run(cfg, front).state
    ensures TellsItsHistory(cfg, front + [e])
  {
    var events := front + [e];
    RunLast(cfg, front, e);
    assert events[..|front|] == front;
    assert EpisodeStart(cfg, events) == |events|;
    assert events[|events|..] == [];
  }

  lemma {:induction false} HistoryTold(cfg: Config, events: seq<Event>)
    requires Organic(events)
    ensures TellsItsHistory(cfg, events)
    decreases |events|
  {
    if events != [] {
      var front, e := events[..|events| - 1], events[|events| - 1];
      assert events == front + [e] && e in events;
      HistoryTold(cfg, front);
      if Run(cfg, events).state == Run(cfg, front).state {
        HistoryToldSameState(cfg, front, e);
      } else {
        HistoryToldNewState(cfg, front, e);
      }
    }
  }

  /** CLOSED trips on a failure that brings the trailing run of failures to the threshold, and on nothing else. */
  lemma {:induction false} TripsExactlyAtThreshold(cfg: Config, events: seq<Event>, e: Event)
    requires Organic(events + [e]) && Run(cfg, events).state == Closed
    ensures var now := Run(cfg, events + [e]).state;
            && now != HalfOpen
            && (now == Open <==> e.op == Failure && TrailingFailures(events + [e]) == Max(1, cfg.failureThreshold))
  {
    assert (events + [e])[..|events|] == events;
    assert forall x | x in events :: x in events + [e];
    HistoryTold(cfg, events);
    assert e in events + [e];
  }

  /** OPEN is left only by reading the state at or after the end of a backoff that always lasts
      `initialBackoff` from the failure that tripped it, and only into HALF_OPEN. */
  lemma {:induction false} OpenLeftExactlyAfterBackoff(cfg: Config, events: seq<Event>, e: Event)
    requires Organic(events + [e]) && Run(cfg, events).state == Open
    ensures var n := EpisodeStart(cfg, events);
            && 0 < n && events[n - 1].op == Failure
            && Run(cfg, events + [e]).state ==
               (if e.op in {ReadState, AllowProbe, Save} && e.at >= events[n - 1].at + cfg.initialBackoff
                then HalfOpen else Open)
  {
    RunLast(cfg, events, e);
    assert forall x | x in events :: x in events + [e];
    HistoryTold(cfg, events);
    assert e in events + [e];
  }

  /** CLOSED is regained only from a half-open episode, after exactly `recoveryThreshold` successes (at
      least one) and no failure within that episode. */
  lemma {:induction false} ClosedRegainedExactly(cfg: Config, events: seq<Event>, e: Event)
    requires Organic(events + [e]) && Run(cfg, events).state == HalfOpen
    ensures var n := EpisodeStart(cfg, events);
            && n <= |events| && CountOp(events[n..], Failure) == 0
            && (Run(cfg, events + [e]).state == Closed <==>
                e.op == Success && CountOp(events[n..] + [e], Success) == Max(1, cfg.recoveryThreshold))
            && (Run(cfg, events + [e]).state == Open <==> e.op == Failure)
  {
    RunLast(cfg, events, e);
    assert forall x | x in events :: x in events + [e];
    HistoryTold(cfg, events);
    assert e in events + [e];
    CountOpAppend(events[EpisodeStart(cfg, events)..], e, Success);
  }

  /** In a half-open episode of a run without restarts the probes counted are the successes. */
  lemma {:induction false} AlwaysCoherent(cfg: Config, events: seq<Event>)
    requires Organic(events)
    ensures Coherent(cfg, Run(cfg, events))
    decreases |events|
  {
    if events != [] {
      assert events[|events| - 1] in events && forall e | e in events[..|events| - 1] :: e in events;
      AlwaysCoherent(cfg, events[..|events| - 1]);
    }
  }

  /** What `is_allow_probe` answers over a run: always yes while CLOSED, never while OPEN, and while HALF_OPEN
      yes until the successes of the episode have used up the probes allowed. */
  lemma {:induction false} AllowedExactly(cfg: Config, events: seq<Event>, now: real)
    requires Organic(events)
    ensures var asked := events + [Event(AllowProbe, now)];
            var b, n := Run(cfg, asked), EpisodeStart(cfg, asked);
            Observe(cfg, Run(cfg, events), Event(AllowProbe, now)).allowed == Some(
              || b.state == Closed
              || (b.state == HalfOpen && n <= |asked| && CountOp(asked[n..], Success) < cfg.halfOpenMaxProbes))
  {
    var asked := events + [Event(AllowProbe, now)];
    RunLast(cfg, events, Event(AllowProbe, now));
    HistoryTold(cfg, asked);
    AlwaysCoherent(cfg, asked);
  }

  // ---------------------------------------------------------------------------------------------
  // Every run, forced transitions and restarts included

  /** The time of the last event of this kind. */
  function LastAt(events: seq<Event>, op: Op): Option<real> {
    if events == [] then None
    else if events[|events| - 1].op == op then Some(events[|events| - 1].at)
    else LastAt(events[..|events| - 1], op)
  }

  /** The two times a breaker keeps are those of the last failure and the last success ever. */
  lemma {:induction false} TimesTold(cfg: Config, events: seq<Event>)
    ensures Run(cfg, events).lastFailure == LastAt(events, Failure)
    ensures Run(cfg, events).lastSuccess == LastAt(events, Success)
    decreases |events|
  {
    if events != [] {
      TimesTold(cfg, events[..|events| - 1]);
    }
  }

  lemma {:induction false} BackoffIsConstant(cfg: Config, events: seq<Event>)
    ensures Run(cfg, events).currentBackoff == cfg.initialBackoff
    decreases |events|
  {
    if events != [] {
      BackoffIsConstant(cfg, events[..|events| - 1]);
    }
  }

  lemma {:induction false} OpenedNow(cfg: Config, b: Breaker, at: real, now: real)
    requires b.currentBackoff == cfg.initialBackoff
    ensures var due := now >= at + cfg.initialBackoff;
            && Checked(ToOpen(b, at), now).state == (if due then HalfOpen else Open)
            && (!due ==> !Allows(cfg, Checked(ToOpen(b, at), now)))
  {
  }

  /** Whatever came before, a breaker forced open allows nothing until `initialBackoff` has passed, and then
      is on trial. */
  lemma {:induction false} ForcedOpen(cfg: Config, events: seq<Event>, at: real, now: real)
    ensures var b := Run(cfg, events + [Event(ForceOpen, at)]);
            && Step(cfg, b, Event(ReadState, now)).state == (if now >= at + cfg.initialBackoff then HalfOpen else Open)
            && (now < at + cfg.initialBackoff ==> Observe(cfg, b, Event(AllowProbe, now)).allowed == Some(false))
  {
    BackoffIsConstant(cfg, events);
    RunLast(cfg, events, Event(ForceOpen, at));
    OpenedNow(cfg, Run(cfg, events), at, now);
  }

  /** One forced closed allows probes, and takes a whole threshold of failures to trip. */
  lemma {:induction false} ForcedClosed(cfg: Config, events: seq<Event>, at: real, n: nat)
    requires n <= Max(1, cfg.failureThreshold)
    ensures var b := Run(cfg, events + [Event(ForceClose, at)] + Repeat(Event(Failure, at), n));
            && b.failureCount == n && (b.state == Open <==> n == Max(1, cfg.failureThreshold)) && b.state != HalfOpen
            && (b.state == Closed ==> Allows(cfg, b))
  {
    var closed, e := events + [Event(ForceClose, at)], Event(Failure, at);
    if n == 0 {
      RunLast(cfg, events, Event(ForceClose, at));
      assert closed + [] == closed;
    } else {
      ForcedClosed(cfg, events, at, n - 1);
      var before := closed + Repeat(e, n - 1);
      RunLast(cfg, before, e);
      assert Repeat(e, n) == Repeat(e, n - 1) + [e];
      assert closed + Repeat(e, n) == before + [e];
    }
  }
}
