/** A restart of the health manager, which restores what was stored after each node's last probe. */
module HealthRestarts {
  import opened Common
  import opened CircuitBreaking
  import opened HealthTracking

  /** What one node's breaker experiences. */
  function BreakerEvents(events: seq<HealthEvent>, key: string): seq<Event> {
    if events == [] then []
    else BreakerEvents(events[..|events| - 1], key) + EventsOf(events[|events| - 1], key)
  }

  function EventsOf(e: HealthEvent, key: string): seq<Event> {
    match e
    case Probe(k, at, success, _, _) => if k == key then ProbeEvents(success, at) else []
    case Read(k, at) => if k == key then [Event(ReadState, at)] else []
    case Ask(k, at) => if k == key then [Event(AllowProbe, at)] else []
    case Restart(_, _) => []
  }

  function ProbeEvents(success: bool, at: real): seq<Event> {
    [Event(ReadState, at), Event(if success then Success else Failure, at), Event(ReadState, at)]
  }

  lemma {:induction false} ProbeIsThreeEvents(cfg: Config, before: seq<Event>, success: bool, at: real)
    ensures Run(cfg, before + ProbeEvents(success, at)) == Probed(cfg, Run(cfg, before), success, at)
  {
    var read, result := Event(ReadState, at), Event(if success then Success else Failure, at);
    assert before + ProbeEvents(success, at) == before + [read] + [result] + [read];
    RunLast(cfg, before, read);
    RunLast(cfg, before + [read], result);
    RunLast(cfg, before + [read] + [result], read);
  }

  /** What an event does to a breaker it concerns. */
  function BreakerStep(cfg: Config, b: Breaker, e: HealthEvent, key: string): Breaker {
    match e
    case Probe(k, at, success, _, _) => if k == key then Probed(cfg, b, success, at) else b
    case Read(k, at) => if k == key then Checked(b, at) else b
    case Ask(k, at) => if k == key then Checked(b, at) else b
    case Restart(_, _) => b
  }

  lemma {:induction false} RunOfEvents(cfg: Config, before: seq<Event>, e: HealthEvent, key: string)
    ensures Run(cfg, before + EventsOf(e, key)) == BreakerStep(cfg, Run(cfg, before), e, key)
  {
    if EventsOf(e, key) == [] {
      assert before + [] == before;
    } else if e.Probe? {
      ProbeIsThreeEvents(cfg, before, e.success, e.at);
    } else {
      RunLast(cfg, before, EventsOf(e, key)[0]);
    }
  }

  lemma {:induction false} EventsAreOrganic(events: seq<HealthEvent>, key: string)
    ensures Organic(BreakerEvents(events, key))
    decreases |events|
  {
    if events != [] {
      EventsAreOrganic(events[..|events| - 1], key);
    }
  }

  /** Without restarts a node's breaker is the breaker of its own events. */
  lemma {:induction false} BreakerFollowsEvents(cfg: Config, maxFailures: int, events: seq<HealthEvent>, key: string)
    requires forall e | e in events :: !e.Restart?
    ensures BreakerOf(cfg, HealthRun(cfg, maxFailures, events), key) == Run(cfg, BreakerEvents(events, key))
    decreases |events|
  {
    if events != [] {
      var e, front := events[|events| - 1], events[..|events| - 1];
      assert e in events && forall x | x in front :: x in events;
      BreakerFollowsEvents(cfg, maxFailures, front, key);
      RunOfEvents(cfg, BreakerEvents(front, key), e, key);
    }
  }

  // ---------------------------------------------------------------------------------------------
  // Restarts over whole runs

  /** At `now`, `b` answers for `a`: once read, they are the same but for the probes counted. */
  predicate StandsFor(a: Breaker, b: Breaker, now: real) {
    SameButProbes(Checked(a, now), Checked(b, now))
  }

  lemma {:induction false} StandsLater(a: Breaker, b: Breaker, now: real, later: real)
    requires StandsFor(a, b, now) && now <= later
    ensures StandsFor(a, b, later)
  {
    assert Checked(Checked(a, now), later) == Checked(a, later) && Checked(Checked(b, now), later) == Checked(b, later);
  }

  lemma {:induction false} ProbedAlike(cfg: Config, a: Breaker, b: Breaker, success: bool, at: real)
    requires StandsFor(a, b, at)
    ensures SameButProbes(Probed(cfg, a, success, at), Probed(cfg, b, success, at))
  {
  }

  /** A record stands for the breaker it was made of, whatever breaker is restored from it. */
  lemma {:induction false} RecordStandsFor(a: Breaker, b: Breaker, any: Breaker, now: real)
    requires SameButProbes(a, b)
    ensures StandsFor(a, Restored(any, Persisted(b)), now)
  {
  }

  /** The breaker in memory and the one a restart would bring both stand for `a`. */
  predicate Simulated(cfg: Config, a: Breaker, h: Health, key: string, now: real) {
    StandsFor(a, BreakerOf(cfg, h, key), now) && StandsFor(a, Stored(cfg, h, key), now)
  }

  lemma {:induction false} RestoredStandsFor(cfg: Config, a: Breaker, h: Health, e: HealthEvent, maxFailures: int, key: string)
    requires e.Restart? && Simulated(cfg, a, h, key, e.at)
    ensures Simulated(cfg, a, HealthStep(cfg, maxFailures, h, e), key, e.at)
  {
  }

  lemma {:induction false} StepSimulated(cfg: Config, a: Breaker, h: Health, e: HealthEvent, maxFailures: int, key: string)
    requires Simulated(cfg, a, h, key, e.at)
    ensures Simulated(cfg, BreakerStep(cfg, a, e, key), HealthStep(cfg, maxFailures, h, e), key, e.at)
  {
    if e.Restart? {
      RestoredStandsFor(cfg, a, h, e, maxFailures, key);
    } else if e.Probe? && e.key == key {
      var b := BreakerOf(cfg, h, key);
      ProbedAlike(cfg, a, b, e.success, e.at);
      RecordStandsFor(Probed(cfg, a, e.success, e.at), Probed(cfg, b, e.success, e.at), Fresh(cfg), e.at);
    }
  }

  predicate InOrder(events: seq<HealthEvent>, now: real) {
    (forall i, j | 0 <= i < j < |events| :: events[i].at <= events[j].at) && forall e | e in events :: e.at <= now
  }

  /** Whatever restarts there were, a node's breaker stands for one that went through its events alone. */
  lemma {:induction false} RestartsSimulated(cfg: Config, maxFailures: int, events: seq<HealthEvent>, key: string, now: real)
    requires InOrder(events, now)
    ensures Simulated(cfg, Run(cfg, BreakerEvents(events, key)), HealthRun(cfg, maxFailures, events), key, now)
    decreases |events|
  {
    if events != [] {
      var e, front := events[|events| - 1], events[..|events| - 1];
      var a, h := Run(cfg, BreakerEvents(front, key)), HealthRun(cfg, maxFailures, front);
      assert e in events && forall x | x in front :: x in events;
      RestartsSimulated(cfg, maxFailures, front, key, e.at);
      StepSimulated(cfg, a, h, e, maxFailures, key);
      RunOfEvents(cfg, BreakerEvents(front, key), e, key);
      StandsLater(BreakerStep(cfg, a, e, key), BreakerOf(cfg, HealthStep(cfg, maxFailures, h, e), key), e.at, now);
      StandsLater(BreakerStep(cfg, a, e, key), Stored(cfg, HealthStep(cfg, maxFailures, h, e), key), e.at, now);
    }
  }

  // ---------------------------------------------------------------------------------------------
  // What can be seen of them

  /** The breaker as read or recorded after an event, and the permission if it was asked for. */
  datatype Answer = Answer(breaker: Record, allowed: Option<bool>)

  function AnswerTo(cfg: Config, h: Health, e: HealthEvent): Option<Answer> {
    match e
    case Probe(key, _, _, _, _) => Some(Answer(Persisted(BreakerOf(cfg, h, key)), None))
    case Read(key, _) => Some(Answer(Persisted(BreakerOf(cfg, h, key)), None))
    case Ask(key, _) => Some(Answer(Persisted(BreakerOf(cfg, h, key)), Some(Allows(cfg, BreakerOf(cfg, h, key)))))
    case Restart(_, _) => None
  }

  /** The same run without its restarts. */
  function Uninterrupted(events: seq<HealthEvent>): (r: seq<HealthEvent>)
    ensures forall e | e in r :: !e.Restart?
  {
    if events == [] then []
    else
      var e, front := events[|events| - 1], events[..|events| - 1];
      Uninterrupted(front) + if e.Restart? then [] else [e]
  }

  lemma {:induction false} HealthRunLast(cfg: Config, maxFailures: int, events: seq<HealthEvent>, e: HealthEvent)
    ensures HealthRun(cfg, maxFailures, events + [e]) == HealthStep(cfg, maxFailures, HealthRun(cfg, maxFailures, events), e)
  {
    assert (events + [e])[..|events|] == events;
  }

  lemma {:induction false} UninterruptedEvents(events: seq<HealthEvent>, key: string)
    ensures BreakerEvents(Uninterrupted(events), key) == BreakerEvents(events, key)
    decreases |events|
  {
    if events != [] {
      var e, front := events[|events| - 1], events[..|events| - 1];
      UninterruptedEvents(front, key);
      if e.Restart? {
        assert BreakerEvents(front, key) + [] == BreakerEvents(front, key);
        assert Uninterrupted(front) + [] == Uninterrupted(front);
      } else {
        assert (Uninterrupted(front) + [e])[..|Uninterrupted(front)|] == Uninterrupted(front);
      }
    }
  }

  lemma {:induction false} AllowedAlike(cfg: Config, a: Breaker, b: Breaker)
    requires RestartSafe(cfg) && Coherent(cfg, a) && SameButProbes(a, b)
    ensures Allows(cfg, a) == Allows(cfg, b)
  {
  }

  /** The last event of the run is answered as it would be without the restarts. */
  predicate SameAnswer(cfg: Config, maxFailures: int, events: seq<HealthEvent>)
    requires events != []
  {
    var e := events[|events| - 1];
    AnswerTo(cfg, HealthRun(cfg, maxFailures, events), e) == AnswerTo(cfg, HealthRun(cfg, maxFailures, Uninterrupted(events)), e)
  }

  lemma {:induction false} LastRead(cfg: Config, maxFailures: int, events: seq<HealthEvent>)
    requires events != [] && !events[|events| - 1].Restart?
    ensures var e := events[|events| - 1];
            var b := BreakerOf(cfg, HealthRun(cfg, maxFailures, events), e.key);
            Checked(b, e.at) == b
  {
  }

  lemma {:induction false} AnsweredAlike(cfg: Config, maxFailures: int, events: seq<HealthEvent>)
    requires events != [] && InOrder(events, events[|events| - 1].at)
    requires !events[|events| - 1].Ask? || RestartSafe(cfg)
    ensures SameAnswer(cfg, maxFailures, events)
  {
    var e, alone := events[|events| - 1], Uninterrupted(events);
    if !e.Restart? {
      var key := e.key;
      var a := Run(cfg, BreakerEvents(events, key));
      RestartsSimulated(cfg, maxFailures, events, key, e.at);
      UninterruptedEvents(events, key);
      BreakerFollowsEvents(cfg, maxFailures, alone, key);
      LastRead(cfg, maxFailures, events);
      LastRead(cfg, maxFailures, alone);
      EventsAreOrganic(events, key);
      AlwaysCoherent(cfg, BreakerEvents(events, key));
      if e.Ask? {
        AllowedAlike(cfg, a, BreakerOf(cfg, HealthRun(cfg, maxFailures, events), key));
      }
    }
  }

  /** Nothing that is read, recorded or answered on any run shows whether there were restarts. */
  ghost predicate RestartsUnseen(cfg: Config, maxFailures: int) {
    forall events: seq<HealthEvent> | events != [] && InOrder(events, events[|events| - 1].at) ::
      SameAnswer(cfg, maxFailures, events)
  }

  /** As long as no permission is asked for, nothing shows restarts, whatever the settings. */
  lemma {:induction false} UnaskedRestartsUnseen(cfg: Config, maxFailures: int, events: seq<HealthEvent>)
    requires events != [] && InOrder(events, events[|events| - 1].at) && !events[|events| - 1].Ask?
    ensures SameAnswer(cfg, maxFailures, events)
  {
    AnsweredAlike(cfg, maxFailures, events);
  }

  // ---------------------------------------------------------------------------------------------
  // A run that shows its restart

  /** Ready for its next half-open probe, `n` of which have succeeded. */
  predicate OnTrial(b: Breaker, at: real, n: nat) {
    var c := Checked(b, at);
    c.state == HalfOpen && c.halfOpenProbes == c.consecutiveSuccesses == n
  }

  function FailedAt(n: nat): seq<HealthEvent> {
    Repeat(Probe("node", 0.0, false, "", None), n)
  }

  function TrialAt(cfg: Config): real {
    if cfg.initialBackoff > 0.0 then cfg.initialBackoff else 0.0
  }

  lemma {:induction false} FailedProbe(cfg: Config, b: Breaker, n: nat)
    requires n < Max(1, cfg.failureThreshold) && Failing(cfg, b, n)
    ensures var b' := Probed(cfg, b, false, 0.0);
            if n + 1 < Max(1, cfg.failureThreshold) then Failing(cfg, b', n + 1) else OnTrial(b', TrialAt(cfg), 0)
  {
  }

  lemma {:induction false} BreakerProbed(cfg: Config, maxFailures: int, events: seq<HealthEvent>, e: HealthEvent)
    requires e.Probe?
    ensures BreakerOf(cfg, HealthRun(cfg, maxFailures, events + [e]), e.key)
            == Probed(cfg, BreakerOf(cfg, HealthRun(cfg, maxFailures, events), e.key), e.success, e.at)
  {
    HealthRunLast(cfg, maxFailures, events, e);
  }

  lemma {:induction false} Tripped(cfg: Config, maxFailures: int, n: nat)
    requires n <= Max(1, cfg.failureThreshold)
    ensures var b := BreakerOf(cfg, HealthRun(cfg, maxFailures, FailedAt(n)), "node");
            if n < Max(1, cfg.failureThreshold) then Failing(cfg, b, n) else OnTrial(b, TrialAt(cfg), 0)
  {
    if n > 0 {
      var e := Probe("node", 0.0, false, "", None);
      Tripped(cfg, maxFailures, n - 1);
      assert FailedAt(n) == FailedAt(n - 1) + [e];
      BreakerProbed(cfg, maxFailures, FailedAt(n - 1), e);
      FailedProbe(cfg, BreakerOf(cfg, HealthRun(cfg, maxFailures, FailedAt(n - 1)), "node"), n - 1);
    }
  }

  /** The breaker tripped, and `n` probes once its backoff is over. */
  function OnProbation(cfg: Config, n: nat): seq<HealthEvent> {
    FailedAt(Max(1, cfg.failureThreshold)) + Repeat(Probe("node", TrialAt(cfg), true, "", None), n)
  }

  lemma {:induction false} ProbesCounted(cfg: Config, maxFailures: int, n: nat)
    requires n < cfg.recoveryThreshold
    ensures var h := HealthRun(cfg, maxFailures, OnProbation(cfg, n));
            && OnTrial(BreakerOf(cfg, h, "node"), TrialAt(cfg), n)
            && (n > 0 ==> "node" in h.records && h.records["node"] == Persisted(BreakerOf(cfg, h, "node")))
  {
    var e := Probe("node", TrialAt(cfg), true, "", None);
    if n == 0 {
      Tripped(cfg, maxFailures, Max(1, cfg.failureThreshold));
      assert OnProbation(cfg, 0) == FailedAt(Max(1, cfg.failureThreshold));
    } else {
      ProbesCounted(cfg, maxFailures, n - 1);
      HealthRunLast(cfg, maxFailures, OnProbation(cfg, n - 1), e);
      assert OnProbation(cfg, n) == OnProbation(cfg, n - 1) + [e];
    }
  }

  lemma {:induction false} AskedOnTrial(cfg: Config, maxFailures: int, h: Health, at: real)
    requires 1 <= cfg.halfOpenMaxProbes && OnTrial(BreakerOf(cfg, h, "node"), at, cfg.halfOpenMaxProbes)
    ensures var ask := Ask("node", at);
            AnswerTo(cfg, HealthStep(cfg, maxFailures, h, ask), ask).value.allowed == Some(false)
  {
  }

  lemma {:induction false} AskedAfterRestart(cfg: Config, maxFailures: int, h: Health, at: real)
    requires 1 <= cfg.halfOpenMaxProbes && OnTrial(BreakerOf(cfg, h, "node"), at, cfg.halfOpenMaxProbes)
    requires "node" in h.records && h.records["node"] == Persisted(BreakerOf(cfg, h, "node"))
    ensures var ask := Ask("node", at);
            var h' := HealthStep(cfg, maxFailures, h, HealthEvent.Restart(at, true));
            AnswerTo(cfg, HealthStep(cfg, maxFailures, h', ask), ask).value.allowed == Some(true)
  {
    var h' := HealthStep(cfg, maxFailures, h, HealthEvent.Restart(at, true));
    assert BreakerOf(cfg, h', "node") == Restored(Fresh(cfg), h.records["node"]);
  }

  /** Outside the safe settings a restart hands out probes that were already used up. */
  lemma {:induction false} RestartSeen(cfg: Config, maxFailures: int)
    requires !RestartSafe(cfg)
    ensures !RestartsUnseen(cfg, maxFailures)
  {
    var t := TrialAt(cfg);
    var before := OnProbation(cfg, cfg.halfOpenMaxProbes);
    ProbesCounted(cfg, maxFailures, cfg.halfOpenMaxProbes);
    ProbationInOrder(cfg, cfg.halfOpenMaxProbes);
    RestartShows(cfg, maxFailures, before, t);
  }

  lemma {:induction false} ProbationInOrder(cfg: Config, n: nat)
    ensures InOrder(OnProbation(cfg, n), TrialAt(cfg)) && forall e | e in OnProbation(cfg, n) :: e.Probe?
  {
    var k, run := Max(1, cfg.failureThreshold), OnProbation(cfg, n);
    forall i | 0 <= i < |run| ensures run[i].at == if i < k then 0.0 else TrialAt(cfg) {
    }
  }

  lemma {:induction false} TwoMoreEvents(cfg: Config, maxFailures: int, before: seq<HealthEvent>, e: HealthEvent, f: HealthEvent)
    ensures HealthRun(cfg, maxFailures, before + [e] + [f])
            == HealthStep(cfg, maxFailures, HealthStep(cfg, maxFailures, HealthRun(cfg, maxFailures, before), e), f)
  {
    HealthRunLast(cfg, maxFailures, before, e);
    HealthRunLast(cfg, maxFailures, before + [e], f);
  }

  lemma {:induction false} DifferentAnswers(cfg: Config, maxFailures: int, events: seq<HealthEvent>)
    requires events != [] && InOrder(events, events[|events| - 1].at)
    requires AnswerTo(cfg, HealthRun(cfg, maxFailures, events), events[|events| - 1])
          != AnswerTo(cfg, HealthRun(cfg, maxFailures, Uninterrupted(events)), events[|events| - 1])
    ensures !RestartsUnseen(cfg, maxFailures)
  {
    assert !SameAnswer(cfg, maxFailures, events);
  }

  /** The answers once all half-open probes are used up, with a restart before the asking and without. */
  lemma {:induction false} AnswersDiffer(cfg: Config, maxFailures: int, h: Health, at: real)
    requires 1 <= cfg.halfOpenMaxProbes && OnTrial(BreakerOf(cfg, h, "node"), at, cfg.halfOpenMaxProbes)
    requires "node" in h.records && h.records["node"] == Persisted(BreakerOf(cfg, h, "node"))
    ensures var ask, restarted := Ask("node", at), HealthStep(cfg, maxFailures, h, HealthEvent.Restart(at, true));
            AnswerTo(cfg, HealthStep(cfg, maxFailures, restarted, ask), ask)
            != AnswerTo(cfg, HealthStep(cfg, maxFailures, h, ask), ask)
  {
    AskedOnTrial(cfg, maxFailures, h, at);
    AskedAfterRestart(cfg, maxFailures, h, at);
  }

  lemma {:induction false} RunsWithAndWithout(cfg: Config, maxFailures: int, before: seq<HealthEvent>, restart: HealthEvent,
                                              ask: HealthEvent)
    requires restart.Restart? && ask.Ask? && forall e | e in before :: !e.Restart?
    ensures var h, events := HealthRun(cfg, maxFailures, before), before + [restart] + [ask];
            && HealthRun(cfg, maxFailures, events) == HealthStep(cfg, maxFailures, HealthStep(cfg, maxFailures, h, restart), ask)
            && HealthRun(cfg, maxFailures, Uninterrupted(events)) == HealthStep(cfg, maxFailures, h, ask)
  {
    TwoMoreEvents(cfg, maxFailures, before, restart, ask);
    UninterruptedAsk(before, restart, ask);
    HealthRunLast(cfg, maxFailures, before, ask);
  }

  lemma {:induction false} RestartShows(cfg: Config, maxFailures: int, before: seq<HealthEvent>, at: real)
    requires 1 <= cfg.halfOpenMaxProbes && InOrder(before, at) && forall e | e in before :: !e.Restart?
    requires var h := HealthRun(cfg, maxFailures, before);
             && OnTrial(BreakerOf(cfg, h, "node"), at, cfg.halfOpenMaxProbes)
             && "node" in h.records && h.records["node"] == Persisted(BreakerOf(cfg, h, "node"))
    ensures !RestartsUnseen(cfg, maxFailures)
  {
    var restart, ask := HealthEvent.Restart(at, true), Ask("node", at);
    var events := before + [restart] + [ask];
    AnswersDiffer(cfg, maxFailures, HealthRun(cfg, maxFailures, before), at);
    RunsWithAndWithout(cfg, maxFailures, before, restart, ask);
    assert events[|events| - 1] == ask;
    DifferentAnswers(cfg, maxFailures, events);
  }

  lemma {:induction false} UninterruptedAll(events: seq<HealthEvent>)
    requires forall e | e in events :: !e.Restart?
    ensures Uninterrupted(events) == events
    decreases |events|
  {
    if events != [] {
      var front := events[..|events| - 1];
      assert events[|events| - 1] in events && forall e | e in front :: e in events;
      UninterruptedAll(front);
      assert events == front + [events[|events| - 1]];
    }
  }

  lemma {:induction false} UninterruptedAsk(before: seq<HealthEvent>, restart: HealthEvent, ask: HealthEvent)
    requires restart.Restart? && ask.Ask? && forall e | e in before :: !e.Restart?
    ensures Uninterrupted(before + [restart] + [ask]) == before + [ask]
  {
    UninterruptedAll(before);
    assert (before + [restart] + [ask])[..|before| + 1] == before + [restart];
    assert (before + [restart])[..|before|] == before;
  }

  /** Restarts that restore what the last probes left are invisible on all runs exactly when the recovery
      threshold does not exceed the half-open probe budget, or there is no such budget at all. */
  lemma {:induction false} RestartsUnseenExactly(cfg: Config, maxFailures: int)
    ensures RestartsUnseen(cfg, maxFailures) <==> RestartSafe(cfg)
  {
    if RestartSafe(cfg) {
      forall events: seq<HealthEvent> | events != [] && InOrder(events, events[|events| - 1].at)
        ensures SameAnswer(cfg, maxFailures, events)
      {
        AnsweredAlike(cfg, maxFailures, events);
      }
    } else {
      RestartSeen(cfg, maxFailures);
    }
  }
}
