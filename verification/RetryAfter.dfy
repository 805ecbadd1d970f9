/** When a caller that waits as long as it was told is let in. */
module RetryAfter {
  import opened Common
  import opened RateLimiting

  /** The value told to a rejected caller covers the oldest admission's remaining time and exceeds it
      by at most one second. */
  lemma {:induction false} RetryAfterTight(recent: seq<real>, limit: Limit, useAt: real)
    requires recent != [] && Decide(recent, limit, useAt).limited
    ensures var left := WindowSec(limit) - (useAt - Oldest(recent));
            var retry := Decide(recent, limit, useAt).retryAfter as real;
            left < retry <= (if left >= 0.0 then left else 0.0) + 1.0
  {
  }

  lemma {:induction false} RecentDrops(ts: seq<real>, bound: real, gone: real)
    requires gone in ts && gone <= bound
    ensures |Recent(ts, bound)| < |ts|
  {
    if ts[0] != gone {
      RecentDrops(ts[1..], bound, gone);
    }
  }

  lemma {:induction false} RecentAll(ts: seq<real>, bound: real)
    requires forall t | t in ts :: t > bound
    ensures Recent(ts, bound) == ts
  {
    if ts != [] {
      assert ts[0] in ts && forall t | t in ts[1..] :: t in ts;
      RecentAll(ts[1..], bound);
    }
  }

  lemma {:induction false} NoneRecent(ts: seq<real>, bound: real)
    requires forall t | t in ts :: t <= bound
    ensures Recent(ts, bound) == []
  {
    if ts != [] {
      assert ts[0] in ts && forall t | t in ts[1..] :: t in ts;
      NoneRecent(ts[1..], bound);
    }
  }

  // ---------------------------------------------------------------------------------------------
  // The limiter along a run

  ghost predicate ServedAt(states: seq<Limiter>, calls: seq<Call>, answers: seq<Answer>, i: nat)
    requires i < |calls| == |answers| && |states| == |calls| + 1
  {
    Serve(states[i], calls[i]) == (states[i + 1], answers[i])
  }

  /** The limiter's states and answers on a run. */
  ghost predicate Run(states: seq<Limiter>, calls: seq<Call>, answers: seq<Answer>) {
    && |answers| == |calls| && |states| == |calls| + 1
    && forall i | 0 <= i < |calls| :: ServedAt(states, calls, answers, i)
  }

  lemma {:induction false} RunOf(l: Limiter, calls: seq<Call>) returns (states: seq<Limiter>)
    ensures Run(states, calls, Answers(l, calls)) && states[0] == l
    decreases |calls|
  {
    states := [l];
    if calls != [] {
      var l', rest, answers := Serve(l, calls[0]).0, calls[1..], Answers(l, calls);
      var states' := RunOf(l', rest);
      states := [l] + states';
      assert answers[0] == Serve(l, calls[0]).1 && answers[1..] == Answers(l', rest);
      forall i | 0 <= i < |calls| ensures ServedAt(states, calls, answers, i) {
        if i > 0 {
          assert ServedAt(states', rest, Answers(l', rest), i - 1);
          assert answers[i] == answers[1..][i - 1] && calls[i] == rest[i - 1];
        }
      }
    }
  }

  function LogOf(l: Limiter, key: string): seq<real> {
    Get(l.entries, key)
  }

  /** The admissions a call counts. */
  function Seen(l: Limiter, c: Call): seq<real> {
    Recent(LogOf(Cleaned(l, c.cleanupAt), c.key), c.checkAt - WindowSec(c.limit))
  }

  lemma {:induction false} ServedOnSeen(l: Limiter, c: Call)
    ensures Serve(l, c).1 == Decide(Seen(l, c), c.limit, c.useAt)
    ensures LogOf(Serve(l, c).0, c.key) == if Serve(l, c).1.limited then Seen(l, c) else Seen(l, c) + [c.useAt]
    ensures forall key | key != c.key :: LogOf(Serve(l, c).0, key) == LogOf(Cleaned(l, c.cleanupAt), key)
    ensures Serve(l, c).0.lastCleanup == Cleaned(l, c.cleanupAt).lastCleanup
  {
  }

  lemma {:induction false} CleanedLog(l: Limiter, now: real, key: string)
    ensures LogOf(Cleaned(l, now), key) ==
            if now - l.lastCleanup < CLEANUP_INTERVAL then LogOf(l, key) else Recent(LogOf(l, key), now - CLEANUP_AGE)
  {
  }

  /** `a` is `base`, perhaps without its oldest times. */
  ghost predicate Thinned(a: seq<real>, base: seq<real>) {
    a == base || exists bound :: a == Recent(base, bound)
  }

  lemma {:induction false} ThinnedAgain(a: seq<real>, base: seq<real>, bound: real)
    requires Thinned(a, base)
    ensures Thinned(Recent(a, bound), base)
  {
    if a != base {
      var early :| a == Recent(base, early);
      if early <= bound {
        RecentRecent(base, early, bound);
      } else {
        RecentAll(a, bound);
      }
    }
  }

  lemma {:induction false} ThinnedDrops(a: seq<real>, base: seq<real>, bound: real, gone: real)
    requires Thinned(a, base) && gone in base && gone <= bound
    ensures |Recent(a, bound)| < |base|
  {
    if a == base {
      RecentDrops(base, bound, gone);
    } else {
      var early :| a == Recent(base, early);
      if early <= bound {
        RecentRecent(base, early, bound);
        RecentDrops(base, bound, gone);
      } else {
        RecentDrops(base, early, gone);
      }
    }
  }

  lemma {:induction false} ThinnedMembers(a: seq<real>, base: seq<real>)
    requires Thinned(a, base)
    ensures forall t | t in a :: t in base
  {
  }

  lemma {:induction false} CleanedThins(l: Limiter, now: real, key: string, base: seq<real>)
    requires Thinned(LogOf(l, key), base)
    ensures Thinned(LogOf(Cleaned(l, now), key), base)
  {
    CleanedLog(l, now, key);
    ThinnedAgain(LogOf(l, key), base, now - CLEANUP_AGE);
  }

  lemma {:induction false} QuietCallThins(l: Limiter, c: Call, l': Limiter, answer: Answer, key: string, base: seq<real>)
    requires Serve(l, c) == (l', answer) && Thinned(LogOf(l, key), base)
    requires c.key == key ==> answer.limited
    ensures Thinned(LogOf(l', key), base)
  {
    CleanedThins(l, c.cleanupAt, key, base);
    ServedOnSeen(l, c);
    if c.key == key {
      ThinnedAgain(LogOf(Cleaned(l, c.cleanupAt), key), base, c.checkAt - WindowSec(c.limit));
    }
  }

  /** Call `i` was rejected, and no request of its key got in from then to before call `j`. */
  predicate QuietFrom(calls: seq<Call>, answers: seq<Answer>, i: nat, j: nat)
    requires |answers| == |calls|
  {
    i < j <= |calls| && forall k | i <= k < j && calls[k].key == calls[i].key :: answers[k].limited
  }

  /** Call `j` is the rejected caller's next, and nobody else has been let in under the key meanwhile. */
  predicate Retries(calls: seq<Call>, answers: seq<Answer>, i: nat, j: nat)
    requires |answers| == |calls|
  {
    QuietFrom(calls, answers, i, j) && j < |calls| && calls[j].key == calls[i].key
  }

  lemma {:induction false} RejectedLog(l: Limiter, c: Call, l': Limiter, answer: Answer)
    requires Serve(l, c) == (l', answer) && answer.limited
    ensures LogOf(l', c.key) == Seen(l, c)
  {
    ServedOnSeen(l, c);
  }

  /** From the rejection on, the key's log only loses times. */
  lemma {:induction false} LogOnlyThins(states: seq<Limiter>, calls: seq<Call>, answers: seq<Answer>, i: nat, j: nat)
    requires Run(states, calls, answers) && QuietFrom(calls, answers, i, j)
    ensures Thinned(LogOf(states[j], calls[i].key), Seen(states[i], calls[i]))
    decreases j
  {
    assert ServedAt(states, calls, answers, j - 1);
    if i == j - 1 {
      RejectedLog(states[i], calls[i], states[j], answers[i]);
    } else {
      LogOnlyThins(states, calls, answers, i, j - 1);
      QuietCallThins(states[j - 1], calls[j - 1], states[j], answers[j - 1], calls[i].key, Seen(states[i], calls[i]));
    }
  }

  lemma {:induction false} DecidedOn(l: Limiter, c: Call, l': Limiter, answer: Answer)
    requires Serve(l, c) == (l', answer)
    ensures answer == Decide(Seen(l, c), c.limit, c.useAt)
  {
    ServedOnSeen(l, c);
  }

  function CleanLog(l: Limiter, c: Call): seq<real> {
    LogOf(Cleaned(l, c.cleanupAt), c.key)
  }

  /** What the returning caller is decided on: the rejected call's admissions, thinned, within its own window. */
  lemma {:induction false} DecidedOnThinned(states: seq<Limiter>, calls: seq<Call>, answers: seq<Answer>, i: nat, j: nat)
    requires Run(states, calls, answers) && Retries(calls, answers, i, j)
    ensures answers[i] == Decide(Seen(states[i], calls[i]), calls[i].limit, calls[i].useAt) && answers[i].limited
    ensures Thinned(CleanLog(states[j], calls[j]), Seen(states[i], calls[i]))
    ensures answers[j] == Decide(Recent(CleanLog(states[j], calls[j]), calls[j].checkAt - WindowSec(calls[j].limit)),
                                 calls[j].limit, calls[j].useAt)
  {
    assert ServedAt(states, calls, answers, i) && ServedAt(states, calls, answers, j);
    LogOnlyThins(states, calls, answers, i, j);
    CleanedThins(states[j], calls[j].cleanupAt, calls[j].key, Seen(states[i], calls[i]));
    DecidedOn(states[i], calls[i], states[i + 1], answers[i]);
    DecidedOn(states[j], calls[j], states[j + 1], answers[j]);
  }

  // ---------------------------------------------------------------------------------------------
  // One limit

  lemma {:induction false} CallWithinCap(l: Limiter, c: Call, l': Limiter, answer: Answer, key: string, cap: nat)
    requires Serve(l, c) == (l', answer) && |LogOf(l, key)| <= cap && (c.key == key ==> MaxRequests(c.limit) <= cap)
    ensures |LogOf(l', key)| <= cap
  {
    ServedOnSeen(l, c);
    CleanedLog(l, c.cleanupAt, key);
  }

  lemma {:induction false} LogWithinCap(states: seq<Limiter>, calls: seq<Call>, answers: seq<Answer>, n: nat, key: string, cap: nat)
    requires Run(states, calls, answers) && n <= |calls| && LogOf(states[0], key) == []
    requires forall c | c in calls && c.key == key :: MaxRequests(c.limit) <= cap
    ensures |LogOf(states[n], key)| <= cap
  {
    if n > 0 {
      LogWithinCap(states, calls, answers, n - 1, key, cap);
      assert ServedAt(states, calls, answers, n - 1) && calls[n - 1] in calls;
      CallWithinCap(states[n - 1], calls[n - 1], states[n], answers[n - 1], key, cap);
    }
  }

  /** The oldest counted admission is out of a window that ends once the caller has waited. */
  lemma {:induction false} WaitOutlastsOldest(base: seq<real>, c: Call, checkAt: real)
    requires base != [] && Decide(base, c.limit, c.useAt).limited
    requires checkAt >= c.useAt + Decide(base, c.limit, c.useAt).retryAfter as real
    ensures Oldest(base) < checkAt - WindowSec(c.limit)
  {
    RetryAfterTight(base, c.limit, c.useAt);
  }

  lemma {:induction false} RetryAdmitted(base: seq<real>, log: seq<real>, c: Call, a: Answer, d: Call, b: Answer)
    requires Thinned(log, base) && |base| <= MaxRequests(c.limit) && MaxRequests(c.limit) >= 1
    requires WindowSec(d.limit) == WindowSec(c.limit) && MaxRequests(d.limit) == MaxRequests(c.limit)
    requires a == Decide(base, c.limit, c.useAt) && a.limited && d.checkAt >= c.useAt + a.retryAfter as real
    requires b == Decide(Recent(log, d.checkAt - WindowSec(d.limit)), d.limit, d.useAt)
    ensures !b.limited
  {
    WaitOutlastsOldest(base, c, d.checkAt);
    ThinnedDrops(log, base, d.checkAt - WindowSec(d.limit), Oldest(base));
  }

  /** Every call of the key of `c` has a limit of the same count and window as `c`. */
  predicate OneLimit(calls: seq<Call>, c: Call) {
    forall d | d in calls && d.key == c.key ::
      MaxRequests(d.limit) == MaxRequests(c.limit) && WindowSec(d.limit) == WindowSec(c.limit)
  }

  lemma {:induction false} SameLimit(calls: seq<Call>, i: nat, j: nat)
    requires i < |calls| && j < |calls| && calls[j].key == calls[i].key && OneLimit(calls, calls[i])
    ensures MaxRequests(calls[j].limit) == MaxRequests(calls[i].limit)
    ensures WindowSec(calls[j].limit) == WindowSec(calls[i].limit)
  {
    assert calls[j] in calls;
  }

  /** With one limit no call counts more admissions than that. */
  lemma {:induction false} SeenWithinLimit(states: seq<Limiter>, calls: seq<Call>, answers: seq<Answer>, i: nat)
    requires Run(states, calls, answers) && i < |calls| && LogOf(states[0], calls[i].key) == []
    requires OneLimit(calls, calls[i]) && MaxRequests(calls[i].limit) >= 0
    ensures |Seen(states[i], calls[i])| <= MaxRequests(calls[i].limit)
  {
    LogWithinCap(states, calls, answers, i, calls[i].key, MaxRequests(calls[i].limit));
    CleanedLog(states[i], calls[i].cleanupAt, calls[i].key);
  }

  lemma {:induction false} RunRetrySuffices(states: seq<Limiter>, calls: seq<Call>, answers: seq<Answer>, i: nat, j: nat)
    requires Run(states, calls, answers) && Retries(calls, answers, i, j)
    requires |Seen(states[i], calls[i])| <= MaxRequests(calls[i].limit) && MaxRequests(calls[i].limit) >= 1
    requires MaxRequests(calls[j].limit) == MaxRequests(calls[i].limit) && WindowSec(calls[j].limit) == WindowSec(calls[i].limit)
    requires calls[j].checkAt >= calls[i].useAt + answers[i].retryAfter as real
    ensures !answers[j].limited
  {
    DecidedOnThinned(states, calls, answers, i, j);
    RetryAdmitted(Seen(states[i], calls[i]), CleanLog(states[j], calls[j]), calls[i], answers[i], calls[j], answers[j]);
  }

  /** For a key with one limit of at least one request, whatever its window and whatever the other keys do,
      a caller that comes back once the told wait is over is admitted. */
  lemma {:induction false} RetryAfterSuffices(start: real, calls: seq<Call>, answers: seq<Answer>, i: nat, j: nat)
    requires answers == Answers(Limiter(map[], start), calls) && Retries(calls, answers, i, j)
    requires OneLimit(calls, calls[i]) && MaxRequests(calls[i].limit) >= 1
    requires calls[j].checkAt >= calls[i].useAt + answers[i].retryAfter as real
    ensures !answers[j].limited
  {
    var states := RunOf(Limiter(map[], start), calls);
    SeenWithinLimit(states, calls, answers, i);
    SameLimit(calls, i, j);
    RunRetrySuffices(states, calls, answers, i, j);
  }

  // ---------------------------------------------------------------------------------------------
  // Windows of a second and of a day

  lemma {:induction false} OrderedPrefix(calls: seq<Call>, from: real, i: nat)
    requires Ordered(calls, from) && i <= |calls|
    ensures Ordered(calls[..i], from)
    ensures Ordered(calls[i..], if i == 0 then from else calls[i - 1].useAt)
    decreases i
  {
    if i > 0 {
      OrderedPrefix(calls[1..], calls[0].useAt, i - 1);
      assert calls[..i][1..] == calls[1..][..i - 1];
      assert calls[1..][i - 1..] == calls[i..];
    }
  }

  function TimeBefore(calls: seq<Call>, from: real, n: nat): real
    requires n <= |calls|
  {
    if n == 0 then from else calls[n - 1].useAt
  }

  lemma {:induction false} CallInOrder(calls: seq<Call>, from: real, n: nat)
    requires Ordered(calls, from) && n < |calls|
    ensures TimeBefore(calls, from, n) <= calls[n].cleanupAt <= calls[n].checkAt <= calls[n].useAt
  {
    OrderedPrefix(calls, from, n);
    assert calls[n..][0] == calls[n];
  }

  lemma {:induction false} CallsInOrder(calls: seq<Call>, from: real, i: nat, j: nat)
    requires Ordered(calls, from) && i < j < |calls|
    ensures calls[i].useAt <= calls[j].cleanupAt
  {
    CallInOrder(calls, from, j);
    if i + 1 < j {
      CallsInOrder(calls, from, i, j - 1);
      CallInOrder(calls, from, j - 1);
    }
  }

  /** All logged times are past, and the last clean-up left none older than an hour before it. */
  ghost predicate TimesFit(l: Limiter, key: string, now: real) {
    l.lastCleanup <= now && forall t | t in LogOf(l, key) :: l.lastCleanup - CLEANUP_AGE < t <= now
  }

  lemma {:induction false} CleanedFits(l: Limiter, key: string, now: real, later: real)
    requires TimesFit(l, key, now) && now <= later
    ensures TimesFit(Cleaned(l, later), key, later)
    ensures later - CLEANUP_INTERVAL < Cleaned(l, later).lastCleanup
    ensures forall t | t in LogOf(Cleaned(l, later), key) :: t <= now
  {
    CleanedLog(l, later, key);
  }

  lemma {:induction false} ServedFits(l: Limiter, c: Call, l': Limiter, answer: Answer, key: string, now: real)
    requires Serve(l, c) == (l', answer) && TimesFit(l, key, now) && now <= c.cleanupAt <= c.checkAt <= c.useAt
    ensures TimesFit(l', key, c.useAt)
  {
    CleanedFits(l, key, now, c.cleanupAt);
    ServedOnSeen(l, c);
  }

  lemma {:induction false} AlwaysFits(start: real, states: seq<Limiter>, calls: seq<Call>, answers: seq<Answer>, n: nat, key: string)
    requires Run(states, calls, answers) && states[0] == Limiter(map[], start) && Ordered(calls, start) && n <= |calls|
    ensures TimesFit(states[n], key, TimeBefore(calls, start, n))
  {
    if n > 0 {
      AlwaysFits(start, states, calls, answers, n - 1, key);
      CallInOrder(calls, start, n - 1);
      assert ServedAt(states, calls, answers, n - 1);
      ServedFits(states[n - 1], calls[n - 1], states[n], answers[n - 1], key, TimeBefore(calls, start, n - 1));
    }
  }

  /** The admissions a call finds came before it, and none much more than an hour before its clean-up. */
  predicate FoundTimes(log: seq<real>, c: Call) {
    forall t | t in log :: c.cleanupAt - CLEANUP_INTERVAL - CLEANUP_AGE < t <= c.cleanupAt
  }

  lemma {:induction false} FindsTimes(start: real, states: seq<Limiter>, calls: seq<Call>, answers: seq<Answer>, n: nat)
    requires Run(states, calls, answers) && states[0] == Limiter(map[], start) && Ordered(calls, start) && n < |calls|
    ensures FoundTimes(CleanLog(states[n], calls[n]), calls[n])
  {
    AlwaysFits(start, states, calls, answers, n, calls[n].key);
    CallInOrder(calls, start, n);
    CleanedFits(states[n], calls[n].key, TimeBefore(calls, start, n), calls[n].cleanupAt);
  }

  lemma {:induction false} SeenAmongFound(l: Limiter, c: Call)
    requires FoundTimes(CleanLog(l, c), c)
    ensures FoundTimes(Seen(l, c), c) && forall t | t in Seen(l, c) :: t > c.checkAt - WindowSec(c.limit)
  {
  }

  /** The caller comes back no sooner than it was told: its call begins when the wait is over. */
  predicate WaitedOut(calls: seq<Call>, answers: seq<Answer>, i: nat, j: nat)
    requires |answers| == |calls|
  {
    Retries(calls, answers, i, j) && calls[j].cleanupAt >= calls[i].useAt + answers[i].retryAfter as real
  }

  /** With a window of a second every told wait outlasts all admissions there were. */
  lemma {:induction false} SecondEmpties(base: seq<real>, log: seq<real>, c: Call, d: Call)
    requires WindowSec(c.limit) == 1.0 && Decide(base, c.limit, c.useAt).limited && Thinned(log, base)
    requires FoundTimes(base, c) && forall t | t in base :: t > c.checkAt - 1.0
    requires c.cleanupAt <= c.checkAt <= c.useAt <= d.checkAt
    requires d.checkAt >= c.useAt + Decide(base, c.limit, c.useAt).retryAfter as real
    ensures Recent(log, d.checkAt - 1.0) == []
  {
    if base != [] {
      RetryAfterTight(base, c.limit, c.useAt);
    }
    assert d.checkAt - 1.0 >= c.cleanupAt;
    ThinnedMembers(log, base);
    NoneRecent(log, d.checkAt - 1.0);
  }

  lemma {:induction false} HeadIsMember(ts: seq<real>)
    ensures ts != [] ==> ts[0] in ts
  {
  }

  /** With a window of a day it outlasts the clean-up that follows. */
  lemma {:induction false} DayEmpties(base: seq<real>, log: seq<real>, c: Call, d: Call)
    requires WindowSec(c.limit) == 86400.0 && Decide(base, c.limit, c.useAt).limited && Thinned(log, base)
    requires FoundTimes(base, c) && FoundTimes(log, d)
    requires base != [] && d.cleanupAt >= c.useAt + Decide(base, c.limit, c.useAt).retryAfter as real
    ensures log == []
  {
    RetryAfterTight(base, c.limit, c.useAt);
    assert d.cleanupAt > 86400.0 + Oldest(base);
    ThinnedMembers(log, base);
    HeadIsMember(log);
  }

  lemma {:induction false} DaysReliable(start: real, calls: seq<Call>, answers: seq<Answer>, i: nat, j: nat)
    requires answers == Answers(Limiter(map[], start), calls) && Ordered(calls, start) && WaitedOut(calls, answers, i, j)
    requires WindowSec(calls[i].limit) == WindowSec(calls[j].limit) == 86400.0
    requires MaxRequests(calls[i].limit) >= 1 && MaxRequests(calls[j].limit) >= 1
    ensures !answers[j].limited
  {
    var states := RunOf(Limiter(map[], start), calls);
    FindsTimes(start, states, calls, answers, i);
    FindsTimes(start, states, calls, answers, j);
    SeenAmongFound(states[i], calls[i]);
    DecidedOnThinned(states, calls, answers, i, j);
    DayEmpties(Seen(states[i], calls[i]), CleanLog(states[j], calls[j]), calls[i], calls[j]);
  }

  lemma {:induction false} SecondsReliable(start: real, calls: seq<Call>, answers: seq<Answer>, i: nat, j: nat)
    requires answers == Answers(Limiter(map[], start), calls) && Ordered(calls, start) && WaitedOut(calls, answers, i, j)
    requires WindowSec(calls[i].limit) == WindowSec(calls[j].limit) == 1.0
    requires MaxRequests(calls[j].limit) >= 1
    ensures !answers[j].limited
  {
    var states := RunOf(Limiter(map[], start), calls);
    FindsTimes(start, states, calls, answers, i);
    SeenAmongFound(states[i], calls[i]);
    CallInOrder(calls, start, i);
    CallInOrder(calls, start, j);
    CallsInOrder(calls, start, i, j);
    DecidedOnThinned(states, calls, answers, i, j);
    SecondEmpties(Seen(states[i], calls[i]), CleanLog(states[j], calls[j]), calls[i], calls[j]);
  }

  // ---------------------------------------------------------------------------------------------
  // Exactly when waiting as told is enough

  /** Every caller that waits as told is admitted, on every run over these limits. */
  ghost predicate RetryReliable(limits: set<Limit>) {
    forall start: real, calls: seq<Call>, i: nat, j: nat
      | Ordered(calls, start) && DrawnFrom(calls, limits)
        && WaitedOut(calls, Answers(Limiter(map[], start), calls), i, j) ::
      !Answers(Limiter(map[], start), calls)[j].limited
  }

  /** All limits admit something and share one window; unless that is a second or a day, all have one count. */
  ghost predicate Dependable(limits: set<Limit>) {
    && (forall a | a in limits :: MaxRequests(a) >= 1)
    && (forall a, b | a in limits && b in limits :: WindowSec(a) == WindowSec(b))
    && (forall a, b | a in limits && b in limits ::
          WindowSec(a) == 1.0 || WindowSec(a) == 86400.0 || MaxRequests(a) == MaxRequests(b))
  }

  lemma {:induction false} DependableIsReliable(limits: set<Limit>)
    requires Dependable(limits)
    ensures RetryReliable(limits)
  {
    forall start: real, calls: seq<Call>, i: nat, j: nat
      | Ordered(calls, start) && DrawnFrom(calls, limits)
        && WaitedOut(calls, Answers(Limiter(map[], start), calls), i, j)
      ensures !Answers(Limiter(map[], start), calls)[j].limited
    {
      var answers := Answers(Limiter(map[], start), calls);
      assert calls[i] in calls && calls[j] in calls;
      if WindowSec(calls[i].limit) == 1.0 {
        SecondsReliable(start, calls, answers, i, j);
      } else if WindowSec(calls[i].limit) == 86400.0 {
        DaysReliable(start, calls, answers, i, j);
      } else {
        CallInOrder(calls, start, j);
        RetryAfterSuffices(start, calls, answers, i, j);
      }
    }
  }

  lemma {:induction false} UnreliableRun(limits: set<Limit>, calls: seq<Call>, i: nat, j: nat)
    requires Ordered(calls, 0.0) && DrawnFrom(calls, limits)
    requires WaitedOut(calls, Answers(Limiter(map[], 0.0), calls), i, j)
    requires Answers(Limiter(map[], 0.0), calls)[j].limited
    ensures !RetryReliable(limits)
  {
  }

  /** A limit that admits nothing never lets the waiting caller in. */
  lemma {:induction false} ClosedLimitUnreliable(limits: set<Limit>, limit: Limit)
    requires limit in limits && MaxRequests(limit) <= 0
    ensures !RetryReliable(limits)
  {
    var c, d := At(limit, 0.0), At(limit, 1.0);
    var calls := [c, d];
    assert calls[1..] == [d] && [d][1..] == [];
    var l := Limiter(map[], 0.0);
    var answers := Answers(l, calls);
    assert answers[0] == Serve(l, c).1 && answers[1] == Answers(Serve(l, c).0, [d])[0];
    UnreliableRun(limits, calls, 0, 1);
  }

  // ---------------------------------------------------------------------------------------------
  // Runs on which a told wait is too short

  function LimiterAfter(l: Limiter, calls: seq<Call>): Limiter
    decreases |calls|
  {
    if calls == [] then l else LimiterAfter(Serve(l, calls[0]).0, calls[1..])
  }

  lemma {:induction false} AnswerAt(l: Limiter, calls: seq<Call>, i: nat)
    requires i < |calls|
    ensures Answers(l, calls)[i] == Serve(LimiterAfter(l, calls[..i]), calls[i]).1
    ensures LimiterAfter(l, calls[..i + 1]) == Serve(LimiterAfter(l, calls[..i]), calls[i]).0
    decreases i
  {
    assert calls[..i + 1][1..] == calls[1..][..i];
    if i > 0 {
      AnswerAt(Serve(l, calls[0]).0, calls[1..], i - 1);
      assert calls[..i][1..] == calls[1..][..i - 1];
    } else {
      assert calls[..0] == [] && calls[..1][0] == calls[0] && calls[..1][1..] == [];
    }
  }

  lemma {:induction false} LimiterAfterAppend(l: Limiter, a: seq<Call>, b: seq<Call>)
    ensures LimiterAfter(l, a + b) == LimiterAfter(LimiterAfter(l, a), b)
    decreases |a|
  {
    if a == [] {
      assert a + b == b;
    } else {
      assert (a + b)[0] == a[0] && (a + b)[1..] == a[1..] + b;
      LimiterAfterAppend(Serve(l, a[0]).0, a[1..], b);
    }
  }

  lemma {:induction false} BurstOrdered(c: Call, n: nat, rest: seq<Call>, from: real)
    requires Ordered([c], from) && c.cleanupAt == c.useAt && Ordered(rest, c.useAt)
    ensures Ordered(Repeat(c, n) + rest, if n == 0 then c.useAt else from)
    decreases n
  {
    if n == 0 {
      assert Repeat(c, 0) + rest == rest;
    } else {
      BurstOrdered(c, n - 1, rest, c.useAt);
      assert (Repeat(c, n) + rest)[0] == c;
      assert (Repeat(c, n) + rest)[1..] == Repeat(c, n - 1) + rest;
    }
  }

  /** All of `ts` is younger than `age` at `t`. */
  predicate Younger(ts: seq<real>, t: real, age: real) {
    forall x | x in ts :: x > t - age
  }

  /** A call counts all of a log that is young enough for its window and for the clean-up. */
  lemma {:induction false} SeesAll(l: Limiter, limit: Limit, t: real)
    requires Younger(LogOf(l, "k"), t, WindowSec(limit))
    requires t - l.lastCleanup < CLEANUP_INTERVAL || Younger(LogOf(l, "k"), t, CLEANUP_AGE)
    ensures Seen(l, At(limit, t)) == LogOf(l, "k")
  {
    CleanedLog(l, t, "k");
    if t - l.lastCleanup >= CLEANUP_INTERVAL {
      RecentAll(LogOf(l, "k"), t - CLEANUP_AGE);
    }
    RecentAll(LogOf(l, "k"), t - WindowSec(limit));
  }

  lemma {:induction false} Burst(l: Limiter, limit: Limit, t: real, n: nat)
    requires Younger(LogOf(l, "k"), t, WindowSec(limit)) && Younger(LogOf(l, "k"), t, CLEANUP_AGE)
    requires |LogOf(l, "k")| + n <= MaxRequests(limit)
    ensures LogOf(LimiterAfter(l, Repeat(At(limit, t), n)), "k") == LogOf(l, "k") + Repeat(t, n)
    ensures l.lastCleanup == t ==> LimiterAfter(l, Repeat(At(limit, t), n)).lastCleanup == t
    decreases n
  {
    if n > 0 {
      var c, ts := At(limit, t), LogOf(l, "k");
      SeesAll(l, limit, t);
      ServedOnSeen(l, c);
      var l' := Serve(l, c).0;
      assert LogOf(l', "k") == ts + [t];
      Burst(l', limit, t, n - 1);
      assert Repeat(c, n)[0] == c && Repeat(c, n)[1..] == Repeat(c, n - 1);
      assert (ts + [t]) + Repeat(t, n - 1) == ts + Repeat(t, n);
    }
  }

  /** Three calls after a run. */
  lemma {:induction false} ThreeMore(l: Limiter, calls: seq<Call>, a: Call, b: Call, c: Call)
    ensures var all, n, l0 := calls + [a, b, c], |calls|, LimiterAfter(l, calls);
            && Answers(l, all)[n] == Serve(l0, a).1
            && Answers(l, all)[n + 1] == Serve(Serve(l0, a).0, b).1
            && Answers(l, all)[n + 2] == Serve(Serve(Serve(l0, a).0, b).0, c).1
  {
    var all, n := calls + [a, b, c], |calls|;
    assert all[..n] == calls;
    AnswerAt(l, all, n);
    AnswerAt(l, all, n + 1);
    AnswerAt(l, all, n + 2);
  }

  /** `n` calls at `t`, and three more. */
  lemma {:induction false} RunOrdered(first: Call, n: nat, a: Call, b: Call, c: Call)
    requires n > 0 && Ordered([first], 0.0) && first.cleanupAt == first.useAt
    requires Ordered([a], first.useAt) && Ordered([b], a.useAt) && Ordered([c], b.useAt)
    ensures Ordered(Repeat(first, n) + [a, b, c], 0.0)
  {
    assert [a, b, c][1..] == [b, c] && [b, c][1..] == [c] && [c][1..] == [];
    assert Ordered([c], b.useAt) && Ordered([b, c], a.useAt);
    BurstOrdered(first, n, [a, b, c], 0.0);
  }

  // Two windows

  /** A full burst, a rejection under the smaller window, some other caller just before that is over, and the
      rejected caller's return under the bigger window. */
  function TwoWindowsRun(full: Limit, small: Limit, big: Limit): seq<Call>
    requires MaxRequests(full) >= 1
  {
    var t := WindowSec(small);
    Repeat(At(full, 0.0), MaxRequests(full)) + [At(small, 0.0), At(small, t - 0.5).(key := "other"), At(big, t + 1.0)]
  }

  lemma {:induction false} OldestOfBurst(t: real, n: nat)
    requires n > 0
    ensures Repeat(t, n) != [] && Oldest(Repeat(t, n)) == t
  {
  }

  lemma {:induction false} RejectedAtOnce(l: Limiter, small: Limit, n: nat)
    requires LogOf(l, "k") == Repeat(0.0, n) && l.lastCleanup == 0.0 && 1 <= MaxRequests(small) <= n
    ensures var (l', answer) := Serve(l, At(small, 0.0));
            answer.limited && answer.retryAfter as real == WindowSec(small) + 1.0
            && LogOf(l', "k") == Repeat(0.0, n) && l'.lastCleanup == 0.0
  {
    SeesAll(l, small, 0.0);
    ServedOnSeen(l, At(small, 0.0));
    OldestOfBurst(0.0, n);
  }

  lemma {:induction false} OtherCallerPasses(l: Limiter, small: Limit, n: nat)
    requires LogOf(l, "k") == Repeat(0.0, n) && l.lastCleanup == 0.0 && WindowSec(small) <= CLEANUP_AGE
    ensures var l' := Serve(l, At(small, WindowSec(small) - 0.5).(key := "other")).0;
            && LogOf(l', "k") == Repeat(0.0, n)
            && (l'.lastCleanup == 0.0 || l'.lastCleanup == WindowSec(small) - 0.5)
            && (WindowSec(small) == CLEANUP_AGE ==> l'.lastCleanup == WindowSec(small) - 0.5)
  {
    var t := WindowSec(small) - 0.5;
    CleanedLog(l, t, "k");
    RecentAll(Repeat(0.0, n), t - CLEANUP_AGE);
    ServedOnSeen(l, At(small, t).(key := "other"));
  }

  lemma {:induction false} ReturnRejected(l: Limiter, small: Limit, big: Limit, n: nat)
    requires LogOf(l, "k") == Repeat(0.0, n) && 1 <= MaxRequests(big) <= n && WindowSec(small) < WindowSec(big)
    requires l.lastCleanup == 0.0 || l.lastCleanup == WindowSec(small) - 0.5
    requires WindowSec(small) == CLEANUP_AGE ==> l.lastCleanup == WindowSec(small) - 0.5
    ensures Serve(l, At(big, WindowSec(small) + 1.0)).1.limited
  {
    SeesAll(l, big, WindowSec(small) + 1.0);
    ServedOnSeen(l, At(big, WindowSec(small) + 1.0));
  }

  /** The three calls after the burst. */
  lemma {:induction false} TwoWindowsTail(l: Limiter, small: Limit, big: Limit, n: nat)
    requires LogOf(l, "k") == Repeat(0.0, n) && l.lastCleanup == 0.0 && WindowSec(small) < WindowSec(big)
    requires 1 <= MaxRequests(small) <= n && 1 <= MaxRequests(big) <= n
    ensures var t := WindowSec(small);
            var (l1, a) := Serve(l, At(small, 0.0));
            var l2 := Serve(l1, At(small, t - 0.5).(key := "other")).0;
            a.limited && a.retryAfter as real == t + 1.0 && Serve(l2, At(big, t + 1.0)).1.limited
  {
    RejectedAtOnce(l, small, n);
    var l1 := Serve(l, At(small, 0.0)).0;
    OtherCallerPasses(l1, small, n);
    ReturnRejected(Serve(l1, At(small, WindowSec(small) - 0.5).(key := "other")).0, small, big, n);
  }

  lemma {:induction false} FullBurst(full: Limit)
    requires MaxRequests(full) >= 1
    ensures var l := LimiterAfter(Limiter(map[], 0.0), Repeat(At(full, 0.0), MaxRequests(full)));
            LogOf(l, "k") == Repeat(0.0, MaxRequests(full)) && l.lastCleanup == 0.0
  {
    var l := Limiter(map[], 0.0);
    Burst(l, full, 0.0, MaxRequests(full));
    assert LogOf(l, "k") + Repeat(0.0, MaxRequests(full)) == Repeat(0.0, MaxRequests(full));
  }

  lemma {:induction false} TwoWindowsAnswers(full: Limit, small: Limit, big: Limit)
    requires WindowSec(small) < WindowSec(big)
    requires 1 <= MaxRequests(small) <= MaxRequests(full) && 1 <= MaxRequests(big) <= MaxRequests(full)
    ensures var n, answers := MaxRequests(full), Answers(Limiter(map[], 0.0), TwoWindowsRun(full, small, big));
            |answers| == n + 3 && answers[n].limited && answers[n].retryAfter as real == WindowSec(small) + 1.0
            && answers[n + 2].limited
  {
    var n, t, l := MaxRequests(full), WindowSec(small), Limiter(map[], 0.0);
    var burst := Repeat(At(full, 0.0), n);
    FullBurst(full);
    TwoWindowsTail(LimiterAfter(l, burst), small, big, n);
    ThreeMore(l, burst, At(small, 0.0), At(small, t - 0.5).(key := "other"), At(big, t + 1.0));
  }

  lemma {:induction false} TwoWindowsCalls(full: Limit, small: Limit, big: Limit)
    requires MaxRequests(full) >= 1
    ensures var n, t, calls := MaxRequests(full), WindowSec(small), TwoWindowsRun(full, small, big);
            && |calls| == n + 3 && calls[n] == At(small, 0.0) && calls[n + 1].key == "other" && calls[n + 2] == At(big, t + 1.0)
            && (forall c | c in calls :: c.limit == full || c.limit == small || c.limit == big)
            && Ordered(calls, 0.0)
  {
    var n, t := MaxRequests(full), WindowSec(small);
    RunOrdered(At(full, 0.0), n, At(small, 0.0), At(small, t - 0.5).(key := "other"), At(big, t + 1.0));
  }

  lemma {:induction false} TwoWindowsUnreliable(limits: set<Limit>, small: Limit, big: Limit)
    requires small in limits && big in limits && WindowSec(small) < WindowSec(big)
    requires MaxRequests(small) >= 1 && MaxRequests(big) >= 1
    ensures !RetryReliable(limits)
  {
    var full := if MaxRequests(small) >= MaxRequests(big) then small else big;
    var n, calls := MaxRequests(full), TwoWindowsRun(full, small, big);
    TwoWindowsAnswers(full, small, big);
    TwoWindowsCalls(full, small, big);
    UnreliableRun(limits, calls, n, n + 2);
  }

  // Two counts

  /** One admission, and a burst half a window later that fills the larger limit. */
  function TwoCountsBurst(hi: Limit, half: real): seq<Call>
    requires MaxRequests(hi) >= 1
  {
    [At(hi, 0.0)] + Repeat(At(hi, half), MaxRequests(hi) - 1)
  }

  /** Then a call under the smaller limit, and that caller again as soon as it was told to come back. */
  function TwoCountsRun(lo: Limit, hi: Limit, half: real): seq<Call>
    requires MaxRequests(hi) >= 1
  {
    TwoCountsBurst(hi, half) + [At(lo, half), At(lo, half + half + 1.0)]
  }

  predicate HalfWindow(lo: Limit, hi: Limit, half: real) {
    && WindowSec(lo) == WindowSec(hi) == half + half && (half == 30.0 || half == 1800.0)
    && 1 <= MaxRequests(lo) < MaxRequests(hi)
  }

  lemma {:induction false} TwoCountsOrdered(lo: Limit, hi: Limit, half: real)
    requires HalfWindow(lo, hi, half)
    ensures Ordered(TwoCountsRun(lo, hi, half), 0.0)
  {
    var burst, rest := Repeat(At(hi, half), MaxRequests(hi) - 1), [At(lo, half), At(lo, half + half + 1.0)];
    assert rest[1..] == [At(lo, half + half + 1.0)] && rest[1..][1..] == [];
    BurstOrdered(At(hi, half), MaxRequests(hi) - 1, rest, 0.0);
    assert TwoCountsRun(lo, hi, half)[1..] == burst + rest;
  }

  lemma {:induction false} FirstLog(hi: Limit)
    requires MaxRequests(hi) >= 1
    ensures LogOf(LimiterAfter(Limiter(map[], 0.0), [At(hi, 0.0)]), "k") == [0.0]
  {
    var l := Limiter(map[], 0.0);
    Burst(l, hi, 0.0, 1);
    assert Repeat(At(hi, 0.0), 1) == [At(hi, 0.0)] && LogOf(l, "k") + Repeat(0.0, 1) == [0.0];
  }

  lemma {:induction false} BurstOnFirst(l: Limiter, hi: Limit, half: real)
    requires LogOf(l, "k") == [0.0] && MaxRequests(hi) >= 1 && 0.0 <= half < WindowSec(hi) && half < CLEANUP_AGE
    ensures LogOf(LimiterAfter(l, Repeat(At(hi, half), MaxRequests(hi) - 1)), "k") == [0.0] + Repeat(half, MaxRequests(hi) - 1)
  {
    Burst(l, hi, half, MaxRequests(hi) - 1);
  }

  lemma {:induction false} TwoCountsLog(lo: Limit, hi: Limit, half: real)
    requires HalfWindow(lo, hi, half)
    ensures LogOf(LimiterAfter(Limiter(map[], 0.0), TwoCountsBurst(hi, half)), "k") == [0.0] + Repeat(half, MaxRequests(hi) - 1)
  {
    var l, first := Limiter(map[], 0.0), [At(hi, 0.0)];
    FirstLog(hi);
    BurstOnFirst(LimiterAfter(l, first), hi, half);
    LimiterAfterAppend(l, first, Repeat(At(hi, half), MaxRequests(hi) - 1));
  }

  lemma {:induction false} OldestIsFirst(first: real, rest: seq<real>)
    requires forall t | t in rest :: first <= t
    ensures Oldest([first] + rest) == first
  {
    assert ([first] + rest)[0] == first;
  }

  lemma {:induction false} RejectedHalfway(l: Limiter, lo: Limit, hi: Limit, half: real, n: nat)
    requires HalfWindow(lo, hi, half) && LogOf(l, "k") == [0.0] + Repeat(half, n) && n + 1 >= MaxRequests(lo)
    ensures var (l', answer) := Serve(l, At(lo, half));
            answer.limited && answer.retryAfter as real == half + 1.0 && LogOf(l', "k") == [0.0] + Repeat(half, n)
  {
    SeesAll(l, lo, half);
    ServedOnSeen(l, At(lo, half));
    OldestIsFirst(0.0, Repeat(half, n));
  }

  /** When it is back, the first admission is gone and the burst is not. */
  lemma {:induction false} BurstStays(l: Limiter, lo: Limit, hi: Limit, half: real, n: nat)
    requires HalfWindow(lo, hi, half) && LogOf(l, "k") == [0.0] + Repeat(half, n)
    ensures Seen(l, At(lo, half + half + 1.0)) == Repeat(half, n)
  {
    var ts, now := [0.0] + Repeat(half, n), half + half + 1.0;
    CleanedLog(l, now, "k");
    RecentAll(Repeat(half, n), now - CLEANUP_AGE);
    RecentAll(Repeat(half, n), 1.0);
    assert ts[0] == 0.0 && ts[1..] == Repeat(half, n);
  }

  /** The two calls after the burst. */
  lemma {:induction false} TwoCountsTail(l: Limiter, lo: Limit, hi: Limit, half: real, n: nat)
    requires HalfWindow(lo, hi, half) && LogOf(l, "k") == [0.0] + Repeat(half, n) && n >= MaxRequests(lo)
    ensures var (l1, a) := Serve(l, At(lo, half));
            a.limited && a.retryAfter as real == half + 1.0 && Serve(l1, At(lo, half + half + 1.0)).1.limited
  {
    RejectedHalfway(l, lo, hi, half, n);
    var l1 := Serve(l, At(lo, half)).0;
    BurstStays(l1, lo, hi, half, n);
    ServedOnSeen(l1, At(lo, half + half + 1.0));
  }

  lemma {:induction false} TwoMore(l: Limiter, calls: seq<Call>, a: Call, b: Call)
    ensures var all, n, l0 := calls + [a, b], |calls|, LimiterAfter(l, calls);
            Answers(l, all)[n] == Serve(l0, a).1 && Answers(l, all)[n + 1] == Serve(Serve(l0, a).0, b).1
  {
    var all, n := calls + [a, b], |calls|;
    assert all[..n] == calls;
    AnswerAt(l, all, n);
    AnswerAt(l, all, n + 1);
  }

  lemma {:induction false} TwoCountsAnswers(lo: Limit, hi: Limit, half: real)
    requires HalfWindow(lo, hi, half)
    ensures var n, answers := MaxRequests(hi), Answers(Limiter(map[], 0.0), TwoCountsRun(lo, hi, half));
            |answers| == n + 2 && answers[n].limited && answers[n].retryAfter as real == half + 1.0 && answers[n + 1].limited
  {
    var burst := TwoCountsBurst(hi, half);
    TwoCountsLog(lo, hi, half);
    TwoCountsTail(LimiterAfter(Limiter(map[], 0.0), burst), lo, hi, half, MaxRequests(hi) - 1);
    TwoMore(Limiter(map[], 0.0), burst, At(lo, half), At(lo, half + half + 1.0));
  }

  lemma {:induction false} TwoCountsUnreliable(limits: set<Limit>, lo: Limit, hi: Limit)
    requires lo in limits && hi in limits && WindowSec(lo) == WindowSec(hi) && 1 <= MaxRequests(lo) < MaxRequests(hi)
    requires WindowSec(lo) != 1.0 && WindowSec(lo) != 86400.0
    ensures !RetryReliable(limits)
  {
    var half, n := WindowSec(lo) / 2.0, MaxRequests(hi);
    var calls := TwoCountsRun(lo, hi, half);
    TwoCountsOrdered(lo, hi, half);
    TwoCountsAnswers(lo, hi, half);
    assert calls[n] == At(lo, half) && calls[n + 1] == At(lo, half + half + 1.0);
    assert DrawnFrom(calls, limits);
    UnreliableRun(limits, calls, n, n + 1);
  }

  /** For every set of limits: a told wait is enough on all runs exactly when all the limits admit something
      and share one window, and, unless that is a second or a day, allow the same number of requests.  (The
      service keys by client and path, while the limit also depends on the HTTP method, so one key does meet
      two limits.) */
  lemma {:induction false} RetryReliableExactly(limits: set<Limit>)
    ensures RetryReliable(limits) <==> Dependable(limits)
  {
    if Dependable(limits) {
      DependableIsReliable(limits);
    } else if a :| a in limits && MaxRequests(a) <= 0 {
      ClosedLimitUnreliable(limits, a);
    } else if a, b :| a in limits && b in limits && WindowSec(a) < WindowSec(b) {
      TwoWindowsUnreliable(limits, a, b);
    } else {
      var a, b :| a in limits && b in limits && MaxRequests(a) < MaxRequests(b);
      TwoCountsUnreliable(limits, a, b);
    }
  }
}
