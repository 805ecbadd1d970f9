/** The API rate limiter: a sliding-window log per key with a periodic background clean-up. */
module RateLimiting {
  import opened Common

  /** A limit string such as "60/minute", split at the slash; `Malformed` when that split or the count fails. */
  datatype Limit = Malformed | Parsed(count: int, period: string)

  function MaxRequests(limit: Limit): int {
    match limit
    case Malformed => 60
    case Parsed(count, _) => count
  }

  /** Window length in seconds; an unknown period means a minute. */
  function WindowSec(limit: Limit): (w: real)
    ensures w == 1.0 || w == 60.0 || w == 3600.0 || w == 86400.0
  {
    if limit == Malformed then 60.0
    else if limit.period == "second" then 1.0
    else if limit.period == "hour" then 3600.0
    else if limit.period == "day" then 86400.0
    else 60.0
  }

  const CLEANUP_INTERVAL := 60.0
  const CLEANUP_AGE := 3600.0

  /** What a caller is told: limited or not, how many requests remain, seconds to wait. */
  datatype Answer = Answer(limited: bool, remaining: int, retryAfter: int)

  /** Python's `int()` on a float: truncation toward zero. */
  function Trunc(x: real): int {
    if x >= 0.0 then x.Floor else -((-x).Floor)
  }

  /** The timestamps later than `bound`, in order. */
  function Recent(ts: seq<real>, bound: real): (r: seq<real>)
    ensures |r| <= |ts|
    ensures forall t | t in r :: t in ts && t > bound
  {
    if ts == [] then []
    else if ts[0] > bound then [ts[0]] + Recent(ts[1..], bound)
    else Recent(ts[1..], bound)
  }

  function Oldest(ts: seq<real>): (m: real)
    requires ts != []
    ensures m in ts
    ensures forall t | t in ts :: m <= t
  {
    if |ts| == 1 then ts[0]
    else
      var m := Oldest(ts[1..]);
      assert forall t | t in ts :: t == ts[0] || t in ts[1..];
      if ts[0] <= m then ts[0] else m
  }

  /** One call of `is_limited`, with the three clock readings the code makes along the way. */
  datatype Call = Call(key: string, limit: Limit, cleanupAt: real, checkAt: real, useAt: real)

  datatype Limiter = Limiter(entries: map<string, seq<real>>, lastCleanup: real)

  function Get(entries: map<string, seq<real>>, key: string): seq<real> {
    if key in entries then entries[key] else []
  }

  function Cleaned(l: Limiter, now: real): Limiter {
    if now - l.lastCleanup < CLEANUP_INTERVAL then l
    else
      Limiter(
        map k | k in l.entries && Recent(l.entries[k], now - CLEANUP_AGE) != []
          :: Recent(l.entries[k], now - CLEANUP_AGE),
        now)
  }

  /** The answer for a key that has `recent` admissions inside the window. */
  function Decide(recent: seq<real>, limit: Limit, useAt: real): Answer {
    var max := MaxRequests(limit);
    if |recent| >= max then
      Answer(true, Max(0, max - |recent|),
             if recent == [] then 1
             else Trunc(WindowSec(limit) - (useAt - Oldest(recent))) + 1)
    else
      Answer(false, Max(0, max - (|recent| + 1)), 0)
  }

  function Serve(l: Limiter, c: Call): (Limiter, Answer) {
    var clean := Cleaned(l, c.cleanupAt);
    var recent := Recent(Get(clean.entries, c.key), c.checkAt - WindowSec(c.limit));
    var answer := Decide(recent, c.limit, c.useAt);
    var kept := if answer.limited then recent else recent + [c.useAt];
    (clean.(entries := clean.entries[c.key := kept]), answer)
  }

  /** The reference: remembers every admission for ever. A call is limited when the admissions inside the
      window use up the count, it is told what they leave of it, its own included, and a limited one waits
      for the oldest of them to leave the window. */
  function ReferenceServe(history: map<string, seq<real>>, c: Call): (map<string, seq<real>>, Answer) {
    var from, max := c.checkAt - WindowSec(c.limit), MaxRequests(c.limit);
    var before := Recent(Get(history, c.key), from);
    if max - |before| <= 0 then
      (history, Answer(true, 0, if before == [] then 1 else Trunc(Oldest(before) + WindowSec(c.limit) - c.useAt) + 1))
    else
      (history[c.key := Get(history, c.key) + [c.useAt]], Answer(false, max - |before + [c.useAt]|, 0))
  }

  /** The mutable limiter, proved to compute `Serve`. */
  class RateLimiter {
    var limits: map<string, seq<real>>
    var lastCleanup: real

    constructor (now: real)
      ensures View() == Limiter(map[], now)
    {
      limits := map[];
      lastCleanup := now;
    }

    function View(): Limiter
      reads this
    {
      Limiter(limits, lastCleanup)
    }

    /** The loop over all keys: filters each log, and notes those left empty. */
    method FilterLogs(cutoff: real) returns (emptied: set<string>)
      modifies this`limits
      ensures limits.Keys == old(limits).Keys
      ensures forall k | k in limits :: limits[k] == Recent(old(limits)[k], cutoff)
      ensures emptied == set k | k in limits && limits[k] == []
    {
      var before := limits;
      var todo := limits.Keys;
      emptied := {};
      while todo != {}
        invariant todo <= before.Keys && limits.Keys == before.Keys
        invariant forall k | k in before :: limits[k] == if k in todo then before[k] else Recent(before[k], cutoff)
        invariant emptied == set k | k in limits && k !in todo && limits[k] == []
        decreases todo
      {
        var key :| key in todo;
        var kept := Recent(limits[key], cutoff);
        limits := limits[key := kept];
        todo := todo - {key};
        if kept == [] {
          emptied := emptied + {key};
        }
      }
    }

    method CleanupOldEntries(now: real)
      modifies this
      ensures View() == Cleaned(old(View()), now)
    {
      if now - lastCleanup < CLEANUP_INTERVAL {
        return;
      }
      lastCleanup := now;
      var keysToRemove := FilterLogs(now - CLEANUP_AGE);
      limits := limits - keysToRemove;
      assert limits == Cleaned(old(View()), now).entries;
    }

    method IsLimited(c: Call) returns (answer: Answer)
      modifies this
      ensures (View(), answer) == Serve(old(View()), c)
    {
      CleanupOldEntries(c.cleanupAt);
      ghost var clean := View();
      var max := MaxRequests(c.limit);
      var window := WindowSec(c.limit);
      if c.key !in limits {
        limits := limits[c.key := []];
      }
      limits := limits[c.key := Recent(limits[c.key], c.checkAt - window)];
      var count := |limits[c.key]|;
      assert limits == clean.entries[c.key := Recent(Get(clean.entries, c.key), c.checkAt - window)];
      if count >= max {
        var retryAfter := 1;
        if count > 0 {
          var oldest := Oldest(limits[c.key]);
          retryAfter := Trunc(window - (c.useAt - oldest)) + 1;
        }
        return Answer(true, Max(0, max - count), retryAfter);
      }
      limits := limits[c.key := limits[c.key] + [c.useAt]];
      assert limits == Serve(old(View()), c).0.entries;
      return Answer(false, Max(0, max - |limits[c.key]|), 0);
    }
  }

  // ---------------------------------------------------------------------------------------------
  // Runs

  /** Clock readings never go back, within a call and from one call to the next. */
  predicate Ordered(calls: seq<Call>, from: real) {
    calls == [] ||
    (var c := calls[0];
     from <= c.cleanupAt <= c.checkAt <= c.useAt && Ordered(calls[1..], c.useAt))
  }

  function Answers(l: Limiter, calls: seq<Call>): (r: seq<Answer>)
    ensures |r| == |calls|
    decreases |calls|
  {
    if calls == [] then []
    else var (l', a) := Serve(l, calls[0]); [a] + Answers(l', calls[1..])
  }

  function ReferenceAnswers(h: map<string, seq<real>>, calls: seq<Call>): (r: seq<Answer>)
    ensures |r| == |calls|
    decreases |calls|
  {
    if calls == [] then []
    else var (h', a) := ReferenceServe(h, calls[0]); [a] + ReferenceAnswers(h', calls[1..])
  }

  // ---------------------------------------------------------------------------------------------
  // Refinement

  lemma {:induction false} RecentRecent(ts: seq<real>, early: real, late: real)
    requires early <= late
    ensures Recent(Recent(ts, early), late) == Recent(ts, late)
  {
    if ts != [] {
      RecentRecent(ts[1..], early, late);
    }
  }

  lemma {:induction false} RecentAppend(a: seq<real>, b: seq<real>, bound: real)
    ensures Recent(a + b, bound) == Recent(a, bound) + Recent(b, bound)
  {
    if a == [] {
      assert a + b == b;
    } else {
      assert (a + b)[1..] == a[1..] + b;
      RecentAppend(a[1..], b, bound);
    }
  }

  /** One window length per key, as `windows` says. */
  predicate UsesWindows(calls: seq<Call>, windows: string -> real) {
    forall i | 0 <= i < |calls| :: WindowSec(calls[i].limit) == windows(calls[i].key)
  }

  /** At and after `now` the pruned log and the full history look the same through each key's window. */
  ghost predicate Agree(l: Limiter, h: map<string, seq<real>>, windows: string -> real, now: real) {
    forall k :: Recent(Get(l.entries, k), now - windows(k)) == Recent(Get(h, k), now - windows(k))
  }

  lemma {:induction false} AgreeLater(l: Limiter, h: map<string, seq<real>>, windows: string -> real, now: real, later: real)
    requires Agree(l, h, windows, now) && now <= later
    ensures Agree(l, h, windows, later)
  {
    forall k ensures Recent(Get(l.entries, k), later - windows(k)) == Recent(Get(h, k), later - windows(k)) {
      RecentRecent(Get(l.entries, k), now - windows(k), later - windows(k));
      RecentRecent(Get(h, k), now - windows(k), later - windows(k));
    }
  }

  lemma {:induction false} AgreeCleaned(l: Limiter, h: map<string, seq<real>>, windows: string -> real, now: real)
    requires Agree(l, h, windows, now)
    requires forall k :: windows(k) <= CLEANUP_AGE
    ensures Agree(Cleaned(l, now), h, windows, now)
  {
    forall k ensures Recent(Get(Cleaned(l, now).entries, k), now - windows(k)) == Recent(Get(h, k), now - windows(k)) {
      RecentRecent(Get(l.entries, k), now - CLEANUP_AGE, now - windows(k));
    }
  }

  /** Logs that agree through the window go on doing so when both admit the same call. */
  lemma {:induction false} AdmissionAgrees(mine: seq<real>, full: seq<real>, checkAt: real, useAt: real, w: real)
    requires checkAt <= useAt && Recent(mine, checkAt - w) == Recent(full, checkAt - w)
    ensures Recent(Recent(mine, checkAt - w), useAt - w) == Recent(full, useAt - w)
    ensures Recent(Recent(mine, checkAt - w) + [useAt], useAt - w) == Recent(full + [useAt], useAt - w)
  {
    RecentRecent(full, checkAt - w, useAt - w);
    RecentAppend(Recent(mine, checkAt - w), [useAt], useAt - w);
    RecentAppend(full, [useAt], useAt - w);
  }

  lemma {:induction false} SameAnswer(l: Limiter, h: map<string, seq<real>>, c: Call)
    requires var bound := c.checkAt - WindowSec(c.limit);
             Recent(Get(Cleaned(l, c.cleanupAt).entries, c.key), bound) == Recent(Get(h, c.key), bound)
    ensures Serve(l, c).1 == ReferenceServe(h, c).1
  {
  }

  lemma {:induction false} OwnLogServed(l: Limiter, c: Call)
    ensures var recent := Recent(Get(Cleaned(l, c.cleanupAt).entries, c.key), c.checkAt - WindowSec(c.limit));
            Get(Serve(l, c).0.entries, c.key) == if Serve(l, c).1.limited then recent else recent + [c.useAt]
  {
  }

  lemma {:induction false} OwnHistoryServed(h: map<string, seq<real>>, c: Call)
    ensures Get(ReferenceServe(h, c).0, c.key) ==
              if ReferenceServe(h, c).1.limited then Get(h, c.key) else Get(h, c.key) + [c.useAt]
  {
  }

  /** The key's own log. */
  lemma {:induction false} OwnLogAgrees(l: Limiter, h: map<string, seq<real>>, c: Call)
    requires c.checkAt <= c.useAt
    requires var bound := c.checkAt - WindowSec(c.limit);
             Recent(Get(Cleaned(l, c.cleanupAt).entries, c.key), bound) == Recent(Get(h, c.key), bound)
    ensures var bound := c.useAt - WindowSec(c.limit);
            Recent(Get(Serve(l, c).0.entries, c.key), bound) == Recent(Get(ReferenceServe(h, c).0, c.key), bound)
  {
    SameAnswer(l, h, c);
    OwnLogServed(l, c);
    OwnHistoryServed(h, c);
    AdmissionAgrees(Get(Cleaned(l, c.cleanupAt).entries, c.key), Get(h, c.key), c.checkAt, c.useAt, WindowSec(c.limit));
  }

  lemma {:induction false} OtherLogs(l: Limiter, h: map<string, seq<real>>, c: Call, key: string)
    requires key != c.key
    ensures Get(Serve(l, c).0.entries, key) == Get(Cleaned(l, c.cleanupAt).entries, key)
    ensures Get(ReferenceServe(h, c).0, key) == Get(h, key)
  {
  }

  lemma {:induction false} LogAgrees(l: Limiter, h: map<string, seq<real>>, windows: string -> real, now: real, key: string)
    requires Agree(l, h, windows, now)
    ensures Recent(Get(l.entries, key), now - windows(key)) == Recent(Get(h, key), now - windows(key))
  {
  }

  lemma {:induction false} AgreeCleanedLater(l: Limiter, h: map<string, seq<real>>, windows: string -> real, now: real,
                                             cleanupAt: real, later: real)
    requires Agree(l, h, windows, now) && forall k :: windows(k) <= CLEANUP_AGE
    requires now <= cleanupAt <= later
    ensures Agree(Cleaned(l, cleanupAt), h, windows, later)
  {
    AgreeLater(l, h, windows, now, cleanupAt);
    AgreeCleaned(l, h, windows, cleanupAt);
    AgreeLater(Cleaned(l, cleanupAt), h, windows, cleanupAt, later);
  }

  lemma {:induction false} AgreeServed(l: Limiter, h: map<string, seq<real>>, windows: string -> real, now: real, c: Call)
    requires Agree(l, h, windows, now)
    requires forall k :: windows(k) <= CLEANUP_AGE
    requires WindowSec(c.limit) == windows(c.key)
    requires now <= c.cleanupAt <= c.checkAt <= c.useAt
    ensures Serve(l, c).1 == ReferenceServe(h, c).1
    ensures Agree(Serve(l, c).0, ReferenceServe(h, c).0, windows, c.useAt)
  {
    var clean := Cleaned(l, c.cleanupAt);
    AgreeCleanedLater(l, h, windows, now, c.cleanupAt, c.checkAt);
    LogAgrees(clean, h, windows, c.checkAt, c.key);
    SameAnswer(l, h, c);
    OwnLogAgrees(l, h, c);
    AgreeCleanedLater(l, h, windows, now, c.cleanupAt, c.useAt);
    LogsAgreeServed(l, h, windows, c);
  }

  lemma {:induction false} LogsAgreeServed(l: Limiter, h: map<string, seq<real>>, windows: string -> real, c: Call)
    requires Agree(Cleaned(l, c.cleanupAt), h, windows, c.useAt)
    requires var l', h', bound := Serve(l, c).0, ReferenceServe(h, c).0, c.useAt - windows(c.key);
             Recent(Get(l'.entries, c.key), bound) == Recent(Get(h', c.key), bound)
    ensures Agree(Serve(l, c).0, ReferenceServe(h, c).0, windows, c.useAt)
  {
    var l', h' := Serve(l, c).0, ReferenceServe(h, c).0;
    forall k ensures Recent(Get(l'.entries, k), c.useAt - windows(k)) == Recent(Get(h', k), c.useAt - windows(k)) {
      if k != c.key {
        OtherLogs(l, h, c, k);
        LogAgrees(Cleaned(l, c.cleanupAt), h, windows, c.useAt, k);
      }
    }
  }

  lemma {:induction false} RefinementFrom(l: Limiter, h: map<string, seq<real>>, windows: string -> real,
                                          now: real, calls: seq<Call>)
    requires Agree(l, h, windows, now)
    requires forall k :: windows(k) <= CLEANUP_AGE
    requires UsesWindows(calls, windows) && Ordered(calls, now)
    ensures Answers(l, calls) == ReferenceAnswers(h, calls)
    decreases |calls|
  {
    if calls != [] {
      var c := calls[0];
      AgreeServed(l, h, windows, now, c);
      assert forall i | 0 <= i < |calls[1..]| :: calls[1..][i] == calls[i + 1];
      RefinementFrom(Serve(l, c).0, ReferenceServe(h, c).0, windows, c.useAt, calls[1..]);
    }
  }

  /** When every key keeps to one window of at most an hour, forgetting is invisible: every answer of
      every run is the one the limiter that never forgets gives. */
  lemma {:induction false} Refinement(start: real, windows: string -> real, calls: seq<Call>)
    requires forall k :: windows(k) <= CLEANUP_AGE
    requires UsesWindows(calls, windows) && Ordered(calls, start)
    ensures Answers(Limiter(map[], start), calls) == ReferenceAnswers(map[], calls)
  {
    RefinementFrom(Limiter(map[], start), map[], windows, start, calls);
  }

  // ---------------------------------------------------------------------------------------------
  // The reference history along a run

  function HistoryAfter(h: map<string, seq<real>>, calls: seq<Call>): map<string, seq<real>>
    decreases |calls|
  {
    if calls == [] then h else HistoryAfter(ReferenceServe(h, calls[0]).0, calls[1..])
  }

  lemma {:induction false} ReferenceAnswerAt(h: map<string, seq<real>>, calls: seq<Call>, i: nat)
    requires i < |calls|
    ensures ReferenceAnswers(h, calls)[i] == ReferenceServe(HistoryAfter(h, calls[..i]), calls[i]).1
    decreases i
  {
    if i > 0 {
      ReferenceAnswerAt(ReferenceServe(h, calls[0]).0, calls[1..], i - 1);
      assert calls[..i][1..] == calls[1..][..i - 1];
    }
  }

  lemma {:induction false} HistoryAfterAppend(h: map<string, seq<real>>, a: seq<Call>, b: seq<Call>)
    ensures HistoryAfter(h, a + b) == HistoryAfter(HistoryAfter(h, a), b)
    decreases |a|
  {
    if a == [] {
      assert a + b == b;
    } else {
      assert (a + b)[1..] == a[1..] + b;
      HistoryAfterAppend(ReferenceServe(h, a[0]).0, a[1..], b);
    }
  }

  lemma {:induction false} ReferencePrefix(h: map<string, seq<real>>, calls: seq<Call>, i: nat)
    requires i <= |calls|
    ensures ReferenceAnswers(h, calls)[..i] == ReferenceAnswers(h, calls[..i])
    decreases i
  {
    if i > 0 {
      var h' := ReferenceServe(h, calls[0]).0;
      ReferencePrefix(h', calls[1..], i - 1);
      assert calls[..i][1..] == calls[1..][..i - 1];
      assert ReferenceAnswers(h, calls)[1..] == ReferenceAnswers(h', calls[1..]);
      assert ReferenceAnswers(h, calls)[..i]
          == [ReferenceServe(h, calls[0]).1] + ReferenceAnswers(h, calls)[1..][..i - 1];
    }
  }

  lemma {:induction false} HistoryStep(h: map<string, seq<real>>, calls: seq<Call>, i: nat)
    requires i < |calls|
    ensures HistoryAfter(h, calls[..i + 1]) == ReferenceServe(HistoryAfter(h, calls[..i]), calls[i]).0
  {
    assert calls[..i + 1] == calls[..i] + [calls[i]] && [calls[i]][1..] == [];
    HistoryAfterAppend(h, calls[..i], [calls[i]]);
  }

  // ---------------------------------------------------------------------------------------------
  // No window is ever over-full

  /** How many timestamps lie in the half-open interval (after, upTo]. */
  function CountBetween(ts: seq<real>, after: real, upTo: real): nat {
    if ts == [] then 0
    else (if after < ts[0] <= upTo then 1 else 0) + CountBetween(ts[1..], after, upTo)
  }

  /** How many timestamps lie in the window of length `w` that ends at `x`. */
  function CountWindow(ts: seq<real>, w: real, x: real): nat {
    CountBetween(ts, x - w, x)
  }

  lemma {:induction false} CountBetweenRecent(ts: seq<real>, after: real, upTo: real, bound: real)
    requires bound <= after
    ensures CountBetween(ts, after, upTo) <= |Recent(ts, bound)|
    ensures bound == after && (forall t | t in ts :: t <= upTo) ==> CountBetween(ts, after, upTo) == |Recent(ts, bound)|
  {
    if ts != [] {
      CountBetweenRecent(ts[1..], after, upTo, bound);
      assert ts[0] in ts && forall t | t in ts[1..] :: t in ts;
    }
  }

  lemma {:induction false} CountBetweenAppend(a: seq<real>, b: seq<real>, after: real, upTo: real)
    ensures CountBetween(a + b, after, upTo) == CountBetween(a, after, upTo) + CountBetween(b, after, upTo)
  {
    if a == [] {
      assert a + b == b;
    } else {
      assert (a + b)[1..] == a[1..] + b;
      CountBetweenAppend(a[1..], b, after, upTo);
    }
  }

  /** Admissions of one key: none in the future, and no window of length `w` holds more than `cap`. */
  ghost predicate Bounded(ts: seq<real>, w: real, cap: nat, now: real) {
    && (forall t | t in ts :: t <= now)
    && (forall x: real :: CountWindow(ts, w, x) <= cap)
  }

  lemma {:induction false} BoundedServed(h: map<string, seq<real>>, c: Call, key: string, w: real, cap: nat, now: real)
    requires Bounded(Get(h, key), w, cap, now)
    requires now <= c.checkAt <= c.useAt
    requires c.key == key ==> WindowSec(c.limit) == w && MaxRequests(c.limit) <= cap
    ensures Bounded(Get(ReferenceServe(h, c).0, key), w, cap, c.useAt)
  {
    var (h', a) := ReferenceServe(h, c);
    if c.key == key && !a.limited {
      var ts := Get(h, key);
      forall x: real ensures CountWindow(Get(h', key), w, x) <= cap {
        assert CountWindow(ts, w, x) <= cap;
        CountBetweenAppend(ts, [c.useAt], x - w, x);
        if x >= c.useAt {
          CountBetweenRecent(ts, x - w, x, c.checkAt - w);
        }
      }
    }
  }

  lemma {:induction false} BoundedAfter(h: map<string, seq<real>>, calls: seq<Call>, key: string, w: real, cap: nat, now: real)
    requires Bounded(Get(h, key), w, cap, now)
    requires Ordered(calls, now)
    requires forall c | c in calls && c.key == key :: WindowSec(c.limit) == w && MaxRequests(c.limit) <= cap
    ensures Bounded(Get(HistoryAfter(h, calls), key), w, cap, if calls == [] then now else calls[|calls| - 1].useAt)
    decreases |calls|
  {
    if calls != [] {
      BoundedServed(h, calls[0], key, w, cap, now);
      BoundedAfter(ReferenceServe(h, calls[0]).0, calls[1..], key, w, cap, calls[0].useAt);
    }
  }

  /** The times at which `key` was let through. */
  function Admitted(calls: seq<Call>, answers: seq<Answer>, key: string): seq<real>
    requires |answers| == |calls|
  {
    if calls == [] then []
    else
      (if calls[0].key == key && !answers[0].limited then [calls[0].useAt] else [])
      + Admitted(calls[1..], answers[1..], key)
  }

  function AdmittedBy(h: map<string, seq<real>>, c: Call, key: string): seq<real> {
    if c.key == key && !ReferenceServe(h, c).1.limited then [c.useAt] else []
  }

  lemma {:induction false} HistoryServed(h: map<string, seq<real>>, c: Call, key: string)
    ensures Get(ReferenceServe(h, c).0, key) == Get(h, key) + AdmittedBy(h, c, key)
  {
  }

  lemma {:induction false} AdmittedFirst(h: map<string, seq<real>>, calls: seq<Call>, key: string)
    requires calls != []
    ensures var h' := ReferenceServe(h, calls[0]).0;
            Admitted(calls, ReferenceAnswers(h, calls), key)
            == AdmittedBy(h, calls[0], key) + Admitted(calls[1..], ReferenceAnswers(h', calls[1..]), key)
  {
    assert ReferenceAnswers(h, calls)[1..] == ReferenceAnswers(ReferenceServe(h, calls[0]).0, calls[1..]);
  }

  lemma {:induction false} AdmittedIsHistory(h: map<string, seq<real>>, calls: seq<Call>, key: string)
    ensures Get(HistoryAfter(h, calls), key) == Get(h, key) + Admitted(calls, ReferenceAnswers(h, calls), key)
    decreases |calls|
  {
    if calls != [] {
      AdmittedIsHistory(ReferenceServe(h, calls[0]).0, calls[1..], key);
      HistoryServed(h, calls[0], key);
      AdmittedFirst(h, calls, key);
    }
  }

  /** The admissions of `key` among the first `i` calls that lie in the window `c` looks through. */
  function InWindow(calls: seq<Call>, answers: seq<Answer>, i: nat, c: Call): seq<real>
    requires i <= |calls| == |answers|
  {
    Recent(Admitted(calls[..i], answers[..i], c.key), c.checkAt - WindowSec(c.limit))
  }

  lemma {:induction false} WindowIsHistory(calls: seq<Call>, i: nat, c: Call)
    requires i <= |calls|
    ensures InWindow(calls, ReferenceAnswers(map[], calls), i, c) ==
              Recent(Get(HistoryAfter(map[], calls[..i]), c.key), c.checkAt - WindowSec(c.limit))
  {
    ReferencePrefix(map[], calls, i);
    AdmittedIsHistory(map[], calls[..i], c.key);
    var ts := Admitted(calls[..i], ReferenceAnswers(map[], calls[..i]), c.key);
    assert [] + ts == ts;
  }

  /** The answer is the count: limited exactly when the admissions `before` use up the limit, and what remains
      is the limit less those `afterwards`. */
  predicate Counts(a: Answer, before: nat, afterwards: nat, max: int) {
    && (a.limited <==> before >= max)
    && a.remaining == Max(0, max - afterwards)
    && (!a.limited ==> a.retryAfter == 0)
  }

  lemma {:induction false} ServedCount(h: map<string, seq<real>>, c: Call)
    requires c.checkAt <= c.useAt
    ensures var (h', a) := ReferenceServe(h, c); var from := c.checkAt - WindowSec(c.limit);
            Counts(a, |Recent(Get(h, c.key), from)|, |Recent(Get(h', c.key), from)|, MaxRequests(c.limit))
  {
    RecentAppend(Get(h, c.key), [c.useAt], c.checkAt - WindowSec(c.limit));
  }

  lemma {:induction false} OrderedAt(calls: seq<Call>, start: real, i: nat)
    requires Ordered(calls, start) && i < |calls|
    ensures calls[i].checkAt <= calls[i].useAt
    decreases i
  {
    if i > 0 {
      OrderedAt(calls[1..], calls[0].useAt, i - 1);
    }
  }

  /** Answer `i` counts the admissions in the window before and after the call, its own among the latter. */
  predicate TellsCount(calls: seq<Call>, answers: seq<Answer>, i: nat)
    requires i < |calls| == |answers|
  {
    Counts(answers[i], |InWindow(calls, answers, i, calls[i])|, |InWindow(calls, answers, i + 1, calls[i])|,
           MaxRequests(calls[i].limit))
  }

  lemma {:induction false} WindowsTold(calls: seq<Call>, answers: seq<Answer>, i: nat)
    requires answers == ReferenceAnswers(map[], calls) && i < |calls|
    ensures var (h, c) := (HistoryAfter(map[], calls[..i]), calls[i]); var from := c.checkAt - WindowSec(c.limit);
            && answers[i] == ReferenceServe(h, c).1
            && InWindow(calls, answers, i, c) == Recent(Get(h, c.key), from)
            && InWindow(calls, answers, i + 1, c) == Recent(Get(ReferenceServe(h, c).0, c.key), from)
  {
    ReferenceAnswerAt(map[], calls, i);
    WindowIsHistory(calls, i, calls[i]);
    WindowIsHistory(calls, i + 1, calls[i]);
    HistoryStep(map[], calls, i);
  }

  lemma {:induction false} ReferenceTellsCount(calls: seq<Call>, answers: seq<Answer>, i: nat)
    requires answers == ReferenceAnswers(map[], calls) && i < |calls| && calls[i].checkAt <= calls[i].useAt
    ensures TellsCount(calls, answers, i)
  {
    WindowsTold(calls, answers, i);
    ServedCount(HistoryAfter(map[], calls[..i]), calls[i]);
  }

  /** Over every run, what a caller is told is a count of its own admissions, the one just made included. */
  lemma {:induction false} AnswersCountAdmissions(start: real, windows: string -> real, calls: seq<Call>, i: nat)
    requires forall k :: windows(k) <= CLEANUP_AGE
    requires UsesWindows(calls, windows) && Ordered(calls, start) && i < |calls|
    ensures TellsCount(calls, Answers(Limiter(map[], start), calls), i)
  {
    Refinement(start, windows, calls);
    OrderedAt(calls, start, i);
    ReferenceTellsCount(calls, Answers(Limiter(map[], start), calls), i);
  }

  /** For instance, in seconds: on a run under one limit by the second, minute or hour, a call is limited exactly
      when as many calls of its key as the limit names were let through within the last 1, 60 or 3600 seconds. */
  lemma {:induction false} LimitedByPeriod(start: real, calls: seq<Call>, count: int, period: string, sec: real, i: nat)
    requires (period, sec) in {("second", 1.0), ("minute", 60.0), ("hour", 3600.0)}
    requires (forall c | c in calls :: c.limit == Parsed(count, period)) && Ordered(calls, start) && i < |calls|
    ensures var answers := Answers(Limiter(map[], start), calls);
            answers[i].limited <==>
              |Recent(Admitted(calls[..i], answers[..i], calls[i].key), calls[i].checkAt - sec)| >= count
  {
    assert forall k | 0 <= k < |calls| :: calls[k] in calls;
    AnswersCountAdmissions(start, (_: string) => sec, calls, i);
  }

  /** Over every run, no interval as long as the key's window holds more admissions than the largest
      limit the key was called with. */
  lemma {:induction false} WindowNeverOverfull(start: real, windows: string -> real, calls: seq<Call>, key: string, cap: nat, x: real)
    requires forall k :: windows(k) <= CLEANUP_AGE
    requires UsesWindows(calls, windows) && Ordered(calls, start)
    requires forall c | c in calls && c.key == key :: MaxRequests(c.limit) <= cap
    ensures CountWindow(Admitted(calls, Answers(Limiter(map[], start), calls), key), windows(key), x) <= cap
  {
    Refinement(start, windows, calls);
    AdmittedIsHistory(map[], calls, key);
    BoundedAfter(map[], calls, key, windows(key), cap, start);
    var ts := Admitted(calls, ReferenceAnswers(map[], calls), key);
    assert [] + ts == ts;
    assert Get(HistoryAfter(map[], calls), key) == ts;
  }

  // ---------------------------------------------------------------------------------------------
  // Exactly when forgetting is invisible

  predicate DrawnFrom(calls: seq<Call>, limits: set<Limit>) {
    forall c | c in calls :: c.limit in limits
  }

  ghost predicate ForgettingInvisible(limits: set<Limit>) {
    forall start: real, calls: seq<Call> | Ordered(calls, start) && DrawnFrom(calls, limits) ::
      Answers(Limiter(map[], start), calls) == ReferenceAnswers(map[], calls)
  }

  /** Either nothing is ever admitted, or all limits share one window of at most an hour. */
  ghost predicate Harmless(limits: set<Limit>) {
    || (forall l | l in limits :: MaxRequests(l) <= 0)
    || (forall a, b | a in limits && b in limits :: WindowSec(a) == WindowSec(b) <= CLEANUP_AGE)
  }

  lemma {:induction false} NothingAdmitted(l: Limiter, h: map<string, seq<real>>, calls: seq<Call>)
    requires forall k :: Get(l.entries, k) == [] && Get(h, k) == []
    requires forall c | c in calls :: MaxRequests(c.limit) <= 0
    ensures Answers(l, calls) == ReferenceAnswers(h, calls)
    decreases |calls|
  {
    if calls != [] {
      var l', h' := Serve(l, calls[0]).0, ReferenceServe(h, calls[0]).0;
      forall k ensures Get(l'.entries, k) == [] && Get(h', k) == [] {
        assert Get(l.entries, k) == [];
      }
      NothingAdmitted(l', h', calls[1..]);
    }
  }

  lemma {:induction false} HarmlessIsInvisible(limits: set<Limit>)
    requires Harmless(limits)
    ensures ForgettingInvisible(limits)
  {
    forall start: real, calls: seq<Call> | Ordered(calls, start) && DrawnFrom(calls, limits)
      ensures Answers(Limiter(map[], start), calls) == ReferenceAnswers(map[], calls)
    {
      if forall l | l in limits :: MaxRequests(l) <= 0 {
        NothingAdmitted(Limiter(map[], start), map[], calls);
      } else if calls != [] {
        assert calls[0] in calls;
        var w := WindowSec(calls[0].limit);
        Refinement(start, (_: string) => w, calls);
      }
    }
  }

  /** A call of the key "k" whose clock readings all agree. */
  function At(limit: Limit, t: real): Call {
    Call("k", limit, t, t, t)
  }

  lemma {:induction false} ThirdAnswer(l: Limiter, a: Call, b: Call, c: Call)
    ensures Answers(l, [a, b, c])[2] == Serve(Serve(Serve(l, a).0, b).0, c).1
  {
    assert [a, b, c][1..] == [b, c] && [b, c][1..] == [c];
    var l1 := Serve(l, a).0;
    assert Answers(l, [a, b, c])[2] == Answers(l1, [b, c])[1] == Answers(Serve(l1, b).0, [c])[0];
  }

  lemma {:induction false} ThirdReferenceAnswer(h: map<string, seq<real>>, a: Call, b: Call, c: Call)
    ensures ReferenceAnswers(h, [a, b, c])[2] == ReferenceServe(ReferenceServe(ReferenceServe(h, a).0, b).0, c).1
  {
    assert [a, b, c][1..] == [b, c] && [b, c][1..] == [c];
    var h1 := ReferenceServe(h, a).0;
    assert ReferenceAnswers(h, [a, b, c])[2] == ReferenceAnswers(h1, [b, c])[1]
        == ReferenceAnswers(ReferenceServe(h1, b).0, [c])[0];
  }

  lemma {:induction false} ThreeOrdered(a: Call, b: Call, c: Call)
    requires Ordered([a], 0.0) && Ordered([b], a.useAt) && Ordered([c], b.useAt)
    ensures Ordered([a, b, c], 0.0)
  {
    assert [a, b, c][1..] == [b, c] && [b, c][1..] == [c] && [c][1..] == [];
    assert Ordered([b, c], a.useAt);
  }

  lemma {:induction false} FirstCall(limit: Limit)
    requires MaxRequests(limit) >= 1
    ensures Get(Serve(Limiter(map[], 0.0), At(limit, 0.0)).0.entries, "k") == [0.0]
    ensures Get(ReferenceServe(map[], At(limit, 0.0)).0, "k") == [0.0]
  {
  }

  /** A call at the end of its window makes the log, but not the history, forget the first admission. */
  lemma {:induction false} SecondCall(l: Limiter, h: map<string, seq<real>>, small: Limit)
    requires Get(l.entries, "k") == Get(h, "k") == [0.0]
    ensures var t := WindowSec(small);
            var late := if MaxRequests(small) >= 1 then [t] else [];
            && Get(Serve(l, At(small, t)).0.entries, "k") == late
            && Get(ReferenceServe(h, At(small, t)).0, "k") == [0.0] + late
  {
    assert Recent([0.0], 0.0) == [];
  }

  lemma {:induction false} ThirdCall(l: Limiter, h: map<string, seq<real>>, big: Limit, t: real, late: seq<real>)
    requires Get(l.entries, "k") == late && Get(h, "k") == [0.0] + late && 0.0 < t < WindowSec(big)
    requires late == [] || late == [t]
    requires MaxRequests(big) >= 1 || late == [t]
    ensures Serve(l, At(big, t)).1 != ReferenceServe(h, At(big, t)).1
  {
    assert ([0.0] + late)[0] == 0.0 && ([0.0] + late)[1..] == late;
    assert Recent([0.0] + late, t - WindowSec(big)) == [0.0] + late;
  }

  /** A first call, one at the end of the smaller window, and one that looks further back. */
  lemma {:induction false} TwoWindowsVisible(first: Limit, small: Limit, big: Limit)
    requires WindowSec(small) < WindowSec(big) && MaxRequests(first) >= 1
    requires MaxRequests(big) >= 1 || MaxRequests(small) >= 1
    ensures var t := WindowSec(small); var calls := [At(first, 0.0), At(small, t), At(big, t)];
            Ordered(calls, 0.0) && Answers(Limiter(map[], 0.0), calls) != ReferenceAnswers(map[], calls)
  {
    var t := WindowSec(small);
    var c0, c1, c2 := At(first, 0.0), At(small, t), At(big, t);
    FirstCall(first);
    var l1, h1 := Serve(Limiter(map[], 0.0), c0).0, ReferenceServe(map[], c0).0;
    SecondCall(l1, h1, small);
    ThirdCall(Serve(l1, c1).0, ReferenceServe(h1, c1).0, big, t, if MaxRequests(small) >= 1 then [t] else []);
    ThirdAnswer(Limiter(map[], 0.0), c0, c1, c2);
    ThirdReferenceAnswer(map[], c0, c1, c2);
    assert Ordered([c0], 0.0) && Ordered([c1], 0.0) && Ordered([c2], t);
    ThreeOrdered(c0, c1, c2);
  }

  lemma {:induction false} LongWindowVisible(limit: Limit)
    requires WindowSec(limit) > CLEANUP_AGE && MaxRequests(limit) >= 1
    ensures var calls := [At(limit, 0.0), At(limit, CLEANUP_AGE)];
            Ordered(calls, 0.0) && Answers(Limiter(map[], 0.0), calls) != ReferenceAnswers(map[], calls)
  {
    var c0, c1 := At(limit, 0.0), At(limit, CLEANUP_AGE);
    var l0 := Limiter(map[], 0.0);
    var h0: map<string, seq<real>> := map[];
    var l1, h1 := Serve(l0, c0).0, ReferenceServe(h0, c0).0;
    assert Get(l1.entries, "k") == Get(h1, "k") == [0.0];
    assert Cleaned(l1, CLEANUP_AGE).entries == map[];
    assert Serve(l1, c1).1 != ReferenceServe(h1, c1).1;
    assert [c0, c1][1..] == [c1];
    assert Answers(l0, [c0, c1])[1] == Serve(l1, c1).1;
    assert ReferenceAnswers(h0, [c0, c1])[1] == ReferenceServe(h1, c1).1;
  }

  lemma {:induction false} VisibleRun(limits: set<Limit>, calls: seq<Call>)
    requires Ordered(calls, 0.0) && DrawnFrom(calls, limits)
    requires Answers(Limiter(map[], 0.0), calls) != ReferenceAnswers(map[], calls)
    ensures !ForgettingInvisible(limits)
  {
  }

  lemma {:induction false} TwoWindowsAreVisible(limits: set<Limit>, busy: Limit, other: Limit)
    requires busy in limits && other in limits
    requires MaxRequests(busy) >= 1 && WindowSec(other) != WindowSec(busy)
    ensures !ForgettingInvisible(limits)
  {
    var small := if WindowSec(other) < WindowSec(busy) then other else busy;
    var big := if WindowSec(other) < WindowSec(busy) then busy else other;
    TwoWindowsVisible(busy, small, big);
    VisibleRun(limits, [At(busy, 0.0), At(small, WindowSec(small)), At(big, WindowSec(small))]);
  }

  /** The limiter answers like one that never forgets, on all runs over a set of limits, exactly when
      those limits admit nothing at all or share one window of at most an hour. */
  lemma {:induction false} ForgettingInvisibleExactly(limits: set<Limit>)
    ensures ForgettingInvisible(limits) <==> Harmless(limits)
  {
    if Harmless(limits) {
      HarmlessIsInvisible(limits);
    } else {
      var busy :| busy in limits && MaxRequests(busy) >= 1;
      if other :| other in limits && WindowSec(other) != WindowSec(busy) {
        TwoWindowsAreVisible(limits, busy, other);
      } else {
        LongWindowVisible(busy);
        VisibleRun(limits, [At(busy, 0.0), At(busy, CLEANUP_AGE)]);
      }
    }
  }
}
