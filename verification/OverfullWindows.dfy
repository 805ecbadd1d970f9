/** For which limits no window ever holds more admissions than the largest of them allows. */
module OverfullWindows {
  import opened Common
  import opened RateLimiting
  import opened RetryAfter

  function LetIn(l: Limiter, c: Call, key: string): seq<real> {
    if c.key == key && !Serve(l, c).1.limited then [c.useAt] else []
  }

  /** The admissions of a key, call by call. */
  function LetThrough(l: Limiter, calls: seq<Call>, key: string): seq<real>
    decreases |calls|
  {
    if calls == [] then [] else LetIn(l, calls[0], key) + LetThrough(Serve(l, calls[0]).0, calls[1..], key)
  }

  lemma {:induction false} LetThroughAreAdmitted(l: Limiter, calls: seq<Call>, key: string)
    ensures LetThrough(l, calls, key) == Admitted(calls, Answers(l, calls), key)
    decreases |calls|
  {
    if calls != [] {
      var l' := Serve(l, calls[0]).0;
      LetThroughAreAdmitted(l', calls[1..], key);
      assert Answers(l, calls)[1..] == Answers(l', calls[1..]);
    }
  }

  /** In the run `calls`, no more than `cap` admissions of `key` lie in the window of `limit` that ends at `x`. */
  predicate Within(start: real, calls: seq<Call>, key: string, limit: Limit, cap: nat, x: real) {
    CountWindow(Admitted(calls, Answers(Limiter(map[], start), calls), key), WindowSec(limit), x) <= cap
  }

  predicate Caps(limits: set<Limit>, cap: int) {
    forall l | l in limits :: MaxRequests(l) <= cap
  }

  /** On every run over these limits, no interval as long as one of their windows holds more admissions of a key
      than the largest of them allows. */
  ghost predicate NeverOverfull(limits: set<Limit>) {
    forall start: real, calls: seq<Call>, key: string, limit: Limit, cap: nat, x: real
      | Ordered(calls, start) && DrawnFrom(calls, limits) && limit in limits && Caps(limits, cap) ::
      Within(start, calls, key, limit, cap, x)
  }

  lemma {:induction false} NobodyLetThrough(l: Limiter, calls: seq<Call>, key: string)
    requires forall c | c in calls :: MaxRequests(c.limit) <= 0
    ensures LetThrough(l, calls, key) == []
    decreases |calls|
  {
    if calls != [] {
      var l' := Serve(l, calls[0]).0;
      assert calls[0] in calls;
      NobodyLetThrough(l', calls[1..], key);
    }
  }

  lemma {:induction false} HarmlessNeverOverfull(limits: set<Limit>)
    requires Harmless(limits)
    ensures NeverOverfull(limits)
  {
    forall start: real, calls: seq<Call>, key: string, limit: Limit, cap: nat, x: real
      | Ordered(calls, start) && DrawnFrom(calls, limits) && limit in limits && Caps(limits, cap)
      ensures Within(start, calls, key, limit, cap, x)
    {
      if forall l | l in limits :: MaxRequests(l) <= 0 {
        NobodyLetThrough(Limiter(map[], start), calls, key);
        LetThroughAreAdmitted(Limiter(map[], start), calls, key);
      } else {
        var w := WindowSec(limit);
        WindowNeverOverfull(start, (_: string) => w, calls, key, cap, x);
      }
    }
  }

  // ---------------------------------------------------------------------------------------------
  // Runs that overfill a window

  lemma {:induction false} LetThroughAppend(l: Limiter, a: seq<Call>, b: seq<Call>, key: string)
    ensures LetThrough(l, a + b, key) == LetThrough(l, a, key) + LetThrough(LimiterAfter(l, a), b, key)
    decreases |a|
  {
    if a == [] {
      assert a + b == b;
    } else {
      var l', one := Serve(l, a[0]).0, LetIn(l, a[0], key);
      assert (a + b)[0] == a[0] && (a + b)[1..] == a[1..] + b;
      LetThroughAppend(l', a[1..], b, key);
      assert LetThrough(l, a + b, key) == one + LetThrough(l', a[1..] + b, key);
    }
  }

  lemma {:induction false} BurstLetThrough(l: Limiter, limit: Limit, t: real, n: nat)
    requires Younger(LogOf(l, "k"), t, WindowSec(limit)) && Younger(LogOf(l, "k"), t, CLEANUP_AGE)
    requires |LogOf(l, "k")| + n <= MaxRequests(limit)
    ensures LetThrough(l, Repeat(At(limit, t), n), "k") == Repeat(t, n)
    decreases n
  {
    if n > 0 {
      var c := At(limit, t);
      var calls, l' := Repeat(c, n), Serve(l, c).0;
      SeesAll(l, limit, t);
      ServedOnSeen(l, c);
      assert LogOf(l', "k") == LogOf(l, "k") + [t];
      assert calls[0] == c && calls[1..] == Repeat(c, n - 1);
      BurstLetThrough(l', limit, t, n - 1);
    }
  }

  lemma {:induction false} CountsRepeated(t: real, n: nat, after: real, upTo: real)
    requires after < t <= upTo
    ensures CountBetween(Repeat(t, n), after, upTo) == n
  {
    if n > 0 {
      assert Repeat(t, n)[1..] == Repeat(t, n - 1);
      CountsRepeated(t, n - 1, after, upTo);
    }
  }

  lemma {:induction false} BurstAndOne(n: nat, at: real, w: real)
    requires 0.0 <= at < w
    ensures CountWindow(Repeat(0.0, n) + [at], w, at) == n + 1
  {
    CountsRepeated(0.0, n, at - w, at);
    CountBetweenAppend(Repeat(0.0, n), [at], at - w, at);
    assert [at][1..] == [];
  }

  lemma {:induction false} OverfullRun(limits: set<Limit>, calls: seq<Call>, w: Limit, cap: nat, at: real)
    requires Ordered(calls, 0.0) && DrawnFrom(calls, limits) && w in limits && Caps(limits, cap)
    requires CountWindow(LetThrough(Limiter(map[], 0.0), calls, "k"), WindowSec(w), at) > cap
    ensures !NeverOverfull(limits)
  {
    LetThroughAreAdmitted(Limiter(map[], 0.0), calls, "k");
    assert !Within(0.0, calls, "k", w, cap, at);
  }

  lemma {:induction false} FullBurstLetThrough(full: Limit, rest: seq<Call>)
    requires MaxRequests(full) >= 1
    ensures var l, burst := Limiter(map[], 0.0), Repeat(At(full, 0.0), MaxRequests(full));
            LetThrough(l, burst + rest, "k") == Repeat(0.0, MaxRequests(full)) + LetThrough(LimiterAfter(l, burst), rest, "k")
  {
    var l := Limiter(map[], 0.0);
    BurstLetThrough(l, full, 0.0, MaxRequests(full));
    LetThroughAppend(l, Repeat(At(full, 0.0), MaxRequests(full)), rest, "k");
  }

  /** After a burst that uses up the largest limit, one more admission within a window of the burst is too many. */
  lemma {:induction false} OneTooMany(limits: set<Limit>, full: Limit, rest: seq<Call>, w: Limit, at: real)
    requires full in limits && w in limits && DrawnFrom(rest, limits) && Ordered(rest, 0.0)
    requires MaxRequests(full) >= 1 && Caps(limits, MaxRequests(full))
    requires 0.0 <= at < WindowSec(w)
    requires LetThrough(LimiterAfter(Limiter(map[], 0.0), Repeat(At(full, 0.0), MaxRequests(full))), rest, "k") == [at]
    ensures !NeverOverfull(limits)
  {
    var n := MaxRequests(full);
    var calls := Repeat(At(full, 0.0), n) + rest;
    FullBurstLetThrough(full, rest);
    BurstAndOne(n, at, WindowSec(w));
    BurstOrdered(At(full, 0.0), n, rest, 0.0);
    assert DrawnFrom(calls, limits);
    OverfullRun(limits, calls, w, n, at);
  }

  /** A call once its own window, or the clean-up, has left nothing of the burst is let through. */
  lemma {:induction false} NothingLeft(l: Limiter, limit: Limit, t: real, n: nat)
    requires LogOf(l, "k") == Repeat(0.0, n) && l.lastCleanup == 0.0
    requires t >= WindowSec(limit) || t == CLEANUP_AGE
    ensures Seen(l, At(limit, t)) == []
  {
    CleanedLog(l, t, "k");
    NoneRecent(Repeat(0.0, n), 0.0);
    NoneRecent(LogOf(Cleaned(l, t), "k"), t - WindowSec(limit));
  }

  lemma {:induction false} OneLetThrough(l: Limiter, limit: Limit, t: real)
    requires Seen(l, At(limit, t)) == [] && MaxRequests(limit) >= 1
    ensures LetThrough(l, [At(limit, t)], "k") == [t]
  {
    var c := At(limit, t);
    ServedOnSeen(l, c);
    assert [c][1..] == [];
  }

  /** A rejected call that empties the log, and one more. */
  lemma {:induction false} SecondLetThrough(l: Limiter, closed: Limit, limit: Limit, t: real)
    requires Seen(l, At(closed, t)) == [] && MaxRequests(closed) <= 0 && MaxRequests(limit) >= 1
    ensures LetThrough(l, [At(closed, t), At(limit, t)], "k") == [t]
  {
    var c, d := At(closed, t), At(limit, t);
    var l' := Serve(l, c).0;
    ServedOnSeen(l, c);
    CleanedLog(l', t, "k");
    assert Seen(l', d) == [];
    OneLetThrough(l', limit, t);
    assert [c, d][1..] == [d];
  }

  lemma {:induction false} LongerOverfills(limits: set<Limit>, full: Limit, other: Limit)
    requires full in limits && other in limits && WindowSec(other) > WindowSec(full)
    requires MaxRequests(full) >= 1 && Caps(limits, MaxRequests(full))
    ensures !NeverOverfull(limits)
  {
    var l := LimiterAfter(Limiter(map[], 0.0), Repeat(At(full, 0.0), MaxRequests(full)));
    FullBurst(full);
    NothingLeft(l, full, WindowSec(full), MaxRequests(full));
    OneLetThrough(l, full, WindowSec(full));
    OneTooMany(limits, full, [At(full, WindowSec(full))], other, WindowSec(full));
  }

  lemma {:induction false} ShorterOverfills(limits: set<Limit>, full: Limit, other: Limit)
    requires full in limits && other in limits && WindowSec(other) < WindowSec(full)
    requires MaxRequests(full) >= 1 && Caps(limits, MaxRequests(full)) && MaxRequests(other) >= 1
    ensures !NeverOverfull(limits)
  {
    var l := LimiterAfter(Limiter(map[], 0.0), Repeat(At(full, 0.0), MaxRequests(full)));
    FullBurst(full);
    NothingLeft(l, other, WindowSec(other), MaxRequests(full));
    OneLetThrough(l, other, WindowSec(other));
    OneTooMany(limits, full, [At(other, WindowSec(other))], full, WindowSec(other));
  }

  lemma {:induction false} ClosedOverfills(limits: set<Limit>, full: Limit, other: Limit)
    requires full in limits && other in limits && WindowSec(other) < WindowSec(full)
    requires MaxRequests(full) >= 1 && Caps(limits, MaxRequests(full)) && MaxRequests(other) <= 0
    ensures !NeverOverfull(limits)
  {
    var l := LimiterAfter(Limiter(map[], 0.0), Repeat(At(full, 0.0), MaxRequests(full)));
    var t := WindowSec(other);
    FullBurst(full);
    NothingLeft(l, other, t, MaxRequests(full));
    SecondLetThrough(l, other, full, t);
    assert [At(other, t), At(full, t)][1..] == [At(full, t)];
    OneTooMany(limits, full, [At(other, t), At(full, t)], full, t);
  }

  lemma {:induction false} LongWindowOverfills(limits: set<Limit>, full: Limit)
    requires full in limits && WindowSec(full) > CLEANUP_AGE
    requires MaxRequests(full) >= 1 && Caps(limits, MaxRequests(full))
    ensures !NeverOverfull(limits)
  {
    FullBurst(full);
    var l := LimiterAfter(Limiter(map[], 0.0), Repeat(At(full, 0.0), MaxRequests(full)));
    NothingLeft(l, full, CLEANUP_AGE, MaxRequests(full));
    OneLetThrough(l, full, CLEANUP_AGE);
    OneTooMany(limits, full, [At(full, CLEANUP_AGE)], full, CLEANUP_AGE);
  }

  lemma {:induction false} Largest(limits: set<Limit>) returns (full: Limit)
    requires limits != {}
    ensures full in limits && Caps(limits, MaxRequests(full))
    decreases limits
  {
    var l :| l in limits;
    full := l;
    if limits - {l} != {} {
      var rest := Largest(limits - {l});
      full := if MaxRequests(rest) >= MaxRequests(l) then rest else l;
      forall x | x in limits ensures MaxRequests(x) <= MaxRequests(full) {
        assert x == l || x in limits - {l};
      }
    } else {
      assert limits == {l};
    }
  }

  /** The bound holds for exactly the limits over which forgetting is invisible. */
  lemma {:induction false} NeverOverfullExactly(limits: set<Limit>)
    ensures NeverOverfull(limits) <==> Harmless(limits)
  {
    if Harmless(limits) {
      HarmlessNeverOverfull(limits);
    } else {
      var full := Largest(limits);
      if other :| other in limits && WindowSec(other) != WindowSec(full) {
        if WindowSec(other) > WindowSec(full) {
          LongerOverfills(limits, full, other);
        } else if MaxRequests(other) >= 1 {
          ShorterOverfills(limits, full, other);
        } else {
          ClosedOverfills(limits, full, other);
        }
      } else {
        LongWindowOverfills(limits, full);
      }
    }
  }
}
