/** The probe window: a bounded deque that also forgets by age, lazily. */
module SlidingWindows {
  import opened Common
  import opened Sorting

  datatype Sample = Sample(at: real, success: bool, latency: Option<int>)

  /** `deque(maxlen=n)` keeps the last `n`. */
  function LastN(s: seq<Sample>, n: nat): seq<Sample> {
    if |s| > n then s[|s| - n..] else s
  }

  function DropOld(s: seq<Sample>, cutoff: real): seq<Sample> {
    if s != [] && s[0].at < cutoff then DropOld(s[1..], cutoff) else s
  }

  /** The age bound of a window read at `now`; none when ageing is off. */
  function Cutoff(maxAgeHours: real, now: real): Option<real> {
    if maxAgeHours <= 0.0 then None else Some(now - maxAgeHours * 3600.0)
  }

  function Pruned(s: seq<Sample>, maxAgeHours: real, now: real): seq<Sample> {
    var cutoff := Cutoff(maxAgeHours, now);
    if cutoff.None? then s else DropOld(s, cutoff.value)
  }

  function Latencies(s: seq<Sample>): (r: seq<int>)
    ensures |r| <= |s|
  {
    if s == [] then []
    else (if s[0].latency.Some? then [s[0].latency.value] else []) + Latencies(s[1..])
  }

  function Leq(): (int, int) -> bool {
    (a: int, b: int) => a <= b
  }

  function Index(count: nat, percentile: nat): (i: int)
    requires count > 0
    ensures 0 <= i < count
  {
    Min(count * percentile / 100, count - 1)
  }

  function InOrder(latencies: seq<int>): (r: seq<int>)
    ensures |r| == |latencies|
  {
    SortPermutes(latencies, Leq());
    Sort(latencies, Leq())
  }

  function Percentile(s: seq<Sample>, percentile: nat): Option<int> {
    var latencies := Latencies(s);
    if latencies == [] then None else Some(InOrder(latencies)[Index(|latencies|, percentile)])
  }

  class SlidingWindow {
    const maxSamples: nat
    const maxAgeHours: real
    var samples: seq<Sample>

    constructor (maxSamples: nat, maxAgeHours: real)
      ensures samples == [] && this.maxSamples == maxSamples && this.maxAgeHours == maxAgeHours
    {
      this.maxSamples := maxSamples;
      this.maxAgeHours := maxAgeHours;
      samples := [];
    }

    method Cleanup(now: real)
      modifies this
      ensures samples == Pruned(old(samples), maxAgeHours, now)
    {
      if maxAgeHours <= 0.0 {
        return;
      }
      var cutoff := now - maxAgeHours * 3600.0;
      while samples != [] && samples[0].at < cutoff
        invariant DropOld(samples, cutoff) == DropOld(old(samples), cutoff)
        decreases |samples|
      {
        samples := samples[1..];
      }
    }

    method Record(sample: Sample, now: real)
      modifies this
      ensures samples == Pruned(LastN(old(samples) + [sample], maxSamples), maxAgeHours, now)
    {
      samples := LastN(samples + [sample], maxSamples);
      Cleanup(now);
    }

    method Size(now: real) returns (n: nat)
      modifies this
      ensures samples == Pruned(old(samples), maxAgeHours, now) && n == |samples|
    {
      Cleanup(now);
      n := |samples|;
    }

    method GetPercentile(percentile: nat) returns (value: Option<int>)
      ensures value == Percentile(samples, percentile)
    {
      var latencies := Latencies(samples);
      if latencies == [] {
        return None;
      }
      var sorted := InOrder(latencies);
      var idx := Index(|latencies|, percentile);
      return Some(sorted[idx]);
    }
  }

  // ---------------------------------------------------------------------------------------------
  // Refinement of the full history

  datatype WindowOp = Record(sample: Sample, now: real) | Read(now: real)

  /** Each sample is stamped and each pruning reads the clock, which never goes back. */
  predicate OrderedOps(ops: seq<WindowOp>) {
    ops == [] ||
    (var op, front := ops[|ops| - 1], ops[..|ops| - 1];
     && OrderedOps(front)
     && (front == [] || front[|front| - 1].now <= op.now)
     && (op.Record? ==> op.sample.at <= op.now && (front == [] || front[|front| - 1].now <= op.sample.at)))
  }

  function WindowRun(maxSamples: nat, maxAgeHours: real, ops: seq<WindowOp>): seq<Sample> {
    if ops == [] then []
    else
      var op, before := ops[|ops| - 1], WindowRun(maxSamples, maxAgeHours, ops[..|ops| - 1]);
      match op
      case Record(sample, now) => Pruned(LastN(before + [sample], maxSamples), maxAgeHours, now)
      case Read(now) => Pruned(before, maxAgeHours, now)
  }

  function History(ops: seq<WindowOp>): seq<Sample> {
    if ops == [] then []
    else
      var op, front := ops[|ops| - 1], ops[..|ops| - 1];
      if op.Record? then History(front) + [op.sample] else History(front)
  }

  predicate Young(sample: Sample, cutoff: Option<real>) {
    cutoff.None? || sample.at >= cutoff.value
  }

  /** `s` is `h` from position `k` on: the longest suffix of `h` that has at most `n` samples and only
      young ones. */
  predicate LongestFrom(h: seq<Sample>, s: seq<Sample>, k: nat, cutoff: Option<real>, n: nat) {
    && k <= |h| && s == h[k..]
    && |s| <= n
    && (forall i | k <= i < |h| :: Young(h[i], cutoff))
    && (k > 0 ==> |s| == n || !Young(h[k - 1], cutoff))
  }

  ghost predicate LongestRecent(h: seq<Sample>, s: seq<Sample>, cutoff: Option<real>, n: nat) {
    exists k: nat :: LongestFrom(h, s, k, cutoff, n)
  }

  predicate Chronological(h: seq<Sample>) {
    forall i, j | 0 <= i < j < |h| :: h[i].at <= h[j].at
  }

  lemma {:induction false} AppendKeepsLongest(h: seq<Sample>, s: seq<Sample>, cutoff: Option<real>, n: nat, x: Sample)
    requires LongestRecent(h, s, cutoff, n) && Young(x, cutoff)
    ensures LongestRecent(h + [x], LastN(s + [x], n), cutoff, n)
  {
    var k: nat :| LongestFrom(h, s, k, cutoff, n);
    var h' := h + [x];
    assert h'[k..] == s + [x];
    var k' := if |s| + 1 > n then |h'| - n else k;
    assert LastN(s + [x], n) == h'[k'..];
    assert k' > 0 && k' == k ==> h'[k - 1] == h[k - 1];
    assert LongestFrom(h', LastN(s + [x], n), k', cutoff, n);
  }

  /** How many samples the cut-off drops. */
  function Dropped(s: seq<Sample>, cutoff: real): (d: nat)
    ensures d <= |s| && DropOld(s, cutoff) == s[d..]
    ensures d > 0 ==> s[d - 1].at < cutoff
    ensures d < |s| ==> s[d].at >= cutoff
  {
    if s != [] && s[0].at < cutoff then 1 + Dropped(s[1..], cutoff) else 0
  }

  lemma {:induction false} YoungTail(h: seq<Sample>, from: nat, cutoff: real)
    requires Chronological(h)
    requires from < |h| ==> h[from].at >= cutoff
    ensures forall i | from <= i < |h| :: Young(h[i], Some(cutoff))
  {
  }

  lemma {:induction false} PruneFrom(h: seq<Sample>, k: nat, early: real, late: real, n: nat)
    requires k <= |h| && LongestFrom(h, h[k..], k, Some(early), n) && early <= late && Chronological(h)
    ensures var d := Dropped(h[k..], late);
            LongestFrom(h, h[k + d..], k + d, Some(late), n)
  {
    var d := Dropped(h[k..], late);
    var from := k + d;
    YoungTail(h, from, late);
    if d > 0 {
      assert h[from - 1] == h[k..][d - 1];
    }
  }

  lemma {:induction false} PruneKeepsLongest(h: seq<Sample>, s: seq<Sample>, early: real, late: real, n: nat)
    requires LongestRecent(h, s, Some(early), n) && early <= late && Chronological(h)
    ensures LongestRecent(h, DropOld(s, late), Some(late), n)
  {
    var k: nat :| LongestFrom(h, s, k, Some(early), n);
    PruneFrom(h, k, early, late, n);
    assert DropOld(s, late) == h[k..][Dropped(s, late)..] == h[k + Dropped(s, late)..];
  }

  lemma {:induction false} HistoryChronological(ops: seq<WindowOp>)
    requires OrderedOps(ops)
    ensures Chronological(History(ops))
    ensures ops != [] ==> forall x | x in History(ops) :: x.at <= ops[|ops| - 1].now
    ensures ops == [] ==> History(ops) == []
  {
    if ops != [] {
      HistoryChronological(ops[..|ops| - 1]);
    }
  }

  /** Pruning after the operation's own clock reading. */
  lemma {:induction false} PruneStep(h: seq<Sample>, s: seq<Sample>, maxAgeHours: real, early: real, late: real, n: nat)
    requires LongestRecent(h, s, Cutoff(maxAgeHours, early), n) && early <= late && Chronological(h)
    ensures LongestRecent(h, Pruned(s, maxAgeHours, late), Cutoff(maxAgeHours, late), n)
  {
    if maxAgeHours > 0.0 {
      PruneKeepsLongest(h, s, early - maxAgeHours * 3600.0, late - maxAgeHours * 3600.0, n);
    }
  }

  /** Lazy pruning from the front and eviction by length commute: after every record and every pruning
      read the deque is the longest recent suffix of everything ever recorded. */
  lemma {:induction false} WindowIsLongestRecent(maxSamples: nat, maxAgeHours: real, ops: seq<WindowOp>)
    requires OrderedOps(ops)
    ensures ops != [] ==>
              LongestRecent(History(ops), WindowRun(maxSamples, maxAgeHours, ops),
                            Cutoff(maxAgeHours, ops[|ops| - 1].now), maxSamples)
  {
    if ops != [] {
      var op, front := ops[|ops| - 1], ops[..|ops| - 1];
      WindowIsLongestRecent(maxSamples, maxAgeHours, front);
      HistoryChronological(ops);
      HistoryChronological(front);
      var s := WindowRun(maxSamples, maxAgeHours, front);
      var early := if front != [] then front[|front| - 1].now else if op.Record? then op.sample.at else op.now;
      if front == [] {
        assert LongestFrom([], s, 0, Cutoff(maxAgeHours, early), maxSamples);
      }
      assert LongestRecent(History(front), s, Cutoff(maxAgeHours, early), maxSamples);
      if op.Record? {
        AppendKeepsLongest(History(front), s, Cutoff(maxAgeHours, early), maxSamples, op.sample);
        PruneStep(History(ops), LastN(s + [op.sample], maxSamples), maxAgeHours, early, op.now, maxSamples);
      } else {
        PruneStep(History(ops), s, maxAgeHours, early, op.now, maxSamples);
      }
    }
  }

  lemma {:induction false} LongestHolds(h: seq<Sample>, s: seq<Sample>, k: nat, cutoff: Option<real>, n: nat, i: nat)
    requires LongestFrom(h, s, k, cutoff, n) && Chronological(h) && i < |h|
    ensures k <= i <==> |h| - i <= n && Young(h[i], cutoff)
  {
  }

  lemma {:induction false} LongestRecentHolds(h: seq<Sample>, s: seq<Sample>, cutoff: Option<real>, n: nat, i: nat)
    requires LongestRecent(h, s, cutoff, n) && Chronological(h) && i < |h|
    ensures |s| <= |h| && s == h[|h| - |s|..]
    ensures |h| - |s| <= i <==> |h| - i <= n && Young(h[i], cutoff)
  {
    var k: nat :| LongestFrom(h, s, k, cutoff, n);
    LongestHolds(h, s, k, cutoff, n, i);
  }

  lemma {:induction false} YoungByAge(at: real, maxAgeHours: real, now: real)
    ensures at >= now - maxAgeHours * 3600.0 <==> now - at <= maxAgeHours * 3600.0
  {
  }

  /** `s` is the end of `h`: the samples after which fewer than `n` came and that, where age matters, are no
      older at `now` than the age allowed. */
  predicate HoldsExactly(h: seq<Sample>, s: seq<Sample>, maxAgeHours: real, now: real, n: nat) {
    && |s| <= |h| && s == h[|h| - |s|..]
    && forall i | 0 <= i < |h| ::
         |h| - |s| <= i <==> |h| - i <= n && (maxAgeHours <= 0.0 || now - h[i].at <= maxAgeHours * 3600.0)
  }

  lemma {:induction false} HoldsByAge(h: seq<Sample>, s: seq<Sample>, maxAgeHours: real, now: real, n: nat)
    requires LongestRecent(h, s, Cutoff(maxAgeHours, now), n) && Chronological(h)
    ensures HoldsExactly(h, s, maxAgeHours, now, n)
  {
    if h == [] {
      assert s == [];
    } else {
      LongestRecentHolds(h, s, Cutoff(maxAgeHours, now), n, 0);
    }
    forall i | 0 <= i < |h|
      ensures |h| - |s| <= i <==> |h| - i <= n && (maxAgeHours <= 0.0 || now - h[i].at <= maxAgeHours * 3600.0)
    {
      LongestRecentHolds(h, s, Cutoff(maxAgeHours, now), n, i);
      YoungByAge(h[i].at, maxAgeHours, now);
    }
  }

  /** So a sample is in the window exactly if fewer than `maxSamples` came after it and, where age matters, it is
      no older than the age allowed at the latest operation. */
  lemma {:induction false} WindowHoldsExactly(maxSamples: nat, maxAgeHours: real, ops: seq<WindowOp>)
    requires OrderedOps(ops) && ops != []
    ensures HoldsExactly(History(ops), WindowRun(maxSamples, maxAgeHours, ops), maxAgeHours, ops[|ops| - 1].now, maxSamples)
  {
    WindowIsLongestRecent(maxSamples, maxAgeHours, ops);
    HistoryChronological(ops);
    HoldsByAge(History(ops), WindowRun(maxSamples, maxAgeHours, ops), maxAgeHours, ops[|ops| - 1].now, maxSamples);
  }

  // ---------------------------------------------------------------------------------------------
  // Percentiles

  predicate Measured(sample: Sample) {
    sample.latency.Some?
  }

  /** The latencies are those of the measured samples, in order. */
  lemma {:induction false} LatenciesAreMeasured(s: seq<Sample>)
    ensures |Latencies(s)| == |Filter(s, Measured)|
    ensures forall i | 0 <= i < |Latencies(s)| :: Filter(s, Measured)[i].latency == Some(Latencies(s)[i])
  {
    if s != [] {
      LatenciesAreMeasured(s[1..]);
    }
  }

  lemma {:induction false} IndexMonotone(count: nat, p: nat, q: nat)
    requires count > 0 && p <= q
    ensures Index(count, p) <= Index(count, q)
  {
    assert count * q == count * p + count * (q - p) && count * (q - p) >= 0;
  }

  lemma {:induction false} PercentileAt(s: seq<Sample>, p: nat)
    requires Latencies(s) != []
    ensures var sorted := InOrder(Latencies(s));
            && Sorted(sorted, Leq())
            && Percentile(s, p) == Some(sorted[Index(|Latencies(s)|, p)])
            && sorted[Index(|Latencies(s)|, p)] in Latencies(s)
  {
    var latencies, sorted := Latencies(s), InOrder(Latencies(s));
    SortPermutes(latencies, Leq());
    SortSorts(latencies, Leq());
    assert sorted[Index(|latencies|, p)] in sorted;
  }

  /** Higher percentiles are no smaller, and each is one of the recorded latencies. */
  lemma {:induction false} PercentilesMonotone(s: seq<Sample>, p: nat, q: nat)
    requires p <= q
    ensures Percentile(s, p).Some? <==> Latencies(s) != []
    ensures Percentile(s, p).Some? ==>
              && Percentile(s, q).Some?
              && Percentile(s, p).value <= Percentile(s, q).value
              && Percentile(s, p).value in Latencies(s)
  {
    if Latencies(s) != [] {
      PercentileAt(s, p);
      PercentileAt(s, q);
      IndexMonotone(|Latencies(s)|, p, q);
      var sorted, i, j := InOrder(Latencies(s)), Index(|Latencies(s)|, p), Index(|Latencies(s)|, q);
      assert i < j ==> Leq()(sorted[i], sorted[j]);
    }
  }

  lemma {:induction false} InsertCounts(x: int, s: seq<int>, keep: int -> bool)
    ensures |Filter(Insert(x, s, Leq()), keep)| == (if keep(x) then 1 else 0) + |Filter(s, keep)|
  {
    if s == [] {
    } else if x <= s[0] {
      assert ([x] + s)[1..] == s;
    } else {
      InsertCounts(x, s[1..], keep);
      var r := Insert(x, s[1..], Leq());
      assert ([s[0]] + r)[1..] == r;
    }
  }

  lemma {:induction false} SortCounts(s: seq<int>, keep: int -> bool)
    ensures |Filter(Sort(s, Leq()), keep)| == |Filter(s, keep)|
  {
    if s != [] {
      SortCounts(s[1..], keep);
      InsertCounts(s[0], Sort(s[1..], Leq()), keep);
    }
  }

  lemma {:induction false} SortedBelow(s: seq<int>, i: nat)
    requires Sorted(s, Leq()) && i < |s|
    ensures |Filter(s, (x: int) => x < s[i])| <= i
  {
    var v := s[i];
    var below := (x: int) => x < v;
    assert s == s[..i] + s[i..];
    FilterAppend(s[..i], s[i..], below);
    forall x | x in s[i..] ensures !below(x) {
      var k :| 0 <= k < |s[i..]| && s[i..][k] == x;
      assert s[i + k] == x;
    }
    FilterNone(s[i..], below);
  }

  lemma {:induction false} SortedUpTo(s: seq<int>, i: nat)
    requires Sorted(s, Leq()) && i < |s|
    ensures |Filter(s, (x: int) => x <= s[i])| >= i + 1
  {
    var v, a, b := s[i], s[..i + 1], s[i + 1..];
    var upTo := (x: int) => x <= v;
    forall x | x in a ensures upTo(x) {
      var k :| 0 <= k < |a| && a[k] == x;
      assert k < i ==> Leq()(s[k], s[i]);
    }
    FilterAll(a, upTo);
    FilterAppend(a, b, upTo);
    assert s == a + b;
  }

  lemma {:induction false} IndexIsShare(count: nat, p: nat, below: nat, upTo: nat)
    requires count > 0 && below <= Index(count, p) < upTo <= count
    ensures 100 * below <= p * count && (100 * upTo > p * count || upTo == count)
  {
    assert count * p == p * count;
  }

  /** What the p-th percentile is: a latency that fewer than or just p percent of them lie below, and more
      than p percent, or all of them, do not exceed. */
  lemma {:induction false} PercentileRank(s: seq<Sample>, p: nat)
    requires Latencies(s) != []
    ensures var v, n := Percentile(s, p).value, |Latencies(s)|;
            var below, upTo := Filter(Latencies(s), (x: int) => x < v), Filter(Latencies(s), (x: int) => x <= v);
            100 * |below| <= p * n && (100 * |upTo| > p * n || |upTo| == n)
  {
    var latencies := Latencies(s);
    PercentileAt(s, p);
    var sorted, i := InOrder(latencies), Index(|latencies|, p);
    var v := sorted[i];
    SortedBelow(sorted, i);
    SortedUpTo(sorted, i);
    var below, upTo := (x: int) => x < v, (x: int) => x <= v;
    SortCounts(latencies, below);
    SortCounts(latencies, upTo);
    IndexIsShare(|latencies|, p, |Filter(latencies, below)|, |Filter(latencies, upTo)|);
  }
}
