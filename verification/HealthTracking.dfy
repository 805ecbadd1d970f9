/** One probe drives two machines: the in-memory circuit breaker and the stored health row. */
module HealthTracking {
  import opened Common
  import opened CircuitBreaking

  /** A row of `node_health`. */
  datatype Row = Row(
    failureCount: int,
    circuitOpenSince: Option<real>,
    lastSuccessAt: Option<real>,
    lastFailureAt: Option<real>,
    egressIp: string,
    latencyAvg: Option<int>,
    updatedAt: real)

  function Upserted(row: Option<Row>, success: bool, egressIp: string, latency: Option<int>, now: real, maxFailures: int): Row {
    match row
    case None =>
      var failures := if success then 0 else 1;
      Row(failures, if !success && failures >= maxFailures then Some(now) else None,
          if success then Some(now) else None, if success then None else Some(now), egressIp, latency, now)
    case Some(r) =>
      var failures := if success then 0 else r.failureCount + 1;
      Row(failures,
          if success then None else if failures >= maxFailures then Some(now) else r.circuitOpenSince,
          if success then Some(now) else r.lastSuccessAt,
          if success then r.lastFailureAt else Some(now),
          if egressIp != "" then egressIp else r.egressIp,
          if latency.Some? then latency else r.latencyAvg,
          now)
  }

  /** `Probe` is `_update_node_health`.  `Read` and `Ask` are `get_state` and `is_allow_probe`, which the breakers
      offer, though the program itself asks for no permission.  `Restart` is a start that restores the stored
      breakers, `anew` in a new process or else in the one that was stopped. */
  datatype HealthEvent =
    | Probe(key: string, at: real, success: bool, egressIp: string, latency: Option<int>)
    | Read(key: string, at: real)
    | Ask(key: string, at: real)
    | Restart(at: real, anew: bool)

  /** The breakers in memory, and the tables `node_health` and `circuit_breaker_state`. */
  datatype Health = Health(breakers: map<string, Breaker>, rows: map<string, Row>, records: map<string, Record>)

  const NO_HEALTH := Health(map[], map[], map[])

  function BreakerOf(cfg: Config, h: Health, key: string): Breaker {
    if key in h.breakers then h.breakers[key] else Fresh(cfg)
  }

  function RowOf(h: Health, key: string): Option<Row> {
    if key in h.rows then Some(h.rows[key]) else None
  }

  function Probed(cfg: Config, b: Breaker, success: bool, at: real): Breaker {
    var b1 := Checked(b, at);
    Checked(if success then AfterSuccess(cfg, b1, at) else AfterFailure(cfg, b1, at), at)
  }

  /** Every breaker that has a record is restored from it. */
  function AfterRestore(cfg: Config, h: Health): Health {
    h.(breakers := map k | k in h.breakers.Keys + h.records.Keys ::
         if k in h.records then Restored(BreakerOf(cfg, h, k), h.records[k]) else h.breakers[k])
  }

  function HealthStep(cfg: Config, maxFailures: int, h: Health, e: HealthEvent): Health {
    match e
    case Probe(key, at, success, egressIp, latency) =>
      var b := Probed(cfg, BreakerOf(cfg, h, key), success, at);
      Health(h.breakers[key := b], h.rows[key := Upserted(RowOf(h, key), success, egressIp, latency, at, maxFailures)],
             h.records[key := Persisted(b)])
    case Read(key, at) => h.(breakers := h.breakers[key := Checked(BreakerOf(cfg, h, key), at)])
    case Ask(key, at) => h.(breakers := h.breakers[key := Checked(BreakerOf(cfg, h, key), at)])
    case Restart(at, anew) => AfterRestore(cfg, if anew then h.(breakers := map[]) else h)
  }

  /** The manager: one breaker object per node, and the tables it writes to. */
  class HealthManager {
    const cfg: Config
    const maxFailures: int
    var breakers: map<string, CircuitBreaker>
    var rows: map<string, Row>
    var records: map<string, Record>

    ghost predicate Valid()
      reads this, breakers.Values
    {
      && (forall k | k in breakers :: breakers[k].cfg == cfg)
      && (forall a, b | a in breakers && b in breakers && a != b :: breakers[a] != breakers[b])
    }

    ghost function Breakers(): map<string, Breaker>
      reads this`breakers, breakers.Values
    {
      map k | k in breakers :: breakers[k].View()
    }

    ghost function View(): Health
      reads this, breakers.Values
    {
      Health(Breakers(), rows, records)
    }

    /** A new process on the stored tables. */
    constructor (cfg: Config, maxFailures: int, rows: map<string, Row>, records: map<string, Record>)
      ensures Valid() && this.cfg == cfg && this.maxFailures == maxFailures
      ensures View() == Health(map[], rows, records)
    {
      this.cfg := cfg;
      this.maxFailures := maxFailures;
      this.rows, this.records := rows, records;
      breakers := map[];
    }

    method GetBreaker(key: string) returns (b: CircuitBreaker)
      requires Valid()
      modifies this`breakers
      ensures Valid() && key in breakers && b == breakers[key]
      ensures forall k | k in old(breakers) :: k in breakers && breakers[k] == old(breakers[k])
      ensures breakers.Keys == old(breakers.Keys) + {key}
      ensures b.View() == BreakerOf(cfg, old(View()), key)
      ensures key !in old(breakers) ==> fresh(b)
    {
      if key !in breakers {
        b := new CircuitBreaker(cfg);
        breakers := breakers[key := b];
      } else {
        b := breakers[key];
      }
    }

    method IsAllowProbe(key: string, at: real) returns (allowed: bool)
      requires Valid()
      modifies this, breakers.Values
      ensures Valid() && View() == HealthStep(cfg, maxFailures, old(View()), Ask(key, at))
      ensures allowed == Allows(cfg, BreakerOf(cfg, View(), key))
    {
      ghost var before := View();
      var b := GetBreaker(key);
      allowed := b.IsAllowProbe(at);
      OneChanged(before.breakers, Breakers(), key, Checked(BreakerOf(cfg, before, key), at));
    }

    method GetState(key: string, at: real) returns (s: State)
      requires Valid()
      modifies this, breakers.Values
      ensures Valid() && View() == HealthStep(cfg, maxFailures, old(View()), Read(key, at))
      ensures s == BreakerOf(cfg, View(), key).state
    {
      ghost var before := View();
      var b := GetBreaker(key);
      s := b.ReadState(at);
      OneChanged(before.breakers, Breakers(), key, Checked(BreakerOf(cfg, before, key), at));
    }

    method UpsertNodeHealth(key: string, success: bool, egressIp: string, latency: Option<int>, now: real)
      modifies this`rows
      ensures rows == old(rows)[key := Upserted(if key in old(rows) then Some(old(rows)[key]) else None,
                                                success, egressIp, latency, now, maxFailures)]
    {
      if key !in rows {
        var failureCount := if success then 0 else 1;
        var circuitOpen := if success then None else if failureCount >= maxFailures then Some(now) else None;
        rows := rows[key := Row(failureCount, circuitOpen, if success then Some(now) else None,
                                if success then None else Some(now), egressIp, latency, now)];
      } else {
        var row := rows[key];
        var failureCount := row.failureCount;
        var circuitOpen := None;
        if success {
          failureCount := 0;
        } else {
          failureCount := failureCount + 1;
          circuitOpen := if failureCount >= maxFailures then Some(now) else row.circuitOpenSince;
        }
        rows := rows[key := Row(failureCount, circuitOpen,
                                if success then Some(now) else row.lastSuccessAt,
                                if !success then Some(now) else row.lastFailureAt,
                                if egressIp != "" then egressIp else row.egressIp,
                                if latency.Some? then latency else row.latencyAvg, now)];
      }
    }

    /** The circuit breaker's part of one probe. */
    static method RecordProbe(b: CircuitBreaker, at: real, success: bool)
      modifies b
      ensures b.View() == Probed(b.cfg, old(b.View()), success, at)
    {
      var oldState := b.ReadState(at);
      if success {
        b.RecordSuccess(at);
      } else {
        b.RecordFailure(at);
      }
      var newState := b.ReadState(at);
    }

    method UpdateBreaker(key: string, at: real, success: bool)
      requires Valid()
      modifies this`breakers, breakers.Values
      ensures Valid() && key in breakers
      ensures Breakers() == old(Breakers())[key := Probed(cfg, BreakerOf(cfg, old(View()), key), success, at)]
      ensures breakers[key] in old(breakers.Values) || fresh(breakers[key])
    {
      ghost var before := View();
      var b := GetBreaker(key);
      RecordProbe(b, at, success);
      OneChanged(before.breakers, Breakers(), key, Probed(cfg, BreakerOf(cfg, before, key), success, at));
    }

    /** Writes the record of a node's breaker, whose state is read once more for it. */
    method PersistBreaker(key: string, at: real)
      requires Valid() && key in breakers && Checked(breakers[key].View(), at) == breakers[key].View()
      modifies this`records, breakers[key]
      ensures Valid() && Breakers() == old(Breakers())
      ensures records == old(records)[key := Persisted(breakers[key].View())]
    {
      var b := breakers[key];
      var state := b.ReadState(at);
      records := records[key := Record(state, b.failureCount, b.consecutiveSuccesses, b.lastFailure, b.lastSuccess,
                                       b.openSince, b.backoffUntil, b.currentBackoff)];
    }

    method UpdateNodeHealth(key: string, at: real, success: bool, egressIp: string, latency: Option<int>)
      requires Valid()
      modifies this, breakers.Values
      ensures Valid()
      ensures View() == HealthStep(cfg, maxFailures, old(View()), Probe(key, at, success, egressIp, latency))
    {
      UpdateBreaker(key, at, success);
      assert breakers[key].View() == Breakers()[key];
      UpsertNodeHealth(key, success, egressIp, latency, at);
      PersistBreaker(key, at);
    }

    method RestoreBreaker(key: string)
      requires Valid() && key in records
      modifies this`breakers, breakers.Values
      ensures Valid()
      ensures Breakers() == old(Breakers())[key := Restored(BreakerOf(cfg, old(View()), key), records[key])]
      ensures forall b | b in breakers.Values :: b in old(breakers.Values) || fresh(b)
    {
      ghost var before := View();
      var b := GetBreaker(key);
      b.RestoreState(records[key]);
      OneChanged(before.breakers, Breakers(), key, Restored(BreakerOf(cfg, before, key), records[key]));
    }

    /** `_restore_state`, the first thing a start does. */
    method RestoreState()
      requires Valid()
      modifies this`breakers, breakers.Values
      ensures Valid() && View() == AfterRestore(cfg, old(View()))
    {
      ghost var before := View();
      ghost var h := before;
      var todo := records.Keys;
      while todo != {}
        invariant Valid() && todo <= records.Keys
        invariant forall b | b in breakers.Values :: b in old(breakers.Values) || fresh(b)
        invariant View() == h && PartlyRestored(cfg, before, h, todo)
        decreases todo
      {
        var k :| k in todo;
        h := OneMoreRestored(cfg, before, h, todo, k);
        RestoreBreaker(k);
        todo := todo - {k};
      }
      AllRestored(cfg, before, h);
    }
  }

  /** All breakers but those in `todo` have been restored. */
  ghost predicate PartlyRestored(cfg: Config, before: Health, h: Health, todo: set<string>) {
    && h.rows == before.rows && h.records == before.records
    && h.breakers.Keys == before.breakers.Keys + (before.records.Keys - todo)
    && forall k | k in h.breakers ::
         h.breakers[k] == if k in before.records && k !in todo then Restored(BreakerOf(cfg, before, k), before.records[k])
                          else before.breakers[k]
  }

  lemma {:induction false} OneMoreRestored(cfg: Config, before: Health, h: Health, todo: set<string>, key: string)
    returns (h': Health)
    requires PartlyRestored(cfg, before, h, todo) && key in before.records && key in todo
    ensures h' == h.(breakers := h.breakers[key := Restored(BreakerOf(cfg, h, key), h.records[key])])
    ensures PartlyRestored(cfg, before, h', todo - {key})
  {
    h' := h.(breakers := h.breakers[key := Restored(BreakerOf(cfg, h, key), h.records[key])]);
    assert key in h.breakers <==> key in before.breakers;
  }

  lemma {:induction false} AllRestored(cfg: Config, before: Health, h: Health)
    requires PartlyRestored(cfg, before, h, {})
    ensures h == AfterRestore(cfg, before)
  {
    assert h.breakers == AfterRestore(cfg, before).breakers;
  }

  lemma {:induction false} OneChanged(before: map<string, Breaker>, after: map<string, Breaker>, key: string, b: Breaker)
    requires after.Keys == before.Keys + {key} && after[key] == b
    requires forall k | k in after && k != key :: after[k] == before[k]
    ensures after == before[key := b]
  {
  }

  // ---------------------------------------------------------------------------------------------
  // The stored row over all runs

  function HealthRun(cfg: Config, maxFailures: int, events: seq<HealthEvent>): Health {
    if events == [] then NO_HEALTH
    else HealthStep(cfg, maxFailures, HealthRun(cfg, maxFailures, events[..|events| - 1]), events[|events| - 1])
  }

  predicate IsProbe(e: HealthEvent, key: string) {
    e.Probe? && e.key == key
  }

  /** How many of the node's most recent probes failed in a row. */
  function FailureRun(events: seq<HealthEvent>, key: string): nat {
    if events == [] then 0
    else
      var e, front := events[|events| - 1], events[..|events| - 1];
      if IsProbe(e, key) then (if e.success then 0 else 1 + FailureRun(front, key)) else FailureRun(front, key)
  }

  function LastProbeAt(events: seq<HealthEvent>, key: string): Option<real> {
    if events == [] then None
    else
      var e := events[|events| - 1];
      if IsProbe(e, key) then Some(e.at) else LastProbeAt(events[..|events| - 1], key)
  }

  /** The stored row is a function of the node's probes: its count is the trailing run of failures, and
      its open mark is set exactly while that run has reached the threshold.  The mark carries the time
      of the latest failure. */
  lemma {:induction false} RowFollowsProbes(cfg: Config, maxFailures: int, events: seq<HealthEvent>, key: string)
    ensures var rows := HealthRun(cfg, maxFailures, events).rows;
            && (key in rows <==> LastProbeAt(events, key).Some?)
            && (key !in rows ==> FailureRun(events, key) == 0)
            && (key in rows ==>
                  && rows[key].failureCount == FailureRun(events, key)
                  && rows[key].circuitOpenSince ==
                     (if FailureRun(events, key) >= Max(1, maxFailures) then LastProbeAt(events, key) else None))
    decreases |events|
  {
    if events != [] {
      RowFollowsProbes(cfg, maxFailures, events[..|events| - 1], key);
    }
  }

  /** What a probe can tell of a node. */
  datatype News = Succeeded | Failed | Named | Measured

  predicate Tells(e: HealthEvent, key: string, news: News) {
    && IsProbe(e, key)
    && match news
       case Succeeded => e.success
       case Failed => !e.success
       case Named => e.egressIp != ""
       case Measured => e.latency.Some?
  }

  /** The last probe of the node to tell this of it. */
  function LastTelling(events: seq<HealthEvent>, key: string, news: News): (e: Option<HealthEvent>)
    ensures e.Some? ==> Tells(e.value, key, news)
  {
    if events == [] then None
    else if Tells(events[|events| - 1], key, news) then Some(events[|events| - 1])
    else LastTelling(events[..|events| - 1], key, news)
  }

  /** The row holds what the last probe to tell it told. */
  predicate RowTold(row: Row, events: seq<HealthEvent>, key: string) {
    var succeeded, failed := LastTelling(events, key, Succeeded), LastTelling(events, key, Failed);
    var named, measured := LastTelling(events, key, Named), LastTelling(events, key, Measured);
    && row.lastSuccessAt == (if succeeded.Some? then Some(succeeded.value.at) else None)
    && row.lastFailureAt == (if failed.Some? then Some(failed.value.at) else None)
    && row.egressIp == (if named.Some? then named.value.egressIp else "")
    && row.latencyAvg == (if measured.Some? then measured.value.latency else None)
    && LastProbeAt(events, key) == Some(row.updatedAt)
  }

  lemma {:induction false} NeverTold(events: seq<HealthEvent>, key: string, news: News)
    requires LastProbeAt(events, key).None?
    ensures LastTelling(events, key, news).None?
  {
    if events != [] {
      NeverTold(events[..|events| - 1], key, news);
    }
  }

  lemma {:induction false} UpsertTells(row: Option<Row>, events: seq<HealthEvent>, e: HealthEvent, maxFailures: int)
    requires e.Probe?
    requires row.Some? ==> RowTold(row.value, events, e.key)
    requires row.None? ==> forall news :: LastTelling(events, e.key, news).None?
    ensures RowTold(Upserted(row, e.success, e.egressIp, e.latency, e.at, maxFailures), events + [e], e.key)
  {
    assert (events + [e])[..|events|] == events;
  }

  /** Each other field of a stored row is what the last probe with something to say of it said: the times of
      the last success and failure, the last IP that was named, the last latency that was measured. */
  lemma {:induction false} RowKeepsLatest(cfg: Config, maxFailures: int, events: seq<HealthEvent>, key: string)
    requires key in HealthRun(cfg, maxFailures, events).rows
    ensures RowTold(HealthRun(cfg, maxFailures, events).rows[key], events, key)
    decreases |events|
  {
    var e, front := events[|events| - 1], events[..|events| - 1];
    assert events == front + [e];
    var rows := HealthRun(cfg, maxFailures, front).rows;
    if key in rows {
      RowKeepsLatest(cfg, maxFailures, front, key);
    } else {
      RowFollowsProbes(cfg, maxFailures, front, key);
      forall news ensures LastTelling(front, key, news).None? {
        NeverTold(front, key, news);
      }
    }
    if IsProbe(e, key) {
      UpsertTells(RowOf(HealthRun(cfg, maxFailures, front), key), front, e, maxFailures);
    }
  }

  predicate StoredOpen(h: Health, key: string) {
    key in h.rows && h.rows[key].circuitOpenSince.Some?
  }

  /** When the node's present run of failures reached the threshold, if it has. */
  function OpenedAt(events: seq<HealthEvent>, key: string, maxFailures: int): Option<real> {
    if events == [] then None
    else
      var e, front := events[|events| - 1], events[..|events| - 1];
      if !IsProbe(e, key) then OpenedAt(front, key, maxFailures)
      else if e.success then None
      else if FailureRun(events, key) == Max(1, maxFailures) then Some(e.at)
      else OpenedAt(front, key, maxFailures)
  }

  /** The node is never probed twice at one time, nor does its clock go back. */
  predicate ProbedInTurn(events: seq<HealthEvent>, key: string) {
    forall i, j | 0 <= i < j < |events| && IsProbe(events[i], key) && IsProbe(events[j], key) :: events[i].at < events[j].at
  }

  lemma {:induction false} OpenedWhenReached(events: seq<HealthEvent>, key: string, maxFailures: int)
    ensures OpenedAt(events, key, maxFailures).Some? <==> FailureRun(events, key) >= Max(1, maxFailures)
    decreases |events|
  {
    if events != [] {
      OpenedWhenReached(events[..|events| - 1], key, maxFailures);
    }
  }

  lemma {:induction false} LastProbeIsOne(events: seq<HealthEvent>, key: string)
    requires LastProbeAt(events, key).Some?
    ensures exists e :: e in events && IsProbe(e, key) && e.at == LastProbeAt(events, key).value
    decreases |events|
  {
    var e, front := events[|events| - 1], events[..|events| - 1];
    assert e in events && forall x | x in front :: x in events;
    if !IsProbe(e, key) {
      LastProbeIsOne(front, key);
    }
  }

  lemma {:induction false} OpenedByProbe(events: seq<HealthEvent>, key: string, maxFailures: int)
    requires OpenedAt(events, key, maxFailures).Some?
    ensures exists e :: e in events && IsProbe(e, key) && e.at == OpenedAt(events, key, maxFailures).value
    decreases |events|
  {
    var e, front := events[|events| - 1], events[..|events| - 1];
    assert e in events && forall x | x in front :: x in events;
    if OpenedAt(events, key, maxFailures) == OpenedAt(front, key, maxFailures) {
      OpenedByProbe(front, key, maxFailures);
    }
  }

  lemma {:induction false} LastFailureOpened(events: seq<HealthEvent>, key: string, maxFailures: int)
    requires ProbedInTurn(events, key) && FailureRun(events, key) >= Max(1, maxFailures)
    ensures LastProbeAt(events, key) == OpenedAt(events, key, maxFailures) <==> FailureRun(events, key) == Max(1, maxFailures)
    decreases |events|
  {
    var n := |events| - 1;
    var e, front := events[n], events[..n];
    assert forall i | 0 <= i < n :: front[i] == events[i];
    if !IsProbe(e, key) {
      LastFailureOpened(front, key, maxFailures);
    } else if FailureRun(events, key) > Max(1, maxFailures) {
      OpenedWhenReached(front, key, maxFailures);
      OpenedByProbe(front, key, maxFailures);
      var x :| x in front && IsProbe(x, key) && x.at == OpenedAt(front, key, maxFailures).value;
      var i :| 0 <= i < n && front[i] == x;
      assert events[i].at < events[n].at;
    }
  }

  /** While a node is stored as open, its mark says when that began exactly if the row counts no more failures
      than the threshold. */
  lemma {:induction false} MarkTellsOpeningExactly(cfg: Config, maxFailures: int, events: seq<HealthEvent>, key: string)
    requires ProbedInTurn(events, key) && StoredOpen(HealthRun(cfg, maxFailures, events), key)
    ensures var row := HealthRun(cfg, maxFailures, events).rows[key];
            && OpenedAt(events, key, maxFailures).Some?
            && (row.circuitOpenSince == OpenedAt(events, key, maxFailures) <==> row.failureCount == Max(1, maxFailures))
  {
    RowFollowsProbes(cfg, maxFailures, events, key);
    OpenedWhenReached(events, key, maxFailures);
    LastFailureOpened(events, key, maxFailures);
  }

  /** A node that fails at 0, 1, 2, ... */
  function FailingOn(n: nat): (r: seq<HealthEvent>)
    ensures |r| == n && forall i | 0 <= i < n :: r[i] == Probe("node", i as real, false, "", None)
  {
    seq(n, i => Probe("node", i as real, false, "", None))
  }

  lemma {:induction false} FailingOnRun(n: nat, maxFailures: int)
    ensures FailureRun(FailingOn(n), "node") == n
    ensures n > 0 ==> LastProbeAt(FailingOn(n), "node") == Some((n - 1) as real)
    ensures OpenedAt(FailingOn(n), "node", maxFailures) ==
            if n >= Max(1, maxFailures) then Some((Max(1, maxFailures) - 1) as real) else None
  {
    if n > 0 {
      FailingOnRun(n - 1, maxFailures);
      assert FailingOn(n)[..n - 1] == FailingOn(n - 1);
    }
  }

  /** One failure more than the threshold, and the mark is that failure's. */
  lemma {:induction false} MarkMoves(cfg: Config, maxFailures: int)
    ensures var n := Max(1, maxFailures);
            var events := FailingOn(n + 1);
            var h := HealthRun(cfg, maxFailures, events);
            && ProbedInTurn(events, "node") && StoredOpen(h, "node")
            && h.rows["node"].circuitOpenSince == Some(n as real)
            && OpenedAt(events, "node", maxFailures) == Some((n - 1) as real)
  {
    FailingOnRun(Max(1, maxFailures) + 1, maxFailures);
    RowFollowsProbes(cfg, maxFailures, FailingOn(Max(1, maxFailures) + 1), "node");
  }

  // ---------------------------------------------------------------------------------------------
  // Lockstep over all runs

  /** The breaker that a new process would restore. */
  function Stored(cfg: Config, h: Health, key: string): Breaker {
    if key in h.records then Restored(Fresh(cfg), h.records[key]) else Fresh(cfg)
  }

  predicate Counts(cfg: Config, b: Breaker, n: nat) {
    b.state == Closed ==> b.failureCount == n < Max(1, cfg.failureThreshold)
  }

  lemma {:induction false} ProbedCounts(cfg: Config, b: Breaker, n: nat, success: bool, at: real)
    requires Counts(cfg, b, n)
    ensures Counts(cfg, Probed(cfg, b, success, at), if success then 0 else n + 1)
  {
  }

  predicate BothCount(cfg: Config, h: Health, key: string, n: nat) {
    Counts(cfg, BreakerOf(cfg, h, key), n) && Counts(cfg, Stored(cfg, h, key), n)
  }

  lemma {:induction false} StepKeepsCounts(cfg: Config, maxFailures: int, h: Health, e: HealthEvent, key: string, n: nat)
    requires BothCount(cfg, h, key, n)
    ensures BothCount(cfg, HealthStep(cfg, maxFailures, h, e), key, if !IsProbe(e, key) then n else if e.success then 0 else n + 1)
  {
    if IsProbe(e, key) {
      ProbedCounts(cfg, BreakerOf(cfg, h, key), n, e.success, e.at);
    }
  }

  /** A CLOSED breaker, in memory or stored, counts the failures since the last success. */
  lemma {:induction false} ClosedBreakersCount(cfg: Config, maxFailures: int, events: seq<HealthEvent>, key: string)
    ensures BothCount(cfg, HealthRun(cfg, maxFailures, events), key, FailureRun(events, key))
    decreases |events|
  {
    if events != [] {
      var e, front := events[|events| - 1], events[..|events| - 1];
      ClosedBreakersCount(cfg, maxFailures, front, key);
      StepKeepsCounts(cfg, maxFailures, HealthRun(cfg, maxFailures, front), e, key, FailureRun(front, key));
    }
  }

  /** While the breaker is CLOSED it counts what the row counts; with the breaker's threshold no higher
      than the row's, a node stored as open has no CLOSED breaker. */
  lemma {:induction false} Lockstep(cfg: Config, maxFailures: int, events: seq<HealthEvent>, key: string)
    ensures var h := HealthRun(cfg, maxFailures, events);
            var b := BreakerOf(cfg, h, key);
            && (b.state == Closed && key in h.rows ==>
                  b.failureCount == h.rows[key].failureCount < Max(1, cfg.failureThreshold))
            && (StoredOpen(h, key) && Max(1, cfg.failureThreshold) <= Max(1, maxFailures) ==> b.state != Closed)
  {
    ClosedBreakersCount(cfg, maxFailures, events, key);
    RowFollowsProbes(cfg, maxFailures, events, key);
  }

  ghost predicate OpenRowsHaveOpenBreakers(cfg: Config, maxFailures: int) {
    forall events: seq<HealthEvent>, key: string ::
      var h := HealthRun(cfg, maxFailures, events);
      StoredOpen(h, key) ==> BreakerOf(cfg, h, key).state != Closed
  }

  lemma {:induction false} FailingOnBreaker(cfg: Config, maxFailures: int, n: nat)
    requires n < Max(1, cfg.failureThreshold)
    ensures var b := BreakerOf(cfg, HealthRun(cfg, maxFailures, FailingOn(n)), "node");
            b.state == Closed && b.failureCount == n
  {
    if n > 0 {
      FailingOnBreaker(cfg, maxFailures, n - 1);
      assert FailingOn(n)[..n - 1] == FailingOn(n - 1);
    }
  }

  /** The two machines never contradict each other exactly when the breaker trips no later than the row. */
  lemma {:induction false} OpenRowsHaveOpenBreakersExactly(cfg: Config, maxFailures: int)
    ensures OpenRowsHaveOpenBreakers(cfg, maxFailures) <==> Max(1, cfg.failureThreshold) <= Max(1, maxFailures)
  {
    if Max(1, cfg.failureThreshold) <= Max(1, maxFailures) {
      forall events: seq<HealthEvent>, key: string
        ensures StoredOpen(HealthRun(cfg, maxFailures, events), key) ==>
                  BreakerOf(cfg, HealthRun(cfg, maxFailures, events), key).state != Closed
      {
        Lockstep(cfg, maxFailures, events, key);
      }
    } else {
      var n := Max(1, maxFailures);
      FailingOnBreaker(cfg, maxFailures, n);
      FailingOnRun(n, maxFailures);
      RowFollowsProbes(cfg, maxFailures, FailingOn(n), "node");
      var h := HealthRun(cfg, maxFailures, FailingOn(n));
      assert StoredOpen(h, "node") && BreakerOf(cfg, h, "node").state == Closed;
    }
  }
}
