/** What the marks, the known-healthy routes and the leases of the endpoints say of the reports and requests before. */
module RouteHistories {
  import opened Common
  import opened EndpointRouting
  import opened RouteExclusion
  import opened Timestamps
  import StickyRouting

  /** When what is said at `at` runs out: `sec` seconds later, but at least one; `usual` seconds if none are given. */
  function RunsOut(at: int, sec: int, usual: int): int {
    at + (if sec == 0 then usual else if sec < 1 then 1 else sec) * SECOND
  }

  /** What one operation says of something: nothing, that it is over, or that it holds until then. */
  datatype Word = Silent | Over | Until(time: int)

  function After(told: Option<int>, word: Word): Option<int> {
    match word
    case Silent => told
    case Over => None
    case Until(time) => Some(time)
  }

  /** What the last of the first `n` operations to say anything says. */
  function Told(ops: seq<Op>, n: nat, says: Op -> Word): Option<int>
    requires n <= |ops|
  {
    if n == 0 then None else After(Told(ops, n - 1, says), says(ops[n - 1]))
  }

  /** A report on hops of the endpoint; one that names no endpoint or no hop is ignored. */
  predicate On(op: Op, ep: int) {
    (op.Failure? || op.Success?) && op.ep == ep > 0 && Clean(op.hops) != []
  }

  /** A failure marks the first of its hops, a success clears all of its hops. */
  function NodeSays(ep: int, key: string): Op -> Word {
    (op: Op) =>
      if !On(op, ep) then Silent
      else if op.Failure? then (if Clean(op.hops)[0] == key then Until(RunsOut(op.at, op.cooldownSec, 300)) else Silent)
      else if key in Clean(op.hops) then Over
      else Silent
  }

  /** A failure or success speaks for the exact route it names ... */
  function RouteSays(ep: int, keys: seq<string>): Op -> Word {
    (op: Op) =>
      if !On(op, ep) || Clean(op.hops) != keys then Silent
      else if op.Failure? then Until(RunsOut(op.at, op.cooldownSec, 300))
      else Over
  }

  /** ... and, in the table, for all routes with the same signature. */
  function SignatureSays(ep: int, signature: string): Op -> Word {
    (op: Op) =>
      if !On(op, ep) || Signature(Clean(op.hops)) != signature then Silent
      else if op.Failure? then Until(RunsOut(op.at, op.cooldownSec, 300))
      else Over
  }

  /** A success makes its route known to be healthy, a failure or a restart ends that. */
  function HealthSays(ep: int, keys: seq<string>): Op -> Word {
    (op: Op) =>
      if op.Restart? then Over
      else if !On(op, ep) || Clean(op.hops) != keys then Silent
      else if op.Success? then Until(RunsOut(op.at, op.ttlSec, 600))
      else Over
  }

  predicate NotBefore(ops: seq<Op>, n: nat, now: int)
    requires n <= |ops|
  {
    n > 0 ==> EndOf(ops[n - 1]) <= now
  }

  lemma {:induction false} ClockRises(settings: Settings, states: seq<State>, ops: seq<Op>, n: nat, now: int)
    requires Trace(settings, states, ops) && 0 < n <= |ops| && NotBefore(ops, n, now)
    ensures NotBefore(ops, n - 1, ops[n - 1].at) && ops[n - 1].at <= EndOf(ops[n - 1]) <= now
    ensures Step(settings, states[n - 1], ops[n - 1], states[n])
  {
    assert StepAt(settings, states, ops, n - 1);
  }

  // ---------------------------------------------------------------------------------------------
  // Marks

  /** A table keeps what was told last, as long as the table counts it. */
  predicate Tabled<K(==)>(rows: map<K, int>, k: K, told: Option<int>, now: int) {
    && (k in rows ==> told == Some(rows[k]))
    && (told.Some? && StoredAsFailed(told.value, now) ==> k in rows)
  }

  /** A cache holds nothing but what was told last ... */
  predicate Cached<K(==)>(cache: map<K, int>, k: K, told: Option<int>) {
    k in cache ==> told == Some(cache[k])
  }

  /** ... and keeps it until it runs out. */
  predicate Kept<K(==)>(cache: map<K, int>, k: K, told: Option<int>, now: int) {
    told.Some? && now < told.value ==> k in cache
  }

  lemma {:induction false} StoredEarlier(expiresAt: int, earlier: int, later: int)
    requires earlier <= later
    ensures StoredAsFailed(expiresAt, later) ==> StoredAsFailed(expiresAt, earlier)
  {
  }

  /** What a word does to the entry of `k`. */
  predicate Moved<K(==)>(m: map<K, int>, m': map<K, int>, k: K, word: Word) {
    match word
    case Silent => (k in m' <==> k in m) && (k in m ==> m'[k] == m[k])
    case Over => k !in m'
    case Until(time) => k in m' && m'[k] == time
  }

  lemma {:induction false} TableMoved<K>(rows: map<K, int>, rows': map<K, int>, k: K, word: Word, told: Option<int>, now: int)
    requires Moved(rows, rows', k, word) && Tabled(rows, k, told, now)
    ensures Tabled(rows', k, After(told, word), now)
  {
  }

  lemma {:induction false} CacheMoved<K>(cache: map<K, int>, cache': map<K, int>, k: K, word: Word, told: Option<int>)
    requires Moved(cache, cache', k, word) && Cached(cache, k, told)
    ensures Cached(cache', k, After(told, word))
    ensures forall now | Kept(cache, k, told, now) :: Kept(cache', k, After(told, word), now)
  {
  }

  lemma {:induction false} TabledLater<K>(rows: map<K, int>, k: K, told: Option<int>, now: int, later: int)
    requires Tabled(rows, k, told, now) && now <= later
    ensures Tabled(rows, k, told, later)
  {
    if told.Some? {
      StoredEarlier(told.value, now, later);
    }
  }

  lemma {:induction false} FailureMovesNode(s: State, op: Op, ep: int, key: string)
    requires op.Failure?
    ensures var s' := AfterFailure(s, op.ep, op.pool, op.session, op.hops, op.cooldownSec, op.at);
            && Moved(s.failedNodeRows, s'.failedNodeRows, (ep, key), NodeSays(ep, key)(op))
            && Moved(s.failedNodes, s'.failedNodes, (ep, key), NodeSays(ep, key)(op))
  {
  }

  lemma {:induction false} SuccessMovesNode(s: State, op: Op, ep: int, key: string)
    requires op.Success?
    ensures var s' := AfterSuccess(s, op.ep, op.hops, op.ttlSec, op.at);
            && Moved(s.failedNodeRows, s'.failedNodeRows, (ep, key), NodeSays(ep, key)(op))
            && Moved(s.failedNodes, s'.failedNodes, (ep, key), NodeSays(ep, key)(op))
  {
    assert On(op, ep) ==> ((ep, key) in NodesOf(ep, Clean(op.hops)) <==> key in Clean(op.hops));
  }

  predicate NodeTold(s: State, ep: int, key: string, told: Option<int>, now: int) {
    Tabled(s.failedNodeRows, (ep, key), told, now) && Cached(s.failedNodes, (ep, key), told)
  }

  lemma {:induction false} NodeMoved(s: State, s': State, ep: int, key: string, word: Word, told: Option<int>, now: int)
    requires Moved(s.failedNodeRows, s'.failedNodeRows, (ep, key), word)
    requires Moved(s.failedNodes, s'.failedNodes, (ep, key), word) && NodeTold(s, ep, key, told, now)
    ensures NodeTold(s', ep, key, After(told, word), now)
  {
    TableMoved(s.failedNodeRows, s'.failedNodeRows, (ep, key), word, told, now);
    CacheMoved(s.failedNodes, s'.failedNodes, (ep, key), word, told);
  }

  lemma {:induction false} RestartTellsNode(settings: Settings, s: State, cat: Catalog, now: int, s': State, ep: int, key: string,
                                            told: Option<int>)
    requires RestartStep(settings, s, cat, now, s') && NodeTold(s, ep, key, told, now)
    ensures NodeTold(s', ep, key, told, now)
  {
  }

  lemma {:induction false} StepTellsNode(settings: Settings, s: State, op: Op, s': State, ep: int, key: string,
                                         told: Option<int>)
    requires Step(settings, s, op, s') && NodeTold(s, ep, key, told, op.at)
    ensures NodeTold(s', ep, key, After(told, NodeSays(ep, key)(op)), op.at)
  {
    if op.Failure? {
      FailureMovesNode(s, op, ep, key);
      NodeMoved(s, s', ep, key, NodeSays(ep, key)(op), told, op.at);
    } else if op.Success? {
      SuccessMovesNode(s, op, ep, key);
      NodeMoved(s, s', ep, key, NodeSays(ep, key)(op), told, op.at);
    } else if op.Restart? {
      RestartTellsNode(settings, s, op.cat, op.at, s', ep, key, told);
    } else {
      OthersLeaveMarks(settings, s, op, s');
    }
  }

  lemma {:induction false} NodeHistory(settings: Settings, states: seq<State>, ops: seq<Op>, n: nat, ep: int, key: string,
                                       now: int)
    requires Trace(settings, states, ops) && states[0] == EMPTY && n <= |ops| && NotBefore(ops, n, now)
    ensures NodeTold(states[n], ep, key, Told(ops, n, NodeSays(ep, key)), now)
  {
    if n > 0 {
      ClockRises(settings, states, ops, n, now);
      var op, told := ops[n - 1], Told(ops, n - 1, NodeSays(ep, key));
      NodeHistory(settings, states, ops, n - 1, ep, key, op.at);
      StepTellsNode(settings, states[n - 1], op, states[n], ep, key, told);
      TabledLater(states[n].failedNodeRows, (ep, key), After(told, NodeSays(ep, key)(op)), op.at, now);
    }
  }

  /** Over every run, restarts included: a node counts as failed exactly if the last report to say anything of
      it is a failure that began with it, to the end of the UTC day in which that report runs out. */
  lemma {:induction false} NodeFailedExactly(settings: Settings, states: seq<State>, ops: seq<Op>, n: nat, ep: int, key: string,
                                             now: int)
    requires Trace(settings, states, ops) && states[0] == EMPTY && n <= |ops| && NotBefore(ops, n, now)
    ensures NodeFailed(states[n].failedNodes, states[n].failedNodeRows, ep, key, now) <==>
              var told := Told(ops, n, NodeSays(ep, key));
              key != "" && told.Some? && now < (told.value / DAY + 1) * DAY
  {
    NodeHistory(settings, states, ops, n, ep, key, now);
    var told := Told(ops, n, NodeSays(ep, key));
    if told.Some? {
      DayHasNotEnded(told.value, now);
    }
  }

  lemma {:induction false} FailureMovesRoute(s: State, op: Op, ep: int, keys: seq<string>)
    requires op.Failure?
    ensures var s' := AfterFailure(s, op.ep, op.pool, op.session, op.hops, op.cooldownSec, op.at);
            Moved(s.failedRoutes, s'.failedRoutes, (ep, keys), RouteSays(ep, keys)(op))
  {
  }

  lemma {:induction false} FailureMovesSignature(s: State, op: Op, ep: int, signature: string)
    requires op.Failure?
    ensures var s' := AfterFailure(s, op.ep, op.pool, op.session, op.hops, op.cooldownSec, op.at);
            Moved(s.failedRouteRows, s'.failedRouteRows, (ep, signature), SignatureSays(ep, signature)(op))
  {
  }

  lemma {:induction false} SuccessMovesRoute(s: State, op: Op, ep: int, keys: seq<string>)
    requires op.Success?
    ensures var s' := AfterSuccess(s, op.ep, op.hops, op.ttlSec, op.at);
            Moved(s.failedRoutes, s'.failedRoutes, (ep, keys), RouteSays(ep, keys)(op))
  {
  }

  lemma {:induction false} SuccessMovesSignature(s: State, op: Op, ep: int, signature: string)
    requires op.Success?
    ensures var s' := AfterSuccess(s, op.ep, op.hops, op.ttlSec, op.at);
            Moved(s.failedRouteRows, s'.failedRouteRows, (ep, signature), SignatureSays(ep, signature)(op))
  {
  }

  lemma {:induction false} RestartTellsSignature(settings: Settings, s: State, cat: Catalog, now: int, s': State, ep: int,
                                                 signature: string, told: Option<int>)
    requires RestartStep(settings, s, cat, now, s') && Tabled(s.failedRouteRows, (ep, signature), told, now)
    ensures Tabled(s'.failedRouteRows, (ep, signature), told, now)
  {
  }

  lemma {:induction false} StepTellsSignature(settings: Settings, s: State, op: Op, s': State, ep: int, signature: string,
                                              told: Option<int>)
    requires Step(settings, s, op, s') && Tabled(s.failedRouteRows, (ep, signature), told, op.at)
    ensures Tabled(s'.failedRouteRows, (ep, signature), After(told, SignatureSays(ep, signature)(op)), op.at)
  {
    if op.Failure? || op.Success? {
      if op.Failure? {
        FailureMovesSignature(s, op, ep, signature);
      } else {
        SuccessMovesSignature(s, op, ep, signature);
      }
      TableMoved(s.failedRouteRows, s'.failedRouteRows, (ep, signature), SignatureSays(ep, signature)(op), told, op.at);
    } else if op.Restart? {
      RestartTellsSignature(settings, s, op.cat, op.at, s', ep, signature, told);
    } else {
      OthersLeaveMarks(settings, s, op, s');
    }
  }

  lemma {:induction false} SignatureHistory(settings: Settings, states: seq<State>, ops: seq<Op>, n: nat, ep: int,
                                            signature: string, now: int)
    requires Trace(settings, states, ops) && states[0] == EMPTY && n <= |ops| && NotBefore(ops, n, now)
    ensures Tabled(states[n].failedRouteRows, (ep, signature), Told(ops, n, SignatureSays(ep, signature)), now)
  {
    if n > 0 {
      ClockRises(settings, states, ops, n, now);
      var op, told := ops[n - 1], Told(ops, n - 1, SignatureSays(ep, signature));
      SignatureHistory(settings, states, ops, n - 1, ep, signature, op.at);
      StepTellsSignature(settings, states[n - 1], op, states[n], ep, signature, told);
      TabledLater(states[n].failedRouteRows, (ep, signature), After(told, SignatureSays(ep, signature)(op)), op.at, now);
    }
  }

  predicate RouteTold(s: State, ep: int, keys: seq<string>, told: Option<int>, now: int) {
    Cached(s.failedRoutes, (ep, keys), told) && Kept(s.failedRoutes, (ep, keys), told, now)
  }

  lemma {:induction false} StepTellsRoute(settings: Settings, s: State, op: Op, s': State, ep: int, keys: seq<string>,
                                          told: Option<int>)
    requires Step(settings, s, op, s') && !op.Restart? && RouteTold(s, ep, keys, told, op.at)
    ensures RouteTold(s', ep, keys, After(told, RouteSays(ep, keys)(op)), op.at)
  {
    if op.Failure? || op.Success? {
      if op.Failure? {
        FailureMovesRoute(s, op, ep, keys);
      } else {
        SuccessMovesRoute(s, op, ep, keys);
      }
      CacheMoved(s.failedRoutes, s'.failedRoutes, (ep, keys), RouteSays(ep, keys)(op), told);
    } else {
      OthersLeaveMarks(settings, s, op, s');
    }
  }

  lemma {:induction false} RouteHistory(settings: Settings, states: seq<State>, ops: seq<Op>, n: nat, ep: int,
                                        keys: seq<string>, now: int)
    requires Trace(settings, states, ops) && states[0] == EMPTY && n <= |ops| && NotBefore(ops, n, now)
    requires forall m | 0 <= m < n :: !ops[m].Restart?
    ensures RouteTold(states[n], ep, keys, Told(ops, n, RouteSays(ep, keys)), now)
  {
    if n > 0 {
      ClockRises(settings, states, ops, n, now);
      var op, told := ops[n - 1], Told(ops, n - 1, RouteSays(ep, keys));
      RouteHistory(settings, states, ops, n - 1, ep, keys, op.at);
      StepTellsRoute(settings, states[n - 1], op, states[n], ep, keys, told);
    }
  }

  /** Over every run without a restart, a route counts as failed exactly if the last report of it is a failure
      that has not run out, or the last report of its signature is one, to the end of the day it runs out. */
  lemma {:induction false} UninterruptedRouteFailed(settings: Settings, states: seq<State>, ops: seq<Op>, n: nat, ep: int,
                                              hops: seq<string>, now: int)
    requires Trace(settings, states, ops) && states[0] == EMPTY && n <= |ops| && NotBefore(ops, n, now)
    requires forall m | 0 <= m < n :: !ops[m].Restart?
    ensures RouteFailed(states[n].failedRoutes, states[n].failedRouteRows, ep, hops, now) <==>
              var (told, stored) := (Told(ops, n, RouteSays(ep, Clean(hops))), Told(ops, n, SignatureSays(ep, Signature(Clean(hops)))));
              (told.Some? && now < told.value) || (stored.Some? && now < (stored.value / DAY + 1) * DAY)
  {
    RouteHistory(settings, states, ops, n, ep, Clean(hops), now);
    SignatureHistory(settings, states, ops, n, ep, Signature(Clean(hops)), now);
    var stored := Told(ops, n, SignatureSays(ep, Signature(Clean(hops))));
    if stored.Some? {
      DayHasNotEnded(stored.value, now);
    }
  }

  /** A key that signatures are joined and taken apart without harm to. */
  predicate PlainKey(key: string) {
    key != "" && forall c | c in key :: c != '>' && c != ','
  }

  predicate PlainKeys(keys: seq<string>) {
    keys != [] && forall i | 0 <= i < |keys| :: PlainKey(keys[i])
  }

  predicate PlainReports(ops: seq<Op>, n: nat) {
    forall m | 0 <= m < n && m < |ops| && (ops[m].Failure? || ops[m].Success?) && On(ops[m], ops[m].ep) ::
      PlainKeys(Clean(ops[m].hops))
  }

  lemma {:induction false} FirstPieceUnique(a: string, b: string, x: string, y: string)
    requires PlainKey(a) && PlainKey(b) && a + ">" + x == b + ">" + y
    ensures a == b && x == y
  {
    var s := a + ">" + x;
    assert s[|a|] == '>' && s[|b|] == '>';
    assert forall i | 0 <= i < |a| :: s[i] == a[i] && a[i] in a;
    assert forall i | 0 <= i < |b| :: s[i] == b[i] && b[i] in b;
    assert |a| == |b|;
    assert a == s[..|a|] == b && x == s[|a| + 1..] == y;
  }

  lemma {:induction false} OnePieceOnly(key: string, a: string, x: string)
    requires PlainKey(key)
    ensures key != a + ">" + x
  {
    var s := a + ">" + x;
    assert s[|a|] == '>' && s[|a|] in s;
  }

  /** Plain routes have signatures of their own. */
  lemma {:induction false} SignatureInjective(a: seq<string>, b: seq<string>)
    requires PlainKeys(a) && PlainKeys(b) && Signature(a) == Signature(b)
    ensures a == b
  {
    if |a| == 1 && |b| == 1 {
      assert a == [a[0]] && b == [b[0]];
    } else if |a| == 1 {
      OnePieceOnly(a[0], b[0], Signature(b[1..]));
    } else if |b| == 1 {
      OnePieceOnly(b[0], a[0], Signature(a[1..]));
    } else {
      FirstPieceUnique(a[0], b[0], Signature(a[1..]), Signature(b[1..]));
      SignatureInjective(a[1..], b[1..]);
      assert a == [a[0]] + a[1..] && b == [b[0]] + b[1..];
    }
  }

  lemma {:induction false} SaysAlike(ops: seq<Op>, n: nat, ep: int, keys: seq<string>)
    requires n <= |ops| && PlainReports(ops, n) && PlainKeys(keys)
    ensures Told(ops, n, SignatureSays(ep, Signature(keys))) == Told(ops, n, RouteSays(ep, keys))
  {
    if n > 0 {
      SaysAlike(ops, n - 1, ep, keys);
      var op := ops[n - 1];
      if On(op, ep) && Signature(Clean(op.hops)) == Signature(keys) {
        SignatureInjective(Clean(op.hops), keys);
      }
    }
  }

  /** What a plain report leaves in the table is read back as one key: its signature. */
  lemma {:induction false} ToldIsPlain(ops: seq<Op>, n: nat, ep: int, signature: string)
    requires n <= |ops| && PlainReports(ops, n) && Told(ops, n, SignatureSays(ep, signature)).Some?
    ensures SplitAtCommas(signature, "") == Piece(signature)
  {
    var op := ops[n - 1];
    if On(op, ep) && Signature(Clean(op.hops)) == signature {
      SignatureWithoutCommas(Clean(op.hops));
      SplitWithoutCommas(signature, "");
      assert "" + signature == signature;
    } else {
      ToldIsPlain(ops, n - 1, ep, signature);
    }
  }

  /** A plain route in the cache is what was told last of it: a restart reads back no other. */
  lemma {:induction false} RestartTellsRoute(settings: Settings, states: seq<State>, ops: seq<Op>, n: nat, ep: int,
                                             keys: seq<string>, cat: Catalog, now: int, s': State)
    requires Trace(settings, states, ops) && states[0] == EMPTY && n <= |ops| && NotBefore(ops, n, now)
    requires PlainReports(ops, n) && PlainKeys(keys) && RestartStep(settings, states[n], cat, now, s')
    ensures Cached(s'.failedRoutes, (ep, keys), Told(ops, n, RouteSays(ep, keys)))
  {
    var s := states[n];
    if (ep, keys) in s'.failedRoutes {
      var row :| row in s.failedRouteRows.Keys && ReadsAs(s.failedRouteRows, row, (ep, keys), now)
                 && s'.failedRoutes[(ep, keys)] == s.failedRouteRows[row];
      SignatureHistory(settings, states, ops, n, ep, row.1, now);
      assert row == (ep, row.1);
      ToldIsPlain(ops, n, ep, row.1);
      assert keys == [row.1] && Signature(keys) == row.1;
      SaysAlike(ops, n, ep, keys);
    }
  }

  lemma {:induction false} PlainCached(settings: Settings, states: seq<State>, ops: seq<Op>, n: nat, ep: int, keys: seq<string>)
    requires Trace(settings, states, ops) && states[0] == EMPTY && n <= |ops| && PlainReports(ops, n) && PlainKeys(keys)
    ensures Cached(states[n].failedRoutes, (ep, keys), Told(ops, n, RouteSays(ep, keys)))
  {
    if n > 0 {
      PlainCached(settings, states, ops, n - 1, ep, keys);
      assert StepAt(settings, states, ops, n - 1);
      var s, op, s' := states[n - 1], ops[n - 1], states[n];
      var told := Told(ops, n - 1, RouteSays(ep, keys));
      if op.Restart? {
        RestartTellsRoute(settings, states, ops, n - 1, ep, keys, op.cat, op.at, s');
      } else if op.Failure? || op.Success? {
        if op.Failure? {
          FailureMovesRoute(s, op, ep, keys);
        } else {
          SuccessMovesRoute(s, op, ep, keys);
        }
        CacheMoved(s.failedRoutes, s'.failedRoutes, (ep, keys), RouteSays(ep, keys)(op), told);
      } else {
        OthersLeaveMarks(settings, s, op, s');
      }
    }
  }

  /** Over every run, restarts included, in which no key that is reported contains ">" or a comma: a route counts
      as failed exactly if the last report of it is a failure, to the end of the UTC day in which that runs out. */
  lemma {:induction false} RouteFailedExactly(settings: Settings, states: seq<State>, ops: seq<Op>, n: nat, ep: int,
                                              route: seq<string>, now: int)
    requires Trace(settings, states, ops) && states[0] == EMPTY && n <= |ops| && NotBefore(ops, n, now)
    requires PlainReports(ops, n) && PlainKeys(route)
    ensures RouteFailed(states[n].failedRoutes, states[n].failedRouteRows, ep, route, now) <==>
              var told := Told(ops, n, RouteSays(ep, route)); told.Some? && now < (told.value / DAY + 1) * DAY
  {
    CleanPlain(route);
    SignatureHistory(settings, states, ops, n, ep, Signature(route), now);
    SaysAlike(ops, n, ep, route);
    PlainCached(settings, states, ops, n, ep, route);
    var told := Told(ops, n, RouteSays(ep, route));
    if told.Some? {
      DayHasNotEnded(told.value, now);
    }
  }

  lemma {:induction false} CleanPlain(keys: seq<string>)
    requires PlainKeys(keys)
    ensures Clean(keys) == keys
  {
    FilterAll(keys, (k: string) => k != "");
  }

  // ---------------------------------------------------------------------------------------------
  // A success calls a failure off

  /** The report can mark the route: by its keys, by its signature, or, when the service is restarted, by what
      its signature is read back as. */
  predicate CanMark(op: Op, ep: int, route: seq<string>, restarts: bool) {
    On(op, ep) && op.Failure? &&
    var keys := Clean(op.hops);
    || keys == route || Signature(keys) == Signature(route)
    || (restarts && SplitAtCommas(Signature(keys), "") == route)
  }

  /** No other stored mark of the endpoint would be read back as the route. */
  predicate ReadsAsNone(s: State, ep: int, route: seq<string>) {
    forall row | row in s.failedRouteRows && row.0 == ep :: SplitAtCommas(row.1, "") == route ==> row.1 == Signature(route)
  }

  ghost predicate Unmarked(s: State, ep: int, route: seq<string>, restarts: bool) {
    && (ep, route) !in s.failedRoutes && (ep, Signature(route)) !in s.failedRouteRows
    && (restarts ==> ReadsAsNone(s, ep, route))
  }

  lemma {:induction false} SuccessUnmarks(settings: Settings, s: State, op: Op, s': State, restarts: bool)
    requires Step(settings, s, op, s') && op.Success? && On(op, op.ep)
    requires restarts ==> ReadsAsNone(s, op.ep, Clean(op.hops))
    ensures Unmarked(s', op.ep, Clean(op.hops), restarts)
  {
  }

  lemma {:induction false} FailureLeavesUnmarked(s: State, op: Op, ep: int, route: seq<string>, restarts: bool)
    requires op.Failure? && Unmarked(s, ep, route, restarts) && !CanMark(op, ep, route, restarts)
    ensures Unmarked(AfterFailure(s, op.ep, op.pool, op.session, op.hops, op.cooldownSec, op.at), ep, route, restarts)
  {
  }

  lemma {:induction false} RestartLeavesUnmarked(settings: Settings, s: State, cat: Catalog, now: int, s': State, ep: int,
                                                 route: seq<string>)
    requires RestartStep(settings, s, cat, now, s') && Unmarked(s, ep, route, true)
    ensures Unmarked(s', ep, route, true)
  {
  }

  lemma {:induction false} StepLeavesUnmarked(settings: Settings, s: State, op: Op, s': State, ep: int, route: seq<string>,
                                              restarts: bool)
    requires Step(settings, s, op, s') && Unmarked(s, ep, route, restarts)
    requires !CanMark(op, ep, route, restarts) && (op.Restart? ==> restarts)
    ensures Unmarked(s', ep, route, restarts)
  {
    if op.Failure? {
      FailureLeavesUnmarked(s, op, ep, route, restarts);
    } else if op.Restart? {
      RestartLeavesUnmarked(settings, s, op.cat, op.at, s', ep, route);
    } else if !op.Success? {
      OthersLeaveMarks(settings, s, op, s');
    }
  }

  lemma {:induction false} StaysUnmarked(settings: Settings, states: seq<State>, ops: seq<Op>, r: nat, n: nat, ep: int,
                                         route: seq<string>, restarts: bool)
    requires Trace(settings, states, ops) && r <= n <= |ops| && Unmarked(states[r], ep, route, restarts)
    requires forall m | r <= m < n :: !CanMark(ops[m], ep, route, restarts) && (ops[m].Restart? ==> restarts)
    ensures Unmarked(states[n], ep, route, restarts)
  {
    if r < n {
      StaysUnmarked(settings, states, ops, r, n - 1, ep, route, restarts);
      assert StepAt(settings, states, ops, n - 1);
      StepLeavesUnmarked(settings, states[n - 1], ops[n - 1], states[n], ep, route, restarts);
    }
  }

  /** Once a route is reported to work it does not count as failed, in cache or table and across restarts, until
      a failure is reported that can mark it. */
  lemma {:induction false} SuccessClearsRoute(settings: Settings, states: seq<State>, ops: seq<Op>, r: nat, n: nat,
                                              restarts: bool, now: int)
    requires Trace(settings, states, ops) && r < n <= |ops| && ops[r].Success? && On(ops[r], ops[r].ep)
    requires restarts ==> ReadsAsNone(states[r], ops[r].ep, Clean(ops[r].hops))
    requires forall m | r < m < n ::
               !CanMark(ops[m], ops[r].ep, Clean(ops[r].hops), restarts) && (ops[m].Restart? ==> restarts)
    ensures !RouteFailed(states[n].failedRoutes, states[n].failedRouteRows, ops[r].ep, ops[r].hops, now)
  {
    assert StepAt(settings, states, ops, r);
    SuccessUnmarks(settings, states[r], ops[r], states[r + 1], restarts);
    StaysUnmarked(settings, states, ops, r + 1, n, ops[r].ep, Clean(ops[r].hops), restarts);
  }

  predicate NodeUnmarked(s: State, ep: int, key: string) {
    (ep, key) !in s.failedNodes && (ep, key) !in s.failedNodeRows
  }

  lemma {:induction false} StepLeavesNodeUnmarked(settings: Settings, s: State, op: Op, s': State, ep: int, key: string)
    requires Step(settings, s, op, s') && !NodeSays(ep, key)(op).Until?
    requires NodeUnmarked(s, ep, key) || NodeSays(ep, key)(op).Over?
    ensures NodeUnmarked(s', ep, key)
  {
    if op.Failure? {
      FailureMovesNode(s, op, ep, key);
    } else if op.Success? {
      SuccessMovesNode(s, op, ep, key);
    } else if op.Restart? {
      RestartTellsNode(settings, s, op.cat, op.at, s', ep, key, None);
    } else {
      OthersLeaveMarks(settings, s, op, s');
    }
  }

  /** Nor does any of its nodes, until a failure is reported of a route that begins with that node. */
  lemma {:induction false} SuccessClearsNodes(settings: Settings, states: seq<State>, ops: seq<Op>, r: nat, n: nat, key: string,
                                              now: int)
    requires Trace(settings, states, ops) && r < n <= |ops| && ops[r].Success? && On(ops[r], ops[r].ep)
    requires key in Clean(ops[r].hops)
    requires forall m | r < m < n :: ops[m].Failure? && On(ops[m], ops[r].ep) ==> Clean(ops[m].hops)[0] != key
    ensures NodeUnmarked(states[n], ops[r].ep, key)
    ensures !NodeFailed(states[n].failedNodes, states[n].failedNodeRows, ops[r].ep, key, now)
  {
    assert StepAt(settings, states, ops, n - 1);
    if r < n - 1 {
      SuccessClearsNodes(settings, states, ops, r, n - 1, key, now);
    }
    StepLeavesNodeUnmarked(settings, states[n - 1], ops[n - 1], states[n], ops[r].ep, key);
  }

  // ---------------------------------------------------------------------------------------------
  // Routes known to be healthy

  /** One entry for each route. */
  predicate OneEach(healthy: seq<HealthyRoute>) {
    forall i, j | 0 <= i < j < |healthy| :: healthy[i].endpoint != healthy[j].endpoint || healthy[i].keys != healthy[j].keys
  }

  /** The entry for the route is what was told last, and it is there until that runs out. */
  predicate Remembered(healthy: seq<HealthyRoute>, ep: int, keys: seq<string>, told: Option<int>, now: int) {
    && (forall h | h in healthy && h.endpoint == ep && h.keys == keys :: told == Some(h.expiresAt))
    && (told.Some? && now < told.value ==> HealthyRoute(ep, keys, told.value) in healthy)
  }

  lemma {:induction false} EntryPut(healthy: seq<HealthyRoute>, ep: int, keys: seq<string>, expiresAt: int, h: HealthyRoute)
    requires OneEach(healthy)
    ensures h in WithHealthy(healthy, ep, keys, expiresAt) <==>
              h == HealthyRoute(ep, keys, expiresAt) || (h in healthy && !(h.endpoint == ep && h.keys == keys))
  {
    if healthy != [] {
      var first, rest := healthy[0], healthy[1..];
      assert forall i | 0 <= i < |rest| :: rest[i] == healthy[i + 1];
      assert h in healthy <==> h == first || h in rest;
      if !(first.endpoint == ep && first.keys == keys) {
        EntryPut(rest, ep, keys, expiresAt, h);
      } else if h in rest {
        var i :| 0 <= i < |rest| && rest[i] == h;
      }
    }
  }

  lemma {:induction false} PutOneEach(healthy: seq<HealthyRoute>, ep: int, keys: seq<string>, expiresAt: int)
    requires OneEach(healthy)
    ensures OneEach(WithHealthy(healthy, ep, keys, expiresAt))
  {
    if healthy != [] {
      var first, rest := healthy[0], healthy[1..];
      assert forall i | 0 <= i < |rest| :: rest[i] == healthy[i + 1];
      if !(first.endpoint == ep && first.keys == keys) {
        PutOneEach(rest, ep, keys, expiresAt);
        var put := WithHealthy(rest, ep, keys, expiresAt);
        forall i | 0 <= i < |put| ensures put[i].endpoint != first.endpoint || put[i].keys != first.keys {
          EntryPut(rest, ep, keys, expiresAt, put[i]);
          assert put[i] in put;
        }
      }
    }
  }

  lemma {:induction false} FilterOneEach(healthy: seq<HealthyRoute>, keep: HealthyRoute -> bool)
    requires OneEach(healthy)
    ensures OneEach(Filter(healthy, keep))
  {
    if healthy != [] {
      assert forall i | 0 <= i < |healthy[1..]| :: healthy[1..][i] == healthy[i + 1];
      FilterOneEach(healthy[1..], keep);
      var first, rest := healthy[0], Filter(healthy[1..], keep);
      forall h | h in rest ensures h.endpoint != first.endpoint || h.keys != first.keys {
        var i :| 0 <= i < |healthy[1..]| && healthy[1..][i] == h;
      }
      assert forall i | 0 <= i < |rest| :: rest[i] in rest;
    }
  }

  lemma {:induction false} OthersLeaveHealthy(settings: Settings, s: State, op: Op, s': State)
    requires Step(settings, s, op, s') && (op.Request? || op.Bind? || op.Cleanup?)
    ensures s'.healthy == s.healthy || s'.healthy == StillHealthy(s.healthy, op.at)
  {
  }

  lemma {:induction false} PutTellsHealth(healthy: seq<HealthyRoute>, of: int, route: seq<string>, until: int, ep: int,
                                          keys: seq<string>, told: Option<int>, now: int)
    requires OneEach(healthy) && Remembered(healthy, ep, keys, told, now)
    ensures var healthy' := WithHealthy(healthy, of, route, until);
            OneEach(healthy') && Remembered(healthy', ep, keys, if of == ep && route == keys then Some(until) else told, now)
  {
    PutOneEach(healthy, of, route, until);
    forall h ensures h in WithHealthy(healthy, of, route, until) <==>
      h == HealthyRoute(of, route, until) || (h in healthy && !(h.endpoint == of && h.keys == route))
    {
      EntryPut(healthy, of, route, until, h);
    }
  }

  lemma {:induction false} CutTellsHealth(healthy: seq<HealthyRoute>, of: int, route: seq<string>, ep: int,
                                          keys: seq<string>, told: Option<int>, now: int)
    requires OneEach(healthy) && Remembered(healthy, ep, keys, told, now)
    ensures var healthy' := WithoutHealthy(healthy, of, route);
            OneEach(healthy') && Remembered(healthy', ep, keys, if of == ep && route == keys then None else told, now)
  {
    FilterOneEach(healthy, (h: HealthyRoute) => !(h.endpoint == of && h.keys == route));
  }

  lemma {:induction false} HealthyAfterReport(s: State, op: Op)
    requires op.Success? || op.Failure?
    ensures op.Success? ==>
              AfterSuccess(s, op.ep, op.hops, op.ttlSec, op.at).healthy ==
                if On(op, op.ep) then WithHealthy(s.healthy, op.ep, Clean(op.hops), RunsOut(op.at, op.ttlSec, 600)) else s.healthy
    ensures op.Failure? ==>
              AfterFailure(s, op.ep, op.pool, op.session, op.hops, op.cooldownSec, op.at).healthy ==
                if On(op, op.ep) then WithoutHealthy(s.healthy, op.ep, Clean(op.hops)) else s.healthy
  {
  }

  lemma {:induction false} ReportTellsHealth(healthy: seq<HealthyRoute>, op: Op, healthy': seq<HealthyRoute>, ep: int,
                                             keys: seq<string>, told: Option<int>)
    requires op.Success? || op.Failure?
    requires healthy' == if !On(op, op.ep) then healthy
                         else if op.Success? then WithHealthy(healthy, op.ep, Clean(op.hops), RunsOut(op.at, op.ttlSec, 600))
                         else WithoutHealthy(healthy, op.ep, Clean(op.hops))
    requires OneEach(healthy) && Remembered(healthy, ep, keys, told, op.at)
    ensures OneEach(healthy') && Remembered(healthy', ep, keys, After(told, HealthSays(ep, keys)(op)), op.at)
  {
    if op.Success? {
      PutTellsHealth(healthy, op.ep, Clean(op.hops), RunsOut(op.at, op.ttlSec, 600), ep, keys, told, op.at);
    } else {
      CutTellsHealth(healthy, op.ep, Clean(op.hops), ep, keys, told, op.at);
    }
  }

  lemma {:induction false} StepTellsHealth(settings: Settings, s: State, op: Op, s': State, ep: int, keys: seq<string>,
                                           told: Option<int>)
    requires Step(settings, s, op, s') && OneEach(s.healthy) && Remembered(s.healthy, ep, keys, told, op.at)
    ensures OneEach(s'.healthy) && Remembered(s'.healthy, ep, keys, After(told, HealthSays(ep, keys)(op)), op.at)
  {
    if op.Success? || op.Failure? {
      HealthyAfterReport(s, op);
      ReportTellsHealth(s.healthy, op, s'.healthy, ep, keys, told);
    } else if !op.Restart? {
      OthersLeaveHealthy(settings, s, op, s');
      FilterOneEach(s.healthy, (h: HealthyRoute) => op.at < h.expiresAt);
    }
  }

  lemma {:induction false} HealthHistory(settings: Settings, states: seq<State>, ops: seq<Op>, n: nat, ep: int,
                                         keys: seq<string>, now: int)
    requires Trace(settings, states, ops) && states[0] == EMPTY && n <= |ops| && NotBefore(ops, n, now)
    ensures OneEach(states[n].healthy)
    ensures Remembered(states[n].healthy, ep, keys, Told(ops, n, HealthSays(ep, keys)), now)
  {
    if n > 0 {
      ClockRises(settings, states, ops, n, now);
      var op, told := ops[n - 1], Told(ops, n - 1, HealthSays(ep, keys));
      HealthHistory(settings, states, ops, n - 1, ep, keys, op.at);
      StepTellsHealth(settings, states[n - 1], op, states[n], ep, keys, told);
    }
  }

  /** Over every run, restarts included: a route is known to be healthy until some time exactly if a success of
      it said so and neither a later report of it nor a restart came after. */
  lemma {:induction false} KnownHealthyExactly(settings: Settings, states: seq<State>, ops: seq<Op>, n: nat, h: HealthyRoute,
                                               now: int)
    requires Trace(settings, states, ops) && states[0] == EMPTY && n <= |ops| && NotBefore(ops, n, now) && now < h.expiresAt
    ensures h in states[n].healthy <==> Told(ops, n, HealthSays(h.endpoint, h.keys)) == Some(h.expiresAt)
  {
    HealthHistory(settings, states, ops, n, h.endpoint, h.keys, now);
  }

  /** So a session that follows no lease is served on a route known to be healthy, whenever one that matches its
      hops was reported to work: on the one that is known to be for the longest time. */
  lemma {:induction false} SuccessIsOffered(settings: Settings, states: seq<State>, ops: seq<Op>, i: nat, h: HealthyRoute)
    requires Trace(settings, states, ops) && states[0] == EMPTY && i < |ops| && ops[i].Request?
    requires Routable(settings, ops[i].ep)
    requires !Follows(settings, states[i], ops[i].session, ops[i].ep, ops[i].cat, ops[i].at)
    requires Told(ops, i, HealthSays(h.endpoint, h.keys)) == Some(h.expiresAt)
    requires IsHealthyChoice(states[i], ops[i].ep, settings.endpoints[ops[i].ep].hops, ops[i].cat, ops[i].at, h)
    ensures exists best: HealthyRoute ::
              && Told(ops, i, HealthSays(best.endpoint, best.keys)) == Some(best.expiresAt) && h.expiresAt <= best.expiresAt
              && IsHealthyChoice(states[i], ops[i].ep, settings.endpoints[ops[i].ep].hops, ops[i].cat, ops[i].at, best)
              && (ops[i].result.Some? ==> ops[i].result.value.hops == best.keys)
  {
    var s, op, hops := states[i], ops[i], settings.endpoints[ops[i].ep].hops;
    assert StepAt(settings, states, ops, i) && NotBefore(ops, i, op.at);
    KnownHealthyExactly(settings, states, ops, i, h, op.at);
    HealthyPickLastsLongest(s, op.ep, hops, op.cat, op.at);
    OtherwiseFresh(settings, s, op, states[i + 1]);
    var best :| best in s.healthy && IsHealthyChoice(s, op.ep, hops, op.cat, op.at, best)
                && PickHealthy(s, op.ep, hops, op.cat, op.at) == Some(best.keys) && h.expiresAt <= best.expiresAt;
    KnownHealthyExactly(settings, states, ops, i, best, op.at);
  }

  // ---------------------------------------------------------------------------------------------
  // Sticky sessions of an endpoint

  predicate Asks(op: Op, session: string, ep: int) {
    op.Request? && op.session == session && op.ep == ep
  }

  /** A request of the session was answered with a new lease. */
  predicate Grants(op: Op, session: string, ep: int) {
    Asks(op, session, ep) && op.result.Some? && op.result.value.leaseCreated
  }

  /** When a lease granted at `at` runs out. */
  function LeaseEnd(settings: Settings, ep: int, at: int): int
    requires ep in settings.endpoints
  {
    var own := settings.endpoints[ep].stickyTtl;
    RunsOut(at, if own == 0 then settings.defaultTtl else own, 3600)
  }

  /** The instance last bound to the session on the endpoint since its latest lease. */
  function BoundSince(ops: seq<Op>, session: string, ep: int, n: nat): string
    requires n <= |ops|
  {
    if n == 0 || Grants(ops[n - 1], session, ep) then ""
    else if ops[n - 1].Bind? && ops[n - 1].session == session && ops[n - 1].ep == ep then ops[n - 1].instanceId
    else BoundSince(ops, session, ep, n - 1)
  }

  predicate AllAvailable(hops: seq<string>, cat: Catalog) {
    forall k | k in hops :: k in cat.proxies && cat.proxies[k].available
  }

  /** The session does not report a failure at the endpoint's entry pool, all hops are available when it asks,
      and the service is not restarted. */
  predicate Leaves(op: Op, id: LeaseId, hops: seq<string>) {
    match op
    case Request(session, ep, cat, _, _, _) => session == id.0 && ep == id.2 ==> AllAvailable(hops, cat)
    case Failure(ep, pool, session, _, _, _) => (session, pool, ep) != id
    case Restart(_, _) => false
    case _ => true
  }

  predicate Leads(s: State, id: LeaseId, hops: seq<string>, until: int, bound: string) {
    && id in s.leases && s.leases[id].hops == hops != [] && s.leases[id].expiresAt == until
    && s.leases[id].instanceId == bound
  }

  lemma {:induction false} GrantLeads(settings: Settings, s: State, op: Op, s': State, session: string, ep: int)
    requires Step(settings, s, op, s') && Grants(op, session, ep)
    ensures Routable(settings, ep) && session != ""
    ensures Leads(s', IdOf(settings, session, ep), op.result.value.hops, LeaseEnd(settings, ep, op.at), "")
  {
  }

  /** While the lease leads, the session is answered from it. */
  lemma {:induction false} LedByLease(settings: Settings, s: State, op: Op, s': State, id: LeaseId, hops: seq<string>,
                                      until: int, bound: string)
    requires Step(settings, s, op, s') && ProperId(settings, id, id.2) && Leads(s, id, hops, until, bound)
    requires Asks(op, id.0, id.2) && AllAvailable(hops, op.cat) && op.at < until
    ensures op.result == Some(Routed(hops, false, bound, bound != "" && bound in op.live))
    ensures Leads(s', id, hops, until, bound)
  {
  }

  lemma {:induction false} OthersLeaveLease(settings: Settings, s: State, op: Op, s': State, id: LeaseId, hops: seq<string>,
                                            until: int, bound: string)
    requires Step(settings, s, op, s') && ProperId(settings, id, id.2) && Leads(s, id, hops, until, bound)
    requires Leaves(op, id, hops) && op.at < until && !Asks(op, id.0, id.2) && !op.Bind?
    ensures Leads(s', id, hops, until, bound)
  {
    if op.Request? {
      RequestTouchesOwnLease(settings, s, op, s', id);
    }
  }

  lemma {:induction false} BindLeavesLease(settings: Settings, s: State, op: Op, s': State, id: LeaseId, hops: seq<string>,
                                           until: int, bound: string)
    requires Step(settings, s, op, s') && ProperId(settings, id, id.2) && Leads(s, id, hops, until, bound) && op.Bind?
    ensures Leads(s', id, hops, until, if op.session == id.0 && op.ep == id.2 then op.instanceId else bound)
  {
  }

  lemma {:induction false} StillLeads(settings: Settings, states: seq<State>, ops: seq<Op>, id: LeaseId, hops: seq<string>,
                                      until: int, i: nat, j: nat)
    requires Trace(settings, states, ops) && ProperId(settings, id, id.2) && i <= j < |ops| && ops[j].at < until
    requires Leads(states[i], id, hops, until, BoundSince(ops, id.0, id.2, i))
    requires forall m | i <= m < j :: Leaves(ops[m], id, hops)
    ensures Leads(states[j], id, hops, until, BoundSince(ops, id.0, id.2, j))
    decreases j
  {
    if i < j {
      var n := j - 1;
      assert StepAt(settings, states, ops, j) && StepAt(settings, states, ops, n);
      var s, op, s' := states[n], ops[n], states[j];
      assert op.at <= EndOf(op) <= ops[j].at;
      StillLeads(settings, states, ops, id, hops, until, i, n);
      var bound := BoundSince(ops, id.0, id.2, n);
      if Asks(op, id.0, id.2) {
        LedByLease(settings, s, op, s', id, hops, until, bound);
      } else if op.Bind? {
        BindLeavesLease(settings, s, op, s', id, hops, until, bound);
      } else {
        OthersLeaveLease(settings, s, op, s', id, hops, until, bound);
      }
    }
  }

  lemma {:induction false} ReuseIsStored(settings: Settings, s: State, op: Op, s': State, id: LeaseId)
    requires Step(settings, s, op, s') && op.Request? && op.session != "" && op.result.Some? && Routable(settings, op.ep)
    requires id == IdOf(settings, op.session, op.ep) && Follows(settings, s, op.session, op.ep, op.cat, op.at)
    ensures id in s'.leases && s'.leases[id].hops == op.result.value.hops
    ensures id in s'.rows && s'.rows[id] == RowFor(s'.leases[id]) && s'.rows[id].lastAccessed == op.at
  {
  }

  lemma {:induction false} ConclusionStored(settings: Settings, s: State, id: LeaseId, endpoint: Endpoint,
                                            leases: map<LeaseId, MultiHopLease>, selection: Option<Selection>, cat: Catalog,
                                            now: int, live: set<string>, s': State, result: Option<Routed>)
    requires id.0 != "" && result.Some? && (selection.Some? ==> selection.value.hops != [])
    requires Concluded(settings, s, id, endpoint, leases, selection, cat, now, live, s', result)
    ensures id in s'.leases && s'.leases[id].hops == result.value.hops
    ensures id in s'.rows && s'.rows[id] == RowFor(s'.leases[id]) && s'.rows[id].lastAccessed == now
  {
  }

  /** Whenever a session is answered, the row stored for it is its lease, accessed now and with the hops it was
      told. */
  lemma {:induction false} AnswerIsStored(settings: Settings, s: State, op: Op, s': State, session: string, ep: int)
    requires Step(settings, s, op, s') && Asks(op, session, ep) && session != "" && op.result.Some? && Routable(settings, ep)
    ensures var id := IdOf(settings, session, ep);
            && id in s'.leases && s'.leases[id].hops == op.result.value.hops
            && id in s'.rows && s'.rows[id] == RowFor(s'.leases[id]) && s'.rows[id].lastAccessed == op.at
  {
    var id, endpoint := IdOf(settings, session, ep), settings.endpoints[ep];
    if Follows(settings, s, session, ep, op.cat, op.at) {
      ReuseIsStored(settings, s, op, s', id);
    } else {
      FreshConcluded(settings, s, op, s');
      ConclusionStored(settings, s, id, endpoint, LookedUp(s.leases, id, op.at), Select(s, ep, endpoint.hops, op.cat, op.at),
                       op.cat, op.at, op.live, s', op.result);
    }
  }

  /** The selection's egress IP is the one its exit resolves to, if that is known. */
  predicate NamesIp(cat: Catalog, selection: Selection)
    requires selection.hops != []
  {
    var ip := ResolvedIp(cat, selection.hops[|selection.hops| - 1]);
    ip != "" ==> selection.egressIp == ip
  }

  lemma {:induction false} FoundNamesIp(cat: Catalog, combo: seq<Proxy>)
    requires combo != []
    ensures NamesIp(cat, Found(cat, Some(combo)).value)
  {
    assert Keys(combo)[|combo| - 1] == combo[|combo| - 1].key;
  }

  lemma {:induction false} SelectionNamesIp(s: State, ep: int, hops: seq<int>, cat: Catalog, now: int)
    requires hops != [] && Select(s, ep, hops, cat, now).Some?
    ensures NamesIp(cat, Select(s, ep, hops, cat, now).value)
  {
    var preferred, combo := PickHealthy(s, ep, hops, cat, now), SearchHops(s, ep, hops, cat, now);
    if preferred.Some? {
      assert NamesIp(cat, Preferred(cat, preferred.value));
    } else {
      FoundNamesIp(cat, combo.value);
    }
  }

  lemma {:induction false} ConclusionNames(settings: Settings, s: State, id: LeaseId, endpoint: Endpoint,
                                           leases: map<LeaseId, MultiHopLease>, selection: Selection, cat: Catalog, now: int,
                                           live: set<string>, s': State, result: Option<Routed>)
    requires id.0 != "" && result.Some? && selection.hops != []
    requires Concluded(settings, s, id, endpoint, leases, Some(selection), cat, now, live, s', result)
    ensures id in s'.leases && result.value.hops == selection.hops
    ensures s'.leases[id].exitKey == selection.hops[|selection.hops| - 1] && s'.leases[id].egressIp == selection.egressIp
  {
  }

  /** A new lease has as its exit the last hop, and as its egress IP the one this is known to have. */
  lemma {:induction false} GrantNamesExit(settings: Settings, s: State, op: Op, s': State, session: string, ep: int)
    requires Step(settings, s, op, s') && Grants(op, session, ep) && Routable(settings, ep)
    ensures var id := IdOf(settings, session, ep);
            && id in s'.leases && op.result.value.hops != []
            && s'.leases[id].exitKey == op.result.value.hops[|op.result.value.hops| - 1]
            && var ip := ResolvedIp(op.cat, s'.leases[id].exitKey);
               ip != "" ==> s'.leases[id].egressIp == ip
  {
    var id, endpoint := IdOf(settings, session, ep), settings.endpoints[ep];
    GrantIsFresh(settings, s, op, s', session, ep);
    var selection := Select(s, ep, endpoint.hops, op.cat, op.at).value;
    SelectionNamesIp(s, ep, endpoint.hops, op.cat, op.at);
    FreshConcluded(settings, s, op, s');
    ConclusionNames(settings, s, id, endpoint, LookedUp(s.leases, id, op.at), selection, op.cat, op.at, op.live, s', op.result);
  }

  lemma {:induction false} GrantIsFresh(settings: Settings, s: State, op: Op, s': State, session: string, ep: int)
    requires Step(settings, s, op, s') && Grants(op, session, ep) && Routable(settings, ep)
    ensures session != "" && !Follows(settings, s, session, ep, op.cat, op.at)
    ensures Select(s, ep, settings.endpoints[ep].hops, op.cat, op.at).Some?
  {
  }

  lemma {:induction false} GrantedAt(settings: Settings, states: seq<State>, ops: seq<Op>, session: string, ep: int, i: nat)
    requires Trace(settings, states, ops) && i < |ops| && Routable(settings, ep) && Grants(ops[i], session, ep)
    ensures session != ""
    ensures Leads(states[i + 1], IdOf(settings, session, ep), ops[i].result.value.hops, LeaseEnd(settings, ep, ops[i].at), "")
  {
    assert StepAt(settings, states, ops, i);
    GrantLeads(settings, states[i], ops[i], states[i + 1], session, ep);
  }

  /** A session that has been granted a lease is answered from it until the lease's time is up: with the same
      hops, no further lease, and the instance bound to it meanwhile. */
  lemma {:induction false} EndpointSticky(settings: Settings, states: seq<State>, ops: seq<Op>, session: string, ep: int,
                                          i: nat, j: nat)
    requires Trace(settings, states, ops) && i < j < |ops| && ep > 0 && Routable(settings, ep)
    requires Grants(ops[i], session, ep) && Asks(ops[j], session, ep) && ops[j].at < LeaseEnd(settings, ep, ops[i].at)
    requires forall m | i < m <= j :: Leaves(ops[m], IdOf(settings, session, ep), ops[i].result.value.hops)
    ensures var bound := BoundSince(ops, session, ep, j);
            ops[j].result == Some(Routed(ops[i].result.value.hops, false, bound, bound != "" && bound in ops[j].live))
  {
    GrantedAt(settings, states, ops, session, ep, i);
    var id, hops, until := IdOf(settings, session, ep), ops[i].result.value.hops, LeaseEnd(settings, ep, ops[i].at);
    StillLeads(settings, states, ops, id, hops, until, i + 1, j);
    assert Leaves(ops[j], id, hops) && StepAt(settings, states, ops, j);
    LedByLease(settings, states[j], ops[j], states[j + 1], id, hops, until, BoundSince(ops, session, ep, j));
  }

  lemma {:induction false} NotLedByLease(settings: Settings, s: State, op: Op, s': State, id: LeaseId, hops: seq<string>,
                                         until: int, bound: string)
    requires Step(settings, s, op, s') && ProperId(settings, id, id.2) && Leads(s, id, hops, until, bound)
    requires Asks(op, id.0, id.2) && !AllAvailable(hops, op.cat)
    ensures op.result.Some? ==> op.result.value.leaseCreated
  {
  }

  /** If one of its hops is not available the lease is not used: the request is answered with a new one, if at all. */
  lemma {:induction false} UnavailableNotReused(settings: Settings, states: seq<State>, ops: seq<Op>, session: string, ep: int,
                                                i: nat, j: nat)
    requires Trace(settings, states, ops) && i < j < |ops| && ep > 0 && Routable(settings, ep)
    requires Grants(ops[i], session, ep) && Asks(ops[j], session, ep) && ops[j].at < LeaseEnd(settings, ep, ops[i].at)
    requires forall m | i < m < j :: Leaves(ops[m], IdOf(settings, session, ep), ops[i].result.value.hops)
    requires !AllAvailable(ops[i].result.value.hops, ops[j].cat)
    ensures ops[j].result.Some? ==> ops[j].result.value.leaseCreated
  {
    GrantedAt(settings, states, ops, session, ep, i);
    var id, hops, until := IdOf(settings, session, ep), ops[i].result.value.hops, LeaseEnd(settings, ep, ops[i].at);
    StillLeads(settings, states, ops, id, hops, until, i + 1, j);
    assert StepAt(settings, states, ops, j);
    NotLedByLease(settings, states[j], ops[j], states[j + 1], id, hops, until, BoundSince(ops, session, ep, j));
  }

  /** A clean-up takes exactly the leases and rows whose time is up; a restart brings back a lease for every
      stored endpoint row, that says what the row says. */
  lemma {:induction false} OnlyTheDeadGo(settings: Settings, s: State, op: Op, s': State, id: LeaseId)
    requires Step(settings, s, op, s')
    ensures op.Cleanup? ==>
              && (id in s'.leases <==> id in s.leases && op.at < s.leases[id].expiresAt)
              && (id in s'.leases ==> s'.leases[id] == s.leases[id])
              && (id in s'.rows <==> id in s.rows && op.storeAt <= s.rows[id].expiresAt)
              && (id in s'.rows ==> s'.rows[id] == s.rows[id])
    ensures op.Restart? ==>
              && s'.rows == s.rows && (id in s'.leases <==> id in s.rows && id.2 > 0)
              && (id in s'.leases ==> RowFor(s'.leases[id]) == s.rows[id])
  {
  }

  /** Binding an instance to a session with a lease, in memory or in the table alone, leaves it with both a lease
      and a row that name the instance and else are what they were. */
  lemma {:induction false} BindReachesBoth(settings: Settings, s: State, op: Op, s': State)
    requires op.Bind? && Step(settings, s, op, s') && Routable(settings, op.ep)
    ensures var id := IdOf(settings, op.session, op.ep);
            if id !in s.leases && id !in s.rows then s' == s
            else
              && id in s'.leases && id in s'.rows && s'.rows[id] == RowFor(s'.leases[id])
              && s'.rows[id] == (if id in s.leases then RowFor(s.leases[id]) else s.rows[id]).(instanceId := op.instanceId)
              && (id in s.leases ==> s'.leases[id].hops == s.leases[id].hops)
  {
  }

  /** Neither lease nor row outlasts `until`. */
  predicate OverBy(s: State, id: LeaseId, until: int) {
    && (id in s.leases ==> s.leases[id].expiresAt <= until)
    && (id in s.rows ==> s.rows[id].expiresAt <= until)
  }

  lemma {:induction false} GrantOverBy(settings: Settings, s: State, op: Op, s': State, session: string, ep: int)
    requires Step(settings, s, op, s') && Grants(op, session, ep) && Routable(settings, ep)
    ensures OverBy(s', IdOf(settings, session, ep), LeaseEnd(settings, ep, op.at))
  {
  }

  lemma {:induction false} ReuseKeepsOverBy(settings: Settings, s: State, op: Op, s': State, id: LeaseId, until: int)
    requires Step(settings, s, op, s') && ProperId(settings, id, id.2) && OverBy(s, id, until)
    requires Asks(op, id.0, id.2) && op.result.Some? && !op.result.value.leaseCreated
    ensures OverBy(s', id, until)
  {
  }

  lemma {:induction false} BindKeepsOverBy(settings: Settings, s: State, op: Op, s': State, id: LeaseId, until: int)
    requires Step(settings, s, op, s') && op.Bind? && OverBy(s, id, until)
    ensures OverBy(s', id, until)
  {
  }

  lemma {:induction false} StepKeepsOverBy(settings: Settings, s: State, op: Op, s': State, id: LeaseId, until: int)
    requires Step(settings, s, op, s') && ProperId(settings, id, id.2) && OverBy(s, id, until)
    requires Asks(op, id.0, id.2) ==> op.result.Some? && !op.result.value.leaseCreated
    ensures OverBy(s', id, until)
  {
    if Asks(op, id.0, id.2) {
      ReuseKeepsOverBy(settings, s, op, s', id, until);
    } else if op.Request? {
      RequestTouchesOwnLease(settings, s, op, s', id);
    } else if op.Failure? {
      FailureOnlyRemoves(settings, s, op, s', id);
    } else if op.Success? {
      SuccessRemovesNothing(settings, s, op, s', id);
    } else if op.Bind? {
      BindKeepsOverBy(settings, s, op, s', id, until);
    }
  }

  lemma {:induction false} StaysOverBy(settings: Settings, states: seq<State>, ops: seq<Op>, id: LeaseId, until: int, i: nat, j: nat)
    requires Trace(settings, states, ops) && ProperId(settings, id, id.2) && i <= j <= |ops| && OverBy(states[i], id, until)
    requires forall m | i <= m < j :: Asks(ops[m], id.0, id.2) ==> ops[m].result.Some? && !ops[m].result.value.leaseCreated
    ensures OverBy(states[j], id, until)
    decreases j
  {
    if i < j {
      StaysOverBy(settings, states, ops, id, until, i, j - 1);
      assert StepAt(settings, states, ops, j - 1);
      StepKeepsOverBy(settings, states[j - 1], ops[j - 1], states[j], id, until);
    }
  }

  lemma {:induction false} OverByFrom(settings: Settings, states: seq<State>, ops: seq<Op>, session: string, ep: int, i: nat)
    requires Trace(settings, states, ops) && i < |ops| && Routable(settings, ep) && Grants(ops[i], session, ep)
    ensures session != "" && OverBy(states[i + 1], IdOf(settings, session, ep), LeaseEnd(settings, ep, ops[i].at))
  {
    GrantedAt(settings, states, ops, session, ep, i);
    assert StepAt(settings, states, ops, i);
    GrantOverBy(settings, states[i], ops[i], states[i + 1], session, ep);
  }

  lemma {:induction false} NothingReused(settings: Settings, s: State, op: Op, s': State, session: string, ep: int, until: int)
    requires Step(settings, s, op, s') && Asks(op, session, ep) && session != "" && Routable(settings, ep)
    requires OverBy(s, IdOf(settings, session, ep), until) && until <= op.at
    ensures op.result.Some? ==> op.result.value.leaseCreated
  {
  }

  /** Once its time is up the lease is not used again, restarts and bindings or not: the next request that is
      answered is answered with a new one. */
  lemma {:induction false} LeaseRunsOut(settings: Settings, states: seq<State>, ops: seq<Op>, session: string, ep: int,
                                        i: nat, j: nat)
    requires Trace(settings, states, ops) && i < j < |ops| && ep > 0 && Routable(settings, ep)
    requires Grants(ops[i], session, ep) && Asks(ops[j], session, ep) && LeaseEnd(settings, ep, ops[i].at) <= ops[j].at
    requires forall m | i < m < j :: Asks(ops[m], session, ep) ==> ops[m].result.Some? && !ops[m].result.value.leaseCreated
    ensures ops[j].result.Some? ==> ops[j].result.value.leaseCreated
  {
    var id, until := IdOf(settings, session, ep), LeaseEnd(settings, ep, ops[i].at);
    OverByFrom(settings, states, ops, session, ep, i);
    StaysOverBy(settings, states, ops, id, until, i + 1, j);
    assert StepAt(settings, states, ops, j);
    NothingReused(settings, states[j], ops[j], states[j + 1], session, ep, until);
  }
}
