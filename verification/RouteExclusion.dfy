/** What the marks of failed routes keep away from whom, over whole runs and across restarts. */
module RouteExclusion {
  import opened Common
  import opened EndpointRouting
  import opened Timestamps
  import StickyRouting

  datatype Op =
    | Request(session: string, ep: int, cat: Catalog, at: int, live: set<string>, result: Option<Routed>)
    | Failure(ep: int, pool: int, session: string, hops: seq<string>, cooldownSec: int, at: int)
    | Success(ep: int, hops: seq<string>, ttlSec: int, at: int)
    | Bind(session: string, ep: int, instanceId: string, cat: Catalog, at: int)
    | Cleanup(at: int, storeAt: int)
    | Restart(cat: Catalog, at: int)

  ghost predicate Step(settings: Settings, s: State, op: Op, s': State) {
    match op
    case Request(session, ep, cat, at, live, result) => RequestStep(settings, s, session, ep, cat, at, live, s', result)
    case Failure(ep, pool, session, hops, cooldownSec, at) => s' == AfterFailure(s, ep, pool, session, hops, cooldownSec, at)
    case Success(ep, hops, ttlSec, at) => s' == AfterSuccess(s, ep, hops, ttlSec, at)
    case Bind(session, ep, instanceId, cat, at) => BindStep(settings, s, session, ep, instanceId, cat, s')
    case Cleanup(at, storeAt) => at <= storeAt && s' == AfterCleanup(s, at, storeAt)
    case Restart(cat, at) => RestartStep(settings, s, cat, at, s')
  }

  function EndOf(op: Op): int {
    if op.Cleanup? then op.storeAt else op.at
  }

  ghost predicate StepAt(settings: Settings, states: seq<State>, ops: seq<Op>, i: nat)
    requires i < |ops| && |states| == |ops| + 1
  {
    Step(settings, states[i], ops[i], states[i + 1]) && (i > 0 ==> EndOf(ops[i - 1]) <= ops[i].at)
  }

  /** Operations of any sessions on any endpoints, one after the other under a clock that does not go back. */
  ghost predicate Trace(settings: Settings, states: seq<State>, ops: seq<Op>) {
    && |states| == |ops| + 1
    && forall i | 0 <= i < |ops| :: StepAt(settings, states, ops, i)
  }

  const EMPTY := State(map[], map[], map[], [], map[], map[], map[])

  // ---------------------------------------------------------------------------------------------
  // One request while a route is marked

  /** The session's lease that a request would follow. */
  predicate Follows(settings: Settings, s: State, session: string, ep: int, cat: Catalog, now: int)
    requires Routable(settings, ep)
  {
    var id := IdOf(settings, session, ep);
    session != "" && id in s.leases && now < s.leases[id].expiresAt && Reusable(s.leases[id], cat)
  }

  lemma {:induction false} LeaseFollowed(settings: Settings, s: State, op: Op, s': State)
    requires op.Request? && Step(settings, s, op, s') && Routable(settings, op.ep)
    requires Follows(settings, s, op.session, op.ep, op.cat, op.at)
    ensures op.result.Some? && op.result.value.hops == s.leases[IdOf(settings, op.session, op.ep)].hops
  {
  }

  lemma {:induction false} ConclusionTold(settings: Settings, s: State, id: LeaseId, endpoint: Endpoint,
                                          leases: map<LeaseId, MultiHopLease>, selection: Option<Selection>, cat: Catalog,
                                          now: int, live: set<string>, s': State, result: Option<Routed>)
    requires selection.Some? ==> selection.value.hops != []
    requires Concluded(settings, s, id, endpoint, leases, selection, cat, now, live, s', result)
    ensures result.Some? ==> selection.Some? && result.value.hops == selection.value.hops
  {
  }

  lemma {:induction false} OtherwiseFresh(settings: Settings, s: State, op: Op, s': State)
    requires op.Request? && Step(settings, s, op, s') && Routable(settings, op.ep)
    requires !Follows(settings, s, op.session, op.ep, op.cat, op.at)
    ensures var selection := Select(s, op.ep, settings.endpoints[op.ep].hops, op.cat, op.at);
            op.result.Some? ==> selection.Some? && op.result.value.hops == selection.value.hops
  {
    var id, endpoint := IdOf(settings, op.session, op.ep), settings.endpoints[op.ep];
    FreshConcluded(settings, s, op, s');
    ConclusionTold(settings, s, id, endpoint, LookedUp(s.leases, id, op.at), Select(s, op.ep, endpoint.hops, op.cat, op.at),
                   op.cat, op.at, op.live, s', op.result);
  }

  /** While a route is marked as failed, a request of any session is given it exactly when the session has a
      live lease on it whose hops are all available. */
  lemma {:induction false} MarkedRouteExactly(settings: Settings, s: State, op: Op, s': State, route: seq<string>)
    requires op.Request? && Step(settings, s, op, s')
    requires RouteFailed(s.failedRoutes, s.failedRouteRows, op.ep, route, op.at)
    ensures (op.result.Some? && op.result.value.hops == route) <==>
              && Routable(settings, op.ep) && Follows(settings, s, op.session, op.ep, op.cat, op.at)
              && s.leases[IdOf(settings, op.session, op.ep)].hops == route
  {
    if Routable(settings, op.ep) {
      if Follows(settings, s, op.session, op.ep, op.cat, op.at) {
        LeaseFollowed(settings, s, op, s');
      } else {
        OtherwiseFresh(settings, s, op, s');
        var hops := settings.endpoints[op.ep].hops;
        if Select(s, op.ep, hops, op.cat, op.at).Some? {
          SelectionSound(s, op.ep, hops, op.cat, op.at);
        }
      }
    }
  }

  lemma {:induction false} ReportedFacts(s: State, op: Op)
    requires op.Failure? && op.ep > 0 && Clean(op.hops) == op.hops != []
    ensures var s' := AfterFailure(s, op.ep, op.pool, op.session, op.hops, op.cooldownSec, op.at);
            && s'.leases == WithoutLease(s, op.ep, op.pool, op.session).leases
            && (op.ep, op.hops) in s'.failedRoutes && s'.failedRoutes[(op.ep, op.hops)] == op.at + Cooldown(op.cooldownSec)
  {
  }

  /** What is left to follow after a report. */
  lemma {:induction false} FollowsAfterReport(settings: Settings, s: State, s1: State, report: Op, cat: Catalog, now: int)
    requires report.Failure? && report.ep > 0 && Routable(settings, report.ep)
    requires s1.leases == WithoutLease(s, report.ep, report.pool, report.session).leases
    ensures Follows(settings, s1, report.session, report.ep, cat, now) <==>
              report.pool != IdOf(settings, report.session, report.ep).1 && Follows(settings, s, report.session, report.ep, cat, now)
    ensures Follows(settings, s1, report.session, report.ep, cat, now) ==>
              var id := IdOf(settings, report.session, report.ep);
              s1.leases[id] == s.leases[id]
  {
  }

  /** After a report, the session that made it is given the route exactly if it had a live lease on it whose hops
      are all available, and named another pool than the endpoint's entry pool. */
  lemma {:induction false} ReportNeedsEntryPool(settings: Settings, s: State, report: Op, op: Op, s2: State)
    requires report.Failure? && op.Request?
    requires Step(settings, AfterFailure(s, report.ep, report.pool, report.session, report.hops, report.cooldownSec, report.at),
                  op, s2)
    requires op.session == report.session && op.ep == report.ep > 0 && Routable(settings, op.ep)
    requires Clean(report.hops) == report.hops != [] && report.at <= op.at < report.at + Cooldown(report.cooldownSec)
    ensures (op.result.Some? && op.result.value.hops == report.hops) <==>
              && report.pool != IdOf(settings, op.session, op.ep).1
              && Follows(settings, s, op.session, op.ep, op.cat, op.at)
              && s.leases[IdOf(settings, op.session, op.ep)].hops == report.hops
  {
    var s1 := AfterFailure(s, report.ep, report.pool, report.session, report.hops, report.cooldownSec, report.at);
    ReportedFacts(s, report);
    FollowsAfterReport(settings, s, s1, report, op.cat, op.at);
    MarkedRouteExactly(settings, s1, op, s2, report.hops);
  }

  // ---------------------------------------------------------------------------------------------
  // How long a mark stands

  /** A failed route and when its report expires.  With `restarts` the service may be restarted meanwhile, and
      the mark that counts is the stored one. */
  datatype Ban = Ban(ep: int, route: seq<string>, until: int, restarts: bool)

  predicate ProperBan(b: Ban) {
    b.ep > 0 && b.route == Clean(b.route) != []
  }

  /** Does a report about `hops` concern the mark that counts? */
  predicate Concerns(b: Ban, ep: int, hops: seq<string>) {
    ep == b.ep && if b.restarts then Signature(Clean(hops)) == Signature(b.route) else Clean(hops) == b.route
  }

  predicate Marked(s: State, b: Ban) {
    if b.restarts then
      (b.ep, Signature(b.route)) in s.failedRouteRows && s.failedRouteRows[(b.ep, Signature(b.route))] >= b.until
    else
      (b.ep, b.route) in s.failedRoutes && s.failedRoutes[(b.ep, b.route)] >= b.until
  }

  /** The report is not called off: no success of the route is reported, a further failure lasts as long, and
      restarts come only where the stored mark is the one that counts. */
  predicate LeavesStanding(op: Op, b: Ban) {
    && EndOf(op) < b.until
    && (op.Success? ==> !Concerns(b, op.ep, op.hops))
    && (op.Failure? && Concerns(b, op.ep, op.hops) ==> op.at + Cooldown(op.cooldownSec) >= b.until)
    && (op.Restart? ==> b.restarts)
  }

  predicate Reports(op: Op, b: Ban) {
    op.Failure? && op.ep == b.ep && Clean(op.hops) == b.route && op.at + Cooldown(op.cooldownSec) >= b.until
  }

  predicate Standing(ops: seq<Op>, r: nat, b: Ban) {
    forall i | r <= i < |ops| :: LeavesStanding(ops[i], b)
  }

  /** A marked route counts as failed, whichever mark it is. */
  lemma {:induction false} MarkedIsFailed(s: State, b: Ban, now: int)
    requires Marked(s, b) && ProperBan(b) && now < b.until
    ensures RouteFailed(s.failedRoutes, s.failedRouteRows, b.ep, b.route, now)
  {
  }

  lemma {:induction false} ReportMarks(settings: Settings, s: State, op: Op, s': State, b: Ban)
    requires ProperBan(b) && Reports(op, b) && Step(settings, s, op, s')
    ensures Marked(s', b)
  {
  }

  lemma {:induction false} FailureKeepsMark(s: State, op: Op, b: Ban)
    requires op.Failure? && LeavesStanding(op, b) && Marked(s, b)
    ensures Marked(AfterFailure(s, op.ep, op.pool, op.session, op.hops, op.cooldownSec, op.at), b)
  {
  }

  lemma {:induction false} SuccessKeepsMark(s: State, op: Op, b: Ban)
    requires op.Success? && LeavesStanding(op, b) && Marked(s, b)
    ensures Marked(AfterSuccess(s, op.ep, op.hops, op.ttlSec, op.at), b)
  {
  }

  /** Requests drop nothing but marks that have run out; bindings and clean-ups leave the marks alone. */
  lemma {:induction false} OthersLeaveMarks(settings: Settings, s: State, op: Op, s': State)
    requires Step(settings, s, op, s') && (op.Request? || op.Bind? || op.Cleanup?)
    ensures s'.failedRouteRows == s.failedRouteRows && s'.failedNodeRows == s.failedNodeRows
    ensures Trimmed(s.failedRoutes, s'.failedRoutes, op.at)
    ensures Trimmed(s.failedNodes, s'.failedNodes, op.at)
  {
  }

  lemma {:induction false} RestartKeepsMark(settings: Settings, s: State, op: Op, s': State, b: Ban)
    requires op.Restart? && Step(settings, s, op, s') && LeavesStanding(op, b) && Marked(s, b)
    ensures Marked(s', b)
  {
    assert StoredAsFailed(s.failedRouteRows[(b.ep, Signature(b.route))], op.at);
  }

  lemma {:induction false} OthersKeepMark(settings: Settings, s: State, op: Op, s': State, b: Ban)
    requires !op.Failure? && !op.Success?
    requires Step(settings, s, op, s') && LeavesStanding(op, b) && Marked(s, b)
    ensures Marked(s', b)
  {
    if op.Restart? {
      RestartKeepsMark(settings, s, op, s', b);
    } else {
      OthersLeaveMarks(settings, s, op, s');
    }
  }

  /** From the report on the route counts as failed until the report expires. */
  lemma {:induction false} MarkedThroughout(settings: Settings, states: seq<State>, ops: seq<Op>, b: Ban, r: nat, i: nat)
    requires Trace(settings, states, ops) && ProperBan(b)
    requires r < |ops| && Reports(ops[r], b) && Standing(ops, r, b) && r < i <= |ops|
    ensures Marked(states[i], b)
  {
    assert StepAt(settings, states, ops, i - 1);
    if i == r + 1 {
      ReportMarks(settings, states[r], ops[r], states[i], b);
    } else {
      MarkedThroughout(settings, states, ops, b, r, i - 1);
      var op := ops[i - 1];
      assert LeavesStanding(op, b);
      if op.Failure? {
        FailureKeepsMark(states[i - 1], op, b);
      } else if op.Success? {
        SuccessKeepsMark(states[i - 1], op, b);
      } else {
        OthersKeepMark(settings, states[i - 1], op, states[i], b);
      }
    }
  }

  /** Over every run, restarts included: from a report until it expires, any session is given the route exactly
      while it has a live lease on it whose hops are all available. */
  lemma {:induction false} GivenOnlyByLease(settings: Settings, states: seq<State>, ops: seq<Op>, b: Ban, r: nat, i: nat)
    requires Trace(settings, states, ops) && ProperBan(b)
    requires r < |ops| && Reports(ops[r], b) && Standing(ops, r, b)
    requires r < i < |ops| && ops[i].Request? && ops[i].ep == b.ep
    ensures (ops[i].result.Some? && ops[i].result.value.hops == b.route) <==>
              && Routable(settings, b.ep) && Follows(settings, states[i], ops[i].session, b.ep, ops[i].cat, ops[i].at)
              && states[i].leases[IdOf(settings, ops[i].session, b.ep)].hops == b.route
  {
    MarkedThroughout(settings, states, ops, b, r, i);
    assert StepAt(settings, states, ops, i) && LeavesStanding(ops[i], b);
    MarkedIsFailed(states[i], b, ops[i].at);
    MarkedRouteExactly(settings, states[i], ops[i], states[i + 1], b.route);
  }

  // ---------------------------------------------------------------------------------------------
  // Who can come by a lease on a marked route

  /** The lease id of a session on the endpoint. */
  predicate ProperId(settings: Settings, id: LeaseId, ep: int) {
    id.0 != "" && id.2 == ep > 0 && Routable(settings, ep) && id == IdOf(settings, id.0, ep)
  }

  function TtlOf(settings: Settings, id: LeaseId): int
    requires ProperId(settings, id, id.2)
  {
    Ttl(settings, settings.endpoints[id.2])
  }

  /** A live row has a live lease in memory, and no lease outlasts the endpoint's time to live. */
  predicate Backed(s: State, id: LeaseId, ttl: int, now: int) {
    && (id in s.leases ==> s.leases[id].expiresAt <= now + ttl)
    && (id in s.rows && now < s.rows[id].expiresAt ==>
          id in s.leases && s.rows[id].expiresAt <= s.leases[id].expiresAt)
  }

  predicate NotOn(s: State, id: LeaseId, route: seq<string>, now: int) {
    id in s.leases && now < s.leases[id].expiresAt ==> s.leases[id].hops != route
  }

  /** The session holds no live lease on the route, and no live row could bring one back. */
  predicate OffRoute(settings: Settings, s: State, id: LeaseId, route: seq<string>, now: int)
    requires ProperId(settings, id, id.2)
  {
    Backed(s, id, TtlOf(settings, id), now) && NotOn(s, id, route, now)
  }

  lemma {:induction false} OffRouteLater(settings: Settings, s: State, id: LeaseId, route: seq<string>, now: int, later: int)
    requires ProperId(settings, id, id.2) && now <= later
    ensures Backed(s, id, TtlOf(settings, id), now) ==> Backed(s, id, TtlOf(settings, id), later)
    ensures NotOn(s, id, route, now) ==> NotOn(s, id, route, later)
  {
  }

  /** Lease and row of an id stay what they were. */
  predicate Untouched(leases: map<LeaseId, MultiHopLease>, rows: map<LeaseId, LeaseRow>, s': State, id: LeaseId) {
    && (id in s'.leases <==> id in leases) && (id in leases ==> s'.leases[id] == leases[id])
    && (id in s'.rows <==> id in rows) && (id in rows ==> s'.rows[id] == rows[id])
  }

  lemma {:induction false} ConclusionTouchesOwn(settings: Settings, s: State, own: LeaseId, endpoint: Endpoint,
                                                leases: map<LeaseId, MultiHopLease>, selection: Option<Selection>, cat: Catalog,
                                                now: int, live: set<string>, s': State, result: Option<Routed>, id: LeaseId)
    requires selection.Some? ==> selection.value.hops != []
    requires Concluded(settings, s, own, endpoint, leases, selection, cat, now, live, s', result) && id != own
    ensures Untouched(leases, s.rows, s', id)
  {
  }

  lemma {:induction false} FollowingTouchesOwn(settings: Settings, s: State, op: Op, s': State, id: LeaseId)
    requires op.Request? && Step(settings, s, op, s') && Routable(settings, op.ep) && id != IdOf(settings, op.session, op.ep)
    requires Follows(settings, s, op.session, op.ep, op.cat, op.at)
    ensures Untouched(s.leases, s.rows, s', id)
  {
  }

  /** What a request does to a lease and row that are not its session's. */
  lemma {:induction false} RequestTouchesOwnLease(settings: Settings, s: State, op: Op, s': State, id: LeaseId)
    requires op.Request? && Step(settings, s, op, s') && id.0 != ""
    requires !(Routable(settings, op.ep) && id == IdOf(settings, op.session, op.ep))
    ensures Untouched(s.leases, s.rows, s', id)
  {
    if Routable(settings, op.ep) {
      if Follows(settings, s, op.session, op.ep, op.cat, op.at) {
        FollowingTouchesOwn(settings, s, op, s', id);
      } else {
        var own, endpoint := IdOf(settings, op.session, op.ep), settings.endpoints[op.ep];
        FreshConcluded(settings, s, op, s');
        ConclusionTouchesOwn(settings, s, own, endpoint, LookedUp(s.leases, own, op.at),
                             Select(s, op.ep, endpoint.hops, op.cat, op.at), op.cat, op.at, op.live, s', op.result, id);
      }
    }
  }

  lemma {:induction false} OwnRequestBacked(settings: Settings, s: State, op: Op, s': State, id: LeaseId)
    requires op.Request? && Step(settings, s, op, s') && ProperId(settings, id, op.ep) && op.session == id.0
    requires Backed(s, id, TtlOf(settings, id), op.at)
    ensures Backed(s', id, TtlOf(settings, id), op.at)
  {
  }

  /** A request never moves its session's lease onto a marked route. */
  lemma {:induction false} OwnRequestNotOn(settings: Settings, s: State, op: Op, s': State, id: LeaseId, route: seq<string>)
    requires op.Request? && Step(settings, s, op, s') && ProperId(settings, id, op.ep) && op.session == id.0
    requires RouteFailed(s.failedRoutes, s.failedRouteRows, op.ep, route, op.at) && NotOn(s, id, route, op.at)
    ensures NotOn(s', id, route, op.at)
  {
    var hops := settings.endpoints[op.ep].hops;
    if Select(s, op.ep, hops, op.cat, op.at).Some? {
      SelectionSound(s, op.ep, hops, op.cat, op.at);
    }
  }

  lemma {:induction false} RequestKeepsOff(settings: Settings, s: State, op: Op, s': State, id: LeaseId)
    requires op.Request? && Step(settings, s, op, s') && ProperId(settings, id, id.2)
    requires Backed(s, id, TtlOf(settings, id), op.at)
    ensures Backed(s', id, TtlOf(settings, id), op.at)
    ensures forall route | NotOn(s, id, route, op.at) && RouteFailed(s.failedRoutes, s.failedRouteRows, id.2, route, op.at) ::
              NotOn(s', id, route, op.at)
  {
    if op.session == id.0 && op.ep == id.2 {
      OwnRequestBacked(settings, s, op, s', id);
      forall route | NotOn(s, id, route, op.at) && RouteFailed(s.failedRoutes, s.failedRouteRows, id.2, route, op.at)
        ensures NotOn(s', id, route, op.at)
      {
        OwnRequestNotOn(settings, s, op, s', id, route);
      }
    } else {
      RequestTouchesOwnLease(settings, s, op, s', id);
    }
  }

  /** Reports only ever take leases and rows away, and take them together. */
  predicate OnlyLess(s: State, s': State, id: LeaseId) {
    && (id in s'.leases ==> id in s.leases && s'.leases[id] == s.leases[id])
    && (id in s'.rows ==> id in s.rows && s'.rows[id] == s.rows[id] && (id in s.leases ==> id in s'.leases))
  }

  lemma {:induction false} FailureOnlyRemoves(settings: Settings, s: State, op: Op, s': State, id: LeaseId)
    requires op.Failure? && Step(settings, s, op, s')
    ensures OnlyLess(s, s', id)
  {
    var s1 := WithoutLease(s, op.ep, op.pool, op.session);
    assert s'.leases == s1.leases && s'.rows == s1.rows;
  }

  lemma {:induction false} SuccessRemovesNothing(settings: Settings, s: State, op: Op, s': State, id: LeaseId)
    requires op.Success? && Step(settings, s, op, s')
    ensures OnlyLess(s, s', id)
  {
    assert s'.leases == s.leases && s'.rows == s.rows;
  }

  lemma {:induction false} ReportsKeepOff(settings: Settings, s: State, op: Op, s': State, id: LeaseId)
    requires op.Failure? || op.Success?
    requires Step(settings, s, op, s') && ProperId(settings, id, id.2)
    requires Backed(s, id, TtlOf(settings, id), op.at)
    ensures Backed(s', id, TtlOf(settings, id), op.at)
    ensures forall route | NotOn(s, id, route, op.at) :: NotOn(s', id, route, op.at)
  {
    if op.Failure? {
      FailureOnlyRemoves(settings, s, op, s', id);
    } else {
      SuccessRemovesNothing(settings, s, op, s', id);
    }
  }

  lemma {:induction false} BindKeepsOff(settings: Settings, s: State, op: Op, s': State, id: LeaseId)
    requires op.Bind? && Step(settings, s, op, s') && ProperId(settings, id, id.2)
    requires Backed(s, id, TtlOf(settings, id), op.at)
    ensures Backed(s', id, TtlOf(settings, id), op.at)
    ensures forall route | NotOn(s, id, route, op.at) :: NotOn(s', id, route, op.at)
  {
  }

  lemma {:induction false} CleanupKeepsOff(settings: Settings, s: State, op: Op, s': State, id: LeaseId)
    requires op.Cleanup? && Step(settings, s, op, s') && ProperId(settings, id, id.2)
    requires Backed(s, id, TtlOf(settings, id), op.at)
    ensures Backed(s', id, TtlOf(settings, id), op.storeAt)
    ensures forall route | NotOn(s, id, route, op.at) :: NotOn(s', id, route, op.storeAt)
  {
  }

  // ---------------------------------------------------------------------------------------------
  // Rows name their exits

  /** No known-healthy route has an empty key, and the session's lease and row name an exit. */
  predicate Named(s: State, id: LeaseId) {
    && (forall h | h in s.healthy :: "" !in h.keys)
    && (id in s.leases ==> s.leases[id].exitKey != "")
    && (id in s.rows ==> s.rows[id].exitKey != "")
  }

  lemma {:induction false} SearchNamed(s: State, ep: int, hops: seq<int>, cat: Catalog, now: int)
    requires SearchHops(s, ep, hops, cat, now).Some?
    ensures "" !in Keys(SearchHops(s, ep, hops, cat, now).value)
  {
    SearchServes(s, ep, hops, cat, now);
    var combo := SearchHops(s, ep, hops, cat, now).value;
    forall i | 0 <= i < |combo| ensures Keys(combo)[i] != "" {
      assert MayServe(s, ep, hops[i], cat, now, combo[i]);
    }
  }

  lemma {:induction false} SelectionNamed(s: State, ep: int, hops: seq<int>, cat: Catalog, now: int)
    requires hops != [] && forall h | h in s.healthy :: "" !in h.keys
    ensures Select(s, ep, hops, cat, now).Some? ==> "" !in Select(s, ep, hops, cat, now).value.hops
  {
    if SearchHops(s, ep, hops, cat, now).Some? {
      SearchNamed(s, ep, hops, cat, now);
    }
  }

  function FreshExit(s: State, ep: int, hops: seq<int>, cat: Catalog, now: int): Option<string>
    requires hops != []
  {
    var selection := Select(s, ep, hops, cat, now);
    if selection.None? then None else Some(selection.value.hops[|selection.value.hops| - 1])
  }

  lemma {:induction false} ExitNamed(s: State, ep: int, hops: seq<int>, cat: Catalog, now: int)
    requires hops != [] && forall h | h in s.healthy :: "" !in h.keys
    ensures FreshExit(s, ep, hops, cat, now) != Some("")
  {
    SelectionNamed(s, ep, hops, cat, now);
    var selection := Select(s, ep, hops, cat, now);
    if selection.Some? {
      assert selection.value.hops[|selection.value.hops| - 1] in selection.value.hops;
    }
  }

  lemma {:induction false} RequestForgetsOnly(settings: Settings, s: State, op: Op, s': State)
    requires op.Request? && Step(settings, s, op, s')
    ensures forall h | h in s'.healthy :: h in s.healthy
  {
  }

  /** The lease keeps its exit or gets the given one. */
  predicate LeaseExitFrom(s: State, s': State, id: LeaseId, exit: Option<string>) {
    id in s'.leases ==> (id in s.leases && s'.leases[id].exitKey == s.leases[id].exitKey) || exit == Some(s'.leases[id].exitKey)
  }

  /** The row stays as it is or takes the exit of the lease. */
  predicate RowExitFrom(s: State, s': State, id: LeaseId) {
    id in s'.rows ==> (id in s.rows && s'.rows[id] == s.rows[id]) || (id in s'.leases && s'.rows[id].exitKey == s'.leases[id].exitKey)
  }

  lemma {:induction false} FollowedLease(settings: Settings, s: State, op: Op, s': State, id: LeaseId, exit: Option<string>)
    requires op.Request? && Step(settings, s, op, s') && Routable(settings, op.ep) && id == IdOf(settings, op.session, op.ep)
    requires Follows(settings, s, op.session, op.ep, op.cat, op.at)
    ensures LeaseExitFrom(s, s', id, exit)
  {
  }

  lemma {:induction false} FreshConcluded(settings: Settings, s: State, op: Op, s': State)
    requires op.Request? && Step(settings, s, op, s') && Routable(settings, op.ep)
    requires !Follows(settings, s, op.session, op.ep, op.cat, op.at)
    ensures var id, endpoint := IdOf(settings, op.session, op.ep), settings.endpoints[op.ep];
            Concluded(settings, s, id, endpoint, LookedUp(s.leases, id, op.at), Select(s, op.ep, endpoint.hops, op.cat, op.at),
                      op.cat, op.at, op.live, s', op.result)
  {
  }

  lemma {:induction false} ConcludedLease(settings: Settings, s: State, id: LeaseId, endpoint: Endpoint, selection: Option<Selection>,
                                          cat: Catalog, now: int, live: set<string>, s': State, result: Option<Routed>)
    requires selection.Some? ==> selection.value.hops != []
    requires Concluded(settings, s, id, endpoint, LookedUp(s.leases, id, now), selection, cat, now, live, s', result)
    ensures id.0 != "" ==>
              LeaseExitFrom(s, s', id,
                            if selection.None? then None else Some(selection.value.hops[|selection.value.hops| - 1]))
  {
  }

  lemma {:induction false} FreshLease(settings: Settings, s: State, op: Op, s': State, id: LeaseId)
    requires op.Request? && Step(settings, s, op, s') && Routable(settings, op.ep) && id == IdOf(settings, op.session, op.ep)
    requires !Follows(settings, s, op.session, op.ep, op.cat, op.at) && id.0 != ""
    ensures LeaseExitFrom(s, s', id, FreshExit(s, op.ep, settings.endpoints[op.ep].hops, op.cat, op.at))
  {
    var endpoint := settings.endpoints[op.ep];
    FreshConcluded(settings, s, op, s');
    ConcludedLease(settings, s, id, endpoint, Select(s, op.ep, endpoint.hops, op.cat, op.at), op.cat, op.at, op.live, s', op.result);
  }

  lemma {:induction false} OwnRequestLease(settings: Settings, s: State, op: Op, s': State, id: LeaseId)
    requires op.Request? && Step(settings, s, op, s') && id.0 != ""
    requires Routable(settings, op.ep) && id == IdOf(settings, op.session, op.ep)
    ensures LeaseExitFrom(s, s', id, FreshExit(s, op.ep, settings.endpoints[op.ep].hops, op.cat, op.at))
  {
    if Follows(settings, s, op.session, op.ep, op.cat, op.at) {
      FollowedLease(settings, s, op, s', id, FreshExit(s, op.ep, settings.endpoints[op.ep].hops, op.cat, op.at));
    } else {
      FreshLease(settings, s, op, s', id);
    }
  }

  lemma {:induction false} OwnRequestRow(settings: Settings, s: State, op: Op, s': State, id: LeaseId)
    requires op.Request? && Step(settings, s, op, s') && id.0 != ""
    requires Routable(settings, op.ep) && id == IdOf(settings, op.session, op.ep)
    ensures RowExitFrom(s, s', id)
  {
  }

  lemma {:induction false} ExitsNamed(s: State, s': State, id: LeaseId, exit: Option<string>)
    requires Named(s, id) && LeaseExitFrom(s, s', id, exit) && RowExitFrom(s, s', id) && exit != Some("")
    requires forall h | h in s'.healthy :: h in s.healthy
    ensures Named(s', id)
  {
  }

  lemma {:induction false} OwnRequestNamed(settings: Settings, s: State, op: Op, s': State, id: LeaseId)
    requires op.Request? && Step(settings, s, op, s') && Named(s, id) && id.0 != ""
    requires Routable(settings, op.ep) && id == IdOf(settings, op.session, op.ep)
    ensures Named(s', id)
  {
    var hops := settings.endpoints[op.ep].hops;
    RequestForgetsOnly(settings, s, op, s');
    OwnRequestLease(settings, s, op, s', id);
    OwnRequestRow(settings, s, op, s', id);
    ExitNamed(s, op.ep, hops, op.cat, op.at);
    ExitsNamed(s, s', id, FreshExit(s, op.ep, hops, op.cat, op.at));
  }

  lemma {:induction false} RequestKeepsNamed(settings: Settings, s: State, op: Op, s': State, id: LeaseId)
    requires op.Request? && Step(settings, s, op, s') && Named(s, id) && id.0 != ""
    ensures Named(s', id)
  {
    if Routable(settings, op.ep) && id == IdOf(settings, op.session, op.ep) {
      OwnRequestNamed(settings, s, op, s', id);
    } else {
      RequestForgetsOnly(settings, s, op, s');
      RequestTouchesOwnLease(settings, s, op, s', id);
    }
  }

  lemma {:induction false} WithHealthyNamed(healthy: seq<HealthyRoute>, ep: int, keys: seq<string>, expiresAt: int)
    requires "" !in keys && forall h | h in healthy :: "" !in h.keys
    ensures forall h | h in WithHealthy(healthy, ep, keys, expiresAt) :: "" !in h.keys
  {
    if healthy != [] {
      assert forall h | h in healthy[1..] :: h in healthy;
      WithHealthyNamed(healthy[1..], ep, keys, expiresAt);
    }
  }

  lemma {:induction false} ReportsKeepNamed(settings: Settings, s: State, op: Op, s': State, id: LeaseId)
    requires op.Failure? || op.Success?
    requires Step(settings, s, op, s') && Named(s, id)
    ensures Named(s', id)
  {
    if op.Failure? {
      FailureOnlyRemoves(settings, s, op, s', id);
      assert forall h | h in s'.healthy :: h in s.healthy;
    } else {
      SuccessRemovesNothing(settings, s, op, s', id);
      WithHealthyNamed(s.healthy, op.ep, Clean(op.hops), op.at + Max(1, if op.ttlSec == 0 then 600 else op.ttlSec) * SECOND);
    }
  }

  lemma {:induction false} StepKeepsNamed(settings: Settings, s: State, op: Op, s': State, id: LeaseId)
    requires Step(settings, s, op, s') && Named(s, id) && id.0 != ""
    ensures Named(s', id)
  {
    if op.Request? {
      RequestKeepsNamed(settings, s, op, s', id);
    } else if op.Failure? || op.Success? {
      ReportsKeepNamed(settings, s, op, s', id);
    }
  }

  /** Every lease and row that comes about in a run names an exit. */
  lemma {:induction false} NamedThroughout(settings: Settings, states: seq<State>, ops: seq<Op>, id: LeaseId, i: nat)
    requires Trace(settings, states, ops) && Named(states[0], id) && id.0 != "" && i <= |ops|
    ensures Named(states[i], id)
  {
    if i > 0 {
      NamedThroughout(settings, states, ops, id, i - 1);
      assert StepAt(settings, states, ops, i - 1);
      StepKeepsNamed(settings, states[i - 1], ops[i - 1], states[i], id);
    }
  }

  // ---------------------------------------------------------------------------------------------
  // Staying off a route

  /** Redrawn hops end in the exit of the row, if it names one. */
  lemma {:induction false} RedrawnEndsInExit(settings: Settings, cat: Catalog, ep: int, exit: string, keys: seq<string>)
    requires Redrawn(settings, cat, ep, exit, keys) && exit != ""
    ensures keys != [] && keys[|keys| - 1] == exit
  {
  }

  /** The session's live row, if it has one, has another exit than the last hop of the route. */
  predicate RowElsewhere(s: State, id: LeaseId, route: seq<string>, now: int)
    requires route != []
  {
    id in s.rows && now < s.rows[id].expiresAt ==> s.rows[id].exitKey != route[|route| - 1]
  }

  lemma {:induction false} RestartKeepsOff(settings: Settings, s: State, op: Op, s': State, id: LeaseId)
    requires op.Restart? && Step(settings, s, op, s') && ProperId(settings, id, id.2)
    requires Backed(s, id, TtlOf(settings, id), op.at)
    ensures Backed(s', id, TtlOf(settings, id), op.at)
    ensures Named(s, id) ==> forall route | route != [] && RowElsewhere(s, id, route, op.at) :: NotOn(s', id, route, op.at)
  {
    if id in s'.leases {
      var row := s.rows[id];
      assert s'.leases[id] == LeaseFrom(row, s'.leases[id].hops);
      if row.exitKey != "" {
        RedrawnEndsInExit(settings, op.cat, id.2, row.exitKey, s'.leases[id].hops);
      }
    }
  }

  /** Whatever the operation, rows and leases go on fitting together. */
  lemma {:induction false} StepKeepsBacked(settings: Settings, s: State, op: Op, s': State, id: LeaseId)
    requires Step(settings, s, op, s') && ProperId(settings, id, id.2) && Backed(s, id, TtlOf(settings, id), op.at)
    ensures Backed(s', id, TtlOf(settings, id), EndOf(op))
  {
    match op
    case Request(_, _, _, _, _, _) => RequestKeepsOff(settings, s, op, s', id);
    case Failure(_, _, _, _, _, _) => ReportsKeepOff(settings, s, op, s', id);
    case Success(_, _, _, _) => ReportsKeepOff(settings, s, op, s', id);
    case Bind(_, _, _, _, _) => BindKeepsOff(settings, s, op, s', id);
    case Cleanup(_, _) => CleanupKeepsOff(settings, s, op, s', id);
    case Restart(_, _) => RestartKeepsOff(settings, s, op, s', id);
  }

  lemma {:induction false} StepKeepsOff(settings: Settings, s: State, op: Op, s': State, b: Ban, id: LeaseId)
    requires Step(settings, s, op, s') && LeavesStanding(op, b) && ProperBan(b) && ProperId(settings, id, b.ep)
    requires Marked(s, b) && Named(s, id) && OffRoute(settings, s, id, b.route, op.at)
    requires op.Restart? ==> RowElsewhere(s, id, b.route, op.at)
    ensures OffRoute(settings, s', id, b.route, EndOf(op))
  {
    StepKeepsBacked(settings, s, op, s', id);
    match op
    case Request(_, _, _, _, _, _) =>
      MarkedIsFailed(s, b, op.at);
      RequestKeepsOff(settings, s, op, s', id);
    case Failure(_, _, _, _, _, _) => ReportsKeepOff(settings, s, op, s', id);
    case Success(_, _, _, _) => ReportsKeepOff(settings, s, op, s', id);
    case Bind(_, _, _, _, _) => BindKeepsOff(settings, s, op, s', id);
    case Cleanup(_, _) => CleanupKeepsOff(settings, s, op, s', id);
    case Restart(_, _) => RestartKeepsOff(settings, s, op, s', id);
  }

  lemma {:induction false} LaterStepKeepsOff(settings: Settings, s: State, before: int, op: Op, s': State, b: Ban, id: LeaseId)
    requires Step(settings, s, op, s') && LeavesStanding(op, b) && ProperBan(b) && ProperId(settings, id, b.ep)
    requires Marked(s, b) && Named(s, id) && OffRoute(settings, s, id, b.route, before) && before <= op.at
    requires op.Restart? ==> RowElsewhere(s, id, b.route, op.at)
    ensures OffRoute(settings, s', id, b.route, EndOf(op))
  {
    OffRouteLater(settings, s, id, b.route, before, op.at);
    StepKeepsOff(settings, s, op, s', b, id);
  }

  /** No restart after the report finds a live row of the session whose exit is the route's last hop. */
  predicate RestartsElsewhere(states: seq<State>, ops: seq<Op>, r: nat, b: Ban, id: LeaseId)
    requires |states| == |ops| + 1 && b.route != []
  {
    forall i | r < i < |ops| && ops[i].Restart? :: RowElsewhere(states[i], id, b.route, ops[i].at)
  }

  lemma {:induction false} OffThroughout(settings: Settings, states: seq<State>, ops: seq<Op>, b: Ban, id: LeaseId, r: nat, i: nat)
    requires Trace(settings, states, ops) && ProperBan(b) && ProperId(settings, id, b.ep)
    requires r < |ops| && Reports(ops[r], b) && Standing(ops, r, b) && RestartsElsewhere(states, ops, r, b, id)
    requires Named(states[0], id) && OffRoute(settings, states[r + 1], id, b.route, ops[r].at)
    requires r < i <= |ops|
    ensures OffRoute(settings, states[i], id, b.route, EndOf(ops[i - 1]))
  {
    if i > r + 1 {
      var op := ops[i - 1];
      OffThroughout(settings, states, ops, b, id, r, i - 1);
      MarkedThroughout(settings, states, ops, b, r, i - 1);
      NamedThroughout(settings, states, ops, id, i - 1);
      assert StepAt(settings, states, ops, i - 1) && LeavesStanding(op, b);
      LaterStepKeepsOff(settings, states[i - 1], EndOf(ops[i - 2]), op, states[i], b, id);
    }
  }

  lemma {:induction false} OffIsNotGiven(settings: Settings, states: seq<State>, ops: seq<Op>, b: Ban, id: LeaseId, r: nat, i: nat)
    requires Trace(settings, states, ops) && ProperBan(b) && ProperId(settings, id, b.ep)
    requires r < |ops| && Reports(ops[r], b) && Standing(ops, r, b) && RestartsElsewhere(states, ops, r, b, id)
    requires Named(states[0], id) && OffRoute(settings, states[r + 1], id, b.route, ops[r].at)
    requires r < i < |ops| && ops[i].Request? && ops[i].session == id.0 && ops[i].ep == b.ep
    ensures ops[i].result.Some? ==> ops[i].result.value.hops != b.route
  {
    OffThroughout(settings, states, ops, b, id, r, i);
    GivenOnlyByLease(settings, states, ops, b, r, i);
    assert StepAt(settings, states, ops, i);
    OffRouteLater(settings, states[i], id, b.route, EndOf(ops[i - 1]), ops[i].at);
  }

  /** Over every run of all sessions on all endpoints, restarts included: once a session has reported, under
      the entry pool, that a route failed, none of its requests on that endpoint is given the route until the
      report expires, unless the route's success is reported first or a restart finds a live row of the session
      whose exit is the route's last hop. */
  lemma {:induction false} ReportedRouteExcluded(settings: Settings, states: seq<State>, ops: seq<Op>, b: Ban, id: LeaseId, r: nat,
                                                 i: nat)
    requires Trace(settings, states, ops) && Named(states[0], id) && ProperBan(b) && ProperId(settings, id, b.ep)
    requires r < |ops| && Reports(ops[r], b) && ops[r].session == id.0 && ops[r].pool == id.1
    requires Standing(ops, r, b) && RestartsElsewhere(states, ops, r, b, id)
    requires r < i < |ops| && ops[i].Request? && ops[i].session == id.0 && ops[i].ep == b.ep
    ensures ops[i].result.Some? ==> ops[i].result.value.hops != b.route
  {
    assert StepAt(settings, states, ops, r);
    assert id !in states[r + 1].leases && id !in states[r + 1].rows;
    OffIsNotGiven(settings, states, ops, b, id, r, i);
  }

  lemma {:induction false} BackedAlways(settings: Settings, states: seq<State>, ops: seq<Op>, id: LeaseId, i: nat)
    requires Trace(settings, states, ops) && states[0] == EMPTY && ProperId(settings, id, id.2) && 0 < i <= |ops|
    ensures Backed(states[i], id, TtlOf(settings, id), EndOf(ops[i - 1]))
  {
    assert StepAt(settings, states, ops, i - 1);
    if i > 1 {
      BackedAlways(settings, states, ops, id, i - 1);
      OffRouteLater(settings, states[i - 1], id, [], EndOf(ops[i - 2]), ops[i - 1].at);
    }
    StepKeepsBacked(settings, states[i - 1], ops[i - 1], states[i], id);
  }

  /** And no session that had no live lease on the route when it was reported, by whomever, is given it before
      the report expires, on the same terms. */
  lemma {:induction false} NobodyJoinsRoute(settings: Settings, states: seq<State>, ops: seq<Op>, b: Ban, id: LeaseId, r: nat, i: nat)
    requires Trace(settings, states, ops) && states[0] == EMPTY && ProperBan(b) && ProperId(settings, id, b.ep)
    requires r < |ops| && Reports(ops[r], b) && NotOn(states[r + 1], id, b.route, ops[r].at)
    requires Standing(ops, r, b) && RestartsElsewhere(states, ops, r, b, id)
    requires r < i < |ops| && ops[i].Request? && ops[i].session == id.0 && ops[i].ep == b.ep
    ensures ops[i].result.Some? ==> ops[i].result.value.hops != b.route
  {
    BackedAlways(settings, states, ops, id, r + 1);
    OffIsNotGiven(settings, states, ops, b, id, r, i);
  }

  // ---------------------------------------------------------------------------------------------
  // What a restart can draw

  /** `key` can be drawn for a hop. */
  ghost predicate Chosen(cat: Catalog, pool: int, used: set<string>, key: string) {
    pool > 0 && key != "" && exists n | Draw(Pickable(cat, pool, used), n) :: n.key == key
  }

  /** A hop can be passed over. */
  ghost predicate PassedOver(cat: Catalog, pool: int, used: set<string>) {
    pool <= 0 || Pickable(cat, pool, used) == [] || exists n | Draw(Pickable(cat, pool, used), n) :: n.key == ""
  }

  /** `pick` is the key drawn for a hop, or "" if it is passed over. */
  ghost predicate Outcome(cat: Catalog, pool: int, used: set<string>, pick: string) {
    if pick == "" then PassedOver(cat, pool, used) else Chosen(cat, pool, used, pick)
  }

  /** What can come of each hop when those before it came out as they did. */
  ghost predicate Outcomes(cat: Catalog, hops: seq<int>, used: set<string>, picks: seq<string>) {
    && |picks| == |hops|
    && forall i | 0 <= i < |hops| :: Outcome(cat, hops[i], used + Elems(Clean(picks[..i])), picks[i])
  }

  lemma {:induction false} CleanAppend(a: seq<string>, b: seq<string>)
    ensures Clean(a + b) == Clean(a) + Clean(b)
  {
    FilterAppend(a, b, (k: string) => k != "");
  }

  lemma {:induction false} CleanOne(pick: string)
    ensures Clean([pick]) == Piece(pick)
  {
    assert [pick][1..] == [];
  }

  lemma {:induction false} UsedBefore(used: set<string>, picks: seq<string>, i: nat)
    requires 0 < i <= |picks|
    ensures used + Elems(Clean(picks[..i])) == used + Elems(Piece(picks[0])) + Elems(Clean(picks[1..][..i - 1]))
  {
    assert picks[..i] == [picks[0]] + picks[1..][..i - 1];
    CleanAppend([picks[0]], picks[1..][..i - 1]);
    CleanOne(picks[0]);
  }

  lemma {:induction false} OutcomesFirst(cat: Catalog, hops: seq<int>, used: set<string>, picks: seq<string>)
    requires |picks| == |hops| > 0
    ensures Outcomes(cat, hops, used, picks) <==>
              Outcome(cat, hops[0], used, picks[0]) && Outcomes(cat, hops[1..], used + Elems(Piece(picks[0])), picks[1..])
  {
    assert Clean(picks[..0]) == [] && used + Elems(Clean(picks[..0])) == used;
    forall i | 0 < i < |picks|
      ensures Outcome(cat, hops[i], used + Elems(Clean(picks[..i])), picks[i])
              == Outcome(cat, hops[1..][i - 1], used + Elems(Piece(picks[0])) + Elems(Clean(picks[1..][..i - 1])), picks[1..][i - 1])
    {
      UsedBefore(used, picks, i);
    }
    if Outcomes(cat, hops, used, picks) {
      forall i | 0 <= i < |picks[1..]|
        ensures Outcome(cat, hops[1..][i], used + Elems(Piece(picks[0])) + Elems(Clean(picks[1..][..i])), picks[1..][i])
      {
        assert Outcome(cat, hops[i + 1], used + Elems(Clean(picks[..i + 1])), picks[i + 1]);
      }
    }
  }

  lemma {:induction false} CleanFirst(picks: seq<string>)
    requires picks != []
    ensures Clean(picks) == Piece(picks[0]) + Clean(picks[1..])
  {
    assert picks == [picks[0]] + picks[1..];
    CleanAppend([picks[0]], picks[1..]);
    CleanOne(picks[0]);
  }

  lemma {:induction false} PicksAreDrawn(cat: Catalog, hops: seq<int>, used: set<string>, picks: seq<string>)
    requires Outcomes(cat, hops, used, picks)
    ensures Draws(cat, hops, used, Clean(picks))
    decreases |hops|
  {
    if hops != [] {
      OutcomesFirst(cat, hops, used, picks);
      PicksAreDrawn(cat, hops[1..], used + Elems(Piece(picks[0])), picks[1..]);
      CleanFirst(picks);
      DrawnFirst(cat, hops, used, picks[0], Clean(picks[1..]));
    }
  }

  lemma {:induction false} DrawnFirst(cat: Catalog, hops: seq<int>, used: set<string>, pick: string, rest: seq<string>)
    requires hops != [] && Outcome(cat, hops[0], used, pick) && Draws(cat, hops[1..], used + Elems(Piece(pick)), rest)
    ensures Draws(cat, hops, used, Piece(pick) + rest)
  {
    UsedAfter(used, pick);
    if pick == "" {
      assert Piece(pick) + rest == rest;
    } else {
      assert (Piece(pick) + rest)[0] == pick && (Piece(pick) + rest)[1..] == rest;
    }
  }

  lemma {:induction false} UsedAfter(used: set<string>, pick: string)
    ensures used + Elems(Piece(pick)) == if pick == "" then used else used + {pick}
  {
  }

  /** The node that a draw begins with. */
  lemma {:induction false} FirstNode(cat: Catalog, hops: seq<int>, used: set<string>, keys: seq<string>) returns (n: Proxy)
    requires hops != [] && hops[0] > 0 && Pickable(cat, hops[0], used) != [] && Draws(cat, hops, used, keys)
    ensures Draw(Pickable(cat, hops[0], used), n)
    ensures if n.key == "" then Draws(cat, hops[1..], used, keys)
            else keys != [] && keys[0] == n.key && Draws(cat, hops[1..], used + {n.key}, keys[1..])
  {
    n :| Draw(Pickable(cat, hops[0], used), n)
         && if n.key == "" then Draws(cat, hops[1..], used, keys)
            else keys != [] && keys[0] == n.key && Draws(cat, hops[1..], used + {n.key}, keys[1..]);
  }

  lemma {:induction false} NothingPicked(cat: Catalog, hops: seq<int>, used: set<string>, keys: seq<string>)
    requires hops != [] && Draws(cat, hops, used, keys) && (hops[0] <= 0 || Pickable(cat, hops[0], used) == [])
    ensures PassedOver(cat, hops[0], used) && Draws(cat, hops[1..], used, keys)
  {
  }

  lemma {:induction false} NodePicked(cat: Catalog, hops: seq<int>, used: set<string>, keys: seq<string>)
    returns (pick: string, rest: seq<string>)
    requires hops != [] && hops[0] > 0 && Pickable(cat, hops[0], used) != [] && Draws(cat, hops, used, keys)
    ensures Outcome(cat, hops[0], used, pick) && keys == Piece(pick) + rest
    ensures Draws(cat, hops[1..], if pick == "" then used else used + {pick}, rest)
  {
    var n := FirstNode(cat, hops, used, keys);
    pick := n.key;
    rest := if n.key == "" then keys else keys[1..];
  }

  /** The pick for the first hop of a draw, and what is drawn for the others. */
  lemma {:induction false} FirstPick(cat: Catalog, hops: seq<int>, used: set<string>, keys: seq<string>)
    returns (pick: string, rest: seq<string>)
    requires hops != [] && Draws(cat, hops, used, keys)
    ensures Outcome(cat, hops[0], used, pick) && Draws(cat, hops[1..], used + Elems(Piece(pick)), rest)
    ensures keys == Piece(pick) + rest
  {
    if hops[0] > 0 && Pickable(cat, hops[0], used) != [] {
      pick, rest := NodePicked(cat, hops, used, keys);
    } else {
      NothingPicked(cat, hops, used, keys);
      pick, rest := "", keys;
    }
    UsedAfter(used, pick);
  }

  lemma {:induction false} DrawnByPicks(cat: Catalog, hops: seq<int>, used: set<string>, keys: seq<string>)
    returns (picks: seq<string>)
    requires Draws(cat, hops, used, keys)
    ensures Outcomes(cat, hops, used, picks) && Clean(picks) == keys
    decreases |hops|
  {
    picks := [];
    if hops != [] {
      var pick, rest := FirstPick(cat, hops, used, keys);
      var others := DrawnByPicks(cat, hops[1..], used + Elems(Piece(pick)), rest);
      picks := [pick] + others;
      assert picks[0] == pick && picks[1..] == others;
      OutcomesFirst(cat, hops, used, picks);
      CleanFirst(picks);
    }
  }

  /** What can be drawn are the keys that can come of the hops one by one. */
  lemma {:induction false} DrawsHopByHop(cat: Catalog, hops: seq<int>, used: set<string>, keys: seq<string>)
    ensures Draws(cat, hops, used, keys) <==> exists picks :: Outcomes(cat, hops, used, picks) && Clean(picks) == keys
  {
    if Draws(cat, hops, used, keys) {
      var picks := DrawnByPicks(cat, hops, used, keys);
    }
    if picks :| Outcomes(cat, hops, used, picks) && Clean(picks) == keys {
      PicksAreDrawn(cat, hops, used, picks);
    }
  }

  /** Something can always be drawn, if only for no hop at all. */
  lemma {:induction false} SomeDraw(cat: Catalog, hops: seq<int>, used: set<string>) returns (keys: seq<string>)
    ensures Draws(cat, hops, used, keys)
    decreases |hops|
  {
    keys := [];
    if hops != [] {
      var cs := if hops[0] > 0 then Pickable(cat, hops[0], used) else [];
      if cs == [] {
        keys := SomeDraw(cat, hops[1..], used);
      } else {
        var n := if |cs| == 1 || LatencyLeq(cs[0], cs[1]) then cs[0] else cs[1];
        assert |cs| == 1 ==> cs == [n];
        assert Draw(cs, n);
        if n.key == "" {
          keys := SomeDraw(cat, hops[1..], used);
        } else {
          var rest := SomeDraw(cat, hops[1..], used + {n.key});
          keys := [n.key] + rest;
          assert keys[1..] == rest;
        }
      }
    }
  }

  function AllButLast(keys: seq<string>): seq<string> {
    if keys == [] then [] else keys[..|keys| - 1]
  }

  /** The hops in `front` can come before the exit, which takes the place of the last hop drawn. */
  ghost predicate DrawnBefore(cat: Catalog, hops: seq<int>, front: seq<string>) {
    exists picks :: Outcomes(cat, hops, {}, picks) && AllButLast(Clean(picks)) == front
  }

  lemma {:induction false} PinnedIs(drawn: seq<string>, exit: string, route: seq<string>)
    requires exit != ""
    ensures route == Pinned(drawn, exit) <==>
              route != [] && route[|route| - 1] == exit && route[..|route| - 1] == AllButLast(drawn)
  {
    assert Pinned(drawn, exit) == AllButLast(drawn) + [exit];
    if route != [] {
      assert route == route[..|route| - 1] + [route[|route| - 1]];
    }
  }

  /** A lease whose row names an exit can come back with a route, of whatever length, exactly if the route ends in
      that exit and the hops before it can be drawn; once the endpoint is gone, with the exit alone. */
  lemma {:induction false} RedrawnExactly(settings: Settings, cat: Catalog, ep: int, exit: string, route: seq<string>)
    requires exit != ""
    ensures Redrawn(settings, cat, ep, exit, route) <==>
              if ep in settings.endpoints then
                route != [] && route[|route| - 1] == exit && DrawnBefore(cat, settings.endpoints[ep].hops, route[..|route| - 1])
              else route == [exit]
  {
    if ep in settings.endpoints {
      var hops := settings.endpoints[ep].hops;
      if drawn :| Draws(cat, hops, {}, drawn) && route == Pinned(drawn, exit) {
        PinnedIs(drawn, exit, route);
        var picks := DrawnByPicks(cat, hops, {}, drawn);
      }
      if route != [] && route[|route| - 1] == exit && DrawnBefore(cat, hops, route[..|route| - 1]) {
        var picks :| Outcomes(cat, hops, {}, picks) && AllButLast(Clean(picks)) == route[..|route| - 1];
        PicksAreDrawn(cat, hops, {}, picks);
        PinnedIs(Clean(picks), exit, route);
      }
    }
  }

  /** Each hop in `front` can be drawn when those before it are used, and something for the one hop after them. */
  ghost predicate DrawableInTurn(cat: Catalog, hops: seq<int>, front: seq<string>)
    requires |hops| == |front| + 1
  {
    && (forall i | 0 <= i < |front| :: Chosen(cat, hops[i], Elems(front[..i]), front[i]))
    && exists last :: Chosen(cat, hops[|front|], Elems(front), last)
  }

  lemma {:induction false} CleanNamed(keys: seq<string>, i: nat)
    requires i <= |keys| && "" !in keys
    ensures Clean(keys[..i]) == keys[..i] && {} + Elems(Clean(keys[..i])) == Elems(keys[..i])
  {
    FilterAll(keys[..i], (k: string) => k != "");
  }

  lemma {:induction false} OutcomeOfNamed(cat: Catalog, pool: int, picks: seq<string>, i: nat)
    requires i < |picks| && "" !in picks
    ensures Outcome(cat, pool, {} + Elems(Clean(picks[..i])), picks[i]) == Chosen(cat, pool, Elems(picks[..i]), picks[i])
  {
    CleanNamed(picks, i);
    assert picks[i] in picks;
  }

  lemma {:induction false} NamedOutcomes(cat: Catalog, hops: seq<int>, picks: seq<string>)
    requires |hops| == |picks| && "" !in picks
    ensures Outcomes(cat, hops, {}, picks) <==>
              forall i | 0 <= i < |picks| :: Chosen(cat, hops[i], Elems(picks[..i]), picks[i])
  {
    forall i | 0 <= i < |picks|
      ensures Outcome(cat, hops[i], {} + Elems(Clean(picks[..i])), picks[i]) == Chosen(cat, hops[i], Elems(picks[..i]), picks[i])
    {
      OutcomeOfNamed(cat, hops[i], picks, i);
    }
  }

  lemma {:induction false} TurnsAreOutcomes(cat: Catalog, hops: seq<int>, front: seq<string>, last: string)
    requires |hops| == |front| + 1 && "" !in front + [last]
    ensures Outcomes(cat, hops, {}, front + [last]) <==>
              && (forall i | 0 <= i < |front| :: Chosen(cat, hops[i], Elems(front[..i]), front[i]))
              && Chosen(cat, hops[|front|], Elems(front), last)
  {
    var picks := front + [last];
    NamedOutcomes(cat, hops, picks);
    assert picks[..|front|] == front;
    forall i | 0 <= i < |front| ensures picks[..i] == front[..i] && picks[i] == front[i] {
    }
  }

  lemma {:induction false} NothingPassedOver(picks: seq<string>, front: seq<string>)
    requires |picks| == |front| + 1 > 1 && AllButLast(Clean(picks)) == front
    ensures picks == front + [picks[|front|]] && "" !in picks
  {
    FilterFull(picks, (k: string) => k != "");
    assert Clean(picks) == picks;
  }

  lemma {:induction false} OneHopDrawn(cat: Catalog, hops: seq<int>)
    requires |hops| == 1
    ensures DrawnBefore(cat, hops, [])
  {
    var drawn := SomeDraw(cat, hops, {});
    var picks := DrawnByPicks(cat, hops, {}, drawn);
    assert AllButLast(Clean(picks)) == [];
  }

  lemma {:induction false} DrawnInTurn(cat: Catalog, hops: seq<int>, front: seq<string>)
    requires |hops| == |front| + 1 > 1 && DrawnBefore(cat, hops, front)
    ensures DrawableInTurn(cat, hops, front)
  {
    var picks :| Outcomes(cat, hops, {}, picks) && AllButLast(Clean(picks)) == front;
    NothingPassedOver(picks, front);
    TurnsAreOutcomes(cat, hops, front, picks[|front|]);
  }

  lemma {:induction false} InTurnDrawn(cat: Catalog, hops: seq<int>, front: seq<string>, last: string)
    requires |hops| == |front| + 1 && Chosen(cat, hops[|front|], Elems(front), last)
    requires forall i | 0 <= i < |front| :: Chosen(cat, hops[i], Elems(front[..i]), front[i])
    ensures DrawnBefore(cat, hops, front)
  {
    var picks := front + [last];
    assert "" !in picks;
    TurnsAreOutcomes(cat, hops, front, last);
    CleanNamed(picks, |picks|);
    assert picks[..|picks|] == picks && AllButLast(picks) == front;
  }

  /** For a route of one hop per pool that means: each of its hops can be drawn in turn and some last one too,
      unless the exit is all of it. */
  lemma {:induction false} FullFrontDrawn(cat: Catalog, hops: seq<int>, front: seq<string>)
    requires |hops| == |front| + 1
    ensures DrawnBefore(cat, hops, front) <==> front == [] || DrawableInTurn(cat, hops, front)
  {
    if front == [] {
      OneHopDrawn(cat, hops);
    } else if DrawableInTurn(cat, hops, front) {
      var last :| Chosen(cat, hops[|front|], Elems(front), last);
      InTurnDrawn(cat, hops, front, last);
    } else if DrawnBefore(cat, hops, front) {
      DrawnInTurn(cat, hops, front);
    }
  }

  // ---------------------------------------------------------------------------------------------
  // Where a restart can send a session

  lemma {:induction false} SomeRedraw(settings: Settings, cat: Catalog, ep: int, exit: string)
    ensures exists keys :: Redrawn(settings, cat, ep, exit, keys)
  {
    if ep in settings.endpoints {
      var drawn := SomeDraw(cat, settings.endpoints[ep].hops, {});
      assert Redrawn(settings, cat, ep, exit, Pinned(drawn, exit));
    } else {
      assert Redrawn(settings, cat, ep, exit, Piece(exit));
    }
  }

  ghost function AnyRedraw(settings: Settings, cat: Catalog, ep: int, exit: string): (keys: seq<string>)
    ensures Redrawn(settings, cat, ep, exit, keys)
  {
    SomeRedraw(settings, cat, ep, exit);
    var keys :| Redrawn(settings, cat, ep, exit, keys);
    keys
  }

  lemma {:induction false} SomeReadBack(rows: map<(int, string), int>, done: set<(int, string)>, now: int)
    returns (marks: map<RouteId, int>)
    requires done <= rows.Keys
    ensures ReadBack(rows, done, marks, now)
    decreases |done|
  {
    marks := map[];
    if done != {} {
      var row :| row in done;
      var before := SomeReadBack(rows, done - {row}, now);
      var mark := (row.0, SplitAtCommas(row.1, ""));
      marks := if ReadsAs(rows, row, mark, now) then before[mark := rows[row]] else before;
      ReadBackStep(rows, done - {row}, before, marks, row, now);
      assert done - {row} + {row} == done;
    }
  }

  /** A restart on which one session's lease comes back with given hops. */
  lemma {:induction false} SomeRestart(settings: Settings, s: State, cat: Catalog, now: int, id: LeaseId, route: seq<string>)
    returns (s': State)
    requires id in s.rows && id.2 > 0 && Redrawn(settings, cat, id.2, s.rows[id].exitKey, route)
    ensures RestartStep(settings, s, cat, now, s') && s'.leases[id].hops == route
  {
    var leases := map i | i in EndpointIds(s.rows) ::
      LeaseFrom(s.rows[i], if i == id then route else AnyRedraw(settings, cat, i.2, s.rows[i].exitKey));
    var marks := SomeReadBack(s.failedRouteRows, s.failedRouteRows.Keys, now);
    s' := State(leases, marks, NodesFrom(s.failedNodeRows, now), [], s.rows, StillStored(s.failedRouteRows, now),
                StillStored(s.failedNodeRows, now));
  }

  /** After a restart a live session can be sent to a route, marked as failed or not, exactly if the route's
      last hop is the exit of its row and the hops before that can be drawn. */
  lemma {:induction false} RestartReturnsExactly(settings: Settings, s: State, cat: Catalog, now: int, id: LeaseId,
                                                 route: seq<string>)
    requires id in s.rows && id.2 > 0 && s.rows[id].exitKey != ""
    ensures (exists s' :: RestartStep(settings, s, cat, now, s') && s'.leases[id].hops == route) <==>
              var exit := s.rows[id].exitKey;
              if id.2 in settings.endpoints then
                && route != [] && route[|route| - 1] == exit
                && DrawnBefore(cat, settings.endpoints[id.2].hops, route[..|route| - 1])
              else route == [exit]
  {
    RedrawnExactly(settings, cat, id.2, s.rows[id].exitKey, route);
    if Redrawn(settings, cat, id.2, s.rows[id].exitKey, route) {
      var s' := SomeRestart(settings, s, cat, now, id, route);
    }
  }

  // ---------------------------------------------------------------------------------------------
  // A run on which a restart sends a session back to the route it reported

  const NODE_A := Proxy("a", true, None, "")
  const NODE_B := Proxy("b", true, None, "")
  const NODE_X := Proxy("x", true, None, "")

  /** Nodes a and b in the first pool, x in the second. */
  const TWO_POOLS := Catalog(map["a" := NODE_A, "b" := NODE_B, "x" := NODE_X], map[1 := [NODE_A, NODE_B], 2 := [NODE_X]])

  const ONE_ENDPOINT := Settings(map[1 := Endpoint([1, 2], 3600)], 3600)

  const SESSION: LeaseId := ("session", 1, 1)

  const SUCCESS := Success(1, ["b", "x"], 600, 0)

  /** The route over b and x is known to be healthy. */
  const AT_FIRST := EMPTY.(healthy := [HealthyRoute(1, ["b", "x"], 600 * SECOND)])

  const REPORT := Failure(1, 1, "session", ["a", "x"], 300, 0)

  const REPORTED := AfterFailure(AT_FIRST, 1, 1, "session", ["a", "x"], 300, 0)

  lemma {:induction false} SignatureOfTwo(a: string, b: string)
    requires a != "" && b != ""
    ensures Clean([a, b]) == [a, b] && Signature([a, b]) == a + ">" + b
  {
    assert [a, b][1..] == [b] && [b][1..] == [];
    assert Clean([b]) == [b];
    assert Signature([b]) == b;
  }

  lemma {:induction false} ReportedState()
    ensures REPORTED.healthy == AT_FIRST.healthy && REPORTED.leases == map[] && REPORTED.rows == map[]
    ensures REPORTED.failedRoutes == map[(1, ["a", "x"]) := 300 * SECOND]
    ensures REPORTED.failedRouteRows == map[(1, "a>x") := 300 * SECOND]
  {
    SignatureOfTwo("a", "x");
    assert "a" + ">" + "x" == "a>x";
    var h := AT_FIRST.healthy;
    assert h[1..] == [];
    assert h[0].keys != ["a", "x"] by {
      assert h[0].keys[0] == "b";
    }
  }

  const CHOSEN := HealthyRoute(1, ["b", "x"], 600 * SECOND)

  lemma {:induction false} OtherRouteAvailable()
    ensures NODE_B in Candidates(TWO_POOLS, 1, 500) && NODE_X in Candidates(TWO_POOLS, 2, 500)
  {
    assert Candidates(TWO_POOLS, 1, 500)[1] == NODE_B;
    assert Candidates(TWO_POOLS, 2, 500)[0] == NODE_X;
  }

  lemma {:induction false} OtherRouteUnmarked()
    ensures !RouteFailed(REPORTED.failedRoutes, REPORTED.failedRouteRows, 1, CHOSEN.keys, 1)
  {
    ReportedState();
    SignatureOfTwo("b", "x");
    assert ["b", "x"][0] != ["a", "x"][0];
    assert ("b" + ">" + "x")[0] != "a>x"[0];
  }

  lemma {:induction false} OtherRouteQualifies()
    ensures IsHealthyChoice(REPORTED, 1, [1, 2], TWO_POOLS, 1, CHOSEN)
  {
    OtherRouteUnmarked();
    OtherRouteAvailable();
  }

  lemma {:induction false} OtherRouteSelected()
    ensures Select(REPORTED, 1, [1, 2], TWO_POOLS, 1) == Some(Selection(["b", "x"], ""))
  {
    ReportedState();
    OtherRouteQualifies();
    HealthyPickLastsLongest(REPORTED, 1, [1, 2], TWO_POOLS, 1);
    assert REPORTED.healthy == [CHOSEN];
    assert CHOSEN in REPORTED.healthy;
  }

  const MOVED := REPORTED.(leases := map[SESSION := MultiHopLease("", ["b", "x"], "x", "", 1 + 3600 * SECOND, 1)],
                           rows := map[SESSION := StickyRouting.Lease("", "x", "", 1 + 3600 * SECOND, 1)])

  const FIRST_REQUEST := Request("session", 1, TWO_POOLS, 1, {}, Some(Routed(["b", "x"], true, "", false)))

  lemma {:induction false} StillHealthyAll(healthy: seq<HealthyRoute>, now: int)
    requires forall h | h in healthy :: now < h.expiresAt
    ensures StillHealthy(healthy, now) == healthy
  {
    FilterAll(healthy, (h: HealthyRoute) => now < h.expiresAt);
  }

  lemma {:induction false} MovedConcluded()
    ensures Concluded(ONE_ENDPOINT, REPORTED, SESSION, ONE_ENDPOINT.endpoints[1], map[], Some(Selection(["b", "x"], "")), TWO_POOLS,
                      1, {}, MOVED, FIRST_REQUEST.result)
  {
    ReportedState();
  }

  /** Without leases every request is fresh. */
  lemma {:induction false} FreshRequest(settings: Settings, s: State, op: Op, s': State)
    requires op.Request? && Routable(settings, op.ep) && s.leases == map[] && CachesTrimmed(s, s', op.at)
    requires var endpoint := settings.endpoints[op.ep];
             Concluded(settings, s, IdOf(settings, op.session, op.ep), endpoint, map[],
                       Select(s, op.ep, endpoint.hops, op.cat, op.at), op.cat, op.at, op.live, s', op.result)
    ensures Step(settings, s, op, s')
  {
    assert LookedUp(s.leases, IdOf(settings, op.session, op.ep), op.at) == map[];
  }

  lemma {:induction false} MovesToOtherRoute()
    ensures Step(ONE_ENDPOINT, REPORTED, FIRST_REQUEST, MOVED)
  {
    ReportedState();
    OtherRouteSelected();
    StillHealthyAll(REPORTED.healthy, 1);
    MovedConcluded();
    FreshRequest(ONE_ENDPOINT, REPORTED, FIRST_REQUEST, MOVED);
  }

  lemma {:induction false} FirstHopDrawn()
    ensures Chosen(TWO_POOLS, 1, {}, "a")
  {
    var all := PoolOf(TWO_POOLS, 1);
    assert all[0] == NODE_A && all[1] == NODE_B;
    var cs := Pickable(TWO_POOLS, 1, {});
    assert NODE_A in cs && NODE_B in cs;
    var i :| 0 <= i < |cs| && cs[i] == NODE_A;
    var j :| 0 <= j < |cs| && cs[j] == NODE_B;
    assert LatencyLeq(cs[i], cs[j]);
    assert Draw(cs, NODE_A);
  }

  lemma {:induction false} LastHopDrawn()
    ensures Chosen(TWO_POOLS, 2, {"a"}, "x")
  {
    var all := PoolOf(TWO_POOLS, 2);
    assert all[0] == NODE_X;
    var cs := Pickable(TWO_POOLS, 2, {"a"});
    assert NODE_X in cs;
    assert cs == [NODE_X];
    assert Draw(cs, NODE_X);
  }

  lemma {:induction false} RouteRedrawn()
    ensures Redrawn(ONE_ENDPOINT, TWO_POOLS, 1, "x", ["a", "x"])
  {
    var hops, front, route := [1, 2], ["a"], ["a", "x"];
    assert route[..1] == front && front[..0] == [] && Elems<string>([]) == {} && Elems(front) == {"a"};
    FirstHopDrawn();
    LastHopDrawn();
    assert Chosen(TWO_POOLS, hops[0], Elems(front[..0]), front[0]) && Chosen(TWO_POOLS, hops[|front|], Elems(front), "x");
    FullFrontDrawn(TWO_POOLS, hops, front);
    RedrawnExactly(ONE_ENDPOINT, TWO_POOLS, 1, "x", route);
  }

  const SECOND_REQUEST := Request("session", 1, TWO_POOLS, 3, {}, Some(Routed(["a", "x"], false, "", false)))

  /** The state once a lease has been followed. */
  function FollowedOn(s: State): State
    requires SESSION in s.leases
  {
    var lease := s.leases[SESSION];
    s.(leases := s.leases[SESSION := lease.(lastAccessed := 3)],
       rows := s.rows[SESSION := StickyRouting.Lease(lease.instanceId, lease.exitKey, lease.egressIp, lease.expiresAt, 3)])
  }

  lemma {:induction false} FollowsDrawnLease(s: State)
    requires SESSION in s.leases && s.leases[SESSION] == MultiHopLease("", ["a", "x"], "x", "", 1 + 3600 * SECOND, 1)
    ensures Step(ONE_ENDPOINT, s, SECOND_REQUEST, FollowedOn(s))
  {
    assert Reusable(s.leases[SESSION], TWO_POOLS);
  }

  const BAN := Ban(1, ["a", "x"], 300 * SECOND, true)

  const RUN := [SUCCESS, REPORT, FIRST_REQUEST, Restart(TWO_POOLS, 2), SECOND_REQUEST]

  lemma {:induction false} ReportStands()
    ensures ProperBan(BAN) && Reports(REPORT, BAN) && Standing(RUN, 1, BAN)
  {
    SignatureOfTwo("a", "x");
  }

  lemma {:induction false} TraceGoesOn(settings: Settings, states: seq<State>, ops: seq<Op>, op: Op, s': State)
    requires Trace(settings, states, ops) && Step(settings, states[|ops|], op, s')
    requires ops != [] ==> EndOf(ops[|ops| - 1]) <= op.at
    ensures Trace(settings, states + [s'], ops + [op])
  {
    var states', ops' := states + [s'], ops + [op];
    forall i | 0 <= i < |ops'| ensures StepAt(settings, states', ops', i) {
      if i < |ops| {
        assert StepAt(settings, states, ops, i);
      }
    }
  }

  lemma {:induction false} TwoSteps(settings: Settings, states: seq<State>, ops: seq<Op>, a: Op, s1: State, b: Op, s2: State)
    requires Trace(settings, states, ops) && Step(settings, states[|ops|], a, s1) && Step(settings, s1, b, s2)
    requires (ops != [] ==> EndOf(ops[|ops| - 1]) <= a.at) && EndOf(a) <= b.at
    ensures Trace(settings, states + [s1, s2], ops + [a, b])
  {
    TraceGoesOn(settings, states, ops, a, s1);
    TraceGoesOn(settings, states + [s1], ops + [a], b, s2);
    assert states + [s1] + [s2] == states + [s1, s2] && ops + [a] + [b] == ops + [a, b];
  }

  lemma {:induction false} HealthyAtFirst()
    ensures Step(ONE_ENDPOINT, EMPTY, SUCCESS, AT_FIRST)
  {
    SignatureOfTwo("b", "x");
  }

  /** From an empty service: one route succeeds, the session reports another and is given the first. */
  lemma {:induction false} ReportAndMove() returns (first: State, reported: State, moved: State)
    ensures Step(ONE_ENDPOINT, EMPTY, SUCCESS, first)
    ensures Step(ONE_ENDPOINT, first, REPORT, reported) && Step(ONE_ENDPOINT, reported, FIRST_REQUEST, moved)
    ensures SESSION in moved.rows && moved.rows[SESSION] == StickyRouting.Lease("", "x", "", 1 + 3600 * SECOND, 1)
  {
    HealthyAtFirst();
    MovesToOtherRoute();
    first, reported, moved := AT_FIRST, REPORTED, MOVED;
  }

  lemma {:induction false} ThreeSteps(settings: Settings, s: State, a: Op, s1: State, b: Op, s2: State, c: Op, s3: State)
    requires Step(settings, s, a, s1) && Step(settings, s1, b, s2) && Step(settings, s2, c, s3)
    requires EndOf(a) <= b.at && EndOf(b) <= c.at
    ensures Trace(settings, [s, s1, s2, s3], [a, b, c])
  {
    TraceGoesOn(settings, [s], [], a, s1);
    TwoSteps(settings, [s] + [s1], [] + [a], b, s2, c, s3);
    assert [s] + [s1] + [s2, s3] == [s, s1, s2, s3] && [] + [a] + [b, c] == [a, b, c];
  }

  lemma {:induction false} RunUpToMove() returns (states: seq<State>)
    ensures Trace(ONE_ENDPOINT, states, [SUCCESS, REPORT, FIRST_REQUEST]) && states[0] == EMPTY
    ensures SESSION in states[3].rows && states[3].rows[SESSION] == StickyRouting.Lease("", "x", "", 1 + 3600 * SECOND, 1)
  {
    var first, reported, moved := ReportAndMove();
    states := [EMPTY, first, reported, moved];
    ThreeSteps(ONE_ENDPOINT, EMPTY, SUCCESS, first, REPORT, reported, FIRST_REQUEST, moved);
  }

  /** A restart on which the session's lease comes back with the reported route. */
  lemma {:induction false} RestartedOnRoute(moved: State) returns (restarted: State, followed: State)
    requires SESSION in moved.rows && moved.rows[SESSION] == StickyRouting.Lease("", "x", "", 1 + 3600 * SECOND, 1)
    ensures Step(ONE_ENDPOINT, moved, Restart(TWO_POOLS, 2), restarted)
    ensures Step(ONE_ENDPOINT, restarted, SECOND_REQUEST, followed)
  {
    RouteRedrawn();
    restarted := SomeRestart(ONE_ENDPOINT, moved, TWO_POOLS, 2, SESSION, ["a", "x"]);
    FollowsDrawnLease(restarted);
    followed := FollowedOn(restarted);
  }

  lemma {:induction false} RunGoesOn(states: seq<State>) returns (states': seq<State>)
    requires Trace(ONE_ENDPOINT, states, [SUCCESS, REPORT, FIRST_REQUEST])
    requires SESSION in states[3].rows && states[3].rows[SESSION] == StickyRouting.Lease("", "x", "", 1 + 3600 * SECOND, 1)
    ensures Trace(ONE_ENDPOINT, states', [SUCCESS, REPORT, FIRST_REQUEST] + [Restart(TWO_POOLS, 2), SECOND_REQUEST])
    ensures states'[0] == states[0]
  {
    var restarted, followed := RestartedOnRoute(states[3]);
    TwoSteps(ONE_ENDPOINT, states, [SUCCESS, REPORT, FIRST_REQUEST], Restart(TWO_POOLS, 2), restarted, SECOND_REQUEST, followed);
    states' := states + [restarted, followed];
  }

  lemma {:induction false} RunHappens()
    ensures exists states :: Trace(ONE_ENDPOINT, states, RUN) && states[0] == EMPTY
  {
    var states := RunUpToMove();
    var states' := RunGoesOn(states);
    assert [SUCCESS, REPORT, FIRST_REQUEST] + [Restart(TWO_POOLS, 2), SECOND_REQUEST] == RUN;
  }

  /** The condition on restarts is needed.  From an empty service: [b, x] is reported to work; the session reports
      that [a, x] failed, is given [b, x], and after a restart that draws a for the first hop is given [a, x]
      while its report still stands. */
  lemma {:induction false} RestartCanReturn()
    ensures exists states :: Trace(ONE_ENDPOINT, states, RUN) && states[0] == EMPTY
    ensures RUN[1] == REPORT && REPORT.session == SESSION.0 && REPORT.pool == SESSION.1 && Reports(REPORT, BAN)
    ensures Named(EMPTY, SESSION) && ProperBan(BAN) && ProperId(ONE_ENDPOINT, SESSION, BAN.ep) && Standing(RUN, 1, BAN)
    ensures RUN[4] == SECOND_REQUEST && SECOND_REQUEST.session == SESSION.0 && SECOND_REQUEST.ep == BAN.ep
    ensures SECOND_REQUEST.result.Some? && SECOND_REQUEST.result.value.hops == BAN.route
  {
    RunHappens();
    ReportStands();
  }

  // ---------------------------------------------------------------------------------------------
  // Marks are not read back as they were written

  predicate NoComma(text: string) {
    forall c | c in text :: c != ','
  }

  lemma {:induction false} SplitWithoutCommas(text: string, part: string)
    requires NoComma(text)
    ensures SplitAtCommas(text, part) == Piece(part + text)
    decreases |text|
  {
    if text == "" {
      assert part + text == part;
    } else {
      assert text[0] in text && forall c | c in text[1..] :: c in text;
      SplitWithoutCommas(text[1..], part + [text[0]]);
      assert (part + [text[0]]) + text[1..] == part + text;
    }
  }

  lemma {:induction false} PiecesWithoutCommas(text: string, part: string)
    requires NoComma(part)
    ensures forall piece | piece in SplitAtCommas(text, part) :: NoComma(piece)
    decreases |text|
  {
    if text != "" {
      PiecesWithoutCommas(text[1..], if text[0] == ',' then "" else part + [text[0]]);
    }
  }

  lemma {:induction false} SignatureWithoutCommas(keys: seq<string>)
    requires forall i | 0 <= i < |keys| :: NoComma(keys[i])
    ensures NoComma(Signature(keys))
  {
    if |keys| > 1 {
      SignatureWithoutCommas(keys[1..]);
    }
  }

  /** A stored mark is read back as what it was exactly for a route of a single hop whose key has no comma. */
  lemma {:induction false} OnlySingleHopsReadBack(route: seq<string>)
    requires route == Clean(route) && route != []
    ensures SplitAtCommas(Signature(route), "") == route <==> |route| == 1 && NoComma(route[0])
  {
    assert route[0] in Clean(route);
    if |route| == 1 && NoComma(route[0]) {
      SplitWithoutCommas(route[0], "");
      assert "" + route[0] == route[0];
    }
    if SplitAtCommas(Signature(route), "") == route {
      PiecesWithoutCommas(Signature(route), "");
      assert forall i | 0 <= i < |route| :: route[i] in route;
      SignatureWithoutCommas(route);
      SplitWithoutCommas(Signature(route), "");
    }
  }
}
