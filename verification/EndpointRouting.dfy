/** Multi-hop endpoints: sticky leases, failed and known-healthy routes, and the choice of hops. */
module EndpointRouting {
  import opened Common
  import opened Sorting
  import opened HopSearch
  import opened Timestamps
  import StickyRouting

  datatype Proxy = Proxy(key: string, available: bool, latency: Option<int>, resolvedIp: string)

  /** What the proxy tables answer at one moment: proxies by key, and each pool's candidates in order. */
  datatype Catalog = Catalog(proxies: map<string, Proxy>, pools: map<int, seq<Proxy>>)

  function PoolOf(cat: Catalog, pool: int): seq<Proxy> {
    if pool in cat.pools then cat.pools[pool] else []
  }

  function Limited(all: seq<Proxy>, limit: nat): seq<Proxy> {
    if |all| > limit then all[..limit] else all
  }

  function Candidates(cat: Catalog, pool: int, limit: nat): seq<Proxy> {
    Limited(PoolOf(cat, pool), limit)
  }

  datatype Endpoint = Endpoint(hops: seq<int>, stickyTtl: int)

  datatype Settings = Settings(endpoints: map<int, Endpoint>, defaultTtl: int)

  datatype MultiHopLease = MultiHopLease(instanceId: string, hops: seq<string>, exitKey: string, egressIp: string,
                                         expiresAt: int, lastAccessed: int)

  /** Session, entry pool, endpoint. */
  type LeaseId = (string, int, int)
  type RouteId = (int, seq<string>)
  type NodeId = (int, string)
  type LeaseRow = StickyRouting.Lease

  datatype HealthyRoute = HealthyRoute(endpoint: int, keys: seq<string>, expiresAt: int)

  /** The in-memory caches, and the tables `sticky_leases`, `failed_routes` and `failed_route_nodes`. */
  datatype State = State(
    leases: map<LeaseId, MultiHopLease>,
    failedRoutes: map<RouteId, int>,
    failedNodes: map<NodeId, int>,
    healthy: seq<HealthyRoute>,
    rows: map<LeaseId, LeaseRow>,
    failedRouteRows: map<(int, string), int>,
    failedNodeRows: map<NodeId, int>)

  // ---------------------------------------------------------------------------------------------
  // Failed routes and nodes

  function Clean(keys: seq<string>): seq<string> {
    Filter(keys, (k: string) => k != "")
  }

  /** The keys joined with ">". */
  function Signature(keys: seq<string>): string {
    if keys == [] then "" else if |keys| == 1 then keys[0] else keys[0] + ">" + Signature(keys[1..])
  }

  /** The table test `expires_at > datetime('now')`, by the dates that decide it: see `StoredMarkLastsTheDay`. */
  predicate StoredAsFailed(expiresAt: int, now: int) {
    expiresAt / DAY >= now / DAY
  }

  predicate RouteFailed(failed: map<RouteId, int>, rows: map<(int, string), int>, ep: int, hops: seq<string>, now: int) {
    var keys := Clean(hops);
    || ((ep, keys) in failed && now < failed[(ep, keys)])
    || ((ep, Signature(keys)) in rows && StoredAsFailed(rows[(ep, Signature(keys))], now))
  }

  predicate NodeFailed(failed: map<NodeId, int>, rows: map<NodeId, int>, ep: int, key: string, now: int) {
    key != "" &&
    (|| ((ep, key) in failed && now < failed[(ep, key)])
     || ((ep, key) in rows && StoredAsFailed(rows[(ep, key)], now)))
  }

  /** `m'` is `m` less some entries that have expired. */
  ghost predicate Trimmed<K(!new)>(m: map<K, int>, m': map<K, int>, now: int) {
    && (forall k | k in m' :: k in m && m'[k] == m[k])
    && (forall k | k in m && now < m[k] :: k in m')
  }

  // ---------------------------------------------------------------------------------------------
  // Choosing hops

  /** Latency order, unknown latency last. */
  predicate LatencyLeq(a: Proxy, b: Proxy) {
    b.latency.None? || (a.latency.Some? && a.latency.value <= b.latency.value)
  }

  function ByLatency(): (Proxy, Proxy) -> bool {
    (a: Proxy, b: Proxy) => LatencyLeq(a, b)
  }

  function Offered(cat: Catalog, pool: int): seq<Proxy> {
    Filter(Candidates(cat, pool, 200), (p: Proxy) => p.available && p.key != "")
  }

  function NotFailed(s: State, ep: int, now: int): Proxy -> bool {
    (p: Proxy) => !NodeFailed(s.failedNodes, s.failedNodeRows, ep, p.key, now)
  }

  /** The candidates of one hop: available, not a failed node, fastest first. */
  function Group(s: State, ep: int, pool: int, cat: Catalog, now: int): seq<Proxy> {
    Sort(Filter(Offered(cat, pool), NotFailed(s, ep, now)), ByLatency())
  }

  function GroupFor(s: State, ep: int, cat: Catalog, now: int): int -> seq<Proxy> {
    (pool: int) => Group(s, ep, pool, cat, now)
  }

  /** A group per hop, or nothing when a hop has no pool or no candidate. */
  function GroupsBy(hops: seq<int>, groupFor: int -> seq<Proxy>): (r: Option<seq<seq<Proxy>>>)
    ensures r.Some? ==> |r.value| == |hops|
  {
    if hops == [] then Some([])
    else if hops[0] <= 0 then None
    else
      var group, rest := groupFor(hops[0]), GroupsBy(hops[1..], groupFor);
      if group == [] || rest.None? then None else Some([group] + rest.value)
  }

  function Groups(s: State, ep: int, hops: seq<int>, cat: Catalog, now: int): (r: Option<seq<seq<Proxy>>>)
    ensures r.Some? ==> |r.value| == |hops|
  {
    GroupsBy(hops, GroupFor(s, ep, cat, now))
  }

  function Keys(combo: seq<Proxy>): (r: seq<string>)
    ensures |r| == |combo| && forall i | 0 <= i < |r| :: r[i] == combo[i].key
  {
    seq(|combo|, i requires 0 <= i < |combo| => combo[i].key)
  }

  /** Pairwise distinct nodes on a route that has not failed. */
  predicate ValidCombo(s: State, ep: int, now: int, combo: seq<Proxy>) {
    Distinct(Keys(combo)) && !RouteFailed(s.failedRoutes, s.failedRouteRows, ep, Keys(combo), now)
  }

  function Validity(s: State, ep: int, now: int): seq<Proxy> -> bool {
    (combo: seq<Proxy>) => ValidCombo(s, ep, now, combo)
  }

  function SearchHops(s: State, ep: int, hops: seq<int>, cat: Catalog, now: int): Option<seq<Proxy>> {
    var groups := Groups(s, ep, hops, cat, now);
    if groups.None? then None else Search(groups.value, Validity(s, ep, now))
  }

  predicate IsAvailable(candidates: seq<Proxy>, key: string) {
    exists p | p in candidates :: p.key == key && p.available
  }

  /** The keys are pairwise distinct, each that of an available candidate of its hop's pool. */
  predicate MatchesPools(keys: seq<string>, hops: seq<int>, cat: Catalog)
    requires |keys| == |hops|
  {
    Distinct(keys) && forall i | 0 <= i < |keys| :: hops[i] > 0 && IsAvailable(Candidates(cat, hops[i], 500), keys[i])
  }

  predicate IsHealthyChoice(s: State, ep: int, hops: seq<int>, cat: Catalog, now: int, h: HealthyRoute) {
    && now < h.expiresAt && h.endpoint == ep && |h.keys| == |hops|
    && !RouteFailed(s.failedRoutes, s.failedRouteRows, ep, h.keys, now)
    && MatchesPools(h.keys, hops, cat)
  }

  function HealthyChoices(s: State, ep: int, hops: seq<int>, cat: Catalog, now: int): seq<HealthyRoute> {
    Filter(s.healthy, (h: HealthyRoute) => IsHealthyChoice(s, ep, hops, cat, now, h))
  }

  function LastingLongest(): (HealthyRoute, HealthyRoute) -> bool {
    (a: HealthyRoute, b: HealthyRoute) => a.expiresAt >= b.expiresAt
  }

  /** The known-healthy route that stays healthy longest, the earliest recorded among equals. */
  function PickHealthy(s: State, ep: int, hops: seq<int>, cat: Catalog, now: int): (r: Option<seq<string>>)
    ensures r.Some? ==> exists h :: h in s.healthy && h.keys == r.value && IsHealthyChoice(s, ep, hops, cat, now, h)
  {
    var choices := HealthyChoices(s, ep, hops, cat, now);
    if choices == [] then None
    else
      SortPermutes(choices, LastingLongest());
      var best := Sort(choices, LastingLongest())[0];
      assert best in Sort(choices, LastingLongest());
      Some(best.keys)
  }

  function StillHealthy(healthy: seq<HealthyRoute>, now: int): seq<HealthyRoute> {
    Filter(healthy, (h: HealthyRoute) => now < h.expiresAt)
  }

  datatype Selection = Selection(hops: seq<string>, egressIp: string)

  function ResolvedIp(cat: Catalog, key: string): string {
    if key in cat.proxies then cat.proxies[key].resolvedIp else ""
  }

  function Preferred(cat: Catalog, keys: seq<string>): Selection
    requires keys != []
  {
    Selection(keys, ResolvedIp(cat, keys[|keys| - 1]))
  }

  function Found(cat: Catalog, combo: Option<seq<Proxy>>): (r: Option<Selection>)
    ensures r.Some? ==> r.value.hops != []
  {
    if combo.None? || combo.value == [] then None
    else
      var last := combo.value[|combo.value| - 1];
      var ip := ResolvedIp(cat, last.key);
      Some(Selection(Keys(combo.value), if ip != "" then ip else last.resolvedIp))
  }

  function Select(s: State, ep: int, hops: seq<int>, cat: Catalog, now: int): (r: Option<Selection>)
    requires hops != []
    ensures r.Some? ==> r.value.hops != []
  {
    var preferred := PickHealthy(s, ep, hops, cat, now);
    if preferred.Some? then Some(Preferred(cat, preferred.value)) else Found(cat, SearchHops(s, ep, hops, cat, now))
  }

  // ---------------------------------------------------------------------------------------------
  // Steps

  datatype Routed = Routed(hops: seq<string>, leaseCreated: bool, boundInstance: string, reused: bool)

  function Ttl(settings: Settings, e: Endpoint): int {
    Max(1, if e.stickyTtl != 0 then e.stickyTtl else if settings.defaultTtl != 0 then settings.defaultTtl else 3600) * SECOND
  }

  predicate Reusable(lease: MultiHopLease, cat: Catalog) {
    lease.hops != [] && forall k | k in lease.hops :: k in cat.proxies && cat.proxies[k].available
  }

  predicate Routable(settings: Settings, ep: int) {
    ep in settings.endpoints && settings.endpoints[ep].hops != [] && settings.endpoints[ep].hops[0] > 0
  }

  function IdOf(settings: Settings, session: string, ep: int): LeaseId
    requires Routable(settings, ep)
  {
    (session, settings.endpoints[ep].hops[0], ep)
  }

  /** Reading a lease drops it if it has expired. */
  function LookedUp(leases: map<LeaseId, MultiHopLease>, id: LeaseId, now: int): map<LeaseId, MultiHopLease> {
    if id.0 != "" && id in leases && now >= leases[id].expiresAt then leases - {id} else leases
  }

  /** The end of a request for hops `hops`: a hop without a proxy spoils it, otherwise the lease is stored. */
  ghost predicate Delivered(s: State, s': State, id: LeaseId, hops: seq<string>, exitKey: string, egressIp: string,
                            instanceId: string, created: bool, cat: Catalog, now: int, live: set<string>,
                            result: Option<Routed>)
    requires id.0 != "" ==> id in s'.leases
  {
    if exists k :: k in hops && k !in cat.proxies then result == None && s'.rows == s.rows
    else
      && result == Some(Routed(hops, created, instanceId, instanceId != "" && instanceId in live))
      && s'.rows == if id.0 != ""
                    then s.rows[id := StickyRouting.Lease(instanceId, exitKey, egressIp, s'.leases[id].expiresAt, now)]
                    else s.rows
  }

  /** A fresh selection only drops expired entries of the caches. */
  ghost predicate CachesTrimmed(s: State, s': State, now: int) {
    && Trimmed(s.failedRoutes, s'.failedRoutes, now)
    && Trimmed(s.failedNodes, s'.failedNodes, now)
    && s'.healthy == StillHealthy(s.healthy, now)
    && s'.failedRouteRows == s.failedRouteRows && s'.failedNodeRows == s.failedNodeRows
  }

  /** How a request ends once its selection is known; `leases` are those left by the lookup. */
  ghost predicate Concluded(settings: Settings, s: State, id: LeaseId, endpoint: Endpoint, leases: map<LeaseId, MultiHopLease>,
                            selection: Option<Selection>, cat: Catalog, now: int, live: set<string>, s': State,
                            result: Option<Routed>)
    requires selection.Some? ==> selection.value.hops != []
  {
    if selection.None? then s'.leases == leases && s'.rows == s.rows && result == None
    else
      var hops, ip := selection.value.hops, selection.value.egressIp;
      var exit := hops[|hops| - 1];
      && s'.leases == (if id.0 != ""
                       then leases[id := MultiHopLease("", hops, exit, ip, now + Ttl(settings, endpoint), now)]
                       else leases)
      && Delivered(s, s', id, hops, exit, ip, "", id.0 != "", cat, now, live, result)
  }

  /** A request that found no reusable lease. */
  ghost predicate FreshStep(settings: Settings, s: State, id: LeaseId, endpoint: Endpoint, leases: map<LeaseId, MultiHopLease>,
                            cat: Catalog, now: int, live: set<string>, s': State, result: Option<Routed>)
    requires endpoint.hops != []
  {
    && CachesTrimmed(s, s', now)
    && Concluded(settings, s, id, endpoint, leases, Select(s, id.2, endpoint.hops, cat, now), cat, now, live, s', result)
  }

  ghost predicate RequestStep(settings: Settings, s: State, session: string, ep: int, cat: Catalog, now: int,
                              live: set<string>, s': State, result: Option<Routed>)
  {
    if !Routable(settings, ep) then s' == s && result == None
    else
      var id := IdOf(settings, session, ep);
      var leases := LookedUp(s.leases, id, now);
      if session != "" && id in leases && Reusable(leases[id], cat) then
        var lease := leases[id];
        && s' == s.(leases := leases[id := lease.(lastAccessed := now)], rows := s'.rows)
        && Delivered(s, s', id, lease.hops, lease.exitKey, lease.egressIp, lease.instanceId, false, cat, now, live, result)
      else
        FreshStep(settings, s, id, settings.endpoints[ep], leases, cat, now, live, s', result)
  }

  function Cooldown(cooldownSec: int): int {
    Max(1, if cooldownSec == 0 then 300 else cooldownSec) * SECOND
  }

  function WithoutHealthy(healthy: seq<HealthyRoute>, ep: int, keys: seq<string>): seq<HealthyRoute> {
    Filter(healthy, (h: HealthyRoute) => !(h.endpoint == ep && h.keys == keys))
  }

  /** A dict assignment: an existing key keeps its place, a new one goes to the end. */
  function WithHealthy(healthy: seq<HealthyRoute>, ep: int, keys: seq<string>, expiresAt: int): seq<HealthyRoute> {
    if healthy == [] then [HealthyRoute(ep, keys, expiresAt)]
    else if healthy[0].endpoint == ep && healthy[0].keys == keys then [HealthyRoute(ep, keys, expiresAt)] + healthy[1..]
    else [healthy[0]] + WithHealthy(healthy[1..], ep, keys, expiresAt)
  }

  /** The reported lease and its row go. */
  function WithoutLease(s: State, ep: int, pool: int, session: string): State {
    if ep > 0 && pool > 0 && session != ""
    then s.(leases := s.leases - {(session, pool, ep)}, rows := s.rows - {(session, pool, ep)})
    else s
  }

  function AfterFailure(s: State, ep: int, pool: int, session: string, hops: seq<string>, cooldownSec: int, now: int): State {
    var keys := Clean(hops);
    var s1 := WithoutLease(s, ep, pool, session);
    if ep > 0 && keys != [] then
      var until := now + Cooldown(cooldownSec);
      s1.(failedRoutes := s1.failedRoutes[(ep, keys) := until],
          healthy := WithoutHealthy(s1.healthy, ep, keys),
          failedNodes := s1.failedNodes[(ep, keys[0]) := until],
          failedRouteRows := s1.failedRouteRows[(ep, Signature(keys)) := until],
          failedNodeRows := s1.failedNodeRows[(ep, keys[0]) := until])
    else s1
  }

  function NodesOf(ep: int, keys: seq<string>): set<NodeId> {
    set k | k in keys :: (ep, k)
  }

  function AfterSuccess(s: State, ep: int, hops: seq<string>, ttlSec: int, now: int): State {
    var keys := Clean(hops);
    if ep <= 0 || keys == [] then s
    else
      s.(failedRoutes := s.failedRoutes - {(ep, keys)},
         failedNodes := s.failedNodes - NodesOf(ep, keys),
         healthy := WithHealthy(s.healthy, ep, keys, now + Max(1, if ttlSec == 0 then 600 else ttlSec) * SECOND),
         failedRouteRows := s.failedRouteRows - {(ep, Signature(keys))},
         failedNodeRows := s.failedNodeRows - NodesOf(ep, keys))
  }

  function RowFor(lease: MultiHopLease): LeaseRow {
    StickyRouting.Lease(lease.instanceId, lease.exitKey, lease.egressIp, lease.expiresAt, lease.lastAccessed)
  }

  function Expiry(): MultiHopLease -> int {
    (lease: MultiHopLease) => lease.expiresAt
  }

  function AfterCleanup(s: State, now: int, storeNow: int): State {
    s.(leases := Unexpired(s.leases, Expiry(), now), rows := StickyRouting.KeptRows(s.rows, storeNow))
  }

  // ---------------------------------------------------------------------------------------------
  // Hops drawn anew

  function Piece(part: string): seq<string> {
    if part == "" then [] else [part]
  }

  /** What a draw for one hop chooses from: available candidates other than those used. */
  function Pickable(cat: Catalog, pool: int, used: set<string>): seq<Proxy> {
    Filter(Limited(Filter(PoolOf(cat, pool), (p: Proxy) => p.key !in used), 200), (p: Proxy) => p.available)
  }

  /** `n` can come out of a draw of two: it is no slower than some other candidate, or the only one. */
  ghost predicate Draw(cs: seq<Proxy>, n: Proxy) {
    || cs == [n]
    || exists i, j | 0 <= i < |cs| && 0 <= j < |cs| && i != j :: n == cs[i] && LatencyLeq(cs[i], cs[j])
  }

  /** `keys` can be drawn for the hops, none of them used before; a hop with nothing to draw from is skipped. */
  ghost predicate Draws(cat: Catalog, hops: seq<int>, used: set<string>, keys: seq<string>)
    decreases |hops|
  {
    if hops == [] then keys == []
    else if hops[0] <= 0 || Pickable(cat, hops[0], used) == [] then Draws(cat, hops[1..], used, keys)
    else
      exists n | Draw(Pickable(cat, hops[0], used), n) ::
        if n.key == "" then Draws(cat, hops[1..], used, keys)
        else keys != [] && keys[0] == n.key && Draws(cat, hops[1..], used + {n.key}, keys[1..])
  }

  /** The exit, if known, takes the last place. */
  function Pinned(keys: seq<string>, exit: string): seq<string> {
    if exit == "" then keys else if keys == [] then [exit] else keys[..|keys| - 1] + [exit]
  }

  /** The hops a lease known only to the table, with exit `exit`, can come back with. */
  ghost predicate Redrawn(settings: Settings, cat: Catalog, ep: int, exit: string, keys: seq<string>) {
    if ep !in settings.endpoints then keys == Piece(exit)
    else exists drawn :: Draws(cat, settings.endpoints[ep].hops, {}, drawn) && keys == Pinned(drawn, exit)
  }

  function LeaseFrom(row: LeaseRow, hops: seq<string>): MultiHopLease {
    MultiHopLease(row.instanceId, hops, row.exitKey, row.egressIp, row.expiresAt, row.lastAccessed)
  }

  /** Binding an instance; a lease known only to the table comes back with hops drawn anew. */
  ghost predicate BindStep(settings: Settings, s: State, session: string, ep: int, instanceId: string, cat: Catalog, s': State) {
    if !Routable(settings, ep) then s' == s
    else
      var id := IdOf(settings, session, ep);
      if id !in s.leases && id !in s.rows then s' == s
      else
        && id in s'.leases
        && (if id in s.leases then s'.leases[id] == s.leases[id].(instanceId := instanceId)
            else
              && Redrawn(settings, cat, ep, s.rows[id].exitKey, s'.leases[id].hops)
              && s'.leases[id] == LeaseFrom(s.rows[id], s'.leases[id].hops).(instanceId := instanceId))
        && s' == s.(leases := s.leases[id := s'.leases[id]], rows := s.rows[id := RowFor(s'.leases[id])])
  }

  // ---------------------------------------------------------------------------------------------
  // Starting up again

  function NodesFrom(rows: map<NodeId, int>, now: int): map<NodeId, int> {
    map k | k in rows && k.0 > 0 && k.1 != "" && StoredAsFailed(rows[k], now) :: rows[k]
  }

  /** The non-empty pieces between commas, `part` having been read of the first. */
  function SplitAtCommas(text: string, part: string): seq<string>
    decreases |text|
  {
    if text == "" then Piece(part)
    else if text[0] == ',' then Piece(part) + SplitAtCommas(text[1..], "")
    else SplitAtCommas(text[1..], part + [text[0]])
  }

  /** The cache entry made of a stored mark: signatures are joined with ">" but taken apart at commas. */
  predicate ReadsAs(rows: map<(int, string), int>, row: (int, string), mark: RouteId, now: int) {
    && row in rows && row.0 > 0 && StoredAsFailed(rows[row], now)
    && mark == (row.0, SplitAtCommas(row.1, "")) && mark.1 != []
  }

  ghost predicate ReadBack(rows: map<(int, string), int>, done: set<(int, string)>, marks: map<RouteId, int>, now: int) {
    && (forall mark | mark in marks :: exists row :: row in done && ReadsAs(rows, row, mark, now) && marks[mark] == rows[row])
    && (forall row | row in done && ReadsAs(rows, row, (row.0, SplitAtCommas(row.1, "")), now) ::
          (row.0, SplitAtCommas(row.1, "")) in marks)
  }

  function StillStored<K>(rows: map<K, int>, now: int): map<K, int> {
    map k | k in rows && StoredAsFailed(rows[k], now) :: rows[k]
  }

  /** Each lease is that of its row, with hops drawn anew. */
  ghost predicate LeasesFrom(settings: Settings, cat: Catalog, rows: map<LeaseId, LeaseRow>, leases: map<LeaseId, MultiHopLease>) {
    forall id | id in leases ::
      && id in rows && leases[id] == LeaseFrom(rows[id], leases[id].hops)
      && Redrawn(settings, cat, id.2, rows[id].exitKey, leases[id].hops)
  }

  function EndpointIds(rows: map<LeaseId, LeaseRow>): set<LeaseId> {
    set id | id in rows && id.2 > 0
  }

  /** A restart: leases from the rows, marks from the tables, and nothing known to be healthy. */
  ghost predicate RestartStep(settings: Settings, s: State, cat: Catalog, now: int, s': State) {
    && s'.rows == s.rows && s'.healthy == []
    && s'.leases.Keys == EndpointIds(s.rows) && LeasesFrom(settings, cat, s.rows, s'.leases)
    && ReadBack(s.failedRouteRows, s.failedRouteRows.Keys, s'.failedRoutes, now)
    && s'.failedNodes == NodesFrom(s.failedNodeRows, now)
    && s'.failedRouteRows == StillStored(s.failedRouteRows, now)
    && s'.failedNodeRows == StillStored(s.failedNodeRows, now)
  }

  // ---------------------------------------------------------------------------------------------
  // The mutable service

  /** The first valid combination is where a scan that has met only invalid ones stops. */
  lemma {:induction false} ScanStops(combos: seq<seq<Proxy>>, cap: nat, valid: seq<Proxy> -> bool, n: nat)
    requires n <= |combos|
    requires forall m | 0 <= m < n && m < cap :: !valid(combos[m])
    ensures n < |combos| && n < cap && valid(combos[n]) ==> FirstValid(combos, cap, valid) == Some(n)
    ensures n == |combos| || n >= cap ==> FirstValid(combos, cap, valid) == None
  {
  }

  /** The groups found so far followed by those still to come. */
  function Extended(found: seq<seq<Proxy>>, rest: Option<seq<seq<Proxy>>>): Option<seq<seq<Proxy>>> {
    if rest.None? then None else Some(found + rest.value)
  }

  /** The groups are those found for the first `i` hops, and whatever comes of the others. */
  predicate GroupsBegin(hops: seq<int>, groupFor: int -> seq<Proxy>, i: nat, found: seq<seq<Proxy>>) {
    i <= |hops| && GroupsBy(hops, groupFor) == Extended(found, GroupsBy(hops[i..], groupFor))
  }

  lemma {:induction false} GroupsOpen(hops: seq<int>, groupFor: int -> seq<Proxy>)
    ensures GroupsBegin(hops, groupFor, 0, [])
  {
    assert hops[0..] == hops;
    var all := GroupsBy(hops, groupFor);
    if all.Some? {
      assert [] + all.value == all.value;
    }
  }

  lemma {:induction false} GroupsStop(hops: seq<int>, groupFor: int -> seq<Proxy>, i: nat, found: seq<seq<Proxy>>)
    requires GroupsBegin(hops, groupFor, i, found) && i < |hops| && (hops[i] <= 0 || groupFor(hops[i]) == [])
    ensures GroupsBy(hops, groupFor).None?
  {
    assert hops[i..][0] == hops[i];
  }

  lemma {:induction false} GroupsGoOn(hops: seq<int>, groupFor: int -> seq<Proxy>, i: nat, found: seq<seq<Proxy>>)
    requires GroupsBegin(hops, groupFor, i, found) && i < |hops| && hops[i] > 0 && groupFor(hops[i]) != []
    ensures GroupsBegin(hops, groupFor, i + 1, found + [groupFor(hops[i])])
  {
    var group, rest := groupFor(hops[i]), GroupsBy(hops[i + 1..], groupFor);
    assert hops[i..][0] == hops[i] && hops[i..][1..] == hops[i + 1..];
    if rest.Some? {
      assert found + ([group] + rest.value) == found + [group] + rest.value;
    }
  }

  lemma {:induction false} GroupsDone(hops: seq<int>, groupFor: int -> seq<Proxy>, found: seq<seq<Proxy>>)
    requires GroupsBegin(hops, groupFor, |hops|, found)
    ensures GroupsBy(hops, groupFor) == Some(found)
  {
    assert hops[|hops|..] == [] && found + [] == found;
  }

  lemma {:induction false} ReadBackStep(rows: map<(int, string), int>, done: set<(int, string)>, marks: map<RouteId, int>,
                                        marks': map<RouteId, int>, row: (int, string), now: int)
    requires ReadBack(rows, done, marks, now) && row in rows
    requires var mark := (row.0, SplitAtCommas(row.1, ""));
             marks' == if ReadsAs(rows, row, mark, now) then marks[mark := rows[row]] else marks
    ensures ReadBack(rows, done + {row}, marks', now)
  {
    forall mark | mark in marks'
      ensures exists r :: r in done + {row} && ReadsAs(rows, r, mark, now) && marks'[mark] == rows[r]
    {
      if mark in marks && marks'[mark] == marks[mark] {
        var r :| r in done && ReadsAs(rows, r, mark, now) && marks[mark] == rows[r];
        assert r in done + {row};
      } else {
        assert row in done + {row};
      }
    }
  }

  // A draw under way: whatever can be drawn for the hops still to come completes `keys`.

  ghost predicate DrawsOnceDone(cat: Catalog, hops: seq<int>, i: nat, used: set<string>, keys: seq<string>) {
    i <= |hops| && forall rest | Draws(cat, hops[i..], used, rest) :: Draws(cat, hops, {}, keys + rest)
  }

  lemma {:induction false} DrawsOpen(cat: Catalog, hops: seq<int>)
    ensures DrawsOnceDone(cat, hops, 0, {}, [])
  {
    assert hops[0..] == hops;
    forall rest: seq<string> ensures [] + rest == rest {
    }
  }

  lemma {:induction false} DrawsStarts(cat: Catalog, hops: seq<int>, used: set<string>, n: Proxy, rest: seq<string>)
    requires hops != [] && hops[0] > 0 && Pickable(cat, hops[0], used) != []
    requires Draw(Pickable(cat, hops[0], used), n) && n.key != "" && Draws(cat, hops[1..], used + {n.key}, rest)
    ensures Draws(cat, hops, used, [n.key] + rest)
  {
    var all := [n.key] + rest;
    assert all[0] == n.key && all[1..] == rest;
  }

  lemma {:induction false} DrawsTaken(cat: Catalog, hops: seq<int>, i: nat, used: set<string>, keys: seq<string>, n: Proxy)
    requires i < |hops| && hops[i] > 0 && DrawsOnceDone(cat, hops, i, used, keys)
    requires Draw(Pickable(cat, hops[i], used), n) && Pickable(cat, hops[i], used) != [] && n.key != ""
    ensures DrawsOnceDone(cat, hops, i + 1, used + {n.key}, keys + [n.key])
  {
    var here := hops[i..];
    assert here[0] == hops[i] && here[1..] == hops[i + 1..];
    forall rest | Draws(cat, hops[i + 1..], used + {n.key}, rest) ensures Draws(cat, hops, {}, (keys + [n.key]) + rest) {
      DrawsStarts(cat, here, used, n, rest);
      assert keys + ([n.key] + rest) == (keys + [n.key]) + rest;
    }
  }

  lemma {:induction false} DrawsSkipped(cat: Catalog, hops: seq<int>, i: nat, used: set<string>, keys: seq<string>, n: Option<Proxy>)
    requires i < |hops| && DrawsOnceDone(cat, hops, i, used, keys)
    requires n.None? ==> hops[i] <= 0 || Pickable(cat, hops[i], used) == []
    requires n.Some? ==> hops[i] > 0 && Pickable(cat, hops[i], used) != []
                         && Draw(Pickable(cat, hops[i], used), n.value) && n.value.key == ""
    ensures DrawsOnceDone(cat, hops, i + 1, used, keys)
  {
    forall rest | Draws(cat, hops[i + 1..], used, rest) ensures Draws(cat, hops, {}, keys + rest) {
      assert hops[i..][0] == hops[i] && hops[i..][1..] == hops[i + 1..];
      assert Draws(cat, hops[i..], used, rest);
    }
  }

  lemma {:induction false} DrawsClosed(cat: Catalog, hops: seq<int>, used: set<string>, keys: seq<string>)
    requires DrawsOnceDone(cat, hops, |hops|, used, keys)
    ensures Draws(cat, hops, {}, keys)
  {
    assert hops[|hops|..] == [] && keys + [] == keys;
    assert Draws(cat, hops[|hops|..], used, []);
  }

  lemma {:induction false} ExpiredLeave(leases: map<LeaseId, MultiHopLease>, expired: set<LeaseId>, now: int)
    requires expired == set id | id in leases && now >= leases[id].expiresAt
    ensures leases - expired == Unexpired(leases, Expiry(), now)
    ensures |Unexpired(leases, Expiry(), now)| == |leases| - |expired|
  {
    assert leases.Keys == Unexpired(leases, Expiry(), now).Keys + expired;
  }

  class EndpointRouter {
    const settings: Settings
    var leases: map<LeaseId, MultiHopLease>
    var failedRoutes: map<RouteId, int>
    var failedNodes: map<NodeId, int>
    var healthy: seq<HealthyRoute>
    var rows: map<LeaseId, LeaseRow>
    var failedRouteRows: map<(int, string), int>
    var failedNodeRows: map<NodeId, int>

    function View(): State
      reads this
    {
      State(leases, failedRoutes, failedNodes, healthy, rows, failedRouteRows, failedNodeRows)
    }

    constructor (settings: Settings)
      ensures this.settings == settings && View() == State(map[], map[], map[], [], map[], map[], map[])
    {
      this.settings := settings;
      leases, failedRoutes, failedNodes, healthy := map[], map[], map[], [];
      rows, failedRouteRows, failedNodeRows := map[], map[], map[];
    }

    // The selection methods answer for the state `s` in which the request began; until it ends the caches
    // only lose expired entries.

    ghost predicate TrimmedFrom(s: State, now: int)
      reads this
    {
      && Trimmed(s.failedRoutes, failedRoutes, now) && Trimmed(s.failedNodes, failedNodes, now)
      && failedRouteRows == s.failedRouteRows && failedNodeRows == s.failedNodeRows
    }

    method IsRouteFailed(ep: int, hops: seq<string>, now: int, ghost s: State) returns (failed: bool)
      requires TrimmedFrom(s, now)
      modifies this`failedRoutes
      ensures TrimmedFrom(s, now)
      ensures failed == RouteFailed(s.failedRoutes, s.failedRouteRows, ep, hops, now)
    {
      var keys := Clean(hops);
      if (ep, keys) in failedRoutes {
        if now >= failedRoutes[(ep, keys)] {
          failedRoutes := failedRoutes - {(ep, keys)};
        } else {
          return true;
        }
      }
      var key := (ep, Signature(keys));
      failed := key in failedRouteRows && StoredAsFailed(failedRouteRows[key], now);
    }

    method IsNodeFailed(ep: int, key: string, now: int, ghost s: State) returns (failed: bool)
      requires TrimmedFrom(s, now)
      modifies this`failedNodes
      ensures TrimmedFrom(s, now)
      ensures failed == NodeFailed(s.failedNodes, s.failedNodeRows, ep, key, now)
    {
      if key == "" {
        return false;
      }
      if (ep, key) in failedNodes {
        if now >= failedNodes[(ep, key)] {
          failedNodes := failedNodes - {(ep, key)};
        } else {
          return true;
        }
      }
      failed := (ep, key) in failedNodeRows && StoredAsFailed(failedNodeRows[(ep, key)], now);
    }

    method DropFailedNodes(ep: int, offered: seq<Proxy>, now: int, ghost s: State) returns (kept: seq<Proxy>)
      requires TrimmedFrom(s, now)
      modifies this`failedNodes
      ensures TrimmedFrom(s, now)
      ensures kept == Filter(offered, NotFailed(s, ep, now))
    {
      kept := [];
      for i := 0 to |offered|
        invariant TrimmedFrom(s, now)
        invariant kept == Filter(offered[..i], NotFailed(s, ep, now))
      {
        FilterPrefix(offered, i, NotFailed(s, ep, now));
        var failed := IsNodeFailed(ep, offered[i].key, now, s);
        if !failed {
          kept := kept + [offered[i]];
        }
      }
      assert offered[..|offered|] == offered;
    }

    /** The candidates of one hop. */
    method CandidateGroup(ep: int, pool: int, cat: Catalog, now: int, ghost s: State) returns (group: seq<Proxy>)
      requires TrimmedFrom(s, now)
      modifies this`failedNodes
      ensures TrimmedFrom(s, now)
      ensures group == Group(s, ep, pool, cat, now)
    {
      var kept := DropFailedNodes(ep, Offered(cat, pool), now, s);
      group := Sort(kept, ByLatency());
    }

    method CandidateGroups(ep: int, hops: seq<int>, cat: Catalog, now: int, ghost s: State)
      returns (groups: Option<seq<seq<Proxy>>>)
      requires TrimmedFrom(s, now)
      modifies this`failedNodes
      ensures TrimmedFrom(s, now)
      ensures groups == Groups(s, ep, hops, cat, now)
    {
      ghost var groupFor := GroupFor(s, ep, cat, now);
      var found: seq<seq<Proxy>> := [];
      GroupsOpen(hops, groupFor);
      for i := 0 to |hops|
        invariant TrimmedFrom(s, now)
        invariant GroupsBegin(hops, groupFor, i, found)
      {
        if hops[i] <= 0 {
          GroupsStop(hops, groupFor, i, found);
          return None;
        }
        var group := CandidateGroup(ep, hops[i], cat, now, s);
        if group == [] {
          GroupsStop(hops, groupFor, i, found);
          return None;
        }
        GroupsGoOn(hops, groupFor, i, found);
        found := found + [group];
      }
      GroupsDone(hops, groupFor, found);
      return Some(found);
    }

    /** The bounded scan over combinations. */
    method ScanCombos(ep: int, combos: seq<seq<Proxy>>, maxChecks: nat, now: int, ghost s: State)
      returns (found: Option<nat>)
      requires TrimmedFrom(s, now)
      modifies this`failedRoutes
      ensures TrimmedFrom(s, now)
      ensures found == FirstValid(combos, maxChecks, Validity(s, ep, now))
    {
      ghost var valid := Validity(s, ep, now);
      var checked := 0;
      while checked < |combos| && checked < maxChecks
        invariant checked <= |combos|
        invariant TrimmedFrom(s, now)
        invariant forall m | 0 <= m < checked :: !valid(combos[m])
      {
        ScanStops(combos, maxChecks, valid, checked);
        var keys := Keys(combos[checked]);
        if Distinct(keys) {
          var failed := IsRouteFailed(ep, keys, now, s);
          if !failed {
            return Some(checked);
          }
        }
        checked := checked + 1;
      }
      ScanStops(combos, maxChecks, valid, checked);
      return None;
    }

    method SearchEndpointHops(ep: int, hops: seq<int>, cat: Catalog, now: int, ghost s: State)
      returns (combo: Option<seq<Proxy>>)
      requires TrimmedFrom(s, now)
      modifies this`failedNodes, this`failedRoutes
      ensures TrimmedFrom(s, now)
      ensures combo == SearchHops(s, ep, hops, cat, now)
    {
      var groups := CandidateGroups(ep, hops, cat, now, s);
      if groups.None? {
        return None;
      }
      var combos := Product(groups.value);
      var found := ScanCombos(ep, combos, MaxChecks(groups.value), now, s);
      return if found.None? then None else Some(combos[found.value]);
    }

    /** Whether one remembered route can serve the request. */
    method ConsiderHealthy(h: HealthyRoute, ep: int, hops: seq<int>, cat: Catalog, now: int, ghost s: State)
      returns (chosen: bool)
      requires TrimmedFrom(s, now)
      modifies this`failedRoutes
      ensures TrimmedFrom(s, now)
      ensures chosen == IsHealthyChoice(s, ep, hops, cat, now, h)
    {
      if now >= h.expiresAt || h.endpoint != ep || |h.keys| != |hops| {
        return false;
      }
      var failed := IsRouteFailed(ep, h.keys, now, s);
      chosen := !failed && MatchesPools(h.keys, hops, cat);
    }

    method PickHealthyRoute(ep: int, hops: seq<int>, cat: Catalog, now: int, ghost s: State)
      returns (keys: Option<seq<string>>)
      requires TrimmedFrom(s, now) && healthy == s.healthy
      modifies this`failedRoutes, this`healthy
      ensures TrimmedFrom(s, now) && healthy == StillHealthy(s.healthy, now)
      ensures keys == PickHealthy(s, ep, hops, cat, now)
    {
      ghost var choose := (h: HealthyRoute) => IsHealthyChoice(s, ep, hops, cat, now, h);
      ghost var lasting := (h: HealthyRoute) => now < h.expiresAt;
      var known := healthy;
      var kept: seq<HealthyRoute> := [];
      var choices: seq<HealthyRoute> := [];
      for i := 0 to |known|
        invariant TrimmedFrom(s, now)
        invariant kept == Filter(known[..i], lasting)
        invariant choices == Filter(known[..i], choose)
      {
        var h := known[i];
        FilterPrefix(known, i, lasting);
        FilterPrefix(known, i, choose);
        if now < h.expiresAt {
          kept := kept + [h];
        }
        var chosen := ConsiderHealthy(h, ep, hops, cat, now, s);
        if chosen {
          choices := choices + [h];
        }
      }
      assert known[..|known|] == known;
      healthy := kept;
      if choices == [] {
        return None;
      }
      SortPermutes(choices, LastingLongest());
      return Some(Sort(choices, LastingLongest())[0].keys);
    }

    method SelectEndpointHops(ep: int, hops: seq<int>, cat: Catalog, now: int, ghost s: State)
      returns (selection: Option<Selection>)
      requires hops != []
      requires TrimmedFrom(s, now) && healthy == s.healthy
      modifies this`failedRoutes, this`failedNodes, this`healthy
      ensures TrimmedFrom(s, now) && healthy == StillHealthy(s.healthy, now)
      ensures selection == Select(s, ep, hops, cat, now)
    {
      var preferred := PickHealthyRoute(ep, hops, cat, now, s);
      if preferred.Some? {
        return Some(Preferred(cat, preferred.value));
      }
      var combo := SearchEndpointHops(ep, hops, cat, now, s);
      return Found(cat, combo);
    }

    /** Looks the lease up and, if all its hops are available, takes it. */
    method TakeLease(id: LeaseId, cat: Catalog, now: int) returns (lease: Option<MultiHopLease>)
      modifies this`leases
      ensures var known := LookedUp(old(leases), id, now);
              if id.0 != "" && id in known && Reusable(known[id], cat)
              then lease == Some(known[id]) && leases == known[id := known[id].(lastAccessed := now)]
              else lease == None && leases == known
    {
      if id.0 == "" || id !in leases {
        return None;
      }
      var found := leases[id];
      if now >= found.expiresAt {
        leases := leases - {id};
        return None;
      }
      if !Reusable(found, cat) {
        return None;
      }
      leases := leases[id := found.(lastAccessed := now)];
      return Some(found);
    }

    /** Resolves the hops and stores the lease. */
    method Deliver(id: LeaseId, hops: seq<string>, exitKey: string, egressIp: string, instanceId: string,
                   created: bool, cat: Catalog, now: int, live: set<string>) returns (result: Option<Routed>)
      requires id.0 != "" ==> id in leases
      modifies this`rows
      ensures Delivered(old(View()), View(), id, hops, exitKey, egressIp, instanceId, created, cat, now, live, result)
    {
      if exists k :: k in hops && k !in cat.proxies {
        return None;
      }
      if id.0 != "" {
        rows := rows[id := StickyRouting.Lease(instanceId, exitKey, egressIp, leases[id].expiresAt, now)];
      }
      return Some(Routed(hops, created, instanceId, instanceId != "" && instanceId in live));
    }

    method Conclude(id: LeaseId, endpoint: Endpoint, selection: Option<Selection>, cat: Catalog, now: int,
                    live: set<string>, ghost s: State) returns (result: Option<Routed>)
      requires selection.Some? ==> selection.value.hops != []
      requires rows == s.rows
      modifies this`leases, this`rows
      ensures Concluded(settings, s, id, endpoint, old(leases), selection, cat, now, live, View(), result)
    {
      if selection.None? {
        return None;
      }
      var hops, ip := selection.value.hops, selection.value.egressIp;
      var exit := hops[|hops| - 1];
      if id.0 != "" {
        leases := leases[id := MultiHopLease("", hops, exit, ip, now + Ttl(settings, endpoint), now)];
      }
      result := Deliver(id, hops, exit, ip, "", id.0 != "", cat, now, live);
    }

    method RouteFresh(id: LeaseId, endpoint: Endpoint, cat: Catalog, now: int, live: set<string>, ghost s: State)
      returns (result: Option<Routed>)
      requires endpoint.hops != [] && View() == s.(leases := leases)
      modifies this
      ensures FreshStep(settings, s, id, endpoint, old(leases), cat, now, live, View(), result)
    {
      var selection := SelectEndpointHops(id.2, endpoint.hops, cat, now, s);
      result := Conclude(id, endpoint, selection, cat, now, live, s);
    }

    method RouteRequest(session: string, ep: int, cat: Catalog, now: int, live: set<string>) returns (result: Option<Routed>)
      modifies this
      ensures RequestStep(settings, old(View()), session, ep, cat, now, live, View(), result)
    {
      if ep !in settings.endpoints {
        return None;
      }
      var endpoint := settings.endpoints[ep];
      if endpoint.hops == [] || endpoint.hops[0] <= 0 {
        return None;
      }
      var id := (session, endpoint.hops[0], ep);
      var lease := TakeLease(id, cat, now);
      if lease.Some? {
        var l := lease.value;
        result := Deliver(id, l.hops, l.exitKey, l.egressIp, l.instanceId, false, cat, now, live);
      } else {
        result := RouteFresh(id, endpoint, cat, now, live, old(View()));
      }
    }

    method ReportFailure(ep: int, pool: int, session: string, hops: seq<string>, cooldownSec: int, now: int)
      modifies this
      ensures View() == AfterFailure(old(View()), ep, pool, session, hops, cooldownSec, now)
    {
      var keys := Clean(hops);
      if ep > 0 && pool > 0 && session != "" {
        leases := leases - {(session, pool, ep)};
        rows := rows - {(session, pool, ep)};
      }
      if ep > 0 && keys != [] {
        var until := now + Cooldown(cooldownSec);
        failedRoutes := failedRoutes[(ep, keys) := until];
        healthy := WithoutHealthy(healthy, ep, keys);
        failedNodes := failedNodes[(ep, keys[0]) := until];
        failedRouteRows := failedRouteRows[(ep, Signature(keys)) := until];
        failedNodeRows := failedNodeRows[(ep, keys[0]) := until];
      }
    }

    method ForgetNodes(ep: int, keys: seq<string>)
      modifies this`failedNodes, this`failedNodeRows
      ensures failedNodes == old(failedNodes) - NodesOf(ep, keys)
      ensures failedNodeRows == old(failedNodeRows) - NodesOf(ep, keys)
    {
      for i := 0 to |keys|
        invariant failedNodes == old(failedNodes) - NodesOf(ep, keys[..i])
        invariant failedNodeRows == old(failedNodeRows) - NodesOf(ep, keys[..i])
      {
        assert keys[..i + 1] == keys[..i] + [keys[i]];
        assert NodesOf(ep, keys[..i + 1]) == NodesOf(ep, keys[..i]) + {(ep, keys[i])};
        failedNodes := failedNodes - {(ep, keys[i])};
        failedNodeRows := failedNodeRows - {(ep, keys[i])};
      }
      assert keys[..|keys|] == keys;
    }

    method ReportSuccess(ep: int, hops: seq<string>, ttlSec: int, now: int)
      modifies this
      ensures View() == AfterSuccess(old(View()), ep, hops, ttlSec, now)
    {
      var keys := Clean(hops);
      if ep <= 0 || keys == [] {
        return;
      }
      failedRoutes := failedRoutes - {(ep, keys)};
      ForgetNodes(ep, keys);
      healthy := WithHealthy(healthy, ep, keys, now + Max(1, if ttlSec == 0 then 600 else ttlSec) * SECOND);
      failedRouteRows := failedRouteRows - {(ep, Signature(keys))};
    }

    method PickCandidate(pool: int, used: set<string>, cat: Catalog) returns (n: Option<Proxy>)
      ensures n.None? <==> Pickable(cat, pool, used) == []
      ensures n.Some? ==> Draw(Pickable(cat, pool, used), n.value)
      ensures n.Some? && |Pickable(cat, pool, used)| >= 2 ==>
                exists i, j | 0 <= i < |Pickable(cat, pool, used)| && 0 <= j < |Pickable(cat, pool, used)| && i != j ::
                  var (a, b) := (Pickable(cat, pool, used)[i], Pickable(cat, pool, used)[j]);
                  n.value == a && (b.latency.Some? ==> a.latency.Some? && a.latency.value <= b.latency.value)
    {
      var cs := Pickable(cat, pool, used);
      if cs == [] {
        return None;
      }
      if |cs| == 1 {
        assert cs == [cs[0]];
        return Some(cs[0]);
      }
      var i: nat, j: nat := *, *;
      if i >= |cs| || j >= |cs| || i == j {
        i, j := 0, 1;
      }
      return Some(if LatencyLeq(cs[i], cs[j]) then cs[i] else cs[j]);
    }

    method DrawHops(hops: seq<int>, cat: Catalog) returns (keys: seq<string>)
      ensures Draws(cat, hops, {}, keys)
    {
      keys := [];
      var used: set<string> := {};
      DrawsOpen(cat, hops);
      for i := 0 to |hops|
        invariant DrawsOnceDone(cat, hops, i, used, keys)
      {
        if hops[i] > 0 {
          var n := PickCandidate(hops[i], used, cat);
          if n.Some? && n.value.key != "" {
            DrawsTaken(cat, hops, i, used, keys, n.value);
            keys := keys + [n.value.key];
            used := used + {n.value.key};
          } else {
            DrawsSkipped(cat, hops, i, used, keys, n);
          }
        } else {
          DrawsSkipped(cat, hops, i, used, keys, None);
        }
      }
      DrawsClosed(cat, hops, used, keys);
    }

    method LoadHopKeys(ep: int, exit: string, cat: Catalog) returns (keys: seq<string>)
      ensures Redrawn(settings, cat, ep, exit, keys)
    {
      if ep !in settings.endpoints {
        return Piece(exit);
      }
      var drawn := DrawHops(settings.endpoints[ep].hops, cat);
      keys := Pinned(drawn, exit);
    }

    method BindInstance(session: string, ep: int, instanceId: string, cat: Catalog)
      modifies this
      ensures BindStep(settings, old(View()), session, ep, instanceId, cat, View())
    {
      if ep !in settings.endpoints || settings.endpoints[ep].hops == [] || settings.endpoints[ep].hops[0] <= 0 {
        return;
      }
      var id := (session, settings.endpoints[ep].hops[0], ep);
      var lease;
      if id in leases {
        lease := leases[id].(instanceId := instanceId);
      } else {
        if id !in rows {
          return;
        }
        var hops := LoadHopKeys(ep, rows[id].exitKey, cat);
        lease := LeaseFrom(rows[id], hops).(instanceId := instanceId);
      }
      leases := leases[id := lease];
      rows := rows[id := RowFor(lease)];
    }

    /** The cache of failed routes, read back row by row. */
    method LoadFailedRoutes(now: int)
      modifies this`failedRoutes
      ensures ReadBack(failedRouteRows, failedRouteRows.Keys, failedRoutes, now)
    {
      failedRoutes := map[];
      var todo := failedRouteRows.Keys;
      while todo != {}
        invariant todo <= failedRouteRows.Keys
        invariant ReadBack(failedRouteRows, failedRouteRows.Keys - todo, failedRoutes, now)
        decreases todo
      {
        var row :| row in todo;
        ghost var done, before := failedRouteRows.Keys - todo, failedRoutes;
        todo := todo - {row};
        if row.0 > 0 && row.1 != "" && StoredAsFailed(failedRouteRows[row], now) {
          var keys := SplitAtCommas(row.1, "");
          if keys != [] {
            failedRoutes := failedRoutes[(row.0, keys) := failedRouteRows[row]];
          }
        }
        ReadBackStep(failedRouteRows, done, before, failedRoutes, row, now);
        assert failedRouteRows.Keys - todo == done + {row};
      }
      assert failedRouteRows.Keys - todo == failedRouteRows.Keys;
    }

    /** The leases of the endpoints, read back row by row. */
    method LoadLeases(cat: Catalog)
      modifies this`leases
      ensures leases.Keys == EndpointIds(rows) && LeasesFrom(settings, cat, rows, leases)
    {
      leases := map[];
      var todo := rows.Keys;
      while todo != {}
        invariant todo <= rows.Keys
        invariant leases.Keys == set id | id in rows && id !in todo && id.2 > 0
        invariant LeasesFrom(settings, cat, rows, leases)
        decreases todo
      {
        var id :| id in todo;
        todo := todo - {id};
        if id.2 > 0 {
          var hops := LoadHopKeys(id.2, rows[id].exitKey, cat);
          leases := leases[id := LeaseFrom(rows[id], hops)];
        }
      }
    }

    /** `_load_sticky_leases` for endpoints and `_load_failed_routes`, on a service that starts anew. */
    method Restart(cat: Catalog, now: int)
      modifies this
      ensures RestartStep(settings, old(View()), cat, now, View())
    {
      healthy := [];
      LoadLeases(cat);
      LoadFailedRoutes(now);
      failedNodes := NodesFrom(failedNodeRows, now);
      failedRouteRows := StillStored(failedRouteRows, now);
      failedNodeRows := StillStored(failedNodeRows, now);
    }

    method CleanupLeases(now: int, storeNow: int) returns (removed: nat)
      modifies this
      ensures View() == AfterCleanup(old(View()), now, storeNow)
      ensures removed == |old(leases)| - |leases|
    {
      var expired := set id | id in leases && now >= leases[id].expiresAt;
      ExpiredLeave(leases, expired, now);
      removed := |expired|;
      leases := leases - expired;
      rows := StickyRouting.KeptRows(rows, storeNow);
    }
  }

  // ---------------------------------------------------------------------------------------------
  // What a fresh selection guarantees

  /** Compared as text, as the table compares them, the two timestamps' dates decide.  So the stored mark holds a
      route out at least until it expires, and exactly to the end of the UTC day in which it expires. */
  lemma {:induction false} StoredMarkLastsTheDay(expiresAt: int, now: int)
    requires Representable(expiresAt) && Representable(now)
    ensures TextLess(SqliteNow(now), IsoFormat(expiresAt)) <==> StoredAsFailed(expiresAt, now)
    ensures TextLess(SqliteNow(now), IsoFormat(expiresAt)) <==> now < (expiresAt / DAY + 1) * DAY
    ensures now < expiresAt ==> TextLess(SqliteNow(now), IsoFormat(expiresAt))
  {
    FormatsCompareByDate(expiresAt, now);
    DayHasNotEnded(expiresAt, now);
  }

  lemma {:induction false} DayHasNotEnded(expiresAt: int, now: int)
    ensures StoredAsFailed(expiresAt, now) <==> now < (expiresAt / DAY + 1) * DAY
    ensures now < expiresAt ==> StoredAsFailed(expiresAt, now)
  {
  }

  /** The healthy pick is used whenever there is a choice, and stays healthy at least as long as any other. */
  lemma {:induction false} HealthyPickLastsLongest(s: State, ep: int, hops: seq<int>, cat: Catalog, now: int)
    ensures PickHealthy(s, ep, hops, cat, now).None? <==>
              forall h | h in s.healthy :: !IsHealthyChoice(s, ep, hops, cat, now, h)
    ensures PickHealthy(s, ep, hops, cat, now).Some? ==>
              exists best :: best in s.healthy && IsHealthyChoice(s, ep, hops, cat, now, best)
                && PickHealthy(s, ep, hops, cat, now).value == best.keys
                && forall h | h in s.healthy && IsHealthyChoice(s, ep, hops, cat, now, h) :: h.expiresAt <= best.expiresAt
  {
    var choices := HealthyChoices(s, ep, hops, cat, now);
    assert forall h :: h in choices <==> h in s.healthy && IsHealthyChoice(s, ep, hops, cat, now, h);
    if choices != [] {
      SortPermutes(choices, LastingLongest());
      SortSorts(choices, LastingLongest());
      var sorted := Sort(choices, LastingLongest());
      var best := sorted[0];
      assert best in sorted;
      forall h | h in choices ensures h.expiresAt <= best.expiresAt {
        var i :| 0 <= i < |sorted| && sorted[i] == h;
        assert i > 0 ==> LastingLongest()(sorted[0], sorted[i]);
      }
    } else if s.healthy != [] {
      assert forall h | h in s.healthy && IsHealthyChoice(s, ep, hops, cat, now, h) :: h in choices;
    }
  }

  /** An available node with the key is among the first `limit` the pool lists. */
  predicate Lists(cat: Catalog, pool: int, limit: nat, key: string) {
    exists k | 0 <= k < limit && k < |PoolOf(cat, pool)| ::
      PoolOf(cat, pool)[k].available && PoolOf(cat, pool)[k].key == key
  }

  lemma {:induction false} ListedAmong(cat: Catalog, pool: int, limit: nat, key: string)
    ensures IsAvailable(Candidates(cat, pool, limit), key) <==> Lists(cat, pool, limit, key)
  {
    var few := Candidates(cat, pool, limit);
    forall p | p in few && p.key == key && p.available ensures Lists(cat, pool, limit, key) {
      var k :| 0 <= k < |few| && few[k] == p;
      assert PoolOf(cat, pool)[k] == p;
    }
    forall k | 0 <= k < limit && k < |PoolOf(cat, pool)| ensures PoolOf(cat, pool)[k] in few {
      assert few[k] == PoolOf(cat, pool)[k];
    }
  }

  /** The keys differ, and each hop's pool lists the available node of its key among the first 500. */
  predicate ListedApart(keys: seq<string>, hops: seq<int>, cat: Catalog)
    requires |keys| == |hops|
  {
    && (forall i, j | 0 <= i < j < |keys| :: keys[i] != keys[j])
    && forall i | 0 <= i < |keys| :: hops[i] > 0 && Lists(cat, hops[i], 500, keys[i])
  }

  lemma {:induction false} MatchesAreListed(keys: seq<string>, hops: seq<int>, cat: Catalog)
    requires |keys| == |hops| && MatchesPools(keys, hops, cat)
    ensures ListedApart(keys, hops, cat)
  {
    forall i | 0 <= i < |keys| ensures hops[i] > 0 && Lists(cat, hops[i], 500, keys[i]) {
      ListedAmong(cat, hops[i], 500, keys[i]);
    }
  }

  lemma {:induction false} ListedAreMatches(keys: seq<string>, hops: seq<int>, cat: Catalog)
    requires |keys| == |hops| && ListedApart(keys, hops, cat)
    ensures MatchesPools(keys, hops, cat)
  {
    forall i | 0 <= i < |keys| ensures hops[i] > 0 && IsAvailable(Candidates(cat, hops[i], 500), keys[i]) {
      ListedAmong(cat, hops[i], 500, keys[i]);
    }
  }

  /** Which remembered routes qualify: those still healthy, of the endpoint, not marked failed, with a different
      key for every hop, that of an available node among the first 500 its pool lists. */
  lemma {:induction false} QualifiesExactly(s: State, ep: int, hops: seq<int>, cat: Catalog, now: int, h: HealthyRoute)
    ensures IsHealthyChoice(s, ep, hops, cat, now, h) <==>
              && h.endpoint == ep && now < h.expiresAt && |h.keys| == |hops|
              && !RouteFailed(s.failedRoutes, s.failedRouteRows, ep, h.keys, now)
              && ListedApart(h.keys, hops, cat)
  {
    if |h.keys| == |hops| {
      if MatchesPools(h.keys, hops, cat) {
        MatchesAreListed(h.keys, hops, cat);
      }
      if ListedApart(h.keys, hops, cat) {
        ListedAreMatches(h.keys, hops, cat);
      }
    }
  }

  /** The i-th group holds the candidates of the i-th hop. */
  lemma {:induction false} GroupsAt(hops: seq<int>, groupFor: int -> seq<Proxy>, i: nat)
    requires GroupsBy(hops, groupFor).Some? && i < |hops|
    ensures hops[i] > 0 && GroupsBy(hops, groupFor).value[i] == groupFor(hops[i]) != []
  {
    if i > 0 {
      GroupsAt(hops[1..], groupFor, i - 1);
    }
  }

  lemma {:induction false} GroupsFail(hops: seq<int>, groupFor: int -> seq<Proxy>) returns (i: nat)
    requires GroupsBy(hops, groupFor).None?
    ensures i < |hops| && (hops[i] <= 0 || groupFor(hops[i]) == [])
  {
    if hops[0] <= 0 || groupFor(hops[0]) == [] {
      i := 0;
    } else {
      i := GroupsFail(hops[1..], groupFor);
      i := i + 1;
    }
  }

  /** `p` may serve a hop: it is offered by the hop's pool and not marked failed. */
  predicate MayServe(s: State, ep: int, pool: int, cat: Catalog, now: int, p: Proxy) {
    pool > 0 && p in Offered(cat, pool) && !NodeFailed(s.failedNodes, s.failedNodeRows, ep, p.key, now)
  }

  /** That is: it is available, has a key, and is one of the first 200 the pool lists. */
  lemma {:induction false} MayServeExactly(s: State, ep: int, pool: int, cat: Catalog, now: int, p: Proxy)
    ensures MayServe(s, ep, pool, cat, now, p) <==>
              && pool > 0 && p.available && p.key != ""
              && !NodeFailed(s.failedNodes, s.failedNodeRows, ep, p.key, now)
              && exists k | 0 <= k < 200 && k < |PoolOf(cat, pool)| :: PoolOf(cat, pool)[k] == p
  {
    var few := Candidates(cat, pool, 200);
    if p in Offered(cat, pool) {
      var k :| 0 <= k < |few| && few[k] == p;
      assert PoolOf(cat, pool)[k] == p;
    }
    forall k | 0 <= k < 200 && k < |PoolOf(cat, pool)| && PoolOf(cat, pool)[k] == p ensures p in few {
      assert few[k] == p;
    }
  }

  function Unused(used: set<string>): Proxy -> bool {
    (p: Proxy) => p.key !in used
  }

  /** A draw chooses from the available candidates among the first 200 of the pool that are not used yet. */
  lemma {:induction false} PickableExactly(cat: Catalog, pool: int, used: set<string>, p: Proxy)
    ensures p in Pickable(cat, pool, used) <==>
              && p.available && p.key !in used
              && exists k | 0 <= k < |PoolOf(cat, pool)| ::
                   PoolOf(cat, pool)[k] == p && |Filter(PoolOf(cat, pool)[..k], Unused(used))| < 200
  {
    FilteredAt(PoolOf(cat, pool), Unused(used), 200, p);
    FilterSameTest(PoolOf(cat, pool), (x: Proxy) => x.key !in used, Unused(used));
  }

  lemma {:induction false} FilterSameTest(s: seq<Proxy>, a: Proxy -> bool, b: Proxy -> bool)
    requires forall x | x in s :: a(x) == b(x)
    ensures Filter(s, a) == Filter(s, b)
  {
    if s != [] {
      FilterSameTest(s[1..], a, b);
    }
  }

  /** `p` stands in `s` and passes the test with fewer than `n` others before it. */
  ghost predicate PassesAmong(s: seq<Proxy>, keep: Proxy -> bool, n: nat, p: Proxy) {
    exists k | 0 <= k < |s| :: s[k] == p && keep(p) && |Filter(s[..k], keep)| < n
  }

  lemma {:induction false} PassesLast(s: seq<Proxy>, m: nat, keep: Proxy -> bool, n: nat, p: Proxy)
    requires |s| == m + 1
    ensures PassesAmong(s, keep, n, p) <==>
              PassesAmong(s[..m], keep, n, p) || (s[m] == p && keep(p) && |Filter(s[..m], keep)| < n)
  {
    forall k | 0 <= k < m ensures s[..m][..k] == s[..k] && s[..m][k] == s[k] {
    }
  }

  lemma {:induction false} LimitedAppend(xs: seq<Proxy>, x: Proxy, n: nat, p: Proxy)
    ensures p in Limited(xs + [x], n) <==> p in Limited(xs, n) || (|xs| < n && p == x)
  {
    assert |xs| >= n ==> (xs + [x])[..n] == xs[..n];
    assert |xs| == n ==> xs[..n] == xs;
  }

  lemma {:induction false} FilterLast(s: seq<Proxy>, keep: Proxy -> bool)
    requires s != []
    ensures var front, last := s[..|s| - 1], s[|s| - 1];
            Filter(s, keep) == if keep(last) then Filter(front, keep) + [last] else Filter(front, keep)
  {
    FilterPrefix(s, |s| - 1, keep);
    assert s[..|s|] == s;
  }

  lemma {:induction false} FilteredAt(s: seq<Proxy>, keep: Proxy -> bool, n: nat, p: Proxy)
    ensures p in Limited(Filter(s, keep), n) <==> PassesAmong(s, keep, n, p)
    decreases |s|
  {
    if s != [] {
      var front, last := s[..|s| - 1], s[|s| - 1];
      var before := Filter(front, keep);
      FilteredAt(front, keep, n, p);
      PassesLast(s, |s| - 1, keep, n, p);
      FilterLast(s, keep);
      if keep(last) {
        LimitedAppend(before, last, n, p);
      }
    }
  }

  lemma {:induction false} GroupMember(s: State, ep: int, pool: int, cat: Catalog, now: int, p: Proxy)
    requires pool > 0
    ensures p in Group(s, ep, pool, cat, now) <==> MayServe(s, ep, pool, cat, now, p)
  {
    var xs := Filter(Offered(cat, pool), NotFailed(s, ep, now));
    SortPermutes(xs, ByLatency());
    assert p in multiset(xs) <==> p in multiset(Sort(xs, ByLatency()));
  }

  lemma {:induction false} OfferedIsCandidate(cat: Catalog, pool: int, p: Proxy)
    requires p in Offered(cat, pool)
    ensures p.available && p in Candidates(cat, pool, 500)
  {
    var few := Candidates(cat, pool, 200);
    var i :| 0 <= i < |few| && few[i] == p;
    assert Candidates(cat, pool, 500)[i] == p;
  }

  /** A way to serve the endpoint: a node for every hop, all different, on a route not marked failed. */
  predicate Serves(s: State, ep: int, hops: seq<int>, cat: Catalog, now: int, combo: seq<Proxy>) {
    && |combo| == |hops| && ValidCombo(s, ep, now, combo)
    && forall i | 0 <= i < |hops| :: MayServe(s, ep, hops[i], cat, now, combo[i])
  }

  lemma {:induction false} CombinesServes(s: State, ep: int, hops: seq<int>, cat: Catalog, now: int, combo: seq<Proxy>)
    ensures Serves(s, ep, hops, cat, now, combo) <==>
              var groups := Groups(s, ep, hops, cat, now);
              groups.Some? && Combines(groups.value, combo) && ValidCombo(s, ep, now, combo)
  {
    var groups := Groups(s, ep, hops, cat, now);
    if groups.Some? {
      forall i | 0 <= i < |hops| && |combo| == |hops|
        ensures combo[i] in groups.value[i] <==> MayServe(s, ep, hops[i], cat, now, combo[i])
      {
        GroupsAt(hops, GroupFor(s, ep, cat, now), i);
        GroupMember(s, ep, hops[i], cat, now, combo[i]);
      }
    } else {
      var i := GroupsFail(hops, GroupFor(s, ep, cat, now));
      if Serves(s, ep, hops, cat, now, combo) {
        GroupMember(s, ep, hops[i], cat, now, combo[i]);
      }
    }
  }

  lemma {:induction false} ServesMatchesPools(s: State, ep: int, hops: seq<int>, cat: Catalog, now: int, combo: seq<Proxy>)
    requires Serves(s, ep, hops, cat, now, combo)
    ensures MatchesPools(Keys(combo), hops, cat)
  {
    forall i | 0 <= i < |hops| ensures hops[i] > 0 && combo[i].available && combo[i] in Candidates(cat, hops[i], 500) {
      assert MayServe(s, ep, hops[i], cat, now, combo[i]);
      OfferedIsCandidate(cat, hops[i], combo[i]);
    }
  }

  lemma {:induction false} SearchServes(s: State, ep: int, hops: seq<int>, cat: Catalog, now: int)
    requires SearchHops(s, ep, hops, cat, now).Some?
    ensures Serves(s, ep, hops, cat, now, SearchHops(s, ep, hops, cat, now).value)
  {
    SearchFindsFirst(Groups(s, ep, hops, cat, now).value, Validity(s, ep, now));
    CombinesServes(s, ep, hops, cat, now, SearchHops(s, ep, hops, cat, now).value);
  }

  /** Whichever way they are chosen, fresh hops are keys of available candidates, one of each pool configured
      and all different, on a route that is not marked failed. */
  lemma {:induction false} SelectionSound(s: State, ep: int, hops: seq<int>, cat: Catalog, now: int)
    requires hops != [] && Select(s, ep, hops, cat, now).Some?
    ensures var keys := Select(s, ep, hops, cat, now).value.hops;
            && |keys| == |hops| && MatchesPools(keys, hops, cat)
            && !RouteFailed(s.failedRoutes, s.failedRouteRows, ep, keys, now)
  {
    if PickHealthy(s, ep, hops, cat, now).None? {
      SearchServes(s, ep, hops, cat, now);
      ServesMatchesPools(s, ep, hops, cat, now, SearchHops(s, ep, hops, cat, now).value);
    }
  }

  /** Are there no more combinations than the search looks at? */
  predicate WithinCap(s: State, ep: int, hops: seq<int>, cat: Catalog, now: int) {
    var groups := Groups(s, ep, hops, cat, now);
    groups.Some? ==> |Product(groups.value)| <= MaxChecks(groups.value)
  }

  /** No combination that the search looks at is valid. */
  predicate NothingWithinCap(s: State, ep: int, hops: seq<int>, cat: Catalog, now: int) {
    var groups := Groups(s, ep, hops, cat, now);
    groups.Some? ==>
      forall n | 0 <= n < |Product(groups.value)| && n < MaxChecks(groups.value) :: !ValidCombo(s, ep, now, Product(groups.value)[n])
  }

  /** The search fails exactly if it looks at no valid combination; and if it looks at all of them, exactly if
      there is no way at all to serve the endpoint. */
  lemma {:induction false} SearchHopsComplete(s: State, ep: int, hops: seq<int>, cat: Catalog, now: int)
    ensures SearchHops(s, ep, hops, cat, now).None? <==> NothingWithinCap(s, ep, hops, cat, now)
    ensures WithinCap(s, ep, hops, cat, now) ==>
              (SearchHops(s, ep, hops, cat, now).None? <==> forall combo :: !Serves(s, ep, hops, cat, now, combo))
  {
    var groups := Groups(s, ep, hops, cat, now);
    forall combo ensures Serves(s, ep, hops, cat, now, combo) <==>
                           groups.Some? && Combines(groups.value, combo) && ValidCombo(s, ep, now, combo)
    {
      CombinesServes(s, ep, hops, cat, now, combo);
    }
    if groups.Some? {
      SearchCompleteToCap(groups.value, Validity(s, ep, now));
      if WithinCap(s, ep, hops, cat, now) {
        SearchComplete(groups.value, Validity(s, ep, now));
      }
    }
  }

  lemma {:induction false} NothingSelected(s: State, ep: int, hops: seq<int>, cat: Catalog, now: int)
    requires hops != []
    ensures Select(s, ep, hops, cat, now).None? <==>
              PickHealthy(s, ep, hops, cat, now).None? && SearchHops(s, ep, hops, cat, now).None?
  {
    if SearchHops(s, ep, hops, cat, now).Some? {
      SearchServes(s, ep, hops, cat, now);
    }
  }

  /** A fresh selection fails exactly if no known-healthy route qualifies and the search looks at no valid
      combination; as long as the combinations fit the cap, that is if there is no way to serve the endpoint. */
  lemma {:induction false} SelectionComplete(s: State, ep: int, hops: seq<int>, cat: Catalog, now: int)
    requires hops != []
    ensures Select(s, ep, hops, cat, now).None? <==>
              && (forall h | h in s.healthy :: !IsHealthyChoice(s, ep, hops, cat, now, h))
              && NothingWithinCap(s, ep, hops, cat, now)
    ensures WithinCap(s, ep, hops, cat, now) ==>
              (Select(s, ep, hops, cat, now).None? <==>
               && (forall h | h in s.healthy :: !IsHealthyChoice(s, ep, hops, cat, now, h))
               && (forall combo :: !Serves(s, ep, hops, cat, now, combo)))
  {
    HealthyPickLastsLongest(s, ep, hops, cat, now);
    SearchHopsComplete(s, ep, hops, cat, now);
    NothingSelected(s, ep, hops, cat, now);
  }

  lemma {:induction false} LatencyOrder()
    ensures TotalPreorder(ByLatency())
  {
  }

  /** Each hop's candidates are the offered nodes that have not failed, by rising latency and those of unknown
      latency last, equals as listed. */
  lemma {:induction false} GroupSorted(s: State, ep: int, pool: int, cat: Catalog, now: int, same: Proxy -> bool)
    requires forall a, b | same(a) && same(b) :: a.latency == b.latency
    ensures var group := Group(s, ep, pool, cat, now);
            && (forall i, j | 0 <= i < j < |group| && group[j].latency.Some? ::
                  group[i].latency.Some? && group[i].latency.value <= group[j].latency.value)
            && multiset(group) == multiset(Filter(Offered(cat, pool), NotFailed(s, ep, now)))
            && Filter(group, same) == Filter(Filter(Offered(cat, pool), NotFailed(s, ep, now)), same)
  {
    LatencyOrder();
    var xs := Filter(Offered(cat, pool), NotFailed(s, ep, now));
    SortSorts(xs, ByLatency());
    SortPermutes(xs, ByLatency());
    SortStable(xs, ByLatency(), same);
  }

  /** Where the search's choice first differs from another way to serve the endpoint, its node is no slower:
      a node of known latency is chosen over one of unknown, and the lower latency over the higher. */
  lemma {:induction false} SearchPrefersFaster(s: State, ep: int, hops: seq<int>, cat: Catalog, now: int, other: seq<Proxy>,
                                               i: nat)
    requires SearchHops(s, ep, hops, cat, now).Some? && Serves(s, ep, hops, cat, now, other)
    requires var c := SearchHops(s, ep, hops, cat, now).value;
             i < |c| == |other| && c[..i] == other[..i] && c[i] != other[i]
    ensures var c := SearchHops(s, ep, hops, cat, now).value;
            other[i].latency.Some? ==> c[i].latency.Some? && c[i].latency.value <= other[i].latency.value
  {
    var groups := Groups(s, ep, hops, cat, now).value;
    CombinesServes(s, ep, hops, cat, now, other);
    SearchPrefersEarlier(groups, Validity(s, ep, now), other, i);
    GroupsAt(hops, GroupFor(s, ep, cat, now), i);
    GroupSorted(s, ep, hops[i], cat, now, (_: Proxy) => false);
    CombinesServes(s, ep, hops, cat, now, SearchHops(s, ep, hops, cat, now).value);
    assert other[i] in groups[i];
  }

  /** When no known-healthy route qualifies, an endpoint of one hop is served by a node of least latency among
      those that may serve it on a route not marked failed. */
  lemma {:induction false} OneHopFastest(s: State, ep: int, pool: int, cat: Catalog, now: int, other: Proxy)
    requires PickHealthy(s, ep, [pool], cat, now).None? && Select(s, ep, [pool], cat, now).Some?
    requires MayServe(s, ep, pool, cat, now, other)
    requires !RouteFailed(s.failedRoutes, s.failedRouteRows, ep, [other.key], now)
    ensures exists n :: MayServe(s, ep, pool, cat, now, n) && Select(s, ep, [pool], cat, now).value.hops == [n.key]
              && (other.latency.Some? ==> n.latency.Some? && n.latency.value <= other.latency.value)
  {
    SearchServes(s, ep, [pool], cat, now);
    var c := SearchHops(s, ep, [pool], cat, now).value;
    assert Keys(c) == [c[0].key] && Keys([other]) == [other.key];
    assert Serves(s, ep, [pool], cat, now, [other]);
    if c[0] != other {
      SearchPrefersFaster(s, ep, [pool], cat, now, [other], 0);
    }
    assert MayServe(s, ep, pool, cat, now, c[0]);
  }

  /** A draw of two never gives a candidate that every other one beats. */
  lemma {:induction false} SlowestNeverDrawn(cs: seq<Proxy>, k: nat)
    requires |cs| >= 2 && k < |cs|
    requires forall j | 0 <= j < |cs| && j != k ::
               cs[j].latency.Some? && (cs[k].latency.None? || cs[j].latency.value < cs[k].latency.value)
    ensures !Draw(cs, cs[k])
  {
    forall i | 0 <= i < |cs| && i != k ensures cs[i] != cs[k] {
    }
  }
}
