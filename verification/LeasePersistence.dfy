/** Sticky leases written through to the database, and read back on start-up. */
module LeasePersistence {
  import opened Common
  import opened StickyRouting

  /** Session, pool, endpoint: the primary key of `sticky_leases`.  Endpoint 0 holds the two-pool leases. */
  type RowKey = (string, int, nat)

  function RowOf(k: LeaseKey): RowKey {
    (k.0, k.1, 0)
  }

  datatype Chain = Chain(router: Router, rows: map<RowKey, Lease>)

  function LiveLease(c: Chain, k: LeaseKey, now: int): Option<Lease> {
    if k in c.router.leases && now < c.router.leases[k].expiresAt then Some(c.router.leases[k]) else None
  }

  function LiveRow(c: Chain, k: LeaseKey, now: int): Option<Lease> {
    if RowOf(k) in c.rows && now < c.rows[RowOf(k)].expiresAt then Some(c.rows[RowOf(k)]) else None
  }

  /** The unexpired leases in memory and the unexpired endpoint-0 rows are the same map. */
  ghost predicate Agree(c: Chain, now: int) {
    forall k: LeaseKey :: LiveLease(c, k, now) == LiveRow(c, k, now)
  }

  function BindRow(rows: map<RowKey, Lease>, k: LeaseKey, instanceId: string): map<RowKey, Lease> {
    if RowOf(k) in rows then rows[RowOf(k) := rows[RowOf(k)].(instanceId := instanceId)] else rows
  }

  /** One row read back: its lease, and one more lease on its IP if that is named. */
  function Loaded(r: Router, k: LeaseKey, lease: Lease): Router {
    Router(r.leases[k := lease],
           if lease.egressIp != "" then r.ipLoad[lease.egressIp := Load(r.ipLoad, lease.egressIp) + 1] else r.ipLoad)
  }

  function LoadedInTurn(rows: map<RowKey, Lease>, keys: seq<LeaseKey>): Router {
    if keys == [] then Router(map[], map[])
    else
      var r, k := LoadedInTurn(rows, keys[..|keys| - 1]), keys[|keys| - 1];
      if RowOf(k) in rows then Loaded(r, k, rows[RowOf(k)]) else r
  }

  /** `order` names the session and pool of each endpoint-0 row not in `todo` once, and nothing else. */
  ghost predicate ListsRows(order: seq<LeaseKey>, rows: map<RowKey, Lease>, todo: set<RowKey>) {
    Distinct(order) && forall k: LeaseKey :: k in order <==> RowOf(k) in rows && RowOf(k) !in todo
  }

  /** The endpoint-0 rows, expired or not, have been read back one by one, in some order. */
  ghost predicate LoadedFrom(rows: map<RowKey, Lease>, r: Router) {
    exists order :: ListsRows(order, rows, {}) && r == LoadedInTurn(rows, order)
  }

  datatype ChainOp =
    | RouteRequest(key: LeaseKey, fronts: seq<Node>, exits: seq<Node>, at: int, live: set<string>, result: Option<RouteResult>)
    | BindInstance(key: LeaseKey, instanceId: string, at: int)
    | DeleteLease(key: LeaseKey, at: int)
    | CleanupLeases(at: int, storeAt: int)
    | EndpointRow(row: RowKey, lease: Option<Lease>, at: int)
    | Restart(at: int)

  ghost predicate ChainStep(ttl: int, c: Chain, op: ChainOp, c': Chain) {
    match op
    case RouteRequest(k, fronts, exits, at, live, result) =>
      && RouteStep(ttl, c.router, k, fronts, exits, at, live, c'.router, result)
      && c'.rows ==
         if result.Some? && k.0 != "" && k in c'.router.leases then c.rows[RowOf(k) := c'.router.leases[k]] else c.rows
    case BindInstance(k, id, _) =>
      if k in c.router.leases then
        c'.router == Bound(c.router, k, id) && c'.rows == c.rows[RowOf(k) := c'.router.leases[k]]
      else c'.router == c.router && c'.rows == BindRow(c.rows, k, id)
    case DeleteLease(k, _) =>
      c'.router == Removed(c.router, k) && c'.rows == c.rows - {RowOf(k)}
    case CleanupLeases(at, storeAt) =>
      && at <= storeAt
      && CleanedUp(c.router, at, c'.router)
      && c'.rows == KeptRows(c.rows, storeAt)
    case EndpointRow(row, lease, _) =>
      && row.2 > 0 && c'.router == c.router
      && c'.rows == if lease.Some? then c.rows[row := lease.value] else c.rows - {row}
    case Restart(_) =>
      && LoadedFrom(c.rows, c'.router)
      && c'.rows == c.rows
  }

  /** The service: a router, and the lease table it writes through to. */
  class ChainLeases {
    const router: StickyRouter
    var rows: map<RowKey, Lease>

    constructor (ttl: int, rows: map<RowKey, Lease>)
      ensures this.rows == rows && router.ttl == ttl && fresh(router)
      ensures View() == Chain(Router(map[], map[]), rows)
    {
      router := new StickyRouter(ttl);
      this.rows := rows;
    }

    function View(): Chain
      reads this, router
    {
      Chain(router.View(), rows)
    }

    method Route(k: LeaseKey, fronts: seq<Node>, exits: seq<Node>, now: int, live: set<string>)
      returns (result: Option<RouteResult>)
      requires DistinctKeys(fronts) && DistinctKeys(exits)
      modifies this, router
      ensures ChainStep(router.ttl, old(View()), RouteRequest(k, fronts, exits, now, live, result), View())
    {
      result := router.Route(k, fronts, exits, now, live);
      if result.None? {
        return;
      }
      if k.0 != "" && k in router.leases {
        rows := rows[RowOf(k) := router.leases[k]];
      }
    }

    method BindInstanceToSession(k: LeaseKey, instanceId: string, now: int) returns (row: Option<Lease>)
      modifies this, router
      ensures ChainStep(router.ttl, old(View()), BindInstance(k, instanceId, now), View())
      ensures row == if RowOf(k) in rows then Some(rows[RowOf(k)]) else None
    {
      if k !in router.leases {
        if RowOf(k) !in rows {
          return None;
        }
        rows := rows[RowOf(k) := rows[RowOf(k)].(instanceId := instanceId)];
        return Some(rows[RowOf(k)]);
      }
      router.BindInstance(k, instanceId);
      rows := rows[RowOf(k) := router.leases[k]];
      return Some(rows[RowOf(k)]);
    }

    method Delete(k: LeaseKey, now: int) returns (deleted: bool)
      modifies this, router
      ensures ChainStep(router.ttl, old(View()), DeleteLease(k, now), View())
      ensures deleted == (k in old(router.leases) || RowOf(k) in old(rows))
    {
      var inMemory := router.DeleteLease(k);
      var stored := RowOf(k) in rows;
      rows := rows - {RowOf(k)};
      deleted := inMemory || stored;
    }

    method Cleanup(now: int, storeNow: int) returns (removed: nat)
      requires now <= storeNow
      modifies this, router
      ensures ChainStep(router.ttl, old(View()), CleanupLeases(now, storeNow), View())
      ensures removed == |old(router.leases)| - |router.leases|
    {
      removed := router.CleanupExpiredLeases(now);
      rows := KeptRows(rows, storeNow);
    }

    /** `_load_sticky_leases` for endpoint 0: rebuild the leases and the load index row by row. */
    method LoadStickyLeases(now: int)
      modifies router
      ensures ChainStep(router.ttl, old(View()), ChainOp.Restart(now), View())
    {
      router.leases, router.ipLoad := map[], map[];
      ghost var order: seq<LeaseKey> := [];
      var todo := rows.Keys;
      while todo != {}
        modifies router
        invariant todo <= rows.Keys && rows == old(rows)
        invariant ListsRows(order, rows, todo)
        invariant router.View() == LoadedInTurn(rows, order)
        decreases todo
      {
        var row :| row in todo;
        ghost var before := todo;
        todo := todo - {row};
        if row.2 == 0 {
          var k, lease := (row.0, row.1), rows[row];
          assert row == RowOf(k);
          router.leases := router.leases[k := lease];
          if lease.egressIp != "" {
            router.ipLoad := router.ipLoad[lease.egressIp := Load(router.ipLoad, lease.egressIp) + 1];
          }
          LoadedInTurnLast(rows, order, k);
          OneMoreLoaded(rows, order, before, k);
          order := order + [k];
        }
      }
      assert ListsRows(order, rows, {});
    }
  }

  lemma {:induction false} LoadedInTurnLast(rows: map<RowKey, Lease>, keys: seq<LeaseKey>, k: LeaseKey)
    requires RowOf(k) in rows
    ensures LoadedInTurn(rows, keys + [k]) == Loaded(LoadedInTurn(rows, keys), k, rows[RowOf(k)])
  {
    assert (keys + [k])[..|keys|] == keys && (keys + [k])[|keys|] == k;
  }

  lemma {:induction false} OneMoreLoaded(rows: map<RowKey, Lease>, order: seq<LeaseKey>, todo: set<RowKey>, k: LeaseKey)
    requires ListsRows(order, rows, todo) && RowOf(k) in todo && RowOf(k) in rows
    ensures ListsRows(order + [k], rows, todo - {RowOf(k)})
  {
    assert k !in order;
    forall x: LeaseKey ensures x in order + [k] <==> RowOf(x) in rows && RowOf(x) !in todo - {RowOf(k)} {
      assert x in order + [k] <==> x in order || x == k;
    }
  }

  lemma {:induction false} LoadedInTurnLeases(rows: map<RowKey, Lease>, keys: seq<LeaseKey>)
    requires forall k | k in keys :: RowOf(k) in rows
    ensures forall k :: k in LoadedInTurn(rows, keys).leases <==> k in keys
    ensures forall k | k in LoadedInTurn(rows, keys).leases :: LoadedInTurn(rows, keys).leases[k] == rows[RowOf(k)]
    decreases |keys|
  {
    if keys != [] {
      var front, k := keys[..|keys| - 1], keys[|keys| - 1];
      assert keys == front + [k];
      LoadedInTurnLeases(rows, front);
    }
  }

  /** Reading back a row that has not been read yet keeps the index right; a lease without an IP does not enter it. */
  lemma {:induction false} LoadedKeepsLoad(r: Router, k: LeaseKey, lease: Lease)
    requires LoadMatches(r) && k !in r.leases
    ensures LoadMatches(Loaded(r, k, lease))
  {
    AddedKeepsLoad(r, k, lease);
    if lease.egressIp == "" {
      UnnamedLoadIsFree(r, k, lease);
    }
  }

  lemma {:induction false} LoadedInTurnMatches(rows: map<RowKey, Lease>, keys: seq<LeaseKey>)
    requires Distinct(keys) && forall k | k in keys :: RowOf(k) in rows
    ensures LoadMatches(LoadedInTurn(rows, keys))
    decreases |keys|
  {
    if keys == [] {
      forall ip ensures KeysOn(LoadedInTurn(rows, keys).leases, ip) == {} {
      }
    } else {
      var front, k := keys[..|keys| - 1], keys[|keys| - 1];
      LoadedInTurnMatches(rows, front);
      LoadedInTurnLeases(rows, front);
      LoadedKeepsLoad(LoadedInTurn(rows, front), k, rows[RowOf(k)]);
    }
  }

  /** Whatever the order, there is a lease for each endpoint-0 row, and the index matches. */
  lemma {:induction false} LoadedFromRows(rows: map<RowKey, Lease>, r: Router)
    requires LoadedFrom(rows, r)
    ensures forall k: LeaseKey :: k in r.leases <==> RowOf(k) in rows
    ensures forall k | k in r.leases :: r.leases[k] == rows[RowOf(k)]
    ensures LoadMatches(r)
  {
    var order :| ListsRows(order, rows, {}) && r == LoadedInTurn(rows, order);
    LoadedInTurnLeases(rows, order);
    LoadedInTurnMatches(rows, order);
  }

  /** A lease without an IP does not enter the index. */
  lemma {:induction false} UnnamedLoadIsFree(r: Router, k: LeaseKey, lease: Lease)
    requires LoadMatches(Router(r.leases[k := lease], r.ipLoad[lease.egressIp := Load(r.ipLoad, lease.egressIp) + 1]))
    ensures lease.egressIp == "" ==> LoadMatches(Router(r.leases[k := lease], r.ipLoad))
  {
    if lease.egressIp == "" {
      var r1 := Router(r.leases[k := lease], r.ipLoad[lease.egressIp := Load(r.ipLoad, lease.egressIp) + 1]);
      forall ip | ip != ""
        ensures (ip in r.ipLoad <==> KeysOn(r1.leases, ip) != {}) && Load(r.ipLoad, ip) == |KeysOn(r1.leases, ip)|
      {
        assert ip in r.ipLoad <==> ip in r1.ipLoad;
        assert Load(r.ipLoad, ip) == Load(r1.ipLoad, ip);
      }
    }
  }

  // ---------------------------------------------------------------------------------------------
  // Whole runs

  /** When an operation begins and when it has ended. */
  function EndOf(op: ChainOp): int {
    if op.CleanupLeases? then op.storeAt else op.at
  }

  ghost predicate StepAt(ttl: int, states: seq<Chain>, ops: seq<ChainOp>, start: int, i: nat)
    requires i < |ops| && |states| == |ops| + 1
  {
    ChainStep(ttl, states[i], ops[i], states[i + 1]) && TimeBefore(ops, start, i) <= ops[i].at
  }

  /** A start-up at `start` followed by operations under a clock that does not go back. */
  ghost predicate ChainTrace(ttl: int, states: seq<Chain>, ops: seq<ChainOp>, start: int) {
    && |states| == |ops| + 1
    && LoadedFrom(states[0].rows, states[0].router)
    && (forall i | 0 <= i < |ops| :: StepAt(ttl, states, ops, start, i))
  }

  function TimeBefore(ops: seq<ChainOp>, start: int, i: nat): int
    requires i <= |ops|
  {
    if i == 0 then start else EndOf(ops[i - 1])
  }

  lemma {:induction false} AgreeLater(c: Chain, now: int, later: int)
    requires Agree(c, now) && now <= later
    ensures Agree(c, later)
  {
    forall k: LeaseKey ensures LiveLease(c, k, later) == LiveRow(c, k, later) {
      assert LiveLease(c, k, now) == LiveRow(c, k, now);
    }
  }

  lemma {:induction false} LoadedAgrees(c: Chain)
    requires LoadedFrom(c.rows, c.router)
    ensures forall now :: Agree(c, now)
  {
    LoadedFromRows(c.rows, c.router);
    forall now, k: LeaseKey ensures LiveLease(c, k, now) == LiveRow(c, k, now) {
      assert k in c.router.leases <==> RowOf(k) in c.rows;
    }
  }

  lemma {:induction false} CleanupKeepsAgreement(ttl: int, c: Chain, op: ChainOp, c': Chain)
    requires op.CleanupLeases? && Agree(c, op.at) && ChainStep(ttl, c, op, c')
    ensures Agree(c', op.storeAt)
  {
    CleanedUpLeases(c.router, op.at, c'.router);
    forall k: LeaseKey ensures LiveLease(c', k, op.storeAt) == LiveRow(c', k, op.storeAt) {
      assert LiveLease(c, k, op.at) == LiveRow(c, k, op.at);
    }
  }

  lemma {:induction false} EndpointKeepsAgreement(ttl: int, c: Chain, op: ChainOp, c': Chain)
    requires op.EndpointRow? && Agree(c, op.at) && ChainStep(ttl, c, op, c')
    ensures Agree(c', op.at)
  {
    forall k: LeaseKey ensures LiveLease(c', k, op.at) == LiveRow(c', k, op.at) {
      assert LiveLease(c, k, op.at) == LiveRow(c, k, op.at) && RowOf(k) != op.row;
    }
  }

  lemma {:induction false} RequestKeepsAgreement(ttl: int, c: Chain, op: ChainOp, c': Chain)
    requires op.RouteRequest? && Agree(c, op.at) && ChainStep(ttl, c, op, c')
    ensures Agree(c', op.at)
  {
    forall k: LeaseKey ensures LiveLease(c', k, op.at) == LiveRow(c', k, op.at) {
      assert LiveLease(c, k, op.at) == LiveRow(c, k, op.at);
      assert k != op.key ==> RowOf(k) != RowOf(op.key);
    }
  }

  lemma {:induction false} EditKeepsAgreement(ttl: int, c: Chain, op: ChainOp, c': Chain)
    requires (op.BindInstance? || op.DeleteLease?) && Agree(c, op.at) && ChainStep(ttl, c, op, c')
    ensures Agree(c', op.at)
  {
    forall k: LeaseKey ensures LiveLease(c', k, op.at) == LiveRow(c', k, op.at) {
      assert LiveLease(c, k, op.at) == LiveRow(c, k, op.at);
      assert k != op.key ==> RowOf(k) != RowOf(op.key);
    }
  }

  lemma {:induction false} StepKeepsAgreement(ttl: int, c: Chain, op: ChainOp, c': Chain)
    requires Agree(c, op.at) && ChainStep(ttl, c, op, c')
    ensures Agree(c', EndOf(op))
  {
    if op.Restart? {
      LoadedAgrees(c');
    } else if op.CleanupLeases? {
      CleanupKeepsAgreement(ttl, c, op, c');
    } else if op.EndpointRow? {
      EndpointKeepsAgreement(ttl, c, op, c');
    } else if op.RouteRequest? {
      RequestKeepsAgreement(ttl, c, op, c');
    } else {
      EditKeepsAgreement(ttl, c, op, c');
    }
  }

  lemma {:induction false} StepKeepsLoad(ttl: int, c: Chain, op: ChainOp, c': Chain)
    requires LoadMatches(c.router) && ChainStep(ttl, c, op, c')
    ensures LoadMatches(c'.router)
  {
    match op
    case RouteRequest(k, fronts, exits, at, live, result) =>
      RouteKeepsLoad(ttl, c.router, k, fronts, exits, at, live, c'.router, result);
    case BindInstance(k, id, _) =>
      if k in c.router.leases {
        RewrittenKeepsLoad(c.router, k, c.router.leases[k].(instanceId := id));
      }
    case DeleteLease(k, _) => RemovedKeepsLoad(c.router, k);
    case CleanupLeases(at, _) => CleanedUpKeepsLoad(c.router, at, c'.router);
    case EndpointRow(_, _, _) =>
    case Restart(_) => LoadedFromRows(c.rows, c'.router);
  }

  lemma {:induction false} LoadAlwaysMatches(ttl: int, states: seq<Chain>, ops: seq<ChainOp>, start: int, i: nat)
    requires ChainTrace(ttl, states, ops, start) && i <= |ops|
    ensures LoadMatches(states[i].router)
  {
    if i == 0 {
      LoadedFromRows(states[0].rows, states[0].router);
    } else {
      LoadAlwaysMatches(ttl, states, ops, start, i - 1);
      assert StepAt(ttl, states, ops, start, i - 1);
      StepKeepsLoad(ttl, states[i - 1], ops[i - 1], states[i]);
    }
  }

  lemma {:induction false} AlwaysAgree(ttl: int, states: seq<Chain>, ops: seq<ChainOp>, start: int, i: nat)
    requires ChainTrace(ttl, states, ops, start) && i <= |ops|
    ensures Agree(states[i], TimeBefore(ops, start, i))
  {
    if i == 0 {
      LoadedAgrees(states[0]);
    } else {
      AlwaysAgree(ttl, states, ops, start, i - 1);
      assert StepAt(ttl, states, ops, start, i - 1);
      AgreeLater(states[i - 1], TimeBefore(ops, start, i - 1), ops[i - 1].at);
      StepKeepsAgreement(ttl, states[i - 1], ops[i - 1], states[i]);
    }
  }

  /** At every point of every run the live leases in memory are the live rows, and the load index counts
      the leases on each IP. */
  lemma {:induction false} MemoryAndTableAgree(ttl: int, states: seq<Chain>, ops: seq<ChainOp>, start: int, i: nat)
    requires ChainTrace(ttl, states, ops, start) && i <= |ops|
    ensures Agree(states[i], TimeBefore(ops, start, i))
    ensures LoadMatches(states[i].router)
  {
    AlwaysAgree(ttl, states, ops, start, i);
    LoadAlwaysMatches(ttl, states, ops, start, i);
  }

  /** So a restart at any point of any run gives back exactly the leases that were live. */
  lemma {:induction false} RestartLosesNothing(ttl: int, states: seq<Chain>, ops: seq<ChainOp>, start: int, i: nat, k: LeaseKey)
    requires ChainTrace(ttl, states, ops, start) && i < |ops| && ops[i].Restart?
    ensures LiveLease(states[i + 1], k, ops[i].at) == LiveLease(states[i], k, ops[i].at)
  {
    AlwaysAgree(ttl, states, ops, start, i);
    assert StepAt(ttl, states, ops, start, i);
    AgreeLater(states[i], TimeBefore(ops, start, i), ops[i].at);
    assert LiveLease(states[i], k, ops[i].at) == LiveRow(states[i], k, ops[i].at);
    LoadedAgrees(states[i + 1]);
    assert Agree(states[i + 1], ops[i].at);
    assert LiveLease(states[i + 1], k, ops[i].at) == LiveRow(states[i + 1], k, ops[i].at);
  }

  /** A clean-up leaves neither a lease nor a row, of any endpoint, whose time was up when it was looked at,
      and takes nothing else. */
  lemma {:induction false} CleanupLeavesTheLiving(ttl: int, c: Chain, op: ChainOp, c': Chain)
    requires op.CleanupLeases? && ChainStep(ttl, c, op, c')
    ensures forall k :: k in c'.router.leases <==> k in c.router.leases && c.router.leases[k].expiresAt > op.at
    ensures forall row :: row in c'.rows <==> row in c.rows && !(c.rows[row].expiresAt < op.storeAt)
    ensures forall k | k in c'.router.leases :: c'.router.leases[k] == c.router.leases[k]
    ensures forall row | row in c'.rows :: c'.rows[row] == c.rows[row]
  {
    CleanedUpLeases(c.router, op.at, c'.router);
  }

  // ---------------------------------------------------------------------------------------------
  // Stickiness across restarts

  /** Nothing deletes the session's lease, and whenever it asks, its IP and two fronts are healthy. */
  predicate StaysServed(ops: seq<ChainOp>, k: LeaseKey, ip: string, from: nat, to: nat) {
    forall n | from <= n < to && n < |ops| ::
      match ops[n]
      case RouteRequest(key, fronts, exits, _, _, _) =>
        key == k ==> DistinctKeys(fronts) && DistinctKeys(exits) && |fronts| >= 2 && exists e :: e in exits && e.egressIp == ip
      case DeleteLease(key, _) => key != k
      case _ => true
  }

  lemma {:induction false} Timed(ttl: int, states: seq<Chain>, ops: seq<ChainOp>, start: int, i: nat)
    requires ChainTrace(ttl, states, ops, start) && i < |ops|
    ensures TimeBefore(ops, start, i) <= ops[i].at <= EndOf(ops[i])
  {
    assert StepAt(ttl, states, ops, start, i);
  }

  lemma {:induction false} TimesRise(ttl: int, states: seq<Chain>, ops: seq<ChainOp>, start: int, i: nat, j: nat)
    requires ChainTrace(ttl, states, ops, start) && i < j < |ops|
    ensures ops[i].at <= EndOf(ops[i]) <= ops[j].at
    decreases j
  {
    Timed(ttl, states, ops, start, j);
    Timed(ttl, states, ops, start, j - 1);
    if i < j - 1 {
      TimesRise(ttl, states, ops, start, i, j - 1);
    }
  }

  ghost predicate Holds(c: Chain, k: LeaseKey, exitKey: string, ip: string, until: int) {
    k in c.router.leases && LeadsTo(c.router.leases[k], exitKey, ip, until)
  }

  lemma {:induction false} StepHolds(ttl: int, c: Chain, op: ChainOp, c': Chain, k: LeaseKey, exitKey: string, ip: string,
                                     until: int)
    requires ChainStep(ttl, c, op, c') && !op.Restart? && k.0 != "" && Holds(c, k, exitKey, ip, until)
    requires StaysServed([op], k, ip, 0, 1) && op.at < until
    ensures Holds(c', k, exitKey, ip, until)
  {
    assert [op][0] == op;
    if op.RouteRequest? && op.key == k {
      StickyAffinity(ttl, c.router, k, op.fronts, op.exits, op.at, op.live, c'.router, op.result);
    } else if op.CleanupLeases? {
      CleanedUpLeases(c.router, op.at, c'.router);
    }
  }

  lemma {:induction false} StillHolds(ttl: int, states: seq<Chain>, ops: seq<ChainOp>, start: int, k: LeaseKey,
                                      exitKey: string, ip: string, until: int, i: nat, j: nat)
    requires ChainTrace(ttl, states, ops, start) && k.0 != "" && i <= j < |ops| && ops[j].at < until
    requires Holds(states[i], k, exitKey, ip, until) && StaysServed(ops, k, ip, i, j)
    ensures Holds(states[j], k, exitKey, ip, until)
    decreases j
  {
    if i < j {
      var n := j - 1;
      assert StepAt(ttl, states, ops, start, n);
      TimesRise(ttl, states, ops, start, n, j);
      StillHolds(ttl, states, ops, start, k, exitKey, ip, until, i, n);
      if ops[n].Restart? {
        RestartLosesNothing(ttl, states, ops, start, n, k);
      } else {
        assert StaysServed([ops[n]], k, ip, 0, 1);
        StepHolds(ttl, states[n], ops[n], states[j], k, exitKey, ip, until);
      }
    }
  }

  /** A session that has been given a lease keeps its egress IP, and its exit whenever that is healthy on
      the IP, until the lease's time is up: through any number of restarts, clean-ups, bindings and other
      sessions' requests. */
  lemma {:induction false} StickyAcrossRestarts(ttl: int, states: seq<Chain>, ops: seq<ChainOp>, start: int, k: LeaseKey,
                                                i: nat, j: nat)
    requires ChainTrace(ttl, states, ops, start) && k.0 != "" && i < j < |ops|
    requires ops[i].RouteRequest? && ops[i].key == k && ops[i].result.Some? && ops[i].result.value.leaseCreated
    requires StaysServed(ops, k, ops[i].result.value.exit.egressIp, i + 1, j + 1)
    requires ops[j].RouteRequest? && ops[j].key == k && ops[j].at < ops[i].at + ttl
    ensures var (given, answer) := (ops[i].result.value, ops[j].result);
            && answer.Some? && !answer.value.leaseCreated && answer.value.exit.egressIp == given.exit.egressIp
            && forall n | n in ops[j].exits && n.key == given.exit.key && n.egressIp == given.exit.egressIp ::
                 answer.value.exit == n
  {
    var exit, until := ops[i].result.value.exit, ops[i].at + ttl;
    assert StepAt(ttl, states, ops, start, i);
    assert Holds(states[i + 1], k, exit.key, exit.egressIp, until);
    StillHolds(ttl, states, ops, start, k, exit.key, exit.egressIp, until, i + 1, j);
    assert StepAt(ttl, states, ops, start, j);
    var op := ops[j];
    StickyAffinity(ttl, states[j].router, k, op.fronts, op.exits, op.at, op.live, states[j + 1].router, op.result);
  }
}
