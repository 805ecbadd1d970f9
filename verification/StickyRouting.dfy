/** Sticky sessions over two pools: leases, the per-IP load index, and power-of-two-choices selection. */
module StickyRouting {
  import opened Common

  datatype Node = Node(key: string, egressIp: string, latency: Option<int>)

  /** A lease; its session and pool are the key it is stored under. */
  datatype Lease = Lease(instanceId: string, exitKey: string, egressIp: string, expiresAt: int, lastAccessed: int)

  type LeaseKey = (string, int)

  datatype RouteResult = RouteResult(front: Node, exit: Node, leaseCreated: bool, boundInstance: string, reused: bool)

  datatype Router = Router(leases: map<LeaseKey, Lease>, ipLoad: map<string, int>)

  function Load(ipLoad: map<string, int>, ip: string): int {
    if ip in ipLoad then ipLoad[ip] else 0
  }

  function Removed(r: Router, k: LeaseKey): Router {
    if k !in r.leases then r
    else
      var ip, leases := r.leases[k].egressIp, r.leases - {k};
      if ip == "" then r.(leases := leases)
      else if Load(r.ipLoad, ip) > 1 then Router(leases, r.ipLoad[ip := Load(r.ipLoad, ip) - 1])
      else Router(leases, r.ipLoad - {ip})
  }

  function Created(r: Router, k: LeaseKey, exit: Node, now: int, ttl: int): Router {
    var r1 := Removed(r, k);
    Router(r1.leases[k := Lease("", exit.key, exit.egressIp, now + ttl, now)],
           r1.ipLoad[exit.egressIp := Load(r1.ipLoad, exit.egressIp) + 1])
  }

  function Touched(r: Router, k: LeaseKey, now: int): Router
    requires k in r.leases
  {
    var lease := r.leases[k];
    Router(r.leases[k := lease.(lastAccessed := now)], r.ipLoad[lease.egressIp := Load(r.ipLoad, lease.egressIp)])
  }

  function Bound(r: Router, k: LeaseKey, instanceId: string): Router {
    if k in r.leases then r.(leases := r.leases[k := r.leases[k].(instanceId := instanceId)]) else r
  }

  /** The lookup drops a lease that has expired. */
  function LookedUp(r: Router, k: LeaseKey, now: int): Router {
    if k in r.leases && now >= r.leases[k].expiresAt then Removed(r, k) else r
  }

  function Score(ipLoad: map<string, int>, n: Node): int {
    var count := Load(ipLoad, n.egressIp);
    if n.latency.None? || n.latency.value <= 0 then count else (count + 1) * n.latency.value
  }

  /** `n` can come out of a two-choices draw: it beats or ties some other node. */
  ghost predicate Drawn(nodes: seq<Node>, ipLoad: map<string, int>, n: Node) {
    || nodes == [n]
    || exists i, j | 0 <= i < |nodes| && 0 <= j < |nodes| && i != j ::
         n == nodes[i] && Score(ipLoad, nodes[i]) <= Score(ipLoad, nodes[j])
  }

  function Others(nodes: seq<Node>, n: Node): seq<Node> {
    Filter(nodes, (x: Node) => x.key != n.key)
  }

  /** The pairs a draw can produce: front drawn among the nodes with another key, and a second exit
      drawn when the first leaves no front. */
  ghost predicate PairDrawn(fronts: seq<Node>, exits: seq<Node>, ipLoad: map<string, int>, front: Node, exit: Node) {
    && Drawn(Others(fronts, exit), ipLoad, front)
    && (|| Drawn(exits, ipLoad, exit)
        || exists first :: Drawn(exits, ipLoad, first) && Others(fronts, first) == [] && Drawn(Others(exits, first), ipLoad, exit))
  }

  /** The draws can fail: an exit that leaves no front, and then no second exit, or one that leaves none either. */
  ghost predicate NoPairDrawn(fronts: seq<Node>, exits: seq<Node>, ipLoad: map<string, int>) {
    || exits == []
    || exists first ::
         && Drawn(exits, ipLoad, first) && Others(fronts, first) == []
         && (|| Others(exits, first) == []
             || exists second :: Drawn(Others(exits, first), ipLoad, second) && Others(fronts, second) == [])
  }

  ghost predicate PairExists(fronts: seq<Node>, exits: seq<Node>) {
    exists f, e :: f in fronts && e in exits && f.key != e.key
  }

  /** Pools are keyed by node key. */
  predicate DistinctKeys(nodes: seq<Node>) {
    forall i, j | 0 <= i < j < |nodes| :: nodes[i].key != nodes[j].key
  }

  function FindKey(nodes: seq<Node>, key: string): (r: Option<Node>)
    ensures r.Some? ==> r.value in nodes && r.value.key == key
    ensures r.None? ==> forall n | n in nodes :: n.key != key
  {
    if nodes == [] then None
    else if nodes[0].key == key then Some(nodes[0])
    else FindKey(nodes[1..], key)
  }

  /** Latency order for same-IP replacement: none and zero both count as infinite. */
  predicate Faster(a: Node, b: Node) {
    var x, y := a.latency.GetOr(0), b.latency.GetOr(0);
    x != 0 && (y == 0 || x < y)
  }

  /** The first of the fastest nodes. */
  function Fastest(nodes: seq<Node>): (r: Option<Node>)
    ensures r.None? <==> nodes == []
    ensures r.Some? ==> r.value in nodes && forall n | n in nodes :: !Faster(n, r.value)
  {
    if nodes == [] then None
    else
      var rest := Fastest(nodes[1..]);
      assert forall n | n in nodes :: n == nodes[0] || n in nodes[1..];
      if rest.Some? && Faster(rest.value, nodes[0]) then rest else Some(nodes[0])
  }

  function SameIp(nodes: seq<Node>, ip: string): seq<Node> {
    Filter(nodes, (x: Node) => x.egressIp == ip)
  }

  /** The exit a lease is served with: its own if still on the lease's IP, else the fastest on that IP. */
  function ReuseExit(lease: Lease, exits: seq<Node>): (r: Option<Node>)
    ensures r.Some? ==> r.value in exits && r.value.egressIp == lease.egressIp
    ensures r.None? ==> forall n | n in exits :: n.egressIp != lease.egressIp
  {
    var own := FindKey(exits, lease.exitKey);
    if own.Some? && own.value.egressIp == lease.egressIp then own
    else Fastest(SameIp(exits, lease.egressIp))
  }

  /** One `route` call. */
  ghost predicate RouteStep(ttl: int, r: Router, k: LeaseKey, fronts: seq<Node>, exits: seq<Node>, now: int,
                            live: set<string>, r': Router, result: Option<RouteResult>)
  {
    if fronts == [] || exits == [] then r' == r && result == None
    else
      var sticky := k.0 != "";
      var r1 := if sticky then LookedUp(r, k, now) else r;
      var reuse := if sticky && k in r1.leases then ReuseExit(r1.leases[k], exits) else None;
      if reuse.Some? && Others(fronts, reuse.value) != [] then
        var id := r1.leases[k].instanceId;
        && r' == Touched(r1, k, now)
        && result.Some? && Drawn(Others(fronts, reuse.value), r1.ipLoad, result.value.front)
        && result.value == RouteResult(result.value.front, reuse.value, false, id, id != "" && id in live)
      else if result.None? then r' == r1 && NoPairDrawn(fronts, exits, r1.ipLoad)
      else
        && PairDrawn(fronts, exits, r1.ipLoad, result.value.front, result.value.exit)
        && result.value == RouteResult(result.value.front, result.value.exit, sticky, "", false)
        && r' == if sticky then Created(r1, k, result.value.exit, now, ttl) else r1
  }

  class StickyRouter {
    const ttl: int
    var leases: map<LeaseKey, Lease>
    var ipLoad: map<string, int>

    constructor (ttl: int)
      ensures this.ttl == ttl && View() == Router(map[], map[])
    {
      this.ttl := ttl;
      leases, ipLoad := map[], map[];
    }

    function View(): Router
      reads this
    {
      Router(leases, ipLoad)
    }

    method P2cSelect(nodes: seq<Node>) returns (n: Option<Node>)
      ensures n.None? <==> nodes == []
      ensures n.Some? ==> n.value in nodes && Drawn(nodes, ipLoad, n.value)
    {
      if |nodes| == 0 {
        return None;
      }
      if |nodes| == 1 {
        return Some(nodes[0]);
      }
      var i: nat, j: nat := *, *;
      if i >= |nodes| || j >= |nodes| || i == j {
        i, j := 0, 1;
      }
      var a, b := nodes[i], nodes[j];
      return Some(if Score(ipLoad, a) <= Score(ipLoad, b) then a else b);
    }

    method SelectFrontForExit(fronts: seq<Node>, exit: Node) returns (front: Option<Node>)
      ensures front.None? <==> Others(fronts, exit) == []
      ensures front.Some? ==> Drawn(Others(fronts, exit), ipLoad, front.value)
    {
      front := P2cSelect(Others(fronts, exit));
    }

    method SelectDistinctPair(fronts: seq<Node>, exits: seq<Node>) returns (front: Option<Node>, exit: Option<Node>)
      requires DistinctKeys(fronts) && DistinctKeys(exits)
      ensures front.Some? && exit.Some? ==> PairDrawn(fronts, exits, ipLoad, front.value, exit.value)
      ensures front.None? || exit.None? ==> NoPairDrawn(fronts, exits, ipLoad)
    {
      exit := P2cSelect(exits);
      if exit.None? {
        return None, None;
      }
      front := SelectFrontForExit(fronts, exit.value);
      if front.Some? {
        return;
      }
      var fallback := P2cSelect(Others(exits, exit.value));
      if fallback.None? {
        return None, None;
      }
      front := SelectFrontForExit(fronts, fallback.value);
      exit := fallback;
    }

    method RemoveLease(k: LeaseKey)
      modifies this
      ensures View() == Removed(old(View()), k)
    {
      if k in leases {
        var lease := leases[k];
        leases := leases - {k};
        if lease.egressIp != "" {
          var count := Load(ipLoad, lease.egressIp);
          if count > 1 {
            ipLoad := ipLoad[lease.egressIp := count - 1];
          } else {
            ipLoad := ipLoad - {lease.egressIp};
          }
        }
      }
    }

    method CreateLease(k: LeaseKey, exit: Node, now: int)
      modifies this
      ensures View() == Created(old(View()), k, exit, now, ttl)
    {
      RemoveLease(k);
      leases := leases[k := Lease("", exit.key, exit.egressIp, now + ttl, now)];
      ipLoad := ipLoad[exit.egressIp := Load(ipLoad, exit.egressIp) + 1];
    }

    method GetLease(k: LeaseKey, now: int) returns (lease: Option<Lease>)
      modifies this
      ensures View() == LookedUp(old(View()), k, now)
      ensures lease == if k in leases then Some(leases[k]) else None
    {
      if k !in leases {
        return None;
      }
      if now >= leases[k].expiresAt {
        RemoveLease(k);
        return None;
      }
      return Some(leases[k]);
    }

    method TryReuseLease(k: LeaseKey, fronts: seq<Node>, exits: seq<Node>, now: int, live: set<string>)
      returns (result: Option<RouteResult>)
      requires k in leases
      modifies this
      ensures var reuse := ReuseExit(old(leases[k]), exits);
              if reuse.None? || Others(fronts, reuse.value) == [] then result == None && View() == old(View())
              else
                var id := old(leases[k]).instanceId;
                && View() == Touched(old(View()), k, now)
                && result.Some? && Drawn(Others(fronts, reuse.value), old(ipLoad), result.value.front)
                && result.value == RouteResult(result.value.front, reuse.value, false, id, id != "" && id in live)
    {
      var lease := leases[k];
      var exit := FindKey(exits, lease.exitKey);
      if exit.Some? && exit.value.egressIp == lease.egressIp {
      } else {
        exit := Fastest(SameIp(exits, lease.egressIp));
      }
      if exit.None? {
        return None;
      }
      var front := SelectFrontForExit(fronts, exit.value);
      if front.None? {
        return None;
      }
      leases := leases[k := lease.(lastAccessed := now)];
      ipLoad := ipLoad[lease.egressIp := Load(ipLoad, lease.egressIp)];
      if lease.instanceId != "" && lease.instanceId in live {
        return Some(RouteResult(front.value, exit.value, false, lease.instanceId, true));
      }
      return Some(RouteResult(front.value, exit.value, false, lease.instanceId, false));
    }

    method Route(k: LeaseKey, fronts: seq<Node>, exits: seq<Node>, now: int, live: set<string>)
      returns (result: Option<RouteResult>)
      requires DistinctKeys(fronts) && DistinctKeys(exits)
      modifies this
      ensures RouteStep(ttl, old(View()), k, fronts, exits, now, live, View(), result)
    {
      if fronts == [] || exits == [] {
        return None;
      }
      if k.0 != "" {
        var lease := GetLease(k, now);
        if lease.Some? {
          result := TryReuseLease(k, fronts, exits, now, live);
          if result.Some? {
            return;
          }
        }
      }
      var front, exit := SelectDistinctPair(fronts, exits);
      if front.None? || exit.None? {
        return None;
      }
      var leaseCreated := false;
      if k.0 != "" {
        CreateLease(k, exit.value, now);
        leaseCreated := true;
      }
      return Some(RouteResult(front.value, exit.value, leaseCreated, "", false));
    }

    method BindInstance(k: LeaseKey, instanceId: string)
      modifies this
      ensures View() == Bound(old(View()), k, instanceId)
    {
      if k in leases {
        leases := leases[k := leases[k].(instanceId := instanceId)];
      }
    }

    method DeleteLease(k: LeaseKey) returns (deleted: bool)
      modifies this
      ensures View() == Removed(old(View()), k) && deleted == (k in old(leases))
    {
      deleted := k in leases;
      RemoveLease(k);
    }

    method CleanupExpiredLeases(now: int) returns (removed: nat)
      modifies this
      ensures CleanedUp(old(View()), now, View())
      ensures leases == Unexpired(old(leases), Expiry(), now)
      ensures removed == |old(leases)| - |leases|
    {
      ghost var before, order := View(), [];
      var expired := set k | k in leases && now >= leases[k].expiresAt;
      removed := 0;
      while expired != {}
        invariant View() == RemovedInTurn(before, order)
        invariant Lists(order, ExpiredKeys(before.leases, now) - expired) && expired <= ExpiredKeys(before.leases, now)
        invariant removed == |order|
        decreases expired
      {
        var k :| k in expired;
        RemovedInTurnLast(before, order, k);
        ListsOneMore(order, ExpiredKeys(before.leases, now) - expired, k);
        RemoveLease(k);
        order := order + [k];
        expired := expired - {k};
        assert Elems(order) == ExpiredKeys(before.leases, now) - expired;
        removed := removed + 1;
      }
      CleanedUpLeases(before, now, View());
      RemovedInTurnCount(before, order);
    }
  }

  function Expiry(): Lease -> int {
    (lease: Lease) => lease.expiresAt
  }

  /** What the table keeps when it is cleaned up. */
  function KeptRows<K>(rows: map<K, Lease>, now: int): map<K, Lease> {
    map k | k in rows && rows[k].expiresAt >= now :: rows[k]
  }

  function ExpiredKeys(leases: map<LeaseKey, Lease>, now: int): set<LeaseKey> {
    set k | k in leases && now >= leases[k].expiresAt
  }

  function RemovedInTurn(r: Router, keys: seq<LeaseKey>): Router {
    if keys == [] then r else Removed(RemovedInTurn(r, keys[..|keys| - 1]), keys[|keys| - 1])
  }

  /** The expired leases have been removed one by one, in some order. */
  ghost predicate CleanedUp(r: Router, now: int, r': Router) {
    exists order :: Lists(order, ExpiredKeys(r.leases, now)) && r' == RemovedInTurn(r, order)
  }

  lemma {:induction false} RemovedInTurnLast(r: Router, keys: seq<LeaseKey>, k: LeaseKey)
    ensures RemovedInTurn(r, keys + [k]) == Removed(RemovedInTurn(r, keys), k)
  {
    assert (keys + [k])[..|keys|] == keys;
  }

  lemma {:induction false} RemovedInTurnLeases(r: Router, keys: seq<LeaseKey>)
    ensures RemovedInTurn(r, keys).leases == r.leases - Elems(keys)
    decreases |keys|
  {
    if keys != [] {
      var front, k := keys[..|keys| - 1], keys[|keys| - 1];
      RemovedInTurnLeases(r, front);
      assert keys == front + [k];
      assert Elems(keys) == Elems(front) + {k};
    }
  }

  lemma {:induction false} RemovedInTurnCount(r: Router, keys: seq<LeaseKey>)
    requires Distinct(keys) && Elems(keys) <= r.leases.Keys
    ensures |keys| == |r.leases| - |RemovedInTurn(r, keys).leases|
  {
    RemovedInTurnLeases(r, keys);
    ListsCount(keys, Elems(keys));
    assert r.leases.Keys == RemovedInTurn(r, keys).leases.Keys + Elems(keys);
  }

  lemma {:induction false} CleanedUpLeases(r: Router, now: int, r': Router)
    requires CleanedUp(r, now, r')
    ensures r'.leases == Unexpired(r.leases, Expiry(), now)
  {
    var order :| Lists(order, ExpiredKeys(r.leases, now)) && r' == RemovedInTurn(r, order);
    RemovedInTurnLeases(r, order);
  }

  // ---------------------------------------------------------------------------------------------
  // The load index

  function KeysOn(leases: map<LeaseKey, Lease>, ip: string): set<LeaseKey> {
    set k | k in leases && leases[k].egressIp == ip
  }

  /** For every named IP, the index holds the number of leases on it, and holds the IP only if positive. */
  ghost predicate LoadMatches(r: Router) {
    forall ip | ip != "" ::
      && (ip in r.ipLoad <==> KeysOn(r.leases, ip) != {})
      && Load(r.ipLoad, ip) == |KeysOn(r.leases, ip)|
  }

  lemma {:induction false} RemovedKeepsLoad(r: Router, k: LeaseKey)
    requires LoadMatches(r)
    ensures LoadMatches(Removed(r, k))
  {
    if k in r.leases {
      var r', at := Removed(r, k), r.leases[k].egressIp;
      forall ip | ip != ""
        ensures (ip in r'.ipLoad <==> KeysOn(r'.leases, ip) != {}) && Load(r'.ipLoad, ip) == |KeysOn(r'.leases, ip)|
      {
        if ip == at {
          assert KeysOn(r.leases, ip) == KeysOn(r'.leases, ip) + {k};
        } else {
          assert KeysOn(r.leases, ip) == KeysOn(r'.leases, ip);
        }
      }
    }
  }

  lemma {:induction false} AddedKeepsLoad(r: Router, k: LeaseKey, lease: Lease)
    requires LoadMatches(r) && k !in r.leases
    ensures LoadMatches(Router(r.leases[k := lease], r.ipLoad[lease.egressIp := Load(r.ipLoad, lease.egressIp) + 1]))
  {
    var r' := Router(r.leases[k := lease], r.ipLoad[lease.egressIp := Load(r.ipLoad, lease.egressIp) + 1]);
    forall ip | ip != ""
      ensures (ip in r'.ipLoad <==> KeysOn(r'.leases, ip) != {}) && Load(r'.ipLoad, ip) == |KeysOn(r'.leases, ip)|
    {
      if ip == lease.egressIp {
        assert KeysOn(r'.leases, ip) == KeysOn(r.leases, ip) + {k};
      } else {
        assert KeysOn(r'.leases, ip) == KeysOn(r.leases, ip);
      }
    }
  }

  lemma {:induction false} CreatedKeepsLoad(r: Router, k: LeaseKey, exit: Node, now: int, ttl: int)
    requires LoadMatches(r)
    ensures LoadMatches(Created(r, k, exit, now, ttl))
  {
    RemovedKeepsLoad(r, k);
    AddedKeepsLoad(Removed(r, k), k, Lease("", exit.key, exit.egressIp, now + ttl, now));
  }

  lemma {:induction false} RemovedInTurnKeepsLoad(r: Router, keys: seq<LeaseKey>)
    requires LoadMatches(r)
    ensures LoadMatches(RemovedInTurn(r, keys))
    decreases |keys|
  {
    if keys != [] {
      RemovedInTurnKeepsLoad(r, keys[..|keys| - 1]);
      RemovedKeepsLoad(RemovedInTurn(r, keys[..|keys| - 1]), keys[|keys| - 1]);
    }
  }

  lemma {:induction false} CleanedUpKeepsLoad(r: Router, now: int, r': Router)
    requires LoadMatches(r) && CleanedUp(r, now, r')
    ensures LoadMatches(r')
  {
    var order :| Lists(order, ExpiredKeys(r.leases, now)) && r' == RemovedInTurn(r, order);
    RemovedInTurnKeepsLoad(r, order);
  }

  /** Overwriting a lease without moving it to another IP leaves the index right. */
  lemma {:induction false} RewrittenKeepsLoad(r: Router, k: LeaseKey, lease: Lease)
    requires LoadMatches(r) && k in r.leases && lease.egressIp == r.leases[k].egressIp
    ensures LoadMatches(r.(leases := r.leases[k := lease]))
    ensures LoadMatches(Router(r.leases[k := lease], r.ipLoad[lease.egressIp := Load(r.ipLoad, lease.egressIp)]))
  {
    forall ip ensures KeysOn(r.leases[k := lease], ip) == KeysOn(r.leases, ip) {
    }
    assert lease.egressIp != "" ==> k in KeysOn(r.leases, lease.egressIp);
  }

  lemma {:induction false} RouteKeepsLoad(ttl: int, r: Router, k: LeaseKey, fronts: seq<Node>, exits: seq<Node>, now: int,
                                          live: set<string>, r': Router, result: Option<RouteResult>)
    requires LoadMatches(r) && RouteStep(ttl, r, k, fronts, exits, now, live, r', result)
    ensures LoadMatches(r')
  {
    RemovedKeepsLoad(r, k);
    var r1 := if k.0 != "" then LookedUp(r, k, now) else r;
    if k in r1.leases {
      RewrittenKeepsLoad(r1, k, r1.leases[k].(lastAccessed := now));
    }
    if result.Some? {
      CreatedKeepsLoad(r1, k, result.value.exit, now, ttl);
    }
  }

  /** A clean-up takes exactly the leases whose time has come. */
  lemma {:induction false} CleanupTakesExactly(r: Router, now: int, r': Router, k: LeaseKey)
    requires CleanedUp(r, now, r')
    ensures k in r'.leases <==> k in r.leases && now < r.leases[k].expiresAt
    ensures k in r'.leases ==> r'.leases[k] == r.leases[k]
  {
    CleanedUpLeases(r, now, r');
  }

  // ---------------------------------------------------------------------------------------------
  // Two choices

  /** What a node costs: the leases on its IP and one more, each at its latency; without a usable latency
      the leases alone. */
  function Cost(leases: map<LeaseKey, Lease>, n: Node): int {
    var held := |KeysOn(leases, n.egressIp)|;
    if n.latency.Some? && n.latency.value > 0 then held * n.latency.value + n.latency.value else held
  }

  lemma {:induction false} ScoreIsCost(r: Router, n: Node)
    requires LoadMatches(r) && n.egressIp != ""
    ensures Score(r.ipLoad, n) == Cost(r.leases, n)
  {
  }

  /** Of nodes on named IPs, a draw never gives the one that costs most: some other node costs no less. */
  lemma {:induction false} DearestNeverDrawn(r: Router, nodes: seq<Node>, n: Node)
    requires LoadMatches(r) && Drawn(nodes, r.ipLoad, n) && |nodes| >= 2 && DistinctKeys(nodes)
    requires forall x | x in nodes :: x.egressIp != ""
    ensures n in nodes && exists x :: x in nodes && x.key != n.key && Cost(r.leases, n) <= Cost(r.leases, x)
  {
    var i, j :| 0 <= i < |nodes| && 0 <= j < |nodes| && i != j && n == nodes[i]
                && Score(r.ipLoad, nodes[i]) <= Score(r.ipLoad, nodes[j]);
    ScoreIsCost(r, nodes[i]);
    ScoreIsCost(r, nodes[j]);
    assert nodes[j] in nodes && nodes[j].key != n.key;
  }

  // ---------------------------------------------------------------------------------------------
  // Pairing

  /** If one exit leaves no front, any exit with another key leaves all of them. */
  lemma {:induction false} NoFrontLeft(fronts: seq<Node>, e: Node, other: Node)
    requires Others(fronts, e) == [] && other.key != e.key
    ensures Others(fronts, other) == fronts
  {
    assert forall x | x in fronts :: x.key != e.key ==> x in Others(fronts, e);
    FilterAll(fronts, (x: Node) => x.key != other.key);
  }

  lemma {:induction false} SecondLeavesFronts(fronts: seq<Node>, exits: seq<Node>, ipLoad: map<string, int>, first: Node, second: Node)
    requires fronts != [] && Others(fronts, first) == [] && Drawn(Others(exits, first), ipLoad, second)
    ensures Others(fronts, second) != []
  {
    assert second in Others(exits, first);
    NoFrontLeft(fronts, first, second);
  }

  /** When the draws fail there was no pair to find: a second exit would have left every front. */
  lemma {:induction false} NoPairMeansNone(fronts: seq<Node>, exits: seq<Node>, ipLoad: map<string, int>)
    requires NoPairDrawn(fronts, exits, ipLoad) && fronts != [] && exits != []
    ensures !PairExists(fronts, exits)
  {
    var first :| Drawn(exits, ipLoad, first) && Others(fronts, first) == []
                 && (Others(exits, first) == []
                     || exists second :: Drawn(Others(exits, first), ipLoad, second) && Others(fronts, second) == []);
    forall second | Drawn(Others(exits, first), ipLoad, second) ensures Others(fronts, second) != [] {
      SecondLeavesFronts(fronts, exits, ipLoad, first, second);
    }
    AllShareKey(fronts, first);
    AllShareKey(exits, first);
  }

  lemma {:induction false} AllShareKey(nodes: seq<Node>, n: Node)
    ensures Others(nodes, n) == [] <==> forall x | x in nodes :: x.key == n.key
  {
    assert forall x | x in nodes && x.key != n.key :: x in Others(nodes, n);
    assert Others(nodes, n) != [] ==> Others(nodes, n)[0] in Others(nodes, n);
  }

  /** Whatever the random draws, a route joins two healthy nodes with different keys, and none is found
      only when the healthy pools hold no such pair. */
  lemma {:induction false} PairingComplete(ttl: int, r: Router, k: LeaseKey, fronts: seq<Node>, exits: seq<Node>, now: int,
                                           live: set<string>, r': Router, result: Option<RouteResult>)
    requires RouteStep(ttl, r, k, fronts, exits, now, live, r', result)
    ensures result.None? <==> !PairExists(fronts, exits)
    ensures result.Some? ==>
              result.value.front in fronts && result.value.exit in exits && result.value.front.key != result.value.exit.key
  {
    if result.Some? {
      assert result.value.front in Others(fronts, result.value.exit);
    } else if fronts != [] && exits != [] {
      NoPairMeansNone(fronts, exits, (if k.0 != "" then LookedUp(r, k, now) else r).ipLoad);
    }
  }

  // ---------------------------------------------------------------------------------------------
  // Affinity

  /** A second healthy front always leaves one that is not the exit. */
  lemma {:induction false} TwoFrontsSuffice(fronts: seq<Node>, exit: Node)
    requires |fronts| >= 2 && DistinctKeys(fronts)
    ensures Others(fronts, exit) != []
  {
    var n := if fronts[0].key != exit.key then fronts[0] else fronts[1];
    assert n in fronts && n.key != exit.key;
    assert n in Others(fronts, exit);
  }

  /** No measured node on the IP of `exit` has a lower latency. */
  predicate NoneFaster(exits: seq<Node>, exit: Node) {
    forall n | n in exits && n.egressIp == exit.egressIp && n.latency.Some? && n.latency.value != 0 ::
      exit.latency.Some? && exit.latency.value != 0 && exit.latency.value <= n.latency.value
  }

  /** While a lease is live, its IP has a healthy exit and two fronts are healthy, the request leaves
      through the lease's IP, through the lease's own exit if that is healthy on the IP and else through
      the fastest exit on it, and the lease itself only gains an access time. */
  lemma {:induction false} StickyAffinity(ttl: int, r: Router, k: LeaseKey, fronts: seq<Node>, exits: seq<Node>, now: int,
                                          live: set<string>, r': Router, result: Option<RouteResult>)
    requires RouteStep(ttl, r, k, fronts, exits, now, live, r', result)
    requires k.0 != "" && k in r.leases && now < r.leases[k].expiresAt
    requires |fronts| >= 2 && DistinctKeys(fronts) && DistinctKeys(exits)
    requires exists n :: n in exits && n.egressIp == r.leases[k].egressIp
    ensures result.Some? && result.value.exit.egressIp == r.leases[k].egressIp && !result.value.leaseCreated
    ensures forall n | n in exits && n.key == r.leases[k].exitKey && n.egressIp == r.leases[k].egressIp ::
              result.value.exit == n
    ensures result.value.exit.key == r.leases[k].exitKey || NoneFaster(exits, result.value.exit)
    ensures r'.leases == r.leases[k := r.leases[k].(lastAccessed := now)]
  {
    var exit := ReuseExit(r.leases[k], exits).value;
    TwoFrontsSuffice(fronts, exit);
    assert exit.key == r.leases[k].exitKey || Fastest(SameIp(exits, exit.egressIp)) == Some(exit);
    forall n | n in exits && n.egressIp == exit.egressIp ensures n in SameIp(exits, exit.egressIp) {
    }
  }

  /** The steps of the router between which a session's requests come. */
  datatype RouterOp =
    | Route(key: LeaseKey, fronts: seq<Node>, exits: seq<Node>, at: int, live: set<string>, result: Option<RouteResult>)
    | Bind(key: LeaseKey, instanceId: string)
    | Delete(key: LeaseKey)
    | Cleanup(at: int)

  ghost predicate RouterStep(ttl: int, r: Router, op: RouterOp, r': Router) {
    match op
    case Route(k, fronts, exits, at, live, result) =>
      DistinctKeys(fronts) && DistinctKeys(exits) && RouteStep(ttl, r, k, fronts, exits, at, live, r', result)
    case Bind(k, id) => r' == Bound(r, k, id)
    case Delete(k) => r' == Removed(r, k)
    case Cleanup(at) => CleanedUp(r, at, r')
  }

  ghost predicate RouterStepAt(ttl: int, states: seq<Router>, ops: seq<RouterOp>, i: nat)
    requires i < |ops| && |states| == |ops| + 1
  {
    RouterStep(ttl, states[i], ops[i], states[i + 1])
  }

  ghost predicate RouterTrace(ttl: int, states: seq<Router>, ops: seq<RouterOp>) {
    && |states| == |ops| + 1
    && forall i | 0 <= i < |ops| :: RouterStepAt(ttl, states, ops, i)
  }

  /** The steps come before `until` and do not delete the lease, and whenever its session asks, its IP and
      two fronts are healthy. */
  predicate StaysServable(ops: seq<RouterOp>, k: LeaseKey, ip: string, until: int) {
    forall i | 0 <= i < |ops| ::
      match ops[i]
      case Route(key, fronts, exits, at, _, _) =>
        key == k ==> at < until && |fronts| >= 2 && exists n :: n in exits && n.egressIp == ip
      case Delete(key) => key != k
      case Cleanup(at) => at < until
      case Bind(_, _) => true
  }

  /** The lease leads through this exit until then. */
  predicate LeadsTo(lease: Lease, exitKey: string, ip: string, until: int) {
    lease.exitKey == exitKey && lease.egressIp == ip && lease.expiresAt == until
  }

  lemma {:induction false} LeaseSurvives(ttl: int, states: seq<Router>, ops: seq<RouterOp>, k: LeaseKey, exitKey: string,
                                         ip: string, until: int, n: nat)
    requires RouterTrace(ttl, states, ops) && k.0 != "" && n <= |ops|
    requires k in states[0].leases && LeadsTo(states[0].leases[k], exitKey, ip, until) && StaysServable(ops, k, ip, until)
    ensures k in states[n].leases && LeadsTo(states[n].leases[k], exitKey, ip, until)
  {
    if n > 0 {
      LeaseSurvives(ttl, states, ops, k, exitKey, ip, until, n - 1);
      var r, op, r' := states[n - 1], ops[n - 1], states[n];
      assert RouterStepAt(ttl, states, ops, n - 1);
      if op.Route? && op.key == k {
        StickyAffinity(ttl, r, k, op.fronts, op.exits, op.at, op.live, r', op.result);
      } else if op.Cleanup? {
        CleanedUpLeases(r, op.at, r');
      }
    }
  }

  /** The request left through this IP, through the exit of this key whenever that was healthy on the IP
      and else through the fastest on it, and needed no new lease. */
  predicate KeptTo(op: RouterOp, exitKey: string, ip: string)
    requires op.Route?
  {
    && op.result.Some? && op.result.value.exit.egressIp == ip && !op.result.value.leaseCreated
    && (forall n | n in op.exits && n.key == exitKey && n.egressIp == ip :: op.result.value.exit == n)
    && (op.result.value.exit.key == exitKey || NoneFaster(op.exits, op.result.value.exit))
  }

  /** Over every interleaving with other sessions' steps, bindings and clean-ups, a session keeps its egress IP for
      as long as its lease lives and that IP can be served, and its own exit whenever that is healthy on the IP. */
  lemma {:induction false} AffinityOverRuns(ttl: int, states: seq<Router>, ops: seq<RouterOp>, k: LeaseKey, i: nat)
    requires RouterTrace(ttl, states, ops) && k.0 != "" && k in states[0].leases
    requires StaysServable(ops, k, states[0].leases[k].egressIp, states[0].leases[k].expiresAt)
    requires i < |ops| && ops[i].Route? && ops[i].key == k
    ensures KeptTo(ops[i], states[0].leases[k].exitKey, states[0].leases[k].egressIp)
  {
    var lease := states[0].leases[k];
    LeaseSurvives(ttl, states, ops, k, lease.exitKey, lease.egressIp, lease.expiresAt, i);
    var op := ops[i];
    assert RouterStepAt(ttl, states, ops, i);
    StickyAffinity(ttl, states[i], k, op.fronts, op.exits, op.at, op.live, states[i + 1], op.result);
  }

  /** A request of this session was given a new lease. */
  predicate Creates(op: RouterOp, k: LeaseKey) {
    op.Route? && op.key == k && op.result.Some? && op.result.value.leaseCreated
  }

  lemma {:induction false} CreatesLease(ttl: int, r: Router, op: RouterOp, r': Router, k: LeaseKey)
    requires RouterStep(ttl, r, op, r') && Creates(op, k)
    ensures k.0 != "" && k in r'.leases && r'.leases[k].instanceId == ""
    ensures LeadsTo(r'.leases[k], op.result.value.exit.key, op.result.value.exit.egressIp, op.at + ttl)
  {
  }

  lemma {:induction false} TraceFrom(ttl: int, states: seq<Router>, ops: seq<RouterOp>, i: nat)
    requires RouterTrace(ttl, states, ops) && i <= |ops|
    ensures RouterTrace(ttl, states[i..], ops[i..])
  {
    forall j | 0 <= j < |ops[i..]| ensures RouterStepAt(ttl, states[i..], ops[i..], j) {
      assert RouterStepAt(ttl, states, ops, i + j);
    }
  }

  /** Stickiness, from the request that starts it: once a session has been given a lease, every later
      request within the lease's time leaves as that one did, for as long as its IP can be served. */
  lemma {:induction false} StickyFromCreation(ttl: int, states: seq<Router>, ops: seq<RouterOp>, k: LeaseKey, i: nat, j: nat)
    requires RouterTrace(ttl, states, ops) && i < j < |ops| && Creates(ops[i], k)
    requires StaysServable(ops[i + 1..], k, ops[i].result.value.exit.egressIp, ops[i].at + ttl)
    requires ops[j].Route? && ops[j].key == k
    ensures KeptTo(ops[j], ops[i].result.value.exit.key, ops[i].result.value.exit.egressIp)
  {
    assert RouterStepAt(ttl, states, ops, i);
    CreatesLease(ttl, states[i], ops[i], states[i + 1], k);
    TraceFrom(ttl, states, ops, i + 1);
    AffinityOverRuns(ttl, states[i + 1..], ops[i + 1..], k, j - i - 1);
    assert ops[i + 1..][j - i - 1] == ops[j];
  }

  /** The latest of the first `n` steps to give the session a lease. */
  function LastCreation(ops: seq<RouterOp>, k: LeaseKey, n: nat): (i: Option<nat>)
    requires n <= |ops|
    ensures i.Some? ==> i.value < n && Creates(ops[i.value], k)
  {
    if n == 0 then None else if Creates(ops[n - 1], k) then Some(n - 1) else LastCreation(ops, k, n - 1)
  }

  /** The instance last bound to the session since then; a new lease has none. */
  function LastBound(ops: seq<RouterOp>, k: LeaseKey, n: nat): string
    requires n <= |ops|
  {
    if n == 0 || Creates(ops[n - 1], k) then ""
    else if ops[n - 1].Bind? && ops[n - 1].key == k then ops[n - 1].instanceId
    else LastBound(ops, k, n - 1)
  }

  /** What a lease says of the steps so far. */
  predicate TellsOfCreation(ttl: int, ops: seq<RouterOp>, k: LeaseKey, n: nat, lease: Lease)
    requires n <= |ops|
  {
    && LastCreation(ops, k, n).Some? && lease.instanceId == LastBound(ops, k, n)
    && (forall m | LastCreation(ops, k, n).value < m < n :: ops[m] != Delete(k))
    && var op := ops[LastCreation(ops, k, n).value];
       LeadsTo(lease, op.result.value.exit.key, op.result.value.exit.egressIp, op.at + ttl)
  }

  lemma {:induction false} OtherRequestLeaves(ttl: int, r: Router, op: RouterOp, r': Router, k: LeaseKey)
    requires op.Route? && RouterStep(ttl, r, op, r') && op.key != k && k in r'.leases
    ensures k in r.leases && r'.leases[k] == r.leases[k]
  {
  }

  lemma {:induction false} RequestOnlyTouches(ttl: int, r: Router, op: RouterOp, r': Router, k: LeaseKey)
    requires op.Route? && RouterStep(ttl, r, op, r') && op.key == k && !Creates(op, k) && k in r'.leases
    ensures k in r.leases && r'.leases[k] == r.leases[k].(lastAccessed := r'.leases[k].lastAccessed)
  {
  }

  /** A step that gives no lease leaves the lease that was there, or takes it away. */
  lemma {:induction false} LeaseOnlyEdited(ttl: int, r: Router, op: RouterOp, r': Router, k: LeaseKey)
    requires RouterStep(ttl, r, op, r') && !Creates(op, k) && k in r'.leases
    ensures k in r.leases && op != Delete(k)
    ensures LeadsTo(r'.leases[k], r.leases[k].exitKey, r.leases[k].egressIp, r.leases[k].expiresAt)
    ensures r'.leases[k].instanceId == if op.Bind? && op.key == k then op.instanceId else r.leases[k].instanceId
  {
    if op.Route? && op.key != k {
      OtherRequestLeaves(ttl, r, op, r', k);
    } else if op.Route? {
      RequestOnlyTouches(ttl, r, op, r', k);
    } else if op.Cleanup? {
      CleanedUpLeases(r, op.at, r');
    }
  }

  /** Every lease of a run tells which request it came from and what was bound to it since. */
  lemma {:induction false} LeasesTellHistory(ttl: int, states: seq<Router>, ops: seq<RouterOp>, k: LeaseKey, n: nat)
    requires RouterTrace(ttl, states, ops) && k !in states[0].leases && n <= |ops|
    ensures k in states[n].leases ==> TellsOfCreation(ttl, ops, k, n, states[n].leases[k])
  {
    if n > 0 {
      LeasesTellHistory(ttl, states, ops, k, n - 1);
      assert RouterStepAt(ttl, states, ops, n - 1);
      if Creates(ops[n - 1], k) {
        CreatesLease(ttl, states[n - 1], ops[n - 1], states[n], k);
      } else if k in states[n].leases {
        LeaseOnlyEdited(ttl, states[n - 1], ops[n - 1], states[n], k);
      }
    }
  }

  /** The converse: a session's request that is answered without a new lease leaves through the IP of the
      request that was last given one, less than `ttl` after it, with no deletion since; and it is told of
      the instance bound since then. So at `ttl` and later nothing is reused. */
  lemma {:induction false} OnlyCreatedReused(ttl: int, states: seq<Router>, ops: seq<RouterOp>, k: LeaseKey, j: nat)
    requires RouterTrace(ttl, states, ops) && k.0 != "" && k !in states[0].leases
    requires j < |ops| && ops[j].Route? && ops[j].key == k && ops[j].result.Some? && !ops[j].result.value.leaseCreated
    ensures LastCreation(ops, k, j).Some?
    ensures var (op, answer) := (ops[LastCreation(ops, k, j).value], ops[j].result.value);
            && ops[j].at < op.at + ttl && answer.exit.egressIp == op.result.value.exit.egressIp
            && answer.boundInstance == LastBound(ops, k, j)
            && answer.reused == (answer.boundInstance != "" && answer.boundInstance in ops[j].live)
    ensures forall m | LastCreation(ops, k, j).value < m < j :: ops[m] != Delete(k)
  {
    LeasesTellHistory(ttl, states, ops, k, j);
    assert RouterStepAt(ttl, states, ops, j);
  }
}
