/** Compiling a hop list to a mihomo configuration whose proxies dial through one another by name. */
module MihomoConfig {
  import opened Common
  import opened Decimal

  /** A hop as handed over: its given name, and what the proxy builder makes of it (nothing when it raises). */
  datatype Node = Node(name: string, body: Option<string>)

  datatype Spec = Spec(instanceId: string, inboundType: string, listen: string, port: int, hops: seq<Node>)

  datatype Listener = Listener(name: string, kind: string, listen: string, port: int)

  datatype Proxy = Proxy(name: string, body: string, dialer: Option<string>)

  /** `target` is what the single MATCH rule selects. */
  datatype Config = Config(listener: Listener, proxies: seq<Proxy>, target: string)

  datatype Error = UnsupportedInbound(kind: string) | NoHops | Unbuildable(hop: nat)

  // ---------------------------------------------------------------------------------------------
  // The compiler

  function Kind(spec: Spec): string {
    if spec.inboundType != "" then spec.inboundType else "http"
  }

  function Listen(spec: Spec): string {
    if spec.listen != "" then spec.listen else "127.0.0.1"
  }

  /** The name hop `i` goes by. */
  function NameOf(hops: seq<Node>, i: nat): string
    requires i < |hops|
  {
    if hops[i].name != "" then hops[i].name else "hop-" + Dec(i + 1)
  }

  function ProxyFor(hops: seq<Node>, i: nat): Proxy
    requires i < |hops|
  {
    Proxy(NameOf(hops, i), hops[i].body.GetOr(""), if i == 0 then None else Some(NameOf(hops, i - 1)))
  }

  function Proxies(hops: seq<Node>): (p: seq<Proxy>)
    ensures |p| == |hops| && forall i | 0 <= i < |hops| :: p[i] == ProxyFor(hops, i)
  {
    seq(|hops|, i requires 0 <= i < |hops| => ProxyFor(hops, i))
  }

  function FirstUnbuildable(hops: seq<Node>, i: nat): Option<nat>
    requires i <= |hops|
    decreases |hops| - i
  {
    if i == |hops| then None else if hops[i].body.None? then Some(i) else FirstUnbuildable(hops, i + 1)
  }

  function Compile(spec: Spec): Result<Config, Error> {
    if Kind(spec) !in {"http", "socks", "mixed"} then Err(UnsupportedInbound(spec.inboundType))
    else if spec.hops == [] then Err(NoHops)
    else if FirstUnbuildable(spec.hops, 0).Some? then Err(Unbuildable(FirstUnbuildable(spec.hops, 0).value))
    else Ok(Config(Listener(spec.instanceId, Kind(spec), Listen(spec), spec.port),
                   Proxies(spec.hops), NameOf(spec.hops, |spec.hops| - 1)))
  }

  /** The loop: the proxies, each dialling through the one before it, and the last one's name. */
  method BuildProxies(hops: seq<Node>) returns (r: Result<seq<Proxy>, Error>, finalName: string)
    requires hops != []
    ensures var bad := FirstUnbuildable(hops, 0);
            if bad.Some? then r == Err(Unbuildable(bad.value))
            else r == Ok(Proxies(hops)) && finalName == NameOf(hops, |hops| - 1)
  {
    var proxies: seq<Proxy> := [];
    var previousName := "";
    finalName := "";
    for idx := 0 to |hops|
      invariant |proxies| == idx && forall k | 0 <= k < idx :: proxies[k] == ProxyFor(hops, k)
      invariant FirstUnbuildable(hops, 0) == FirstUnbuildable(hops, idx)
      invariant previousName == finalName
      invariant if idx == 0 then finalName == "" else finalName == NameOf(hops, idx - 1) && finalName != ""
    {
      var name := if hops[idx].name != "" then hops[idx].name else "hop-" + Dec(idx + 1);
      if hops[idx].body.None? {
        return Err(Unbuildable(idx)), finalName;
      }
      proxies := proxies + [Proxy(name, hops[idx].body.value, if previousName != "" then Some(previousName) else None)];
      previousName, finalName := name, name;
    }
    assert proxies == Proxies(hops);
    r := Ok(proxies);
  }

  method BuildChainConfig(spec: Spec) returns (r: Result<Config, Error>)
    ensures r == Compile(spec)
  {
    var kind := if spec.inboundType != "" then spec.inboundType else "http";
    if kind !in {"http", "socks", "mixed"} {
      return Err(UnsupportedInbound(spec.inboundType));
    }
    if spec.hops == [] {
      return Err(NoHops);
    }
    var proxies, finalName := BuildProxies(spec.hops);
    if proxies.Err? {
      return Err(proxies.error);
    }
    return Ok(Config(Listener(spec.instanceId, kind, Listen(spec), spec.port), proxies.value, finalName));
  }

  /** A hop list compiles exactly when the inbound type is known, there is a hop and every hop can be built. */
  lemma {:induction false} CompilesExactly(spec: Spec)
    ensures Compile(spec).Ok? <==>
              && Kind(spec) in {"http", "socks", "mixed"} && spec.hops != []
              && forall i | 0 <= i < |spec.hops| :: spec.hops[i].body.Some?
  {
    FirstUnbuildableIsFirst(spec.hops, 0);
  }

  /** And it fails for the first of these reasons that applies: the inbound type, the want of hops, the first
      hop that cannot be built. */
  lemma {:induction false} FailsExactly(spec: Spec, i: nat)
    ensures Compile(spec) == Err(UnsupportedInbound(spec.inboundType)) <==> spec.inboundType !in {"", "http", "socks", "mixed"}
    ensures Compile(spec) == Err(NoHops) <==> spec.inboundType in {"", "http", "socks", "mixed"} && spec.hops == []
    ensures Compile(spec) == Err(Unbuildable(i)) <==>
              && spec.inboundType in {"", "http", "socks", "mixed"}
              && i < |spec.hops| && spec.hops[i].body.None? && forall k | 0 <= k < i :: spec.hops[k].body.Some?
  {
    FirstUnbuildableIsFirst(spec.hops, 0);
  }

  /** The one listener is the instance's, where and of the type asked for: on the loopback interface if no
      address is given, and for HTTP if no type is. */
  lemma {:induction false} ListensAsAsked(spec: Spec, c: Config)
    requires Compile(spec) == Ok(c)
    ensures c.listener.name == spec.instanceId && c.listener.port == spec.port
    ensures spec.inboundType != "" ==> c.listener.kind == spec.inboundType
    ensures spec.inboundType == "" ==> c.listener.kind == "http"
    ensures spec.listen != "" ==> c.listener.listen == spec.listen
    ensures spec.listen == "" ==> c.listener.listen == "127.0.0.1"
  {
  }

  lemma {:induction false} FirstUnbuildableIsFirst(hops: seq<Node>, i: nat)
    requires i <= |hops|
    ensures var bad := FirstUnbuildable(hops, i);
            && (bad.None? <==> forall k | i <= k < |hops| :: hops[k].body.Some?)
            && (bad.Some? ==> i <= bad.value < |hops| && hops[bad.value].body.None?
                              && forall k | i <= k < bad.value :: hops[k].body.Some?)
    decreases |hops| - i
  {
    if i < |hops| && hops[i].body.Some? {
      FirstUnbuildableIsFirst(hops, i + 1);
    }
  }

  // ---------------------------------------------------------------------------------------------
  // What a configuration does

  /** A way to look proxies up by name: it finds a proxy of that name wherever there is one. */
  ghost predicate LooksUp(find: string -> Option<nat>, proxies: seq<Proxy>) {
    forall name :: match find(name)
                   case Some(p) => p < |proxies| && proxies[p].name == name
                   case None => forall q | 0 <= q < |proxies| :: proxies[q].name != name
  }

  /** The positions of the proxies that traffic for `name` is dialled through, following dialer names. */
  function Walk(proxies: seq<Proxy>, find: string -> Option<nat>, name: string, fuel: nat): Option<seq<nat>>
    decreases fuel
  {
    if fuel == 0 then None
    else
      match find(name)
      case None => None
      case Some(p) =>
        if p >= |proxies| then None
        else if proxies[p].dialer.None? then Some([p])
        else
          match Walk(proxies, find, proxies[p].dialer.value, fuel - 1)
          case None => None
          case Some(rest) => Some([p] + rest)
  }

  function Path(c: Config, find: string -> Option<nat>): Option<seq<nat>> {
    Walk(c.proxies, find, c.target, |c.proxies|)
  }

  /** n - 1, n - 2, ..., 0: every hop once, the exit first. */
  function Downwards(n: nat): (s: seq<nat>)
    ensures |s| == n && forall k | 0 <= k < n :: s[k] == n - 1 - k
  {
    if n == 0 then [] else [n - 1] + Downwards(n - 1)
  }

  predicate DistinctNames(hops: seq<Node>) {
    forall i, j | 0 <= i < j < |hops| :: NameOf(hops, i) != NameOf(hops, j)
  }

  lemma {:induction false} FindsOwn(hops: seq<Node>, find: string -> Option<nat>, i: nat)
    requires LooksUp(find, Proxies(hops)) && DistinctNames(hops) && i < |hops|
    ensures find(NameOf(hops, i)) == Some(i)
  {
    var name := NameOf(hops, i);
    assert Proxies(hops)[i].name == name;
    var p := find(name);
    assert p.Some? && NameOf(hops, p.value) == name;
  }

  ghost predicate FindsEach(hops: seq<Node>, find: string -> Option<nat>) {
    forall i | 0 <= i < |hops| :: find(NameOf(hops, i)) == Some(i)
  }

  lemma {:induction false} FindsAll(hops: seq<Node>, find: string -> Option<nat>)
    requires LooksUp(find, Proxies(hops)) && DistinctNames(hops)
    ensures FindsEach(hops, find)
  {
    forall i | 0 <= i < |hops| ensures find(NameOf(hops, i)) == Some(i) {
      FindsOwn(hops, find, i);
    }
  }

  lemma {:induction false} WalkDown(hops: seq<Node>, find: string -> Option<nat>, i: nat, fuel: nat)
    requires FindsEach(hops, find)
    requires i < |hops| && i < fuel
    ensures Walk(Proxies(hops), find, NameOf(hops, i), fuel) == Some(Downwards(i + 1))
    decreases i
  {
    assert find(NameOf(hops, i)) == Some(i);
    assert Proxies(hops)[i] == ProxyFor(hops, i);
    if i > 0 {
      WalkDown(hops, find, i - 1, fuel - 1);
    } else {
      assert Downwards(1) == [0];
    }
  }

  /** Whatever a walk visits is what its name looks up to. */
  lemma {:induction false} WalkVisits(proxies: seq<Proxy>, find: string -> Option<nat>, name: string, fuel: nat, k: nat)
    requires LooksUp(find, proxies)
    requires Walk(proxies, find, name, fuel).Some? && k < |Walk(proxies, find, name, fuel).value|
    ensures var p := Walk(proxies, find, name, fuel).value[k]; p < |proxies| && find(proxies[p].name) == Some(p)
    decreases fuel
  {
    if k > 0 {
      var p := find(name).value;
      WalkVisits(proxies, find, proxies[p].dialer.value, fuel - 1, k - 1);
    }
  }

  /** Two hops of one name look up to one proxy, so no walk visits both. */
  lemma {:induction false} DuplicateLost(hops: seq<Node>, find: string -> Option<nat>, name: string, fuel: nat, i: nat, j: nat)
    requires LooksUp(find, Proxies(hops))
    requires i < j < |hops| && NameOf(hops, i) == NameOf(hops, j)
    ensures Walk(Proxies(hops), find, name, fuel) != Some(Downwards(|hops|))
  {
    var proxies, n := Proxies(hops), |hops|;
    assert proxies[i].name == proxies[j].name;
    if Walk(proxies, find, name, fuel) == Some(Downwards(n)) {
      assert Downwards(n)[n - 1 - i] == i && Downwards(n)[n - 1 - j] == j;
      WalkVisits(proxies, find, name, fuel, n - 1 - i);
      WalkVisits(proxies, find, name, fuel, n - 1 - j);
    }
  }

  lemma {:induction false} CompiledProxies(spec: Spec, c: Config)
    requires Compile(spec) == Ok(c)
    ensures spec.hops != [] && c.proxies == Proxies(spec.hops) && c.target == NameOf(spec.hops, |spec.hops| - 1)
  {
  }

  /** The proxies are the hops, built, in order. */
  lemma {:induction false} ProxiesAreHops(spec: Spec, c: Config, i: nat)
    requires Compile(spec) == Ok(c) && i < |spec.hops|
    ensures |c.proxies| == |spec.hops| && Some(c.proxies[i].body) == spec.hops[i].body
  {
    FirstUnbuildableIsFirst(spec.hops, 0);
  }

  lemma {:induction false} SomeHopLost(hops: seq<Node>, find: string -> Option<nat>, name: string, fuel: nat)
    requires LooksUp(find, Proxies(hops)) && !DistinctNames(hops)
    ensures Walk(Proxies(hops), find, name, fuel) != Some(Downwards(|hops|))
  {
    var i, j :| 0 <= i < j < |hops| && NameOf(hops, i) == NameOf(hops, j);
    DuplicateLost(hops, find, name, fuel, i, j);
  }

  lemma {:induction false} ChainFaithfulExactly(hops: seq<Node>, c: Config, find: string -> Option<nat>)
    requires hops != [] && c.proxies == Proxies(hops) && c.target == NameOf(hops, |hops| - 1) && LooksUp(find, c.proxies)
    ensures Path(c, find) == Some(Downwards(|hops|)) <==> DistinctNames(hops)
  {
    if DistinctNames(hops) {
      FindsAll(hops, find);
      WalkDown(hops, find, |hops| - 1, |hops|);
    } else {
      SomeHopLost(hops, find, c.target, |hops|);
    }
  }

  /** The meaning is kept exactly when the hops' names are pairwise distinct: then, however names are looked
      up, traffic is dialled through every hop, from the last in the list back to the first; with two hops of
      one name there is no way of looking names up that would do so. */
  lemma {:induction false} FaithfulExactly(spec: Spec, c: Config, find: string -> Option<nat>)
    requires Compile(spec) == Ok(c) && LooksUp(find, c.proxies)
    ensures Path(c, find) == Some(Downwards(|spec.hops|)) <==> DistinctNames(spec.hops)
  {
    CompiledProxies(spec, c);
    ChainFaithfulExactly(spec.hops, c, find);
  }

  /** Unnamed hops never clash with one another. */
  lemma {:induction false} UnnamedHopsDistinct(hops: seq<Node>)
    requires forall i | 0 <= i < |hops| :: hops[i].name == ""
    ensures DistinctNames(hops)
  {
    forall i, j | 0 <= i < j < |hops| ensures NameOf(hops, i) != NameOf(hops, j) {
      if NameOf(hops, i) == NameOf(hops, j) {
        assert NameOf(hops, i)[4..] == Dec(i + 1) && NameOf(hops, j)[4..] == Dec(j + 1);
        DecInjective(i + 1, j + 1);
      }
    }
  }

  /** But a hop may be given the very name another gets by default, and then the path is lost. */
  lemma {:induction false} DefaultNameCanClash(body: string)
    ensures var spec := Spec("c", "http", "", 1, [Node("hop-2", Some(body)), Node("", Some(body))]);
            Compile(spec).Ok? && !DistinctNames(spec.hops)
  {
    var hops := [Node("hop-2", Some(body)), Node("", Some(body))];
    CompilesExactly(Spec("c", "http", "", 1, hops));
    assert Dec(2) == "2";
    assert NameOf(hops, 0) == NameOf(hops, 1);
  }
}
