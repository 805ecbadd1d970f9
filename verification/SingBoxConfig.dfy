/** Compiling proxy-chain routes to a sing-box configuration, and what that configuration does. */
module SingBoxConfig {
  import opened Common
  import opened Decimal

  datatype Route = Route(inboundPort: int, proxyKey: string, frontKey: string, middleKey: string, exitKey: string,
                         inboundType: string, listen: string)

  function Named(key: string): seq<string> {
    if key != "" then [key] else []
  }

  /** The hops of a route, front first. */
  function ChainKeys(r: Route): seq<string> {
    var chain := Named(r.frontKey) + Named(r.middleKey) + Named(r.exitKey);
    if chain != [] then chain else Named(r.proxyKey)
  }

  /** A route with its chain worked out. */
  datatype Plan = Plan(kind: string, listen: string, port: int, keys: seq<string>)

  function PlanOf(r: Route): Plan {
    Plan(r.inboundType, r.listen, r.inboundPort, ChainKeys(r))
  }

  function Plans(routes: seq<Route>): (p: seq<Plan>)
    ensures |p| == |routes| && forall i | 0 <= i < |p| :: p[i] == PlanOf(routes[i])
  {
    seq(|routes|, i requires 0 <= i < |routes| => PlanOf(routes[i]))
  }

  /** The proxy table: what the outbound builder makes of each known proxy, if it supports it. */
  type Nodes = map<string, Option<string>>

  datatype Inbound = Inbound(kind: string, tag: string, listen: string, port: int)

  datatype Outbound = Hop(tag: string, body: string, detour: Option<string>) | Direct(tag: string)

  datatype Rule = Rule(inbound: string, outbound: string)

  datatype Config = Config(inbounds: seq<Inbound>, outbounds: seq<Outbound>, rules: seq<Rule>, final: string)

  datatype Error =
    | InvalidPort(port: int)
    | DuplicatePort(port: int)
    | NoProxyKey
    | UnsupportedInbound(kind: string)
    | ProxyNotFound(key: string)
    | ProxyUnsupported(key: string)

  /** How inbounds and hops are tagged. */
  datatype Tags = Tags(inbound: nat -> string, hop: (nat, nat) -> string)

  function InTag(i: nat): string {
    "in-" + Dec(i)
  }

  function HopTag(i: nat, h: nat): string {
    "out-" + Dec(i) + "-hop-" + Dec(h)
  }

  function StandardTags(): Tags {
    Tags((i: nat) => InTag(i), (i: nat, h: nat) => HopTag(i, h))
  }

  // ---------------------------------------------------------------------------------------------
  // The compiler

  /** The first complaint about the routes, given the ports already taken. */
  function RouteError(ps: seq<Plan>, ports: set<int>): Option<Error> {
    if ps == [] then None
    else
      var p := ps[0];
      if p.port <= 0 || p.port > 65535 then Some(InvalidPort(p.port))
      else if p.port in ports then Some(DuplicatePort(p.port))
      else if p.keys == [] then Some(NoProxyKey)
      else RouteError(ps[1..], ports + {p.port})
  }

  predicate Buildable(nodes: Nodes, key: string) {
    key in nodes && nodes[key].Some?
  }

  /** The outbound made of a proxy, without its tag and detour. */
  function Body(nodes: Nodes, key: string): string {
    if Buildable(nodes, key) then nodes[key].value else ""
  }

  function HopError(keys: seq<string>, nodes: Nodes): Option<Error> {
    if keys == [] then None
    else if keys[0] !in nodes then Some(ProxyNotFound(keys[0]))
    else if nodes[keys[0]].None? then Some(ProxyUnsupported(keys[0]))
    else HopError(keys[1..], nodes)
  }

  /** The complaint about one valid route. */
  function StepError(p: Plan, nodes: Nodes): Option<Error> {
    if p.kind !in {"socks", "http"} then Some(UnsupportedInbound(p.kind)) else HopError(p.keys, nodes)
  }

  function BuildError(ps: seq<Plan>, nodes: Nodes): Option<Error> {
    if ps == [] then None
    else if StepError(ps[0], nodes).Some? then StepError(ps[0], nodes)
    else BuildError(ps[1..], nodes)
  }

  function HopOutbound(tags: Tags, i: nat, keys: seq<string>, nodes: Nodes, h: nat): Outbound
    requires h < |keys|
  {
    Hop(tags.hop(i, h), Body(nodes, keys[h]), if h == 0 then None else Some(tags.hop(i, h - 1)))
  }

  /** Outbounds of one route: each hop dials through the hop before it. */
  function Block(tags: Tags, i: nat, keys: seq<string>, nodes: Nodes): (b: seq<Outbound>)
    ensures |b| == |keys|
    ensures forall h | 0 <= h < |keys| :: b[h] == HopOutbound(tags, i, keys, nodes, h)
  {
    seq(|keys|, h requires 0 <= h < |keys| => HopOutbound(tags, i, keys, nodes, h))
  }

  function Blocks(tags: Tags, ps: seq<Plan>, base: nat, nodes: Nodes): seq<Outbound> {
    if ps == [] then [] else Block(tags, base, ps[0].keys, nodes) + Blocks(tags, ps[1..], base + 1, nodes)
  }

  function Outbounds(tags: Tags, ps: seq<Plan>, nodes: Nodes): seq<Outbound> {
    Blocks(tags, ps, 0, nodes) + [Direct("direct")]
  }

  function InboundFor(tags: Tags, i: nat, p: Plan): Inbound {
    Inbound(p.kind, tags.inbound(i), p.listen, p.port)
  }

  function RuleFor(tags: Tags, i: nat, p: Plan): Rule {
    Rule(tags.inbound(i), if p.keys == [] then "" else tags.hop(i, |p.keys| - 1))
  }

  function Compiled(tags: Tags, ps: seq<Plan>, nodes: Nodes): Config {
    Config(seq(|ps|, i requires 0 <= i < |ps| => InboundFor(tags, i, ps[i])),
           Outbounds(tags, ps, nodes),
           seq(|ps|, i requires 0 <= i < |ps| => RuleFor(tags, i, ps[i])),
           "direct")
  }

  function Compile(tags: Tags, ps: seq<Plan>, nodes: Nodes): Result<Config, Error> {
    if RouteError(ps, {}).Some? then Err(RouteError(ps, {}).value)
    else if BuildError(ps, nodes).Some? then Err(BuildError(ps, nodes).value)
    else Ok(Compiled(tags, ps, nodes))
  }

  /** Routes are accepted exactly when ports are in range and distinct and every chain has a hop. */
  lemma {:induction false} ValidPlans(ps: seq<Plan>, ports: set<int>)
    ensures RouteError(ps, ports).None? <==>
              && (forall i | 0 <= i < |ps| :: 0 < ps[i].port <= 65535 && ps[i].port !in ports && ps[i].keys != [])
              && (forall i, j | 0 <= i < j < |ps| :: ps[i].port != ps[j].port)
  {
    if ps != [] {
      ValidPlans(ps[1..], ports + {ps[0].port});
      assert forall i | 1 <= i < |ps| :: ps[i] == ps[1..][i - 1];
    }
  }

  /** And they compile exactly when, besides, every inbound type is known and every hop's proxy exists and
      is supported. */
  lemma {:induction false} CompilesExactly(tags: Tags, ps: seq<Plan>, nodes: Nodes)
    ensures Compile(tags, ps, nodes).Ok? <==>
              && RouteError(ps, {}).None?
              && forall i | 0 <= i < |ps| ::
                   ps[i].kind in {"socks", "http"} && forall h | 0 <= h < |ps[i].keys| :: Buildable(nodes, ps[i].keys[h])
  {
    BuildablePlans(ps, nodes);
    forall i | 0 <= i < |ps|
      ensures StepError(ps[i], nodes).None? <==>
                ps[i].kind in {"socks", "http"} && forall h | 0 <= h < |ps[i].keys| :: Buildable(nodes, ps[i].keys[h])
    {
      BuildableHops(ps[i].keys, nodes);
    }
  }

  lemma {:induction false} BuildablePlans(ps: seq<Plan>, nodes: Nodes)
    ensures BuildError(ps, nodes).None? <==> forall i | 0 <= i < |ps| :: StepError(ps[i], nodes).None?
  {
    if ps != [] {
      BuildablePlans(ps[1..], nodes);
      assert forall i | 1 <= i < |ps| :: ps[i] == ps[1..][i - 1];
    }
  }

  lemma {:induction false} BuildableHops(keys: seq<string>, nodes: Nodes)
    ensures HopError(keys, nodes).None? <==> forall h | 0 <= h < |keys| :: Buildable(nodes, keys[h])
  {
    if keys != [] {
      BuildableHops(keys[1..], nodes);
      assert forall h | 1 <= h < |keys| :: keys[h] == keys[1..][h - 1];
    }
  }

  /** The complaint is about the first route that is not valid after those before it. */
  lemma {:induction false} FirstInvalidRoute(ps: seq<Plan>, ports: set<int>) returns (i: nat)
    requires RouteError(ps, ports).Some?
    ensures i < |ps| && RouteError(ps[..i], ports).None?
    ensures match RouteError(ps, ports).value
            case InvalidPort(port) => port == ps[i].port && !(0 < port <= 65535)
            case DuplicatePort(port) =>
              port == ps[i].port && 0 < port <= 65535 && (port in ports || exists j | 0 <= j < i :: ps[j].port == port)
            case NoProxyKey =>
              0 < ps[i].port <= 65535 && ps[i].port !in ports && (forall j | 0 <= j < i :: ps[j].port != ps[i].port)
              && ps[i].keys == []
            case _ => false
  {
    var p := ps[0];
    if p.port <= 0 || p.port > 65535 || p.port in ports || p.keys == [] {
      i := 0;
    } else {
      i := FirstInvalidRoute(ps[1..], ports + {p.port});
      assert ps[..i + 1][1..] == ps[1..][..i];
      assert forall j | 1 <= j < |ps| :: ps[j] == ps[1..][j - 1];
      i := i + 1;
    }
  }

  /** The first hop whose proxy is missing or not supported. */
  lemma {:induction false} FirstBadHop(keys: seq<string>, nodes: Nodes) returns (h: nat)
    requires HopError(keys, nodes).Some?
    ensures h < |keys| && !Buildable(nodes, keys[h]) && forall k | 0 <= k < h :: Buildable(nodes, keys[k])
    ensures HopError(keys, nodes).value == if keys[h] in nodes then ProxyUnsupported(keys[h]) else ProxyNotFound(keys[h])
  {
    if !Buildable(nodes, keys[0]) {
      h := 0;
    } else {
      h := FirstBadHop(keys[1..], nodes);
      assert forall k | 1 <= k < |keys| :: keys[k] == keys[1..][k - 1];
      h := h + 1;
    }
  }

  /** And of valid routes the complaint is about the first with an unknown inbound type or such a hop. */
  lemma {:induction false} FirstUnbuildableRoute(ps: seq<Plan>, nodes: Nodes) returns (i: nat)
    requires BuildError(ps, nodes).Some?
    ensures i < |ps| && forall j | 0 <= j < i :: StepError(ps[j], nodes).None?
    ensures BuildError(ps, nodes) ==
              if ps[i].kind in {"socks", "http"} then HopError(ps[i].keys, nodes) else Some(UnsupportedInbound(ps[i].kind))
  {
    if StepError(ps[0], nodes).Some? {
      i := 0;
    } else {
      i := FirstUnbuildableRoute(ps[1..], nodes);
      assert forall j | 1 <= j < |ps| :: ps[j] == ps[1..][j - 1];
      i := i + 1;
    }
  }

  method ValidateRoutes(ps: seq<Plan>) returns (error: Option<Error>)
    ensures error == RouteError(ps, {})
  {
    var ports: set<int> := {};
    assert ps[0..] == ps;
    for i := 0 to |ps|
      invariant RouteError(ps, {}) == RouteError(ps[i..], ports)
    {
      var p := ps[i];
      assert ps[i..][0] == p && ps[i..][1..] == ps[i + 1..];
      if p.port <= 0 || p.port > 65535 {
        return Some(InvalidPort(p.port));
      }
      if p.port in ports {
        return Some(DuplicatePort(p.port));
      }
      if p.keys == [] {
        return Some(NoProxyKey);
      }
      ports := ports + {p.port};
    }
    return None;
  }

  /** The outbounds of one route: built without detours, then linked backwards. */
  method BuildChain(tags: Tags, i: nat, keys: seq<string>, nodes: Nodes) returns (r: Result<seq<Outbound>, Error>)
    ensures r == var e := HopError(keys, nodes); if e.Some? then Err(e.value) else Ok(Block(tags, i, keys, nodes))
  {
    var chain: seq<Outbound> := [];
    assert keys[0..] == keys;
    for h := 0 to |keys|
      invariant |chain| == h
      invariant forall k | 0 <= k < h :: chain[k] == Hop(tags.hop(i, k), Body(nodes, keys[k]), None)
      invariant HopError(keys, nodes) == HopError(keys[h..], nodes)
    {
      var key := keys[h];
      assert keys[h..][0] == key && keys[h..][1..] == keys[h + 1..];
      if key !in nodes {
        return Err(ProxyNotFound(key));
      }
      if nodes[key].None? {
        return Err(ProxyUnsupported(key));
      }
      chain := chain + [Hop(tags.hop(i, h), nodes[key].value, None)];
    }
    if |chain| >= 2 {
      for h := 1 to |chain|
        invariant |chain| == |keys|
        invariant forall k | 0 <= k < h :: chain[k] == HopOutbound(tags, i, keys, nodes, k)
        invariant forall k | h <= k < |keys| :: chain[k] == Hop(tags.hop(i, k), Body(nodes, keys[k]), None)
      {
        chain := chain[h := Hop(chain[h].tag, chain[h].body, Some(chain[h - 1].tag))];
      }
    }
    assert chain == Block(tags, i, keys, nodes);
    return Ok(chain);
  }

  lemma {:induction false} BlocksLast(tags: Tags, ps: seq<Plan>, base: nat, nodes: Nodes, n: nat)
    requires n < |ps|
    ensures Blocks(tags, ps[..n + 1], base, nodes)
            == Blocks(tags, ps[..n], base, nodes) + Block(tags, base + n, ps[n].keys, nodes)
  {
    if n == 0 {
      assert ps[..1][1..] == [];
      var first := Block(tags, base, ps[0].keys, nodes);
      assert first + [] == first && [] + first == first;
    } else {
      BlocksLast(tags, ps[1..], base + 1, nodes, n - 1);
      assert ps[..n][1..] == ps[1..][..n - 1] && ps[..n + 1][1..] == ps[1..][..n];
      var first, between := Block(tags, base, ps[0].keys, nodes), Blocks(tags, ps[1..][..n - 1], base + 1, nodes);
      var last := Block(tags, base + n, ps[n].keys, nodes);
      assert first + (between + last) == first + between + last;
    }
  }

  lemma {:induction false} BuildErrorStep(ps: seq<Plan>, nodes: Nodes, idx: nat)
    requires idx < |ps|
    ensures BuildError(ps[idx..], nodes)
            == if StepError(ps[idx], nodes).Some? then StepError(ps[idx], nodes) else BuildError(ps[idx + 1..], nodes)
  {
    assert ps[idx..][0] == ps[idx] && ps[idx..][1..] == ps[idx + 1..];
  }

  /** The lists as they stand once the first `idx` routes have been compiled. */
  ghost predicate Compiling(tags: Tags, ps: seq<Plan>, nodes: Nodes, idx: nat, c: Config) {
    && idx <= |ps| && BuildError(ps, nodes) == BuildError(ps[idx..], nodes)
    && |c.inbounds| == idx && (forall i | 0 <= i < idx :: c.inbounds[i] == InboundFor(tags, i, ps[i]))
    && |c.rules| == idx && (forall i | 0 <= i < idx :: c.rules[i] == RuleFor(tags, i, ps[i]))
    && c.outbounds == Blocks(tags, ps[..idx], 0, nodes)
  }

  lemma {:induction false} CompilingStarts(tags: Tags, ps: seq<Plan>, nodes: Nodes)
    ensures Compiling(tags, ps, nodes, 0, Config([], [], [], "direct"))
  {
    assert ps[0..] == ps;
  }

  lemma {:induction false} CompilingStep(tags: Tags, ps: seq<Plan>, nodes: Nodes, idx: nat, c: Config)
    requires Compiling(tags, ps, nodes, idx, c) && idx < |ps|
    ensures StepError(ps[idx], nodes).Some? ==> BuildError(ps, nodes) == StepError(ps[idx], nodes)
    ensures StepError(ps[idx], nodes).None? ==>
              Compiling(tags, ps, nodes, idx + 1,
                        Config(c.inbounds + [InboundFor(tags, idx, ps[idx])],
                               c.outbounds + Block(tags, idx, ps[idx].keys, nodes),
                               c.rules + [RuleFor(tags, idx, ps[idx])], c.final))
  {
    BuildErrorStep(ps, nodes, idx);
    BlocksLast(tags, ps, 0, nodes, idx);
  }

  lemma {:induction false} CompilingEnds(tags: Tags, ps: seq<Plan>, nodes: Nodes, c: Config)
    requires Compiling(tags, ps, nodes, |ps|, c)
    ensures BuildError(ps, nodes).None?
    ensures Config(c.inbounds, c.outbounds + [Direct("direct")], c.rules, "direct") == Compiled(tags, ps, nodes)
  {
    assert ps[..|ps|] == ps && ps[|ps|..] == [];
  }

  /** One route's inbound, outbounds and rule. */
  method CompileRoute(tags: Tags, idx: nat, p: Plan, nodes: Nodes) returns (r: Result<(Inbound, seq<Outbound>, Rule), Error>)
    requires p.keys != []
    ensures r == var e := StepError(p, nodes);
                 if e.Some? then Err(e.value)
                 else Ok((InboundFor(tags, idx, p), Block(tags, idx, p.keys, nodes), RuleFor(tags, idx, p)))
  {
    if p.kind !in {"socks", "http"} {
      return Err(UnsupportedInbound(p.kind));
    }
    var chain := BuildChain(tags, idx, p.keys, nodes);
    if chain.Err? {
      return Err(chain.error);
    }
    return Ok((Inbound(p.kind, tags.inbound(idx), p.listen, p.port), chain.value,
               Rule(tags.inbound(idx), chain.value[|chain.value| - 1].tag)));
  }

  /** `build_runtime_config` over the planned routes. */
  method Assemble(tags: Tags, ps: seq<Plan>, nodes: Nodes) returns (r: Result<Config, Error>)
    ensures r == Compile(tags, ps, nodes)
  {
    var error := ValidateRoutes(ps);
    if error.Some? {
      return Err(error.value);
    }
    ValidPlans(ps, {});
    var inbounds: seq<Inbound> := [];
    var outbounds: seq<Outbound> := [];
    var rules: seq<Rule> := [];
    CompilingStarts(tags, ps, nodes);
    for idx := 0 to |ps|
      invariant Compiling(tags, ps, nodes, idx, Config(inbounds, outbounds, rules, "direct"))
    {
      CompilingStep(tags, ps, nodes, idx, Config(inbounds, outbounds, rules, "direct"));
      var parts := CompileRoute(tags, idx, ps[idx], nodes);
      if parts.Err? {
        return Err(parts.error);
      }
      inbounds := inbounds + [parts.value.0];
      outbounds := outbounds + parts.value.1;
      rules := rules + [parts.value.2];
    }
    CompilingEnds(tags, ps, nodes, Config(inbounds, outbounds, rules, "direct"));
    return Ok(Config(inbounds, outbounds + [Direct("direct")], rules, "direct"));
  }

  method BuildRuntimeConfig(routes: seq<Route>, nodes: Nodes) returns (r: Result<Config, Error>)
    ensures r == Compile(StandardTags(), Plans(routes), nodes)
  {
    r := Assemble(StandardTags(), Plans(routes), nodes);
  }

  // ---------------------------------------------------------------------------------------------
  // What a configuration does

  function FindOutbound(outs: seq<Outbound>, tag: string): Option<Outbound> {
    if outs == [] then None
    else if outs[0].tag == tag then Some(outs[0])
    else FindOutbound(outs[1..], tag)
  }

  /** The outbounds a connection is wrapped in, the selected one first; none if a tag is missing or the
      detours run in a circle. */
  function Follow(outs: seq<Outbound>, tag: string, fuel: nat): Option<seq<string>>
    decreases fuel
  {
    if fuel == 0 then None
    else
      match FindOutbound(outs, tag)
      case None => None
      case Some(Direct(_)) => Some([])
      case Some(Hop(_, body, detour)) =>
        if detour.None? then Some([body])
        else
          var rest := Follow(outs, detour.value, fuel - 1);
          if rest.None? then None else Some([body] + rest.value)
  }

  function SelectRule(rules: seq<Rule>, inbound: string, final: string): string {
    if rules == [] then final
    else if rules[0].inbound == inbound then rules[0].outbound
    else SelectRule(rules[1..], inbound, final)
  }

  /** The path of a connection that arrives at the inbound. */
  function Path(config: Config, inbound: string): Option<seq<string>> {
    Follow(config.outbounds, SelectRule(config.rules, inbound, config.final), |config.outbounds|)
  }

  function Bodies(keys: seq<string>, nodes: Nodes): (b: seq<string>)
    ensures |b| == |keys|
    ensures forall h | 0 <= h < |keys| :: b[h] == Body(nodes, keys[h])
  {
    seq(|keys|, h requires 0 <= h < |keys| => Body(nodes, keys[h]))
  }

  // ---------------------------------------------------------------------------------------------
  // Tags

  lemma {:induction false} InTagInjective(i: nat, j: nat)
    requires InTag(i) == InTag(j)
    ensures i == j
  {
    assert InTag(i)[3..] == Dec(i) && InTag(j)[3..] == Dec(j);
    DecInjective(i, j);
  }

  lemma {:induction false} HopTagInjective(i: nat, h: nat, j: nat, k: nat)
    requires HopTag(i, h) == HopTag(j, k)
    ensures i == j && h == k
  {
    var a, b, x, y := Dec(i), Dec(j), "-hop-" + Dec(h), "-hop-" + Dec(k);
    assert HopTag(i, h) == "out-" + (a + x) && HopTag(j, k) == "out-" + (b + y);
    assert ("out-" + (a + x))[4..] == a + x && ("out-" + (b + y))[4..] == b + y;
    SplitUnique(a, b, x, y);
    DecInjective(i, j);
    assert x[5..] == Dec(h) && y[5..] == Dec(k);
    DecInjective(h, k);
  }

  lemma {:induction false} HopTagNotDirect(i: nat, h: nat)
    ensures HopTag(i, h) != "direct"
  {
    assert HopTag(i, h)[0] == 'o';
  }

  /** Tags tell inbounds and hops apart, and no hop is tagged like the direct outbound. */
  ghost predicate TellsApart(tags: Tags) {
    && (forall i, j :: tags.inbound(i) == tags.inbound(j) ==> i == j)
    && (forall i, h, j, k :: tags.hop(i, h) == tags.hop(j, k) ==> i == j && h == k)
    && (forall i, h :: tags.hop(i, h) != "direct")
  }

  lemma {:induction false} StandardTagsTellApart()
    ensures TellsApart(StandardTags())
  {
    var tags := StandardTags();
    forall i, j | tags.inbound(i) == tags.inbound(j) ensures i == j {
      InTagInjective(i, j);
    }
    forall i, h, j, k | tags.hop(i, h) == tags.hop(j, k) ensures i == j && h == k {
      HopTagInjective(i, h, j, k);
    }
    forall i, h ensures tags.hop(i, h) != "direct" {
      HopTagNotDirect(i, h);
    }
  }

  predicate DistinctTags(outs: seq<Outbound>) {
    forall a, b | 0 <= a < b < |outs| :: outs[a].tag != outs[b].tag
  }

  /** Every detour names an outbound listed earlier, so detours cannot run in a circle. */
  predicate DetoursPointBack(outs: seq<Outbound>) {
    forall a | 0 <= a < |outs| && outs[a].Hop? && outs[a].detour.Some? ::
      exists b :: 0 <= b < a && outs[b].tag == outs[a].detour.value
  }

  /** How many outbounds come before those of route `i`. */
  function Offset(ps: seq<Plan>, i: nat): nat
    requires i <= |ps|
  {
    if i == 0 then 0 else |ps[0].keys| + Offset(ps[1..], i - 1)
  }

  lemma {:induction false} AfterFirstBlock(tags: Tags, ps: seq<Plan>, base: nat, nodes: Nodes, x: nat)
    requires ps != [] && x < |Blocks(tags, ps[1..], base + 1, nodes)|
    ensures |ps[0].keys| + x < |Blocks(tags, ps, base, nodes)|
    ensures Blocks(tags, ps, base, nodes)[|ps[0].keys| + x] == Blocks(tags, ps[1..], base + 1, nodes)[x]
  {
  }

  lemma {:induction false} InFirstBlock(tags: Tags, ps: seq<Plan>, base: nat, nodes: Nodes, h: nat)
    requires ps != [] && h < |ps[0].keys|
    ensures h < |Blocks(tags, ps, base, nodes)|
    ensures Blocks(tags, ps, base, nodes)[h] == HopOutbound(tags, base, ps[0].keys, nodes, h)
  {
    assert Blocks(tags, ps, base, nodes)[h] == Block(tags, base, ps[0].keys, nodes)[h];
  }

  lemma {:induction false} HopAt(tags: Tags, ps: seq<Plan>, base: nat, nodes: Nodes, i: nat, h: nat)
    requires i < |ps| && h < |ps[i].keys|
    ensures Offset(ps, i) + h < |Blocks(tags, ps, base, nodes)|
    ensures Blocks(tags, ps, base, nodes)[Offset(ps, i) + h] == HopOutbound(tags, base + i, ps[i].keys, nodes, h)
  {
    if i == 0 {
      InFirstBlock(tags, ps, base, nodes, h);
    } else {
      HopAt(tags, ps[1..], base + 1, nodes, i - 1, h);
      AfterFirstBlock(tags, ps, base, nodes, Offset(ps[1..], i - 1) + h);
    }
  }

  /** Which route and hop the outbound at a position belongs to. */
  lemma {:induction false} OwnerOf(tags: Tags, ps: seq<Plan>, base: nat, nodes: Nodes, a: nat) returns (i: nat, h: nat)
    requires a < |Blocks(tags, ps, base, nodes)|
    ensures i < |ps| && h < |ps[i].keys| && a == Offset(ps, i) + h
  {
    if a < |ps[0].keys| {
      i, h := 0, a;
    } else {
      i, h := OwnerOf(tags, ps[1..], base + 1, nodes, a - |ps[0].keys|);
      i := i + 1;
    }
  }

  /** The tag at a position among the hops of all routes, and whose it is. */
  lemma {:induction false} TagAt(tags: Tags, ps: seq<Plan>, nodes: Nodes, a: nat) returns (i: nat, h: nat)
    requires a < |Blocks(tags, ps, 0, nodes)|
    ensures i < |ps| && h < |ps[i].keys| && a == Offset(ps, i) + h
    ensures Outbounds(tags, ps, nodes)[a].tag == tags.hop(i, h)
  {
    i, h := OwnerOf(tags, ps, 0, nodes, a);
    HopAt(tags, ps, 0, nodes, i, h);
  }

  lemma {:induction false} TwoTagsDiffer(tags: Tags, ps: seq<Plan>, nodes: Nodes, a: nat, b: nat)
    requires TellsApart(tags) && a < b < |Outbounds(tags, ps, nodes)|
    ensures Outbounds(tags, ps, nodes)[a].tag != Outbounds(tags, ps, nodes)[b].tag
  {
    var i, h := TagAt(tags, ps, nodes, a);
    if b < |Blocks(tags, ps, 0, nodes)| {
      var j, k := TagAt(tags, ps, nodes, b);
    }
  }

  lemma {:induction false} TagsDistinct(tags: Tags, ps: seq<Plan>, nodes: Nodes)
    requires TellsApart(tags)
    ensures DistinctTags(Outbounds(tags, ps, nodes))
  {
    var outs := Outbounds(tags, ps, nodes);
    forall a, b | 0 <= a < b < |outs| ensures outs[a].tag != outs[b].tag {
      TwoTagsDiffer(tags, ps, nodes, a, b);
    }
  }

  lemma {:induction false} DetoursAcyclic(tags: Tags, ps: seq<Plan>, nodes: Nodes)
    ensures DetoursPointBack(Outbounds(tags, ps, nodes))
  {
    var outs := Outbounds(tags, ps, nodes);
    forall a | 0 <= a < |outs| && outs[a].Hop? && outs[a].detour.Some?
      ensures exists b :: 0 <= b < a && outs[b].tag == outs[a].detour.value
    {
      var i, h := OwnerOf(tags, ps, 0, nodes, a);
      HopAt(tags, ps, 0, nodes, i, h);
      HopAt(tags, ps, 0, nodes, i, h - 1);
      assert outs[a - 1].tag == outs[a].detour.value;
    }
  }

  lemma {:induction false} FindByTag(outs: seq<Outbound>, a: nat)
    requires DistinctTags(outs) && a < |outs|
    ensures FindOutbound(outs, outs[a].tag) == Some(outs[a])
  {
    if a > 0 {
      assert outs[0].tag != outs[a].tag;
      assert forall b | 0 <= b < |outs| - 1 :: outs[1..][b] == outs[b + 1];
      FindByTag(outs[1..], a - 1);
    }
  }

  lemma {:induction false} FindHop(tags: Tags, ps: seq<Plan>, nodes: Nodes, i: nat, h: nat)
    requires TellsApart(tags) && i < |ps| && h < |ps[i].keys|
    ensures FindOutbound(Outbounds(tags, ps, nodes), tags.hop(i, h)) == Some(HopOutbound(tags, i, ps[i].keys, nodes, h))
  {
    HopAt(tags, ps, 0, nodes, i, h);
    TagsDistinct(tags, ps, nodes);
    FindByTag(Outbounds(tags, ps, nodes), Offset(ps, i) + h);
  }

  /** The bodies of the first `n` hops, the last of them first. */
  function Backwards(keys: seq<string>, nodes: Nodes, n: nat): seq<string>
    requires n <= |keys|
  {
    if n == 0 then [] else [Body(nodes, keys[n - 1])] + Backwards(keys, nodes, n - 1)
  }

  /** From hop `h` of a route the detours lead through all hops down to the front. */
  lemma {:induction false} FollowHop(tags: Tags, ps: seq<Plan>, nodes: Nodes, i: nat, h: nat, fuel: nat)
    requires TellsApart(tags) && i < |ps| && h < |ps[i].keys| && h < fuel
    ensures Follow(Outbounds(tags, ps, nodes), tags.hop(i, h), fuel) == Some(Backwards(ps[i].keys, nodes, h + 1))
    decreases h
  {
    FindHop(tags, ps, nodes, i, h);
    if h > 0 {
      FollowHop(tags, ps, nodes, i, h - 1, fuel - 1);
    } else {
      var body := Body(nodes, ps[i].keys[0]);
      assert Backwards(ps[i].keys, nodes, 1) == [body] + Backwards(ps[i].keys, nodes, 0) == [body];
    }
  }

  lemma {:induction false} BackwardsReverses(keys: seq<string>, nodes: Nodes, n: nat)
    requires n <= |keys|
    ensures |Backwards(keys, nodes, n)| == n
    ensures forall j | 0 <= j < n :: Backwards(keys, nodes, n)[j] == Body(nodes, keys[n - 1 - j])
  {
    if n > 0 {
      BackwardsReverses(keys, nodes, n - 1);
    }
  }

  lemma {:induction false} RuleSelected(rules: seq<Rule>, i: nat, final: string)
    requires i < |rules|
    requires forall a, b | 0 <= a < b < |rules| :: rules[a].inbound != rules[b].inbound
    ensures SelectRule(rules, rules[i].inbound, final) == rules[i].outbound
  {
    if i > 0 {
      assert rules[0].inbound != rules[i].inbound;
      assert forall b | 0 <= b < |rules| - 1 :: rules[1..][b] == rules[b + 1];
      RuleSelected(rules[1..], i - 1, final);
    }
  }

  lemma {:induction false} AllBackwards(keys: seq<string>, nodes: Nodes)
    ensures Backwards(keys, nodes, |keys|) == Reverse(Bodies(keys, nodes))
  {
    BackwardsReverses(keys, nodes, |keys|);
  }

  lemma {:induction false} RuleOfRoute(tags: Tags, ps: seq<Plan>, nodes: Nodes, i: nat)
    requires TellsApart(tags) && i < |ps| && ps[i].keys != []
    ensures var c := Compiled(tags, ps, nodes);
            SelectRule(c.rules, tags.inbound(i), c.final) == tags.hop(i, |ps[i].keys| - 1)
  {
    var c := Compiled(tags, ps, nodes);
    RuleSelected(c.rules, i, c.final);
  }

  lemma {:induction false} PlansFaithful(tags: Tags, ps: seq<Plan>, nodes: Nodes, i: nat)
    requires TellsApart(tags) && RouteError(ps, {}).None? && i < |ps|
    ensures Path(Compiled(tags, ps, nodes), tags.inbound(i)) == Some(Reverse(Bodies(ps[i].keys, nodes)))
  {
    var c, keys := Compiled(tags, ps, nodes), ps[i].keys;
    ValidPlans(ps, {});
    RuleOfRoute(tags, ps, nodes, i);
    HopAt(tags, ps, 0, nodes, i, |keys| - 1);
    FollowHop(tags, ps, nodes, i, |keys| - 1, |c.outbounds|);
    AllBackwards(keys, nodes);
  }

  /** Compilation keeps the meaning: all tags are unique, detours cannot run in a circle, and what arrives
      at the i-th inbound leaves through exactly route i's hops, dialled from the exit back to the front. */
  lemma {:induction false} CompilationFaithful(routes: seq<Route>, nodes: Nodes, i: nat)
    requires Compile(StandardTags(), Plans(routes), nodes).Ok? && i < |routes|
    ensures var c := Compile(StandardTags(), Plans(routes), nodes).value;
            && DistinctTags(c.outbounds) && DetoursPointBack(c.outbounds)
            && Path(c, InTag(i)) == Some(Reverse(Bodies(ChainKeys(routes[i]), nodes)))
  {
    StandardTagsTellApart();
    TagsDistinct(StandardTags(), Plans(routes), nodes);
    DetoursAcyclic(StandardTags(), Plans(routes), nodes);
    PlansFaithful(StandardTags(), Plans(routes), nodes, i);
    assert StandardTags().inbound(i) == InTag(i);
  }

  /** What that is by the fields of the route: its exit, its middle and its front, those that are named, in this
      order, and its `proxy_key` alone if none is. */
  lemma {:induction false} PathByFields(routes: seq<Route>, nodes: Nodes, i: nat)
    requires Compile(StandardTags(), Plans(routes), nodes).Ok? && i < |routes|
    ensures var (r, c) := (routes[i], Compile(StandardTags(), Plans(routes), nodes).value);
            var via := (key: string) => if key == "" then [] else [Body(nodes, key)];
            Path(c, InTag(i)) == Some(if r.exitKey == "" && r.middleKey == "" && r.frontKey == "" then via(r.proxyKey)
                                      else via(r.exitKey) + via(r.middleKey) + via(r.frontKey))
  {
    CompilationFaithful(routes, nodes, i);
    BodiesByFields(routes[i], nodes);
  }

  lemma {:induction false} BodiesByFields(r: Route, nodes: Nodes)
    ensures var via := (key: string) => if key == "" then [] else [Body(nodes, key)];
            Reverse(Bodies(ChainKeys(r), nodes)) ==
              if r.exitKey == "" && r.middleKey == "" && r.frontKey == "" then via(r.proxyKey)
              else via(r.exitKey) + via(r.middleKey) + via(r.frontKey)
  {
    var keys := ChainKeys(r);
    assert r.exitKey != "" && r.middleKey != "" && r.frontKey != "" ==> keys == [r.frontKey, r.middleKey, r.exitKey];
  }

  /** The i-th inbound is the only one with its tag and with its port, and listens where route i says. */
  lemma {:induction false} InboundsFaithful(routes: seq<Route>, nodes: Nodes, i: nat, j: nat)
    requires Compile(StandardTags(), Plans(routes), nodes).Ok? && i < |routes| && j < |routes|
    ensures var inbounds := Compile(StandardTags(), Plans(routes), nodes).value.inbounds;
            && |inbounds| == |routes|
            && inbounds[i] == Inbound(routes[i].inboundType, InTag(i), routes[i].listen, routes[i].inboundPort)
            && (inbounds[j].tag == inbounds[i].tag || inbounds[j].port == inbounds[i].port ==> j == i)
  {
    ValidPlans(Plans(routes), {});
    StandardTagsTellApart();
    var tags := StandardTags();
    assert tags.inbound(i) == InTag(i) && tags.inbound(j) == InTag(j);
  }

  /** A connection that matches no inbound rule leaves directly. */
  lemma {:induction false} OtherwiseDirect(tags: Tags, ps: seq<Plan>, nodes: Nodes, inbound: string)
    requires TellsApart(tags)
    requires forall i | 0 <= i < |ps| :: inbound != tags.inbound(i)
    ensures Path(Compiled(tags, ps, nodes), inbound) == Some([])
  {
    var c := Compiled(tags, ps, nodes);
    NoRule(c.rules, inbound, c.final);
    TagsDistinct(tags, ps, nodes);
    FindByTag(c.outbounds, |c.outbounds| - 1);
  }

  lemma {:induction false} NoRule(rules: seq<Rule>, inbound: string, final: string)
    requires forall i | 0 <= i < |rules| :: rules[i].inbound != inbound
    ensures SelectRule(rules, inbound, final) == final
  {
    if rules != [] {
      NoRule(rules[1..], inbound, final);
    }
  }

  // ---------------------------------------------------------------------------------------------
  // Replacing a failed exit

  function Replaced(r: Route, failed: string, next: string): Route {
    if r.exitKey == failed then r.(exitKey := next)
    else if r.proxyKey == failed && r.exitKey == "" then r.(proxyKey := next)
    else r
  }

  predicate Counted(r: Route, failed: string) {
    r.exitKey == failed || (r.proxyKey == failed && r.exitKey == "")
  }

  function ReplacedAll(routes: seq<Route>, failed: string, next: string): (r: seq<Route>)
    ensures |r| == |routes| && forall i | 0 <= i < |r| :: r[i] == Replaced(routes[i], failed, next)
  {
    seq(|routes|, i requires 0 <= i < |routes| => Replaced(routes[i], failed, next))
  }

  function IsCounted(failed: string): Route -> bool {
    (r: Route) => Counted(r, failed)
  }

  function CountOf(routes: seq<Route>, failed: string): nat {
    |Filter(routes, IsCounted(failed))|
  }

  /** What the call does, whether or not it has anything to do. */
  function Replacement(routes: seq<Route>, known: set<string>, failed: string, next: string): Result<(int, seq<Route>), Error> {
    if failed == "" || next == "" || failed == next || next !in known || CountOf(routes, failed) == 0 then Ok((0, routes))
    else
      var error := RouteError(Plans(ReplacedAll(routes, failed, next)), {});
      if error.Some? then Err(error.value) else Ok((CountOf(routes, failed), ReplacedAll(routes, failed, next)))
  }

  /** The edited copy of one route, and whether it counts as changed. */
  method EditCopy(route: Route, failed: string, next: string) returns (item: Route, hit: bool)
    ensures item == Replaced(route, failed, next) && hit == Counted(route, failed)
  {
    item, hit := route, false;
    if item.exitKey == failed {
      item, hit := item.(exitKey := next), true;
    } else if item.proxyKey == failed && item.exitKey == "" {
      item, hit := item.(proxyKey := next), true;
    }
  }

  lemma {:induction false} CountStep(routes: seq<Route>, i: nat, failed: string)
    requires i < |routes|
    ensures CountOf(routes[..i + 1], failed) == CountOf(routes[..i], failed) + if Counted(routes[i], failed) then 1 else 0
  {
    FilterPrefix(routes, i, IsCounted(failed));
  }

  /** Edited copies of all routes, and how many were counted. */
  method EditCopies(routes: seq<Route>, failed: string, next: string) returns (copies: seq<Route>, changed: nat)
    ensures copies == ReplacedAll(routes, failed, next) && changed == CountOf(routes, failed)
  {
    changed := 0;
    copies := [];
    for i := 0 to |routes|
      invariant |copies| == i && forall k | 0 <= k < i :: copies[k] == Replaced(routes[k], failed, next)
      invariant changed == CountOf(routes[..i], failed)
    {
      var item, hit := EditCopy(routes[i], failed, next);
      CountStep(routes, i, failed);
      copies := copies + [item];
      changed := changed + if hit then 1 else 0;
    }
    assert routes[..|routes|] == routes;
  }

  /** The routes then stored, and how many were counted as changed. */
  method ReplaceFailedExit(routes: seq<Route>, known: set<string>, failed: string, next: string)
    returns (r: Result<(int, seq<Route>), Error>)
    ensures r == Replacement(routes, known, failed, next)
  {
    if failed == "" || next == "" || failed == next || next !in known {
      return Ok((0, routes));
    }
    var copies, changed := EditCopies(routes, failed, next);
    if changed <= 0 {
      return Ok((0, routes));
    }
    var error := ValidateRoutes(Plans(copies));
    if error.Some? {
      return Err(error.value);
    }
    return Ok((changed, copies));
  }

  /** A replacement touches at most the last hop of a chain, and only where that was the failed proxy; the
      failed proxy stays last exactly in the chains that have no exit key but end in it as front or middle. */
  lemma {:induction false} ReplacementChangesOnlyExit(r: Route, failed: string, next: string)
    requires failed != "" && next != "" && failed != next && ChainKeys(r) != []
    ensures var keys, keys' := ChainKeys(r), ChainKeys(Replaced(r, failed, next));
            var exit, named := keys[|keys| - 1], r.exitKey != "" || (r.frontKey == "" && r.middleKey == "");
            && keys' == (if exit == failed && named then keys[..|keys| - 1] + [next] else keys)
            && (keys'[|keys'| - 1] == failed <==> exit == failed && !named)
  {
    var keys, keys' := ChainKeys(r), ChainKeys(Replaced(r, failed, next));
    if r.exitKey != "" {
      var front := Named(r.frontKey) + Named(r.middleKey);
      assert keys == front + [r.exitKey] && keys[..|keys| - 1] == front;
    } else if r.frontKey == "" && r.middleKey == "" {
      assert keys == Named(r.proxyKey) == [r.proxyKey];
      assert keys[..|keys| - 1] == [];
    } else {
      assert Named(r.frontKey) + Named(r.middleKey) != [];
    }
  }

  /** A route is counted without its chain changing exactly if it names the failed proxy as `proxy_key`, has no
      exit key, and has a front or middle hop: its `proxy_key` is then no hop at all. */
  lemma {:induction false} CountedUnchangedExactly(r: Route, failed: string, next: string)
    requires failed != "" && next != "" && failed != next
    ensures Counted(r, failed) && ChainKeys(Replaced(r, failed, next)) == ChainKeys(r) <==>
              r.proxyKey == failed && r.exitKey == "" && (r.frontKey != "" || r.middleKey != "")
  {
    var keys, keys' := ChainKeys(r), ChainKeys(Replaced(r, failed, next));
    if r.exitKey == failed {
      assert keys[|keys| - 1] == failed && keys'[|keys'| - 1] == next;
    } else if r.frontKey == "" && r.middleKey == "" && r.exitKey == "" && r.proxyKey == failed {
      assert keys == [failed] && keys' == [next];
    }
  }

  /** A chain that ends in the failed proxy goes uncounted exactly if it does so as front or middle hop, there
      being no exit key and another `proxy_key`. */
  lemma {:induction false} MissedExactly(r: Route, failed: string)
    requires failed != "" && ChainKeys(r) != []
    ensures var keys := ChainKeys(r);
            keys[|keys| - 1] == failed && !Counted(r, failed) <==>
              && r.exitKey == "" && r.proxyKey != failed
              && (r.middleKey == failed || (r.middleKey == "" && r.frontKey == failed))
  {
    var keys := ChainKeys(r);
    if r.exitKey != "" {
      assert keys[|keys| - 1] == r.exitKey;
    } else if r.frontKey != "" || r.middleKey != "" {
      assert keys[|keys| - 1] == if r.middleKey != "" then r.middleKey else r.frontKey;
    }
  }

  /** Such a route need not end in the failed proxy, and one that does need not be counted. */
  lemma {:induction false} CountIsNoMeasure(listen: string)
    ensures var idle := Route(1, "F", "A", "", "", "socks", listen);
            Counted(idle, "F") && ChainKeys(Replaced(idle, "F", "N")) == ChainKeys(idle) == ["A"]
    ensures var stuck := Route(1, "", "F", "", "", "socks", listen);
            !Counted(stuck, "F") && ChainKeys(stuck) == ["F"]
  {
  }

  lemma {:induction false} ReplacedPlan(r: Route, failed: string, next: string)
    requires failed != "" && next != "" && failed != next && ChainKeys(r) != []
    ensures var p := PlanOf(Replaced(r, failed, next));
            p.port == r.inboundPort && p.kind == r.inboundType && p.listen == r.listen && p.keys != []
  {
    ReplacementChangesOnlyExit(r, failed, next);
  }

  /** Replacing an exit in valid routes leaves them valid. */
  lemma {:induction false} ReplacementKeepsValid(routes: seq<Route>, failed: string, next: string)
    requires RouteError(Plans(routes), {}).None? && failed != "" && next != "" && failed != next
    ensures RouteError(Plans(ReplacedAll(routes, failed, next)), {}).None?
  {
    var ps, ps' := Plans(routes), Plans(ReplacedAll(routes, failed, next));
    ValidPlans(ps, {});
    forall i | 0 <= i < |routes| ensures ps'[i].port == ps[i].port && ps'[i].keys != [] {
      assert ps[i].keys == ChainKeys(routes[i]);
      ReplacedPlan(routes[i], failed, next);
    }
    ValidPlans(ps', {});
  }

  /** So on valid routes the call never fails: it edits all routes it counts if both proxies are named, they
      differ, the new one is known and a route counts, and else it does nothing. */
  lemma {:induction false} ReplacementNeverFails(routes: seq<Route>, known: set<string>, failed: string, next: string)
    requires RouteError(Plans(routes), {}).None?
    ensures var hit := (r: Route) => r.exitKey == failed || (r.exitKey == "" && r.proxyKey == failed);
            var due := failed != "" && next != "" && failed != next && next in known && exists r :: r in routes && hit(r);
            && Replacement(routes, known, failed, next).Ok?
            && var (count, stored) := Replacement(routes, known, failed, next).value;
               && count == (if due then |Filter(routes, hit)| else 0)
               && (!due ==> stored == routes)
               && (due ==> |stored| == |routes| && forall i | 0 <= i < |routes| ::
                     stored[i] == (if !hit(routes[i]) then routes[i]
                                   else if routes[i].exitKey != "" then routes[i].(exitKey := next)
                                   else routes[i].(proxyKey := next)))
  {
    var hit := (r: Route) => r.exitKey == failed || (r.exitKey == "" && r.proxyKey == failed);
    FilterSameRoutes(routes, IsCounted(failed), hit);
    if failed != "" && next != "" && failed != next {
      ReplacementKeepsValid(routes, failed, next);
    }
    assert Filter(routes, hit) != [] ==> Filter(routes, hit)[0] in Filter(routes, hit);
  }

  lemma {:induction false} FilterSameRoutes(routes: seq<Route>, a: Route -> bool, b: Route -> bool)
    requires forall r | r in routes :: a(r) == b(r)
    ensures Filter(routes, a) == Filter(routes, b)
  {
    if routes != [] {
      FilterSameRoutes(routes[1..], a, b);
    }
  }
}
