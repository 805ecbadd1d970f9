/** Naming the proxies of a published Clash subscription. */
module ClashNames {
  import opened Common
  import opened Decimal

  /** A stored proxy: its fields as text ("" when missing), and what the proxy builder makes of it. */
  datatype Node = Node(name: string, host: string, port: string, body: Option<string>)

  datatype Item = Item(name: string, body: string)

  /** The one select group is called `GROUP`; `selector` are its entries. */
  datatype Config = Config(items: seq<Item>, selector: seq<string>)

  const GROUP := "Proxy"
  const DIRECT := "DIRECT"

  // ---------------------------------------------------------------------------------------------
  // Allocating one name

  function Raw(p: Node): string {
    if p.name != "" then p.name
    else
      var host := if p.host != "" then p.host else "proxy";
      if p.port != "" then host + ":" + p.port else host
  }

  function Truncated(s: string): string {
    if |s| <= 80 then s else s[..80]
  }

  function Base(p: Node, idx: nat): string {
    if Truncated(Raw(p)) != "" then Truncated(Raw(p)) else "proxy-" + Dec(idx)
  }

  /** base, base-2, base-3, ... */
  function Candidate(base: string, k: nat): string {
    if k == 0 then base else base + "-" + Dec(k + 1)
  }

  lemma {:induction false} CandidatesDiffer(base: string, j: nat, k: nat)
    requires Candidate(base, j) == Candidate(base, k)
    ensures j == k
  {
    if j > 0 && k > 0 {
      assert Candidate(base, j)[|base| + 1..] == Dec(j + 1) && Candidate(base, k)[|base| + 1..] == Dec(k + 1);
      DecInjective(j + 1, k + 1);
    }
  }

  ghost predicate AllTaken(base: string, used: set<string>, k: nat) {
    forall j: nat | j < k :: Candidate(base, j) in used
  }

  ghost function Candidates(base: string, k: nat): set<string> {
    if k == 0 then {} else Candidates(base, k - 1) + {Candidate(base, k - 1)}
  }

  lemma {:induction false} CandidateIsNew(base: string, k: nat, n: nat)
    requires k <= n
    ensures Candidate(base, n) !in Candidates(base, k)
  {
    if k > 0 {
      CandidateIsNew(base, k - 1, n);
      if Candidate(base, n) == Candidate(base, k - 1) {
        CandidatesDiffer(base, n, k - 1);
      }
    }
  }

  lemma {:induction false} CandidatesCount(base: string, k: nat)
    ensures |Candidates(base, k)| == k
  {
    if k > 0 {
      CandidatesCount(base, k - 1);
      CandidateIsNew(base, k - 1, k - 1);
    }
  }

  lemma {:induction false} TakenAreUsed(base: string, used: set<string>, k: nat)
    requires AllTaken(base, used, k)
    ensures Candidates(base, k) <= used
  {
    if k > 0 {
      TakenAreUsed(base, used, k - 1);
      assert Candidate(base, k - 1) in used;
    }
  }

  lemma {:induction false} SubsetSmaller<T>(a: set<T>, b: set<T>)
    requires a <= b
    ensures |a| <= |b|
  {
    assert b == a + (b - a);
  }

  /** k taken candidates need k used names, so one of the first |used| + 1 candidates is free. */
  lemma {:induction false} Pigeonhole(base: string, used: set<string>, k: nat)
    requires AllTaken(base, used, k)
    ensures k <= |used|
  {
    CandidatesCount(base, k);
    TakenAreUsed(base, used, k);
    SubsetSmaller(Candidates(base, k), used);
  }

  /** The first free candidate, from the k-th on. */
  ghost function FirstFree(base: string, used: set<string>, k: nat): (r: nat)
    requires AllTaken(base, used, k)
    ensures k <= r <= |used| && AllTaken(base, used, r) && Candidate(base, r) !in used
    decreases |used| - k
  {
    Pigeonhole(base, used, k);
    if Candidate(base, k) !in used then k
    else
      assert AllTaken(base, used, k + 1);
      Pigeonhole(base, used, k + 1);
      FirstFree(base, used, k + 1)
  }

  ghost function NameFor(p: Node, idx: nat, used: set<string>): string {
    Candidate(Base(p, idx), FirstFree(Base(p, idx), used, 0))
  }

  /** The loop stops after at most |used| + 1 candidates, at the first one that is free. */
  method UniqueName(p: Node, idx: nat, used: set<string>) returns (name: string, used': set<string>, ghost tried: nat)
    ensures name == NameFor(p, idx, used) && used' == used + {name}
    ensures name !in used && 1 <= tried <= |used| + 1
  {
    var raw := p.name;
    if raw == "" {
      var host := if p.host != "" then p.host else "proxy";
      raw := if p.port != "" then host + ":" + p.port else host;
    }
    var base := if Truncated(raw) != "" then Truncated(raw) else "proxy-" + Dec(idx);
    assert base == Base(p, idx);
    name := base;
    var suffix := 2;
    while name in used
      invariant suffix >= 2 && name == Candidate(base, suffix - 2)
      invariant AllTaken(base, used, suffix - 2)
      invariant FirstFree(base, used, 0) == FirstFree(base, used, suffix - 2)
      decreases |used| + 2 - suffix
    {
      assert AllTaken(base, used, suffix - 1);
      Pigeonhole(base, used, suffix - 1);
      name := base + "-" + Dec(suffix);
      suffix := suffix + 1;
    }
    Pigeonhole(base, used, suffix - 2);
    tried := suffix - 1;
    used' := used + {name};
  }

  // ---------------------------------------------------------------------------------------------
  // Publishing a list of proxies

  ghost predicate GivenAt(ps: seq<Node>, names: seq<string>, i: nat) {
    i < |names| && i < |ps| && names[i] == NameFor(ps[i], i + 1, Elems(names[..i]))
  }

  /** `names[i]` is the name given to the i-th proxy, the unbuildable ones included. */
  ghost predicate Given(ps: seq<Node>, names: seq<string>) {
    |names| == |ps| && forall i | 0 <= i < |ps| :: GivenAt(ps, names, i)
  }

  /** The proxies that can be built, under their names. */
  function Items(ps: seq<Node>, names: seq<string>): seq<Item>
    requires |names| == |ps|
  {
    if ps == [] then []
    else
      var n := |ps| - 1;
      if ps[n].body.None? then Items(ps[..n], names[..n])
      else Items(ps[..n], names[..n]) + [Item(names[n], ps[n].body.value)]
  }

  function ItemNames(items: seq<Item>): (r: seq<string>)
    ensures |r| == |items| && forall i | 0 <= i < |r| :: r[i] == items[i].name
  {
    seq(|items|, i requires 0 <= i < |items| => items[i].name)
  }

  ghost predicate Published(ps: seq<Node>, names: seq<string>, c: Config) {
    && Given(ps, names) && c.items == Items(ps, names)
    && c.selector == if c.items == [] then [DIRECT] else ItemNames(c.items)
  }

  /** The state of the loop after `i` proxies. */
  ghost predicate Publishing(ps: seq<Node>, i: nat, given: seq<string>, used: set<string>, items: seq<Item>, names: seq<string>) {
    i <= |ps| && Given(ps[..i], given) && used == Elems(given) && items == Items(ps[..i], given) && names == ItemNames(items)
  }

  lemma {:induction false} GivenExtends(ps: seq<Node>, i: nat, given: seq<string>)
    requires i < |ps| && Given(ps[..i], given)
    ensures Given(ps[..i + 1], given + [NameFor(ps[i], i + 1, Elems(given))])
  {
    var ps', given' := ps[..i + 1], given + [NameFor(ps[i], i + 1, Elems(given))];
    forall j | 0 <= j < i ensures GivenAt(ps', given', j) {
      assert GivenAt(ps[..i], given, j);
      assert ps'[j] == ps[..i][j] && given'[..j] == given[..j];
    }
    assert given'[..i] == given;
    assert GivenAt(ps', given', i);
  }

  lemma {:induction false} ItemsStep(ps: seq<Node>, i: nat, given: seq<string>, name: string)
    requires i < |ps| && |given| == i
    ensures Items(ps[..i + 1], given + [name]) ==
            Items(ps[..i], given) + if ps[i].body.None? then [] else [Item(name, ps[i].body.value)]
  {
    assert ps[..i + 1][..i] == ps[..i] && (given + [name])[..i] == given;
  }

  lemma {:induction false} PublishingStep(ps: seq<Node>, i: nat, given: seq<string>, used: set<string>, items: seq<Item>,
                                          names: seq<string>)
    requires i < |ps| && Publishing(ps, i, given, used, items, names)
    ensures var name := NameFor(ps[i], i + 1, used);
            if ps[i].body.None? then Publishing(ps, i + 1, given + [name], used + {name}, items, names)
            else Publishing(ps, i + 1, given + [name], used + {name}, items + [Item(name, ps[i].body.value)], names + [name])
  {
    var name := NameFor(ps[i], i + 1, used);
    GivenExtends(ps, i, given);
    ItemsStep(ps, i, given, name);
    assert Elems(given + [name]) == used + {name};
    assert items + [] == items;
  }

  method Publish(ps: seq<Node>) returns (c: Config)
    ensures exists given :: Published(ps, given, c)
  {
    var items: seq<Item> := [];
    var names: seq<string> := [];
    var used: set<string> := {};
    ghost var given: seq<string> := [];
    for i := 0 to |ps|
      invariant Publishing(ps, i, given, used, items, names)
    {
      PublishingStep(ps, i, given, used, items, names);
      var name, used', _ := UniqueName(ps[i], i + 1, used);
      if ps[i].body.Some? {
        items := items + [Item(name, ps[i].body.value)];
        names := names + [name];
      }
      given, used := given + [name], used';
    }
    assert ps[..|ps|] == ps;
    c := Config(items, if names == [] then [DIRECT] else names);
    assert Published(ps, given, c);
  }

  /** No two proxies are given the same name, and each is given its base name unless that went to an earlier one. */
  lemma {:induction false} GivenNamesDistinct(ps: seq<Node>, names: seq<string>, i: nat)
    requires Given(ps, names) && i < |ps|
    ensures names[i] !in names[..i]
    ensures names[i] == Base(ps[i], i + 1) <==> Base(ps[i], i + 1) !in names[..i]
  {
    var used, base := Elems(names[..i]), Base(ps[i], i + 1);
    assert GivenAt(ps, names, i);
    assert Candidate(base, 0) == base;
    if base !in used {
      assert FirstFree(base, used, 0) == 0;
    }
  }

  /** A base name is the first 80 characters of the proxy's name, or without one of its address. */
  lemma {:induction false} BaseByFields(p: Node, idx: nat)
    ensures p.name != "" ==> Base(p, idx) <= p.name && |Base(p, idx)| == Min(80, |p.name|)
    ensures var address := (if p.host == "" then "proxy" else p.host) + (if p.port == "" then "" else ":" + p.port);
            p.name == "" ==> Base(p, idx) <= address && |Base(p, idx)| == Min(80, |address|)
  {
    var host := if p.host == "" then "proxy" else p.host;
    assert host + "" == host && host + (":" + p.port) == host + ":" + p.port;
  }

  /** A name is the base name, or that with the least number from 2 on that makes it one not given before. */
  lemma {:induction false} LeastNumber(ps: seq<Node>, names: seq<string>, i: nat)
    requires Given(ps, names) && i < |ps|
    ensures var base := Base(ps[i], i + 1);
            || names[i] == base
            || exists n: nat | n >= 2 ::
                 && names[i] == base + "-" + Dec(n) && base in names[..i]
                 && forall m: nat | 2 <= m < n :: base + "-" + Dec(m) in names[..i]
  {
    var used, base := Elems(names[..i]), Base(ps[i], i + 1);
    assert GivenAt(ps, names, i);
    var k := FirstFree(base, used, 0);
    if k > 0 {
      assert Candidate(base, 0) in used && names[i] == base + "-" + Dec(k + 1);
      forall m: nat | 2 <= m < k + 1 ensures base + "-" + Dec(m) in names[..i] {
        assert Candidate(base, m - 1) in used;
      }
    }
  }

  /** Which proxy a published item is. */
  lemma {:induction false} ItemOwner(ps: seq<Node>, names: seq<string>, a: nat) returns (i: nat)
    requires |names| == |ps| && a < |Items(ps, names)|
    ensures i < |ps| && ps[i].body == Some(Items(ps, names)[a].body) && names[i] == Items(ps, names)[a].name
    ensures a == |Items(ps[..i], names[..i])|
  {
    var n := |ps| - 1;
    if ps[n].body.Some? && a == |Items(ps[..n], names[..n])| {
      i := n;
    } else {
      i := ItemOwner(ps[..n], names[..n], a);
      assert ps[..n][..i] == ps[..i] && names[..n][..i] == names[..i];
    }
  }

  /** Every selector entry names exactly one published proxy, or is DIRECT when there is none. */
  lemma {:induction false} SelectorNamesOne(ps: seq<Node>, names: seq<string>, c: Config, k: nat)
    requires Published(ps, names, c) && k < |c.selector|
    ensures if c.items == [] then c.selector == [DIRECT]
            else
              && |c.selector| == |c.items|
              && forall a | 0 <= a < |c.items| :: c.items[a].name == c.selector[k] <==> a == k
  {
    if c.items != [] {
      var i := ItemOwner(ps, names, k);
      forall a | 0 <= a < |c.items| && a != k ensures c.items[a].name != c.items[k].name {
        var j := ItemOwner(ps, names, a);
        GivenNamesDistinct(ps, names, Max(i, j));
        assert names[Min(i, j)] in names[..Max(i, j)];
      }
    }
  }

  function IsBuildable(): Node -> bool {
    (p: Node) => p.body.Some?
  }

  /** What is published is every proxy that can be built, in order, and nothing else. */
  lemma {:induction false} PublishesTheBuildable(ps: seq<Node>, names: seq<string>)
    requires |names| == |ps|
    ensures var items, built := Items(ps, names), Filter(ps, IsBuildable());
            |items| == |built| && forall a | 0 <= a < |items| :: Some(items[a].body) == built[a].body
  {
    if ps != [] {
      var n := |ps| - 1;
      PublishesTheBuildable(ps[..n], names[..n]);
      FilterPrefix(ps, n, IsBuildable());
      assert ps[..n + 1] == ps;
    }
  }

  lemma {:induction false} PrefixGrows<T>(a: seq<T>, b: seq<T>, n: nat)
    requires n < |a| && n < |b|
    ensures a[..n + 1] == b[..n + 1] <==> a[..n] == b[..n] && a[n] == b[n]
  {
    assert a[..n + 1] == a[..n] + [a[n]] && b[..n + 1] == b[..n] + [b[n]];
  }

  lemma {:induction false} SamePrefixSameNames(ps: seq<Node>, qs: seq<Node>, names: seq<string>, names': seq<string>, n: nat)
    requires Given(ps, names) && Given(qs, names')
    requires n <= |ps| && n <= |qs| && ps[..n] == qs[..n]
    ensures names[..n] == names'[..n]
  {
    if n > 0 {
      PrefixGrows(ps, qs, n - 1);
      SamePrefixSameNames(ps, qs, names, names', n - 1);
      assert GivenAt(ps, names, n - 1) && GivenAt(qs, names', n - 1);
      PrefixGrows(names, names', n - 1);
    }
  }

  lemma {:induction false} ItemsGrow(ps: seq<Node>, names: seq<string>, m: nat)
    requires |names| == |ps| && m <= |ps|
    ensures Items(ps[..m], names[..m]) <= Items(ps, names)
  {
    if m < |ps| {
      var n := |ps| - 1;
      ItemsGrow(ps[..n], names[..n], m);
      assert ps[..n][..m] == ps[..m] && names[..n][..m] == names[..m];
    } else {
      assert ps[..m] == ps && names[..m] == names;
    }
  }

  /** The proxies determine their names and the whole configuration. */
  lemma {:induction false} PublishedUniquely(ps: seq<Node>, names: seq<string>, names': seq<string>, c: Config, c': Config)
    requires Published(ps, names, c) && Published(ps, names', c')
    ensures names == names' && c == c'
  {
    SamePrefixSameNames(ps, ps, names, names', |ps|);
    assert names[..|ps|] == names && names'[..|ps|] == names';
  }

  /** Publishing more proxies never renames the ones before them. */
  lemma {:induction false} AppendingKeepsNames(ps: seq<Node>, more: seq<Node>, names: seq<string>, names': seq<string>, c: Config,
                                               c': Config)
    requires Published(ps, names, c) && Published(ps + more, names', c')
    ensures c.items <= c'.items
  {
    var n := |ps|;
    assert (ps + more)[..n] == ps == ps[..n] && names[..n] == names;
    SamePrefixSameNames(ps, ps + more, names, names', n);
    ItemsGrow(ps + more, names', n);
  }

  // ---------------------------------------------------------------------------------------------
  // The group's own name

  lemma {:induction false} NumberedEndsInDigit(base: string, k: nat)
    requires k > 0
    ensures var c := Candidate(base, k); c != "" && IsDigit(c[|c| - 1])
  {
    var c, digits := Candidate(base, k), Dec(k + 1);
    assert c[|c| - 1] == digits[|digits| - 1] && digits[|digits| - 1] in digits;
  }

  lemma {:induction false} OnlyBaseIsGroup(base: string, k: nat)
    requires Candidate(base, k) == GROUP
    ensures k == 0 && base == GROUP
  {
    assert !IsDigit(GROUP[|GROUP| - 1]);
    if k > 0 {
      NumberedEndsInDigit(base, k);
    }
  }

  predicate BasedOnGroup(ps: seq<Node>, i: nat)
    requires i < |ps|
  {
    Base(ps[i], i + 1) == GROUP
  }

  lemma {:induction false} GroupNeedsBase(ps: seq<Node>, names: seq<string>, i: nat)
    requires Given(ps, names) && i < |ps| && names[i] == GROUP
    ensures BasedOnGroup(ps, i)
  {
    var base := Base(ps[i], i + 1);
    assert GivenAt(ps, names, i);
    OnlyBaseIsGroup(base, FirstFree(base, Elems(names[..i]), 0));
  }

  lemma {:induction false} EarlierTakesGroup(ps: seq<Node>, names: seq<string>, j: nat, i: nat)
    requires Given(ps, names) && j < i < |ps| && BasedOnGroup(ps, j)
    ensures names[i] != GROUP
  {
    GivenNamesDistinct(ps, names, j);
    GivenNamesDistinct(ps, names, i);
    assert names[..i][j] == names[j] && names[..i][..j] == names[..j];
  }

  /** The first proxy based on the group's name is the one that gets it. */
  lemma {:induction false} GroupNameGiven(ps: seq<Node>, names: seq<string>, i: nat)
    requires Given(ps, names) && i < |ps|
    ensures names[i] == GROUP <==> BasedOnGroup(ps, i) && forall j | 0 <= j < i :: !BasedOnGroup(ps, j)
  {
    GivenNamesDistinct(ps, names, i);
    forall j | 0 <= j < i && BasedOnGroup(ps, j) ensures names[i] != GROUP {
      EarlierTakesGroup(ps, names, j, i);
    }
    if names[i] == GROUP {
      GroupNeedsBase(ps, names, i);
    } else if BasedOnGroup(ps, i) {
      var k :| 0 <= k < i && names[..i][k] == GROUP;
      GroupNeedsBase(ps, names, k);
      assert BasedOnGroup(ps, k);
    }
  }

  lemma {:induction false} ItemExists(ps: seq<Node>, names: seq<string>, i: nat)
    requires |names| == |ps| && i < |ps| && ps[i].body.Some?
    ensures names[i] in ItemNames(Items(ps, names))
  {
    ItemsGrow(ps, names, i + 1);
    var m := Items(ps[..i + 1], names[..i + 1]);
    assert m[|m| - 1].name == names[i];
    assert ItemNames(Items(ps, names))[|m| - 1] == names[i];
  }

  predicate FirstOnGroup(ps: seq<Node>, i: nat)
    requires i < |ps|
  {
    BasedOnGroup(ps, i) && forall j | 0 <= j < i :: !BasedOnGroup(ps, j)
  }

  /** The select group shares its name with one of its own proxies exactly when the first proxy whose base
      name is the group's can be built. */
  lemma {:induction false} GroupShadowedExactly(ps: seq<Node>, names: seq<string>, c: Config)
    requires Published(ps, names, c)
    ensures GROUP in ItemNames(c.items) <==> exists i :: 0 <= i < |ps| && FirstOnGroup(ps, i) && ps[i].body.Some?
  {
    if GROUP in ItemNames(c.items) {
      var a :| 0 <= a < |c.items| && ItemNames(c.items)[a] == GROUP;
      var i := ItemOwner(ps, names, a);
      GroupNameGiven(ps, names, i);
      assert FirstOnGroup(ps, i);
    }
    forall i | 0 <= i < |ps| && FirstOnGroup(ps, i) && ps[i].body.Some? ensures GROUP in ItemNames(c.items) {
      GroupNameGiven(ps, names, i);
      ItemExists(ps, names, i);
    }
  }
}
