/** The bounded search over hop combinations, in the order of Python's `itertools.product`. */
module HopSearch {
  import opened Common

  function ConsAll<T>(x: T, rests: seq<seq<T>>): (r: seq<seq<T>>)
    ensures |r| == |rests|
    ensures forall i | 0 <= i < |r| :: r[i] == [x] + rests[i]
  {
    seq(|rests|, i requires 0 <= i < |rests| => [x] + rests[i])
  }

  function Prepend<T>(firsts: seq<T>, rests: seq<seq<T>>): seq<seq<T>> {
    if firsts == [] then [] else ConsAll(firsts[0], rests) + Prepend(firsts[1..], rests)
  }

  /** All ways to take one element of each group, the last position varying fastest. */
  function Product<T>(groups: seq<seq<T>>): seq<seq<T>> {
    if groups == [] then [[]] else Prepend(groups[0], Product(groups[1..]))
  }

  function TotalSize<T>(groups: seq<seq<T>>): nat {
    if groups == [] then 0 else |groups[0]| + TotalSize(groups[1..])
  }

  /** How many combinations the search looks at. */
  function MaxChecks<T>(groups: seq<seq<T>>): (cap: nat)
    ensures 1 <= cap <= 1000
  {
    Max(1, Min(1000, Max(100, TotalSize(groups) * |groups|)))
  }

  /** The first valid combination among the first `cap`. */
  function FirstValid<T>(combos: seq<seq<T>>, cap: nat, valid: seq<T> -> bool): (r: Option<nat>)
    ensures r.Some? ==> r.value < |combos| && r.value < cap && valid(combos[r.value])
    ensures r.Some? ==> forall n | 0 <= n < r.value :: !valid(combos[n])
    ensures r.None? ==> forall n | 0 <= n < |combos| && n < cap :: !valid(combos[n])
  {
    if combos == [] || cap == 0 then None
    else if valid(combos[0]) then Some(0)
    else
      var rest := FirstValid(combos[1..], cap - 1, valid);
      if rest.None? then
        assert forall n | 1 <= n < |combos| :: combos[n] == combos[1..][n - 1];
        None
      else
        assert forall n | 1 <= n < |combos| :: combos[n] == combos[1..][n - 1];
        Some(rest.value + 1)
  }

  function Search<T>(groups: seq<seq<T>>, valid: seq<T> -> bool): Option<seq<T>> {
    var found := FirstValid(Product(groups), MaxChecks(groups), valid);
    if found.None? then None else Some(Product(groups)[found.value])
  }

  // ---------------------------------------------------------------------------------------------
  // What the product enumerates

  /** `c` takes its i-th element from the i-th group. */
  predicate Combines<T(==)>(groups: seq<seq<T>>, c: seq<T>) {
    |c| == |groups| && forall i | 0 <= i < |c| :: c[i] in groups[i]
  }

  lemma {:induction false} PrependMember<T>(firsts: seq<T>, rests: seq<seq<T>>, c: seq<T>)
    ensures c in Prepend(firsts, rests) <==> c != [] && c[0] in firsts && c[1..] in rests
  {
    if firsts != [] {
      PrependMember(firsts[1..], rests, c);
      var here := ConsAll(firsts[0], rests);
      if c in here {
        var i :| 0 <= i < |here| && here[i] == c;
        assert c[1..] == rests[i];
      }
      if c != [] && c[0] == firsts[0] && c[1..] in rests {
        var i :| 0 <= i < |rests| && rests[i] == c[1..];
        assert here[i] == [c[0]] + c[1..] == c;
      }
    }
  }

  /** The product holds exactly the combinations of the groups. */
  lemma {:induction false} ProductMember<T>(groups: seq<seq<T>>, c: seq<T>)
    ensures c in Product(groups) <==> Combines(groups, c)
  {
    if groups != [] {
      ProductMember(groups[1..], if c == [] then c else c[1..]);
      PrependMember(groups[0], Product(groups[1..]), c);
      if c != [] && Combines(groups, c) {
        assert Combines(groups[1..], c[1..]);
      }
      if c != [] && c[0] in groups[0] && Combines(groups[1..], c[1..]) {
        forall i | 0 <= i < |c| ensures c[i] in groups[i] {
          if i > 0 {
            assert c[1..][i - 1] in groups[1..][i - 1];
          }
        }
      }
    } else {
      assert Product(groups) == [[]];
    }
  }

  /** `c` is `groups` read at the positions `v`. */
  predicate ReadAt<T(==)>(groups: seq<seq<T>>, v: seq<nat>, c: seq<T>) {
    && |v| == |c| == |groups|
    && forall i | 0 <= i < |v| :: v[i] < |groups[i]| && c[i] == groups[i][v[i]]
  }

  /** Positions in lexicographic order, the first hop weighing most. */
  predicate LexLess(u: seq<nat>, v: seq<nat>) {
    u != [] && v != [] && (u[0] < v[0] || (u[0] == v[0] && LexLess(u[1..], v[1..])))
  }

  function Range(n: nat): (r: seq<nat>)
    ensures |r| == n && forall i | 0 <= i < n :: r[i] == i
  {
    seq(n, i => i)
  }

  function Ranges<T>(groups: seq<seq<T>>): (r: seq<seq<nat>>)
    ensures |r| == |groups|
    ensures forall i | 0 <= i < |r| :: r[i] == Range(|groups[i]|)
  {
    seq(|groups|, i requires 0 <= i < |groups| => Range(|groups[i]|))
  }

  /** The n-th combination of a prepended list, split into its first element and the rest. */
  lemma {:induction false} PrependAt<T>(firsts: seq<T>, rests: seq<seq<T>>, n: nat) returns (i: nat, j: nat)
    requires n < |Prepend(firsts, rests)|
    ensures i < |firsts| && j < |rests| && n == i * |rests| + j
    ensures Prepend(firsts, rests)[n] == [firsts[i]] + rests[j]
  {
    if n < |rests| {
      i, j := 0, n;
    } else {
      i, j := PrependAt(firsts[1..], rests, n - |rests|);
      assert (i + 1) * |rests| == i * |rests| + |rests|;
      i := i + 1;
    }
  }

  lemma {:induction false} PrependLength<T>(firsts: seq<T>, rests: seq<seq<T>>)
    ensures |Prepend(firsts, rests)| == |firsts| * |rests|
  {
    if firsts != [] {
      PrependLength(firsts[1..], rests);
    }
  }

  /** A quotient and remainder by the same divisor are unique. */
  lemma {:induction false} SplitOrder(i: nat, j: nat, i': nat, j': nat, d: nat)
    requires j < d && j' < d
    ensures i * d + j < i' * d + j' <==> i < i' || (i == i' && j < j')
    ensures i * d + j == i' * d + j' <==> i == i' && j == j'
  {
    if i < i' {
      assert (i + 1) * d <= i' * d;
    } else if i' < i {
      assert (i' + 1) * d <= i * d;
    }
  }

  /** Position n of the product of positions names what position n of the product holds. */
  lemma {:induction false} ProductReads<T>(groups: seq<seq<T>>, n: nat)
    requires n < |Product(groups)|
    ensures |Product(Ranges(groups))| == |Product(groups)|
    ensures ReadAt(groups, Product(Ranges(groups))[n], Product(groups)[n])
  {
    if groups != [] {
      var rest, restV := Product(groups[1..]), Product(Ranges(groups[1..]));
      assert Ranges(groups)[1..] == Ranges(groups[1..]);
      PrependLength(groups[0], rest);
      PrependLength(Range(|groups[0]|), restV);
      var i, j := PrependAt(groups[0], rest, n);
      ProductReads(groups[1..], j);
      var i', j' := PrependAt(Range(|groups[0]|), restV, n);
      SplitOrder(i, j, i', j', |rest|);
      var v, c := Product(Ranges(groups))[n], Product(groups)[n];
      assert v == [i] + restV[j] && c == [groups[0][i]] + rest[j];
      forall k | 0 <= k < |v| ensures v[k] < |groups[k]| && c[k] == groups[k][v[k]] {
        if k > 0 {
          assert v[k] == restV[j][k - 1] && c[k] == rest[j][k - 1] && groups[k] == groups[1..][k - 1];
        }
      }
    }
  }

  /** The enumeration is in strict lexicographic order of positions. */
  lemma {:induction false} ProductOrdered<T>(groups: seq<seq<T>>, a: nat, b: nat)
    requires a < |Product(Ranges(groups))| && b < |Product(Ranges(groups))|
    ensures LexLess(Product(Ranges(groups))[a], Product(Ranges(groups))[b]) <==> a < b
  {
    if groups != [] {
      var first, rest := Range(|groups[0]|), Product(Ranges(groups[1..]));
      assert Ranges(groups)[1..] == Ranges(groups[1..]);
      var i, j := PrependAt(first, rest, a);
      var i', j' := PrependAt(first, rest, b);
      ProductOrdered(groups[1..], j, j');
      SplitOrder(i, j, i', j', |rest|);
      var u, v := Product(Ranges(groups))[a], Product(Ranges(groups))[b];
      assert u[1..] == rest[j] && v[1..] == rest[j'];
    }
  }

  /** Positions are a point of the product. */
  lemma {:induction false} PositionOf<T>(groups: seq<seq<T>>, v: seq<nat>, c: seq<T>) returns (n: nat)
    requires ReadAt(groups, v, c)
    ensures n < |Product(Ranges(groups))| == |Product(groups)|
    ensures Product(Ranges(groups))[n] == v && Product(groups)[n] == c
  {
    forall i | 0 <= i < |v| ensures v[i] in Ranges(groups)[i] {
      assert Ranges(groups)[i][v[i]] == v[i];
    }
    ProductMember(Ranges(groups), v);
    n :| 0 <= n < |Product(Ranges(groups))| && Product(Ranges(groups))[n] == v;
    SameLength(groups);
    ProductReads(groups, n);
    assert Product(groups)[n] == c;
  }

  lemma {:induction false} SameLength<T>(groups: seq<seq<T>>)
    ensures |Product(Ranges(groups))| == |Product(groups)|
  {
    if groups != [] {
      SameLength(groups[1..]);
      assert Ranges(groups)[1..] == Ranges(groups[1..]);
      PrependLength(groups[0], Product(groups[1..]));
      PrependLength(Range(|groups[0]|), Product(Ranges(groups[1..])));
    }
  }

  // ---------------------------------------------------------------------------------------------
  // The search

  /** A found combination is valid, is made of the groups' elements at some positions `v`, and every
      combination at lexicographically smaller positions is invalid. */
  lemma {:induction false} SearchFindsFirst<T>(groups: seq<seq<T>>, valid: seq<T> -> bool)
    requires Search(groups, valid).Some?
    ensures var c := Search(groups, valid).value;
            valid(c) && Combines(groups, c) &&
            exists v :: ReadAt(groups, v, c) && forall u, d :: ReadAt(groups, u, d) && LexLess(u, v) ==> !valid(d)
  {
    var n := FirstValid(Product(groups), MaxChecks(groups), valid).value;
    var c := Product(groups)[n];
    assert c in Product(groups);
    ProductMember(groups, c);
    ProductReads(groups, n);
    var v := Product(Ranges(groups))[n];
    forall u, d | ReadAt(groups, u, d) && LexLess(u, v) ensures !valid(d) {
      var m := PositionOf(groups, u, d);
      ProductOrdered(groups, m, n);
    }
  }

  /** Positions that part at `i`, the smaller one there being the first in order. */
  lemma {:induction false} LexLessAt(u: seq<nat>, v: seq<nat>, i: nat)
    requires i < |u| == |v| && u[..i] == v[..i] && u[i] < v[i]
    ensures LexLess(u, v)
    decreases i
  {
    if i > 0 {
      assert u[0] == u[..i][0] == v[..i][0] == v[0];
      assert u[1..][..i - 1] == u[..i][1..] && v[1..][..i - 1] == v[..i][1..];
      LexLessAt(u[1..], v[1..], i - 1);
    }
  }

  /** `x` stands in the group before every `y`. */
  ghost predicate Before<T>(group: seq<T>, x: T, y: T) {
    exists p | 0 <= p < |group| :: group[p] == x && forall q | 0 <= q < |group| && group[q] == y :: p < q
  }

  /** Positions of `d` that are `v` up to `i`, and `q` there. */
  lemma {:induction false} PositionsThrough<T>(groups: seq<seq<T>>, v: seq<nat>, c: seq<T>, d: seq<T>, i: nat, q: nat)
    returns (u: seq<nat>)
    requires ReadAt(groups, v, c) && Combines(groups, d) && i < |c| && c[..i] == d[..i]
    requires q < |groups[i]| && groups[i][q] == d[i]
    ensures ReadAt(groups, u, d) && u[..i] == v[..i] && u[i] == q
  {
    forall k | i < k < |d| ensures exists p: nat :: p < |groups[k]| && groups[k][p] == d[k] {
      assert d[k] in groups[k];
    }
    u := seq(|d|, k requires 0 <= k < |d| =>
      if k < i then v[k] else if k == i then q else var p: nat :| p < |groups[k]| && groups[k][p] == d[k]; p);
    forall k | 0 <= k < |d| ensures u[k] < |groups[k]| && d[k] == groups[k][u[k]] {
      if k < i {
        assert d[k] == d[..i][k] == c[..i][k] == c[k];
      }
    }
  }

  /** Where a found combination first differs from another valid one, it takes the earlier candidate. */
  lemma {:induction false} SearchPrefersEarlier<T>(groups: seq<seq<T>>, valid: seq<T> -> bool, d: seq<T>, i: nat)
    requires Search(groups, valid).Some? && Combines(groups, d) && valid(d)
    requires var c := Search(groups, valid).value; i < |c| == |d| && c[..i] == d[..i] && c[i] != d[i]
    ensures i < |groups| && Before(groups[i], Search(groups, valid).value[i], d[i])
  {
    var c := Search(groups, valid).value;
    SearchFindsFirst(groups, valid);
    var v :| ReadAt(groups, v, c) && forall u, e :: ReadAt(groups, u, e) && LexLess(u, v) ==> !valid(e);
    forall q: nat | q < |groups[i]| && groups[i][q] == d[i] ensures v[i] < q {
      if q < v[i] {
        var u := PositionsThrough(groups, v, c, d, i, q);
        LexLessAt(u, v, i);
      }
    }
    assert groups[i][v[i]] == c[i];
  }

  /** Nothing is found exactly when none of the first `MaxChecks` combinations is valid ... */
  lemma {:induction false} SearchCompleteToCap<T>(groups: seq<seq<T>>, valid: seq<T> -> bool)
    ensures Search(groups, valid).None? <==>
              forall n | 0 <= n < |Product(groups)| && n < MaxChecks(groups) :: !valid(Product(groups)[n])
  {
    var found := FirstValid(Product(groups), MaxChecks(groups), valid);
    if found.Some? {
      assert valid(Product(groups)[found.value]);
    }
  }

  /** ... and when there are no more combinations than that, exactly when none at all is valid. */
  lemma {:induction false} SearchComplete<T>(groups: seq<seq<T>>, valid: seq<T> -> bool)
    requires |Product(groups)| <= MaxChecks(groups)
    ensures Search(groups, valid).None? <==> forall c | Combines(groups, c) :: !valid(c)
  {
    var combos := Product(groups);
    if Search(groups, valid).None? {
      forall c | Combines(groups, c) ensures !valid(c) {
        ProductMember(groups, c);
        var n :| 0 <= n < |combos| && combos[n] == c;
      }
    } else {
      var c := Search(groups, valid).value;
      assert c in combos;
      ProductMember(groups, c);
    }
  }

  /** The search looks at every combination exactly if there are no more than a thousand, and no more than a
      hundred or than the candidates of all hops times the number of hops. */
  lemma {:induction false} LooksAtAllExactly<T>(groups: seq<seq<T>>)
    ensures |Product(groups)| <= MaxChecks(groups) <==>
              |Product(groups)| <= 1000 && (|Product(groups)| <= 100 || |Product(groups)| <= TotalSize(groups) * |groups|)
  {
  }

  /** For two hops, in numbers of candidates. */
  lemma {:induction false} TwoHopsWithinCapExactly<T>(a: seq<T>, b: seq<T>)
    ensures |Product([a, b])| <= MaxChecks([a, b]) <==>
              |a| * |b| <= 1000 && (|a| * |b| <= 100 || |a| * |b| <= 2 * (|a| + |b|))
  {
    LooksAtAllExactly([a, b]);
    assert [a, b][1..] == [b] && [b][1..] == [];
    assert TotalSize([a, b]) == |a| + |b| by { assert TotalSize([b]) == |b|; }
    PrependLength(b, [[]]);
    assert Product([b]) == Prepend(b, Product<T>([])) == Prepend(b, [[]]);
    PrependLength(a, Product([b]));
    assert |Product([a, b])| == |a| * |b|;
  }

  /** One hop of at most a thousand candidates is always searched to the end. */
  lemma {:induction false} OneHopWithinCap<T>(group: seq<T>)
    requires |group| <= 1000
    ensures |Product([group])| <= MaxChecks([group])
  {
    assert [group][1..] == [];
    assert TotalSize([group]) == |group|;
    assert Product<T>([]) == [[]];
    PrependLength(group, [[]]);
    assert Product([group]) == Prepend(group, [[]]);
  }
}
