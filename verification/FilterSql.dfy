/** Building the SQL of the proxy list and of subscription links from filters, and what that SQL selects. */
module FilterSql {
  import opened Common

  // ---------------------------------------------------------------------------------------------
  // Rows and SQL

  /** The filtered columns of table `proxies`; those that may be NULL are optional. */
  datatype Row = Row(protocol: string, source: string, country: string, city: string, available: int, fallbackKeys: string,
                     purityLevel: string, key: string, openai: Option<int>, purityCheckedAt: Option<string>,
                     latency: Option<int>, speed: Option<real>, lastChecked: Option<string>)

  datatype Value = Null | Text(text: string) | Num(num: real)

  datatype Column =
    | Protocol | Source | Country | City | Available | FallbackKeys | PurityLevel | Key
    | OpenAi | PurityCheckedAt | Latency | Speed | LastChecked

  function TextOrNull(t: Option<string>): Value {
    if t.Some? then Text(t.value) else Null
  }

  function IntOrNull(n: Option<int>): Value {
    if n.Some? then Num(n.value as real) else Null
  }

  function Cell(row: Row, column: Column): Value {
    match column
    case Protocol => Text(row.protocol)
    case Source => Text(row.source)
    case Country => Text(row.country)
    case City => Text(row.city)
    case Available => Num(row.available as real)
    case FallbackKeys => Text(row.fallbackKeys)
    case PurityLevel => Text(row.purityLevel)
    case Key => Text(row.key)
    case OpenAi => IntOrNull(row.openai)
    case PurityCheckedAt => TextOrNull(row.purityCheckedAt)
    case Latency => IntOrNull(row.latency)
    case Speed => if row.speed.Some? then Num(row.speed.value) else Null
    case LastChecked => TextOrNull(row.lastChecked)
  }

  /** What is left abstract: LIKE on a text and a pattern, the order of texts (`notBefore(a, b)`: a >= b),
      and the timestamp a number of hours ago. */
  datatype Env = Env(like: (string, string) -> bool, notBefore: (string, string) -> bool, hoursAgo: int -> string)

  datatype Truth = Yes | No | Unknown

  function Known(b: bool): Truth {
    if b then Yes else No
  }

  function And(a: Truth, b: Truth): Truth {
    if a == No || b == No then No else if a == Yes && b == Yes then Yes else Unknown
  }

  function Or(a: Truth, b: Truth): Truth {
    if a == Yes || b == Yes then Yes else if a == No && b == No then No else Unknown
  }

  function Not(a: Truth): Truth {
    match a
    case Yes => No
    case No => Yes
    case Unknown => Unknown
  }

  datatype Op = Eq | Ne | Ge | Le | Gt

  /** Is a >= b? Numbers come before texts. */
  function AtLeast(env: Env, a: Value, b: Value): bool
    requires a != Null && b != Null
  {
    match (a, b)
    case (Num(x), Num(y)) => x >= y
    case (Text(x), Text(y)) => env.notBefore(x, y)
    case (Text(_), _) => true
    case (_, _) => false
  }

  /** Comparing with NULL is neither true nor false. */
  function Compare(env: Env, op: Op, a: Value, b: Value): Truth {
    if a == Null || b == Null then Unknown
    else
      match op
      case Eq => Known(a == b)
      case Ne => Known(a != b)
      case Ge => Known(AtLeast(env, a, b))
      case Le => Known(AtLeast(env, b, a))
      case Gt => Known(!AtLeast(env, b, a))
  }

  datatype Rhs = Lit(value: Value) | Hole

  /** A condition; `Hole` and the `holes` of the list forms are positional placeholders. */
  datatype Cond =
    | Cmp(column: Column, op: Op, rhs: Rhs)
    | IsNull(column: Column)
    | NotNull(column: Column)
    | Like(column: Column)
    | InList(column: Column, holes: nat)
    | NotInList(column: Column, holes: nat)
    | Both(left: Cond, right: Cond)
    | Either(left: Cond, right: Cond)

  function Holes(c: Cond): nat {
    match c
    case Cmp(_, _, rhs) => if rhs.Hole? then 1 else 0
    case IsNull(_) => 0
    case NotNull(_) => 0
    case Like(_) => 1
    case InList(_, n) => n
    case NotInList(_, n) => n
    case Both(l, r) => Holes(l) + Holes(r)
    case Either(l, r) => Holes(l) + Holes(r)
  }

  function Member(v: Value, list: seq<Value>): Truth {
    if list == [] then No
    else if v == Null then Unknown
    else if v in list then Yes
    else if Null in list then Unknown
    else No
  }

  /** The condition on a row, its placeholders bound left to right. */
  function Eval(env: Env, c: Cond, params: seq<Value>, row: Row): Truth
    requires |params| == Holes(c)
  {
    match c
    case Cmp(column, op, rhs) => Compare(env, op, Cell(row, column), if rhs.Hole? then params[0] else rhs.value)
    case IsNull(column) => Known(Cell(row, column) == Null)
    case NotNull(column) => Known(Cell(row, column) != Null)
    case Like(column) =>
      var v := Cell(row, column);
      if v.Text? && params[0].Text? then Known(env.like(v.text, params[0].text)) else Unknown
    case InList(column, _) => Member(Cell(row, column), params)
    case NotInList(column, _) => Not(Member(Cell(row, column), params))
    case Both(l, r) => And(Eval(env, l, params[..Holes(l)], row), Eval(env, r, params[Holes(l)..], row))
    case Either(l, r) => Or(Eval(env, l, params[..Holes(l)], row), Eval(env, r, params[Holes(l)..], row))
  }

  /** The two lists a builder appends to: conditions to be joined by AND, and parameters. */
  datatype Clauses = Clauses(where: seq<Cond>, params: seq<Value>) {
    function Then(more: Clauses): Clauses {
      Clauses(where + more.where, params + more.params)
    }
  }

  function Nothing(): Clauses {
    Clauses([], [])
  }

  function One(c: Cond, params: seq<Value>): Clauses {
    Clauses([c], params)
  }

  function HolesAll(where: seq<Cond>): nat {
    if where == [] then 0 else Holes(where[0]) + HolesAll(where[1..])
  }

  function EvalAll(env: Env, where: seq<Cond>, params: seq<Value>, row: Row): Truth
    requires |params| == HolesAll(where)
  {
    if where == [] then Yes
    else
      var n := Holes(where[0]);
      And(Eval(env, where[0], params[..n], row), EvalAll(env, where[1..], params[n..], row))
  }

  /** A row is selected when every placeholder has its parameter and the WHERE clause is true of the row. */
  predicate Selects(env: Env, c: Clauses, row: Row) {
    |c.params| == HolesAll(c.where) && EvalAll(env, c.where, c.params, row) == Yes
  }

  lemma {:induction false} HolesAppend(a: seq<Cond>, b: seq<Cond>)
    ensures HolesAll(a + b) == HolesAll(a) + HolesAll(b)
  {
    if a == [] {
      assert a + b == b;
    } else {
      assert (a + b)[1..] == a[1..] + b;
      HolesAppend(a[1..], b);
    }
  }

  lemma {:induction false} EvalAppend(env: Env, a: seq<Cond>, ps: seq<Value>, b: seq<Cond>, qs: seq<Value>, row: Row)
    requires |ps| == HolesAll(a) && |qs| == HolesAll(b)
    ensures HolesAll(a + b) == |ps + qs|
    ensures EvalAll(env, a + b, ps + qs, row) == And(EvalAll(env, a, ps, row), EvalAll(env, b, qs, row))
  {
    HolesAppend(a, b);
    if a == [] {
      assert a + b == b && ps + qs == qs;
    } else {
      var n := Holes(a[0]);
      assert (a + b)[1..] == a[1..] + b;
      assert (ps + qs)[..n] == ps[..n] && (ps + qs)[n..] == ps[n..] + qs;
      EvalAppend(env, a[1..], ps[n..], b, qs, row);
    }
  }

  /** `c` selects exactly the rows with `meaning`, and binds every placeholder. */
  predicate Means(env: Env, c: Clauses, row: Row, meaning: bool) {
    |c.params| == HolesAll(c.where) && (Selects(env, c, row) <==> meaning)
  }

  lemma {:induction false} NothingMeans(env: Env, row: Row)
    ensures Means(env, Nothing(), row, true)
  {
  }

  lemma {:induction false} OneMeans(env: Env, c: Cond, params: seq<Value>, row: Row)
    requires |params| == Holes(c)
    ensures Means(env, One(c, params), row, Eval(env, c, params, row) == Yes)
  {
    assert [c][1..] == [] && HolesAll([c]) == Holes(c) + HolesAll([]);
    assert params[..Holes(c)] == params && params[Holes(c)..] == [];
    assert EvalAll(env, [c], params, row) == And(Eval(env, c, params, row), EvalAll(env, [], [], row));
  }

  lemma {:induction false} ThenMeans(env: Env, c: Clauses, d: Clauses, row: Row, m: bool, n: bool)
    requires Means(env, c, row, m) && Means(env, d, row, n)
    ensures Means(env, c.Then(d), row, m && n)
  {
    EvalAppend(env, c.where, c.params, d.where, d.params, row);
  }

  // ---------------------------------------------------------------------------------------------
  // Filters

  /** Keyword arguments of the list builder; "" stands for None in texts. */
  datatype Query = Query(protocol: string, available: Option<bool>, routeMode: string, source: string, geoFilter: string,
                         geoCountry: string, geoCountries: seq<string>, geoLocation: string, openai: string, purity: string,
                         fallback: string, latencyMin: Option<int>, latencyMax: Option<int>, speedMin: Option<real>,
                         freshness: Option<int>, excluded: seq<string>)

  function Strip(s: string): string
    decreases |s|
  {
    if s == [] then s
    else if IsSpace(s[0]) then Strip(s[1..])
    else if IsSpace(s[|s| - 1]) then Strip(s[..|s| - 1])
    else s
  }

  predicate IsSpace(c: char) {
    c == ' ' || '\t' <= c <= '\r'
  }

  /** Where the first colon is. */
  function FirstColon(s: string): (r: Option<nat>)
    ensures r.Some? ==> r.value < |s| && s[r.value] == ':' && ':' !in s[..r.value]
    ensures r.None? ==> ':' !in s
  {
    if s == [] then None
    else if s[0] == ':' then Some(0)
    else if FirstColon(s[1..]).Some? then Some(FirstColon(s[1..]).value + 1)
    else None
  }

  function Before(s: string, n: nat): string
    requires n < |s|
  {
    s[..n]
  }

  function After(s: string, n: nat): string
    requires n < |s|
  {
    s[n + 1..]
  }

  function Cut(s: string, n: nat): string {
    if |s| <= n then s else s[..n]
  }

  /** One entry of a list, stripped and cut. */
  function Clean(s: string): string {
    Cut(Strip(s), 120)
  }

  /** The list normaliser, with `out` collected so far: clean, drop empties and repeats, stop at the cap. */
  function Normalized(values: seq<string>, cap: nat, out: seq<string>): seq<string>
    decreases |values|
  {
    if values == [] || |out| >= cap then out
    else if Clean(values[0]) == "" || Clean(values[0]) in out then Normalized(values[1..], cap, out)
    else Normalized(values[1..], cap, out + [Clean(values[0])])
  }

  method NormalizeStringList(values: seq<string>, cap: nat) returns (out: seq<string>)
    requires cap > 0
    ensures out == Normalized(values, cap, [])
  {
    out := [];
    assert values[0..] == values;
    for i := 0 to |values|
      invariant Normalized(values, cap, []) == Normalized(values[i..], cap, out)
      invariant |out| < cap
    {
      assert values[i..][0] == values[i] && values[i..][1..] == values[i + 1..];
      var text := Strip(values[i]);
      if text != "" {
        text := Cut(text, 120);
        if text !in out {
          out := out + [text];
          if |out| >= cap {
            return;
          }
        }
      }
    }
  }

  predicate CleanedFrom(t: string, values: seq<string>) {
    exists i :: 0 <= i < |values| && Clean(values[i]) == t
  }

  /** The result has no repeats and no empties, at most `cap` entries, each of them a cleaned input. */
  lemma {:induction false} NormalizedIsClean(values: seq<string>, cap: nat, out: seq<string>)
    requires Distinct(out) && "" !in out && |out| <= cap
    ensures var all := Normalized(values, cap, out); out <= all && Distinct(all) && "" !in all && |all| <= cap
    ensures forall t | t in Normalized(values, cap, out) :: t in out || CleanedFrom(t, values)
    decreases |values|
  {
    if values != [] && |out| < cap {
      var text, rest := Clean(values[0]), values[1..];
      var out' := if text == "" || text in out then out else out + [text];
      NormalizedIsClean(rest, cap, out');
      forall t | t in Normalized(rest, cap, out') && t !in out ensures CleanedFrom(t, values) {
        if t in out' {
          assert Clean(values[0]) == t;
        } else {
          var i :| 0 <= i < |rest| && Clean(rest[i]) == t;
          assert Clean(values[i + 1]) == t;
        }
      }
    }
  }

  /** It leaves a non-empty input out only when the cap has been reached. */
  lemma {:induction false} NormalizedIsComplete(values: seq<string>, cap: nat, out: seq<string>, i: nat)
    requires Distinct(out) && "" !in out && |out| <= cap
    requires i < |values| && Clean(values[i]) != "" && |Normalized(values, cap, out)| < cap
    ensures Clean(values[i]) in Normalized(values, cap, out)
    decreases |values|
  {
    var text := Clean(values[0]);
    var out' := if text == "" || text in out then out else out + [text];
    NormalizedIsClean(values[1..], cap, out');
    if i > 0 {
      NormalizedIsComplete(values[1..], cap, out', i - 1);
    } else {
      var k :| 0 <= k < |out'| && out'[k] == text;
      assert Normalized(values[1..], cap, out')[k] == text;
    }
  }

  function NotDash(): string -> bool {
    (c: string) => c != "-"
  }

  function Texts(s: seq<string>): (r: seq<Value>)
    ensures |r| == |s| && forall i | 0 <= i < |s| :: r[i] == Text(s[i])
  {
    seq(|s|, i requires 0 <= i < |s| => Text(s[i]))
  }

  const RESIDENTIAL := "\U{5BB6}\U{5BBD}"
  const NON_RESIDENTIAL := "\U{975E}\U{5BB6}\U{5BBD}"
  const UNKNOWN_PURITY := "\U{672A}\U{77E5}"
  const NO_FRONTS := "[]"

  // ---------------------------------------------------------------------------------------------
  // What each filter asks for

  predicate ProtocolMatches(q: Query, row: Row) {
    q.protocol == "" || row.protocol == q.protocol
  }

  /** `only`: only available rows are wanted, should nothing else settle availability. */
  predicate AvailabilityMatches(q: Query, only: bool, row: Row) {
    if q.routeMode == "direct" then row.available == 1 && row.fallbackKeys == NO_FRONTS
    else if q.routeMode == "chain" then row.available == 1 && row.fallbackKeys != NO_FRONTS
    else if q.routeMode == "unreachable" then row.available == 0
    else if q.available.Some? then row.available == if q.available.value then 1 else 0
    else only ==> row.available == 1
  }

  /** "-" asks for no source at all. */
  predicate SourceMatches(env: Env, q: Query, row: Row) {
    q.source == "" ||
      var text := Strip(q.source); if text == "-" then row.source == "" else env.like(row.source, "%" + text + "%")
  }

  predicate GeoMatches(q: Query, row: Row) {
    && (q.geoFilter == "has" ==> row.country != "" || row.city != "")
    && (q.geoFilter == "none" ==> row.country == "" && row.city == "")
  }

  /** A list of countries goes before a single one, even if nothing is left of it once cleaned. */
  predicate CountryMatches(q: Query, row: Row) {
    if q.geoCountries != [] then
      var wanted := Normalized(q.geoCountries, 64, []);
      wanted == [] || (row.country in wanted && row.country != "-") || ("-" in wanted && row.country == "")
    else
      q.geoCountry == "" || row.country == if Strip(q.geoCountry) == "-" then "" else Strip(q.geoCountry)
  }

  predicate PartMatches(part: string, cell: string) {
    part == "" || cell == if part == "-" then "" else part
  }

  /** "country:city" asks for both, as far as given; a text without a colon for either. */
  predicate LocationMatches(q: Query, row: Row) {
    q.geoLocation == "" ||
      var text := Strip(q.geoLocation);
      var colon := FirstColon(text);
      if colon.None? then row.country == text || row.city == text
      else PartMatches(Strip(Before(text, colon.value)), row.country) && PartMatches(Strip(After(text, colon.value)), row.city)
  }

  predicate OpenAiMatches(q: Query, row: Row) {
    && (q.openai == "unlocked" ==> row.openai == Some(1))
    && (q.openai == "blocked" ==> row.openai == Some(0))
    && (q.openai == "unchecked" ==> row.openai == None)
  }

  predicate PurityMatches(q: Query, row: Row) {
    && (q.purity == "checked" ==> row.purityCheckedAt.Some?)
    && (q.purity == "unchecked" ==> row.purityCheckedAt.None?)
    && (q.purity == "residential" ==> row.purityLevel == RESIDENTIAL)
    && (q.purity == "non_residential" ==> row.purityLevel == NON_RESIDENTIAL)
    && (q.purity == "unknown" ==> row.purityLevel == UNKNOWN_PURITY)
  }

  predicate FallbackMatches(q: Query, row: Row) {
    && (q.fallback == "has" ==> row.fallbackKeys != NO_FRONTS)
    && (q.fallback == "none" ==> row.fallbackKeys == NO_FRONTS)
  }

  /** A latency or speed never measured meets no bound. */
  predicate LatencyMatches(q: Query, row: Row) {
    && (q.latencyMin.Some? && q.latencyMin.value >= 0 ==> row.latency.Some? && row.latency.value >= q.latencyMin.value)
    && (q.latencyMax.Some? && q.latencyMax.value >= 0 ==> row.latency.Some? && row.latency.value <= q.latencyMax.value)
  }

  predicate SpeedMatches(q: Query, row: Row) {
    q.speedMin.Some? && q.speedMin.value >= 0.0 ==> row.speed.Some? && row.speed.value > q.speedMin.value
  }

  predicate FreshnessMatches(env: Env, q: Query, row: Row) {
    q.freshness.Some? && q.freshness.value > 0 ==>
      row.lastChecked.Some? && env.notBefore(row.lastChecked.value, env.hoursAgo(q.freshness.value))
  }

  predicate NotExcluded(q: Query, row: Row) {
    row.key !in q.excluded
  }

  predicate CommonMatches(env: Env, q: Query, row: Row) {
    && SourceMatches(env, q, row) && GeoMatches(q, row) && CountryMatches(q, row) && LocationMatches(q, row)
    && OpenAiMatches(q, row) && PurityMatches(q, row) && FallbackMatches(q, row)
  }

  predicate MeasuredMatches(env: Env, q: Query, row: Row) {
    LatencyMatches(q, row) && SpeedMatches(q, row) && FreshnessMatches(env, q, row) && NotExcluded(q, row)
  }

  /** The rows a list query asks for. */
  predicate Matches(env: Env, q: Query, row: Row) {
    && ProtocolMatches(q, row) && AvailabilityMatches(q, false, row) && CommonMatches(env, q, row)
    && MeasuredMatches(env, q, row)
  }

  /** The rows a links query asks for. */
  predicate LinkMatches(env: Env, q: Query, only: bool, row: Row) {
    ProtocolMatches(q, row) && AvailabilityMatches(q, only, row) && CommonMatches(env, q, row)
  }

  // ---------------------------------------------------------------------------------------------
  // The clauses the builders append

  function Is(column: Column, text: string): Cond {
    Cmp(column, Eq, Lit(Text(text)))
  }

  function IsNot(column: Column, text: string): Cond {
    Cmp(column, Ne, Lit(Text(text)))
  }

  function AvailableIs(n: int): Cond {
    Cmp(Available, Eq, Lit(Num(n as real)))
  }

  function OpenAiIs(n: int): Cond {
    Cmp(OpenAi, Eq, Lit(Num(n as real)))
  }

  function Asked(column: Column, text: string): Clauses {
    One(Cmp(column, Eq, Hole), [Text(text)])
  }

  function Plain(c: Cond): Clauses {
    One(c, [])
  }

  function ProtocolClauses(q: Query): Clauses {
    if q.protocol != "" then Asked(Protocol, q.protocol) else Nothing()
  }

  function AvailabilityClauses(q: Query, only: bool): Clauses {
    if q.routeMode == "direct" then Plain(AvailableIs(1)).Then(Plain(Is(FallbackKeys, NO_FRONTS)))
    else if q.routeMode == "chain" then Plain(AvailableIs(1)).Then(Plain(IsNot(FallbackKeys, NO_FRONTS)))
    else if q.routeMode == "unreachable" then Plain(AvailableIs(0))
    else if q.available.Some? then One(Cmp(Available, Eq, Hole), [Num(if q.available.value then 1.0 else 0.0)])
    else if only then Plain(AvailableIs(1))
    else Nothing()
  }

  function SourceClauses(q: Query): Clauses {
    if q.source == "" then Nothing()
    else if Strip(q.source) == "-" then Plain(Is(Source, ""))
    else One(Like(Source), [Text("%" + Strip(q.source) + "%")])
  }

  function GeoClauses(q: Query): Clauses {
    if q.geoFilter == "has" then Plain(Either(IsNot(Country, ""), IsNot(City, "")))
    else if q.geoFilter == "none" then Plain(Both(Is(Country, ""), Is(City, "")))
    else Nothing()
  }

  /** A condition for the concrete countries, one for the unknown one, or both. */
  function CountryListClauses(wanted: seq<string>): Clauses {
    var concrete := Filter(wanted, NotDash());
    if concrete != [] && "-" in wanted then
      One(Either(InList(Country, |concrete|), Is(Country, "")), Texts(concrete))
    else if concrete != [] then One(InList(Country, |concrete|), Texts(concrete))
    else if "-" in wanted then Plain(Is(Country, ""))
    else Nothing()
  }

  function CountryClauses(q: Query): Clauses {
    if q.geoCountries != [] then CountryListClauses(Normalized(q.geoCountries, 64, []))
    else if q.geoCountry == "" then Nothing()
    else if Strip(q.geoCountry) == "-" then Plain(Is(Country, ""))
    else Asked(Country, Strip(q.geoCountry))
  }

  function PartClauses(column: Column, part: string): Clauses {
    if part == "" then Nothing() else if part == "-" then Plain(Is(column, "")) else Asked(column, part)
  }

  function LocationClauses(q: Query): Clauses {
    if q.geoLocation == "" then Nothing()
    else
      var text := Strip(q.geoLocation);
      var colon := FirstColon(text);
      if colon.None? then
        One(Either(Cmp(Country, Eq, Hole), Cmp(City, Eq, Hole)), [Text(text), Text(text)])
      else
        PartClauses(Country, Strip(Before(text, colon.value))).Then(PartClauses(City, Strip(After(text, colon.value))))
  }

  function OpenAiClauses(q: Query): Clauses {
    if q.openai == "unlocked" then Plain(OpenAiIs(1))
    else if q.openai == "blocked" then Plain(OpenAiIs(0))
    else if q.openai == "unchecked" then Plain(IsNull(OpenAi))
    else Nothing()
  }

  function PurityClauses(q: Query): Clauses {
    if q.purity == "checked" then Plain(NotNull(PurityCheckedAt))
    else if q.purity == "unchecked" then Plain(IsNull(PurityCheckedAt))
    else if q.purity == "residential" then Plain(Is(PurityLevel, RESIDENTIAL))
    else if q.purity == "non_residential" then Plain(Is(PurityLevel, NON_RESIDENTIAL))
    else if q.purity == "unknown" then Plain(Is(PurityLevel, UNKNOWN_PURITY))
    else Nothing()
  }

  function FallbackClauses(q: Query): Clauses {
    if q.fallback == "has" then Plain(IsNot(FallbackKeys, NO_FRONTS))
    else if q.fallback == "none" then Plain(Is(FallbackKeys, NO_FRONTS))
    else Nothing()
  }

  function BoundClauses(op: Op, bound: Option<int>): Clauses {
    if bound.Some? && bound.value >= 0 then One(Cmp(Latency, op, Hole), [Num(bound.value as real)]) else Nothing()
  }

  function SpeedClauses(q: Query): Clauses {
    if q.speedMin.Some? && q.speedMin.value >= 0.0 then
      Plain(NotNull(Speed)).Then(One(Cmp(Speed, Gt, Hole), [Num(q.speedMin.value)]))
    else Nothing()
  }

  function FreshnessClauses(env: Env, q: Query): Clauses {
    if q.freshness.Some? && q.freshness.value > 0 then
      One(Cmp(LastChecked, Ge, Hole), [Text(env.hoursAgo(q.freshness.value))])
    else Nothing()
  }

  function ExcludedClauses(q: Query): Clauses {
    if q.excluded != [] then One(NotInList(Key, |q.excluded|), Texts(q.excluded)) else Nothing()
  }

  function CommonOnto(base: Clauses, q: Query): Clauses {
    base.Then(SourceClauses(q)).Then(GeoClauses(q)).Then(CountryClauses(q)).Then(LocationClauses(q))
        .Then(OpenAiClauses(q)).Then(PurityClauses(q)).Then(FallbackClauses(q))
  }

  function MeasuredOnto(env: Env, base: Clauses, q: Query): Clauses {
    base.Then(BoundClauses(Ge, q.latencyMin)).Then(BoundClauses(Le, q.latencyMax)).Then(SpeedClauses(q))
        .Then(FreshnessClauses(env, q)).Then(ExcludedClauses(q))
  }

  function ListClauses(env: Env, q: Query): Clauses {
    MeasuredOnto(env, CommonOnto(Nothing().Then(ProtocolClauses(q)).Then(AvailabilityClauses(q, false)), q), q)
  }

  function LinkClauses(q: Query, only: bool): Clauses {
    CommonOnto(Nothing().Then(AvailabilityClauses(q, only)).Then(ProtocolClauses(q)), q)
  }

  // ---------------------------------------------------------------------------------------------
  // Each group of clauses means its filter

  lemma {:induction false} ProtocolMeans(env: Env, q: Query, row: Row)
    ensures Means(env, ProtocolClauses(q), row, ProtocolMatches(q, row))
  {
    if q.protocol != "" {
      OneMeans(env, Cmp(Protocol, Eq, Hole), [Text(q.protocol)], row);
    }
  }

  lemma {:induction false} AvailabilityMeans(env: Env, q: Query, only: bool, row: Row)
    ensures Means(env, AvailabilityClauses(q, only), row, AvailabilityMatches(q, only, row))
  {
    OneMeans(env, AvailableIs(1), [], row);
    OneMeans(env, AvailableIs(0), [], row);
    if q.routeMode == "direct" {
      OneMeans(env, Is(FallbackKeys, NO_FRONTS), [], row);
      ThenMeans(env, Plain(AvailableIs(1)), Plain(Is(FallbackKeys, NO_FRONTS)), row,
                row.available == 1, row.fallbackKeys == NO_FRONTS);
    } else if q.routeMode == "chain" {
      OneMeans(env, IsNot(FallbackKeys, NO_FRONTS), [], row);
      ThenMeans(env, Plain(AvailableIs(1)), Plain(IsNot(FallbackKeys, NO_FRONTS)), row,
                row.available == 1, row.fallbackKeys != NO_FRONTS);
    } else if q.routeMode != "unreachable" && q.available.Some? {
      OneMeans(env, Cmp(Available, Eq, Hole), [Num(if q.available.value then 1.0 else 0.0)], row);
    }
  }

  lemma {:induction false} SourceMeans(env: Env, q: Query, row: Row)
    ensures Means(env, SourceClauses(q), row, SourceMatches(env, q, row))
  {
    if q.source != "" {
      OneMeans(env, Is(Source, ""), [], row);
      OneMeans(env, Like(Source), [Text("%" + Strip(q.source) + "%")], row);
    }
  }

  lemma {:induction false} GeoMeans(env: Env, q: Query, row: Row)
    ensures Means(env, GeoClauses(q), row, GeoMatches(q, row))
  {
    var none: seq<Value> := [];
    assert none[..0] == none && none[0..] == none;
    assert Eval(env, IsNot(Country, ""), none, row) == Known(row.country != "");
    assert Eval(env, IsNot(City, ""), none, row) == Known(row.city != "");
    assert Eval(env, Is(Country, ""), none, row) == Known(row.country == "");
    assert Eval(env, Is(City, ""), none, row) == Known(row.city == "");
    OneMeans(env, Either(IsNot(Country, ""), IsNot(City, "")), [], row);
    OneMeans(env, Both(Is(Country, ""), Is(City, "")), [], row);
  }

  lemma {:induction false} ListMember(list: seq<string>, text: string)
    requires list != []
    ensures Member(Text(text), Texts(list)) == Known(text in list)
  {
    if text in list {
      var i :| 0 <= i < |list| && list[i] == text;
      assert Texts(list)[i] == Text(text);
    }
  }

  lemma {:induction false} CountryListMeans(env: Env, wanted: seq<string>, row: Row)
    ensures Means(env, CountryListClauses(wanted), row,
                  wanted == [] || (row.country in wanted && row.country != "-") || ("-" in wanted && row.country == ""))
  {
    var concrete := Filter(wanted, NotDash());
    assert row.country in concrete <==> row.country in wanted && row.country != "-";
    OneMeans(env, Is(Country, ""), [], row);
    if concrete != [] {
      ListMember(concrete, row.country);
      var params := Texts(concrete);
      OneMeans(env, InList(Country, |concrete|), params, row);
      assert params[..|concrete|] == params && params[|concrete|..] == [];
      OneMeans(env, Either(InList(Country, |concrete|), Is(Country, "")), params, row);
    } else if wanted != [] {
      assert wanted[0] !in concrete;
    }
  }

  lemma {:induction false} CountryMeans(env: Env, q: Query, row: Row)
    ensures Means(env, CountryClauses(q), row, CountryMatches(q, row))
  {
    CountryListMeans(env, Normalized(q.geoCountries, 64, []), row);
    OneMeans(env, Is(Country, ""), [], row);
    OneMeans(env, Cmp(Country, Eq, Hole), [Text(Strip(q.geoCountry))], row);
  }

  lemma {:induction false} PartMeans(env: Env, column: Column, part: string, row: Row)
    requires column == Country || column == City
    ensures Means(env, PartClauses(column, part), row, PartMatches(part, if column == Country then row.country else row.city))
  {
    OneMeans(env, Is(column, ""), [], row);
    OneMeans(env, Cmp(column, Eq, Hole), [Text(part)], row);
  }

  lemma {:induction false} LocationMeans(env: Env, q: Query, row: Row)
    ensures Means(env, LocationClauses(q), row, LocationMatches(q, row))
  {
    if q.geoLocation != "" {
      var text := Strip(q.geoLocation);
      var colon := FirstColon(text);
      if colon.None? {
        var params := [Text(text), Text(text)];
        assert params[..1] == [Text(text)] && params[1..] == [Text(text)];
        assert Eval(env, Cmp(Country, Eq, Hole), [Text(text)], row) == Known(row.country == text);
        assert Eval(env, Cmp(City, Eq, Hole), [Text(text)], row) == Known(row.city == text);
        OneMeans(env, Either(Cmp(Country, Eq, Hole), Cmp(City, Eq, Hole)), params, row);
      } else {
        var country, city := Strip(Before(text, colon.value)), Strip(After(text, colon.value));
        PartMeans(env, Country, country, row);
        PartMeans(env, City, city, row);
        ThenMeans(env, PartClauses(Country, country), PartClauses(City, city), row,
                  PartMatches(country, row.country), PartMatches(city, row.city));
      }
    }
  }

  lemma {:induction false} OpenAiMeans(env: Env, q: Query, row: Row)
    ensures Means(env, OpenAiClauses(q), row, OpenAiMatches(q, row))
  {
    OneMeans(env, OpenAiIs(1), [], row);
    OneMeans(env, OpenAiIs(0), [], row);
    OneMeans(env, IsNull(OpenAi), [], row);
  }

  lemma {:induction false} PurityMeans(env: Env, q: Query, row: Row)
    ensures Means(env, PurityClauses(q), row, PurityMatches(q, row))
  {
    OneMeans(env, NotNull(PurityCheckedAt), [], row);
    OneMeans(env, IsNull(PurityCheckedAt), [], row);
    OneMeans(env, Is(PurityLevel, RESIDENTIAL), [], row);
    OneMeans(env, Is(PurityLevel, NON_RESIDENTIAL), [], row);
    OneMeans(env, Is(PurityLevel, UNKNOWN_PURITY), [], row);
  }

  lemma {:induction false} FallbackMeans(env: Env, q: Query, row: Row)
    ensures Means(env, FallbackClauses(q), row, FallbackMatches(q, row))
  {
    OneMeans(env, IsNot(FallbackKeys, NO_FRONTS), [], row);
    OneMeans(env, Is(FallbackKeys, NO_FRONTS), [], row);
  }

  lemma {:induction false} BoundMeans(env: Env, bound: Option<int>, row: Row)
    ensures Means(env, BoundClauses(Ge, bound), row,
                  bound.Some? && bound.value >= 0 ==> row.latency.Some? && row.latency.value >= bound.value)
    ensures Means(env, BoundClauses(Le, bound), row,
                  bound.Some? && bound.value >= 0 ==> row.latency.Some? && row.latency.value <= bound.value)
  {
    if bound.Some? {
      OneMeans(env, Cmp(Latency, Ge, Hole), [Num(bound.value as real)], row);
      OneMeans(env, Cmp(Latency, Le, Hole), [Num(bound.value as real)], row);
    }
  }

  lemma {:induction false} SpeedMeans(env: Env, q: Query, row: Row)
    ensures Means(env, SpeedClauses(q), row, SpeedMatches(q, row))
  {
    if q.speedMin.Some? {
      OneMeans(env, NotNull(Speed), [], row);
      OneMeans(env, Cmp(Speed, Gt, Hole), [Num(q.speedMin.value)], row);
      ThenMeans(env, Plain(NotNull(Speed)), One(Cmp(Speed, Gt, Hole), [Num(q.speedMin.value)]), row,
                row.speed.Some?, row.speed.Some? && row.speed.value > q.speedMin.value);
    }
  }

  lemma {:induction false} FreshnessMeans(env: Env, q: Query, row: Row)
    ensures Means(env, FreshnessClauses(env, q), row, FreshnessMatches(env, q, row))
  {
    if q.freshness.Some? {
      OneMeans(env, Cmp(LastChecked, Ge, Hole), [Text(env.hoursAgo(q.freshness.value))], row);
    }
  }

  lemma {:induction false} ExcludedMeans(env: Env, q: Query, row: Row)
    ensures Means(env, ExcludedClauses(q), row, NotExcluded(q, row))
  {
    if q.excluded != [] {
      ListMember(q.excluded, row.key);
      OneMeans(env, NotInList(Key, |q.excluded|), Texts(q.excluded), row);
    }
  }

  lemma {:induction false} CommonMeans(env: Env, base: Clauses, q: Query, row: Row, m: bool)
    requires Means(env, base, row, m)
    ensures Means(env, CommonOnto(base, q), row, m && CommonMatches(env, q, row))
  {
    SourceMeans(env, q, row);
    GeoMeans(env, q, row);
    CountryMeans(env, q, row);
    LocationMeans(env, q, row);
    OpenAiMeans(env, q, row);
    PurityMeans(env, q, row);
    FallbackMeans(env, q, row);
    var c1, m1 := base.Then(SourceClauses(q)), m && SourceMatches(env, q, row);
    ThenMeans(env, base, SourceClauses(q), row, m, SourceMatches(env, q, row));
    var c2, m2 := c1.Then(GeoClauses(q)), m1 && GeoMatches(q, row);
    ThenMeans(env, c1, GeoClauses(q), row, m1, GeoMatches(q, row));
    var c3, m3 := c2.Then(CountryClauses(q)), m2 && CountryMatches(q, row);
    ThenMeans(env, c2, CountryClauses(q), row, m2, CountryMatches(q, row));
    var c4, m4 := c3.Then(LocationClauses(q)), m3 && LocationMatches(q, row);
    ThenMeans(env, c3, LocationClauses(q), row, m3, LocationMatches(q, row));
    var c5, m5 := c4.Then(OpenAiClauses(q)), m4 && OpenAiMatches(q, row);
    ThenMeans(env, c4, OpenAiClauses(q), row, m4, OpenAiMatches(q, row));
    var c6, m6 := c5.Then(PurityClauses(q)), m5 && PurityMatches(q, row);
    ThenMeans(env, c5, PurityClauses(q), row, m5, PurityMatches(q, row));
    ThenMeans(env, c6, FallbackClauses(q), row, m6, FallbackMatches(q, row));
  }

  lemma {:induction false} MeasuredMeans(env: Env, base: Clauses, q: Query, row: Row, m: bool)
    requires Means(env, base, row, m)
    ensures Means(env, MeasuredOnto(env, base, q), row, m && MeasuredMatches(env, q, row))
  {
    BoundMeans(env, q.latencyMin, row);
    BoundMeans(env, q.latencyMax, row);
    SpeedMeans(env, q, row);
    FreshnessMeans(env, q, row);
    ExcludedMeans(env, q, row);
    var atLeast := q.latencyMin.Some? && q.latencyMin.value >= 0 ==> row.latency.Some? && row.latency.value >= q.latencyMin.value;
    var atMost := q.latencyMax.Some? && q.latencyMax.value >= 0 ==> row.latency.Some? && row.latency.value <= q.latencyMax.value;
    var c1 := base.Then(BoundClauses(Ge, q.latencyMin));
    ThenMeans(env, base, BoundClauses(Ge, q.latencyMin), row, m, atLeast);
    var c2, m2 := c1.Then(BoundClauses(Le, q.latencyMax)), m && atLeast && atMost;
    ThenMeans(env, c1, BoundClauses(Le, q.latencyMax), row, m && atLeast, atMost);
    var c3, m3 := c2.Then(SpeedClauses(q)), m2 && SpeedMatches(q, row);
    ThenMeans(env, c2, SpeedClauses(q), row, m2, SpeedMatches(q, row));
    var c4, m4 := c3.Then(FreshnessClauses(env, q)), m3 && FreshnessMatches(env, q, row);
    ThenMeans(env, c3, FreshnessClauses(env, q), row, m3, FreshnessMatches(env, q, row));
    ThenMeans(env, c4, ExcludedClauses(q), row, m4, NotExcluded(q, row));
  }

  /** The list builder's WHERE clause, its placeholders bound in order, selects exactly the rows asked for. */
  lemma {:induction false} ListSelectsExactly(env: Env, q: Query, row: Row)
    ensures Means(env, ListClauses(env, q), row, Matches(env, q, row))
  {
    ProtocolMeans(env, q, row);
    AvailabilityMeans(env, q, false, row);
    NothingMeans(env, row);
    var c1, m1 := Nothing().Then(ProtocolClauses(q)), ProtocolMatches(q, row);
    ThenMeans(env, Nothing(), ProtocolClauses(q), row, true, m1);
    var c2, m2 := c1.Then(AvailabilityClauses(q, false)), m1 && AvailabilityMatches(q, false, row);
    ThenMeans(env, c1, AvailabilityClauses(q, false), row, m1, AvailabilityMatches(q, false, row));
    CommonMeans(env, c2, q, row, m2);
    MeasuredMeans(env, CommonOnto(c2, q), q, row, m2 && CommonMatches(env, q, row));
  }

  /** So does the links builder's. */
  lemma {:induction false} LinksSelectExactly(env: Env, q: Query, only: bool, row: Row)
    ensures Means(env, LinkClauses(q, only), row, LinkMatches(env, q, only, row))
  {
    ProtocolMeans(env, q, row);
    AvailabilityMeans(env, q, only, row);
    NothingMeans(env, row);
    var c1, m1 := Nothing().Then(AvailabilityClauses(q, only)), AvailabilityMatches(q, only, row);
    ThenMeans(env, Nothing(), AvailabilityClauses(q, only), row, true, m1);
    var c2, m2 := c1.Then(ProtocolClauses(q)), m1 && ProtocolMatches(q, row);
    ThenMeans(env, c1, ProtocolClauses(q), row, m1, ProtocolMatches(q, row));
    CommonMeans(env, c2, q, row, m2);
  }

  // ---------------------------------------------------------------------------------------------
  // The builders

  lemma {:induction false} ThenNothing(c: Clauses)
    ensures c.Then(Nothing()) == c
  {
    assert c.where + [] == c.where && c.params + [] == c.params;
  }

  lemma {:induction false} ThenThen(a: Clauses, b: Clauses, c: Clauses)
    ensures a.Then(b).Then(c) == a.Then(b.Then(c))
  {
    assert (a.where + b.where) + c.where == a.where + (b.where + c.where);
    assert (a.params + b.params) + c.params == a.params + (b.params + c.params);
  }

  class Builder {
    var where: seq<Cond>
    var params: seq<Value>

    function Built(): Clauses
      reads this
    {
      Clauses(where, params)
    }

    constructor ()
      ensures Built() == Nothing()
    {
      where, params := [], [];
    }

    method Append(c: Cond, ps: seq<Value>)
      modifies this
      ensures Built() == old(Built()).Then(One(c, ps))
    {
      where := where + [c];
      params := params + ps;
    }

    method AddProtocol(q: Query)
      modifies this
      ensures Built() == old(Built()).Then(ProtocolClauses(q))
    {
      ThenNothing(Built());
      if q.protocol != "" {
        Append(Cmp(Protocol, Eq, Hole), [Text(q.protocol)]);
      }
    }

    method AddAvailability(q: Query, only: bool)
      modifies this
      ensures Built() == old(Built()).Then(AvailabilityClauses(q, only))
    {
      ThenNothing(Built());
      if q.routeMode == "direct" {
        ThenThen(Built(), Plain(AvailableIs(1)), Plain(Is(FallbackKeys, NO_FRONTS)));
        Append(AvailableIs(1), []);
        Append(Is(FallbackKeys, NO_FRONTS), []);
      } else if q.routeMode == "chain" {
        ThenThen(Built(), Plain(AvailableIs(1)), Plain(IsNot(FallbackKeys, NO_FRONTS)));
        Append(AvailableIs(1), []);
        Append(IsNot(FallbackKeys, NO_FRONTS), []);
      } else if q.routeMode == "unreachable" {
        Append(AvailableIs(0), []);
      } else if q.available.Some? {
        Append(Cmp(Available, Eq, Hole), [Num(if q.available.value then 1.0 else 0.0)]);
      } else if only {
        Append(AvailableIs(1), []);
      }
    }

    method AddSource(q: Query)
      modifies this
      ensures Built() == old(Built()).Then(SourceClauses(q))
    {
      ThenNothing(Built());
      if q.source != "" {
        var text := Strip(q.source);
        if text == "-" {
          Append(Is(Source, ""), []);
        } else {
          Append(Like(Source), [Text("%" + text + "%")]);
        }
      }
    }

    method AddGeo(q: Query)
      modifies this
      ensures Built() == old(Built()).Then(GeoClauses(q))
    {
      ThenNothing(Built());
      if q.geoFilter == "has" {
        Append(Either(IsNot(Country, ""), IsNot(City, "")), []);
      } else if q.geoFilter == "none" {
        Append(Both(Is(Country, ""), Is(City, "")), []);
      }
    }

    method AddCountryList(wanted: seq<string>)
      modifies this
      ensures Built() == old(Built()).Then(CountryListClauses(wanted))
    {
      ThenNothing(Built());
      var concrete := Filter(wanted, NotDash());
      var clause: Option<Cond> := None;
      if concrete != [] {
        clause := Some(InList(Country, |concrete|));
      }
      if "-" in wanted {
        clause := Some(if clause.Some? then Either(clause.value, Is(Country, "")) else Is(Country, ""));
      }
      if clause.Some? {
        Append(clause.value, Texts(concrete));
      }
    }

    method AddCountry(q: Query)
      modifies this
      ensures Built() == old(Built()).Then(CountryClauses(q))
    {
      ThenNothing(Built());
      if q.geoCountries != [] {
        var wanted := NormalizeStringList(q.geoCountries, 64);
        AddCountryList(wanted);
      } else if q.geoCountry != "" {
        var text := Strip(q.geoCountry);
        if text == "-" {
          Append(Is(Country, ""), []);
        } else {
          Append(Cmp(Country, Eq, Hole), [Text(text)]);
        }
      }
    }

    method AddPart(column: Column, part: string)
      modifies this
      ensures Built() == old(Built()).Then(PartClauses(column, part))
    {
      ThenNothing(Built());
      if part != "" && part != "-" {
        Append(Cmp(column, Eq, Hole), [Text(part)]);
      } else if part == "-" {
        Append(Is(column, ""), []);
      }
    }

    method AddLocation(q: Query)
      modifies this
      ensures Built() == old(Built()).Then(LocationClauses(q))
    {
      ThenNothing(Built());
      if q.geoLocation != "" {
        var text := Strip(q.geoLocation);
        var colon := FirstColon(text);
        if colon.Some? {
          var country, city := Strip(Before(text, colon.value)), Strip(After(text, colon.value));
          ThenThen(Built(), PartClauses(Country, country), PartClauses(City, city));
          AddPart(Country, country);
          AddPart(City, city);
        } else {
          Append(Either(Cmp(Country, Eq, Hole), Cmp(City, Eq, Hole)), [Text(text), Text(text)]);
        }
      }
    }

    method AddOpenAi(q: Query)
      modifies this
      ensures Built() == old(Built()).Then(OpenAiClauses(q))
    {
      ThenNothing(Built());
      if q.openai == "unlocked" {
        Append(OpenAiIs(1), []);
      } else if q.openai == "blocked" {
        Append(OpenAiIs(0), []);
      } else if q.openai == "unchecked" {
        Append(IsNull(OpenAi), []);
      }
    }

    method AddPurity(q: Query)
      modifies this
      ensures Built() == old(Built()).Then(PurityClauses(q))
    {
      ThenNothing(Built());
      if q.purity == "checked" {
        Append(NotNull(PurityCheckedAt), []);
      } else if q.purity == "unchecked" {
        Append(IsNull(PurityCheckedAt), []);
      } else if q.purity == "residential" {
        Append(Is(PurityLevel, RESIDENTIAL), []);
      } else if q.purity == "non_residential" {
        Append(Is(PurityLevel, NON_RESIDENTIAL), []);
      } else if q.purity == "unknown" {
        Append(Is(PurityLevel, UNKNOWN_PURITY), []);
      }
    }

    method AddFallback(q: Query)
      modifies this
      ensures Built() == old(Built()).Then(FallbackClauses(q))
    {
      ThenNothing(Built());
      if q.fallback == "has" {
        Append(IsNot(FallbackKeys, NO_FRONTS), []);
      } else if q.fallback == "none" {
        Append(Is(FallbackKeys, NO_FRONTS), []);
      }
    }

    /** The filters only the list builder has. */
    method AddMeasured(env: Env, q: Query)
      modifies this
      ensures Built() == MeasuredOnto(env, old(Built()), q)
    {
      AddBound(Ge, q.latencyMin);
      AddBound(Le, q.latencyMax);
      AddSpeed(q);
      AddFreshness(env, q);
      AddExcluded(q);
    }

    /** The filters both builders share, in the order they are appended. */
    method AddCommon(q: Query)
      modifies this
      ensures Built() == CommonOnto(old(Built()), q)
    {
      AddSource(q);
      AddGeo(q);
      AddCountry(q);
      AddLocation(q);
      AddOpenAi(q);
      AddPurity(q);
      AddFallback(q);
    }

    method AddBound(op: Op, bound: Option<int>)
      modifies this
      ensures Built() == old(Built()).Then(BoundClauses(op, bound))
    {
      ThenNothing(Built());
      if bound.Some? && bound.value >= 0 {
        Append(Cmp(Latency, op, Hole), [Num(bound.value as real)]);
      }
    }

    method AddSpeed(q: Query)
      modifies this
      ensures Built() == old(Built()).Then(SpeedClauses(q))
    {
      ThenNothing(Built());
      if q.speedMin.Some? && q.speedMin.value >= 0.0 {
        ThenThen(Built(), Plain(NotNull(Speed)), One(Cmp(Speed, Gt, Hole), [Num(q.speedMin.value)]));
        Append(NotNull(Speed), []);
        Append(Cmp(Speed, Gt, Hole), [Num(q.speedMin.value)]);
      }
    }

    method AddFreshness(env: Env, q: Query)
      modifies this
      ensures Built() == old(Built()).Then(FreshnessClauses(env, q))
    {
      ThenNothing(Built());
      if q.freshness.Some? && q.freshness.value > 0 {
        Append(Cmp(LastChecked, Ge, Hole), [Text(env.hoursAgo(q.freshness.value))]);
      }
    }

    method AddExcluded(q: Query)
      modifies this
      ensures Built() == old(Built()).Then(ExcludedClauses(q))
    {
      ThenNothing(Built());
      if q.excluded != [] {
        Append(NotInList(Key, |q.excluded|), Texts(q.excluded));
      }
    }
  }

  /** The statement of the list query: its conditions, and its parameters with LIMIT and OFFSET last. */
  method BuildListQuery(env: Env, q: Query, limit: int, offset: int) returns (where: seq<Cond>, params: seq<Value>)
    ensures where == ListClauses(env, q).where
    ensures params == ListClauses(env, q).params + [Num(limit as real), Num(offset as real)]
  {
    var b := new Builder();
    b.AddProtocol(q);
    b.AddAvailability(q, false);
    b.AddCommon(q);
    b.AddMeasured(env, q);
    return b.where, b.params + [Num(limit as real), Num(offset as real)];
  }

  /** The statement of the links query, with LIMIT last. */
  method BuildLinkQuery(q: Query, only: bool, limit: int) returns (where: seq<Cond>, params: seq<Value>)
    ensures where == LinkClauses(q, only).where
    ensures params == LinkClauses(q, only).params + [Num(limit as real)]
  {
    var b := new Builder();
    b.AddAvailability(q, only);
    b.AddProtocol(q);
    b.AddCommon(q);
    return b.where, b.params + [Num(limit as real)];
  }

  // ---------------------------------------------------------------------------------------------
  // Published subscriptions

  /** Filters as stored: a missing key reads as "". */
  type Filters = map<string, string>

  function Get(f: Filters, key: string): string {
    if key in f then Strip(f[key]) else ""
  }

  function AvailableOf(f: Filters): Option<bool> {
    var route, text := Get(f, "route_mode_filter"), Get(f, "available");
    if route == "direct" || route == "chain" then Some(true)
    else if route == "unreachable" then Some(false)
    else if text == "true" then Some(true)
    else if text == "false" then Some(false)
    else None
  }

  function FallbackOf(f: Filters): string {
    var route := Get(f, "route_mode_filter");
    if route == "direct" then "none"
    else if route == "chain" then "has"
    else if route == "unreachable" then ""
    else Get(f, "fallback_front_filter")
  }

  function ListArguments(f: Filters): Query {
    Query(Get(f, "protocol"), AvailableOf(f), Get(f, "route_mode_filter"), Get(f, "source"), Get(f, "geo_filter"),
          Get(f, "geo_country"), [], Get(f, "geo_location"), Get(f, "openai_filter"), Get(f, "ip_purity_filter"),
          FallbackOf(f), None, None, None, None, [])
  }

  /** The links take the same arguments, and want only available proxies unless unavailable ones are asked for. */
  function OnlyAvailable(f: Filters): bool {
    ListArguments(f).available != Some(false)
  }

  predicate PublishedProxy(env: Env, f: Filters, row: Row) {
    Selects(env, ListClauses(env, ListArguments(f)), row)
  }

  predicate PublishedLink(env: Env, f: Filters, row: Row) {
    Selects(env, LinkClauses(ListArguments(f), OnlyAvailable(f)), row)
  }

  /** Do the filters themselves settle whether proxies must be available? */
  predicate SettlesAvailability(f: Filters) {
    Get(f, "route_mode_filter") in {"direct", "chain", "unreachable"} || Get(f, "available") in {"true", "false"}
  }

  lemma {:induction false} AvailabilitySettled(f: Filters, row: Row)
    ensures AvailabilityMatches(ListArguments(f), OnlyAvailable(f), row) <==>
              AvailabilityMatches(ListArguments(f), false, row) && (SettlesAvailability(f) || row.available == 1)
  {
  }

  lemma {:induction false} NothingMeasured(env: Env, f: Filters, row: Row)
    ensures MeasuredMatches(env, ListArguments(f), row)
  {
  }

  /** For any stored filters, links are published of exactly the published proxies, of only the available
      ones among them when the filters leave availability open. */
  lemma {:induction false} LinksAreProxies(env: Env, f: Filters, row: Row)
    ensures PublishedLink(env, f, row) <==> PublishedProxy(env, f, row) && (SettlesAvailability(f) || row.available == 1)
  {
    ListSelectsExactly(env, ListArguments(f), row);
    LinksSelectExactly(env, ListArguments(f), OnlyAvailable(f), row);
    AvailabilitySettled(f, row);
    NothingMeasured(env, f, row);
  }

  /** What stored filters ask of a row's route and availability: a route mode goes before the other two filters. */
  predicate RouteAskedFor(f: Filters, row: Row) {
    var route, available, fallback := Get(f, "route_mode_filter"), Get(f, "available"), Get(f, "fallback_front_filter");
    if route == "direct" then row.available == 1 && row.fallbackKeys == NO_FRONTS
    else if route == "chain" then row.available == 1 && row.fallbackKeys != NO_FRONTS
    else if route == "unreachable" then row.available == 0
    else
      && (available == "true" ==> row.available == 1) && (available == "false" ==> row.available == 0)
      && (fallback == "has" ==> row.fallbackKeys != NO_FRONTS) && (fallback == "none" ==> row.fallbackKeys == NO_FRONTS)
  }

  /** What they ask of its origin and place. */
  predicate PlaceAskedFor(env: Env, f: Filters, row: Row) {
    var source, geo, country, place := Get(f, "source"), Get(f, "geo_filter"), Get(f, "geo_country"), Get(f, "geo_location");
    && (source == "-" ==> row.source == "")
    && (source !in {"", "-"} ==> env.like(row.source, "%" + source + "%"))
    && (geo == "has" ==> row.country != "" || row.city != "") && (geo == "none" ==> row.country == "" && row.city == "")
    && (country == "-" ==> row.country == "") && (country !in {"", "-"} ==> row.country == country)
    && (place != "" ==>
          match FirstColon(place)
          case None => row.country == place || row.city == place
          case Some(n) => PartMatches(Strip(Before(place, n)), row.country) && PartMatches(Strip(After(place, n)), row.city))
  }

  /** What they ask of its protocol and of the checks made on it. */
  predicate ChecksAskedFor(f: Filters, row: Row) {
    var protocol, openai, purity := Get(f, "protocol"), Get(f, "openai_filter"), Get(f, "ip_purity_filter");
    && (protocol != "" ==> row.protocol == protocol)
    && (openai == "unlocked" ==> row.openai == Some(1)) && (openai == "blocked" ==> row.openai == Some(0))
    && (openai == "unchecked" ==> row.openai == None)
    && (purity == "checked" ==> row.purityCheckedAt.Some?) && (purity == "unchecked" ==> row.purityCheckedAt.None?)
    && (purity == "residential" ==> row.purityLevel == RESIDENTIAL)
    && (purity == "non_residential" ==> row.purityLevel == NON_RESIDENTIAL)
    && (purity == "unknown" ==> row.purityLevel == UNKNOWN_PURITY)
  }

  lemma {:induction false} StripTwice(s: string)
    ensures Strip(Strip(s)) == Strip(s)
    decreases |s|
  {
    if s != "" && IsSpace(s[0]) {
      StripTwice(s[1..]);
    } else if s != "" && IsSpace(s[|s| - 1]) {
      StripTwice(s[..|s| - 1]);
    }
  }

  lemma {:induction false} GetStripped(f: Filters, key: string)
    ensures Strip(Get(f, key)) == Get(f, key)
  {
    if key in f {
      StripTwice(f[key]);
    }
  }

  lemma {:induction false} RouteArgumentsMatch(f: Filters, row: Row)
    ensures AvailabilityMatches(ListArguments(f), false, row) && FallbackMatches(ListArguments(f), row) <==> RouteAskedFor(f, row)
  {
  }

  lemma {:induction false} PlaceArgumentsMatch(env: Env, f: Filters, row: Row)
    ensures var q := ListArguments(f);
            SourceMatches(env, q, row) && GeoMatches(q, row) && CountryMatches(q, row) && LocationMatches(q, row)
            <==> PlaceAskedFor(env, f, row)
  {
    GetStripped(f, "source");
    GetStripped(f, "geo_country");
    GetStripped(f, "geo_location");
  }

  /** By the stored filters themselves: the published proxies are those with the protocol, route, availability,
      origin, place and checks that each filter, where it is given, asks for. */
  lemma {:induction false} PublishedAsAskedFor(env: Env, f: Filters, row: Row)
    ensures PublishedProxy(env, f, row) <==> RouteAskedFor(f, row) && PlaceAskedFor(env, f, row) && ChecksAskedFor(f, row)
  {
    ListSelectsExactly(env, ListArguments(f), row);
    NothingMeasured(env, f, row);
    RouteArgumentsMatch(f, row);
    PlaceArgumentsMatch(env, f, row);
  }

  function WithRoute(f: Filters, mode: string): Filters {
    f["route_mode_filter" := mode]
  }

  function WithoutRoute(f: Filters): Filters {
    f - {"route_mode_filter", "available", "fallback_front_filter"}
  }

  function Routed(q: Query, mode: string): Query {
    q.(available := Some(mode != "unreachable"), routeMode := mode,
       fallback := if mode == "direct" then "none" else if mode == "chain" then "has" else "")
  }

  lemma {:induction false} RouteArguments(f: Filters, mode: string)
    requires mode == "direct" || mode == "chain" || mode == "unreachable"
    ensures ListArguments(WithRoute(f, mode)) == Routed(ListArguments(WithoutRoute(f)), mode)
    ensures var q := ListArguments(WithoutRoute(f)); q.routeMode == "" && q.available == None && q.fallback == ""
  {
    assert Strip(mode) == mode;
    assert Get(WithRoute(f, mode), "route_mode_filter") == mode;
    assert forall key | key !in {"route_mode_filter", "available", "fallback_front_filter"} ::
        Get(WithRoute(f, mode), key) == Get(WithoutRoute(f), key);
  }

  lemma {:induction false} RoutedMatches(env: Env, q: Query, mode: string, row: Row)
    requires mode == "direct" || mode == "chain" || mode == "unreachable"
    requires q.routeMode == "" && q.available == None && q.fallback == ""
    ensures Matches(env, Routed(q, mode), row) <==>
              && Matches(env, q, row) && row.available == (if mode == "unreachable" then 0 else 1)
              && (mode == "direct" ==> row.fallbackKeys == NO_FRONTS) && (mode == "chain" ==> row.fallbackKeys != NO_FRONTS)
  {
    var r := Routed(q, mode);
    assert ProtocolMatches(r, row) == ProtocolMatches(q, row) && SourceMatches(env, r, row) == SourceMatches(env, q, row);
    assert GeoMatches(r, row) == GeoMatches(q, row) && CountryMatches(r, row) == CountryMatches(q, row);
    assert LocationMatches(r, row) == LocationMatches(q, row) && OpenAiMatches(r, row) == OpenAiMatches(q, row);
    assert PurityMatches(r, row) == PurityMatches(q, row) && MeasuredMatches(env, r, row) == MeasuredMatches(env, q, row);
  }

  lemma {:induction false} RouteModeSelects(env: Env, f: Filters, mode: string, row: Row)
    requires mode == "direct" || mode == "chain" || mode == "unreachable"
    ensures PublishedProxy(env, WithRoute(f, mode), row) <==>
              && PublishedProxy(env, WithoutRoute(f), row)
              && row.available == (if mode == "unreachable" then 0 else 1)
              && (mode == "direct" ==> row.fallbackKeys == NO_FRONTS) && (mode == "chain" ==> row.fallbackKeys != NO_FRONTS)
  {
    var q := ListArguments(WithoutRoute(f));
    RouteArguments(f, mode);
    ListSelectsExactly(env, Routed(q, mode), row);
    ListSelectsExactly(env, q, row);
    RoutedMatches(env, q, mode, row);
  }

  /** The three route modes part the proxies the other filters publish: each is in exactly one. */
  lemma {:induction false} RouteModesPartition(env: Env, f: Filters, row: Row)
    requires row.available == 0 || row.available == 1
    ensures var direct := PublishedProxy(env, WithRoute(f, "direct"), row);
            var chain := PublishedProxy(env, WithRoute(f, "chain"), row);
            var unreachable := PublishedProxy(env, WithRoute(f, "unreachable"), row);
            && (direct || chain || unreachable <==> PublishedProxy(env, WithoutRoute(f), row))
            && !(direct && chain) && !(direct && unreachable) && !(chain && unreachable)
  {
    RouteModeSelects(env, f, "direct", row);
    RouteModeSelects(env, f, "chain", row);
    RouteModeSelects(env, f, "unreachable", row);
  }
}
