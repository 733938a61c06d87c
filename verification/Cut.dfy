/** Cutting a version (do_publish in app/routers/content_views.py): the snapshots it asks aptly for,
    their names, and what the last one of each repository holds. */
module Cut {
  import opened Options
  import opened Scan
  import opened ContentHash
  import opened AptlyServer

  datatype Repository = Repository(name: string, distribution: string, components: seq<string>)

  datatype Filter = Include(pattern: string) | Exclude(pattern: string) | ErrataSince(day: int)

  /** An ErratumPackage row joined with its erratum's publication day. */
  datatype ErratumPackage = ErratumPackage(published: int, release: string, name: string, fixedVersion: string)

  /** The fixed part of one cut. */
  datatype Order = Order(view: string, number: nat, stamp: string, filters: seq<Filter>, errata: seq<ErratumPackage>)

  // ----- filters ---------------------------------------------------------------------------------------

  predicate Concerns(e: ErratumPackage, release: string, day: int) {
    e.published >= day && e.release == release
  }

  function Clauses(errata: seq<ErratumPackage>, release: string, day: int): seq<(string, string)> {
    if errata == [] then []
    else
      (if Concerns(errata[0], release, day) then [(errata[0].name, errata[0].fixedVersion)] else [])
      + Clauses(errata[1..], release, day)
  }

  const NOTHING := "$^"

  // _errata_since_query
  function ErrataSinceQuery(errata: seq<ErratumPackage>, release: string, day: int): Query {
    var clauses := Clauses(errata, release, day);
    if clauses == [] then NameLike(NOTHING) else AnyOf(clauses)
  }

  // _filter_to_aptly_query
  function FilterQuery(errata: seq<ErratumPackage>, release: string, f: Filter): Query {
    match f
    case ErrataSince(day) => ErrataSinceQuery(errata, release, day)
    case Include(pattern) => NameLike(pattern)
    case Exclude(pattern) => NameUnlike(pattern)
  }

  /** What each filter promises of a package. */
  predicate Passes(m: Matcher, errata: seq<ErratumPackage>, release: string, f: Filter, p: Package) {
    match f
    case Include(pattern) => m.nameMatches(pattern, p.name)
    case Exclude(pattern) => !m.nameMatches(pattern, p.name)
    case ErrataSince(day) =>
      exists i :: 0 <= i < |errata| && errata[i].published >= day && errata[i].release == release
                  && errata[i].name == p.name && m.atLeast(p.version, errata[i].fixedVersion)
  }

  /** "$^" matches only the empty name, which no package has. */
  ghost predicate MatchesNothing(m: Matcher) {
    forall name :: name != "" ==> !m.nameMatches(NOTHING, name)
  }

  lemma {:induction false} ClausesHold(errata: seq<ErratumPackage>, release: string, day: int, c: (string, string))
    ensures c in Clauses(errata, release, day) <==>
              exists i :: 0 <= i < |errata| && Concerns(errata[i], release, day)
                          && c == (errata[i].name, errata[i].fixedVersion)
  {
    if errata != [] {
      ClausesHold(errata[1..], release, day, c);
      if c in Clauses(errata[1..], release, day) {
        var i :| 0 <= i < |errata| - 1 && Concerns(errata[1..][i], release, day)
                 && c == (errata[1..][i].name, errata[1..][i].fixedVersion);
        assert errata[i + 1] == errata[1..][i];
      }
      if i :| 0 <= i < |errata| && Concerns(errata[i], release, day) && c == (errata[i].name, errata[i].fixedVersion) {
        if i > 0 {
          assert errata[1..][i - 1] == errata[i];
        }
      }
    }
  }

  /** The query of a filter selects exactly the packages that the filter is meant for. */
  lemma QueryMeansFilter(m: Matcher, errata: seq<ErratumPackage>, release: string, f: Filter, p: Package)
    requires MatchesNothing(m) && p.name != ""
    ensures Selects(m, FilterQuery(errata, release, f), p) <==> Passes(m, errata, release, f, p)
    ensures Selects(m, FilterQuery(errata, release, f), p) <==>
              match f
              case Include(pattern) => m.nameMatches(pattern, p.name)
              case Exclude(pattern) => !m.nameMatches(pattern, p.name)
              case ErrataSince(day) =>
                exists e :: e in errata && e.published >= day && e.release == release && e.name == p.name
                            && m.atLeast(p.version, e.fixedVersion)
  {
    if f.ErrataSince? {
      ErrataQueryMeans(m, errata, release, f.day, p);
    }
  }

  lemma ErrataQueryMeans(m: Matcher, errata: seq<ErratumPackage>, release: string, day: int, p: Package)
    requires MatchesNothing(m) && p.name != ""
    ensures Selects(m, ErrataSinceQuery(errata, release, day), p) <==> Passes(m, errata, release, ErrataSince(day), p)
  {
    var clauses := Clauses(errata, release, day);
    if i :| 0 <= i < |clauses| && clauses[i].0 == p.name && m.atLeast(p.version, clauses[i].1) {
      ClausesHold(errata, release, day, clauses[i]);
    }
    if i :| 0 <= i < |errata| && Concerns(errata[i], release, day)
            && errata[i].name == p.name && m.atLeast(p.version, errata[i].fixedVersion)
    {
      var c := (errata[i].name, errata[i].fixedVersion);
      ClausesHold(errata, release, day, c);
      var j :| 0 <= j < |clauses| && clauses[j] == c;
    }
  }

  predicate PassesAll(m: Matcher, errata: seq<ErratumPackage>, release: string, filters: seq<Filter>, p: Package) {
    forall i :: 0 <= i < |filters| ==> Passes(m, errata, release, filters[i], p)
  }

  /** The packages that pass every filter, in their order. */
  function Passing(m: Matcher, errata: seq<ErratumPackage>, release: string, filters: seq<Filter>,
                   packages: seq<Package>): seq<Package>
  {
    if packages == [] then []
    else
      (if PassesAll(m, errata, release, filters, packages[0]) then [packages[0]] else [])
      + Passing(m, errata, release, filters, packages[1..])
  }

  predicate AllNamed(packages: seq<Package>) {
    forall i :: 0 <= i < |packages| ==> packages[i].name != ""
  }

  lemma {:induction false} PassingAll(m: Matcher, errata: seq<ErratumPackage>, release: string, packages: seq<Package>)
    ensures Passing(m, errata, release, [], packages) == packages
  {
    if packages != [] {
      PassingAll(m, errata, release, packages[1..]);
      assert packages == [packages[0]] + packages[1..];
    }
  }

  /** One more link of the chain: the query of filter k, over what passed the filters before it. */
  lemma {:induction false} OneMoreFilter(m: Matcher, errata: seq<ErratumPackage>, release: string,
          filters: seq<Filter>, k: nat,
                                         packages: seq<Package>)
    requires MatchesNothing(m) && AllNamed(packages) && k < |filters|
    ensures Selected(m, FilterQuery(errata, release, filters[k]), Passing(m, errata, release, filters[..k], packages))
         == Passing(m, errata, release, filters[..k + 1], packages)
  {
    if packages != [] {
      var p := packages[0];
      OneMoreFilter(m, errata, release, filters, k, packages[1..]);
      QueryMeansFilter(m, errata, release, filters[k], p);
      assert PassesAll(m, errata, release, filters[..k + 1], p) <==>
             PassesAll(m, errata, release, filters[..k], p) && Passes(m, errata, release, filters[k], p) by {
        assert filters[..k + 1][k] == filters[k];
        assert forall i :: 0 <= i < k ==> filters[..k + 1][i] == filters[..k][i];
      }
      var before := Passing(m, errata, release, filters[..k], packages[1..]);
      if PassesAll(m, errata, release, filters[..k], p) {
        assert ([p] + before)[1..] == before;
      } else {
        assert [] + before == before;
      }
    }
  }

  // ----- names -----------------------------------------------------------------------------------------

  function Decimal(n: nat): (s: string)
    ensures Run(IsDigit, s)
  {
    var digit := [('0' as int + n % 10) as char];
    if n < 10 then digit else Decimal(n / 10) + digit
  }

  lemma {:induction false} DecimalInjective(n: nat, m: nat)
    requires Decimal(n) == Decimal(m)
    ensures n == m
  {
    var s := Decimal(n);
    assert s[|s| - 1] as int - '0' as int == n % 10 == m % 10;
    if n >= 10 && m >= 10 {
      assert Decimal(n / 10) == s[..|s| - 1] == Decimal(m / 10);
      DecimalInjective(n / 10, m / 10);
    }
  }

  function RawName(order: Order, repository: string): string {
    order.view + ("-v" + (Decimal(order.number) + ("-" + (repository + ("-" + order.stamp)))))
  }

  function FilteredName(raw: string, i: nat, filters: nat): string {
    if i + 1 == filters then raw + "-filtered" else raw + ("-filtered-" + Decimal(i))
  }

  /** The names of a cut with three filters. */
  lemma NamesExample(errata: seq<ErratumPackage>, filters: seq<Filter>)
    ensures var order := Order("base", 12, "20240102T030405Z", filters, errata);
            var raw := "base-v12-main-20240102T030405Z";
            && RawName(order, "main") == raw
            && FilteredName(raw, 0, 3) == raw + "-filtered-0" && FilteredName(raw, 1, 3) == raw + "-filtered-1"
            && FilteredName(raw, 2, 3) == raw + "-filtered"
  {
    assert Decimal(12) == "12" && Decimal(0) == "0" && Decimal(1) == "1";
  }

  /** The snapshot that stands after the first k filters. */
  function NameAfter(raw: string, k: nat, filters: nat): string {
    if k == 0 then raw else FilteredName(raw, k - 1, filters)
  }

  function FinalName(order: Order, repository: string): string {
    NameAfter(RawName(order, repository), |order.filters|, |order.filters|)
  }

  // ----- the calls -----------------------------------------------------------------------------------------

  datatype Creation =
    | FromMirror(mirror: string, name: string)
    | Filtered(source: string, name: string, query: Query)

  function RepositoryPlan(order: Order, r: Repository): seq<Creation> {
    var raw := RawName(order, r.name);
    [FromMirror(r.name, raw)] + FilterPlan(order, r, 0)
  }

  function FilterPlan(order: Order, r: Repository, from: nat): seq<Creation>
    decreases |order.filters| - from
  {
    if from >= |order.filters| then []
    else
      var raw, n := RawName(order, r.name), |order.filters|;
      [Filtered(NameAfter(raw, from, n), NameAfter(raw, from + 1, n),
                FilterQuery(order.errata, r.distribution, order.filters[from]))]
      + FilterPlan(order, r, from + 1)
  }

  function Plan(order: Order, repositories: seq<Repository>): seq<Creation> {
    if repositories == [] then [] else RepositoryPlan(order, repositories[0]) + Plan(order, repositories[1..])
  }

  function Names(plan: seq<Creation>): seq<string> {
    seq(|plan|, i requires 0 <= i < |plan| => plan[i].name)
  }

  function Perform(a: Aptly, c: Creation): Option<Aptly> {
    match c
    case FromMirror(mirror, name) => CreateSnapshotFromMirror(a, mirror, name)
    case Filtered(source, name, query) => CreateFilteredSnapshot(a, source, name, query)
  }

  /** The calls in their order, `budget` of them at most, up to the first that is refused: what aptly
      is then, and how many were made. */
  function Execute(a: Aptly, plan: seq<Creation>, budget: nat): (r: (Aptly, nat))
    ensures r.1 <= |plan|
    decreases |plan|
  {
    if plan == [] || budget == 0 || Perform(a, plan[0]).None? then (a, 0)
    else
      var (b, n) := Execute(Perform(a, plan[0]).value, plan[1..], budget - 1);
      (b, n + 1)
  }

  // ----- what a cut records -----------------------------------------------------------------------------------

  function RepositorySources(order: Order, r: Repository): seq<Source> {
    seq(|r.components|, i requires 0 <= i < |r.components| => Source(FinalName(order, r.name), r.components[i]))
  }

  function Sources(order: Order, repositories: seq<Repository>): seq<Source> {
    if repositories == [] then [] else RepositorySources(order, repositories[0]) + Sources(order, repositories[1..])
  }

  function Snapshots(sources: seq<Source>): set<string> {
    set i | 0 <= i < |sources| :: sources[i].snapshot
  }

  /** The packages of all the named snapshots, each snapshot counted once. */
  ghost function PackageCount(a: Aptly, names: set<string>): nat
    requires names <= a.snapshots.Keys
  {
    if names == {} then 0
    else
      var name :| name in names;
      |a.snapshots[name]| + PackageCount(a, names - {name})
  }
}
