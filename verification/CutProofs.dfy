/** What one cut leaves behind in aptly and in the version row. */
module CutProofs {
  import opened Options
  import opened Sorting
  import opened Scan
  import opened ContentHash
  import opened AptlyServer
  import opened Cut

  // ----- names -----------------------------------------------------------------------------------------

  lemma CancelLeft(x: string, s: string, t: string)
    requires x + s == x + t
    ensures s == t
  {
    assert s == (x + s)[|x|..] && t == (x + t)[|x|..];
  }

  lemma CancelRight(s: string, t: string, x: string)
    requires s + x == t + x
    ensures s == t
  {
    assert |s| == |t|;
    assert s == (s + x)[..|s|] && t == (t + x)[..|t|];
  }

  lemma RawNameInjective(order: Order, r: string, r': string)
    requires RawName(order, r) == RawName(order, r')
    ensures r == r'
  {
    var end := "-" + order.stamp;
    CancelLeft(order.view, "-v" + (Decimal(order.number) + ("-" + (r + end))),
               "-v" + (Decimal(order.number) + ("-" + (r' + end))));
    CancelLeft("-v", Decimal(order.number) + ("-" + (r + end)), Decimal(order.number) + ("-" + (r' + end)));
    CancelLeft(Decimal(order.number), "-" + (r + end), "-" + (r' + end));
    CancelLeft("-", r + end, r' + end);
    CancelRight(r, r', end);
  }

  // %Y%m%dT%H%M%SZ
  predicate Stamp(s: string) {
    s != "" && s[|s| - 1] == 'Z'
  }

  lemma RawNameEnds(order: Order, r: string)
    requires Stamp(order.stamp)
    ensures Stamp(RawName(order, r))
  {
    var s4 := "-" + order.stamp;
    var s3 := "-" + (r + s4);
    assert Stamp(s4) && Stamp(r + s4) && Stamp(s3) && Stamp(Decimal(order.number) + s3);
    assert Stamp("-v" + (Decimal(order.number) + s3));
  }

  /** A number after a dash can be read back from the end. */
  lemma TrailingNumber(s: string, d: string, t: string, e: string)
    requires Run(IsDigit, d) && Run(IsDigit, e) && s + ("-" + d) == t + ("-" + e)
    ensures s == t && d == e
  {
    var x, y := s + ("-" + d), t + ("-" + e);
    assert x[|s|] == '-' && y[|t|] == '-';
    assert forall i :: |s| < i < |x| ==> x[i] == d[i - |s| - 1];
    assert forall i :: |t| < i < |y| ==> y[i] == e[i - |t| - 1];
    assert |s| == |t|;
    assert s == x[..|s|] && t == y[..|t|];
    assert d == x[|s| + 1..] && e == y[|t| + 1..];
  }

  lemma NumberedSplits(raw: string, d: string)
    ensures raw + ("-filtered-" + d) == (raw + "-filtered") + ("-" + d)
  {
    assert "-filtered-" + d == "-filtered" + ("-" + d);
  }

  lemma NumberedInjective(raw: string, i: nat, raw': string, i': nat)
    requires raw + ("-filtered-" + Decimal(i)) == raw' + ("-filtered-" + Decimal(i'))
    ensures raw == raw' && i == i'
  {
    NumberedSplits(raw, Decimal(i));
    NumberedSplits(raw', Decimal(i'));
    TrailingNumber(raw + "-filtered", Decimal(i), raw' + "-filtered", Decimal(i'));
    DecimalInjective(i, i');
    CancelRight(raw, raw', "-filtered");
  }

  // Which link of the chain a name belongs to shows in its last character.
  lemma NameAfterEnds(raw: string, k: nat, n: nat)
    requires Stamp(raw) && k <= n
    ensures var name := NameAfter(raw, k, n);
            name != "" && var last := name[|name| - 1];
            && (last == 'Z' <==> k == 0) && (last == 'd' <==> k == n > 0) && (IsDigit(last) <==> 0 < k < n)
  {
    if 0 < k < n {
      var d := Decimal(k - 1);
      assert IsDigit(d[|d| - 1]);
    }
  }

  lemma NameAfterInjective(raw: string, k: nat, raw': string, k': nat, n: nat)
    requires Stamp(raw) && Stamp(raw') && k <= n && k' <= n
    requires NameAfter(raw, k, n) == NameAfter(raw', k', n)
    ensures raw == raw' && k == k'
  {
    NameAfterEnds(raw, k, n);
    NameAfterEnds(raw', k', n);
    if 0 < k < n {
      NumberedInjective(raw, k - 1, raw', k' - 1);
    } else if k > 0 {
      CancelRight(raw, raw', "-filtered");
    }
  }

  lemma {:induction false} FilterPlanLength(order: Order, r: Repository, from: nat)
    requires from <= |order.filters|
    ensures |FilterPlan(order, r, from)| == |order.filters| - from
    decreases |order.filters| - from
  {
    if from < |order.filters| {
      FilterPlanLength(order, r, from + 1);
    }
  }

  lemma {:induction false} FilterPlanAt(order: Order, r: Repository, from: nat, k: nat)
    requires from + k < |order.filters|
    ensures |FilterPlan(order, r, from)| == |order.filters| - from
    ensures FilterPlan(order, r, from)[k].name == NameAfter(RawName(order, r.name), from + 1 + k, |order.filters|)
    decreases k
  {
    FilterPlanLength(order, r, from);
    if k > 0 {
      FilterPlanAt(order, r, from + 1, k - 1);
      assert FilterPlan(order, r, from)[k] == FilterPlan(order, r, from + 1)[k - 1];
    }
  }

  lemma RepositoryPlanNames(order: Order, r: Repository)
    ensures |RepositoryPlan(order, r)| == |order.filters| + 1
    ensures forall k :: 0 <= k <= |order.filters| ==>
              RepositoryPlan(order, r)[k].name == NameAfter(RawName(order, r.name), k, |order.filters|)
  {
    FilterPlanLength(order, r, 0);
    forall k | 0 <= k <= |order.filters|
      ensures RepositoryPlan(order, r)[k].name == NameAfter(RawName(order, r.name), k, |order.filters|)
    {
      if k > 0 {
        FilterPlanAt(order, r, 0, k - 1);
      }
    }
  }

  predicate DistinctNames(repositories: seq<Repository>) {
    forall i, j :: 0 <= i < j < |repositories| ==> repositories[i].name != repositories[j].name
  }

  lemma {:induction false} PlanNameAt(order: Order, repositories: seq<Repository>, x: nat) returns (j: nat, k: nat)
    requires x < |Plan(order, repositories)|
    ensures j < |repositories| && k <= |order.filters|
    ensures Plan(order, repositories)[x].name == NameAfter(RawName(order, repositories[j].name), k, |order.filters|)
  {
    RepositoryPlanNames(order, repositories[0]);
    if x <= |order.filters| {
      j, k := 0, x;
    } else {
      j, k := PlanNameAt(order, repositories[1..], x - |order.filters| - 1);
      j := j + 1;
    }
  }

  lemma FirstNamesApart(order: Order, r: Repository, x: nat, y: nat)
    requires Stamp(order.stamp) && x < y <= |order.filters|
    ensures |RepositoryPlan(order, r)| == |order.filters| + 1
    ensures RepositoryPlan(order, r)[x].name != RepositoryPlan(order, r)[y].name
  {
    RepositoryPlanNames(order, r);
    RawNameEnds(order, r.name);
    if RepositoryPlan(order, r)[x].name == RepositoryPlan(order, r)[y].name {
      NameAfterInjective(RawName(order, r.name), x, RawName(order, r.name), y, |order.filters|);
    }
  }

  lemma NamesOfOthersApart(order: Order, r: Repository, x: nat, others: seq<Repository>, y: nat)
    requires Stamp(order.stamp) && x <= |order.filters| && y < |Plan(order, others)|
    requires forall j :: 0 <= j < |others| ==> others[j].name != r.name
    ensures |RepositoryPlan(order, r)| == |order.filters| + 1
    ensures RepositoryPlan(order, r)[x].name != Plan(order, others)[y].name
  {
    RepositoryPlanNames(order, r);
    RawNameEnds(order, r.name);
    if RepositoryPlan(order, r)[x].name == Plan(order, others)[y].name {
      var j, k := PlanNameAt(order, others, y);
      RawNameEnds(order, others[j].name);
      NameAfterInjective(RawName(order, r.name), x, RawName(order, others[j].name), k, |order.filters|);
      RawNameInjective(order, r.name, others[j].name);
    }
  }

  /** No two snapshots of one cut are asked for under one name. */
  lemma {:induction false} NamesOfACutAreDistinct(order: Order, repositories: seq<Repository>)
    requires Stamp(order.stamp) && DistinctNames(repositories)
    ensures Distinct(Names(Plan(order, repositories)))
  {
    if repositories != [] {
      var n, others := |order.filters|, repositories[1..];
      var first, rest := RepositoryPlan(order, repositories[0]), Plan(order, others);
      NamesOfACutAreDistinct(order, others);
      RepositoryPlanNames(order, repositories[0]);
      var plan: seq<Creation> := first + rest;
      forall x, y | 0 <= x < y < |plan| ensures plan[x].name != plan[y].name {
        if y <= n {
          FirstNamesApart(order, repositories[0], x, y);
        } else if x <= n {
          NamesOfOthersApart(order, repositories[0], x, others, y - n - 1);
        } else {
          assert Names(rest)[x - n - 1] != Names(rest)[y - n - 1];
        }
      }
    }
  }

  // ----- what the calls change -------------------------------------------------------------------------------

  function Made(plan: seq<Creation>, n: nat): set<string>
    requires n <= |plan|
  {
    set i | 0 <= i < n :: plan[i].name
  }

  ghost predicate Extends(a: Aptly, b: Aptly) {
    && b.matcher == a.matcher && b.mirrors == a.mirrors && b.published == a.published && a.used <= b.used
    && forall name :: name in a.snapshots ==> name in b.snapshots && b.snapshots[name] == a.snapshots[name]
  }

  /** b is a with the first n snapshots of the plan, under names never given out before. */
  ghost predicate Added(a: Aptly, b: Aptly, plan: seq<Creation>, n: nat)
    requires n <= |plan|
  {
    && Extends(a, b)
    && b.used == a.used + Made(plan, n)
    && b.snapshots.Keys == a.snapshots.Keys + Made(plan, n)
    && Made(plan, n) !! a.used
    && forall i, j :: 0 <= i < j < n ==> plan[i].name != plan[j].name
  }

  lemma OneMoreAdded(a: Aptly, c: Aptly, b: Aptly, plan: seq<Creation>, n: nat)
    requires n < |plan| && a.snapshots.Keys <= a.used
    requires Perform(a, plan[0]) == Some(c) && Added(c, b, plan[1..], n)
    ensures Added(a, b, plan, n + 1)
  {
    MadeFirst(plan, n);
    forall i, j | 0 <= i < j < n + 1 ensures plan[i].name != plan[j].name {
      assert plan[j] == plan[1..][j - 1];
      assert plan[1..][j - 1].name in Made(plan[1..], n);
      if i > 0 {
        assert plan[i] == plan[1..][i - 1];
      }
    }
  }

  /** Whatever happens half-way, a cut adds the snapshots it got made and changes nothing else. */
  lemma {:induction false} ExecuteAdds(a: Aptly, plan: seq<Creation>, budget: nat)
    requires a.snapshots.Keys <= a.used
    ensures var (b, n) := Execute(a, plan, budget); Added(a, b, plan, n)
    decreases |plan|
  {
    if plan != [] && budget > 0 && Perform(a, plan[0]).Some? {
      var c := Perform(a, plan[0]).value;
      ExecuteAdds(c, plan[1..], budget - 1);
      var (b, n) := Execute(c, plan[1..], budget - 1);
      OneMoreAdded(a, c, b, plan, n);
    }
  }

  lemma MadeFirst(plan: seq<Creation>, n: nat)
    requires n < |plan|
    ensures Made(plan, n + 1) == {plan[0].name} + Made(plan[1..], n)
  {
    forall i | 0 < i < n + 1 ensures plan[i].name in Made(plan[1..], n) {
      assert plan[i] == plan[1..][i - 1];
    }
    forall i | 0 <= i < n ensures plan[1..][i].name in Made(plan, n + 1) {
      assert plan[i + 1] == plan[1..][i];
    }
  }

  predicate Completes(a: Aptly, plan: seq<Creation>, budget: nat) {
    Execute(a, plan, budget).1 == |plan|
  }

  lemma {:induction false} CompletesInTurn(a: Aptly, plan: seq<Creation>, more: seq<Creation>, budget: nat)
    requires Completes(a, plan + more, budget)
    ensures Completes(a, plan, budget) && |plan| <= budget
    ensures Completes(Execute(a, plan, budget).0, more, budget - |plan|)
    ensures Execute(a, plan + more, budget).0 == Execute(Execute(a, plan, budget).0, more, budget - |plan|).0
    decreases |plan|
  {
    if plan == [] {
      assert plan + more == more;
    } else {
      assert (plan + more)[1..] == plan[1..] + more;
      CompletesInTurn(Perform(a, plan[0]).value, plan[1..], more, budget - 1);
    }
  }

  /** The mirror that is asked for is there; a filter works on the snapshot made just before it. */
  ghost predicate Linked(mirrors: set<string>, plan: seq<Creation>, i: nat)
    requires i < |plan|
  {
    match plan[i]
    case FromMirror(mirror, _) => mirror in mirrors
    case Filtered(source, _, _) => i > 0 && source == plan[i - 1].name
  }

  ghost predicate Chained(mirrors: set<string>, plan: seq<Creation>, from: nat) {
    forall i :: from <= i < |plan| ==> Linked(mirrors, plan, i)
  }

  ghost predicate FreshNames(a: Aptly, plan: seq<Creation>) {
    forall i :: 0 <= i < |plan| ==> plan[i].name !in a.used
  }

  ghost predicate FindsSource(a: Aptly, c: Creation) {
    match c
    case FromMirror(mirror, _) => mirror in a.mirrors
    case Filtered(source, _, _) => source in a.snapshots
  }

  lemma ChainedOn(a: Aptly, b: Aptly, plan: seq<Creation>)
    requires plan != [] && Chained(a.mirrors.Keys, plan, 1) && FreshNames(a, plan) && Distinct(Names(plan))
    requires Perform(a, plan[0]) == Some(b)
    ensures Chained(b.mirrors.Keys, plan[1..], 1) && FreshNames(b, plan[1..]) && Distinct(Names(plan[1..]))
    ensures |plan| > 1 ==> FindsSource(b, plan[1])
  {
    var rest := plan[1..];
    forall i | 0 <= i < |rest| ensures rest[i].name !in b.used {
      assert Names(plan)[0] != Names(plan)[i + 1];
    }
    forall i, j | 0 <= i < j < |rest| ensures Names(rest)[i] != Names(rest)[j] {
      assert Names(plan)[i + 1] != Names(plan)[j + 1];
    }
    forall i: nat | 1 <= i < |rest| ensures Linked(b.mirrors.Keys, rest, i) {
      assert Linked(a.mirrors.Keys, plan, i + 1);
    }
    if |plan| > 1 {
      assert Linked(a.mirrors.Keys, plan, 1);
    }
  }

  /** Calls that find their sources, under distinct names that were never used, all go through. */
  lemma {:induction false} ChainRuns(a: Aptly, plan: seq<Creation>, budget: nat)
    requires |plan| <= budget && (plan != [] ==> FindsSource(a, plan[0])) && Chained(a.mirrors.Keys, plan, 1)
    requires FreshNames(a, plan) && Distinct(Names(plan))
    ensures Completes(a, plan, budget)
    decreases |plan|
  {
    if plan != [] {
      var b := Perform(a, plan[0]).value;
      ChainedOn(a, b, plan);
      ChainRuns(b, plan[1..], budget - 1);
    }
  }

  lemma {:induction false} FilterPlanSources(order: Order, r: Repository, from: nat, k: nat)
    requires from + k < |order.filters|
    ensures |FilterPlan(order, r, from)| == |order.filters| - from
    ensures var c := FilterPlan(order, r, from)[k];
            c.Filtered? && c.source == NameAfter(RawName(order, r.name), from + k, |order.filters|)
    decreases k
  {
    FilterPlanLength(order, r, from);
    if k > 0 {
      FilterPlanSources(order, r, from + 1, k - 1);
      assert FilterPlan(order, r, from)[k] == FilterPlan(order, r, from + 1)[k - 1];
    }
  }

  lemma RepositoryPlanChained(mirrors: set<string>, order: Order, r: Repository)
    requires r.name in mirrors
    ensures Chained(mirrors, RepositoryPlan(order, r), 0) && |RepositoryPlan(order, r)| == |order.filters| + 1
  {
    var plan := RepositoryPlan(order, r);
    RepositoryPlanNames(order, r);
    forall i: nat | i < |plan| ensures Linked(mirrors, plan, i) {
      if i > 0 {
        FilterPlanSources(order, r, 0, i - 1);
      }
    }
  }

  lemma ChainedConcat(mirrors: set<string>, plan: seq<Creation>, more: seq<Creation>)
    requires Chained(mirrors, plan, 0) && Chained(mirrors, more, 0)
    ensures Chained(mirrors, plan + more, 0)
  {
    forall i: nat | i < |plan + more| ensures Linked(mirrors, plan + more, i) {
      if i < |plan| {
        assert Linked(mirrors, plan, i);
      } else {
        assert Linked(mirrors, more, i - |plan|);
      }
    }
  }

  lemma {:induction false} PlanChained(mirrors: set<string>, order: Order, repositories: seq<Repository>)
    requires forall i :: 0 <= i < |repositories| ==> repositories[i].name in mirrors
    ensures Chained(mirrors, Plan(order, repositories), 0)
    ensures |Plan(order, repositories)| == |repositories| * (|order.filters| + 1)
  {
    if repositories != [] {
      RepositoryPlanChained(mirrors, order, repositories[0]);
      PlanChained(mirrors, order, repositories[1..]);
      ChainedConcat(mirrors, RepositoryPlan(order, repositories[0]), Plan(order, repositories[1..]));
    }
  }

  lemma NeverUsed(a: Aptly, plan: seq<Creation>, budget: nat)
    requires a.snapshots.Keys <= a.used && Completes(a, plan, budget)
    ensures |plan| <= budget && FreshNames(a, plan)
  {
    assert plan + [] == plan;
    CompletesInTurn(a, plan, [], budget);
    ExecuteAdds(a, plan, budget);
    forall i | 0 <= i < |plan| ensures plan[i].name !in a.used {
      assert plan[i].name in Made(plan, |plan|);
    }
  }

  /** With its mirrors there, a cut is made in full exactly if aptly carries out one call per member
      and one more for each filter of each, and no name of the cut was ever used. */
  lemma CutCompletesIff(a: Aptly, order: Order, repositories: seq<Repository>, budget: nat)
    requires a.snapshots.Keys <= a.used && Stamp(order.stamp) && DistinctNames(repositories)
    requires forall i :: 0 <= i < |repositories| ==> repositories[i].name in a.mirrors
    ensures Completes(a, Plan(order, repositories), budget) <==>
              |repositories| * (|order.filters| + 1) <= budget && FreshNames(a, Plan(order, repositories))
  {
    var plan := Plan(order, repositories);
    PlanChained(a.mirrors.Keys, order, repositories);
    NamesOfACutAreDistinct(order, repositories);
    if |plan| <= budget && FreshNames(a, plan) {
      assert plan != [] ==> Linked(a.mirrors.Keys, plan, 0);
      ChainRuns(a, plan, budget);
    }
    if Completes(a, plan, budget) {
      NeverUsed(a, plan, budget);
    }
  }

  // ----- what the snapshots hold ------------------------------------------------------------------------------

  /** The snapshot after the first k filters holds what passes them. */
  ghost predicate Holds(a: Aptly, order: Order, r: Repository, k: nat, packages: seq<Package>)
    requires k <= |order.filters|
  {
    var name := NameAfter(RawName(order, r.name), k, |order.filters|);
    name in a.snapshots
    && a.snapshots[name] == Passing(a.matcher, order.errata, r.distribution, order.filters[..k], packages)
  }

  lemma {:induction false} FilterChain(a: Aptly, order: Order, r: Repository, from: nat, packages: seq<Package>,
                                       budget: nat)
    requires MatchesNothing(a.matcher) && AllNamed(packages) && from <= |order.filters|
    requires Holds(a, order, r, from, packages) && Completes(a, FilterPlan(order, r, from), budget)
    ensures Holds(Execute(a, FilterPlan(order, r, from), budget).0, order, r, |order.filters|, packages)
    decreases |order.filters| - from
  {
    if from < |order.filters| {
      var plan := FilterPlan(order, r, from);
      OneMoreFilter(a.matcher, order.errata, r.distribution, order.filters, from, packages);
      FilterChain(Perform(a, plan[0]).value, order, r, from + 1, packages, budget - 1);
    }
  }

  /** The last snapshot of a repository holds the packages that pass every filter, and no others. */
  ghost predicate Meant(a: Aptly, order: Order, r: Repository, packages: seq<Package>) {
    FinalName(order, r.name) in a.snapshots
    && a.snapshots[FinalName(order, r.name)] ==
       Passing(a.matcher, order.errata, r.distribution, order.filters, packages)
  }

  lemma RepositoryCut(a: Aptly, order: Order, r: Repository, budget: nat)
    requires MatchesNothing(a.matcher) && Completes(a, RepositoryPlan(order, r), budget)
    ensures r.name in a.mirrors
    ensures AllNamed(a.mirrors[r.name]) ==>
              Meant(Execute(a, RepositoryPlan(order, r), budget).0, order, r, a.mirrors[r.name])
  {
    var plan := RepositoryPlan(order, r);
    var b := Perform(a, plan[0]).value;
    if AllNamed(a.mirrors[r.name]) {
      PassingAll(a.matcher, order.errata, r.distribution, a.mirrors[r.name]);
      assert order.filters[..0] == [];
      assert plan[1..] == FilterPlan(order, r, 0);
      FilterChain(b, order, r, 0, a.mirrors[r.name], budget - 1);
      assert order.filters[..|order.filters|] == order.filters;
    }
  }

  lemma MeantLater(a: Aptly, b: Aptly, order: Order, r: Repository, packages: seq<Package>)
    requires Extends(a, b) && Meant(a, order, r, packages)
    ensures Meant(b, order, r, packages)
  {
  }

  lemma ExecuteExtends(a: Aptly, plan: seq<Creation>, budget: nat)
    requires a.snapshots.Keys <= a.used
    ensures var b := Execute(a, plan, budget).0; Extends(a, b) && b.snapshots.Keys <= b.used
  {
    ExecuteAdds(a, plan, budget);
  }

  /** A completed run of calls, in two halves. */
  lemma InTwo(a: Aptly, plan: seq<Creation>, more: seq<Creation>, budget: nat) returns (c: Aptly, left: nat)
    requires a.snapshots.Keys <= a.used && Completes(a, plan + more, budget)
    ensures Completes(a, plan, budget) && c == Execute(a, plan, budget).0 && Completes(c, more, left)
    ensures Execute(a, plan + more, budget).0 == Execute(c, more, left).0
    ensures Extends(a, c) && c.snapshots.Keys <= c.used && Extends(c, Execute(c, more, left).0)
  {
    CompletesInTurn(a, plan, more, budget);
    c, left := Execute(a, plan, budget).0, budget - |plan|;
    ExecuteExtends(a, plan, budget);
    ExecuteExtends(c, more, left);
  }

  lemma {:induction false} CutMeansItsFilters(a: Aptly, order: Order, repositories: seq<Repository>, budget: nat,
                                               i: nat)
    requires MatchesNothing(a.matcher) && a.snapshots.Keys <= a.used && i < |repositories|
    requires Completes(a, Plan(order, repositories), budget)
    ensures repositories[i].name in a.mirrors
    ensures AllNamed(a.mirrors[repositories[i].name]) ==>
              Meant(Execute(a, Plan(order, repositories), budget).0, order, repositories[i],
                  a.mirrors[repositories[i].name])
    decreases |repositories|
  {
    var r := repositories[0];
    var c, left := InTwo(a, RepositoryPlan(order, r), Plan(order, repositories[1..]), budget);
    if i > 0 {
      CutMeansItsFilters(c, order, repositories[1..], left, i - 1);
    } else {
      var b := Execute(a, Plan(order, repositories), budget).0;
      RepositoryCut(a, order, r, budget);
      if AllNamed(a.mirrors[r.name]) {
        MeantLater(c, b, order, r, a.mirrors[r.name]);
      }
    }
  }

  /** "Passes every filter", package by package. */
  lemma {:induction false} PassingKeeps(m: Matcher, errata: seq<ErratumPackage>, release: string, filters: seq<Filter>,
                                        packages: seq<Package>, p: Package)
    ensures multiset(Passing(m, errata, release, filters, packages))[p]
         == if PassesAll(m, errata, release, filters, p) then multiset(packages)[p] else 0
  {
    if packages != [] {
      PassingKeeps(m, errata, release, filters, packages[1..], p);
      assert packages == [packages[0]] + packages[1..];
    }
  }

  // ----- what the version row says ------------------------------------------------------------------------------

  function Components(repositories: seq<Repository>): seq<string> {
    if repositories == [] then [] else repositories[0].components + Components(repositories[1..])
  }

  /** One source per component, in the order of the repositories and of their components. */
  lemma {:induction false} SourcePerComponent(order: Order, repositories: seq<Repository>)
    ensures |Sources(order, repositories)| == |Components(repositories)|
    ensures forall x :: 0 <= x < |Components(repositories)| ==>
              Sources(order, repositories)[x].component == Components(repositories)[x]
  {
    if repositories != [] {
      SourcePerComponent(order, repositories[1..]);
    }
  }

  /** The source is the last snapshot of a repository that declares its component. */
  ghost predicate FromOwner(order: Order, repositories: seq<Repository>, source: Source) {
    exists j :: 0 <= j < |repositories| && source.snapshot == FinalName(order, repositories[j].name)
                && source.component in repositories[j].components
  }

  lemma {:induction false} SourcesFromOwners(order: Order, repositories: seq<Repository>, x: nat)
    requires x < |Sources(order, repositories)|
    ensures FromOwner(order, repositories, Sources(order, repositories)[x])
  {
    var first, rest := RepositorySources(order, repositories[0]), repositories[1..];
    if x < |first| {
      assert first[x].component in repositories[0].components;
    } else {
      SourcesFromOwners(order, rest, x - |first|);
      var source := Sources(order, repositories)[x];
      assert source == Sources(order, rest)[x - |first|];
      var j :| 0 <= j < |rest| && source.snapshot == FinalName(order, rest[j].name)
               && source.component in rest[j].components;
      assert repositories[j + 1] == rest[j];
    }
  }

  lemma {:induction false} SourceSnapshots(order: Order, repositories: seq<Repository>, name: string)
    ensures name in Snapshots(Sources(order, repositories)) <==>
              exists j :: 0 <= j < |repositories| && repositories[j].components != []
                          && name == FinalName(order, repositories[j].name)
  {
    if repositories != [] {
      var r, rest := repositories[0], Sources(order, repositories[1..]);
      var first := RepositorySources(order, r);
      SourceSnapshots(order, repositories[1..], name);
      SnapshotsConcat(first, rest);
      assert name in Snapshots(first) <==> r.components != [] && name == FinalName(order, r.name) by {
        if r.components != [] {
          assert first[0].snapshot == FinalName(order, r.name);
        }
      }
      if j :| 0 <= j < |repositories| - 1 && repositories[1..][j].components != []
              && name == FinalName(order, repositories[1..][j].name) {
        assert repositories[j + 1] == repositories[1..][j];
      }
      if j :| 0 <= j < |repositories| && repositories[j].components != []
              && name == FinalName(order, repositories[j].name)
      {
        assert j > 0 ==> repositories[1..][j - 1] == repositories[j];
      }
    }
  }

  lemma SnapshotsConcat(s: seq<Source>, t: seq<Source>)
    ensures Snapshots(s + t) == Snapshots(s) + Snapshots(t)
  {
    forall i | 0 <= i < |s| ensures s[i].snapshot in Snapshots(s + t) {
      assert (s + t)[i] == s[i];
    }
    forall i | 0 <= i < |t| ensures t[i].snapshot in Snapshots(s + t) {
      assert (s + t)[|s| + i] == t[i];
    }
  }

  lemma {:induction false} CountOneMore(a: Aptly, names: set<string>, name: string)
    requires names <= a.snapshots.Keys && name in names
    ensures PackageCount(a, names) == |a.snapshots[name]| + PackageCount(a, names - {name})
    decreases |names|
  {
    var picked :| picked in names
                  && PackageCount(a, names) == |a.snapshots[picked]| + PackageCount(a, names - {picked});
    if picked != name {
      CountOneMore(a, names - {picked}, name);
      CountOneMore(a, names - {name}, picked);
      assert names - {picked} - {name} == names - {name} - {picked};
    }
  }

  /** The packages of each repository that contributes a component, once. */
  function Total(a: Aptly, order: Order, repositories: seq<Repository>): nat
    requires forall i :: 0 <= i < |repositories| ==> FinalName(order, repositories[i].name) in a.snapshots
  {
    if repositories == [] then 0
    else
      (if repositories[0].components == [] then 0 else |a.snapshots[FinalName(order, repositories[0].name)]|)
      + Total(a, order, repositories[1..])
  }

  lemma FinalNameInjective(order: Order, r: string, r': string)
    requires Stamp(order.stamp) && FinalName(order, r) == FinalName(order, r')
    ensures r == r'
  {
    RawNameEnds(order, r);
    RawNameEnds(order, r');
    NameAfterInjective(RawName(order, r), |order.filters|, RawName(order, r'), |order.filters|, |order.filters|);
    RawNameInjective(order, r, r');
  }

  /** package_count adds up the final snapshots without counting one per component. */
  lemma {:induction false} CountedOnce(a: Aptly, order: Order, repositories: seq<Repository>)
    requires Stamp(order.stamp) && DistinctNames(repositories)
    requires forall i :: 0 <= i < |repositories| ==> FinalName(order, repositories[i].name) in a.snapshots
    ensures Snapshots(Sources(order, repositories)) <= a.snapshots.Keys
    ensures PackageCount(a, Snapshots(Sources(order, repositories))) == Total(a, order, repositories)
  {
    var names := Snapshots(Sources(order, repositories));
    forall name | name in names ensures name in a.snapshots {
      SourceSnapshots(order, repositories, name);
    }
    if repositories != [] {
      CountedOnce(a, order, repositories[1..]);
      FirstSnapshot(order, repositories);
      if repositories[0].components != [] {
        CountOneMore(a, names, FinalName(order, repositories[0].name));
      }
    }
  }

  lemma FirstSnapshot(order: Order, repositories: seq<Repository>)
    requires Stamp(order.stamp) && DistinctNames(repositories) && repositories != []
    ensures var names, first := Snapshots(Sources(order, repositories)), FinalName(order, repositories[0].name);
            var rest := Snapshots(Sources(order, repositories[1..]));
            first !in rest && names == if repositories[0].components == [] then rest else {first} + rest
  {
    var first := FinalName(order, repositories[0].name);
    SourceSnapshots(order, repositories[1..], first);
    if j :| 0 <= j < |repositories| - 1 && first == FinalName(order, repositories[1..][j].name) {
      FinalNameInjective(order, repositories[0].name, repositories[j + 1].name);
    }
    SnapshotsConcat(RepositorySources(order, repositories[0]), Sources(order, repositories[1..]));
    if repositories[0].components != [] {
      assert RepositorySources(order, repositories[0])[0].snapshot == first;
    }
  }
}
