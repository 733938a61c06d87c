/** The hash that decides whether a publish has anything to cut (app/routers/content_views.py:
    _hash_repo_packages and the hashing part of do_publish), over any digest function. */
module ContentHash {
  import opened Scan
  import opened Sorting

  /** The three fields of an aptly package entry that the hash reads; an absent one reads as "". */
  datatype Package = Package(name: string, version: string, architecture: string)

  /** One member repository with the package listing its mirror gave. */
  datatype Reading = Reading(repository: string, packages: seq<Package>)

  // ----- Python's order on str ------------------------------------------------------------------------------

  predicate LexLeq(a: string, b: string) {
    a == "" || (b != "" && (a[0] < b[0] || (a[0] == b[0] && LexLeq(a[1..], b[1..]))))
  }

  lemma {:induction false} LexTotal(a: string, b: string)
    ensures LexLeq(a, b) || LexLeq(b, a)
  {
    if a != "" && b != "" && a[0] == b[0] {
      LexTotal(a[1..], b[1..]);
    }
  }

  lemma {:induction false} LexAntisymmetric(a: string, b: string)
    requires LexLeq(a, b) && LexLeq(b, a)
    ensures a == b
  {
    if a != "" {
      LexAntisymmetric(a[1..], b[1..]);
      assert a == [a[0]] + a[1..] && b == [b[0]] + b[1..];
    }
  }

  lemma {:induction false} LexTransitive(a: string, b: string, c: string)
    requires LexLeq(a, b) && LexLeq(b, c)
    ensures LexLeq(a, c)
  {
    if a != "" && a[0] == b[0] == c[0] {
      LexTransitive(a[1..], b[1..], c[1..]);
    }
  }

  predicate FirstDifference(a: string, b: string, k: nat) {
    k < |a| && k < |b| && a[..k] == b[..k] && a[k] < b[k]
  }

  lemma DifferenceInTail(a: string, b: string, k: nat)
    requires a != "" && b != "" && a[0] == b[0]
    ensures FirstDifference(a, b, k + 1) <==> FirstDifference(a[1..], b[1..], k)
  {
    if k < |a| - 1 && k < |b| - 1 {
      assert a[..k + 1] == [a[0]] + a[1..][..k] && b[..k + 1] == [b[0]] + b[1..][..k];
      assert a[..k + 1][1..] == a[1..][..k] && b[..k + 1][1..] == b[1..][..k];
    }
  }

  lemma PrefixInTail(a: string, b: string)
    requires a != "" && b != "" && a[0] == b[0]
    ensures a <= b <==> a[1..] <= b[1..]
  {
    assert a == [a[0]] + a[1..] && b == [b[0]] + b[1..];
  }

  /** By code point: a prefix comes first, and otherwise the first difference decides. */
  lemma {:induction false} LexIsByCodePoint(a: string, b: string)
    ensures LexLeq(a, b) <==> a <= b || exists k: nat :: FirstDifference(a, b, k)
  {
    if a != "" && b != "" && a[0] == b[0] {
      LexIsByCodePoint(a[1..], b[1..]);
      PrefixInTail(a, b);
      if k: nat :| FirstDifference(a, b, k) {
        DifferenceInTail(a, b, k - 1);
      }
      if k: nat :| FirstDifference(a[1..], b[1..], k) {
        DifferenceInTail(a, b, k);
      }
    } else if a != "" && b != "" {
      assert FirstDifference(a, b, 0) <==> a[0] < b[0];
    }
  }

  lemma LexIsTotalOrder()
    ensures TotalOrder(LexLeq)
  {
    forall a, b ensures LexLeq(a, b) || LexLeq(b, a) {
      LexTotal(a, b);
    }
    forall a, b | LexLeq(a, b) && LexLeq(b, a) ensures a == b {
      LexAntisymmetric(a, b);
    }
    forall a, b, c | LexLeq(a, b) && LexLeq(b, c) ensures LexLeq(a, c) {
      LexTransitive(a, b, c);
    }
  }

  // ----- lines ------------------------------------------------------------------------------------------------

  predicate NotNewline(c: char) {
    c != '\n'
  }

  predicate Lines(s: seq<string>) {
    forall i :: 0 <= i < |s| ==> Run(NotNewline, s[i])
  }

  /** Non-empty lines can be read back from their join. */
  lemma {:induction false} JoinInjective(s: seq<string>, t: seq<string>)
    requires Lines(s) && Lines(t) && Join(s) == Join(t)
    ensures s == t
  {
    if s != [] && t != [] {
      TakeRunOf(NotNewline, s[0], JoinTail(s[1..]));
      TakeRunOf(NotNewline, t[0], JoinTail(t[1..]));
      assert JoinTail(s[1..]) == JoinTail(t[1..]);
      if s[1..] != [] && t[1..] != [] {
        assert Join(s[1..]) == JoinTail(s[1..])[1..] == Join(t[1..]);
        JoinInjective(s[1..], t[1..]);
      }
      assert s == [s[0]] + s[1..] && t == [t[0]] + t[1..];
    }
  }

  // ----- one repository ---------------------------------------------------------------------------------------

  predicate NotSeparator(c: char) {
    c != '|' && c != '\n'
  }

  predicate SeparatorFree(p: Package) {
    All(NotSeparator, p.name) && All(NotSeparator, p.version) && All(NotSeparator, p.architecture)
  }

  predicate AllSeparatorFree(packages: seq<Package>) {
    forall i :: 0 <= i < |packages| ==> SeparatorFree(packages[i])
  }

  function Entry(p: Package): string {
    p.name + ("|" + (p.version + ("|" + p.architecture)))
  }

  lemma EntryExample()
    ensures Entry(Package("bash", "5.2-1", "amd64")) == "bash|5.2-1|amd64"
  {
  }

  lemma EntryInjective(p: Package, q: Package)
    requires SeparatorFree(p) && SeparatorFree(q) && Entry(p) == Entry(q)
    ensures p == q
  {
    var rest, rest' := p.version + ("|" + p.architecture), q.version + ("|" + q.architecture);
    SpanOf(NotSeparator, p.name, "|" + rest);
    SpanOf(NotSeparator, q.name, "|" + rest');
    assert rest == ("|" + rest)[1..] == rest';
    SpanOf(NotSeparator, p.version, "|" + p.architecture);
    SpanOf(NotSeparator, q.version, "|" + q.architecture);
    assert p.architecture == ("|" + p.architecture)[1..] == q.architecture;
  }

  function Entries(packages: seq<Package>): seq<string> {
    seq(|packages|, i requires 0 <= i < |packages| => Entry(packages[i]))
  }

  lemma EntriesAreLines(packages: seq<Package>)
    requires AllSeparatorFree(packages)
    ensures Lines(Entries(packages))
  {
  }

  lemma SortedLines(s: seq<string>)
    requires Lines(s)
    ensures Lines(Sorted(s, LexLeq))
  {
    var sorted := Sorted(s, LexLeq);
    forall i | 0 <= i < |sorted| ensures Run(NotNewline, sorted[i]) {
      assert sorted[i] in multiset(sorted);
      assert sorted[i] in multiset(s);
    }
  }

  lemma {:induction false} EntryCount(packages: seq<Package>, p: Package)
    requires AllSeparatorFree(packages) && SeparatorFree(p)
    ensures multiset(Entries(packages))[Entry(p)] == multiset(packages)[p]
  {
    if packages != [] {
      var rest := packages[1..];
      EntryCount(rest, p);
      assert packages == [packages[0]] + rest;
      assert Entries(packages) == [Entry(packages[0])] + Entries(rest);
      if Entry(packages[0]) == Entry(p) {
        EntryInjective(packages[0], p);
      }
    }
  }

  lemma SamePackagesSameEntries(s: seq<Package>, t: seq<Package>)
    requires AllSeparatorFree(s) && AllSeparatorFree(t) && multiset(s) == multiset(t)
    ensures multiset(Entries(s)) <= multiset(Entries(t))
  {
    forall e ensures multiset(Entries(s))[e] <= multiset(Entries(t))[e] {
      if e in multiset(Entries(s)) {
        var i :| 0 <= i < |s| && Entries(s)[i] == e;
        EntryCount(s, s[i]);
        EntryCount(t, s[i]);
      }
    }
  }

  /** The entries say everything about the packages but the order of the listing. */
  lemma EntriesAreCanonical(s: seq<Package>, t: seq<Package>)
    requires AllSeparatorFree(s) && AllSeparatorFree(t)
    ensures Join(Sorted(Entries(s), LexLeq)) == Join(Sorted(Entries(t), LexLeq)) <==> multiset(s) == multiset(t)
  {
    LexIsTotalOrder();
    SortedIsCanonical(Entries(s), Entries(t), LexLeq);
    EntriesAreLines(s);
    EntriesAreLines(t);
    SortedLines(Entries(s));
    SortedLines(Entries(t));
    if Join(Sorted(Entries(s), LexLeq)) == Join(Sorted(Entries(t), LexLeq)) {
      JoinInjective(Sorted(Entries(s), LexLeq), Sorted(Entries(t), LexLeq));
      forall p ensures multiset(s)[p] == multiset(t)[p] {
        if p in multiset(s) || p in multiset(t) {
          EntryCount(s, p);
          EntryCount(t, p);
        }
      }
    } else if multiset(s) == multiset(t) {
      SamePackagesSameEntries(s, t);
      SamePackagesSameEntries(t, s);
    }
  }

  /** A digest that never gives two texts the same value, on one line. */
  ghost predicate Digest(h: string -> string) {
    && (forall a, b :: h(a) == h(b) ==> a == b)
    && (forall a :: All(NotNewline, h(a)))
  }

  // _hash_repo_packages
  function HashRepoPackages(h: string -> string, repository: string, packages: seq<Package>): string {
    repository + (":" + h(Join(Sorted(Entries(packages), LexLeq))))
  }

  // ----- all member repositories ---------------------------------------------------------------------------

  predicate NameChar(c: char) {
    'a' <= c <= 'z' || 'A' <= c <= 'Z' || IsDigit(c) || c == '.' || c == '_' || c == '-'
  }

  // APTLY_NAME_RE
  predicate ValidName(s: string) {
    Run(NameChar, s)
  }

  ghost predicate WellFormed(readings: seq<Reading>) {
    && (forall i :: 0 <= i < |readings| ==> ValidName(readings[i].repository) && AllSeparatorFree(readings[i].packages))
    && (forall i, j :: 0 <= i < j < |readings| ==> readings[i].repository != readings[j].repository)
  }

  function HashParts(h: string -> string, readings: seq<Reading>): seq<string> {
    seq(|readings|, i requires 0 <= i < |readings| => HashRepoPackages(h, readings[i].repository, readings[i].packages))
  }

  function HashContent(h: string -> string, readings: seq<Reading>): string {
    h(Join(Sorted(HashParts(h, readings), LexLeq)))
  }

  /** Which packages, and how often, each repository holds. */
  function Content(readings: seq<Reading>): map<string, multiset<Package>> {
    if readings == [] then map[]
    else Content(readings[1..])[readings[0].repository := multiset(readings[0].packages)]
  }

  lemma {:induction false} ContentAt(readings: seq<Reading>)
    requires WellFormed(readings)
    ensures forall i :: 0 <= i < |readings| ==>
              readings[i].repository in Content(readings)
              && Content(readings)[readings[i].repository] == multiset(readings[i].packages)
    ensures forall r :: r in Content(readings) ==> exists i :: 0 <= i < |readings| && readings[i].repository == r
  {
    if readings != [] {
      ContentAt(readings[1..]);
      forall i | 0 <= i < |readings|
        ensures readings[i].repository in Content(readings)
             && Content(readings)[readings[i].repository] == multiset(readings[i].packages)
      {
        if i > 0 {
          assert readings[1..][i - 1] == readings[i];
        }
      }
      forall r | r in Content(readings) && r != readings[0].repository
        ensures exists i :: 0 <= i < |readings| && readings[i].repository == r
      {
        var i :| 0 <= i < |readings| - 1 && readings[1..][i].repository == r;
        assert readings[i + 1].repository == r;
      }
    }
  }

  lemma PartInjective(h: string -> string, r: Reading, t: Reading)
    requires Digest(h)
    requires ValidName(r.repository) && AllSeparatorFree(r.packages)
    requires ValidName(t.repository) && AllSeparatorFree(t.packages)
    ensures HashRepoPackages(h, r.repository, r.packages) == HashRepoPackages(h, t.repository, t.packages) <==>
              r.repository == t.repository && multiset(r.packages) == multiset(t.packages)
  {
    var d, e := h(Join(Sorted(Entries(r.packages), LexLeq))), h(Join(Sorted(Entries(t.packages), LexLeq)));
    SpanOf(NameChar, r.repository, ":" + d);
    SpanOf(NameChar, t.repository, ":" + e);
    assert (":" + d)[1..] == d && (":" + e)[1..] == e;
    EntriesAreCanonical(r.packages, t.packages);
  }

  /** Every part of one reading is a part of the other exactly when the other holds the same. */
  lemma PartHeldBy(h: string -> string, readings: seq<Reading>, i: nat, others: seq<Reading>)
    requires Digest(h) && WellFormed(readings) && WellFormed(others) && i < |readings|
    ensures HashParts(h, readings)[i] in HashParts(h, others) <==>
              && readings[i].repository in Content(others)
              && Content(others)[readings[i].repository] == multiset(readings[i].packages)
  {
    ContentAt(others);
    if HashParts(h, readings)[i] in HashParts(h, others) {
      var j :| 0 <= j < |others| && HashParts(h, others)[j] == HashParts(h, readings)[i];
      PartInjective(h, readings[i], others[j]);
    }
    if readings[i].repository in Content(others) {
      var j :| 0 <= j < |others| && others[j].repository == readings[i].repository;
      PartInjective(h, readings[i], others[j]);
      assert HashParts(h, others)[j] in HashParts(h, others);
    }
  }

  lemma PartsDistinct(h: string -> string, readings: seq<Reading>)
    requires Digest(h) && WellFormed(readings)
    ensures Distinct(HashParts(h, readings))
  {
    forall i, j | 0 <= i < j < |readings| ensures HashParts(h, readings)[i] != HashParts(h, readings)[j] {
      PartInjective(h, readings[i], readings[j]);
    }
  }

  lemma PartIsLine(repository: string, digest: string)
    requires ValidName(repository) && All(NotNewline, digest)
    ensures Run(NotNewline, repository + (":" + digest))
  {
  }

  lemma PartsAreLines(h: string -> string, readings: seq<Reading>)
    requires Digest(h) && WellFormed(readings)
    ensures Lines(HashParts(h, readings))
  {
    forall i | 0 <= i < |readings| ensures Run(NotNewline, HashParts(h, readings)[i]) {
      PartIsLine(readings[i].repository, h(Join(Sorted(Entries(readings[i].packages), LexLeq))));
    }
  }

  lemma SamePartsSameContent(h: string -> string, readings: seq<Reading>, others: seq<Reading>)
    requires Digest(h) && WellFormed(readings) && WellFormed(others)
    requires multiset(HashParts(h, readings)) == multiset(HashParts(h, others))
    ensures forall r :: r in Content(readings) ==> r in Content(others) && Content(others)[r] == Content(readings)[r]
  {
    ContentAt(readings);
    forall r | r in Content(readings)
      ensures r in Content(others) && Content(others)[r] == Content(readings)[r]
    {
      var i :| 0 <= i < |readings| && readings[i].repository == r;
      assert HashParts(h, readings)[i] in multiset(HashParts(h, others));
      PartHeldBy(h, readings, i, others);
    }
  }

  lemma SameContentSameParts(h: string -> string, readings: seq<Reading>, others: seq<Reading>)
    requires Digest(h) && WellFormed(readings) && WellFormed(others) && Content(readings) == Content(others)
    ensures multiset(HashParts(h, readings)) <= multiset(HashParts(h, others))
  {
    ContentAt(readings);
    PartsDistinct(h, readings);
    PartsDistinct(h, others);
    var parts, parts' := HashParts(h, readings), HashParts(h, others);
    forall x ensures multiset(parts)[x] <= multiset(parts')[x] {
      DistinctCounts(parts, x);
      DistinctCounts(parts', x);
      if x in parts {
        var i :| 0 <= i < |readings| && parts[i] == x;
        PartHeldBy(h, readings, i, others);
      }
    }
  }

  /** Two readings get the same hash exactly when every repository holds the same packages the same
      number of times, whatever the order of repositories and of their listings. */
  lemma HashIsCanonical(h: string -> string, readings: seq<Reading>, others: seq<Reading>)
    requires Digest(h) && WellFormed(readings) && WellFormed(others)
    ensures HashContent(h, readings) == HashContent(h, others) <==> Content(readings) == Content(others)
  {
    LexIsTotalOrder();
    SortedIsCanonical(HashParts(h, readings), HashParts(h, others), LexLeq);
    PartsAreLines(h, readings);
    PartsAreLines(h, others);
    SortedLines(HashParts(h, readings));
    SortedLines(HashParts(h, others));
    if HashContent(h, readings) == HashContent(h, others) {
      JoinInjective(Sorted(HashParts(h, readings), LexLeq), Sorted(HashParts(h, others), LexLeq));
      SamePartsSameContent(h, readings, others);
      SamePartsSameContent(h, others, readings);
    } else if Content(readings) == Content(others) {
      SameContentSameParts(h, readings, others);
      SameContentSameParts(h, others, readings);
    }
  }

  /** Without the separator rule it fails: a '|' can move from one field to the next. */
  lemma SeparatorsCanCollide(h: string -> string)
    ensures var p, q := Package("a|b", "c", "all"), Package("a", "b|c", "all");
            p != q && HashRepoPackages(h, "main", [p]) == HashRepoPackages(h, "main", [q])
  {
    var p, q := Package("a|b", "c", "all"), Package("a", "b|c", "all");
    assert Entry(p) == "a|b|c|all" == Entry(q);
    assert Entries([p]) == Entries([q]);
  }
}
