/** What the control plane relies on aptly for: mirrors, snapshots that never change and whose names
    are never given out twice, and publications. Each call either takes effect or is refused. */
module AptlyServer {
  import opened Options
  import opened ContentHash

  /** aptly's own name matching and version comparison. */
  datatype Matcher = Matcher(nameMatches: (string, string) -> bool, atLeast: (string, string) -> bool)

  datatype Source = Source(snapshot: string, component: string)

  /** A package query, as the control plane writes them. */
  datatype Query =
    | NameLike(pattern: string)                 // Name (~ pattern)
    | NameUnlike(pattern: string)               // !Name (~ pattern)
    | AnyOf(clauses: seq<(string, string)>)     // (Name (= n), Version (>= v)) | ...

  /** Publications stand under the address and the distribution that the calls name. */
  datatype Aptly = Aptly(
    matcher: Matcher,
    mirrors: map<string, seq<Package>>,
    snapshots: map<string, seq<Package>>,
    used: set<string>,
    published: map<(string, string), seq<Source>>)

  predicate Selects(m: Matcher, q: Query, p: Package) {
    match q
    case NameLike(pattern) => m.nameMatches(pattern, p.name)
    case NameUnlike(pattern) => !m.nameMatches(pattern, p.name)
    case AnyOf(clauses) =>
      exists i :: 0 <= i < |clauses| && clauses[i].0 == p.name && m.atLeast(p.version, clauses[i].1)
  }

  function Selected(m: Matcher, q: Query, packages: seq<Package>): seq<Package> {
    if packages == [] then []
    else (if Selects(m, q, packages[0]) then [packages[0]] else []) + Selected(m, q, packages[1..])
  }

  // ----- snapshots ----------------------------------------------------------------------------------------

  function Created(a: Aptly, name: string, packages: seq<Package>): Aptly {
    a.(snapshots := a.snapshots[name := packages], used := a.used + {name})
  }

  function CreateSnapshotFromMirror(a: Aptly, mirror: string, name: string): Option<Aptly> {
    if mirror in a.mirrors && name !in a.used then Some(Created(a, name, a.mirrors[mirror])) else None
  }

  function CreateFilteredSnapshot(a: Aptly, source: string, name: string, q: Query): Option<Aptly> {
    if source in a.snapshots && name !in a.used then
      Some(Created(a, name, Selected(a.matcher, q, a.snapshots[source])))
    else None
  }

  function DeleteSnapshot(a: Aptly, name: string): Option<Aptly> {
    if name in a.snapshots then Some(a.(snapshots := a.snapshots - {name})) else None
  }

  // ----- publications -----------------------------------------------------------------------------------------

  function Replaced(s: string, from: char, to: char): (r: string)
    ensures |r| == |s| && forall i :: 0 <= i < |s| ==> r[i] == if s[i] == from then to else s[i]
  {
    seq(|s|, i requires 0 <= i < |s| => if s[i] == from then to else s[i])
  }

  // _escape_prefix_for_url: in a URL aptly reads '_' as the '/' of a prefix.
  function Address(prefix: string): string {
    Replaced(prefix, '/', '_')
  }

  function Listed(address: string): string {
    Replaced(address, '_', '/')
  }

  // publish_exists: by the Prefix that aptly lists, not by the address.
  predicate PublishExists(a: Aptly, prefix: string) {
    exists key :: key in a.published && Listed(key.0) == prefix
  }

  predicate Publishable(a: Aptly, sources: seq<Source>) {
    && (forall i :: 0 <= i < |sources| ==> sources[i].snapshot in a.snapshots)
    && (forall i, j :: 0 <= i < j < |sources| ==> sources[i].component != sources[j].component)
  }

  function Pointed(a: Aptly, prefix: string, distribution: string, sources: seq<Source>): Aptly {
    a.(published := a.published[(Address(prefix), distribution) := sources])
  }

  function PublishSnapshot(a: Aptly, prefix: string, distribution: string, sources: seq<Source>): Option<Aptly> {
    if (Address(prefix), distribution) !in a.published && Publishable(a, sources) then
      Some(Pointed(a, prefix, distribution, sources))
    else None
  }

  function SwitchPublish(a: Aptly, prefix: string, distribution: string, sources: seq<Source>): Option<Aptly> {
    if (Address(prefix), distribution) in a.published && Publishable(a, sources) then
      Some(Pointed(a, prefix, distribution, sources))
    else None
  }
}
