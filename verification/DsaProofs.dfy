/** What the DSA list parser gives back. */
module DsaProofs {
  import opened Options
  import opened Scan
  import opened DsaList

  // ----- the patterns, as decompositions of the line --------------------------------------------------------

  ghost predicate IdTitleForm(u: Unicode, s: string, gap: string, major: string, minor: string, gap2: string,
                              title: string) {
    && s == gap + (DSA + (major + ("-" + (minor + (gap2 + title)))))
    && Run(IsSpace, gap) && Run(Decimals(u), major) && Run(Decimals(u), minor) && Run(IsSpace, gap2)
    && title != "" && IsGraph(title[0])
  }

  ghost predicate NameVersionForm(s: string, gap: string, name: string, gap2: string, version: string) {
    && s == gap + (name + (gap2 + version))
    && Run(IsSpace, gap) && Run(IsGraph, name) && Run(IsSpace, gap2) && Run(IsGraph, version)
  }

  lemma IdTakes(u: Unicode, major: string, minor: string, rest: string)
    requires Run(Decimals(u), major) && Run(Decimals(u), minor) && Stops(Decimals(u), rest)
    ensures MatchId(u, DSA + (major + ("-" + (minor + rest)))) == Some((IdOf(major, minor), rest))
  {
    var s1 := "-" + (minor + rest);
    assert (DSA + (major + s1))[4..] == major + s1;
    TakeRunOf(Decimals(u), major, s1);
    ExpectOf('-', minor + rest);
    TakeRunOf(Decimals(u), minor, rest);
  }

  lemma IdTitleFormMatches(u: Unicode, s: string, gap: string, major: string, minor: string, gap2: string,
                           title: string)
    requires IdTitleForm(u, s, gap, major, minor, gap2, title)
    ensures MatchIdTitle(u, s) == Some((IdOf(major, minor), title))
  {
    TakeRunOf(IsSpace, gap, DSA + (major + ("-" + (minor + (gap2 + title)))));
    IdTakes(u, major, minor, gap2 + title);
    TakeRunOf(IsSpace, gap2, title);
  }

  lemma HeaderMatches(u: Unicode, date: string, s: string, id: string, title: string)
    requires DateShape(u, date) && MatchIdTitle(u, s) == Some((id, title))
    ensures MatchHeader(u, "[" + (date + ("]" + s))) == Some(Header(date, id, title))
  {
    var s1 := date + ("]" + s);
    ExpectOf('[', s1);
    assert s1[..11] == date && s1[11..] == "]" + s;
    ExpectOf(']', s);
  }

  lemma NameVersionFormMatches(s: string, gap: string, name: string, gap2: string, version: string)
    requires NameVersionForm(s, gap, name, gap2, version)
    ensures MatchNameVersion(s) == Some((name, version))
  {
    TakeRunOf(IsSpace, gap, name + (gap2 + version));
    TakeRunOf(IsGraph, name, gap2 + version);
    TakeRunOf(IsSpace, gap2, version);
    TakeRunOf(IsGraph, version, "");
    assert version + "" == version;
  }

  lemma AfterReleaseMatches(gap: string, s: string, name: string, version: string)
    requires Run(IsSpace, gap) && MatchNameVersion(s) == Some((name, version))
    ensures MatchAfterRelease("]" + (gap + ("-" + s))) == Some((name, version))
  {
    ExpectOf(']', gap + ("-" + s));
    TakeRunOf(IsSpace, gap, "-" + s);
    ExpectOf('-', s);
  }

  lemma ReleaseTakes(u: Unicode, release: string, rest: string)
    requires Run(WordChars(u), release)
    ensures TakeRun(WordChars(u), release + ("]" + rest)) == Some((release, "]" + rest))
  {
    assert !WordChars(u)(']');
    TakeRunOf(WordChars(u), release, "]" + rest);
  }

  lemma ReleaseMatches(u: Unicode, line: string, s1: string, s2: string, release: string, name: string,
                       version: string)
    requires Expect('[', line) == Some(s1) && TakeRun(WordChars(u), s1) == Some((release, s2))
    requires MatchAfterRelease(s2) == Some((name, version))
    ensures MatchPackage(u, line) == Some(Package(release, name, version))
  {
  }

  lemma PackageMatches(u: Unicode, release: string, gap: string, s: string, name: string, version: string)
    requires Run(WordChars(u), release) && Run(IsSpace, gap) && MatchNameVersion(s) == Some((name, version))
    ensures MatchPackage(u, "[" + (release + ("]" + (gap + ("-" + s))))) == Some(Package(release, name, version))
  {
    var rest := gap + ("-" + s);
    var s1 := release + ("]" + rest);
    ExpectOf('[', s1);
    ReleaseTakes(u, release, rest);
    AfterReleaseMatches(gap, s, name, version);
    ReleaseMatches(u, "[" + s1, s1, "]" + rest, release, name, version);
  }

  lemma MatchedIdTitle(u: Unicode, s: string) returns (gap: string, major: string, minor: string, gap2: string)
    requires MatchIdTitle(u, s).Some?
    ensures IdTitleForm(u, s, gap, major, minor, gap2, MatchIdTitle(u, s).value.1)
    ensures MatchIdTitle(u, s).value.0 == IdOf(major, minor)
  {
    var (g, s1) := TakeRun(IsSpace, s).Extract();
    var (id, s2) := MatchId(u, s1).Extract();
    var (m, s3) := TakeRun(Decimals(u), s1[4..]).Extract();
    var s4 := Expect('-', s3).Extract();
    var (n, s5) := TakeRun(Decimals(u), s4).Extract();
    var (g2, title) := TakeRun(IsSpace, s2).Extract();
    assert s1 == DSA + s1[4..];
    gap, major, minor, gap2 := g, m, n, g2;
  }

  lemma MatchedHeader(u: Unicode, line: string)
    returns (s: string, gap: string, major: string, minor: string, gap2: string)
    requires MatchHeader(u, line).Some?
    ensures var h := MatchHeader(u, line).value;
            && h.Header? && DateShape(u, h.date) && line == "[" + (h.date + ("]" + s))
            && IdTitleForm(u, s, gap, major, minor, gap2, h.title) && h.id == IdOf(major, minor)
  {
    var s1 := Expect('[', line).Extract();
    s := Expect(']', s1[11..]).Extract();
    assert s1 == s1[..11] + s1[11..];
    gap, major, minor, gap2 := MatchedIdTitle(u, s);
  }

  /** The header matcher takes exactly the lines that the pattern takes, with the groups it gives. */
  lemma HeaderPattern(u: Unicode, line: string, h: Line)
    ensures MatchHeader(u, line) == Some(h) <==>
              && h.Header? && DateShape(u, h.date)
              && exists s, gap, major, minor, gap2 ::
                   && line == "[" + (h.date + ("]" + s))
                   && IdTitleForm(u, s, gap, major, minor, gap2, h.title) && h.id == IdOf(major, minor)
  {
    if MatchHeader(u, line) == Some(h) {
      var s, gap, major, minor, gap2 := MatchedHeader(u, line);
    } else if h.Header? && DateShape(u, h.date) {
      forall s, gap, major, minor, gap2 | line == "[" + (h.date + ("]" + s)) && h.id == IdOf(major, minor)
        ensures !IdTitleForm(u, s, gap, major, minor, gap2, h.title)
      {
        if IdTitleForm(u, s, gap, major, minor, gap2, h.title) {
          IdTitleFormMatches(u, s, gap, major, minor, gap2, h.title);
          HeaderMatches(u, h.date, s, h.id, h.title);
        }
      }
    }
  }

  lemma BracesMatch(body: string)
    ensures MatchCves("{" + (body + "}")) == if '}' in body then None else Some(Split(body))
  {
    var line := "{" + (body + "}");
    assert line[1..|line| - 1] == body;
  }

  lemma MatchedBraces(line: string) returns (body: string)
    requires MatchCves(line).Some?
    ensures line == "{" + (body + "}") && '}' !in body && MatchCves(line) == Some(Split(body))
  {
    body := line[1..|line| - 1];
  }

  /** The CVE matcher takes exactly what stands between one pair of braces. */
  lemma CvesPattern(line: string, cves: seq<string>)
    ensures MatchCves(line) == Some(cves) <==>
              exists body :: line == "{" + (body + "}") && '}' !in body && cves == Split(body)
  {
    if MatchCves(line) == Some(cves) {
      var body := MatchedBraces(line);
    }
    if body :| line == "{" + (body + "}") && '}' !in body && cves == Split(body) {
      BracesMatch(body);
    }
  }

  lemma MatchedNameVersion(s: string) returns (gap: string, gap2: string)
    requires MatchNameVersion(s).Some?
    ensures NameVersionForm(s, gap, MatchNameVersion(s).value.0, gap2, MatchNameVersion(s).value.1)
  {
    var (g, s1) := TakeRun(IsSpace, s).Extract();
    var (_, s2) := TakeRun(IsGraph, s1).Extract();
    var (g2, s3) := TakeRun(IsSpace, s2).Extract();
    var (version, end) := TakeRun(IsGraph, s3).Extract();
    assert s3 == version;
    gap, gap2 := g, g2;
  }

  lemma MatchedAfterRelease(s2: string) returns (gap: string, s: string)
    requires MatchAfterRelease(s2).Some?
    ensures Run(IsSpace, gap) && s2 == "]" + (gap + ("-" + s)) && MatchNameVersion(s) == MatchAfterRelease(s2)
  {
    var (g, s4) := TakeRun(IsSpace, Expect(']', s2).Extract()).Extract();
    gap, s := g, Expect('-', s4).Extract();
  }

  lemma MatchedPackage(u: Unicode, line: string) returns (gap: string, s: string)
    requires MatchPackage(u, line).Some?
    ensures var p := MatchPackage(u, line).value;
            && Run(WordChars(u), p.release) && Run(IsSpace, gap)
            && line == "[" + (p.release + ("]" + (gap + ("-" + s))))
            && MatchNameVersion(s) == Some((p.name, p.fixedVersion))
  {
    var (_, s2) := TakeRun(WordChars(u), Expect('[', line).Extract()).Extract();
    gap, s := MatchedAfterRelease(s2);
  }

  /** And the package matcher exactly those of its pattern. */
  lemma PackagePattern(u: Unicode, line: string, p: Package)
    ensures MatchPackage(u, line) == Some(p) <==>
              && Run(WordChars(u), p.release)
              && exists gap, s, gap2, gap3 ::
                   && line == "[" + (p.release + ("]" + (gap + ("-" + s)))) && Run(IsSpace, gap)
                   && NameVersionForm(s, gap2, p.name, gap3, p.fixedVersion)
  {
    if MatchPackage(u, line) == Some(p) {
      var gap, s := MatchedPackage(u, line);
      var gap2, gap3 := MatchedNameVersion(s);
      assert NameVersionForm(s, gap2, p.name, gap3, p.fixedVersion);
    }
    forall gap, s, gap2, gap3 |
        && line == "[" + (p.release + ("]" + (gap + ("-" + s)))) && Run(IsSpace, gap)
        && Run(WordChars(u), p.release) && NameVersionForm(s, gap2, p.name, gap3, p.fixedVersion)
      ensures MatchPackage(u, line) == Some(p)
    {
      NameVersionFormMatches(s, gap2, p.name, gap3, p.fixedVersion);
      PackageMatches(u, p.release, gap, s, p.name, p.fixedVersion);
    }
  }

  // ----- one result per header, and packages go to the nearest header above ---------------------------------------

  predicate AllDatable(u: Unicode, lines: seq<Line>) {
    forall i :: 0 <= i < |lines| ==> Datable(u, lines[i])
  }

  function Headers(lines: seq<Line>): nat {
    if lines == [] then 0 else (if lines[0].Header? then 1 else 0) + Headers(lines[1..])
  }

  lemma {:induction false} ContinueCounts(u: Unicode, a: Advisory, lines: seq<Line>)
    ensures Continue(u, a, lines).Some? <==> AllDatable(u, lines)
    ensures Continue(u, a, lines).Some? ==> |Continue(u, a, lines).value| == 1 + Headers(lines)
    decreases |lines|
  {
    if lines != [] {
      assert AllDatable(u, lines) <==> Datable(u, lines[0]) && AllDatable(u, lines[1..]) by {
        assert forall i :: 0 < i < |lines| ==> lines[i] == lines[1..][i - 1];
        assert forall i :: 0 <= i < |lines| - 1 ==> lines[1..][i] == lines[i + 1];
      }
      if Datable(u, lines[0]) {
        var next :=
          match lines[0]
          case Header(_, _, _) => NewAdvisory(u, lines[0])
          case Cves(cves) => a.(cves := cves)
          case Fixed(p) => a.(packages := a.packages + [p])
          case Unknown => a;
        ContinueCounts(u, next, lines[1..]);
      }
    }
  }

  /** The parse fails exactly when some header carries a date that does not exist, and otherwise
      there is one advisory for each header line. */
  lemma {:induction false} OneResultPerHeader(u: Unicode, lines: seq<Line>)
    ensures Parse(u, lines).Some? <==> AllDatable(u, lines)
    ensures Parse(u, lines).Some? ==> |Parse(u, lines).value| == Headers(lines)
    decreases |lines|
  {
    if lines != [] {
      assert AllDatable(u, lines) <==> Datable(u, lines[0]) && AllDatable(u, lines[1..]) by {
        assert forall i :: 0 < i < |lines| ==> lines[i] == lines[1..][i - 1];
        assert forall i :: 0 <= i < |lines| - 1 ==> lines[1..][i] == lines[i + 1];
      }
      if Datable(u, lines[0]) && lines[0].Header? {
        ContinueCounts(u, NewAdvisory(u, lines[0]), lines[1..]);
      } else {
        OneResultPerHeader(u, lines[1..]);
      }
    }
  }

  /** The lines from here up to the next header. */
  function Block(lines: seq<Line>): seq<Line> {
    if lines == [] || lines[0].Header? then [] else [lines[0]] + Block(lines[1..])
  }

  function Packages(block: seq<Line>): seq<Package> {
    if block == [] then []
    else (if block[0].Fixed? then [block[0].package] else []) + Packages(block[1..])
  }

  function LastCves(block: seq<Line>, otherwise: seq<string>): seq<string> {
    if block == [] then otherwise
    else LastCves(block[1..], if block[0].Cves? then block[0].cves else otherwise)
  }

  function Filled(a: Advisory, block: seq<Line>): Advisory {
    a.(cves := LastCves(block, a.cves), packages := a.packages + Packages(block))
  }

  lemma {:induction false} FirstBlock(u: Unicode, a: Advisory, lines: seq<Line>)
    requires Continue(u, a, lines).Some?
    ensures Continue(u, a, lines).value != [] && Continue(u, a, lines).value[0] == Filled(a, Block(lines))
    decreases |lines|
  {
    var block := Block(lines);
    if block == [] {
      assert a.packages + Packages(block) == a.packages;
    } else {
      assert block[1..] == Block(lines[1..]);
      if lines[0].Fixed? {
        assert (a.packages + [lines[0].package]) + Packages(block[1..]) == a.packages + Packages(block);
      } else {
        assert Packages(block) == [] + Packages(block[1..]);
      }
      FirstBlock(u, Absorb(Some(a), lines[0]).value, lines[1..]);
    }
  }

  /** Where the advisory of the header at line h stands in the result. */
  function Rank(current: Option<Advisory>, lines: seq<Line>, h: nat): nat
    requires h < |lines|
  {
    Headers(lines[..h]) + if current.Some? then 1 else 0
  }

  /** The advisory of the header at line h stands at its rank, and holds that header's id, title and
      date, the last CVE list and every package line, in order, down to the next header. */
  ghost predicate Placed(u: Unicode, current: Option<Advisory>, lines: seq<Line>, h: nat)
    requires h < |lines|
  {
    && lines[h].Header? && Datable(u, lines[h]) && Resume(u, current, lines).Some?
    && Rank(current, lines, h) < |Resume(u, current, lines).value|
    && Resume(u, current, lines).value[Rank(current, lines, h)] ==
       Filled(NewAdvisory(u, lines[h]), Block(lines[h + 1..]))
  }

  /** Only the line's own turn of the loop moves ranks: a header by one, any other not at all. */
  lemma RankInTail(current: Option<Advisory>, next: Option<Advisory>, lines: seq<Line>, h: nat)
    requires 0 < h < |lines|
    requires if lines[0].Header? then next.Some? else next.Some? == current.Some?
    ensures Rank(current, lines, h) ==
              Rank(next, lines[1..], h - 1) + if lines[0].Header? && current.Some? then 1 else 0
    ensures lines[1..][h - 1] == lines[h] && lines[1..][h - 1 + 1..] == lines[h + 1..]
  {
    assert lines[..h][1..] == lines[1..][..h - 1];
  }

  lemma PlacedAfter(u: Unicode, current: Option<Advisory>, next: Option<Advisory>, lines: seq<Line>, h: nat)
    requires 0 < h < |lines| && Datable(u, lines[0])
    requires next == if lines[0].Header? then Some(NewAdvisory(u, lines[0])) else Absorb(current, lines[0])
    requires Placed(u, next, lines[1..], h - 1)
    ensures Placed(u, current, lines, h)
  {
    RankInTail(current, next, lines, h);
    var rest := Resume(u, next, lines[1..]);
    assert Resume(u, current, lines) ==
           if lines[0].Header? && current.Some? then Prepend(current.value, rest) else rest;
  }

  lemma PlacedFirst(u: Unicode, current: Option<Advisory>, lines: seq<Line>)
    requires lines != [] && lines[0].Header? && Resume(u, current, lines).Some?
    ensures Placed(u, current, lines, 0)
  {
    FirstBlock(u, NewAdvisory(u, lines[0]), lines[1..]);
  }

  lemma {:induction false} NearestHeaderAbove(u: Unicode, current: Option<Advisory>, lines: seq<Line>, h: nat)
    requires h < |lines| && lines[h].Header? && Resume(u, current, lines).Some?
    ensures Placed(u, current, lines, h)
    decreases |lines|
  {
    if h == 0 {
      PlacedFirst(u, current, lines);
    } else {
      var next := if lines[0].Header? then Some(NewAdvisory(u, lines[0])) else Absorb(current, lines[0]);
      NearestHeaderAbove(u, next, lines[1..], h - 1);
      PlacedAfter(u, current, next, lines, h);
    }
  }
}
