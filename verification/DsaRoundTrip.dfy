/** The printed form of an advisory list, and that the parser gives the list back. */
module DsaRoundTrip {
  import opened Options
  import opened Scan
  import opened DsaList
  import opened DsaProofs

  // ----- printing ---------------------------------------------------------------------------------

  const CAPITALISED := ["Jan", "Feb", "Mar", "Apr", "May", "Jun", "Jul", "Aug", "Sep", "Oct", "Nov", "Dec"]

  function DigitChar(n: nat): char
    requires n < 10
  {
    ('0' as int + n) as char
  }

  function PrintDate(d: Date): string
    requires ValidDate(d)
  {
    [DigitChar(d.day / 10), DigitChar(d.day % 10), ' '] + CAPITALISED[d.month - 1]
    + [' ', DigitChar(d.year / 1000), DigitChar(d.year / 100 % 10), DigitChar(d.year / 10 % 10), DigitChar(d.year % 10)]
  }

  predicate BracesFree(s: string) {
    '}' !in s
  }

  predicate WellFormedPackage(u: Unicode, p: Package) {
    Run(WordChars(u), p.release) && Word(p.name) && Word(p.fixedVersion)
  }

  ghost predicate WellFormed(u: Unicode, a: Advisory) {
    && (exists major, minor :: Run(Decimals(u), major) && Run(Decimals(u), minor) && a.id == IdOf(major, minor))
    && Trimmed(a.title) && All(NotBreak, a.title) && ValidDate(a.published)
    && (forall i :: 0 <= i < |a.cves| ==> Word(a.cves[i]) && BracesFree(a.cves[i]))
    && (forall i :: 0 <= i < |a.packages| ==> WellFormedPackage(u, a.packages[i]))
  }

  function PrintHeader(a: Advisory): string
    requires ValidDate(a.published)
  {
    "[" + (PrintDate(a.published) + ("]" + (" " + (a.id + (" " + a.title)))))
  }

  function PrintCves(cves: seq<string>): string {
    "\t" + ("{" + (JoinWords(cves) + "}"))
  }

  function PrintPackage(p: Package): string {
    "\t" + ("[" + (p.release + ("]" + (" " + ("-" + (" " + (p.name + (" " + p.fixedVersion))))))))
  }

  function PrintPackages(packages: seq<Package>): seq<string> {
    seq(|packages|, i requires 0 <= i < |packages| => PrintPackage(packages[i]))
  }

  /** One advisory: its header, its CVE line if it has CVEs, its package lines. */
  function Print(a: Advisory): seq<string>
    requires ValidDate(a.published)
  {
    [PrintHeader(a)] + (if a.cves == [] then [] else [PrintCves(a.cves)]) + PrintPackages(a.packages)
  }

  ghost predicate AllWellFormed(u: Unicode, advisories: seq<Advisory>) {
    forall i :: 0 <= i < |advisories| ==> WellFormed(u, advisories[i])
  }

  ghost function PrintAll(u: Unicode, advisories: seq<Advisory>): seq<string>
    requires AllWellFormed(u, advisories)
  {
    if advisories == [] then [] else Print(advisories[0]) + PrintAll(u, advisories[1..])
  }

  lemma PackageExample()
    ensures PrintPackage(Package("bookworm", "linux", "6.1.69-1")) == "\t[bookworm] - linux 6.1.69-1"
  {
  }

  lemma CvesExample()
    ensures PrintCves(["CVE-2021-1", "CVE-2023-2"]) == "\t{CVE-2021-1 CVE-2023-2}"
  {
    assert ["CVE-2021-1", "CVE-2023-2"][1..] == ["CVE-2023-2"];
    assert JoinWords(["CVE-2021-1", "CVE-2023-2"]) == "CVE-2021-1 CVE-2023-2";
  }

  lemma DateExample()
    ensures PrintDate(Date(2, 1, 2024)) == "02 Jan 2024"
  {
    assert CAPITALISED[0] == "Jan";
  }

  lemma HeaderExample()
    ensures "[" + ("02 Jan 2024" + ("]" + (" " + ("DSA-1-1" + (" " + "linux"))))) == "[02 Jan 2024] DSA-1-1 linux"
  {
    assert "02 Jan 2024" + ("]" + (" " + ("DSA-1-1" + (" " + "linux")))) == "02 Jan 2024] DSA-1-1 linux";
  }

  /** One entry of the list as Debian prints it. */
  lemma PrintedExample()
    ensures Print(Advisory("DSA-1-1", "linux", Date(2, 1, 2024), ["CVE-2021-1", "CVE-2023-2"],
                           [Package("bookworm", "linux", "6.1.69-1")]))
         == ["[02 Jan 2024] DSA-1-1 linux", "\t{CVE-2021-1 CVE-2023-2}", "\t[bookworm] - linux 6.1.69-1"]
  {
    var a := Advisory("DSA-1-1", "linux", Date(2, 1, 2024), ["CVE-2021-1", "CVE-2023-2"],
                      [Package("bookworm", "linux", "6.1.69-1")]);
    DateExample();
    HeaderExample();
    assert PrintPackages(a.packages) == [PrintPackage(a.packages[0])];
    CvesExample();
    PackageExample();
  }

  lemma MonthNames()
    ensures CAPITALISED == ["Jan", "Feb", "Mar", "Apr", "May", "Jun", "Jul", "Aug", "Sep", "Oct", "Nov", "Dec"]
  {
  }

  // ----- each printed line is recognised for what it is ------------------------------------------------------

  lemma MonthsAgree(u: Unicode, month: nat)
    requires 1 <= month <= 12
    ensures var s := CAPITALISED[month - 1];
            |s| == 3 && IsWordChar(u, s[0]) && IsWordChar(u, s[1]) && IsWordChar(u, s[2]) && MonthNumber(s) == month
  {
  }

  lemma DigitsMakeYear(year: nat)
    requires year <= 9999
    ensures year / 1000 < 10
    ensures 1000 * (year / 1000) + 100 * (year / 100 % 10) + 10 * (year / 10 % 10) + year % 10 == year
  {
    assert year / 100 / 10 == year / 1000;
    assert year / 10 / 10 == year / 100;
  }

  lemma DigitsAreRead(u: Unicode, n: nat)
    requires n < 10
    ensures IsDecimal(u, DigitChar(n)) && Digit(u, DigitChar(n)) == n
  {
  }

  lemma DayIsRead(day: nat)
    requires 1 <= day <= 31
    ensures DayText(DigitChar(day / 10), DigitChar(day % 10))
  {
  }

  lemma DateRoundTrip(u: Unicode, d: Date)
    requires ValidDate(d)
    ensures DateShape(u, PrintDate(d)) && ParseDate(u, PrintDate(d)) == Some(d)
  {
    var s := PrintDate(d);
    MonthsAgree(u, d.month);
    DigitsMakeYear(d.year);
    DayIsRead(d.day);
    forall n: nat | n < 10 ensures IsDecimal(u, DigitChar(n)) && Digit(u, DigitChar(n)) == n {
      DigitsAreRead(u, n);
    }
    assert s[3..6] == CAPITALISED[d.month - 1];
  }

  lemma HeaderText(u: Unicode, date: string, major: string, minor: string, title: string)
    requires DateShape(u, date) && Run(Decimals(u), major) && Run(Decimals(u), minor) && Trimmed(title)
    ensures MatchHeader(u, "[" + (date + ("]" + (" " + (IdOf(major, minor) + (" " + title))))))
         == Some(Header(date, IdOf(major, minor), title))
  {
    var s := " " + (IdOf(major, minor) + (" " + title));
    assert s == " " + (DSA + (major + ("-" + (minor + (" " + title)))));
    IdTitleFormMatches(u, s, " ", major, minor, " ", title);
    HeaderMatches(u, date, s, IdOf(major, minor), title);
  }

  lemma HeaderStripped(a: Advisory)
    requires ValidDate(a.published) && Trimmed(a.title)
    ensures Strip(PrintHeader(a)) == PrintHeader(a)
  {
    var date := PrintDate(a.published);
    EndsAfter(" ", a.title);
    EndsAfter(a.id, " " + a.title);
    EndsAfter(" ", a.id + (" " + a.title));
    EndsAfter("]", " " + (a.id + (" " + a.title)));
    EndsAfter(date, "]" + (" " + (a.id + (" " + a.title))));
    StripTrimmed("[" + (date + ("]" + (" " + (a.id + (" " + a.title))))));
  }

  lemma {:induction false} JoinedBracesFree(words: seq<string>)
    requires forall i :: 0 <= i < |words| ==> BracesFree(words[i])
    ensures BracesFree(JoinWords(words))
  {
    if |words| > 1 {
      JoinedBracesFree(words[1..]);
    }
  }

  lemma NoBracketNoHeader(u: Unicode, line: string)
    requires line == "" || line[0] != '['
    ensures MatchHeader(u, line).None?
  {
    assert Expect('[', line).None?;
  }

  lemma CvesText(u: Unicode, cves: seq<string>)
    requires forall i :: 0 <= i < |cves| ==> Word(cves[i]) && BracesFree(cves[i])
    ensures var line := Strip(PrintCves(cves)); MatchHeader(u, line).None? && MatchCves(line) == Some(cves)
  {
    var joined := JoinWords(cves);
    StripIndented("\t", "{" + (joined + "}"));
    JoinedBracesFree(cves);
    SplitOfJoin(cves);
    NoBracketNoHeader(u, "{" + (joined + "}"));
    BracesMatch(joined);
  }

  // A release name cannot hold the blanks of a date.
  lemma NoDate(u: Unicode, s: string, n: nat)
    requires |s| == 11 && (n < 11 ==> s[n] == ']') && forall i :: 0 <= i < n && i < 11 ==> IsWordChar(u, s[i])
    ensures !DateShape(u, s)
  {
    assert !IsWordChar(u, ' ') && !IsDecimal(u, ']');
    if n > 2 {
      assert s[2] != ' ';
    }
  }

  lemma NoDateNoHeader(u: Unicode, line: string, s1: string)
    requires Expect('[', line) == Some(s1) && (|s1| < 11 || !DateShape(u, s1[..11]))
    ensures MatchHeader(u, line).None?
  {
  }

  lemma NoHeader(u: Unicode, release: string, rest: string)
    requires Run(WordChars(u), release)
    ensures MatchHeader(u, "[" + (release + ("]" + rest))).None?
  {
    var s1 := release + ("]" + rest);
    ExpectOf('[', s1);
    if |s1| >= 11 {
      forall i | 0 <= i < |release| && i < 11 ensures IsWordChar(u, s1[..11][i]) {
        assert WordChars(u)(release[i]);
      }
      NoDate(u, s1[..11], |release|);
    }
    NoDateNoHeader(u, "[" + s1, s1);
  }

  lemma PackageStripped(release: string, s: string)
    requires EndsGraph(s)
    ensures Strip("\t" + ("[" + (release + ("]" + (" " + ("-" + s)))))) == "[" + (release + ("]" + (" " + ("-" + s))))
  {
    EndsAfter("-", s);
    EndsAfter(" ", "-" + s);
    EndsAfter("]", " " + ("-" + s));
    EndsAfter(release, "]" + (" " + ("-" + s)));
    StripIndented("\t", "[" + (release + ("]" + (" " + ("-" + s)))));
  }

  lemma PackageText(u: Unicode, p: Package)
    requires WellFormedPackage(u, p)
    ensures var line := Strip(PrintPackage(p));
            MatchHeader(u, line).None? && MatchCves(line).None? && MatchPackage(u, line) == Some(p)
  {
    var s := " " + (p.name + (" " + p.fixedVersion));
    EndsAfter(" ", p.fixedVersion);
    EndsAfter(p.name, " " + p.fixedVersion);
    EndsAfter(" ", p.name + (" " + p.fixedVersion));
    PackageStripped(p.release, s);
    PackageTextOf(u, p, s);
  }

  lemma PackageTextOf(u: Unicode, p: Package, s: string)
    requires WellFormedPackage(u, p) && s == " " + (p.name + (" " + p.fixedVersion))
    ensures var line := "[" + (p.release + ("]" + (" " + ("-" + s))));
            MatchHeader(u, line).None? && MatchCves(line).None? && MatchPackage(u, line) == Some(p)
  {
    NameVersionFormMatches(s, " ", p.name, " ", p.fixedVersion);
    PackageMatches(u, p.release, " ", s, p.name, p.fixedVersion);
    NoHeader(u, p.release, " " + ("-" + s));
  }

  /** What the lines of an advisory are. */
  function Kinds(a: Advisory): seq<Line>
    requires ValidDate(a.published)
  {
    [Header(PrintDate(a.published), a.id, a.title)] + (if a.cves == [] then [] else [Cves(a.cves)])
    + FixedLines(a.packages)
  }

  function FixedLines(packages: seq<Package>): seq<Line> {
    seq(|packages|, i requires 0 <= i < |packages| => Fixed(packages[i]))
  }

  /** A classifier that sees each line of `a` for what it is. */
  predicate Sees(f: string -> Line, a: Advisory)
    requires ValidDate(a.published)
  {
    && f(PrintHeader(a)) == Header(PrintDate(a.published), a.id, a.title)
    && (a.cves != [] ==> f(PrintCves(a.cves)) == Cves(a.cves))
    && forall i :: 0 <= i < |a.packages| ==> f(PrintPackage(a.packages[i])) == Fixed(a.packages[i])
  }

  lemma ClassifierSees(u: Unicode, a: Advisory)
    requires WellFormed(u, a)
    ensures Sees(Classifier(u), a)
  {
    var major, minor :| Run(Decimals(u), major) && Run(Decimals(u), minor) && a.id == IdOf(major, minor);
    DateRoundTrip(u, a.published);
    HeaderText(u, PrintDate(a.published), major, minor, a.title);
    HeaderStripped(a);
    ClassifiedBy(u, PrintHeader(a));
    CvesText(u, a.cves);
    ClassifiedBy(u, PrintCves(a.cves));
    forall i | 0 <= i < |a.packages|
      ensures Classify(u, PrintPackage(a.packages[i])) == Fixed(a.packages[i])
    {
      PackageText(u, a.packages[i]);
      ClassifiedBy(u, PrintPackage(a.packages[i]));
    }
  }

  lemma MappedConcat(f: string -> Line, raws: seq<string>, more: seq<string>)
    ensures Mapped(f, raws + more) == Mapped(f, raws) + Mapped(f, more)
  {
  }

  lemma PrintedAs(f: string -> Line, a: Advisory)
    requires ValidDate(a.published) && Sees(f, a)
    ensures Mapped(f, Print(a)) == Kinds(a)
  {
    MappedConcat(f, [PrintHeader(a)], if a.cves == [] then [] else [PrintCves(a.cves)]);
    MappedConcat(f, [PrintHeader(a)] + (if a.cves == [] then [] else [PrintCves(a.cves)]), PrintPackages(a.packages));
  }

  ghost function KindsAll(u: Unicode, advisories: seq<Advisory>): seq<Line>
    requires AllWellFormed(u, advisories)
  {
    if advisories == [] then [] else Kinds(advisories[0]) + KindsAll(u, advisories[1..])
  }

  lemma {:induction false} AllPrintedAs(u: Unicode, f: string -> Line, advisories: seq<Advisory>)
    requires AllWellFormed(u, advisories) && forall i :: 0 <= i < |advisories| ==> Sees(f, advisories[i])
    ensures Mapped(f, PrintAll(u, advisories)) == KindsAll(u, advisories)
  {
    if advisories != [] {
      PrintedAs(f, advisories[0]);
      MappedConcat(f, Print(advisories[0]), PrintAll(u, advisories[1..]));
      AllPrintedAs(u, f, advisories[1..]);
    }
  }

  // ----- parsing the printed lines -------------------------------------------------------------------------

  lemma {:induction false} PackagesParse(u: Unicode, a: Advisory, packages: seq<Package>, rest: seq<Line>)
    ensures Continue(u, a, FixedLines(packages) + rest) == Continue(u, a.(packages := a.packages + packages), rest)
    decreases |packages|
  {
    var lines := FixedLines(packages);
    if packages == [] {
      assert lines + rest == rest && a.packages + packages == a.packages;
    } else {
      assert (lines + rest)[1..] == FixedLines(packages[1..]) + rest;
      PackagesParse(u, a.(packages := a.packages + [packages[0]]), packages[1..], rest);
      assert (a.packages + [packages[0]]) + packages[1..] == a.packages + packages;
    }
  }

  lemma AdvisoryParses(u: Unicode, current: Option<Advisory>, a: Advisory, rest: seq<Line>)
    requires ValidDate(a.published)
    ensures Resume(u, current, Kinds(a) + rest) ==
              if current.Some? then Prepend(current.value, Continue(u, a, rest)) else Continue(u, a, rest)
  {
    DateRoundTrip(u, a.published);
    var lines := Kinds(a) + rest;
    var bare := a.(cves := [], packages := []);
    assert NewAdvisory(u, lines[0]) == bare;
    assert Continue(u, bare, lines[1..]) == Continue(u, a, rest) by {
      if a.cves == [] {
        assert lines[1..] == FixedLines(a.packages) + rest;
      } else {
        assert lines[1..][1..] == FixedLines(a.packages) + rest;
      }
      PackagesParse(u, bare.(cves := a.cves), a.packages, rest);
      assert [] + a.packages == a.packages;
    }
  }

  function After(current: Option<Advisory>, advisories: seq<Advisory>): seq<Advisory> {
    if current.Some? then [current.value] + advisories else advisories
  }

  lemma KindsStep(u: Unicode, current: Option<Advisory>, a: Advisory, rest: seq<Line>, advisories: seq<Advisory>)
    requires ValidDate(a.published) && Continue(u, a, rest) == Some([a] + advisories)
    ensures Resume(u, current, Kinds(a) + rest) == Some(After(current, [a] + advisories))
  {
    AdvisoryParses(u, current, a, rest);
  }

  lemma {:induction false} KindsParse(u: Unicode, current: Option<Advisory>, advisories: seq<Advisory>)
    requires AllWellFormed(u, advisories)
    ensures Resume(u, current, KindsAll(u, advisories)) == Some(After(current, advisories))
    decreases |advisories|
  {
    if advisories == [] {
      assert After(current, advisories) == if current.Some? then [current.value] else [];
    } else {
      var a := advisories[0];
      KindsParse(u, Some(a), advisories[1..]);
      KindsStep(u, current, a, KindsAll(u, advisories[1..]), advisories[1..]);
      assert [a] + advisories[1..] == advisories;
    }
  }

  // ----- noise ----------------------------------------------------------------------------------------

  /** The lines that the classifier `f` recognises. */
  function Recognised(f: string -> Line, raws: seq<string>): seq<string> {
    if raws == [] then []
    else (if f(raws[0]) == Unknown then [] else [raws[0]]) + Recognised(f, raws[1..])
  }

  lemma MappedCons(f: string -> Line, raw: string, raws: seq<string>)
    ensures Mapped(f, [raw] + raws) == [f(raw)] + Mapped(f, raws)
  {
  }

  lemma {:induction false} NoiseIsIgnored(u: Unicode, f: string -> Line, current: Option<Advisory>, raws: seq<string>)
    ensures Resume(u, current, Mapped(f, raws)) == Resume(u, current, Mapped(f, Recognised(f, raws)))
    decreases |raws|
  {
    if raws != [] {
      var line := f(raws[0]);
      assert raws == [raws[0]] + raws[1..];
      MappedCons(f, raws[0], raws[1..]);
      if line == Unknown {
        assert Recognised(f, raws) == Recognised(f, raws[1..]);
        NoiseIsIgnored(u, f, current, raws[1..]);
      } else {
        MappedCons(f, raws[0], Recognised(f, raws[1..]));
        if Datable(u, line) {
          NoiseIsIgnored(u, f, if line.Header? then Some(NewAdvisory(u, line)) else Absorb(current, line), raws[1..]);
        }
      }
    }
  }

  /** Parsing the printed form of any well-formed list, with lines no pattern takes put in anywhere,
      gives exactly that list. */
  lemma DsaRoundTrip(u: Unicode, advisories: seq<Advisory>, raws: seq<string>)
    requires AllWellFormed(u, advisories)
    requires Recognised(Classifier(u), raws) == PrintAll(u, advisories)
    requires forall i :: 0 <= i < |raws| ==> All(NotBreak, raws[i])
    ensures Parse(u, ClassifyAll(u, SplitLines(Unlines(raws)))) == Some(advisories)
  {
    SplitLinesOfUnlines(raws);
    NoiseIsIgnored(u, Classifier(u), None, raws);
    forall i | 0 <= i < |advisories| ensures Sees(Classifier(u), advisories[i]) {
      ClassifierSees(u, advisories[i]);
    }
    AllPrintedAs(u, Classifier(u), advisories);
    KindsParse(u, None, advisories);
  }
}
