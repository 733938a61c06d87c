/** Debian's data/DSA/list (app/errata_ingest.py): the three line patterns, the block parser, and
    the printed form it inverts. */
module DsaList {
  import opened Options
  import opened Scan

  datatype Date = Date(day: nat, month: nat, year: nat)

  datatype Package = Package(release: string, name: string, fixedVersion: string)

  datatype Advisory = Advisory(id: string, title: string, published: Date, cves: seq<string>, packages: seq<Package>)

  // ----- characters -------------------------------------------------------------------------------

  /** The interpreter's Unicode database, for what ASCII does not settle. */
  datatype Unicode = Unicode(alphanumeric: char -> bool, decimal: char -> Option<nat>)

  // No character beyond ASCII is a blank and a letter or digit at once.
  predicate Beyond(c: char) {
    c > '\U{7F}' && IsGraph(c)
  }

  // \d in a pattern over str
  predicate IsDecimal(u: Unicode, c: char) {
    IsDigit(c) || (Beyond(c) && u.decimal(c).Some? && u.decimal(c).value < 10)
  }

  // \w in a pattern over str
  predicate IsWordChar(u: Unicode, c: char) {
    IsWord(c) || IsDecimal(u, c) || (Beyond(c) && u.alphanumeric(c))
  }

  function Decimals(u: Unicode): char -> bool {
    c => IsDecimal(u, c)
  }

  function WordChars(u: Unicode): char -> bool {
    c => IsWordChar(u, c)
  }

  // int() of one decimal digit
  function Digit(u: Unicode, c: char): (n: nat)
    requires IsDecimal(u, c)
    ensures n < 10
  {
    if IsDigit(c) then c as int - '0' as int else u.decimal(c).value
  }

  // ----- dates ------------------------------------------------------------------------------------

  const MONTHS := ["jan", "feb", "mar", "apr", "may", "jun", "jul", "aug", "sep", "oct", "nov", "dec"]

  function Lower(c: char): char {
    if 'A' <= c <= 'Z' then (c as int + 32) as char else c
  }

  function MonthNumber(s: string): nat
    requires |s| == 3
  {
    var lower := [Lower(s[0]), Lower(s[1]), Lower(s[2])];
    if lower == MONTHS[0] then 1 else if lower == MONTHS[1] then 2 else if lower == MONTHS[2] then 3
    else if lower == MONTHS[3] then 4 else if lower == MONTHS[4] then 5 else if lower == MONTHS[5] then 6
    else if lower == MONTHS[6] then 7 else if lower == MONTHS[7] then 8 else if lower == MONTHS[8] then 9
    else if lower == MONTHS[9] then 10 else if lower == MONTHS[10] then 11 else if lower == MONTHS[11] then 12
    else 0
  }

  predicate Leap(year: nat) {
    year % 4 == 0 && (year % 100 != 0 || year % 400 == 0)
  }

  function DaysIn(month: nat, year: nat): nat {
    if month == 2 then (if Leap(year) then 29 else 28)
    else if month in {4, 6, 9, 11} then 30 else 31
  }

  predicate ValidDate(d: Date) {
    1 <= d.year <= 9999 && 1 <= d.month <= 12 && 1 <= d.day <= DaysIn(d.month, d.year)
  }

  /** The dates of the Gregorian calendar, month by month. */
  lemma ValidDateIff(d: Date)
    ensures ValidDate(d) <==>
              && 1 <= d.year <= 9999 && d.day >= 1
              && (d.month in {1, 3, 5, 7, 8, 10, 12} ==> d.day <= 31) && (d.month in {4, 6, 9, 11} ==> d.day <= 30)
              && (d.month == 2 ==> d.day <= 28
                                   || (d.day == 29 && (d.year % 400 == 0 || (d.year % 4 == 0 && d.year % 100 != 0))))
              && 1 <= d.month <= 12
  {
  }

  // \d{2} \w{3} \d{4}
  predicate DateShape(u: Unicode, s: string) {
    |s| == 11 && IsDecimal(u, s[0]) && IsDecimal(u, s[1]) && s[2] == ' '
    && IsWordChar(u, s[3]) && IsWordChar(u, s[4]) && IsWordChar(u, s[5])
    && s[6] == ' ' && IsDecimal(u, s[7]) && IsDecimal(u, s[8]) && IsDecimal(u, s[9]) && IsDecimal(u, s[10])
  }

  /** What %d takes of two characters: 3[0-1], [1-2]\d or 0[1-9], where only \d goes beyond ASCII. */
  predicate DayText(tens: char, units: char) {
    match tens
    case '0' => '1' <= units <= '9'
    case '3' => '0' <= units <= '1'
    case _ => '1' <= tens <= '2'
  }

  /** datetime.strptime with "%d %b %Y"; None is its ValueError. */
  function ParseDate(u: Unicode, s: string): Option<Date>
    requires DateShape(u, s)
  {
    var d := Date(10 * Digit(u, s[0]) + Digit(u, s[1]), MonthNumber(s[3..6]),
                  1000 * Digit(u, s[7]) + 100 * Digit(u, s[8]) + 10 * Digit(u, s[9]) + Digit(u, s[10]));
    if DayText(s[0], s[1]) && ValidDate(d) then Some(d) else None
  }

  // ----- the three patterns, on a stripped line -----------------------------------------------------------

  datatype Line =
    | Header(date: string, id: string, title: string)
    | Cves(cves: seq<string>)
    | Fixed(package: Package)
    | Unknown                     // blank, or matched by no pattern

  const DSA := "DSA-"

  function IdOf(major: string, minor: string): string {
    DSA + major + "-" + minor
  }

  /** DSA-\d+-\d+ */
  function MatchId(u: Unicode, s: string): Option<(string, string)> {
    if !(DSA <= s) then None
    else
      var (major, s1) :- TakeRun(Decimals(u), s[4..]);
      var s2 :- Expect('-', s1);
      var (minor, s3) :- TakeRun(Decimals(u), s2);
      Some((IdOf(major, minor), s3))
  }

  /** \s+(DSA-\d+-\d+)\s+(.+)$ */
  function MatchIdTitle(u: Unicode, s: string): Option<(string, string)> {
    var (_, s1) :- TakeRun(IsSpace, s);
    var (id, s2) :- MatchId(u, s1);
    var (_, title) :- TakeRun(IsSpace, s2);
    if title == "" then None else Some((id, title))
  }

  /** ^\[(\d{2} \w{3} \d{4})\]\s+(DSA-\d+-\d+)\s+(.+)$ */
  function MatchHeader(u: Unicode, line: string): (m: Option<Line>)
    ensures m.Some? ==> m.value.Header? && DateShape(u, m.value.date)
  {
    var s1 :- Expect('[', line);
    if |s1| < 11 || !DateShape(u, s1[..11]) then None
    else
      var s2 :- Expect(']', s1[11..]);
      var (id, title) :- MatchIdTitle(u, s2);
      Some(Header(s1[..11], id, title))
  }

  /** ^\{([^}]*)\}$ */
  function MatchCves(line: string): Option<seq<string>> {
    if |line| >= 2 && line[0] == '{' && line[|line| - 1] == '}' && '}' !in line[1..|line| - 1] then
      Some(Split(line[1..|line| - 1]))
    else None
  }

  /** \s+(\S+)\s+(\S+)$ */
  function MatchNameVersion(s: string): Option<(string, string)> {
    var (_, s1) :- TakeRun(IsSpace, s);
    var (name, s2) :- TakeRun(IsGraph, s1);
    var (_, s3) :- TakeRun(IsSpace, s2);
    var (version, s4) :- TakeRun(IsGraph, s3);
    if s4 == "" then Some((name, version)) else None
  }

  /** \]\s+-\s+(\S+)\s+(\S+)$ */
  function MatchAfterRelease(s: string): Option<(string, string)> {
    var s1 :- Expect(']', s);
    var (_, s2) :- TakeRun(IsSpace, s1);
    var s3 :- Expect('-', s2);
    MatchNameVersion(s3)
  }

  /** ^\[(\w+)\]\s+-\s+(\S+)\s+(\S+)$ */
  function MatchPackage(u: Unicode, line: string): Option<Package> {
    var s1 :- Expect('[', line);
    var (release, s2) :- TakeRun(WordChars(u), s1);
    var (name, version) :- MatchAfterRelease(s2);
    Some(Package(release, name, version))
  }

  function Classify(u: Unicode, raw: string): Line {
    var line := Strip(raw);
    match MatchHeader(u, line)
    case Some(header) => header
    case None =>
      match MatchCves(line)
      case Some(cves) => Cves(cves)
      case None =>
        match MatchPackage(u, line)
        case Some(package) => Fixed(package)
        case None => Unknown
  }

  function Classifier(u: Unicode): string -> Line {
    raw => Classify(u, raw)
  }

  function Mapped(f: string -> Line, raws: seq<string>): seq<Line> {
    seq(|raws|, i requires 0 <= i < |raws| => f(raws[i]))
  }

  function ClassifyAll(u: Unicode, raws: seq<string>): seq<Line> {
    Mapped(Classifier(u), raws)
  }

  // ----- blocks ---------------------------------------------------------------------------------------------

  /** A header's date that strptime takes; a line that is no header has nothing to refuse. */
  predicate Datable(u: Unicode, l: Line) {
    l.Header? ==> DateShape(u, l.date) && ParseDate(u, l.date).Some?
  }

  function NewAdvisory(u: Unicode, l: Line): Advisory
    requires l.Header? && Datable(u, l)
  {
    Advisory(l.id, l.title, ParseDate(u, l.date).value, [], [])
  }

  function Prepend(a: Advisory, rest: Option<seq<Advisory>>): Option<seq<Advisory>> {
    if rest.Some? then Some([a] + rest.value) else None
  }

  /** The advisories of the lines; None when a header's date is refused. Lines before the first
      header are skipped. */
  function Parse(u: Unicode, lines: seq<Line>): Option<seq<Advisory>>
    decreases |lines|
  {
    if lines == [] then Some([])
    else if !Datable(u, lines[0]) then None
    else if lines[0].Header? then Continue(u, NewAdvisory(u, lines[0]), lines[1..])
    else Parse(u, lines[1..])
  }

  /** The same, in the middle of the block of `a`. */
  function Continue(u: Unicode, a: Advisory, lines: seq<Line>): Option<seq<Advisory>>
    decreases |lines|
  {
    if lines == [] then Some([a])
    else if !Datable(u, lines[0]) then None
    else
      match lines[0]
      case Header(_, _, _) => Prepend(a, Continue(u, NewAdvisory(u, lines[0]), lines[1..]))
      case Cves(cves) => Continue(u, a.(cves := cves), lines[1..])
      case Fixed(p) => Continue(u, a.(packages := a.packages + [p]), lines[1..])
      case Unknown => Continue(u, a, lines[1..])
  }

  function Resume(u: Unicode, current: Option<Advisory>, lines: seq<Line>): Option<seq<Advisory>> {
    match current
    case None => Parse(u, lines)
    case Some(a) => Continue(u, a, lines)
  }

  function Append(done: seq<Advisory>, rest: Option<seq<Advisory>>): Option<seq<Advisory>> {
    if rest.Some? then Some(done + rest.value) else None
  }

  lemma AppendToNothing(rest: Option<seq<Advisory>>)
    ensures Append([], rest) == rest
  {
    if rest.Some? {
      assert [] + rest.value == rest.value;
    }
  }

  lemma AppendBlock(done: seq<Advisory>, a: Advisory, rest: Option<seq<Advisory>>)
    ensures Append(done, Prepend(a, rest)) == Append(done + [a], rest)
  {
    if rest.Some? {
      assert done + ([a] + rest.value) == done + [a] + rest.value;
    }
  }

  /** What a line that opens no block does to the block it stands in, if any. */
  function Absorb(current: Option<Advisory>, line: Line): Option<Advisory> {
    match (current, line)
    case (Some(a), Cves(cves)) => Some(a.(cves := cves))
    case (Some(a), Fixed(p)) => Some(a.(packages := a.packages + [p]))
    case _ => current
  }

  /** One turn of the loop: a header closes the block before it, any other line is absorbed. */
  lemma OneLine(u: Unicode, done: seq<Advisory>, current: Option<Advisory>, lines: seq<Line>)
    requires lines != [] && (current.None? ==> done == [])
    ensures !lines[0].Header? ==> Resume(u, current, lines) == Resume(u, Absorb(current, lines[0]), lines[1..])
    ensures !Datable(u, lines[0]) ==> Resume(u, current, lines).None?
    ensures lines[0].Header? && Datable(u, lines[0]) ==>
              Append(done, Resume(u, current, lines)) ==
              Append(if current.Some? then done + [current.value] else done,
                     Resume(u, Some(NewAdvisory(u, lines[0])), lines[1..]))
  {
    if lines[0].Header? && Datable(u, lines[0]) && current.Some? {
      AppendBlock(done, current.value, Continue(u, NewAdvisory(u, lines[0]), lines[1..]));
    }
  }

  // The branches of the loop body, in their order.
  lemma ClassifiedBy(u: Unicode, raw: string)
    ensures var line := Strip(raw);
            && (MatchHeader(u, line).Some? ==> Classify(u, raw) == MatchHeader(u, line).value)
            && (MatchHeader(u, line).None? ==>
                  && !Classify(u, raw).Header?
                  && (MatchCves(line).Some? ==> Classify(u, raw) == Cves(MatchCves(line).value))
                  && (MatchCves(line).None? && MatchPackage(u, line).Some? ==>
                        Classify(u, raw) == Fixed(MatchPackage(u, line).value))
                  && (MatchCves(line).None? && MatchPackage(u, line).None? ==> Classify(u, raw) == Unknown))
            && (line == "" ==> Classify(u, raw) == Unknown)
  {
  }

  /** parse_dsa_list: None is the ValueError of a date that strptime refuses. */
  method ParseDsaList(u: Unicode, text: string) returns (parsed: Option<seq<Advisory>>)
    ensures parsed == Parse(u, ClassifyAll(u, SplitLines(text)))
  {
    var raws := SplitLines(text);
    ghost var lines := ClassifyAll(u, raws);
    var results: seq<Advisory> := [];
    var current: Option<Advisory> := None;
    assert lines[0..] == lines;
    AppendToNothing(Parse(u, lines));
    for i := 0 to |raws|
      invariant current.None? ==> results == []
      invariant Append(results, Resume(u, current, lines[i..])) == Parse(u, lines)
    {
      assert lines[i..][1..] == lines[i + 1..];
      OneLine(u, results, current, lines[i..]);
      ClassifiedBy(u, raws[i]);
      var line := Strip(raws[i]);
      if line == "" {
        continue;
      }
      var header := MatchHeader(u, line);
      if header.Some? {
        var published := ParseDate(u, header.value.date);
        if published.None? {
          return None;
        }
        if current.Some? {
          results := results + [current.value];
        }
        current := Some(Advisory(header.value.id, header.value.title, published.value, [], []));
        continue;
      }
      if current.None? {
        continue;
      }
      var cves := MatchCves(line);
      if cves.Some? {
        current := Some(current.value.(cves := cves.value));
        continue;
      }
      var package := MatchPackage(u, line);
      if package.Some? {
        current := Some(current.value.(packages := current.value.packages + [package.value]));
        continue;
      }
    }
    assert lines[|raws|..] == [] && results + [] == results;
    if current.Some? {
      results := results + [current.value];
    }
    parsed := Some(results);
  }
}
