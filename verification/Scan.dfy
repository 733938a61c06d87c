/** Characters and spans of characters, as Python's str methods and re see them. */
module Scan {
  import opened Options

  // str.isspace, and \s in a pattern over str
  predicate IsSpace(c: char) {
    '\t' <= c <= '\r' || '\U{1C}' <= c <= ' ' || c == '\U{85}' || c == '\U{A0}' || c == '\U{1680}'
    || '\U{2000}' <= c <= '\U{200A}' || c == '\U{2028}' || c == '\U{2029}' || c == '\U{202F}' || c == '\U{205F}'
    || c == '\U{3000}'
  }

  predicate IsGraph(c: char) {
    !IsSpace(c)
  }

  // The line boundaries of str.splitlines
  predicate IsBreak(c: char) {
    '\n' <= c <= '\r' || '\U{1C}' <= c <= '\U{1E}' || c == '\U{85}' || c == '\U{2028}' || c == '\U{2029}'
  }

  predicate IsDigit(c: char) {
    '0' <= c <= '9'
  }

  predicate IsWord(c: char) {
    'a' <= c <= 'z' || 'A' <= c <= 'Z' || IsDigit(c) || c == '_'
  }

  predicate All(p: char -> bool, s: string) {
    forall i :: 0 <= i < |s| ==> p(s[i])
  }

  /** How far `p` holds from the start of `s`: what a greedy p+ takes. */
  function Span(p: char -> bool, s: string): (n: nat)
    ensures n <= |s| && All(p, s[..n])
    ensures n == |s| || !p(s[n])
  {
    if s == "" || !p(s[0]) then 0
    else
      var n := Span(p, s[1..]);
      assert s[..n + 1] == [s[0]] + s[1..][..n];
      n + 1
  }

  predicate Stops(p: char -> bool, s: string) {
    s == "" || !p(s[0])
  }

  /** A run of p-characters that something else ends is exactly what Span takes. */
  lemma SpanOf(p: char -> bool, run: string, rest: string)
    requires All(p, run) && Stops(p, rest)
    ensures Span(p, run + rest) == |run|
    ensures (run + rest)[..|run|] == run && (run + rest)[|run|..] == rest
  {
    var n := Span(p, run + rest);
    assert forall i :: 0 <= i < |run| ==> (run + rest)[i] == run[i];
    assert forall i :: 0 <= i < n ==> (run + rest)[..n][i] == (run + rest)[i];
    assert rest != "" ==> (run + rest)[|run|] == rest[0];
  }

  predicate Run(p: char -> bool, s: string) {
    s != "" && All(p, s)
  }

  /** A greedy p+ at the start of `s`: what it takes, and what is left. */
  function TakeRun(p: char -> bool, s: string): (r: Option<(string, string)>)
    ensures r.Some? ==> s == r.value.0 + r.value.1 && Run(p, r.value.0) && Stops(p, r.value.1)
  {
    var n := Span(p, s);
    if n == 0 then None else Some((s[..n], s[n..]))
  }

  lemma TakeRunOf(p: char -> bool, run: string, rest: string)
    requires Run(p, run) && Stops(p, rest)
    ensures TakeRun(p, run + rest) == Some((run, rest))
  {
    SpanOf(p, run, rest);
  }

  /** One given character at the start of `s`: what is left after it. */
  function Expect(c: char, s: string): (r: Option<string>)
    ensures r.Some? ==> s == [c] + r.value
  {
    if s == "" || s[0] != c then None else Some(s[1..])
  }

  lemma ExpectOf(c: char, rest: string)
    ensures Expect(c, [c] + rest) == Some(rest)
  {
    assert ([c] + rest)[1..] == rest;
  }

  function LStrip(s: string): string {
    s[Span(IsSpace, s)..]
  }

  function RStrip(s: string): string {
    if s != "" && IsSpace(s[|s| - 1]) then RStrip(s[..|s| - 1]) else s
  }

  // str.strip
  function Strip(s: string): string {
    RStrip(LStrip(s))
  }

  predicate Trimmed(s: string) {
    s != "" && IsGraph(s[0]) && IsGraph(s[|s| - 1])
  }

  lemma StripIndented(margin: string, s: string)
    requires All(IsSpace, margin) && Trimmed(s)
    ensures Strip(margin + s) == s
  {
    SpanOf(IsSpace, margin, s);
  }

  lemma StripTrimmed(s: string)
    requires Trimmed(s)
    ensures Strip(s) == s
  {
    StripIndented("", s);
    assert "" + s == s;
  }

  predicate EndsGraph(s: string) {
    s != "" && IsGraph(s[|s| - 1])
  }

  lemma EndsAfter(front: string, s: string)
    requires EndsGraph(s)
    ensures EndsGraph(front + s)
  {
  }

  // "\n".join
  function Join(lines: seq<string>): string
    decreases |lines|, 0
  {
    if lines == [] then "" else lines[0] + JoinTail(lines[1..])
  }

  function JoinTail(lines: seq<string>): string
    decreases |lines|, 1
  {
    if lines == [] then "" else "\n" + Join(lines)
  }

  /** str.split() on white space. */
  function Split(s: string): seq<string>
    decreases |s|
  {
    var rest := LStrip(s);
    if rest == "" then []
    else
      var n := Span(IsGraph, rest);
      [rest[..n]] + Split(rest[n..])
  }

  predicate Word(s: string) {
    s != "" && All(IsGraph, s)
  }

  function JoinWords(words: seq<string>): string {
    if words == [] then "" else if |words| == 1 then words[0] else words[0] + " " + JoinWords(words[1..])
  }

  lemma {:induction false} SplitOfJoin(words: seq<string>)
    requires forall i :: 0 <= i < |words| ==> Word(words[i])
    ensures Split(JoinWords(words)) == words
  {
    if words != [] {
      var tail := if |words| == 1 then "" else " " + JoinWords(words[1..]);
      assert JoinWords(words) == words[0] + tail;
      assert Span(IsSpace, words[0] + tail) == 0;
      SpanOf(IsGraph, words[0], tail);
      SplitOfJoin(words[1..]);
      if |words| > 1 {
        SplitSkipsBlank(JoinWords(words[1..]));
      }
      assert words == [words[0]] + words[1..];
    }
  }

  lemma SplitSkipsBlank(s: string)
    ensures Split(" " + s) == Split(s)
  {
    assert (" " + s)[1..] == s;
    assert Span(IsSpace, " " + s) == 1 + Span(IsSpace, s);
    assert LStrip(" " + s) == LStrip(s);
  }

  /** str.splitlines(), without the ends; "\r\n" is one boundary. */
  function SplitLines(s: string): seq<string>
    decreases |s|
  {
    if s == "" then []
    else
      var n := Span(NotBreak, s);
      if n == |s| then [s]
      else
        var next := if s[n] == '\r' && n + 1 < |s| && s[n + 1] == '\n' then n + 2 else n + 1;
        [s[..n]] + SplitLines(s[next..])
  }

  predicate NotBreak(c: char) {
    !IsBreak(c)
  }

  function Unlines(lines: seq<string>): string {
    if lines == [] then "" else lines[0] + "\n" + Unlines(lines[1..])
  }

  lemma {:induction false} SplitLinesOfUnlines(lines: seq<string>)
    requires forall i :: 0 <= i < |lines| ==> All(NotBreak, lines[i])
    ensures SplitLines(Unlines(lines)) == lines
  {
    if lines != [] {
      var rest := Unlines(lines[1..]);
      var text := lines[0] + ("\n" + rest);
      assert Unlines(lines) == text;
      SpanOf(NotBreak, lines[0], "\n" + rest);
      assert text[|lines[0]|] == '\n' && text[|lines[0]| + 1..] == rest;
      assert SplitLines(text) == [lines[0]] + SplitLines(rest);
      SplitLinesOfUnlines(lines[1..]);
      assert lines == [lines[0]] + lines[1..];
    }
  }
}
