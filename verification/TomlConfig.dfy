/** The CLI's config file (cli/groundctl_cli/config.py): the hand-written serializer, and a reader
    that follows the TOML v1.0.0 grammar for the part of the language the file uses. */
module TomlConfig {
  import opened Options
  import Scan

  // ----- the writer ---------------------------------------------------------------------------------

  function QuoteChar(c: char): string {
    if c == '\\' then "\\\\"
    else if c == '"' then "\\\""
    else if c == '\n' then "\\n"
    else if c == '\r' then "\\r"
    else if c == '\t' then "\\t"
    else if c < ' ' then ""
    else [c]
  }

  function QuoteBody(s: string): string {
    if s == "" then "" else QuoteChar(s[0]) + QuoteBody(s[1..])
  }

  function Quote(s: string): string {
    "\"" + QuoteBody(s) + "\""
  }

  datatype Config = Config(apiUrl: Option<string>, refreshToken: Option<string>)

  const API_URL := "api_url"
  const REFRESH_TOKEN := "refresh_token"

  function Line(key: string, value: string): string {
    key + " = " + Quote(value)
  }

  function Lines(c: Config): seq<string> {
    (if c.apiUrl.Some? then [Line(API_URL, c.apiUrl.value)] else [])
    + (if c.refreshToken.Some? then [Line(REFRESH_TOKEN, c.refreshToken.value)] else [])
  }

  function Serialize(c: Config): string {
    Scan.Join(Lines(c)) + "\n"
  }

  lemma {:induction false} QuoteBodyAppend(s: string, c: char)
    ensures QuoteBody(s + [c]) == QuoteBody(s) + QuoteChar(c)
  {
    if s == "" {
      assert QuoteBody([c]) == QuoteChar(c) + QuoteBody("");
    } else {
      assert (s + [c])[1..] == s[1..] + [c];
      QuoteBodyAppend(s[1..], c);
    }
  }

  method TomlQuote(value: string) returns (quoted: string)
    ensures quoted == Quote(value)
  {
    var out := "";
    for i := 0 to |value|
      invariant out == QuoteBody(value[..i])
    {
      var c := value[i];
      QuoteBodyAppend(value[..i], c);
      assert value[..i + 1] == value[..i] + [c];
      if c == '\\' {
        out := out + "\\\\";
      } else if c == '"' {
        out := out + "\\\"";
      } else if c == '\n' {
        out := out + "\\n";
      } else if c == '\r' {
        out := out + "\\r";
      } else if c == '\t' {
        out := out + "\\t";
      } else if c < ' ' {
        // Any other control character is dropped.
      } else {
        out := out + [c];
      }
    }
    assert value[..|value|] == value;
    return "\"" + out + "\"";
  }

  method SaveConfig(c: Config) returns (content: string)
    ensures content == Serialize(c)
  {
    var lines: seq<string> := [];
    if c.apiUrl.Some? {
      var quoted := TomlQuote(c.apiUrl.value);
      lines := lines + [API_URL + " = " + quoted];
    }
    if c.refreshToken.Some? {
      var quoted := TomlQuote(c.refreshToken.value);
      lines := lines + [REFRESH_TOKEN + " = " + quoted];
    }
    assert lines == Lines(c);
    content := Scan.Join(lines) + "\n";
  }

  lemma JoinOne(line: string)
    ensures Scan.Join([line]) == line
  {
    assert line + "" == line;
  }

  lemma JoinTwo(first: string, second: string)
    ensures Scan.Join([first, second]) + "\n" == first + ("\n" + (second + "\n"))
  {
    JoinOne(second);
    assert [first, second][1..] == [second];
    assert Scan.Join([first, second]) == first + ("\n" + second);
  }

  /** The file as it is written, key by key. */
  lemma WrittenText(c: Config)
    ensures Serialize(c) ==
              match (c.apiUrl, c.refreshToken)
              case (Some(url), Some(token)) =>
                "api_url = " + (Quote(url) + ("\n" + ("refresh_token = " + (Quote(token) + "\n"))))
              case (Some(url), None) => "api_url = " + (Quote(url) + "\n")
              case (None, Some(token)) => "refresh_token = " + (Quote(token) + "\n")
              case (None, None) => "\n"
  {
    match (c.apiUrl, c.refreshToken)
    case (Some(url), Some(token)) =>
      assert Lines(c) == [Line(API_URL, url), Line(REFRESH_TOKEN, token)];
      JoinTwo(Line(API_URL, url), Line(REFRESH_TOKEN, token));
      LineText(API_URL, url, "\n" + (Line(REFRESH_TOKEN, token) + "\n"));
      LineText(REFRESH_TOKEN, token, "\n");
    case (Some(url), None) =>
      assert Lines(c) == [Line(API_URL, url)];
      JoinOne(Line(API_URL, url));
      LineText(API_URL, url, "\n");
    case (None, Some(token)) =>
      assert Lines(c) == [Line(REFRESH_TOKEN, token)];
      JoinOne(Line(REFRESH_TOKEN, token));
      LineText(REFRESH_TOKEN, token, "\n");
    case (None, None) =>
  }

  lemma LineText(key: string, value: string, rest: string)
    ensures Line(key, value) + rest == (key + " = ") + (Quote(value) + rest)
  {
  }

  // ----- the reader --------------------------------------------------------------------------------------

  datatype Parsed<+T> = Bad | Good(value: T, rest: string)

  // basic-unescaped, section "String" of TOML v1.0.0.
  predicate Unescaped(c: char) {
    c == '\t' || c == ' ' || c == '!' || '#' <= c <= '[' || ']' <= c <= '~' || c >= '\U{80}'
  }

  function HexValue(c: char): Option<int> {
    if '0' <= c <= '9' then Some(c as int - '0' as int)
    else if 'a' <= c <= 'f' then Some(c as int - 'a' as int + 10)
    else if 'A' <= c <= 'F' then Some(c as int - 'A' as int + 10)
    else None
  }

  /** The value of n hexadecimal digits. */
  function Hex(s: string, n: nat): Option<int>
    requires n <= |s|
  {
    if n == 0 then Some(0)
    else match (Hex(s, n - 1), HexValue(s[n - 1]))
      case (Some(high), Some(low)) => Some(16 * high + low)
      case _ => None
  }

  function Scalar(code: Option<int>): Option<char> {
    match code
    case None => None
    case Some(n) => if 0 <= n < 0xD800 || 0xE000 <= n < 0x110000 then Some(n as char) else None
  }

  /** The character that an escape sequence stands for, after its backslash. */
  function Escape(s: string): (p: Parsed<char>)
    ensures p.Good? ==> |p.rest| < |s|
  {
    if s == "" then Bad
    else if s[0] == 'b' then Good('\U{8}', s[1..])
    else if s[0] == 't' then Good('\t', s[1..])
    else if s[0] == 'n' then Good('\n', s[1..])
    else if s[0] == 'f' then Good('\U{C}', s[1..])
    else if s[0] == 'r' then Good('\r', s[1..])
    else if s[0] == '"' then Good('"', s[1..])
    else if s[0] == '\\' then Good('\\', s[1..])
    else UnicodeEscape(s)
  }

  function UnicodeEscape(s: string): (p: Parsed<char>)
    requires s != ""
    ensures p.Good? ==> |p.rest| < |s|
  {
    if s[0] == 'u' && |s| >= 5 then Escaped(Scalar(Hex(s[1..5], 4)), s[5..])
    else if s[0] == 'U' && |s| >= 9 then Escaped(Scalar(Hex(s[1..9], 8)), s[9..])
    else Bad
  }

  function Escaped(c: Option<char>, rest: string): Parsed<char> {
    if c.Some? then Good(c.value, rest) else Bad
  }

  /** The rest of a basic string after its opening quote. */
  function BasicBody(s: string): Parsed<string>
    decreases |s|
  {
    if s == "" then Bad
    else if s[0] == '"' then Good("", s[1..])
    else if s[0] == '\\' then
      match Escape(s[1..])
      case Bad => Bad
      case Good(c, rest) => Prepend(c, BasicBody(rest))
    else if Unescaped(s[0]) then Prepend(s[0], BasicBody(s[1..]))
    else Bad
  }

  function Prepend(c: char, p: Parsed<string>): Parsed<string> {
    match p
    case Bad => Bad
    case Good(value, rest) => Good([c] + value, rest)
  }

  function BasicString(s: string): Parsed<string> {
    if s != "" && s[0] == '"' then BasicBody(s[1..]) else Bad
  }

  predicate BareKeyChar(c: char) {
    'a' <= c <= 'z' || 'A' <= c <= 'Z' || '0' <= c <= '9' || c == '-' || c == '_'
  }

  function BareKey(s: string): (p: (string, string))
    ensures |p.0| + |p.1| == |s|
  {
    if s != "" && BareKeyChar(s[0]) then
      var (key, rest) := BareKey(s[1..]);
      ([s[0]] + key, rest)
    else ("", s)
  }

  function SkipBlanks(s: string): (r: string)
    ensures |r| <= |s|
  {
    if s != "" && (s[0] == ' ' || s[0] == '\t') then SkipBlanks(s[1..]) else s
  }

  /** = "value", up to the end of the line. */
  function EqualsValue(s: string): Parsed<string> {
    if s == "" || s[0] != '=' then Bad
    else
      match BasicString(SkipBlanks(s[1..]))
      case Bad => Bad
      case Good(value, rest) =>
        var end := SkipBlanks(rest);
        if end == "" then Good(value, "")
        else if end[0] == '\n' then Good(value, end[1..])
        else Bad
  }

  function KeyValue(s: string): Parsed<(string, string)> {
    var (key, afterKey) := BareKey(s);
    if key == "" then Bad
    else
      match EqualsValue(SkipBlanks(afterKey))
      case Bad => Bad
      case Good(value, rest) => Good((key, value), rest)
  }

  function ReadEntries(s: string): Option<seq<(string, string)>>
    decreases |s|
  {
    if s == "" then Some([])
    else if s[0] == ' ' || s[0] == '\t' || s[0] == '\n' then ReadEntries(s[1..])
    else
      match KeyValue(s)
      case Bad => None
      case Good(entry, rest) =>
        if |rest| >= |s| then None else
          match ReadEntries(rest)
          case None => None
          case Some(entries) => Some([entry] + entries)
  }

  function Lookup(entries: seq<(string, string)>, key: string): Option<string> {
    if entries == [] then None
    else if entries[0].0 == key then Some(entries[0].1)
    else Lookup(entries[1..], key)
  }

  predicate DistinctKeys(entries: seq<(string, string)>) {
    forall i, j :: 0 <= i < j < |entries| ==> entries[i].0 != entries[j].0
  }

  /** load_config: tomllib's dictionary, of which two keys are read. None is a decoding error. */
  function Load(text: string): Option<Config> {
    match ReadEntries(text)
    case None => None
    case Some(entries) =>
      if !DistinctKeys(entries) then None
      else Some(Config(Lookup(entries, API_URL), Lookup(entries, REFRESH_TOKEN)))
  }

  // ----- round trip ---------------------------------------------------------------------------------------

  const DEL := '\U{7F}'

  /** What the writer leaves of a string: control characters other than tab, newline and carriage
      return are dropped. */
  function Stripped(s: string): string {
    if s == "" then ""
    else if s[0] < ' ' && s[0] != '\n' && s[0] != '\r' && s[0] != '\t' then Stripped(s[1..])
    else [s[0]] + Stripped(s[1..])
  }

  lemma {:induction false} EscapeReadsBack(letter: char, c: char, rest: string)
    requires Escape([letter] + rest) == Good(c, rest)
    ensures BasicBody(['\\', letter] + rest) == Prepend(c, BasicBody(rest))
  {
    var text := ['\\', letter] + rest;
    assert text[0] == '\\' && text[1..] == [letter] + rest;
  }

  lemma EscapeLetters(rest: string)
    ensures Escape("\\" + rest) == Good('\\', rest) && Escape("\"" + rest) == Good('"', rest)
    ensures Escape("n" + rest) == Good('\n', rest) && Escape("r" + rest) == Good('\r', rest)
    ensures Escape("t" + rest) == Good('\t', rest)
  {
    assert forall letter :: ([letter] + rest)[1..] == rest;
  }

  lemma {:induction false} CharReadsBack(c: char, rest: string)
    requires c != DEL
    requires c >= ' ' || c == '\n' || c == '\r' || c == '\t'
    ensures BasicBody(QuoteChar(c) + rest) == Prepend(c, BasicBody(rest))
  {
    if |QuoteChar(c)| == 2 {
      EscapeLetters(rest);
      EscapeReadsBack(QuoteChar(c)[1], c, rest);
    } else {
      assert ([c] + rest)[1..] == rest;
    }
  }

  lemma QuoteFirst(s: string, rest: string)
    requires s != ""
    ensures QuoteBody(s) + "\"" + rest == QuoteChar(s[0]) + (QuoteBody(s[1..]) + "\"" + rest)
  {
  }

  /** Reading a quoted string gives back the stripped string, and stops right after it. */
  lemma {:induction false} QuoteReadsBack(s: string, rest: string)
    requires DEL !in s
    ensures BasicBody(QuoteBody(s) + "\"" + rest) == Good(Stripped(s), rest)
  {
    if s == "" {
      assert QuoteBody(s) + "\"" + rest == "\"" + rest;
    } else {
      var tail := QuoteBody(s[1..]) + "\"" + rest;
      QuoteReadsBack(s[1..], rest);
      QuoteFirst(s, rest);
      if QuoteChar(s[0]) == "" {
        assert QuoteChar(s[0]) + tail == tail;
      } else {
        CharReadsBack(s[0], tail);
      }
    }
  }

  /** One DEL anywhere makes the written text unreadable: the writer passes it through, and the
      grammar does not allow it. */
  lemma {:induction false} DelIsRejected(s: string, rest: string)
    requires DEL in s
    ensures BasicBody(QuoteBody(s) + "\"" + rest).Bad?
  {
    var tail := QuoteBody(s[1..]) + "\"" + rest;
    QuoteFirst(s, rest);
    if s[0] == DEL {
      assert (QuoteChar(s[0]) + tail)[0] == DEL;
    } else {
      DelIsRejected(s[1..], rest);
      if QuoteChar(s[0]) == "" {
        assert QuoteChar(s[0]) + tail == tail;
      } else {
        CharReadsBack(s[0], tail);
      }
    }
  }

  lemma {:induction false} BareKeyReads(key: string, rest: string)
    requires forall i :: 0 <= i < |key| ==> BareKeyChar(key[i])
    requires rest != "" && !BareKeyChar(rest[0])
    ensures BareKey(key + rest) == (key, rest)
  {
    if key == "" {
      assert key + rest == rest;
    } else {
      assert (key + rest)[1..] == key[1..] + rest;
      BareKeyReads(key[1..], rest);
      assert [key[0]] + key[1..] == key;
    }
  }

  lemma QuotedReads(value: string, end: string)
    ensures BasicString(Quote(value) + end) == if DEL in value then Bad else Good(Stripped(value), end)
  {
    assert (Quote(value) + end)[1..] == QuoteBody(value) + "\"" + end;
    if DEL in value {
      DelIsRejected(value, end);
    } else {
      QuoteReadsBack(value, end);
    }
  }

  /** The quoted text is a basic string of TOML v1.0.0, standing for the stripped value, exactly
      when the value holds no DEL. */
  lemma QuotedIsBasicString(s: string)
    ensures BasicString(Quote(s)) == if DEL in s then Bad else Good(Stripped(s), "")
  {
    QuotedReads(s, "");
    assert Quote(s) + "" == Quote(s);
  }

  lemma BlankIsSkipped(s: string)
    requires s != "" && s[0] != ' ' && s[0] != '\t'
    ensures SkipBlanks(" " + s) == s && SkipBlanks(s) == s
  {
    assert (" " + s)[1..] == s;
  }

  lemma ValueReadsBack(value: string, rest: string)
    ensures EqualsValue("= " + (Quote(value) + ("\n" + rest))) ==
              if DEL in value then Bad else Good(Stripped(value), rest)
  {
    var end := "\n" + rest;
    var quoted := Quote(value) + end;
    assert ("= " + quoted)[1..] == " " + quoted;
    BlankIsSkipped(quoted);
    QuotedReads(value, end);
    BlankIsSkipped(end);
    assert end[1..] == rest;
  }

  /** One written line, followed by a newline, reads back as its key and stripped value, and a
      line whose value holds a DEL does not read at all. */
  lemma LineReadsBack(key: string, value: string, rest: string)
    requires key != "" && forall i :: 0 <= i < |key| ==> BareKeyChar(key[i])
    ensures KeyValue(Line(key, value) + "\n" + rest) ==
            if DEL in value then Bad else Good((key, Stripped(value)), rest)
  {
    var equals := "= " + (Quote(value) + ("\n" + rest));
    var after := " " + equals;
    assert Line(key, value) + "\n" + rest == key + after;
    BareKeyReads(key, after);
    BlankIsSkipped(equals);
    ValueReadsBack(value, rest);
  }

  function StrippedConfig(c: Config): Config {
    Config(if c.apiUrl.Some? then Some(Stripped(c.apiUrl.value)) else None,
           if c.refreshToken.Some? then Some(Stripped(c.refreshToken.value)) else None)
  }

  predicate HasDel(v: Option<string>) {
    v.Some? && DEL in v.value
  }

  lemma EntryReadsBack(key: string, value: string, rest: string)
    requires key != "" && forall i :: 0 <= i < |key| ==> BareKeyChar(key[i])
    ensures ReadEntries(Line(key, value) + "\n" + rest) ==
            if DEL in value || ReadEntries(rest).None? then None
            else Some([(key, Stripped(value))] + ReadEntries(rest).value)
  {
    var text := Line(key, value) + "\n" + rest;
    LineReadsBack(key, value, rest);
    assert text[0] == key[0];
  }

  function EntriesOf(c: Config): seq<(string, string)> {
    (if c.apiUrl.Some? then [(API_URL, c.apiUrl.value)] else [])
    + (if c.refreshToken.Some? then [(REFRESH_TOKEN, c.refreshToken.value)] else [])
  }

  lemma EntriesGiveConfig(c: Config)
    ensures var entries := EntriesOf(c);
            DistinctKeys(entries) && Lookup(entries, API_URL) == c.apiUrl
            && Lookup(entries, REFRESH_TOKEN) == c.refreshToken
  {
    var entries := EntriesOf(c);
    assert |API_URL| != |REFRESH_TOKEN|;
    if entries != [] {
      assert entries[1..] == if |entries| == 2 then [(REFRESH_TOKEN, c.refreshToken.value)] else [];
      assert |entries| == 2 ==> entries[1..][1..] == [];
    }
  }

  lemma WrittenEntries(c: Config)
    ensures ReadEntries(Serialize(c)) ==
            if HasDel(c.apiUrl) || HasDel(c.refreshToken) then None else Some(EntriesOf(StrippedConfig(c)))
  {
    assert ReadEntries("") == Some([]);
    var second := if c.refreshToken.Some? then Line(REFRESH_TOKEN, c.refreshToken.value) + "\n" else "";
    if c.refreshToken.Some? {
      EntryReadsBack(REFRESH_TOKEN, c.refreshToken.value, "");
      assert second == second + "";
      var entry := (REFRESH_TOKEN, Stripped(c.refreshToken.value));
      assert [entry] + [] == [entry] == [] + [entry];
    }
    if c.apiUrl.Some? {
      EntryReadsBack(API_URL, c.apiUrl.value, second);
      if c.refreshToken.Some? {
        assert Lines(c)[1..] == [Line(REFRESH_TOKEN, c.refreshToken.value)];
        JoinOne(Line(REFRESH_TOKEN, c.refreshToken.value));
        assert Scan.Join(Lines(c)) == Line(API_URL, c.apiUrl.value) + "\n" + Line(REFRESH_TOKEN, c.refreshToken.value);
      }
      JoinOne(Line(API_URL, c.apiUrl.value));
      assert Serialize(c) == Line(API_URL, c.apiUrl.value) + "\n" + second;
      var entry := (API_URL, Stripped(c.apiUrl.value));
      assert [entry] + [] == [entry];
    } else if c.refreshToken.Some? {
      assert Lines(c) == [Line(REFRESH_TOKEN, c.refreshToken.value)];
      JoinOne(Line(REFRESH_TOKEN, c.refreshToken.value));
      assert Serialize(c) == second;
    } else {
      assert Serialize(c) == "\n" && "\n"[1..] == "";
    }
  }

  /** The file written for a config loads as that config without the dropped characters, and it
      loads at all exactly when no value holds a DEL. */
  lemma ConfigRoundTrip(c: Config)
    ensures Load(Serialize(c)) ==
            if HasDel(c.apiUrl) || HasDel(c.refreshToken) then None else Some(StrippedConfig(c))
  {
    WrittenEntries(c);
    EntriesGiveConfig(StrippedConfig(c));
  }
}
