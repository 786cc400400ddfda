/** Escaped strings in configuration lines, and the pattern `muondetector-login` reads them with. */
module ConfigText {
  import opened Common

  predicate StartsWith(s: string, prefix: string) {
    |prefix| <= |s| && s[..|prefix|] == prefix
  }

  // ---------------------------------------------------------------- escaping

  function EscapeChar(c: char): string {
    match c
    case '\\' => "\\\\"
    case '"' => "\\\""
    case '\n' => "\\n"
    case '\r' => "\\r"
    case '\t' => "\\t"
    case _ => [c]
  }

  function Escape(s: string): string {
    if s == "" then "" else EscapeChar(s[0]) + Escape(s[1..])
  }

  function Denoted(c: char): char {
    match c
    case 'n' => '\n'
    case 'r' => '\r'
    case 't' => '\t'
    case _ => c
  }

  /** A backslash and the character after it denote one character; a lone final backslash denotes nothing. */
  function Unescape(s: string): string {
    if s == "" then ""
    else if s[0] != '\\' then [s[0]] + Unescape(s[1..])
    else if |s| == 1 then ""
    else [Denoted(s[1])] + Unescape(s[2..])
  }

  lemma EscapeCons(c: char, rest: string)
    ensures Escape([c] + rest) == EscapeChar(c) + Escape(rest)
  {
    hide EscapeChar;
    assert ([c] + rest)[1..] == rest;
  }

  lemma {:induction false} EscapeAppend(s: string, t: string)
    ensures Escape(s + t) == Escape(s) + Escape(t)
  {
    hide EscapeChar;
    if s == "" {
      assert s + t == t && Escape(s) == "";
    } else {
      hide Escape;
      var rest := s[1..];
      assert s == [s[0]] + rest && s + t == [s[0]] + (rest + t);
      EscapeAppend(rest, t);
      EscapeCons(s[0], rest);
      EscapeCons(s[0], rest + t);
    }
  }

  lemma UnescapeCons(c: char, rest: string)
    ensures c != '\\' ==> Unescape([c] + rest) == [c] + Unescape(rest)
    ensures Unescape("\\" + ([c] + rest)) == [Denoted(c)] + Unescape(rest)
  {
    hide Denoted;
    assert ([c] + rest)[1..] == rest;
    assert ("\\" + ([c] + rest))[2..] == rest;
  }

  lemma EscapeCharDenotes(c: char)
    ensures var e := EscapeChar(c); (e == [c] && c != '\\') || (|e| == 2 && e[0] == '\\' && Denoted(e[1]) == c)
  {
  }

  lemma {:induction false} UnescapeEscape(s: string)
    ensures Unescape(Escape(s)) == s
  {
    hide EscapeChar, Unescape, Denoted;
    if s == "" {
      UnescapeEmpty();
    } else {
      var e, rest := EscapeChar(s[0]), Escape(s[1..]);
      UnescapeEscape(s[1..]);
      EscapeCharDenotes(s[0]);
      if |e| == 2 {
        assert e + rest == "\\" + ([e[1]] + rest);
        UnescapeCons(e[1], rest);
      } else {
        UnescapeCons(s[0], rest);
      }
    }
  }

  lemma UnescapeEmpty()
    ensures Unescape("") == "" == Unescape("\\")
  {
  }

  /** The escapes by name. */
  lemma EscapeTable()
    ensures Escape("\n") == "\\n" && Escape("\r") == "\\r" && Escape("\t") == "\\t"
    ensures Escape("\"") == "\\\"" && Escape("\\") == "\\\\" && Escape("a") == "a"
  {
  }

  /** A backslash before any other character denotes that character, and at the end nothing. */
  lemma UnescapeTable()
    ensures Unescape("\\n\\r\\t\\\"\\\\\\q\\") == "\n\r\t\"\\q"
  {
  }

  /** `configEscape`. */
  method ConfigEscape(value: string) returns (escaped: string)
    ensures escaped == Escape(value)
    ensures Unescape(escaped) == value
  {
    escaped := "";
    for i := 0 to |value|
      invariant escaped == Escape(value[..i])
    {
      EscapeAppend(value[..i], [value[i]]);
      assert value[..i] + [value[i]] == value[..i + 1];
      assert Escape([value[i]]) == EscapeChar(value[i]);
      escaped := escaped + EscapeChar(value[i]);
    }
    assert value[..|value|] == value;
    UnescapeEscape(value);
  }

  /** `configUnescape`: one pass with a flag that remembers a pending backslash. */
  method ConfigUnescape(value: string) returns (unescaped: string)
    ensures unescaped == Unescape(value)
  {
    hide Unescape, Denoted;
    unescaped := "";
    var escaped := false;
    for i := 0 to |value|
      invariant escaped ==> unescaped + Unescape("\\" + value[i..]) == Unescape(value)
      invariant !escaped ==> unescaped + Unescape(value[i..]) == Unescape(value)
    {
      var c := value[i];
      assert value[i..] == [c] + value[i + 1..];
      UnescapeCons(c, value[i + 1..]);
      if escaped {
        unescaped := unescaped + [Denoted(c)];
        escaped := false;
      } else if c == '\\' {
        escaped := true;
        assert [c] + value[i + 1..] == "\\" + value[i + 1..];
      } else {
        unescaped := unescaped + [c];
      }
    }
    UnescapeEmpty();
    assert "\\" + value[|value|..] == "\\";
  }

  // ---------------------------------------------------------------- assignment pattern

  /** White space as the pattern's \s understands it; wider than what `trimLeft` removes. */
  predicate IsBlank(c: char) {
    c == ' ' || c == '\t' || c == '\n' || c == '\U{000B}' || c == '\U{000C}' || c == '\r'
  }

  predicate Blank(s: string) {
    forall i :: 0 <= i < |s| ==> IsBlank(s[i])
  }

  /** What the pattern's dot matches. */
  predicate IsDot(c: char) {
    c != '\n' && c != '\r'
  }

  function SkipBlank(s: string): (r: string)
    ensures |r| <= |s|
    ensures r != "" ==> !IsBlank(r[0])
  {
    if s != "" && IsBlank(s[0]) then SkipBlank(s[1..]) else s
  }

  lemma {:induction false} SkippedIsBlank(s: string)
    ensures var n := |s| - |SkipBlank(s)|; Blank(s[..n]) && s == s[..n] + SkipBlank(s)
  {
    if s != "" && IsBlank(s[0]) {
      SkippedIsBlank(s[1..]);
      var n := |s| - |SkipBlank(s)|;
      assert s[..n] == [s[0]] + s[1..][..n - 1];
    }
  }

  /** The white space `SkipBlank` skips. */
  function Lead(s: string): (a: string)
    ensures Blank(a) && s == a + SkipBlank(s)
  {
    SkippedIsBlank(s);
    s[..|s| - |SkipBlank(s)|]
  }

  predicate Comment(s: string) {
    s == "" || (s[0] == '#' && forall i :: 1 <= i < |s| ==> IsDot(s[i]))
  }

  /** What may follow the closing quote: an optional semicolon and an optional comment. */
  predicate Tail(s: string) {
    var t := SkipBlank(s);
    Comment(if t != "" && t[0] == ';' then SkipBlank(t[1..]) else t)
  }

  /**
   * Where a backtracking matcher, from position `i` inside the quotes, first finds the closing quote.
   * It prefers an escape pair to a single character, and one more item to closing the string.
   */
  function Capture(s: string, i: nat): (n: Option<nat>)
    requires i <= |s|
    ensures n.Some? ==> i <= n.value < |s|
    decreases |s| - i
  {
    if i == |s| then None
    else
      var pair := if i + 2 <= |s| && s[i] == '\\' && IsDot(s[i + 1]) then Capture(s, i + 2) else None;
      if pair.Some? then pair
      else
        var single := if s[i] != '"' then Capture(s, i + 1) else None;
        if single.Some? then single
        else if s[i] == '"' && Tail(s[i + 1..]) then Some(i)
        else None
  }

  /** What follows `prefix`, if the text starts with it. */
  function After(s: string, prefix: string): (r: Option<string>)
    ensures r.Some? <==> StartsWith(s, prefix)
    ensures r.Some? ==> s == prefix + r.value
  {
    if StartsWith(s, prefix) then Some(s[|prefix|..]) else None
  }

  /** What follows `prefix`, skipping white space before it. */
  function Field(s: string, prefix: string): (r: Option<string>)
    ensures r.Some? ==> s == Lead(s) + (prefix + r.value)
  {
    After(SkipBlank(s), prefix)
  }

  /** The text after the opening quote of an assignment to `key`. */
  function Opened(line: string, key: string): Option<string> {
    match Field(line, key)
    case None => None
    case Some(rest) =>
      match Field(rest, "=")
      case None => None
      case Some(right) => Field(right, "\"")
  }

  /** The escaped value `line` assigns to `key`, if it is such an assignment. */
  function Match(line: string, key: string): Option<string> {
    match Opened(line, key)
    case None => None
    case Some(s) =>
      match Capture(s, 0)
      case None => None
      case Some(n) => Some(s[..n])
  }

  // ---------------------------------------------------------------- the matcher against the pattern's language

  /** Between `lo` and `hi` no quote stands without a backslash of its own in front. */
  predicate QuotesEscaped(s: string, lo: nat, hi: nat)
    requires lo <= hi <= |s|
  {
    forall i :: lo <= i < hi && s[i] == '"' ==> i > lo && s[i - 1] == '\\'
  }

  /** The pattern read as a grammar, without any matching order. */
  predicate Reads(line: string, key: string, a: string, b: string, c: string, value: string, tail: string) {
    && line == a + (key + (b + ("=" + (c + ("\"" + (value + ("\"" + tail)))))))
    && Blank(a) && Blank(b) && Blank(c) && QuotesEscaped(value, 0, |value|) && Tail(tail)
  }

  lemma {:induction false} CaptureSound(s: string, i: nat)
    requires i <= |s| && Capture(s, i).Some?
    ensures var n := Capture(s, i).value; s[n] == '"' && QuotesEscaped(s, i, n) && Tail(s[n + 1..])
    decreases |s| - i
  {
    hide Tail;
    if i + 2 <= |s| && s[i] == '\\' && IsDot(s[i + 1]) && Capture(s, i + 2).Some? {
      CaptureSound(s, i + 2);
    } else if s[i] != '"' {
      CaptureSound(s, i + 1);
    }
  }

  lemma {:induction false} CaptureComplete(s: string, i: nat, n: nat)
    requires i <= n < |s| && s[n] == '"' && QuotesEscaped(s, i, n) && Tail(s[n + 1..])
    ensures Capture(s, i).Some?
    decreases n - i
  {
    hide Tail;
    if i + 1 < n && s[i + 1] == '"' {
      CaptureComplete(s, i + 2, n);
    } else if i < n {
      CaptureComplete(s, i + 1, n);
    }
  }

  lemma SkipOne(c: char, rest: string)
    requires IsBlank(c)
    ensures SkipBlank([c] + rest) == SkipBlank(rest)
  {
    assert ([c] + rest)[1..] == rest;
  }

  lemma {:induction false} SkipBlankPrefix(a: string, r: string)
    requires Blank(a) && r != "" && !IsBlank(r[0])
    ensures SkipBlank(a + r) == r
  {
    hide IsBlank;
    if a == "" {
      assert a + r == r;
      SkipNothing(r);
    } else {
      hide SkipBlank;
      SkipBlankPrefix(a[1..], r);
      assert a + r == [a[0]] + (a[1..] + r);
      SkipOne(a[0], a[1..] + r);
    }
  }

  lemma AfterPrefix(prefix: string, r: string)
    ensures After(prefix + r, prefix) == Some(r)
  {
    assert (prefix + r)[..|prefix|] == prefix;
    assert (prefix + r)[|prefix|..] == r;
  }

  predicate IsKey(key: string) {
    key != "" && !IsBlank(key[0])
  }

  lemma FieldAt(a: string, prefix: string, r: string)
    requires Blank(a) && IsKey(prefix)
    ensures Field(a + (prefix + r), prefix) == Some(r)
  {
    SkipBlankPrefix(a, prefix + r);
    AfterPrefix(prefix, r);
  }

  lemma OpenedReads(line: string, key: string, a: string, b: string, c: string, s: string)
    requires IsKey(key) && Blank(a) && Blank(b) && Blank(c)
    requires line == a + (key + (b + ("=" + (c + ("\"" + s)))))
    ensures Opened(line, key) == Some(s)
  {
    hide Field, Blank;
    FieldAt(a, key, b + ("=" + (c + ("\"" + s))));
    FieldAt(b, "=", c + ("\"" + s));
    FieldAt(c, "\"", s);
  }

  lemma SplitAt(s: string, n: nat)
    requires n < |s| && s[n] == '"' && QuotesEscaped(s, 0, n)
    ensures s == s[..n] + ("\"" + s[n + 1..]) && QuotesEscaped(s[..n], 0, n)
  {
  }

  lemma OpenedSound(line: string, key: string) returns (a: string, b: string, c: string)
    requires Opened(line, key).Some?
    ensures line == a + (key + (b + ("=" + (c + ("\"" + Opened(line, key).value)))))
    ensures Blank(a) && Blank(b) && Blank(c)
  {
    hide Blank, Field, Lead;
    var rest := Field(line, key).value;
    var right := Field(rest, "=").value;
    a, b, c := Lead(line), Lead(rest), Lead(right);
  }

  lemma MatchSound(line: string, key: string) returns (a: string, b: string, c: string, tail: string)
    requires Match(line, key).Some?
    ensures Reads(line, key, a, b, c, Match(line, key).value, tail)
  {
    hide Tail, Blank, Opened, Capture, QuotesEscaped;
    var s := Opened(line, key).value;
    var n := Capture(s, 0).value;
    a, b, c := OpenedSound(line, key);
    CaptureSound(s, 0);
    SplitAt(s, n);
    tail := s[n + 1..];
  }

  /** The matcher accepts exactly the language of the pattern, and captures a value some reading of the line has. */
  lemma MatchIff(line: string, key: string)
    requires IsKey(key)
    ensures Match(line, key).Some? <==> exists a, b, c, v, t :: Reads(line, key, a, b, c, v, t)
    ensures Match(line, key).Some? ==> exists a, b, c, t :: Reads(line, key, a, b, c, Match(line, key).value, t)
  {
    hide Reads;
    if Match(line, key).Some? {
      var a, b, c, t := MatchSound(line, key);
    }
    if a, b, c, v, t :| Reads(line, key, a, b, c, v, t) {
      MatchComplete(line, key, a, b, c, v, t);
    }
  }

  lemma MatchComplete(line: string, key: string, a: string, b: string, c: string, v: string, t: string)
    requires IsKey(key) && Reads(line, key, a, b, c, v, t)
    ensures Match(line, key).Some?
  {
    hide Opened, Tail, Blank, IsBlank;
    var s := v + ("\"" + t);
    OpenedReads(line, key, a, b, c, s);
    assert s[|v| + 1..] == t;
    CaptureComplete(s, 0, |v|);
  }

  /** The end of the pattern read as a grammar: blanks, perhaps a semicolon, blanks, perhaps a comment. */
  predicate Ends(s: string, a: string, semicolon: string, b: string, comment: string) {
    && s == a + (semicolon + (b + comment))
    && Blank(a) && (semicolon == "" || semicolon == ";") && Blank(b)
    && (comment == "" || (comment[0] == '#' && '\n' !in comment && '\r' !in comment))
  }

  lemma CommentIs(c: string)
    ensures Comment(c) <==> c == "" || (c[0] == '#' && '\n' !in c && '\r' !in c)
  {
  }

  lemma {:induction false} AllSkipped(a: string)
    requires Blank(a)
    ensures SkipBlank(a) == ""
  {
    if a != "" {
      AllSkipped(a[1..]);
    }
  }

  lemma SkipTo(a: string, r: string)
    requires Blank(a) && (r == "" || !IsBlank(r[0]))
    ensures SkipBlank(a + r) == r
  {
    if r == "" {
      assert a + r == a;
      AllSkipped(a);
    } else {
      SkipBlankPrefix(a, r);
    }
  }

  lemma TailComplete(s: string, a: string, semicolon: string, b: string, comment: string)
    requires Ends(s, a, semicolon, b, comment)
    ensures Tail(s)
  {
    hide SkipBlank, Comment;
    CommentIs(comment);
    SkipTo(b, comment);
    if semicolon == "" {
      assert s == (a + b) + comment;
      SkipTo(a + b, comment);
    } else {
      SkipTo(a, semicolon + (b + comment));
      assert (semicolon + (b + comment))[1..] == b + comment;
    }
  }

  lemma TailSound(s: string) returns (a: string, semicolon: string, b: string, comment: string)
    requires Tail(s)
    ensures Ends(s, a, semicolon, b, comment)
  {
    hide SkipBlank, Comment, Blank, Lead;
    var t := SkipBlank(s);
    a := Lead(s);
    if t != "" && t[0] == ';' {
      semicolon, b, comment := ";", Lead(t[1..]), SkipBlank(t[1..]);
      assert t == ";" + t[1..];
    } else {
      semicolon, b, comment := "", "", t;
      NothingIsBlank();
    }
    CommentIs(comment);
  }

  lemma NothingIsBlank()
    ensures Blank("")
  {
  }

  /** What may follow the closing quote is exactly that. */
  lemma TailIff(s: string)
    ensures Tail(s) <==> exists a, semicolon, b, comment :: Ends(s, a, semicolon, b, comment)
  {
    hide Tail, Ends;
    if Tail(s) {
      var a, semicolon, b, comment := TailSound(s);
    }
    if a, semicolon, b, comment :| Ends(s, a, semicolon, b, comment) {
      TailComplete(s, a, semicolon, b, comment);
    }
  }

  // ---------------------------------------------------------------- the stored line

  function Assignment(key: string, value: string): string {
    key + " = \"" + Escape(value) + "\""
  }

  lemma EscapeCharShape(c: char)
    ensures var e := EscapeChar(c);
            || (|e| == 1 && e[0] != '"' && e[0] != '\\')
            || (|e| == 2 && e[0] == '\\' && IsDot(e[1]))
  {
  }

  lemma {:induction false} CaptureEscaped(s: string, i: nat, value: string, tail: string)
    requires i <= |s| && s[i..] == Escape(value) + ("\"" + tail) && Tail(tail)
    ensures Capture(s, i) == Some(i + |Escape(value)|)
    decreases |value|
  {
    hide Tail, EscapeChar;
    var rest := "\"" + tail;
    if value == "" {
      assert s[i..] == rest;
      assert s[i] == '"' && s[i + 1..] == s[i..][1..] == tail;
    } else {
      var e := EscapeChar(value[0]);
      var more := Escape(value[1..]) + rest;
      EscapeCharShape(value[0]);
      assert s[i..] == e + more;
      assert s[i + |e|..] == more;
      assert s[i] == e[0] && (|e| == 2 ==> s[i + 1] == e[1]);
      CaptureEscaped(s, i + |e|, value[1..], tail);
    }
  }

  /** Whatever the value contains, and however the line is indented, the pattern captures exactly its escaped text. */
  lemma AssignmentCaptured(lead: string, key: string, value: string)
    requires IsKey(key) && Blank(lead)
    ensures Match(lead + Assignment(key, value), key) == Some(Escape(value))
  {
    hide Opened, Escape;
    var line := lead + Assignment(key, value);
    var s := Escape(value) + ("\"" + "");
    assert line == lead + (key + (" " + ("=" + (" " + ("\"" + s)))));
    OpenedReads(line, key, lead, " ", " ", s);
    assert s[0..] == s;
    CaptureEscaped(s, 0, value, "");
    assert s[..|Escape(value)|] == Escape(value);
  }

  lemma OtherKeyNotMatched(line: string, key: string)
    requires line == "" || !IsBlank(line[0])
    requires !StartsWith(line, key)
    ensures Match(line, key).None?
  {
    hide Capture, Lead;
    SkipNothing(line);
  }

  lemma SkipNothing(s: string)
    requires s == "" || !IsBlank(s[0])
    ensures SkipBlank(s) == s
  {
  }
}
