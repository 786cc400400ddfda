/** The credential block of the daemon's configuration file, as `muondetector-login` writes, clears and reads it. */
module Credentials {
  import opened Common
  import opened ConfigText

  const USER := "mqtt_user"
  const PASSWORD := "mqtt_password"
  // In two halves: the verifier does not look far enough into longer literals.
  const BANNER := "# MQTT credentials " + "written by muondetector-login."

  // ---------------------------------------------------------------- lines

  /** `trimLeft`: spaces and tabs only. */
  function TrimLeft(s: string): (r: string)
    ensures r != "" ==> r[0] != ' ' && r[0] != '\t'
  {
    if s != "" && (s[0] == ' ' || s[0] == '\t') then TrimLeft(s[1..]) else s
  }

  predicate IsCredentialAssignment(line: string) {
    var t := TrimLeft(line);
    StartsWith(t, USER) || StartsWith(t, PASSWORD) || t == BANNER
  }

  /** The lines that are, or are not, credential lines, in order. */
  function Select(lines: seq<string>, credential: bool): seq<string> {
    if lines == [] then []
    else (if IsCredentialAssignment(lines[0]) == credential then [lines[0]] else []) + Select(lines[1..], credential)
  }

  function Kept(lines: seq<string>): seq<string> {
    Select(lines, false)
  }

  function Dropped(lines: seq<string>): seq<string> {
    Select(lines, true)
  }

  function Block(user: string, password: string): seq<string> {
    [BANNER, Assignment(USER, user), Assignment(PASSWORD, password)]
  }

  function Store(lines: seq<string>, user: string, password: string): seq<string> {
    Kept(lines) + [""] + Block(user, password)
  }

  function FirstMatch(lines: seq<string>, key: string): Option<string> {
    if lines == [] then None
    else if Match(lines[0], key).Some? then Match(lines[0], key)
    else FirstMatch(lines[1..], key)
  }

  function Parsed(lines: seq<string>, key: string): string {
    match FirstMatch(lines, key)
    case None => ""
    case Some(v) => Unescape(v)
  }

  lemma SelectOne(line: string, credential: bool)
    ensures Select([line], credential) == if IsCredentialAssignment(line) == credential then [line] else []
  {
    hide IsCredentialAssignment;
    assert [line][1..] == [];
  }

  lemma SelectCons(line: string, rest: seq<string>, credential: bool)
    ensures Select([line] + rest, credential)
         == (if IsCredentialAssignment(line) == credential then [line] else []) + Select(rest, credential)
  {
    hide IsCredentialAssignment;
    assert ([line] + rest)[1..] == rest;
  }

  lemma {:induction false} SelectAppend(a: seq<string>, b: seq<string>, credential: bool)
    ensures Select(a + b, credential) == Select(a, credential) + Select(b, credential)
  {
    hide IsCredentialAssignment, Select;
    if a == [] {
      assert a + b == b;
      SelectNone(credential);
    } else {
      var rest := a[1..];
      assert a == [a[0]] + rest && a + b == [a[0]] + (rest + b);
      SelectAppend(rest, b, credential);
      SelectCons(a[0], rest, credential);
      SelectCons(a[0], rest + b, credential);
    }
  }

  lemma SelectNone(credential: bool)
    ensures Select([], credential) == []
  {
  }

  lemma {:induction false} FirstMatchAppend(a: seq<string>, b: seq<string>, key: string)
    ensures FirstMatch(a + b, key) == if FirstMatch(a, key).Some? then FirstMatch(a, key) else FirstMatch(b, key)
  {
    hide Match;
    if a == [] {
      assert a + b == b;
    } else {
      FirstMatchAppend(a[1..], b, key);
      assert (a + b)[1..] == a[1..] + b;
    }
  }

  lemma {:induction false} SelectTwice(lines: seq<string>, first: bool, second: bool)
    ensures Select(Select(lines, first), second) == if first == second then Select(lines, first) else []
  {
    hide IsCredentialAssignment, Select;
    SelectNone(first);
    SelectNone(second);
    if lines != [] {
      var line, rest := lines[0], lines[1..];
      assert lines == [line] + rest;
      SelectCons(line, rest, first);
      SelectCons(line, Select(rest, first), second);
      SelectTwice(rest, first, second);
      assert [] + Select(rest, first) == Select(rest, first);
      assert [] + Select(Select(rest, first), second) == Select(Select(rest, first), second);
    }
  }

  lemma StartsWithAt(s: string, prefix: string, i: nat)
    requires i < |prefix|
    ensures StartsWith(s, prefix) ==> i < |s| && s[i] == prefix[i]
  {
    assert StartsWith(s, prefix) ==> s[..|prefix|][i] == s[i];
  }

  lemma AssignmentShape(key: string, value: string)
    requires key == USER || key == PASSWORD
    ensures var line := Assignment(key, value); line != "" && line[0] == 'm' && StartsWith(line, key)
  {
    assert Assignment(key, value) == key + (" = \"" + Escape(value) + "\"");
  }

  lemma Heads()
    ensures USER[0] == PASSWORD[0] == 'm' && BANNER[0] == '#'
  {
  }

  lemma TrimHead(s: string)
    requires s == "" || (s[0] != ' ' && s[0] != '\t')
    ensures TrimLeft(s) == s
  {
  }

  lemma BlockIsCredential(user: string, password: string)
    ensures !IsCredentialAssignment("")
    ensures IsCredentialAssignment(BANNER)
    ensures IsCredentialAssignment(Assignment(USER, user)) && IsCredentialAssignment(Assignment(PASSWORD, password))
  {
    hide Assignment, StartsWith, TrimLeft;
    AssignmentShape(USER, user);
    AssignmentShape(PASSWORD, password);
    StartsWithAt("", USER, 0);
    StartsWithAt("", PASSWORD, 0);
    Heads();
    TrimHead("");
    TrimHead(BANNER);
    TrimHead(Assignment(USER, user));
    TrimHead(Assignment(PASSWORD, password));
  }

  lemma {:induction false} SelectTail(b: seq<string>, credential: bool)
    requires |b| == 3 && forall i :: 0 <= i < 3 ==> IsCredentialAssignment(b[i])
    requires !IsCredentialAssignment("")
    ensures Select([""] + b, credential) == if credential then b else [""]
  {
    hide IsCredentialAssignment;
    var tail := [""] + b;
    assert tail[1..] == b && b[1..][1..] == b[2..] && b[2..][1..] == [];
    assert Select(b[2..], credential) == if credential then [b[2]] else [];
    assert Select(b[1..], credential) == if credential then [b[1], b[2]] else [];
    assert Select(b, credential) == if credential then [b[0], b[1], b[2]] else [];
  }

  /** A stored file keeps every other line in order and holds one block, hence one assignment per key. */
  lemma StoreKeepsAndReplaces(lines: seq<string>, user: string, password: string)
    ensures Kept(Store(lines, user, password)) == Kept(lines) + [""]
    ensures Dropped(Store(lines, user, password)) == Block(user, password)
  {
    hide IsCredentialAssignment, Assignment;
    var b := Block(user, password);
    var tail := [""] + b;
    assert Store(lines, user, password) == Kept(lines) + tail;
    BlockIsCredential(user, password);
    SelectTail(b, false);
    SelectTail(b, true);
    SelectAppend(Kept(lines), tail, false);
    SelectAppend(Kept(lines), tail, true);
    SelectTwice(lines, false, false);
    SelectTwice(lines, false, true);
  }

  datatype Login = Login(user: string, password: string)

  function StoreAll(lines: seq<string>, logins: seq<Login>): seq<string> {
    if logins == [] then lines
    else
      var n := |logins| - 1;
      Store(StoreAll(lines, logins[..n]), logins[n].user, logins[n].password)
  }

  function Gaps(n: nat): seq<string> {
    if n == 0 then [] else Gaps(n - 1) + [""]
  }

  lemma GapsGrow(k: seq<string>, n: nat)
    ensures k + Gaps(n) == if n == 0 then k else k + Gaps(n - 1) + [""]
  {
  }

  lemma {:induction false} RepeatedKept(lines: seq<string>, logins: seq<Login>)
    ensures Kept(StoreAll(lines, logins)) == Kept(lines) + Gaps(|logins|)
    decreases |logins|
  {
    hide Store, Kept, Gaps;
    GapsGrow(Kept(lines), |logins|);
    if logins == [] {
      assert StoreAll(lines, logins) == lines;
    } else {
      var n := |logins| - 1;
      var before := StoreAll(lines, logins[..n]);
      RepeatedKept(lines, logins[..n]);
      StoreKeepsAndReplaces(before, logins[n].user, logins[n].password);
      assert StoreAll(lines, logins) == Store(before, logins[n].user, logins[n].password);
    }
  }

  /** Any number of stores leaves the block of the last one; each also leaves one more empty line behind. */
  lemma RepeatedStore(lines: seq<string>, logins: seq<Login>)
    requires logins != []
    ensures var last := logins[|logins| - 1];
            StoreAll(lines, logins) == Kept(lines) + Gaps(|logins|) + Block(last.user, last.password)
  {
    hide Kept, Block, Gaps;
    var n := |logins| - 1;
    var before := StoreAll(lines, logins[..n]);
    RepeatedKept(lines, logins[..n]);
    GapsGrow(Kept(lines), n + 1);
    assert StoreAll(lines, logins) == Store(before, logins[n].user, logins[n].password);
  }

  // ---------------------------------------------------------------- store, then read

  lemma AssignmentParsesOnly(key: string, other: string, value: string)
    requires (key == USER && other == PASSWORD) || (key == PASSWORD && other == USER)
    ensures Match(Assignment(key, value), key) == Some(Escape(value))
    ensures Match(Assignment(key, value), other).None?
  {
    hide Match, Assignment, Escape;
    var line := Assignment(key, value);
    AssignmentCaptured("", key, value);
    assert "" + line == line;
    AssignmentShape(key, value);
    StartsWithAt(line, key, 5);
    StartsWithAt(line, other, 5);
    assert USER[5] == 'u' && PASSWORD[5] == 'p';
    OtherKeyNotMatched(line, other);
  }

  lemma FillersNotMatched(key: string)
    requires key == USER || key == PASSWORD
    ensures Match("", key).None? && Match(BANNER, key).None?
  {
    hide Match, StartsWith;
    Heads();
    StartsWithAt("", key, 0);
    StartsWithAt(BANNER, key, 0);
    OtherKeyNotMatched("", key);
    OtherKeyNotMatched(BANNER, key);
  }

  lemma FirstOfFour(a: string, b: string, c: string, d: string, key: string)
    requires Match(a, key).None? && Match(b, key).None?
    ensures FirstMatch([a] + [b, c, d], key) == if Match(c, key).Some? then Match(c, key) else Match(d, key)
  {
    hide Match;
    var s := [a] + [b, c, d];
    assert s[1..] == [b, c, d] && s[1..][1..] == [c, d] && s[1..][1..][1..] == [d];
    assert FirstMatch([d], key) == Match(d, key);
    assert FirstMatch([c, d], key) == if Match(c, key).Some? then Match(c, key) else FirstMatch([d], key);
  }

  lemma BlockParses(user: string, password: string)
    ensures FirstMatch([""] + Block(user, password), USER) == Some(Escape(user))
    ensures FirstMatch([""] + Block(user, password), PASSWORD) == Some(Escape(password))
  {
    hide Match, FirstMatch, Escape, Assignment;
    var u, p := Assignment(USER, user), Assignment(PASSWORD, password);
    FillersNotMatched(USER);
    FillersNotMatched(PASSWORD);
    AssignmentParsesOnly(USER, PASSWORD, user);
    AssignmentParsesOnly(PASSWORD, USER, password);
    FirstOfFour("", BANNER, u, p, USER);
    FirstOfFour("", BANNER, u, p, PASSWORD);
  }

  /** Reading back yields the stored value unless a line that was kept already matches the key's pattern. */
  lemma StoreThenParse(lines: seq<string>, user: string, password: string)
    ensures var s := Store(lines, user, password); var k := Kept(lines);
            && Parsed(s, USER) == (if FirstMatch(k, USER).Some? then Parsed(k, USER) else user)
            && Parsed(s, PASSWORD) == (if FirstMatch(k, PASSWORD).Some? then Parsed(k, PASSWORD) else password)
  {
    var tail := [""] + Block(user, password);
    assert Store(lines, user, password) == Kept(lines) + tail;
    FirstMatchAppend(Kept(lines), tail, USER);
    FirstMatchAppend(Kept(lines), tail, PASSWORD);
    BlockParses(user, password);
    UnescapeEscape(user);
    UnescapeEscape(password);
  }

  /** A line the filter keeps although the reader takes it for an assignment. */
  predicate Shadows(line: string, key: string) {
    !IsCredentialAssignment(line) && Match(line, key).Some?
  }

  predicate Unshadowed(lines: seq<string>) {
    forall i :: 0 <= i < |lines| ==> !Shadows(lines[i], USER) && !Shadows(lines[i], PASSWORD)
  }

  lemma {:induction false} KeptMatches(lines: seq<string>, key: string)
    ensures FirstMatch(Kept(lines), key).Some? <==> exists i :: 0 <= i < |lines| && Shadows(lines[i], key)
  {
    hide IsCredentialAssignment, Match;
    if lines != [] {
      var rest := lines[1..];
      KeptMatches(rest, key);
      if IsCredentialAssignment(lines[0]) {
        assert Kept(lines) == Kept(rest);
      } else {
        assert Kept(lines) == [lines[0]] + Kept(rest) && Kept(lines)[1..] == Kept(rest);
      }
      if i :| 0 <= i < |rest| && Shadows(rest[i], key) {
        assert Shadows(lines[i + 1], key);
      }
      if i :| 0 <= i < |lines| && Shadows(lines[i], key) && i > 0 {
        assert Shadows(rest[i - 1], key);
      }
    }
  }

  /** Stored credentials come back for every user and password if and only if no line shadows them. */
  lemma StoreExact(lines: seq<string>)
    ensures Unshadowed(lines) <==>
            (forall u: string, p: string ::
               Parsed(Store(lines, u, p), USER) == u && Parsed(Store(lines, u, p), PASSWORD) == p)
  {
    hide Store, Parsed, Shadows;
    KeptMatches(lines, USER);
    KeptMatches(lines, PASSWORD);
    if Unshadowed(lines) {
      forall u: string, p: string
        ensures Parsed(Store(lines, u, p), USER) == u && Parsed(Store(lines, u, p), PASSWORD) == p
      {
        StoreThenParse(lines, u, p);
      }
    } else {
      var u := Parsed(Kept(lines), USER) + "x";
      var p := Parsed(Kept(lines), PASSWORD) + "x";
      StoreThenParse(lines, u, p);
      assert |u| != |Parsed(Kept(lines), USER)| && |p| != |Parsed(Kept(lines), PASSWORD)|;
      assert Parsed(Store(lines, u, p), USER) != u || Parsed(Store(lines, u, p), PASSWORD) != p;
    }
  }

  /** The line's indentation goes on, after spaces and tabs, with white space the filter does not trim. */
  predicate OddlyIndented(line: string) {
    var t := TrimLeft(line);
    t != "" && IsBlank(t[0])
  }

  lemma {:induction false} TrimIsSkip(line: string)
    requires !OddlyIndented(line)
    ensures TrimLeft(line) == SkipBlank(line)
  {
    if line != "" && (line[0] == ' ' || line[0] == '\t') {
      TrimIsSkip(line[1..]);
    }
  }

  /** Only an oddly indented line can shadow, and it does exactly when it is an assignment. */
  lemma ShadowIff(line: string, key: string)
    requires key == USER || key == PASSWORD
    ensures Shadows(line, key) <==> OddlyIndented(line) && Match(line, key).Some?
  {
    hide Match;
    if OddlyIndented(line) {
      OddIsNotCredential(line);
    } else if Match(line, key).Some? {
      MatchStarts(line, key);
      TrimIsSkip(line);
    }
  }

  lemma OddIsNotCredential(line: string)
    requires OddlyIndented(line)
    ensures !IsCredentialAssignment(line)
  {
    hide StartsWith, TrimLeft;
    var t := TrimLeft(line);
    Heads();
    StartsWithAt(t, USER, 0);
    StartsWithAt(t, PASSWORD, 0);
  }

  lemma MatchStarts(line: string, key: string)
    requires Match(line, key).Some?
    ensures StartsWith(SkipBlank(line), key)
  {
  }

  /** Indentation with spaces and tabs is one way to have no such line. */
  lemma PlainIsUnshadowed(lines: seq<string>)
    requires forall i :: 0 <= i < |lines| ==> !OddlyIndented(lines[i])
    ensures Unshadowed(lines)
  {
    hide Shadows, OddlyIndented;
    forall i | 0 <= i < |lines| ensures !Shadows(lines[i], USER) && !Shadows(lines[i], PASSWORD) {
      ShadowIff(lines[i], USER);
      ShadowIff(lines[i], PASSWORD);
    }
  }

  lemma UnshadowedIsClear(lines: seq<string>, key: string)
    requires key == USER || key == PASSWORD
    requires Unshadowed(lines)
    ensures FirstMatch(Kept(lines), key).None? && FirstMatch(Kept(lines) + [""], key).None?
  {
    hide Shadows, Kept, Match;
    KeptMatches(lines, key);
    FirstMatchAppend(Kept(lines), [""], key);
    FillersNotMatched(key);
  }

  /** Unless a line shadows, storing is exact and clearing leaves nothing to read. */
  lemma StoreAndClear(lines: seq<string>, user: string, password: string)
    requires Unshadowed(lines)
    ensures Parsed(Store(lines, user, password), USER) == user
    ensures Parsed(Store(lines, user, password), PASSWORD) == password
    ensures Parsed(Kept(lines), USER) == "" && Parsed(Kept(lines), PASSWORD) == ""
    ensures Parsed(Kept(Store(lines, user, password)), USER) == ""
    ensures Parsed(Kept(Store(lines, user, password)), PASSWORD) == ""
  {
    hide Unshadowed, Store, Kept, FirstMatch;
    UnshadowedIsClear(lines, USER);
    UnshadowedIsClear(lines, PASSWORD);
    StoreThenParse(lines, user, password);
    StoreKeepsAndReplaces(lines, user, password);
  }

  /** A vertical tab before an assignment hides it from the filter, so storing and clearing leave it in force. */
  lemma VerticalTabShadows(user: string, password: string)
    ensures var line := "\U{000B}" + Assignment(USER, "x");
            && Kept([line]) == [line]
            && Parsed(Store([line], user, password), USER) == "x"
            && Parsed(Kept([line]), USER) == "x"
  {
    hide Assignment, Match, IsCredentialAssignment, Escape, Store;
    var line := "\U{000B}" + Assignment(USER, "x");
    AssignmentCaptured("\U{000B}", USER, "x");
    assert line[0] == '\U{000B}' && TrimLeft(line) == line;
    OddIsNotCredential(line);
    SelectOne(line, false);
    assert FirstMatch([line], USER) == Match(line, USER);
    UnescapeEscape("x");
    StoreThenParse([line], user, password);
  }

  // ---------------------------------------------------------------- lines lost to the filter

  /** What follows the key reads as an assignment: blanks, `=`, a quoted value, an optional semicolon and comment. */
  ghost predicate AssignmentForm(t: string, key: string) {
    exists b, c, v, tail :: Reads(t, key, "", b, c, v, tail)
  }

  lemma {:induction false} TrimSkip(line: string)
    ensures SkipBlank(line) == SkipBlank(TrimLeft(line))
  {
    if line != "" && (line[0] == ' ' || line[0] == '\t') {
      TrimSkip(line[1..]);
    }
  }

  /** On a line that starts with the key, the reader's pattern decides by what follows the key. */
  lemma MatchedForm(line: string, key: string)
    requires IsKey(key) && StartsWith(TrimLeft(line), key)
    ensures Match(line, key).Some? <==> AssignmentForm(TrimLeft(line), key)
  {
    hide Match, TrimLeft, Reads, SkipBlank;
    var t := TrimLeft(line);
    TrimSkip(line);
    MatchOfTrimmed(line, t, key);
    MatchIff(t, key);
    if a, b, c, v, tail :| Reads(t, key, a, b, c, v, tail) {
      StartsWithAt(t, key, 0);
      NoLead(t, key, a, b, c, v, tail);
    }
  }

  lemma MatchOfTrimmed(line: string, t: string, key: string)
    requires SkipBlank(line) == SkipBlank(t)
    ensures Match(line, key) == Match(t, key)
  {
    hide Capture, Lead, SkipBlank, After;
    assert Field(line, key) == Field(t, key);
  }

  lemma NoLead(t: string, key: string, a: string, b: string, c: string, v: string, tail: string)
    requires Reads(t, key, a, b, c, v, tail) && t != "" && !IsBlank(t[0])
    ensures a == ""
  {
    hide Tail, QuotesEscaped;
    HeadOf(a, key + (b + ("=" + (c + ("\"" + (v + ("\"" + tail)))))));
  }

  lemma HeadOf(a: string, rest: string)
    ensures a != "" ==> (a + rest)[0] == a[0]
  {
  }

  /**
   * The lines a store or clear loses although they assign neither credential: the banner, and those that
   * start with `mqtt_user` or `mqtt_password` but do not go on as an assignment.
   */
  lemma LostLines(line: string)
    ensures IsCredentialAssignment(line) && Match(line, USER).None? && Match(line, PASSWORD).None? <==>
            var t := TrimLeft(line);
            || t == BANNER
            || (StartsWith(t, USER) && !AssignmentForm(t, USER))
            || (StartsWith(t, PASSWORD) && !AssignmentForm(t, PASSWORD))
  {
    hide Match, AssignmentForm, TrimLeft, StartsWith;
    var t := TrimLeft(line);
    Heads();
    OneKey(t);
    forall key | key == USER || key == PASSWORD
      ensures if StartsWith(t, key) then Match(line, key).Some? <==> AssignmentForm(t, key)
              else (t == BANNER || StartsWith(t, USER) || StartsWith(t, PASSWORD) ==> Match(line, key).None?)
    {
      if StartsWith(t, key) {
        MatchedForm(line, key);
      } else if t == BANNER || StartsWith(t, USER) || StartsWith(t, PASSWORD) {
        StartsWithAt(t, USER, 0);
        StartsWithAt(t, PASSWORD, 0);
        TrimSkip(line);
        MatchOfTrimmed(line, t, key);
        OtherKeyNotMatched(t, key);
      }
    }
  }

  lemma OneKey(t: string)
    ensures !(StartsWith(t, USER) && StartsWith(t, PASSWORD)) && !StartsWith(BANNER, USER) && !StartsWith(BANNER, PASSWORD)
  {
    hide StartsWith;
    Heads();
    assert USER[5] == 'u' && PASSWORD[5] == 'p';
    StartsWithAt(t, USER, 5);
    StartsWithAt(t, PASSWORD, 5);
    StartsWithAt(BANNER, USER, 0);
    StartsWithAt(BANNER, PASSWORD, 0);
  }

  /** For instance, a setting whose name merely begins like a credential. */
  lemma SimilarNameLost()
    ensures var line := "mqtt_users = 5";
            && Match(line, USER).None? && Match(line, PASSWORD).None?
            && Kept([line]) == []
  {
    hide Match, Select, IsCredentialAssignment, AssignmentForm;
    var line := "mqtt_users = 5";
    assert line == USER + "s = 5" && line[0] == 'm';
    TrimHead(line);
    assert !AssignmentForm(line, USER) by {
      UsersIsNoForm();
    }
    LostLines(line);
    SelectOne(line, false);
  }

  lemma UsersIsNoForm()
    ensures !AssignmentForm("mqtt_users = 5", USER)
  {
    hide Reads;
    var line := "mqtt_users = 5";
    assert line[|USER|] == 's';
    if b, c, v, tail :| Reads(line, USER, "", b, c, v, tail) {
      AfterKey(line, USER, b, c, v, tail);
    }
  }

  lemma AfterKey(line: string, key: string, b: string, c: string, v: string, tail: string)
    requires Reads(line, key, "", b, c, v, tail)
    ensures |line| > |key| && (IsBlank(line[|key|]) || line[|key|] == '=')
  {
    hide Tail, QuotesEscaped;
    var rest := b + ("=" + (c + ("\"" + (v + ("\"" + tail)))));
    assert line == key + rest;
    assert line[|key|] == rest[0];
    HeadOf(b, "=" + (c + ("\"" + (v + ("\"" + tail)))));
  }

  // ---------------------------------------------------------------- the file

  function LineEnd(text: string): (n: nat)
    ensures n <= |text| && forall i :: 0 <= i < n ==> text[i] != '\n'
    ensures n < |text| ==> text[n] == '\n'
  {
    if text == "" || text[0] == '\n' then 0 else 1 + LineEnd(text[1..])
  }

  /** What follows the first line and its terminator. */
  function NextLine(text: string): (rest: string)
    requires text != ""
    ensures |rest| < |text|
  {
    var n := LineEnd(text);
    if n == |text| then "" else text[n + 1..]
  }

  /** The lines a getline loop finds in a file. */
  function Lines(text: string): seq<string>
    decreases |text|
  {
    if text == "" then [] else [text[..LineEnd(text)]] + Lines(NextLine(text))
  }

  function Text(lines: seq<string>): string {
    if lines == [] then "" else lines[0] + "\n" + Text(lines[1..])
  }

  predicate OneLine(s: string) {
    forall i :: 0 <= i < |s| ==> s[i] != '\n'
  }

  predicate AllOneLine(lines: seq<string>) {
    forall i :: 0 <= i < |lines| ==> OneLine(lines[i])
  }

  lemma {:induction false} LineEndAt(line: string, rest: string)
    requires OneLine(line)
    ensures LineEnd(line + "\n" + rest) == |line|
  {
    var t := line + "\n" + rest;
    if line != "" {
      LineEndAt(line[1..], rest);
      assert t[1..] == line[1..] + "\n" + rest;
      assert t[0] == line[0];
    }
  }

  lemma LinesOf(line: string, rest: string)
    requires OneLine(line)
    ensures Lines(line + "\n" + rest) == [line] + Lines(rest)
  {
    hide OneLine, LineEnd;
    var t := line + "\n" + rest;
    LineEndAt(line, rest);
    assert t[..|line|] == line && t[|line| + 1..] == rest;
  }

  lemma {:induction false} WrittenLinesRead(lines: seq<string>)
    requires AllOneLine(lines)
    ensures Lines(Text(lines)) == lines
  {
    hide OneLine, Lines;
    if lines == [] {
      NoLines();
    } else {
      LinesOf(lines[0], Text(lines[1..]));
      WrittenLinesRead(lines[1..]);
    }
  }

  lemma FirstLine(text: string)
    requires text != ""
    ensures OneLine(text[..LineEnd(text)])
    ensures var line := text[..LineEnd(text)] + "\n" + NextLine(text);
            line == text || (line == text + "\n" && NextLine(text) == "")
  {
    var n := LineEnd(text);
    hide LineEnd;
    if n == |text| {
      assert text[..n] == text;
    } else {
      assert text == text[..n] + "\n" + text[n + 1..];
    }
  }

  lemma {:induction false} LinesAreLines(text: string)
    ensures AllOneLine(Lines(text))
    ensures Text(Lines(text)) == text || Text(Lines(text)) == text + "\n"
    decreases |text|
  {
    hide LineEnd, NextLine, OneLine;
    if text != "" {
      var line, rest := text[..LineEnd(text)], NextLine(text);
      FirstLine(text);
      LinesAreLines(rest);
      assert Lines(text) == [line] + Lines(rest) && Lines(text)[1..] == Lines(rest);
      assert Text(Lines(text)) == line + "\n" + Text(Lines(rest));
      assert rest == "" ==> Text(Lines(rest)) == "";
    }
  }

  lemma {:induction false} EscapedIsOneLine(s: string)
    ensures OneLine(Escape(s))
  {
    if s != "" {
      EscapedIsOneLine(s[1..]);
    }
  }

  lemma {:induction false} KeptAreOneLine(lines: seq<string>)
    requires AllOneLine(lines)
    ensures AllOneLine(Kept(lines))
  {
    hide IsCredentialAssignment, OneLine;
    if lines != [] {
      KeptAreOneLine(lines[1..]);
    }
  }

  lemma ConstantsAreOneLine()
    ensures OneLine(USER) && OneLine(PASSWORD) && OneLine(BANNER)
  {
  }

  lemma AssignmentIsOneLine(key: string, value: string)
    requires OneLine(key)
    ensures OneLine(Assignment(key, value))
  {
    EscapedIsOneLine(value);
  }

  lemma StoredAreOneLine(lines: seq<string>, user: string, password: string)
    requires AllOneLine(lines)
    ensures AllOneLine(Store(lines, user, password))
  {
    hide OneLine, Assignment, Kept;
    KeptAreOneLine(lines);
    ConstantsAreOneLine();
    AssignmentIsOneLine(USER, user);
    AssignmentIsOneLine(PASSWORD, password);
    assert OneLine("") by { EscapedIsOneLine(""); }
  }

  function StoredFile(text: string, user: string, password: string): string {
    Text(Store(Lines(text), user, password))
  }

  function ClearedFile(text: string): string {
    Text(Kept(Lines(text)))
  }

  /** Both rewritten files, read again, are the lines that were written: no value can break out of its line. */
  lemma RewrittenFileReads(text: string, user: string, password: string)
    ensures Lines(StoredFile(text, user, password)) == Store(Lines(text), user, password)
    ensures Lines(ClearedFile(text)) == Kept(Lines(text))
  {
    hide Store, Kept, Lines, Text, AllOneLine;
    LinesAreLines(text);
    KeptAreOneLine(Lines(text));
    StoredAreOneLine(Lines(text), user, password);
    WrittenLinesRead(Kept(Lines(text)));
    WrittenLinesRead(Store(Lines(text), user, password));
  }

  /** The three commands on any file without a shadowing line: get after store, get after clear, clear after store. */
  lemma FileRoundTrip(text: string, user: string, password: string)
    requires Unshadowed(Lines(text))
    ensures var f := Lines(StoredFile(text, user, password));
            Parsed(f, USER) == user && Parsed(f, PASSWORD) == password
    ensures var f := Lines(ClearedFile(text)); Parsed(f, USER) == "" && Parsed(f, PASSWORD) == ""
    ensures var f := Lines(ClearedFile(StoredFile(text, user, password)));
            && f == Kept(Lines(text)) + [""]
            && Parsed(f, USER) == "" && Parsed(f, PASSWORD) == ""
  {
    hide StoredFile, ClearedFile, Store, Parsed, Unshadowed;
    RewrittenFileReads(text, user, password);
    RewrittenFileReads(StoredFile(text, user, password), user, password);
    StoreAndClear(Lines(text), user, password);
    StoreKeepsAndReplaces(Lines(text), user, password);
  }

  // ---------------------------------------------------------------- commands

  /** `parseConfigString`. */
  method ParseConfigString(lines: seq<string>, key: string) returns (value: string)
    ensures value == Parsed(lines, key)
  {
    hide Match;
    for i := 0 to |lines|
      invariant FirstMatch(lines[i..], key) == FirstMatch(lines, key)
    {
      var m := Match(lines[i], key);
      assert lines[i..][1..] == lines[i + 1..];
      if m.Some? {
        value := ConfigUnescape(m.value);
        return;
      }
    }
    return "";
  }

  /** The filter loop both rewriting commands share. */
  method Retain(lines: seq<string>) returns (updated: seq<string>)
    ensures updated == Kept(lines)
  {
    hide IsCredentialAssignment;
    updated := [];
    for i := 0 to |lines|
      invariant updated == Kept(lines[..i])
    {
      SelectAppend(lines[..i], [lines[i]], false);
      assert lines[..i] + [lines[i]] == lines[..i + 1];
      if !IsCredentialAssignment(lines[i]) {
        updated := updated + [lines[i]];
      }
    }
    assert lines[..|lines|] == lines;
  }

  lemma LinesCons(lines: seq<string>, text: string)
    requires text != ""
    ensures lines + Lines(text) == lines + [text[..LineEnd(text)]] + Lines(NextLine(text))
  {
    hide LineEnd, NextLine;
  }

  lemma NoLines()
    ensures Lines("") == []
  {
  }

  /** `readConfigLines` on the contents of the file. */
  method ReadConfigLines(text: string) returns (lines: seq<string>)
    ensures lines == Lines(text)
  {
    hide Lines, LineEnd, NextLine;
    lines := [];
    var rest := text;
    NoLines();
    while rest != ""
      invariant lines + Lines(rest) == Lines(text)
      decreases |rest|
    {
      LinesCons(lines, rest);
      lines := lines + [rest[..LineEnd(rest)]];
      rest := NextLine(rest);
    }
  }

  lemma TextCons(line: string, rest: seq<string>)
    ensures Text([line] + rest) == line + "\n" + Text(rest)
  {
    assert ([line] + rest)[1..] == rest;
  }

  lemma {:induction false} TextAppend(a: seq<string>, b: seq<string>)
    ensures Text(a + b) == Text(a) + Text(b)
  {
    if a == [] {
      assert a + b == b;
    } else {
      var rest := a[1..];
      assert a == [a[0]] + rest && a + b == [a[0]] + (rest + b);
      TextAppend(rest, b);
      TextCons(a[0], rest);
      TextCons(a[0], rest + b);
    }
  }

  /** `writeConfigLines`: the contents of the file it writes. */
  method WriteConfigLines(lines: seq<string>) returns (text: string)
    ensures text == Text(lines)
  {
    text := "";
    for i := 0 to |lines|
      invariant text == Text(lines[..i])
    {
      TextAppend(lines[..i], [lines[i]]);
      assert lines[..i] + [lines[i]] == lines[..i + 1];
      assert Text([lines[i]]) == lines[i] + "\n";
      text := text + lines[i] + "\n";
    }
    assert lines[..|lines|] == lines;
  }

  /** `storeCredentialsInConfig`, from old file contents to new. */
  method StoreCredentialsInConfig(text: string, user: string, password: string) returns (updated: string)
    ensures updated == StoredFile(text, user, password)
    ensures Dropped(Lines(updated)) == Block(user, password)
    ensures Kept(Lines(updated)) == Kept(Lines(text)) + [""]
  {
    var lines := ReadConfigLines(text);
    var kept := Retain(lines);
    var u := ConfigEscape(user);
    var p := ConfigEscape(password);
    var all := kept + ["", BANNER, USER + " = \"" + u + "\"", PASSWORD + " = \"" + p + "\""];
    assert all == Store(lines, user, password);
    updated := WriteConfigLines(all);
    RewrittenFileReads(text, user, password);
    StoreKeepsAndReplaces(lines, user, password);
  }

  /** `clearCredentialsFromConfig`, from old file contents to new. */
  method ClearCredentialsFromConfig(text: string) returns (updated: string)
    ensures updated == ClearedFile(text)
    ensures Lines(updated) == Kept(Lines(text)) && Dropped(Lines(updated)) == []
  {
    var lines := ReadConfigLines(text);
    var kept := Retain(lines);
    updated := WriteConfigLines(kept);
    RewrittenFileReads(text, "", "");
    SelectTwice(lines, false, true);
  }
}
