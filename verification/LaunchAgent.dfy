/** The launch agent's property list, written line by line into one buffer, and
    the test that it starts a given binary: a search for the text of its
    program arguments up to the first of them. The test is exact because no
    content can hold a key's start. */
module LaunchAgent {
  import opened Outcomes
  import opened Text
  import opened Supervisors

  const EXIT_TIMEOUT_SECS: nat := 86400
  const SOCKET_PASSWORD_ENV := "CMUX_SOCKET_PASSWORD"

  // ----- Escaping -----

  /** The three replacements, one after the other. */
  function Escape(text: string): string {
    Replaced(Replaced(Replaced(text, '&', "&amp;"), '<', "&lt;"), '>', "&gt;")
  }

  function EscapedChar(c: char): string {
    match c
    case '&' => "&amp;"
    case '<' => "&lt;"
    case '>' => "&gt;"
    case _ => [c]
  }

  lemma {:induction false} ReplacedTogether(a: string, b: string, c: char, with: string)
    ensures Replaced(a + b, c, with) == Replaced(a, c, with) + Replaced(b, c, with)
  {
    if a == [] {
      assert a + b == b;
    } else {
      assert (a + b)[1..] == a[1..] + b;
      ReplacedTogether(a[1..], b, c, with);
    }
  }

  lemma ReplacedOne(c: char, d: char, with: string)
    ensures Replaced([c], d, with) == if c == d then with else [c]
  {
    assert [c][1..] == [];
  }

  lemma EscapeChar(c: char)
    ensures Escape([c]) == EscapedChar(c)
  {
    ReplacedOne(c, '&', "&amp;");
    if c == '&' {
      Untouched("&amp;", '<', "&lt;");
      Untouched("&amp;", '>', "&gt;");
    } else {
      EscapeBracket(c);
    }
  }

  lemma EscapeBracket(c: char)
    requires c != '&'
    ensures Replaced(Replaced([c], '<', "&lt;"), '>', "&gt;") == EscapedChar(c)
  {
    ReplacedOne(c, '<', "&lt;");
    if c == '<' {
      Untouched("&lt;", '>', "&gt;");
    } else {
      ReplacedOne(c, '>', "&gt;");
    }
  }

  lemma {:induction false} Untouched(text: string, c: char, with: string)
    requires c !in text
    ensures Replaced(text, c, with) == text
  {
    if text != [] {
      Untouched(text[1..], c, with);
    }
  }

  /** What one replacement puts in, no later one touches: each character is
      escaped on its own. */
  lemma EscapeStep(text: string)
    requires text != []
    ensures Escape(text) == EscapedChar(text[0]) + Escape(text[1..])
  {
    var c, rest := [text[0]], text[1..];
    assert text == c + rest;
    ReplacedTogether(c, rest, '&', "&amp;");
    var c1, rest1 := Replaced(c, '&', "&amp;"), Replaced(rest, '&', "&amp;");
    ReplacedTogether(c1, rest1, '<', "&lt;");
    ReplacedTogether(Replaced(c1, '<', "&lt;"), Replaced(rest1, '<', "&lt;"), '>', "&gt;");
    EscapeChar(text[0]);
  }

  /** Escaped text has no markup in it. */
  lemma {:induction false} EscapedHasNoMarkup(text: string)
    ensures '<' !in Escape(text) && '>' !in Escape(text)
  {
    if text != [] {
      EscapeStep(text);
      EscapedHasNoMarkup(text[1..]);
    }
  }

  /** The text escaped text stands for. */
  function Unescaped(text: string): string {
    if text == [] then []
    else if StartsWith(text, "&amp;") then ['&'] + Unescaped(text[5..])
    else if StartsWith(text, "&lt;") then ['<'] + Unescaped(text[4..])
    else if StartsWith(text, "&gt;") then ['>'] + Unescaped(text[4..])
    else [text[0]] + Unescaped(text[1..])
  }

  lemma {:induction false} UnescapedEscape(text: string)
    ensures Unescaped(Escape(text)) == text
  {
    if text != [] {
      EscapeStep(text);
      UnescapedEscape(text[1..]);
      UnescapedStep(text[0], Escape(text[1..]));
    }
  }

  lemma UnescapedStep(c: char, rest: string)
    ensures Unescaped(EscapedChar(c) + rest) == [c] + Unescaped(rest)
  {
    match c
    case '&' => UnescapedAmp(rest);
    case '<' => UnescapedLt(rest);
    case '>' => UnescapedGt(rest);
    case _ =>
      var text := [c] + rest;
      assert text[0] == c && text[1..] == rest;
      NotEscaped(text);
  }

  lemma NotEscaped(text: string)
    requires text != [] && text[0] != '&'
    ensures !StartsWith(text, "&amp;") && !StartsWith(text, "&lt;") && !StartsWith(text, "&gt;")
  {
    StartsOtherwise(text, "&amp;", 0);
    StartsOtherwise(text, "&lt;", 0);
    StartsOtherwise(text, "&gt;", 0);
  }

  lemma StartsOtherwise(text: string, prefix: string, i: nat)
    requires i < |text| && i < |prefix| && text[i] != prefix[i]
    ensures !StartsWith(text, prefix)
  {
    if |prefix| <= |text| {
      assert text[..|prefix|][i] == text[i];
    }
  }

  lemma UnescapedAmp(rest: string)
    ensures Unescaped("&amp;" + rest) == ['&'] + Unescaped(rest)
  {
    var text := "&amp;" + rest;
    assert text[..5] == "&amp;" && text[5..] == rest;
  }

  lemma UnescapedLt(rest: string)
    ensures Unescaped("&lt;" + rest) == ['<'] + Unescaped(rest)
  {
    var text := "&lt;" + rest;
    assert text[1] == 'l';
    StartsOtherwise(text, "&amp;", 1);
    assert text[..4] == "&lt;" && text[4..] == rest;
  }

  lemma UnescapedGt(rest: string)
    ensures Unescaped("&gt;" + rest) == ['>'] + Unescaped(rest)
  {
    var text := "&gt;" + rest;
    assert text[1] == 'g';
    StartsOtherwise(text, "&amp;", 1);
    StartsOtherwise(text, "&lt;", 1);
    assert text[..4] == "&gt;" && text[4..] == rest;
  }

  // ----- The property list -----

  /** A line of the list: markup, or an element with its content. */
  datatype Line = Markup(depth: nat, tag: string) | Element(depth: nat, tag: string, content: string)

  datatype Spec = Spec(
    service: string,
    programArguments: seq<string>,
    workingDirectory: string,
    path: string,
    socketPassword: Option<string>,
    log: string)

  function Tabs(n: nat): (s: string)
    ensures |s| == n && forall i :: 0 <= i < n ==> s[i] == '\t'
  {
    seq(n, _ => '\t')
  }

  function Closed(l: Line): string
    requires l.Element?
  {
    "</" + l.tag + ">\n"
  }

  function LineText(l: Line): string {
    match l
    case Markup(depth, tag) => Tabs(depth) + ("<" + tag + ">\n")
    case Element(depth, tag, content) => Tabs(depth) + ("<" + tag + ">" + (content + Closed(l)))
  }

  function Render(lines: seq<Line>): string {
    if lines == [] then [] else LineText(lines[0]) + Render(lines[1..])
  }

  function Key(depth: nat, name: string): Line {
    Element(depth, "key", name)
  }

  function Str(depth: nat, text: string): Line {
    Element(depth, "string", Escape(text))
  }

  function XmlDeclaration(): string {
    "?xml version=\"1.0\"" + " encoding=\"UTF-8\"?"
  }

  function PublicId(): string {
    " PUBLIC \"-//Apple//DTD PLIST 1.0//EN\""
  }

  function SystemId(): string {
    " \"http://www.apple.com/DTDs/" + "PropertyList-1.0.dtd\""
  }

  function DocType(): string {
    "!DOCTYPE plist" + PublicId() + SystemId()
  }

  function Prolog(): seq<Line> {
    [ Markup(0, XmlDeclaration()),
      Markup(0, DocType()),
      Markup(0, "plist version=\"1.0\""),
      Markup(0, "dict") ]
  }

  function Head(service: string): seq<Line> {
    Prolog() + [Key(1, "Label"), Str(1, service)]
  }

  function Arguments(arguments: seq<string>): seq<Line> {
    seq(|arguments|, i requires 0 <= i < |arguments| => Str(2, arguments[i]))
  }

  function Environment(path: string, socketPassword: Option<string>): seq<Line> {
    [Key(2, "PATH"), Str(2, path)] +
    if socketPassword.Some? then [Key(2, SOCKET_PASSWORD_ENV), Str(2, socketPassword.value)] else []
  }

  function WorkingDirectory(directory: string): seq<Line> {
    [ Markup(1, "/array"),
      Key(1, "WorkingDirectory"),
      Str(1, directory),
      Key(1, "EnvironmentVariables"),
      Markup(1, "dict") ]
  }

  function Switches(): seq<Line> {
    [ Markup(1, "/dict"),
      Key(1, "KeepAlive"),
      Markup(1, "true/"),
      Key(1, "RunAtLoad"),
      Markup(1, "true/"),
      Key(1, "ExitTimeOut"),
      Element(1, "integer", Decimal(EXIT_TIMEOUT_SECS)) ]
  }

  function Logs(log: string): seq<Line> {
    [ Key(1, "StandardOutPath"),
      Str(1, log),
      Key(1, "StandardErrorPath"),
      Str(1, log),
      Markup(0, "/dict"),
      Markup(0, "/plist") ]
  }

  function Rest(s: Spec): seq<Line> {
    WorkingDirectory(s.workingDirectory) + Environment(s.path, s.socketPassword) + Switches() + Logs(s.log)
  }

  const PROGRAM := [Key(1, "ProgramArguments"), Markup(1, "array")]

  function Lines(s: Spec): seq<Line> {
    Head(s.service) + PROGRAM + Arguments(s.programArguments) + Rest(s)
  }

  lemma {:induction false} RenderTogether(a: seq<Line>, b: seq<Line>)
    ensures Render(a + b) == Render(a) + Render(b)
  {
    if a == [] {
      assert a + b == b;
    } else {
      assert (a + b)[1..] == a[1..] + b;
      RenderTogether(a[1..], b);
    }
  }

  lemma RenderOne(l: Line)
    ensures Render([l]) == LineText(l)
  {
    assert [l][1..] == [];
  }

  lemma OneMoreArgument(before: seq<Line>, arguments: seq<string>, i: nat)
    requires i < |arguments|
    ensures Render(before + Arguments(arguments[..i + 1])) ==
      Render(before + Arguments(arguments[..i])) + LineText(Str(2, arguments[i]))
  {
    var l, done := Str(2, arguments[i]), before + Arguments(arguments[..i]);
    assert before + Arguments(arguments[..i + 1]) == done + [l];
    RenderTogether(done, [l]);
    RenderOne(l);
  }

  /** The arguments, each pushed onto the lines before them. */
  method PushArguments(before: seq<Line>, xml: string, arguments: seq<string>) returns (pushed: string)
    requires xml == Render(before)
    ensures pushed == Render(before + Arguments(arguments))
  {
    pushed := xml;
    assert before + Arguments(arguments[..0]) == before;
    for i := 0 to |arguments|
      invariant pushed == Render(before + Arguments(arguments[..i]))
    {
      pushed := pushed + LineText(Str(2, arguments[i]));
      OneMoreArgument(before, arguments, i);
    }
    assert arguments[..|arguments|] == arguments;
  }

  /** `LaunchAgentSpec::xml`: the list pushed into one buffer. */
  method Xml(s: Spec) returns (xml: string)
    ensures xml == Render(Lines(s))
  {
    xml := Render(Head(s.service) + PROGRAM);
    xml := PushArguments(Head(s.service) + PROGRAM, xml, s.programArguments);
    RenderTogether(Head(s.service) + PROGRAM + Arguments(s.programArguments), Rest(s));
    xml := xml + Render(Rest(s));
  }

  // ----- Where a key is -----

  predicate NoMarkup(s: string) {
    '<' !in s && '>' !in s
  }

  /** Markup and elements as the list has them: content without markup, and
      keys told by their tag alone. */
  predicate Clean(l: Line) {
    && l.tag != "" && '<' !in l.tag
    && (l.Markup? ==> l.tag[0] != 'k')
    && (l.Element? ==> (l.tag == "key" || l.tag[0] != 'k') && NoMarkup(l.content))
  }

  predicate AllClean(lines: seq<Line>) {
    forall l :: l in lines ==> Clean(l)
  }

  predicate IsKey(l: Line, name: string) {
    l.Element? && l.tag == "key" && l.content == name
  }

  lemma SplitOccurs(a: string, b: string, needle: string, at: nat)
    ensures OccursAt(a + b, needle, |a| + at) <==> OccursAt(b, needle, at)
    ensures OccursAt(b, needle, 0) <==> StartsWith(b, needle)
  {
    if |a| + at + |needle| <= |a + b| {
      assert (a + b)[|a| + at..|a| + at + |needle|] == b[at..at + |needle|];
    }
  }

  lemma SplitStart(p: string, a: string, b: string)
    ensures StartsWith(p + a, p + b) <==> StartsWith(a, b)
  {
    if |b| <= |a| {
      assert (p + a)[..|p + b|] == p + a[..|b|];
      assert (p + a[..|b|])[|p|..] == a[..|b|] && (p + b)[|p|..] == b;
    }
  }

  /** Two texts without markup that are followed by markup are told apart by
      what they start with. */
  lemma SameUpToMarkup(x: string, y: string, a: string, b: string)
    requires NoMarkup(x) && NoMarkup(y) && b != "" && b[0] == '<' && a != "" && a[0] == '<'
    ensures StartsWith(x + a, y + b) <==> x == y && StartsWith(a, b)
  {
    var s, t := x + a, y + b;
    assert s[|x|] == '<' && t[|y|] == '<';
    if StartsWith(s, t) {
      assert s[..|t|] == t;
      assert forall i :: 0 <= i < |t| ==> s[i] == t[i];
      assert forall i :: 0 <= i < |x| && i < |y| ==> x[i] == s[i] == t[i] == y[i];
    }
    SplitStart(x, a, b);
  }

  /** The start of the element of key `name`. */
  function KeyStart(name: string): string {
    "<key>" + (name + "</key>")
  }

  lemma KeyInLine(l: Line, after: string, name: string, at: nat)
    requires Clean(l) && NoMarkup(name) && at < |LineText(l)|
    requires OccursAt(LineText(l) + after, KeyStart(name), at)
    ensures at == l.depth && IsKey(l, name)
  {
    var text, needle := LineText(l) + after, KeyStart(name);
    assert text[at..at + |needle|][0] == needle[0] == '<' && text[at..at + |needle|][1] == needle[1] == 'k';
    assert text[at] == '<' && text[at + 1] == 'k';
    LessInLine(l, at);
    assert l.Element? && l.tag == "key";
    var tail := Closed(l) + after;
    assert text == Tabs(at) + ("<key>" + (l.content + tail));
    SplitOccurs(Tabs(at), "<key>" + (l.content + tail), needle, 0);
    SplitStart("<key>", l.content + tail, name + "</key>");
    SameUpToMarkup(l.content, name, tail, "</key>");
  }

  lemma LessInLine(l: Line, at: nat)
    requires Clean(l) && at < |LineText(l)| && LineText(l)[at] == '<'
    ensures at + 1 < |LineText(l)|
    ensures at == l.depth || LineText(l)[at + 1] == '/'
    ensures LineText(l)[l.depth + 1] == l.tag[0]
  {
    var text := LineText(l);
    if l.Element? {
      var at2 := l.depth + |l.tag| + 2 + |l.content|;
      var tail := Tabs(l.depth) + ("<" + l.tag + ">");
      assert text == tail + l.content + Closed(l);
      assert text[at2..] == Closed(l);
    }
  }

  /** A key's start is found in rendered lines only where a line is that key. */
  lemma {:induction false} KeyInLines(lines: seq<Line>, name: string, at: nat) returns (k: nat)
    requires AllClean(lines) && NoMarkup(name)
    requires OccursAt(Render(lines), KeyStart(name), at)
    ensures k < |lines| && IsKey(lines[k], name)
    ensures at == |Render(lines[..k])| + lines[k].depth
  {
    var l, after := lines[0], Render(lines[1..]);
    if at < |LineText(l)| {
      KeyInLine(l, after, name, at);
      k := 0;
    } else {
      SplitOccurs(LineText(l), after, KeyStart(name), at - |LineText(l)|);
      k := KeyInLines(lines[1..], name, at - |LineText(l)|);
      RenderFront(lines, k);
      k := k + 1;
    }
  }

  lemma RenderFront(lines: seq<Line>, k: nat)
    requires k < |lines|
    ensures Render(lines[..k + 1]) == LineText(lines[0]) + Render(lines[1..][..k])
  {
    assert lines[..k + 1][0] == lines[0] && lines[..k + 1][1..] == lines[1..][..k];
  }

  // ----- The property list's one `ProgramArguments` -----

  const ARGUMENTS := "ProgramArguments"

  /** Lines to be told from that key. */
  predicate Other(l: Line) {
    Clean(l) && !IsKey(l, ARGUMENTS)
  }

  ghost predicate AllOther(lines: seq<Line>) {
    forall i :: 0 <= i < |lines| ==> Other(lines[i])
  }

  lemma OtherMarkup(depth: nat, tag: string)
    requires tag != "" && tag[0] != 'k' && '<' !in tag
    ensures Other(Markup(depth, tag))
  {
  }

  lemma OtherKey(depth: nat, name: string)
    requires NoMarkup(name) && name != [] && (|name| != |ARGUMENTS| || name[0] != ARGUMENTS[0])
    ensures Other(Key(depth, name))
  {
  }

  lemma OtherStr(depth: nat, text: string)
    ensures Other(Str(depth, text))
  {
    EscapedHasNoMarkup(text);
  }

  lemma XmlDeclarationIsOther()
    ensures Other(Markup(0, XmlDeclaration()))
  {
    OtherMarkup(0, XmlDeclaration());
  }

  lemma PublicIdIsClean()
    ensures '<' !in PublicId()
  {
  }

  lemma SystemIdIsClean()
    ensures '<' !in SystemId()
  {
  }

  lemma OtherMarkupOf(tag: string, a: string, b: string)
    requires tag != "" && tag[0] != 'k' && '<' !in tag && '<' !in a && '<' !in b
    ensures Other(Markup(0, tag + a + b))
  {
  }

  lemma DocTypeIsOther()
    ensures Other(Markup(0, DocType()))
  {
    PublicIdIsClean();
    SystemIdIsClean();
    OtherMarkupOf("!DOCTYPE plist", PublicId(), SystemId());
  }

  lemma PrologIsOther()
    ensures AllOther(Prolog())
  {
    XmlDeclarationIsOther();
    DocTypeIsOther();
    OtherMarkup(0, "plist version=\"1.0\"");
    OtherMarkup(0, "dict");
  }

  lemma HeadIsOther(service: string)
    ensures AllOther(Head(service))
  {
    PrologIsOther();
    OtherKey(1, "Label");
    OtherStr(1, service);
  }

  lemma ArgumentsAreOther(arguments: seq<string>)
    ensures AllOther(Arguments(arguments))
  {
    forall i | 0 <= i < |arguments| ensures Other(Arguments(arguments)[i]) {
      OtherStr(2, arguments[i]);
    }
  }

  lemma EnvironmentIsOther(path: string, socketPassword: Option<string>)
    ensures AllOther(Environment(path, socketPassword))
  {
    OtherKey(2, "PATH");
    OtherStr(2, path);
    PasswordKeyIsOther();
    if socketPassword.Some? {
      OtherStr(2, socketPassword.value);
    }
  }

  lemma PasswordKeyIsOther()
    ensures Other(Key(2, SOCKET_PASSWORD_ENV))
  {
    OtherKey(2, SOCKET_PASSWORD_ENV);
  }

  lemma WorkingDirectoryIsOther(directory: string)
    ensures AllOther(WorkingDirectory(directory))
  {
    DirectoryKeyIsOther();
    EnvironmentKeyIsOther();
    OtherStr(1, directory);
    OtherMarkup(1, "/array");
    OtherMarkup(1, "dict");
  }

  lemma DirectoryKeyIsOther()
    ensures Other(Key(1, "WorkingDirectory"))
  {
    OtherKey(1, "WorkingDirectory");
  }

  lemma EnvironmentKeyIsOther()
    ensures Other(Key(1, "EnvironmentVariables"))
  {
    OtherKey(1, "EnvironmentVariables");
  }

  lemma SwitchesAreOther()
    ensures AllOther(Switches())
  {
    OtherMarkup(1, "/dict");
    OtherMarkup(1, "true/");
    SwitchKeysAreOther();
    SecondsAreOther();
  }

  lemma SwitchKeysAreOther()
    ensures Other(Key(1, "KeepAlive")) && Other(Key(1, "RunAtLoad")) && Other(Key(1, "ExitTimeOut"))
  {
    OtherKey(1, "KeepAlive");
    OtherKey(1, "RunAtLoad");
    OtherKey(1, "ExitTimeOut");
  }

  lemma SecondsAreOther()
    ensures Other(Element(1, "integer", Decimal(EXIT_TIMEOUT_SECS)))
  {
    var seconds := Decimal(EXIT_TIMEOUT_SECS);
    assert AllDigits(seconds);
    assert "integer"[0] == 'i';
  }

  lemma LogsAreOther(log: string)
    ensures AllOther(Logs(log))
  {
    OtherKey(1, "StandardOutPath");
    OtherKey(1, "StandardErrorPath");
    OtherStr(1, log);
    OtherMarkup(0, "/dict");
    OtherMarkup(0, "/plist");
  }

  lemma RestIsOther(s: Spec)
    ensures AllOther(Rest(s))
  {
    WorkingDirectoryIsOther(s.workingDirectory);
    EnvironmentIsOther(s.path, s.socketPassword);
    SwitchesAreOther();
    LogsAreOther(s.log);
  }

  /** What the test looks for: the key, and right after it an array that
      starts with the binary. */
  function ArrayStart(current: string): string {
    "\t\t<string>" + (Escape(current) + "</string>")
  }

  function Pattern(current: string): string {
    KeyStart(ARGUMENTS) + ("\n\t<array>\n" + ArrayStart(current))
  }

  /** The key of the program arguments starts at one place in the list. */
  lemma ArgumentsKeyAt(s: Spec, at: nat)
    requires OccursAt(Render(Lines(s)), KeyStart(ARGUMENTS), at)
    ensures at == |Render(Head(s.service))| + 1
  {
    var lines, head := Lines(s), Head(s.service);
    HeadIsOther(s.service);
    ArgumentsAreOther(s.programArguments);
    RestIsOther(s);
    assert lines == head + PROGRAM + (Arguments(s.programArguments) + Rest(s));
    OnlyKey(head, Arguments(s.programArguments) + Rest(s), at);
  }

  lemma OnlyKey(head: seq<Line>, after: seq<Line>, at: nat)
    requires AllOther(head) && AllOther(after)
    requires OccursAt(Render(head + PROGRAM + after), KeyStart(ARGUMENTS), at)
    ensures at == |Render(head)| + 1
  {
    AllClean3(head, after);
    var k := KeyInLines(head + PROGRAM + after, ARGUMENTS, at);
    OnlyKeyLine(head, after, k);
    assert (head + PROGRAM + after)[..|head|] == head;
  }

  lemma AllClean3(head: seq<Line>, after: seq<Line>)
    requires AllOther(head) && AllOther(after)
    ensures AllClean(head + PROGRAM + after)
  {
    forall l | l in head + PROGRAM + after ensures Clean(l) {
      if l in head {
        assert exists i :: 0 <= i < |head| && head[i] == l;
      } else if l in after {
        assert exists i :: 0 <= i < |after| && after[i] == l;
      }
    }
  }

  lemma OnlyKeyLine(head: seq<Line>, after: seq<Line>, k: nat)
    requires AllOther(head) && AllOther(after)
    requires k < |head + PROGRAM + after| && IsKey((head + PROGRAM + after)[k], ARGUMENTS)
    ensures k == |head| && (head + PROGRAM + after)[k].depth == 1
  {
    var i := k - |head|;
    assert k < |head| ==> Other(head[k]);
    assert i >= 2 ==> Other(after[i - 2]);
  }

  /** The lines after `<array>`: what is rendered there starts with the binary
      exactly when it is the first argument. */
  lemma BodyStart(s: Spec, current: string)
    ensures StartsWith(Render(Arguments(s.programArguments) + Rest(s)), ArrayStart(current)) <==>
      s.programArguments != [] && s.programArguments[0] == current
  {
    if s.programArguments == [] {
      EmptyBody(s, current);
    } else {
      var arguments, rest := Arguments(s.programArguments), Rest(s);
      assert (arguments + rest)[0] == arguments[0] == Str(2, s.programArguments[0]);
      FirstArgument(s.programArguments[0], Render((arguments + rest)[1..]), current);
    }
  }

  lemma EmptyBody(s: Spec, current: string)
    requires s.programArguments == []
    ensures !StartsWith(Render(Arguments(s.programArguments) + Rest(s)), ArrayStart(current))
  {
    var lines := Arguments(s.programArguments) + Rest(s);
    var body := Render(lines);
    assert lines[0] == WorkingDirectory(s.workingDirectory)[0] == Markup(1, "/array");
    assert body == Tabs(1) + ("<" + "/array" + ">\n") + Render(lines[1..]);
    assert body[1] == '<';
    assert ArrayStart(current)[1] == '\t';
  }

  lemma FirstArgument(first: string, after: string, current: string)
    ensures StartsWith(LineText(Str(2, first)) + after, ArrayStart(current)) <==> first == current
  {
    var tail := Closed(Str(2, first)) + after;
    StrAtDepth2(first, after);
    EscapedHasNoMarkup(first);
    EscapedHasNoMarkup(current);
    SplitStart("\t\t<string>", Escape(first) + tail, Escape(current) + "</string>");
    SameUpToMarkup(Escape(first), Escape(current), tail, "</string>");
    UnescapedEscape(first);
    UnescapedEscape(current);
  }

  lemma StrAtDepth2(text: string, after: string)
    ensures var tail := Closed(Str(2, text)) + after;
      && LineText(Str(2, text)) + after == "\t\t<string>" + (Escape(text) + tail)
      && StartsWith(tail, "</string>") && tail[0] == '<'
  {
    var e, close := Escape(text), Closed(Str(2, text));
    assert Tabs(2) == "\t\t";
    assert "<" + "string" + ">" == "<string>";
    Regroup("\t\t", "<string>", e, close, after);
    assert close == "</string>" + "\n";
    Regroup("", "", "</string>", "\n", after);
    assert "\t\t" + "<string>" == "\t\t<string>";
    assert (close + after)[..9] == "</string>";
  }

  lemma Regroup(a: string, b: string, c: string, d: string, e: string)
    ensures a + (b + (c + d)) + e == (a + b) + (c + (d + e))
  {
  }

  /** The list, cut where the test's text can only start. */
  lemma ListAtKey(s: Spec)
    ensures Render(Lines(s)) == (Render(Head(s.service)) + "\t") +
      (KeyStart(ARGUMENTS) + ("\n\t<array>\n" + Render(Arguments(s.programArguments) + Rest(s))))
  {
    var head, arguments := Head(s.service), Arguments(s.programArguments);
    ProgramBetween(head, arguments, Rest(s));
    CutAtKey(head, arguments + Rest(s));
  }

  lemma ProgramBetween(head: seq<Line>, arguments: seq<Line>, rest: seq<Line>)
    ensures head + PROGRAM + arguments + rest == head + (PROGRAM + (arguments + rest))
  {
  }

  lemma CutAtKey(head: seq<Line>, after: seq<Line>)
    ensures Render(head + (PROGRAM + after)) ==
      (Render(head) + "\t") + (KeyStart(ARGUMENTS) + ("\n\t<array>\n" + Render(after)))
  {
    RenderTogether(head, PROGRAM + after);
    RenderTogether(PROGRAM, after);
    RenderProgram();
    RegroupList(Render(head), "\t", KeyStart(ARGUMENTS), "\n\t<array>\n", Render(after));
  }

  lemma RegroupList(a: string, b: string, c: string, d: string, e: string)
    ensures a + ((b + (c + d)) + e) == (a + b) + (c + (d + e))
  {
  }

  lemma RenderProgram()
    ensures Render(PROGRAM) == "\t" + (KeyStart(ARGUMENTS) + "\n\t<array>\n")
  {
    var key, opening := PROGRAM[0], PROGRAM[1];
    assert PROGRAM == [key] + [opening];
    RenderTogether([key], [opening]);
    RenderOne(key);
    RenderOne(opening);
    assert Tabs(1) == "\t";
    assert LineText(key) == "\t" + (KeyStart(ARGUMENTS) + "\n");
    assert LineText(opening) == "\t<array>\n";
  }

  /** The substring test is exact on every list `Xml` writes. */
  lemma PatternIsExact(s: Spec, current: string)
    ensures Contains(Render(Lines(s)), Pattern(current)) <==>
      s.programArguments != [] && s.programArguments[0] == current
  {
    var list, at := Render(Lines(s)), |Render(Head(s.service))| + 1;
    PatternAtKey(s, current);
    BodyStart(s, current);
    forall other: nat | OccursAt(list, Pattern(current), other) ensures other == at {
      KeyOfPattern(list, current, other);
      ArgumentsKeyAt(s, other);
    }
  }

  lemma PatternAtKey(s: Spec, current: string)
    ensures OccursAt(Render(Lines(s)), Pattern(current), |Render(Head(s.service))| + 1) <==>
      StartsWith(Render(Arguments(s.programArguments) + Rest(s)), ArrayStart(current))
  {
    var before, body := Render(Head(s.service)) + "\t", Render(Arguments(s.programArguments) + Rest(s));
    ListAtKey(s);
    PatternAfter(before, body, current);
  }

  lemma PatternAfter(before: string, body: string, current: string)
    ensures OccursAt(before + (KeyStart(ARGUMENTS) + ("\n\t<array>\n" + body)), Pattern(current), |before|) <==>
      StartsWith(body, ArrayStart(current))
  {
    var opening := "\n\t<array>\n";
    SplitOccurs(before, KeyStart(ARGUMENTS) + (opening + body), Pattern(current), 0);
    SplitStart(KeyStart(ARGUMENTS), opening + body, opening + ArrayStart(current));
    SplitStart(opening, body, ArrayStart(current));
  }

  lemma KeyOfPattern(list: string, current: string, at: nat)
    requires OccursAt(list, Pattern(current), at)
    ensures OccursAt(list, KeyStart(ARGUMENTS), at)
  {
    var n := |KeyStart(ARGUMENTS)|;
    assert list[at..at + |Pattern(current)|][..n] == list[at..at + n];
    assert Pattern(current)[..n] == KeyStart(ARGUMENTS);
  }

  // ----- Which supervisors can be handed over -----

  /** Every live supervisor takes a handoff, and one that launchd runs is
      started from this very binary. `current` is the binary's path when it is
      text, `plist` the agent's file when it can be read. */
  function TakesHandoff(live: seq<Registration>, current: Option<string>, plist: Option<string>): bool {
    if exists r :: r in live && !r.handoffAccepted then false
    else if forall r :: r in live ==> r.mode != Some(Launchd) then true
    else if current.None? then false
    else plist.Some? && Contains(plist.value, Pattern(current.value))
  }

  /** On an agent written by this program: a launchd supervisor is handed over
      exactly when the agent starts the binary it is handed over to. */
  lemma TakesHandoffMeans(live: seq<Registration>, current: Option<string>, agent: Spec)
    ensures TakesHandoff(live, current, Some(Render(Lines(agent)))) <==>
      && (forall r :: r in live ==> r.handoffAccepted)
      && ((exists r :: r in live && r.mode == Some(Launchd)) ==>
            current.Some? && agent.programArguments != [] && agent.programArguments[0] == current.value)
    ensures TakesHandoff(live, current, None) <==>
      forall r :: r in live ==> r.handoffAccepted && r.mode != Some(Launchd)
  {
    if current.Some? {
      PatternIsExact(agent, current.value);
    }
  }
}
