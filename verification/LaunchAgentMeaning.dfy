/** What the launch agent's property list says, read off its lines: each key
    with its value, the program arguments in order, the environment the service
    gets, that there is no other key and none twice, and how each kind of line
    is written into the file. */
module LaunchAgentMeaning {
  import opened Outcomes
  import opened Text
  import opened LaunchAgent

  /** Line `i` is the key `name`, at `depth`. */
  predicate KeyAt(lines: seq<Line>, i: nat, depth: nat, name: string) {
    i < |lines| && lines[i] == Element(depth, "key", name)
  }

  /** The key `name` has the one-line value `value`. */
  ghost predicate Has(lines: seq<Line>, depth: nat, name: string, value: Line) {
    exists i: nat :: KeyAt(lines, i, depth, name) && i + 1 < |lines| && lines[i + 1] == value
  }

  /** The key at `i` has the array of `items`. */
  predicate ArrayAt(lines: seq<Line>, i: nat, items: seq<string>) {
    && i + |items| + 2 < |lines|
    && lines[i + 1] == Markup(1, "array") && lines[i + |items| + 2] == Markup(1, "/array")
    && forall k :: 0 <= k < |items| ==> lines[i + 2 + k] == Element(2, "string", Escape(items[k]))
  }

  /** The variables at `i`: the path, and the password if there is one. */
  predicate VariablesAt(lines: seq<Line>, i: nat, path: string, password: Option<string>) {
    && i + 4 < |lines| && lines[i + 1] == Markup(1, "dict")
    && lines[i + 2] == Element(2, "key", "PATH") && lines[i + 3] == Element(2, "string", Escape(path))
    && (if password.None? then lines[i + 4] == Markup(1, "/dict")
        else
          && i + 6 < |lines| && lines[i + 4] == Element(2, "key", "CMUX_SOCKET_PASSWORD")
          && lines[i + 5] == Element(2, "string", Escape(password.value)) && lines[i + 6] == Markup(1, "/dict"))
  }

  ghost predicate HasArray(lines: seq<Line>, name: string, items: seq<string>) {
    exists i: nat :: KeyAt(lines, i, 1, name) && ArrayAt(lines, i, items)
  }

  ghost predicate HasVariables(lines: seq<Line>, name: string, path: string, password: Option<string>) {
    exists i: nat :: KeyAt(lines, i, 1, name) && VariablesAt(lines, i, path, password)
  }

  /** What the list says besides its arguments and variables: the service
      under its label, in its directory, started at once and again after any
      exit, with a day to end in, both outputs in one log. */
  lemma ListSays(s: Spec)
    ensures Has(Lines(s), 1, "Label", Element(1, "string", Escape(s.service)))
    ensures Has(Lines(s), 1, "WorkingDirectory", Element(1, "string", Escape(s.workingDirectory)))
    ensures Has(Lines(s), 1, "KeepAlive", Markup(1, "true/")) && Has(Lines(s), 1, "RunAtLoad", Markup(1, "true/"))
    ensures Has(Lines(s), 1, "ExitTimeOut", Element(1, "integer", "86400"))
    ensures Has(Lines(s), 1, "StandardOutPath", Element(1, "string", Escape(s.log)))
    ensures Has(Lines(s), 1, "StandardErrorPath", Element(1, "string", Escape(s.log)))
  {
    HeadSays(s);
    DirectorySays(s);
    SwitchesSay(s);
    OutputsSay(s);
  }

  /** The lines up to the arguments' end. */
  function Start(s: Spec): seq<Line> {
    Head(s.service) + PROGRAM + Arguments(s.programArguments)
  }

  lemma HeadSays(s: Spec)
    ensures Has(Lines(s), 1, "Label", Element(1, "string", Escape(s.service)))
  {
    var after := PROGRAM + Arguments(s.programArguments) + Rest(s);
    assert Lines(s) == [] + Head(s.service) + after;
    HasWithin([], Head(s.service), after, 4);
  }

  lemma DirectorySays(s: Spec)
    ensures Has(Lines(s), 1, "WorkingDirectory", Element(1, "string", Escape(s.workingDirectory)))
  {
    var part := WorkingDirectory(s.workingDirectory);
    var after := Environment(s.path, s.socketPassword) + Switches() + Logs(s.log);
    Regrouped(Start(s), part, Environment(s.path, s.socketPassword), Switches(), Logs(s.log));
    HasWithin(Start(s), part, after, 1);
  }

  lemma SwitchesSay(s: Spec)
    ensures Has(Lines(s), 1, "KeepAlive", Markup(1, "true/")) && Has(Lines(s), 1, "RunAtLoad", Markup(1, "true/"))
    ensures Has(Lines(s), 1, "ExitTimeOut", Element(1, "integer", "86400"))
  {
    var before := Start(s) + WorkingDirectory(s.workingDirectory) + Environment(s.path, s.socketPassword);
    Regrouped(Start(s), WorkingDirectory(s.workingDirectory), Environment(s.path, s.socketPassword), Switches(),
              Logs(s.log));
    ADay();
    HasWithin(before, Switches(), Logs(s.log), 1);
    HasWithin(before, Switches(), Logs(s.log), 3);
    HasWithin(before, Switches(), Logs(s.log), 5);
  }

  lemma OutputsSay(s: Spec)
    ensures Has(Lines(s), 1, "StandardOutPath", Element(1, "string", Escape(s.log)))
    ensures Has(Lines(s), 1, "StandardErrorPath", Element(1, "string", Escape(s.log)))
  {
    var before := Start(s) + WorkingDirectory(s.workingDirectory) + Environment(s.path, s.socketPassword) + Switches();
    Regrouped(Start(s), WorkingDirectory(s.workingDirectory), Environment(s.path, s.socketPassword), Switches(),
              Logs(s.log));
    LogsSay(before, s.log);
  }

  lemma LogsSay(before: seq<Line>, log: string)
    ensures Has(before + Logs(log), 1, "StandardOutPath", Element(1, "string", Escape(log)))
    ensures Has(before + Logs(log), 1, "StandardErrorPath", Element(1, "string", Escape(log)))
  {
    HasAtEnd(before, Logs(log), 0);
    HasAtEnd(before, Logs(log), 2);
  }

  lemma Regrouped(a: seq<Line>, b: seq<Line>, c: seq<Line>, d: seq<Line>, e: seq<Line>)
    ensures a + (b + c + d + e) == a + b + (c + d + e)
    ensures a + (b + c + d + e) == a + b + c + d + e
  {
  }

  lemma HasWithin(before: seq<Line>, part: seq<Line>, after: seq<Line>, i: nat)
    requires i + 1 < |part| && part[i].Element? && part[i].tag == "key"
    ensures Has(before + part + after, part[i].depth, part[i].content, part[i + 1])
  {
    var lines := before + part + after;
    assert lines[|before| + i] == part[i] && lines[|before| + i + 1] == part[i + 1];
    assert KeyAt(lines, |before| + i, part[i].depth, part[i].content);
  }

  lemma HasAtEnd(before: seq<Line>, part: seq<Line>, i: nat)
    requires i + 1 < |part| && part[i].Element? && part[i].tag == "key"
    ensures Has(before + part, part[i].depth, part[i].content, part[i + 1])
  {
    assert before + part + [] == before + part;
    HasWithin(before, part, [], i);
  }

  lemma ADay()
    ensures Decimal(EXIT_TIMEOUT_SECS) == "86400"
  {
    assert Padded(8, 1) == "8";
    assert Padded(86, 1) == Padded(8, 0) + "6" && Padded(8, 0) == "8";
    assert Padded(86, 0) == Padded(8, 0) + "6";
    assert Padded(864, 0) == Padded(86, 0) + "4";
    assert Padded(8640, 0) == Padded(864, 0) + "0";
    assert Padded(86400, 1) == Padded(8640, 0) + "0";
  }

  /** The arguments, in order and all of them. */
  lemma ListArguments(s: Spec)
    ensures HasArray(Lines(s), "ProgramArguments", s.programArguments)
  {
    var lines, i, items := Lines(s), |Head(s.service)|, s.programArguments;
    assert lines == Head(s.service) + (PROGRAM + (Arguments(items) + Rest(s)));
    assert lines[i] == PROGRAM[0] && lines[i + 1] == PROGRAM[1];
    assert lines[i + 2..] == Arguments(items) + Rest(s);
    forall k | 0 <= k < |items| ensures lines[i + 2 + k] == Element(2, "string", Escape(items[k])) {
      assert lines[i + 2..][k] == Arguments(items)[k];
    }
    assert lines[i + 2..][|items|] == Rest(s)[0];
    assert KeyAt(lines, i, 1, "ProgramArguments");
  }

  /** The environment the service gets. */
  lemma ListVariables(s: Spec)
    ensures HasVariables(Lines(s), "EnvironmentVariables", s.path, s.socketPassword)
  {
    var start := Head(s.service) + PROGRAM + Arguments(s.programArguments);
    var part := WorkingDirectory(s.workingDirectory) + Environment(s.path, s.socketPassword) + Switches();
    var lines, i := Lines(s), |start| + 3;
    assert lines == start + part + Logs(s.log);
    assert forall k :: 0 <= k < |part| ==> lines[|start| + k] == part[k];
    assert KeyAt(lines, i, 1, "EnvironmentVariables");
    VariablesInPart(s);
    assert part[4] == lines[i + 1] && part[5] == lines[i + 2] && part[6] == lines[i + 3] && part[7] == lines[i + 4];
    assert s.socketPassword.Some? ==> part[8] == lines[i + 5] && part[9] == lines[i + 6];
  }

  lemma VariablesInPart(s: Spec)
    ensures var part := WorkingDirectory(s.workingDirectory) + Environment(s.path, s.socketPassword) + Switches();
      |part| > 9 && VariablesAt(part, 3, s.path, s.socketPassword)
  {
  }

  // ----- Each key once -----

  function Keys(lines: seq<Line>): seq<string> {
    if lines == [] then []
    else (if lines[0].Element? && lines[0].tag == "key" then [lines[0].content] else []) + Keys(lines[1..])
  }

  lemma {:induction false} KeysTogether(a: seq<Line>, b: seq<Line>)
    ensures Keys(a + b) == Keys(a) + Keys(b)
  {
    if a == [] {
      assert a + b == b;
    } else {
      assert (a + b)[1..] == a[1..] + b;
      KeysTogether(a[1..], b);
    }
  }

  lemma {:induction false} NoKeys(lines: seq<Line>)
    requires forall l :: l in lines ==> !(l.Element? && l.tag == "key")
    ensures Keys(lines) == []
  {
    if lines != [] {
      NoKeys(lines[1..]);
    }
  }

  /** The keys of the list, in order: there is no other, and none twice. */
  lemma ListKeys(s: Spec)
    ensures Keys(Lines(s)) ==
      ["Label"] + ["ProgramArguments"] +
      (["WorkingDirectory", "EnvironmentVariables"] +
       (["PATH"] + (if s.socketPassword.Some? then ["CMUX_SOCKET_PASSWORD"] else [])) +
       ["KeepAlive", "RunAtLoad", "ExitTimeOut"] + ["StandardOutPath", "StandardErrorPath"])
  {
    var head, arguments := Head(s.service), Arguments(s.programArguments);
    NoKeys(arguments);
    KeysTogether(head + PROGRAM + arguments, Rest(s));
    KeysTogether(head + PROGRAM, arguments);
    KeysTogether(head, PROGRAM);
    HeadKeys(s.service);
    RestKeys(s);
  }

  lemma HeadKeys(service: string)
    ensures Keys(Head(service)) == ["Label"] && Keys(PROGRAM) == ["ProgramArguments"]
  {
    NoKeys(Prolog());
    KeysTogether(Prolog(), [Key(1, "Label"), Str(1, service)]);
    TwoKeys(Key(1, "Label"), Str(1, service));
    TwoKeys(PROGRAM[0], PROGRAM[1]);
  }

  /** A key followed by its value. */
  lemma TwoKeys(a: Line, b: Line)
    requires a.Element? && a.tag == "key" && !(b.Element? && b.tag == "key")
    ensures Keys([a, b]) == [a.content]
  {
    assert [a, b][1..] == [b] && [b][1..] == [];
    assert Keys([b]) == Keys([b][1..]) == [];
  }

  lemma PairKeys(a: Line, b: Line, rest: seq<Line>)
    requires a.Element? && a.tag == "key" && !(b.Element? && b.tag == "key")
    ensures Keys([a, b] + rest) == [a.content] + Keys(rest)
  {
    TwoKeys(a, b);
    KeysTogether([a, b], rest);
  }

  lemma RestKeys(s: Spec)
    ensures Keys(Rest(s)) ==
      ["WorkingDirectory", "EnvironmentVariables"] +
      (["PATH"] + (if s.socketPassword.Some? then ["CMUX_SOCKET_PASSWORD"] else [])) +
      ["KeepAlive", "RunAtLoad", "ExitTimeOut"] + ["StandardOutPath", "StandardErrorPath"]
  {
    var directory, environment := WorkingDirectory(s.workingDirectory), Environment(s.path, s.socketPassword);
    FourKeys(directory, environment, Switches(), Logs(s.log));
    DirectoryKeys(s.workingDirectory);
    EnvironmentKeys(s.path, s.socketPassword);
    SwitchKeys();
    OutputKeys(s.log);
  }

  lemma FourKeys(a: seq<Line>, b: seq<Line>, c: seq<Line>, d: seq<Line>)
    ensures Keys(a + b + c + d) == Keys(a) + Keys(b) + Keys(c) + Keys(d)
  {
    KeysTogether(a + b + c, d);
    KeysTogether(a + b, c);
    KeysTogether(a, b);
  }

  lemma DirectoryKeys(directory: string)
    ensures Keys(WorkingDirectory(directory)) == ["WorkingDirectory", "EnvironmentVariables"]
  {
    var lines := WorkingDirectory(directory);
    assert lines == [lines[0]] + ([lines[1], lines[2]] + [lines[3], lines[4]]);
    NoKeys([lines[0]]);
    KeysTogether([lines[0]], [lines[1], lines[2]] + [lines[3], lines[4]]);
    PairKeys(lines[1], lines[2], [lines[3], lines[4]]);
    TwoKeys(lines[3], lines[4]);
  }

  lemma EnvironmentKeys(path: string, socketPassword: Option<string>)
    ensures Keys(Environment(path, socketPassword)) ==
      ["PATH"] + (if socketPassword.Some? then ["CMUX_SOCKET_PASSWORD"] else [])
  {
    var more :=
      if socketPassword.Some? then [Key(2, SOCKET_PASSWORD_ENV), Str(2, socketPassword.value)] else [];
    PairKeys(Key(2, "PATH"), Str(2, path), more);
    if socketPassword.Some? {
      TwoKeys(Key(2, SOCKET_PASSWORD_ENV), Str(2, socketPassword.value));
    }
  }

  lemma SwitchKeys()
    ensures Keys(Switches()) == ["KeepAlive", "RunAtLoad", "ExitTimeOut"]
  {
    var lines := Switches();
    var last := [lines[5], lines[6]];
    assert lines == [lines[0]] + ([lines[1], lines[2]] + ([lines[3], lines[4]] + last));
    NoKeys([lines[0]]);
    KeysTogether([lines[0]], [lines[1], lines[2]] + ([lines[3], lines[4]] + last));
    PairKeys(lines[1], lines[2], [lines[3], lines[4]] + last);
    PairKeys(lines[3], lines[4], last);
    TwoKeys(lines[5], lines[6]);
  }

  lemma OutputKeys(log: string)
    ensures Keys(Logs(log)) == ["StandardOutPath", "StandardErrorPath"]
  {
    var lines := Logs(log);
    var last := [lines[4], lines[5]];
    assert lines == [lines[0], lines[1]] + ([lines[2], lines[3]] + last);
    PairKeys(lines[0], lines[1], [lines[2], lines[3]] + last);
    PairKeys(lines[2], lines[3], last);
    NoKeys(last);
  }

  // ----- How a line is written -----

  /** A line as it stands in the file: as many tabs as it is deep, and its
      element or markup. */
  lemma LinesAsWritten(depth: nat, tag: string, content: string)
    ensures LineText(Element(depth, tag, content)) == Tabs(depth) + "<" + tag + ">" + content + "</" + tag + ">\n"
    ensures LineText(Markup(depth, tag)) == Tabs(depth) + "<" + tag + ">\n"
    ensures |Tabs(depth)| == depth && forall i :: 0 <= i < depth ==> Tabs(depth)[i] == '\t'
  {
    ElementJoins(Tabs(depth), tag, content);
    MarkupJoins(Tabs(depth), tag);
  }

  lemma ElementJoins(tabs: string, tag: string, content: string)
    ensures tabs + ("<" + tag + ">" + (content + ("</" + tag + ">\n"))) ==
      tabs + "<" + tag + ">" + content + "</" + tag + ">\n"
  {
  }

  lemma MarkupJoins(tabs: string, tag: string)
    ensures tabs + ("<" + tag + ">\n") == tabs + "<" + tag + ">\n"
  {
  }
}
