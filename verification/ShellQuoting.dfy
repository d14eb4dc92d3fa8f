/** Quoting arguments for a shell, and how a POSIX shell takes the text apart
    again. */
module ShellQuoting {
  import opened Outcomes
  import opened Text

  // ----- Quoting -----

  const APOSTROPHE := "'\"'\"'"

  function ShellQuote(arg: string): string {
    "'" + Replaced(arg, '\'', APOSTROPHE) + "'"
  }

  /** Each argument quoted, with blanks between them. */
  function ShellJoin(args: seq<string>): string {
    if args == [] then []
    else if |args| == 1 then ShellQuote(args[0])
    else ShellQuote(args[0]) + " " + ShellJoin(args[1..])
  }

  // ----- The shell's side -----

  /** Where in the text a shell is: between words, in a word outside quotes, in
      single quotes (section 2.2.2 of the POSIX.1-2017 Shell Command Language)
      or in double quotes (section 2.2.3). */
  datatype Mode = Between | Bare | Single | Double

  /** Outside quotes these are not themselves (section 2.2). */
  predicate IsSpecial(c: char) {
    c in {'|', '&', ';', '<', '>', '(', ')', '$', '`', '\\', '\n', '*', '?', '[', '#', '~', '=', '%'}
  }

  /** In double quotes these are not themselves (section 2.2.3). */
  predicate IsExpanded(c: char) {
    c in {'$', '`', '\\'}
  }

  /** The words of a command of words, quotes and blanks; none where the shell
      would do anything else with a character, or a quote is left open. */
  function Scan(text: string, mode: Mode, word: string, words: seq<string>): Option<seq<string>> {
    if text == [] then
      match mode
      case Between => Some(words)
      case Bare => Some(words + [word])
      case _ => None
    else
      var c, rest := text[0], text[1..];
      match mode
      case Single =>
        if c == '\'' then Scan(rest, Bare, word, words) else Scan(rest, Single, word + [c], words)
      case Double =>
        if c == '"' then Scan(rest, Bare, word, words)
        else if IsExpanded(c) then None
        else Scan(rest, Double, word + [c], words)
      case _ =>
        if c in {' ', '\t'} then Scan(rest, Between, "", if mode.Bare? then words + [word] else words)
        else if c == '\'' then Scan(rest, Single, word, words)
        else if c == '"' then Scan(rest, Double, word, words)
        else if IsSpecial(c) then None
        else Scan(rest, Bare, word + [c], words)
  }

  function Words(text: string): Option<seq<string>> {
    Scan(text, Between, "", [])
  }

  // ----- The round trip -----

  /** An apostrophe leaves the single quotes, stands in double ones and goes
      back in. */
  lemma ScanApostrophe(rest: string, word: string, words: seq<string>)
    ensures Scan(APOSTROPHE + rest, Single, word, words) == Scan(rest, Single, word + "'", words)
  {
    var text := APOSTROPHE + rest;
    assert text[1..][0] == '"' && text[2..][0] == '\'' && text[3..][0] == '"' && text[4..][0] == '\'';
    assert text[1..][1..] == text[2..] && text[2..][1..] == text[3..] && text[3..][1..] == text[4..];
    assert text[4..][1..] == rest;
    assert Scan(text, Single, word, words) == Scan(text[1..], Bare, word, words);
    assert Scan(text[1..], Bare, word, words) == Scan(text[2..], Double, word, words);
    assert Scan(text[2..], Double, word, words) == Scan(text[3..], Double, word + ['\''], words);
    assert Scan(text[3..], Double, word + "'", words) == Scan(text[4..], Bare, word + "'", words);
  }

  lemma {:induction false} ScanQuoted(arg: string, rest: string, word: string, words: seq<string>)
    ensures Scan(Replaced(arg, '\'', APOSTROPHE) + "'" + rest, Single, word, words) ==
      Scan(rest, Bare, word + arg, words)
    decreases |arg|
  {
    var text := Replaced(arg, '\'', APOSTROPHE) + "'" + rest;
    if arg == [] {
      assert text[1..] == rest && word + arg == word;
    } else {
      var c, more := arg[0], Replaced(arg[1..], '\'', APOSTROPHE) + "'" + rest;
      ScanQuoted(arg[1..], rest, word + [c], words);
      assert word + [c] + arg[1..] == word + arg;
      if c == '\'' {
        assert text == APOSTROPHE + more;
        ScanApostrophe(more, word, words);
      } else {
        assert text == [c] + more;
        assert text[1..] == more;
      }
    }
  }

  /** A quoted argument adds itself to the word it stands in. */
  lemma ScanShellQuote(arg: string, rest: string, mode: Mode, word: string, words: seq<string>)
    requires mode.Between? || mode.Bare?
    ensures Scan(ShellQuote(arg) + rest, mode, word, words) == Scan(rest, Bare, word + arg, words)
  {
    var text := ShellQuote(arg) + rest;
    assert text[1..] == Replaced(arg, '\'', APOSTROPHE) + "'" + rest;
    ScanQuoted(arg, rest, word, words);
  }

  lemma {:induction false} ScanShellJoin(args: seq<string>, words: seq<string>)
    ensures Scan(ShellJoin(args), Between, "", words) == Some(words + args)
    decreases |args|
  {
    if args == [] {
      assert words + args == words;
    } else if |args| == 1 {
      ScanLast(args[0], words);
      assert args == [args[0]];
    } else {
      ScanWord(args[0], ShellJoin(args[1..]), words);
      ScanShellJoin(args[1..], words + [args[0]]);
      assert words + [args[0]] + args[1..] == words + args;
    }
  }

  lemma ScanLast(arg: string, words: seq<string>)
    ensures Scan(ShellQuote(arg), Between, "", words) == Some(words + [arg])
  {
    assert ShellQuote(arg) + "" == ShellQuote(arg) && "" + arg == arg;
    ScanShellQuote(arg, "", Between, "", words);
  }

  lemma ScanWord(arg: string, after: string, words: seq<string>)
    ensures Scan(ShellQuote(arg) + " " + after, Between, "", words) == Scan(after, Between, "", words + [arg])
  {
    var rest := " " + after;
    assert ShellQuote(arg) + " " + after == ShellQuote(arg) + rest && "" + arg == arg;
    ScanShellQuote(arg, rest, Between, "", words);
    assert rest[1..] == after;
  }

  /** A shell takes the joined text apart into exactly the arguments. */
  lemma WordsOfShellJoin(args: seq<string>)
    ensures Words(ShellJoin(args)) == Some(args)
  {
    ScanShellJoin(args, []);
    assert [] + args == args;
  }

  /** So no two argument lists are joined to the same text. */
  lemma ShellJoinIsInjective(a: seq<string>, b: seq<string>)
    ensures ShellJoin(a) == ShellJoin(b) <==> a == b
  {
    WordsOfShellJoin(a);
    WordsOfShellJoin(b);
  }
}
