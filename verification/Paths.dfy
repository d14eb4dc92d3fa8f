/** Paths with `/` between their parts. */
module Paths {
  import opened Text

  type Path = string

  predicate IsUnder(path: Path, directory: Path) {
    StartsWith(path, directory + "/")
  }

  /** What comes before the first `/`. */
  function FirstPart(path: Path): (r: Path)
    ensures '/' !in r
  {
    if path == [] || path[0] == '/' then [] else [path[0]] + FirstPart(path[1..])
  }

  /** What comes before the last `/`; nothing without one. */
  function Parent(path: Path): Path {
    if '/' !in path then []
    else if path[|path| - 1] == '/' then path[..|path| - 1]
    else Parent(path[..|path| - 1])
  }

  /** What comes after the last `/`. */
  function BaseName(path: Path): (r: Path)
    ensures '/' !in r
  {
    if path == [] || path[|path| - 1] == '/' then []
    else BaseName(path[..|path| - 1]) + [path[|path| - 1]]
  }

  lemma {:induction false} ParentAndBaseName(path: Path)
    requires '/' in path
    ensures path == Parent(path) + "/" + BaseName(path)
  {
    var init, last := path[..|path| - 1], path[|path| - 1];
    assert path == init + [last];
    if last != '/' {
      ParentAndBaseName(init);
    }
  }

  lemma {:induction false} ParentOf(directory: Path, name: Path)
    requires '/' !in name
    ensures Parent(directory + "/" + name) == directory
    decreases |name|
  {
    var path := directory + "/" + name;
    assert path[|directory|] == '/';
    if name == [] {
      assert path[..|path| - 1] == directory;
    } else {
      var init := name[..|name| - 1];
      assert path[..|path| - 1] == directory + "/" + init;
      assert path[|path| - 1] == name[|name| - 1];
      ParentOf(directory, init);
    }
  }

  /** A path is its first part, or goes on below it. */
  lemma {:induction false} FirstPartSplits(path: Path)
    ensures path == FirstPart(path) || IsUnder(path, FirstPart(path))
    ensures '/' !in path ==> FirstPart(path) == path
  {
    if path != [] && path[0] != '/' {
      var rest := path[1..];
      FirstPartSplits(rest);
      assert path == [path[0]] + rest;
      if IsUnder(rest, FirstPart(rest)) {
        assert path[..|FirstPart(path)| + 1] == [path[0]] + rest[..|FirstPart(rest)| + 1];
      }
    }
  }

  /** Only the text up to the first `/` decides the first part. */
  lemma {:induction false} FirstPartOf(a: Path, b: Path)
    requires '/' in a
    ensures FirstPart(a + b) == FirstPart(a)
  {
    if a[0] != '/' {
      assert (a + b)[1..] == a[1..] + b;
      FirstPartOf(a[1..], b);
    }
  }

  lemma {:induction false} FirstPartBelow(s: Path, more: Path)
    requires '/' !in s
    ensures FirstPart(s + "/" + more) == s
  {
    var path := s + "/" + more;
    if s != [] {
      assert path[1..] == s[1..] + "/" + more;
      FirstPartBelow(s[1..], more);
    }
  }
}
