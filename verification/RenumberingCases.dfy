/** Directories where renumbering does not restore the numbering: one whose
    next number no longer fits four digits, and one where the file lies further
    down and Git refuses the move. Each is a pair of trees on which the code
    does what the general lemmas say. */
module RenumberingCases {
  import opened Outcomes
  import opened Text
  import opened MigrationNumbers
  import opened Paths
  import opened Renumbering
  import opened RenumberingRestores
  import Sets

  const FIRST := "0001_a.sql"
  const ADDED := "0001_b.sql"

  function FileName(i: nat): string {
    MigrationNumbers.Renumbered(FIRST, i)
  }

  function Kept(n: nat): set<string> {
    set i | 1 <= i <= n :: FileName(i)
  }

  /** Main with migrations 1 to `n`. */
  function MainTree(n: nat): Tree {
    map i | 1 <= i <= n :: PathOf(FileName(i)) := ""
  }

  /** The rebased run, which adds one migration. */
  function RunTree(main: Tree, name: string): Tree {
    main[PathOf(name) := ""]
  }

  lemma FileNameIs(i: nat)
    requires 1 <= i <= 9999
    ensures NumberOf(FileName(i)) == Some(i) && '/' !in FileName(i) && EndsWith(FileName(i), SQL)
    ensures FileName(i) != ADDED
  {
    FirstIs();
    RenumberedHasNumber(FIRST, i);
    SlashSurvives(FIRST, i);
    FileNameDiffers(i);
  }

  lemma FirstIs()
    ensures IsMigration(FIRST) && '/' !in FIRST
  {
    FirstStartsWithDigits();
    assert FIRST[5..] == "a.sql";
  }

  lemma FirstStartsWithDigits()
    ensures FIRST[..4] == "0001" && FIRST[4] == '_'
  {
  }

  lemma FileNameDiffers(i: nat)
    requires i <= 9999
    ensures FileName(i) != ADDED
  {
    FourDigits();
    PaddedFits(i, 4);
    assert FIRST[4..] == "_a.sql";
    assert FileName(i)[5] == FIRST[4..][1];
  }

  lemma ZeroesBefore(d: nat)
    requires d < 10
    ensures Digits(d) == "000" + [DigitOf(d)]
  {
    assert Padded(0, 1) == "0";
    assert Padded(0, 2) == Padded(0, 1) + "0";
    assert Padded(0, 3) == Padded(0, 2) + "0";
  }

  lemma AddedIsFirst()
    ensures IsMigration(ADDED) && NumberOf(ADDED) == Some(1) && '/' !in ADDED
  {
    AddedIsMigration();
    OneIsWritten();
  }

  lemma AddedIsMigration()
    ensures IsMigration(ADDED) && '/' !in ADDED && ADDED[..4] == "0001"
  {
    assert ADDED[5..] == "b.sql";
  }

  lemma OneIsWritten()
    ensures Digits(1) == "0001" && Number("0001") == 1
  {
    ZeroesBefore(1);
    assert "000" + [DigitOf(1)] == "0001";
    NumberOfPadded(1, 4);
  }

  lemma PathIsEntry(name: string)
    requires '/' !in name
    ensures FirstPart(PathOf(name)[|DIRECTORY|..]) == name && StartsWith(PathOf(name), DIRECTORY)
  {
    assert PathOf(name)[|DIRECTORY|..] == name;
    FirstPartSplits(name);
  }

  /** The entries of a tree whose files all lie directly in the directory. */
  lemma FlatEntries(tree: Tree, names: set<string>)
    requires forall s :: s in names ==> '/' !in s
    requires forall p :: p in tree <==> exists s :: s in names && p == PathOf(s)
    ensures EntryNames(tree) == names && IsTree(tree)
  {
    forall s ensures s in EntryNames(tree) <==> s in names {
      if s in names {
        PathIsEntry(s);
        assert PathOf(s) in tree;
      }
      if s in EntryNames(tree) {
        var p :| p in tree && StartsWith(p, DIRECTORY) && FirstPart(p[|DIRECTORY|..]) == s;
        var t :| t in names && p == PathOf(t);
        PathIsEntry(t);
      }
    }
    forall p, q | p in tree && q in tree ensures !IsUnder(q, p) {
      var s :| s in names && p == PathOf(s);
      var t :| t in names && q == PathOf(t);
      DirectIsBelowNothing(t, s);
    }
  }

  lemma KeptIs(n: nat)
    requires n <= 9999
    ensures ADDED !in Kept(n) && forall s :: s in Kept(n) ==> '/' !in s
    ensures NumberedSet(Kept(n), n)
    ensures forall p :: p in MainTree(n) <==> exists s :: s in Kept(n) && p == PathOf(s)
  {
    forall i: nat | 1 <= i <= n
      ensures UsesNumber(FileName(i), i) && FileName(i) in Kept(n) && '/' !in FileName(i) && FileName(i) != ADDED
    {
      FileNameIs(i);
    }
    forall m: nat | 1 <= m <= n ensures HasNumber(Kept(n), m) {
      assert UsesNumber(FileName(m), m);
    }
    forall p ensures p in MainTree(n) <==> exists s :: s in Kept(n) && p == PathOf(s) {
      if p in MainTree(n) {
        var i: nat :| 1 <= i <= n && p == PathOf(FileName(i));
        assert FileName(i) in Kept(n);
      }
    }
  }

  lemma AddedIs(main: Tree, name: string)
    requires NumberOf(name).Some? && PathOf(name) !in main
    ensures AddedMigrations(main, RunTree(main, name)) == {name}
    ensures ChangedPaths(main, RunTree(main, name)) == {PathOf(name)}
  {
    InDirectoryOfPath(name);
    assert AddedPaths(main, RunTree(main, name)) == {PathOf(name)};
  }

  lemma {:induction false} HighestExists(numbers: set<nat>) returns (number: nat)
    ensures IsHighest(number, numbers)
  {
    number := 0;
    if numbers != {} {
      var m := Sets.Element(numbers);
      var rest := HighestExists(numbers - {m});
      number := if numbers == {m} || rest < m then m else rest;
      assert numbers == {m} + (numbers - {m});
    }
  }

  lemma CollisionIsMoved(main: Tree, tree: Tree, name: string, n: nat)
    requires Collides(main, tree, name, n)
    ensures MovesUp(main, tree, name, MoveTo(tree, name, n + 1))
  {
    var highest := HighestExists(KeptNumbers(main, tree));
    NextIsOnePast(main, tree, name, n);
    PastIsNext(KeptNumbers(main, tree), tree, name, n);
  }

  lemma PastIsNext(kept: set<nat>, tree: Tree, name: string, n: nat)
    requires IsMigration(name) && PathOf(name) in tree && IsHighest(n, kept)
    ensures MovesPast(kept, tree, name, MoveTo(tree, name, n + 1))
  {
    assert IsMoveTo(tree, name, n + 1, MoveTo(tree, name, n + 1));
  }

  /** A run that adds `0001_b.sql` to a main numbered 1 to `n`. */
  lemma CollisionHappens(n: nat)
    requires 1 <= n <= 9999
    ensures Collides(MainTree(n), RunTree(MainTree(n), ADDED), ADDED, n)
  {
    var main := MainTree(n);
    var tree := RunTree(main, ADDED);
    KeptIs(n);
    AddedIsFirst();
    forall s | s in Kept(n) ensures PathOf(s) != PathOf(ADDED) {
      if PathOf(s) == PathOf(ADDED) {
        SamePathSameName(s, ADDED);
      }
    }
    AddedIs(main, ADDED);
    FlatEntries(tree, Kept(n) + {ADDED});
    assert Kept(n) + {ADDED} - {ADDED} == Kept(n);
  }

  /** Past 9999 the moved file is not a migration any more: the numbering is
      not restored. */
  lemma TenThousandthIsNoMigration()
    ensures var main := MainTree(9999);
      var tree := RunTree(main, ADDED);
      Collides(main, tree, ADDED, 9999) &&
      (var r := MoveTo(tree, ADDED, 10000);
       MovesUp(main, tree, ADDED, r) && r.Renumbered? && !NumberedSet(EntryNames(r.tree), 10000))
  {
    CollisionHappens(9999);
    AddedIsFirst();
    PastTheDigits(MainTree(9999), RunTree(MainTree(9999), ADDED), ADDED);
  }

  lemma PastTheDigits(main: Tree, tree: Tree, name: string)
    requires Collides(main, tree, name, 9999) && '/' !in name
    ensures var r := MoveTo(tree, name, 10000);
      MovesUp(main, tree, name, r) && r.Renumbered? && !NumberedSet(EntryNames(r.tree), 10000)
  {
    CollisionIsMoved(main, tree, name, 9999);
    RenumberingRestoresNumbers(main, tree, name, 9999);
  }

  // ----- A migration further down -----

  const NESTED := "0001_b/c.sql"

  lemma NestedIs()
    ensures IsMigration(NESTED) && NumberOf(NESTED) == Some(1)
  {
    NestedIsMigration();
    OneIsWritten();
  }

  lemma NestedIsMigration()
    ensures IsMigration(NESTED) && NESTED[..4] == "0001"
  {
    assert NESTED[5..] == "b/c.sql";
  }

  lemma NestedIsBelow()
    ensures '/' in NESTED && FirstPart(NESTED) == "0001_b"
  {
    assert NESTED[6] == '/';
    assert NESTED == "0001_b" + "/" + "c.sql";
    FirstPartBelow("0001_b", "c.sql");
  }

  lemma NestedGoesTo()
    ensures IsMigration(NESTED) && Parent(PathOf(MigrationNumbers.Renumbered(NESTED, 2))) == PathOf("0002_b")
  {
    NestedIs();
    assert NESTED[4..] == "_b/c.sql";
    ZeroesBefore(2);
    assert "000" + [DigitOf(2)] == "0002";
    assert "0002" + "_b/c.sql" == "0002_b" + "/" + "c.sql";
    ParentInDirectory("0002_b", "c.sql");
  }

  lemma ParentInDirectory(s: string, name: string)
    requires '/' !in name
    ensures Parent(PathOf(s + "/" + name)) == PathOf(s)
  {
    assert PathOf(s + "/" + name) == PathOf(s) + "/" + name;
    ParentOf(PathOf(s), name);
  }

  lemma FirstOnly()
    ensures FileName(1) == FIRST && MainTree(1).Keys == {PathOf(FIRST)}
  {
    OneIsWritten();
    assert FIRST == "0001" + FIRST[4..];
    var keys := MainTree(1).Keys;
    assert forall p :: p in keys <==> p == PathOf(FileName(1));
  }

  lemma NestedEntries()
    ensures var tree := RunTree(MainTree(1), NESTED);
      && tree.Keys == {PathOf(FIRST), PathOf(NESTED)} && EntryNames(tree) == {FIRST, "0001_b"}
  {
    var tree := RunTree(MainTree(1), NESTED);
    FirstOnly();
    FirstIs();
    NestedIsBelow();
    EntriesOfTwo(tree, FIRST, NESTED);
  }

  lemma EntriesOfTwo(tree: Tree, s: string, t: string)
    requires tree.Keys == {PathOf(s), PathOf(t)}
    ensures EntryNames(tree) == {FirstPart(s), FirstPart(t)}
    ensures '/' !in s ==> FirstPart(s) == s
  {
    FirstPartSplits(s);
    PathIsBelow(s);
    PathIsBelow(t);
    assert PathOf(s) in tree.Keys && PathOf(t) in tree.Keys;
    assert forall p :: p in tree <==> p == PathOf(s) || p == PathOf(t);
  }

  lemma PathIsBelow(name: string)
    ensures StartsWith(PathOf(name), DIRECTORY) && PathOf(name)[|DIRECTORY|..] == name
  {
  }

  lemma NotBelow(rest: string, s: string, i: nat)
    requires i < |s| && i < |rest| && s[i] != rest[i]
    ensures !IsUnder(PathOf(rest), PathOf(s))
  {
    UnderEntry(s, rest);
    if |s| < |rest| {
      assert rest[..|s| + 1][i] == rest[i] && (s + "/")[i] == s[i];
    }
  }

  lemma NestedIsTree()
    ensures IsTree(RunTree(MainTree(1), NESTED))
  {
    NestedEntries();
    DirectIsBelowNothing(FIRST, FIRST);
    DirectIsBelowNothing(FIRST, NESTED);
    assert FIRST[5] == 'a' && NESTED[5] == 'b';
    NotBelow(NESTED, FIRST, 5);
    UnderEntry(NESTED, NESTED);
  }

  lemma NestedCollides()
    ensures Collides(MainTree(1), RunTree(MainTree(1), NESTED), NESTED, 1)
  {
    NestedIs();
    NestedIsTree();
    NestedIsAdded();
    NestedLeavesNumbered();
  }

  lemma NestedIsAdded()
    ensures AddedMigrations(MainTree(1), RunTree(MainTree(1), NESTED)) == {NESTED}
  {
    NestedIs();
    FirstOnly();
    if PathOf(NESTED) == PathOf(FIRST) {
      SamePathSameName(NESTED, FIRST);
    }
    AddedIs(MainTree(1), NESTED);
  }

  lemma NestedLeavesNumbered()
    ensures NumberedSet(EntryNames(RunTree(MainTree(1), NESTED)) - {NESTED}, 1)
  {
    NestedEntries();
    FirstIsNumbered();
    NotSql();
    OtherEntry({FIRST}, "0001_b", 1);
    NestedIsNoEntry();
  }

  lemma FirstIsNumbered()
    ensures NumberedSet({FIRST}, 1)
  {
    FirstOnly();
    KeptIs(1);
    assert Kept(1) == {FIRST};
  }

  lemma NestedIsNoEntry()
    ensures {FIRST, "0001_b"} - {NESTED} == {FIRST} + {"0001_b"}
  {
    assert |FIRST| == 10 && |NESTED| == 12 && |"0001_b"| == 6;
  }

  lemma NotSql()
    ensures !EndsWith("0001_b", SQL)
  {
    assert "0001_b"[2..][0] == '0';
  }

  /** A directory's name makes no difference to the numbering. */
  lemma OtherEntry(names: set<string>, other: string, k: nat)
    requires NumberedSet(names, k) && !EndsWith(other, SQL)
    ensures NumberedSet(names + {other}, k)
  {
    forall n | 1 <= n <= k ensures HasNumber(names + {other}, n) {
      HasNumberGrows(names, names + {other}, n);
    }
    forall n ensures NoTwoUse(names + {other}, n) {
      assert NoTwoUse(names, n);
    }
  }

  lemma NoSecondDirectory()
    ensures !HasDirectory(RunTree(MainTree(1), NESTED), PathOf("0002_b"))
  {
    NestedEntries();
    assert FIRST[3] == '1' && NESTED[3] == '1' && "0002_b"[3] == '2';
    NotBelow(FIRST, "0002_b", 3);
    NotBelow(NESTED, "0002_b", 3);
  }

  /** A run that adds `0001_b/c.sql` beside `0001_a.sql`: a collision whose
      migration Git refuses to move, as there is no directory `0002_b`. */
  lemma NestedMoveFails()
    ensures var main := MainTree(1);
      var tree := RunTree(main, NESTED);
      Collides(main, tree, NESTED, 1) &&
      (var r := MoveTo(tree, NESTED, 2); MovesUp(main, tree, NESTED, r) && r.Refused?)
  {
    var main := MainTree(1);
    var tree := RunTree(main, NESTED);
    NestedCollides();
    CollisionIsMoved(main, tree, NESTED, 1);
    NestedIsBelow();
    NestedIsRefused(main, tree, NESTED, 1);
    NestedGoesTo();
    NoSecondDirectory();
  }
}
