/** The mechanical renumbering of a migration whose number main took meanwhile
    (`renumber_migration`). */
module Renumbering {
  import opened Outcomes
  import opened Text
  import opened MigrationNumbers
  import opened Paths
  import Sets

  /** What a commit holds: the text of each file by its path. */
  type Tree = map<Path, string>

  const DIRECTORY := "migrations/"

  function PathOf(name: string): Path {
    DIRECTORY + name
  }

  /** The migration a path under the directory names, if it does. */
  function InDirectory(path: Path): Option<string> {
    if StartsWith(path, DIRECTORY) && NumberOf(path[|DIRECTORY|..]).Some?
    then Some(path[|DIRECTORY|..])
    else None
  }

  lemma InDirectoryOfPath(name: string)
    ensures InDirectory(PathOf(name)) == if NumberOf(name).Some? then Some(name) else None
    ensures forall path :: InDirectory(path) == Some(name) ==> path == PathOf(name)
  {
    assert PathOf(name)[|DIRECTORY|..] == name;
    forall path | InDirectory(path) == Some(name) ensures path == PathOf(name) {
      assert path == path[..|DIRECTORY|] + path[|DIRECTORY|..];
    }
  }

  // ----- What Git answers about two trees -----

  /** The paths `to` adds over `from`. */
  function AddedPaths(from: Tree, to: Tree): set<Path> {
    to.Keys - from.Keys
  }

  /** The paths that differ between two trees. */
  function ChangedPaths(from: Tree, to: Tree): set<Path> {
    set p | p in from.Keys + to.Keys && !(p in from && p in to && from[p] == to[p])
  }

  /** The names of the directory's entries, files and directories alike: what
      `git ls-tree` and the build's `read_dir` list. */
  function EntryNames(tree: Tree): set<string> {
    set p | p in tree && StartsWith(p, DIRECTORY) :: FirstPart(p[|DIRECTORY|..])
  }

  predicate HasDirectory(tree: Tree, directory: Path) {
    exists p :: p in tree && IsUnder(p, directory)
  }

  function PathsContaining(tree: Tree, needle: string, paths: set<Path>): set<Path> {
    set p | p in paths && p in tree && Contains(tree[p], needle)
  }

  // ----- The decision -----

  datatype Renumbering =
    | Unchanged
    /** The file moved to `to`, which put it `at`; the run's new tree. */
    | Renumbered(from: Path, to: Path, at: Path, tree: Tree)
    /** A number is taken but not moved mechanically. */
    | Blocked(taken: set<string>, next: nat)
    /** Git would not move the file. */
    | Refused(from: Path, to: Path)

  /** The migrations the run adds. */
  function AddedMigrations(main: Tree, tree: Tree): set<string> {
    set p | p in AddedPaths(main, tree) && InDirectory(p).Some? :: InDirectory(p).value
  }

  /** The numbers of the rebased tree's other migrations. */
  function KeptNumbers(main: Tree, tree: Tree): set<nat> {
    set name | name in EntryNames(tree) && NumberOf(name).Some? && name !in AddedMigrations(main, tree)
      :: NumberOf(name).value
  }

  function Taken(main: Tree, tree: Tree): set<string> {
    set name | name in AddedMigrations(main, tree) && NumberOf(name).Some? &&
      NumberOf(name).value in KeptNumbers(main, tree)
  }

  predicate IsHighest(number: nat, numbers: set<nat>) {
    if numbers == {} then number == 0
    else number in numbers && forall m :: m in numbers ==> m <= number
  }

  method Highest(numbers: set<nat>) returns (number: nat)
    ensures IsHighest(number, numbers)
  {
    number := 0;
    var rest := numbers;
    while rest != {}
      invariant rest <= numbers
      invariant number == 0 || number in numbers
      invariant forall m :: m in numbers && m !in rest ==> m <= number
      invariant rest == numbers ==> number == 0
      invariant rest != numbers ==> number in numbers
      decreases rest
    {
      ghost var some := Sets.Element(rest);
      var m :| m in rest;
      rest := rest - {m};
      if m > number {
        number := m;
      } else if number == 0 {
        assert m == 0;
      }
    }
  }

  /** The run's other changes that mention the number of its migration. */
  function Referring(main: Tree, tree: Tree, name: string): set<Path>
    requires NumberOf(name).Some?
  {
    PathsContaining(tree, Digits(NumberOf(name).value), ChangedPaths(main, tree) - {PathOf(name)})
  }

  function Moved(tree: Tree, from: Path, to: Path): Tree
    requires from in tree
  {
    (tree - {from})[to := tree[from]]
  }

  lemma AddedAreMigrations(main: Tree, tree: Tree)
    ensures forall name :: name in AddedMigrations(main, tree) <==>
      NumberOf(name).Some? && PathOf(name) in tree && PathOf(name) !in main
  {
    forall name
      ensures name in AddedMigrations(main, tree) <==>
        NumberOf(name).Some? && PathOf(name) in tree && PathOf(name) !in main
    {
      InDirectoryOfPath(name);
      if name in AddedMigrations(main, tree) {
        var p :| p in AddedPaths(main, tree) && InDirectory(p).Some? && InDirectory(p).value == name;
      }
      if NumberOf(name).Some? && PathOf(name) in tree && PathOf(name) !in main {
        assert PathOf(name) in AddedPaths(main, tree);
      }
    }
  }

  /** The run adds exactly one migration, and none of its other changes
      mentions the number. */
  ghost predicate Movable(main: Tree, tree: Tree, name: string) {
    AddedMigrations(main, tree) == {name} && NumberOf(name).Some? && Referring(main, tree, name) == {}
  }

  /** `r` is the move of `name` to the number after the highest kept one, or
      Git's refusal. */
  ghost predicate MovesUp(main: Tree, tree: Tree, name: string, r: Renumbering) {
    && IsMigration(name) && PathOf(name) in tree
    && MovesPast(KeptNumbers(main, tree), tree, name, r)
  }

  ghost predicate MovesPast(kept: set<nat>, tree: Tree, name: string, r: Renumbering)
    requires IsMigration(name) && PathOf(name) in tree
  {
    exists highest: nat :: IsHighest(highest, kept) && IsMoveTo(tree, name, highest + 1, r)
  }

  /** Where `git mv` puts `from`: into `to` when that is a directory. Nothing
      is moved onto a path that exists or into a directory that does not. */
  function MovedAt(tree: Tree, from: Path, to: Path): Option<Path> {
    var at := if HasDirectory(tree, to) then to + "/" + BaseName(from) else to;
    if at in tree || HasDirectory(tree, at) || !HasDirectory(tree, Parent(to)) then None else Some(at)
  }

  /** The rename to `number`. */
  function MoveTo(tree: Tree, name: string, number: nat): Renumbering
    requires IsMigration(name) && PathOf(name) in tree
  {
    var from, to := PathOf(name), PathOf(MigrationNumbers.Renumbered(name, number));
    match MovedAt(tree, from, to)
    case None => Refused(from, to)
    case Some(at) => Renumbered(from, to, at, Moved(tree, from, at))
  }

  ghost predicate IsMoveTo(tree: Tree, name: string, number: nat, r: Renumbering)
    requires IsMigration(name) && PathOf(name) in tree
  {
    r == MoveTo(tree, name, number)
  }

  method Move(main: Tree, tree: Tree, name: string) returns (r: Renumbering)
    requires name in AddedMigrations(main, tree)
    ensures r.Renumbered? || r.Refused?
    ensures MovesUp(main, tree, name, r)
  {
    AddedAreMigrations(main, tree);
    var highest := Highest(KeptNumbers(main, tree));
    r := MoveTo(tree, name, highest + 1);
  }

  /** What becomes of a rebased run's migrations: nothing while none of them
      has a number another file has; a move when the run adds exactly one and
      its other changes do not mention its number; a session's otherwise. */
  ghost predicate Renumbers(main: Tree, tree: Tree, r: Renumbering) {
    && (r.Unchanged? <==> Taken(main, tree) == {})
    && (r.Renumbered? || r.Refused? <==> (Taken(main, tree) != {} && exists name :: Movable(main, tree, name)))
    && (r.Renumbered? || r.Refused? ==> exists name :: Movable(main, tree, name) && MovesUp(main, tree, name, r))
    && (r.Blocked? ==> r.taken == Taken(main, tree) && r.next > 0 && IsHighest(r.next - 1, KeptNumbers(main, tree)))
  }

  /** Judged on the rebased tree: nothing is done while none of the run's
      migrations has a number another file has; a collision is moved only for
      a run that adds exactly one migration, whose number its other changes
      do not mention. */
  method RenumberMigration(main: Tree, tree: Tree) returns (r: Renumbering)
    ensures Renumbers(main, tree, r)
  {
    var added := AddedMigrations(main, tree);
    AddedAreMigrations(main, tree);
    var taken := Taken(main, tree);
    if taken == {} {
      return Unchanged;
    }
    ghost var t := Sets.Element(taken);
    assert t in added;
    var highest := Highest(KeptNumbers(main, tree));
    if |added| > 1 {
      assert forall name: string :: |{name}| == 1;
      return Blocked(taken, highest + 1);
    }
    var name :| name in added;
    OnlyElement(added, name);
    if Referring(main, tree, name) != {} {
      assert forall other :: added == {other} ==> name in {other};
      return Blocked(taken, highest + 1);
    }
    r := Move(main, tree, name);
    assert Movable(main, tree, name);
  }

  lemma OnlyElement<T>(s: set<T>, x: T)
    requires x in s && |s| <= 1
    ensures s == {x}
  {
    if y :| y in s && y != x {
      Sets.SubsetSize({x, y}, s);
    }
  }
}
