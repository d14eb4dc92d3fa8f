/** What `renumber_migration` decides, told by the paths and texts of the two
    trees alone. */
module RenumberingMeaning {
  import opened Outcomes
  import opened Text
  import opened MigrationNumbers
  import opened Paths
  import opened Renumbering
  import opened RenumberingRestores

  /** The run adds the migration `name`. */
  ghost predicate Adds(main: Tree, tree: Tree, name: string) {
    NumberOf(name).Some? && "migrations/" + name in tree && "migrations/" + name !in main
  }

  /** The directory has an entry `name`, a file or a directory, with a number,
      and it is not one the run adds. */
  ghost predicate Keeps(main: Tree, tree: Tree, name: string) {
    && NumberOf(name).Some? && '/' !in name && !Adds(main, tree, name)
    && ("migrations/" + name in tree || exists p :: p in tree && StartsWith(p, "migrations/" + name + "/"))
  }

  /** Another migration of the tree has the number of the one the run adds. */
  ghost predicate Clashes(main: Tree, tree: Tree, name: string) {
    Adds(main, tree, name) && exists other :: Keeps(main, tree, other) && NumberOf(other) == NumberOf(name)
  }

  /** `next` is one past the highest number the tree keeps, 1 without any. */
  ghost predicate IsNext(main: Tree, tree: Tree, next: nat) {
    && next >= 1
    && (forall other :: Keeps(main, tree, other) ==> NumberOf(other).value < next)
    && (next > 1 ==> exists other :: Keeps(main, tree, other) && NumberOf(other).value == next - 1)
  }

  /** `name` is the one migration the run adds, and no other file that differs
      from main's mentions its number. */
  ghost predicate IsAlone(main: Tree, tree: Tree, name: string) {
    && Adds(main, tree, name) && (forall other :: Adds(main, tree, other) ==> other == name)
    && forall p :: p in tree && p != "migrations/" + name && !(p in main && main[p] == tree[p]) ==>
         !Contains(tree[p], Padded(NumberOf(name).value, 4))
  }

  lemma AddedIs(main: Tree, tree: Tree, name: string)
    ensures name in AddedMigrations(main, tree) <==> Adds(main, tree, name)
  {
    AddedAreMigrations(main, tree);
  }

  lemma KeptIs(main: Tree, tree: Tree, n: nat)
    ensures n in KeptNumbers(main, tree) <==> exists other :: Keeps(main, tree, other) && NumberOf(other).value == n
  {
    forall name
      ensures name in EntryNames(tree) && NumberOf(name).Some? && name !in AddedMigrations(main, tree) <==>
        Keeps(main, tree, name)
    {
      AddedIs(main, tree, name);
      EntryIs(tree, name);
      assert PathOf(name) == "migrations/" + name;
    }
  }

  lemma TakenIs(main: Tree, tree: Tree, name: string)
    ensures name in Taken(main, tree) <==> Clashes(main, tree, name)
  {
    AddedIs(main, tree, name);
    if NumberOf(name).Some? {
      KeptIs(main, tree, NumberOf(name).value);
    }
  }

  lemma NextIs(main: Tree, tree: Tree, highest: nat)
    requires IsHighest(highest, KeptNumbers(main, tree))
    ensures IsNext(main, tree, highest + 1)
  {
    var kept := KeptNumbers(main, tree);
    KeptIs(main, tree, highest);
    forall other | Keeps(main, tree, other) ensures NumberOf(other).value <= highest {
      KeptIs(main, tree, NumberOf(other).value);
    }
    if highest > 0 {
      assert highest in kept;
    }
  }

  lemma MovableIs(main: Tree, tree: Tree, name: string)
    ensures Movable(main, tree, name) <==> IsAlone(main, tree, name)
  {
    forall other ensures other in AddedMigrations(main, tree) <==> Adds(main, tree, other) {
      AddedIs(main, tree, other);
    }
    if Movable(main, tree, name) {
      assert name in {name};
      forall other | Adds(main, tree, other) ensures other == name {
        assert other in {name};
      }
    }
    if Adds(main, tree, name) && forall other :: Adds(main, tree, other) ==> other == name {
      assert AddedMigrations(main, tree) == {name};
    }
    if NumberOf(name).Some? {
      ReferringIs(main, tree, name);
    }
  }

  lemma ReferringIs(main: Tree, tree: Tree, name: string)
    requires NumberOf(name).Some?
    ensures Referring(main, tree, name) == {} <==>
      forall p :: p in tree && p != "migrations/" + name && !(p in main && main[p] == tree[p]) ==>
        !Contains(tree[p], Padded(NumberOf(name).value, 4))
  {
    assert PathOf(name) == "migrations/" + name;
    forall p
      ensures p in Referring(main, tree, name) <==>
        p in tree && p != "migrations/" + name && !(p in main && main[p] == tree[p]) &&
        Contains(tree[p], Padded(NumberOf(name).value, 4))
    {
    }
  }

  /** Nothing is done exactly when no migration the run adds clashes with
      another. */
  lemma UnchangedExactly(main: Tree, tree: Tree, r: Renumbering)
    requires Renumbers(main, tree, r)
    ensures r.Unchanged? <==> forall name :: !Clashes(main, tree, name)
  {
    forall name ensures name in Taken(main, tree) <==> Clashes(main, tree, name) {
      TakenIs(main, tree, name);
    }
    if Taken(main, tree) != {} {
      var name :| name in Taken(main, tree);
      assert Clashes(main, tree, name);
    }
  }

  /** A clash is a session's exactly when the run adds more than one migration
      or another of its changes mentions the number; it is told which clash and
      which number is free. */
  lemma BlockedExactly(main: Tree, tree: Tree, r: Renumbering)
    requires Renumbers(main, tree, r)
    ensures r.Blocked? <==>
      (exists name :: Clashes(main, tree, name)) && forall name :: !IsAlone(main, tree, name)
    ensures r.Blocked? ==> (forall name :: name in r.taken <==> Clashes(main, tree, name)) && IsNext(main, tree, r.next)
  {
    UnchangedExactly(main, tree, r);
    forall name ensures Movable(main, tree, name) <==> IsAlone(main, tree, name) {
      MovableIs(main, tree, name);
    }
    if r.Blocked? {
      forall name ensures name in Taken(main, tree) <==> Clashes(main, tree, name) {
        TakenIs(main, tree, name);
      }
      NextIs(main, tree, r.next - 1);
    }
  }

  /** Otherwise the one migration is moved, or refused by Git, to the number
      after the highest kept, under the rest of its name. */
  lemma MovesTo(main: Tree, tree: Tree, r: Renumbering) returns (name: string, next: nat)
    requires Renumbers(main, tree, r) && (r.Renumbered? || r.Refused?)
    ensures IsAlone(main, tree, name) && |name| >= 4 && IsNext(main, tree, next)
    ensures IsMoved(r, name, next) && Clashes(main, tree, name)
  {
    name := MovedName(main, tree, r);
    next := NextOf(KeptNumbers(main, tree), tree, name, r);
    FollowsHighest(main, tree, next);
  }

  lemma MovedName(main: Tree, tree: Tree, r: Renumbering) returns (name: string)
    requires Renumbers(main, tree, r) && (r.Renumbered? || r.Refused?)
    ensures IsAlone(main, tree, name) && Clashes(main, tree, name)
    ensures IsMigration(name) && PathOf(name) in tree && MovesPast(KeptNumbers(main, tree), tree, name, r)
  {
    name :| Movable(main, tree, name) && MovesUp(main, tree, name, r);
    MovableIs(main, tree, name);
    AloneClashes(main, tree, name);
  }

  /** `next` comes after the highest of `kept`. */
  ghost predicate Follows(next: nat, kept: set<nat>) {
    next >= 1 && IsHighest(next - 1, kept)
  }

  lemma FollowsHighest(main: Tree, tree: Tree, next: nat)
    requires Follows(next, KeptNumbers(main, tree))
    ensures IsNext(main, tree, next)
  {
    NextIs(main, tree, next - 1);
  }

  lemma NextOf(kept: set<nat>, tree: Tree, name: string, r: Renumbering) returns (next: nat)
    requires IsMigration(name) && PathOf(name) in tree && MovesPast(kept, tree, name, r)
    ensures Follows(next, kept)
    ensures (r.Renumbered? || r.Refused?) && |name| >= 4 && IsMoved(r, name, next)
  {
    var highest: nat :| IsHighest(highest, kept) && IsMoveTo(tree, name, highest + 1, r);
    next := highest + 1;
    MoveIs(tree, name, next, r);
  }

  /** The file `name` is moved, or to be moved, to the same name under `next`. */
  predicate IsMoved(r: Renumbering, name: string, next: nat)
    requires (r.Renumbered? || r.Refused?) && |name| >= 4
  {
    r.from == "migrations/" + name && r.to == "migrations/" + (Padded(next, 4) + name[4..])
  }

  lemma MoveIs(tree: Tree, name: string, next: nat, r: Renumbering)
    requires IsMigration(name) && PathOf(name) in tree && IsMoveTo(tree, name, next, r)
    ensures (r.Renumbered? || r.Refused?) && |name| >= 4 && IsMoved(r, name, next)
  {
  }

  lemma AloneClashes(main: Tree, tree: Tree, name: string)
    requires Taken(main, tree) != {} && IsAlone(main, tree, name)
    ensures Clashes(main, tree, name)
  {
    var taken :| taken in Taken(main, tree);
    TakenIs(main, tree, taken);
  }
}
