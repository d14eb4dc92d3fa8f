/** What a mechanical renumbering leaves: the migrations numbered from 0001
    without a gap again, and nothing else touched. */
module RenumberingRestores {
  import opened Outcomes
  import opened Text
  import opened MigrationNumbers
  import opened MigrationOrder
  import opened Paths
  import opened Renumbering
  import Sets

  // ----- Numbered files as a set -----

  predicate UsesNumber(name: string, number: nat) {
    EndsWith(name, SQL) && NumberOf(name) == Some(number)
  }

  ghost predicate HasNumber(names: set<string>, number: nat) {
    exists s :: s in names && UsesNumber(s, number)
  }

  ghost predicate NoTwoUse(names: set<string>, number: nat) {
    forall s, t :: s in names && t in names && UsesNumber(s, number) && UsesNumber(t, number) ==> s == t
  }

  /** The `.sql` files among `names` are exactly one migration for each of 1
      to `k`. */
  ghost predicate NumberedSet(names: set<string>, k: nat) {
    && (forall s :: s in names && EndsWith(s, SQL) ==> NumberOf(s).Some? && 1 <= NumberOf(s).value <= k)
    && (forall n :: 1 <= n <= k ==> HasNumber(names, n))
    && (forall n :: NoTwoUse(names, n))
  }

  ghost predicate Lists(listing: seq<string>, names: set<string>) {
    && (forall s :: s in listing <==> s in names)
    && forall i, j :: 0 <= i < j < |listing| ==> listing[i] != listing[j]
  }

  lemma {:induction false} ParsedMembers(listing: seq<string>)
    ensures forall p :: p in Parsed(listing) <==> p.name in listing && UsesNumber(p.name, p.number)
    ensures forall s :: s in Misnamed(listing) <==> s in listing && EndsWith(s, SQL) && NumberOf(s).None?
  {
    if listing != [] {
      ParsedMembers(listing[1..]);
      assert forall s :: s in listing <==> s == listing[0] || s in listing[1..];
    }
  }

  /** How many files of a listing use a number. */
  lemma {:induction false} UsingInListing(listing: seq<string>, names: set<string>, n: nat)
    requires Lists(listing, names)
    ensures |Using(Parsed(listing), n)| >= 1 <==> HasNumber(names, n)
    ensures |Using(Parsed(listing), n)| <= 1 <==> NoTwoUse(names, n)
  {
    if listing != [] {
      var s, rest, others := listing[0], listing[1..], names - {listing[0]};
      assert forall t :: t in listing <==> t == s || t in rest;
      assert Lists(rest, others) by {
        forall t ensures t in rest <==> t in others {
        }
      }
      UsingInListing(rest, others, n);
      UsingFirst(listing, n);
      assert names == others + {s};
      WithOneName(others, s, n);
    }
  }

  lemma UsingFirst(listing: seq<string>, n: nat)
    requires listing != []
    ensures |Using(Parsed(listing), n)| ==
      |Using(Parsed(listing[1..]), n)| + (if UsesNumber(listing[0], n) then 1 else 0)
  {
    var s, rest := listing[0], listing[1..];
    if EndsWith(s, SQL) && NumberOf(s).Some? {
      assert Parsed(listing)[1..] == Parsed(rest);
    } else {
      assert Parsed(listing) == Parsed(rest);
    }
  }

  lemma WithOneName(others: set<string>, s: string, n: nat)
    requires s !in others
    ensures UsesNumber(s, n) ==> HasNumber(others + {s}, n)
    ensures UsesNumber(s, n) ==> (NoTwoUse(others + {s}, n) <==> !HasNumber(others, n))
    ensures !UsesNumber(s, n) ==> (HasNumber(others + {s}, n) <==> HasNumber(others, n))
    ensures !UsesNumber(s, n) ==> (NoTwoUse(others + {s}, n) <==> NoTwoUse(others, n))
  {
    assert s in others + {s};
    assert forall t :: t in others ==> t in others + {s};
  }

  /** Whatever order a directory is listed in, `ordered` judges the set of its
      files. */
  lemma ListingIsNumbered(listing: seq<string>, names: set<string>, k: nat)
    requires Lists(listing, names)
    ensures NumberedTo(listing, k) <==> NumberedSet(names, k)
  {
    ParsedMembers(listing);
    forall n
      ensures |Using(Parsed(listing), n)| >= 1 <==> HasNumber(names, n)
      ensures |Using(Parsed(listing), n)| <= 1 <==> NoTwoUse(names, n)
    {
      UsingInListing(listing, names, n);
    }
    if NumberedTo(listing, k) {
      forall s | s in names && EndsWith(s, SQL) ensures NumberOf(s).Some? && 1 <= NumberOf(s).value <= k {
        assert s in listing && s !in Misnamed(listing);
        assert Numbered(NumberOf(s).value, s) in Parsed(listing);
      }
      forall n ensures NoTwoUse(names, n) {
        UsingHasMember(Parsed(listing), n);
      }
    }
    if NumberedSet(names, k) {
      assert Misnamed(listing) != [] ==> Misnamed(listing)[0] in Misnamed(listing);
      forall p | p in Parsed(listing) ensures 1 <= p.number <= k {
        assert p.name in names;
      }
    }
  }

  // ----- The directory after a move -----

  /** No file of a Git tree is a directory too. */
  ghost predicate IsTree(tree: Tree) {
    forall p, q :: p in tree && q in tree ==> !IsUnder(q, p)
  }

  lemma UnderEntry(s: string, rest: string)
    ensures IsUnder(PathOf(rest), PathOf(s)) <==> IsUnder(rest, s)
  {
    var p := PathOf(rest);
    assert PathOf(s) + "/" == DIRECTORY + (s + "/");
    if |PathOf(s)| + 1 <= |p| {
      assert p[..|PathOf(s)| + 1] == DIRECTORY + rest[..|s| + 1];
      assert (DIRECTORY + rest[..|s| + 1])[|DIRECTORY|..] == rest[..|s| + 1];
      assert (DIRECTORY + (s + "/"))[|DIRECTORY|..] == s + "/";
    }
  }

  lemma FirstPartIs(rest: string, s: string)
    ensures FirstPart(rest) == s <==> '/' !in s && (rest == s || IsUnder(rest, s))
  {
    FirstPartSplits(rest);
    if '/' !in s && IsUnder(rest, s) {
      assert rest == s + "/" + rest[|s| + 1..];
      FirstPartBelow(s, rest[|s| + 1..]);
    }
  }

  lemma EntryIs(tree: Tree, s: string)
    ensures s in EntryNames(tree) <==> '/' !in s && (PathOf(s) in tree || HasDirectory(tree, PathOf(s)))
  {
    if s in EntryNames(tree) {
      var p :| p in tree && StartsWith(p, DIRECTORY) && FirstPart(p[|DIRECTORY|..]) == s;
      assert p == PathOf(p[|DIRECTORY|..]);
      FirstPartIs(p[|DIRECTORY|..], s);
      UnderEntry(s, p[|DIRECTORY|..]);
    }
    if '/' !in s && PathOf(s) in tree {
      assert PathOf(s)[|DIRECTORY|..] == s;
      FirstPartIs(s, s);
    }
    if '/' !in s && HasDirectory(tree, PathOf(s)) {
      var p :| p in tree && IsUnder(p, PathOf(s));
      UnderIsInDirectory(p, s);
      FirstPartIs(p[|DIRECTORY|..], s);
      UnderEntry(s, p[|DIRECTORY|..]);
    }
  }

  lemma UnderIsInDirectory(p: Path, s: string)
    requires IsUnder(p, PathOf(s))
    ensures StartsWith(p, DIRECTORY) && p == PathOf(p[|DIRECTORY|..])
  {
    assert p[..|DIRECTORY|] == p[..|PathOf(s)| + 1][..|DIRECTORY|];
    assert p == p[..|DIRECTORY|] + p[|DIRECTORY|..];
  }

  /** A move changes one file name and nothing else. */
  lemma MoveTouchesOneName(tree: Tree, from: Path, to: Path)
    requires from in tree && to !in tree
    ensures Moved(tree, from, to).Keys == tree.Keys - {from} + {to}
    ensures Moved(tree, from, to)[to] == tree[from]
    ensures forall p :: p in tree && p != from ==> Moved(tree, from, to)[p] == tree[p]
  {
  }

  lemma SlashSurvives(name: string, number: nat)
    requires IsMigration(name)
    ensures '/' in MigrationNumbers.Renumbered(name, number) <==> '/' in name
  {
    var r := MigrationNumbers.Renumbered(name, number);
    assert name == name[..4] + name[4..];
    assert '/' !in name[..4] && '/' !in Digits(number);
  }

  lemma SamePathSameName(name: string, other: string)
    requires PathOf(name) == PathOf(other)
    ensures name == other
  {
    assert PathOf(name)[|DIRECTORY|..] == name && PathOf(other)[|DIRECTORY|..] == other;
  }

  /** A file directly in the directory is below no entry of it. */
  lemma DirectIsBelowNothing(name: string, s: string)
    requires '/' !in name
    ensures !IsUnder(PathOf(name), PathOf(s))
  {
    UnderEntry(s, name);
    if |s| < |name| {
      assert name[..|s| + 1][|s|] == name[|s|];
      assert (s + "/")[|s|] == '/';
    }
  }

  lemma EntryAfterMove(tree: Tree, name: string, renumbered: string, s: string)
    requires IsTree(tree) && PathOf(name) in tree && '/' !in name && '/' !in renumbered
    requires renumbered !in EntryNames(tree)
    ensures s in EntryNames(Moved(tree, PathOf(name), PathOf(renumbered))) <==>
      s == renumbered || (s in EntryNames(tree) && s != name)
  {
    var from, to := PathOf(name), PathOf(renumbered);
    var after := Moved(tree, from, to);
    EntryIs(tree, renumbered);
    MoveTouchesOneName(tree, from, to);
    EntryIs(tree, s);
    EntryIs(after, s);
    DirectIsBelowNothing(name, s);
    DirectIsBelowNothing(renumbered, s);
    assert HasDirectory(after, PathOf(s)) <==> HasDirectory(tree, PathOf(s)) by {
      assert forall p :: IsUnder(p, PathOf(s)) ==> (p in after <==> p in tree);
    }
    if s == name {
      assert forall p :: p in tree ==> !IsUnder(p, from);
    } else if PathOf(s) == from {
      SamePathSameName(s, name);
    }
    if s != renumbered && PathOf(s) == to {
      SamePathSameName(s, renumbered);
    }
  }

  lemma EntryNamesAfterMove(tree: Tree, name: string, renumbered: string)
    requires IsTree(tree) && PathOf(name) in tree && '/' !in name && '/' !in renumbered
    requires renumbered !in EntryNames(tree)
    ensures EntryNames(Moved(tree, PathOf(name), PathOf(renumbered))) == EntryNames(tree) - {name} + {renumbered}
  {
    forall s ensures s in EntryNames(Moved(tree, PathOf(name), PathOf(renumbered))) <==>
      s in EntryNames(tree) - {name} + {renumbered}
    {
      EntryAfterMove(tree, name, renumbered, s);
    }
  }

  /** A file put below an entry that is there adds no entry. */
  lemma NoNewEntry(tree: Tree, from: Path, q: string, more: string)
    requires from in tree && '/' in q && PathOf(q + more) !in tree
    requires exists p :: p in tree && StartsWith(p, PathOf(q))
    ensures EntryNames(Moved(tree, from, PathOf(q + more))) <= EntryNames(tree)
  {
    var p :| p in tree && StartsWith(p, PathOf(q));
    var at, rest := PathOf(q + more), p[|PathOf(q)|..];
    MoveTouchesOneName(tree, from, at);
    assert p == PathOf(q) + rest;
    assert p[|DIRECTORY|..] == q + rest && at[|DIRECTORY|..] == q + more;
    FirstPartOf(q, rest);
    FirstPartOf(q, more);
    assert p[..|DIRECTORY|] == DIRECTORY;
    assert FirstPart(q) in EntryNames(tree);
  }

  // ----- Where the run's migration goes -----

  /** The other migrations are numbered 1 to `n`, so the highest kept number
      is `n`. */
  lemma HighestIsLast(main: Tree, tree: Tree, name: string, n: nat, highest: nat)
    requires AddedMigrations(main, tree) == {name}
    requires NumberedSet(EntryNames(tree) - {name}, n)
    requires IsHighest(highest, KeptNumbers(main, tree))
    ensures highest == n
  {
    var others, kept := EntryNames(tree) - {name}, KeptNumbers(main, tree);
    forall m ensures m in kept <==> 1 <= m <= n {
      if m in kept {
        var s :| s in EntryNames(tree) && NumberOf(s).Some? && s != name && NumberOf(s).value == m;
        MigrationsAreSql(s);
        assert s in others;
      }
      if 1 <= m <= n {
        assert HasNumber(others, m);
        var s :| s in others && UsesNumber(s, m);
        assert s in EntryNames(tree) && s !in AddedMigrations(main, tree);
      }
    }
    assert n >= 1 ==> n in kept;
    if kept == {} {
      assert n !in kept;
    }
  }

  lemma MigrationsAreSql(name: string)
    requires NumberOf(name).Some?
    ensures EndsWith(name, SQL)
  {
    var rest := name[5..];
    assert name[|name| - 4..] == rest[|rest| - 4..];
  }

  lemma AddingNextNumber(others: set<string>, n: nat, added: string)
    requires NumberedSet(others, n) && EndsWith(added, SQL) && added !in others
    ensures NumberedSet(others + {added}, n + 1) <==> NumberOf(added) == Some(n + 1)
  {
    var all := others + {added};
    if NumberOf(added) == Some(n + 1) {
      forall m | 1 <= m <= n + 1 ensures HasNumber(all, m) {
        if m <= n {
          assert HasNumber(others, m);
        } else {
          assert UsesNumber(added, m);
        }
      }
      forall m ensures NoTwoUse(all, m) {
        assert NoTwoUse(others, m);
      }
    }
    if NumberedSet(all, n + 1) {
      assert HasNumber(all, n + 1);
    }
  }

  lemma NotNumberedPast(names: set<string>, n: nat)
    requires NumberedSet(names, n)
    ensures !HasNumber(names, n + 1)
    ensures !NumberedSet(names, n + 1)
  {
  }

  lemma FewerIsNotNumbered(names: set<string>, fewer: set<string>, n: nat)
    requires NumberedSet(names, n) && fewer <= names
    ensures !NumberedSet(fewer, n + 1)
  {
    NotNumberedPast(names, n);
    HasNumberGrows(fewer, names, n + 1);
    LastIsUsed(fewer, n + 1);
  }

  lemma LastIsUsed(names: set<string>, k: nat)
    requires k >= 1
    ensures NumberedSet(names, k) ==> HasNumber(names, k)
  {
  }

  lemma HasNumberGrows(fewer: set<string>, names: set<string>, number: nat)
    requires fewer <= names
    ensures HasNumber(fewer, number) ==> HasNumber(names, number)
  {
    if HasNumber(fewer, number) {
      var s :| s in fewer && UsesNumber(s, number);
      assert s in names;
    }
  }

  /** A collision of the run's one migration with others numbered 1 to `n`,
      and what becomes of it. */
  ghost predicate Collides(main: Tree, tree: Tree, name: string, n: nat) {
    && IsTree(tree) && IsMigration(name) && PathOf(name) in tree
    && AddedMigrations(main, tree) == {name} && 1 <= NumberOf(name).value <= n
    && NumberedSet(EntryNames(tree) - {name}, n)
  }

  /** What becomes of a collision is a move to the number `n + 1`. */
  lemma MoveGoesToNext(main: Tree, tree: Tree, name: string, n: nat, r: Renumbering)
    requires Collides(main, tree, name, n)
    ensures MovesUp(main, tree, name, r) ==> IsMoveTo(tree, name, n + 1, r)
  {
    NextIsOnePast(main, tree, name, n);
    if MovesUp(main, tree, name, r) {
      OnlyHighest(KeptNumbers(main, tree), tree, name, n, r);
    }
  }

  lemma NextIsOnePast(main: Tree, tree: Tree, name: string, n: nat)
    requires Collides(main, tree, name, n)
    ensures forall highest: nat :: IsHighest(highest, KeptNumbers(main, tree)) ==> highest == n
  {
    forall highest: nat | IsHighest(highest, KeptNumbers(main, tree)) ensures highest == n {
      HighestIsLast(main, tree, name, n, highest);
    }
  }

  lemma OnlyHighest(kept: set<nat>, tree: Tree, name: string, n: nat, r: Renumbering)
    requires IsMigration(name) && PathOf(name) in tree && MovesPast(kept, tree, name, r)
    requires forall highest: nat :: IsHighest(highest, kept) ==> highest == n
    ensures IsMoveTo(tree, name, n + 1, r)
  {
    var highest: nat :| IsHighest(highest, kept) && IsMoveTo(tree, name, highest + 1, r);
    assert highest == n;
  }

  lemma NextNameIsNew(main: Tree, tree: Tree, name: string, n: nat)
    requires Collides(main, tree, name, n)
    ensures MigrationNumbers.Renumbered(name, n + 1) !in EntryNames(tree)
  {
    var renumbered, others := MigrationNumbers.Renumbered(name, n + 1), EntryNames(tree) - {name};
    RenumberedHasNumber(name, n + 1);
    assert renumbered != name;
    assert renumbered !in others;
  }

  lemma DirectParent(name: string)
    requires '/' !in name
    ensures Parent(PathOf(name)) == "migrations" && IsUnder(PathOf(name), "migrations")
  {
    assert PathOf(name) == "migrations" + "/" + name;
    ParentOf("migrations", name);
    assert PathOf(name)[..11] == "migrations" + "/";
  }

  /** A migration that lies directly in the directory is always moved: the
      next number is free there. */
  lemma DirectIsMoved(main: Tree, tree: Tree, name: string, n: nat)
    requires Collides(main, tree, name, n) && '/' !in name
    ensures var from, to := PathOf(name), PathOf(MigrationNumbers.Renumbered(name, n + 1));
      MoveTo(tree, name, n + 1) == Renumbered(from, to, to, Moved(tree, from, to)) && to !in tree
  {
    var renumbered := MigrationNumbers.Renumbered(name, n + 1);
    SlashSurvives(name, n + 1);
    NextNameIsNew(main, tree, name, n);
    EntryIs(tree, renumbered);
    DirectParent(name);
    DirectParent(renumbered);
  }

  /** A migration further down is refused exactly when the directory it would
      go to is not there, or the place in it is taken. */
  lemma NestedIsRefused(main: Tree, tree: Tree, name: string, n: nat)
    requires Collides(main, tree, name, n) && '/' in name
    ensures var to := PathOf(MigrationNumbers.Renumbered(name, n + 1));
      var at := if HasDirectory(tree, to) then to + "/" + BaseName(name) else to;
      MoveTo(tree, name, n + 1).Refused? <==>
        !HasDirectory(tree, Parent(to)) || at in tree || HasDirectory(tree, at)
  {
    BaseNameOfPath(name);
  }

  lemma {:induction false} BaseNameOfPath(name: string)
    ensures BaseName(PathOf(name)) == BaseName(name)
  {
    var path := PathOf(name);
    if name == [] {
      assert path[|path| - 1] == '/';
    } else {
      assert path[|path| - 1] == name[|name| - 1] && path[..|path| - 1] == PathOf(name[..|name| - 1]);
      BaseNameOfPath(name[..|name| - 1]);
    }
  }

  lemma NestedAddsNoEntry(tree: Tree, name: string, number: nat)
    requires IsMigration(name) && PathOf(name) in tree && '/' in name
    requires MoveTo(tree, name, number).Renumbered?
    ensures EntryNames(MoveTo(tree, name, number).tree) <= EntryNames(tree)
  {
    var renumbered := MigrationNumbers.Renumbered(name, number);
    var to, at := PathOf(renumbered), MoveTo(tree, name, number).at;
    SlashSurvives(name, number);
    if HasDirectory(tree, to) {
      var q, more := renumbered + "/", BaseName(PathOf(name));
      assert at == PathOf(q + more) && PathOf(q) == to + "/";
      NoNewEntry(tree, PathOf(name), q, more);
    } else {
      var q, more := ParentPart(renumbered);
      NoNewEntry(tree, PathOf(name), q, more);
    }
  }

  lemma ParentPart(name: string) returns (q: string, more: string)
    requires '/' in name
    ensures '/' in q && name == q + more && PathOf(q) == Parent(PathOf(name)) + "/"
  {
    ParentAndBaseName(name);
    q, more := Parent(name) + "/", BaseName(name);
    assert PathOf(name) == PathOf(Parent(name)) + "/" + more;
    ParentOf(PathOf(Parent(name)), more);
    assert q[|Parent(name)|] == '/';
  }

  // ----- The theorem -----

  lemma NumberedAfterMove(main: Tree, tree: Tree, name: string, n: nat)
    requires Collides(main, tree, name, n)
    ensures MoveTo(tree, name, n + 1).Renumbered? ==>
      (NumberedSet(EntryNames(MoveTo(tree, name, n + 1).tree), n + 1) <==> n < 9999 && '/' !in name)
  {
    if MoveTo(tree, name, n + 1).Refused? { return; }
    var renumbered := MigrationNumbers.Renumbered(name, n + 1);
    var others, after := EntryNames(tree) - {name}, EntryNames(MoveTo(tree, name, n + 1).tree);
    RenumberedHasNumber(name, n + 1);
    if '/' !in name {
      DirectIsMoved(main, tree, name, n);
      SlashSurvives(name, n + 1);
      NextNameIsNew(main, tree, name, n);
      EntryNamesAfterMove(tree, name, renumbered);
      AddingNextNumber(others, n, renumbered);
    } else {
      NestedAddsNoEntry(tree, name, n + 1);
      EntryIs(tree, name);
      FewerIsNotNumbered(others, after, n);
    }
  }

  /** On a collision the run's migration is moved and the directory numbered 1
      to `n + 1` exactly when the new number still fits four digits and the
      migration lies directly in the directory. */
  lemma RenumberingRestoresNumbers(main: Tree, tree: Tree, name: string, n: nat)
    requires Collides(main, tree, name, n)
    ensures var r := MoveTo(tree, name, n + 1);
      && (r.Renumbered? && NumberedSet(EntryNames(r.tree), n + 1) <==> n < 9999 && '/' !in name)
      && ('/' !in name ==> r.Renumbered?)
  {
    if '/' !in name {
      DirectIsMoved(main, tree, name, n);
    }
    NumberedAfterMove(main, tree, name, n);
  }

  /** A move changes the name of that one file and nothing else. */
  lemma MoveChangesOneName(tree: Tree, name: string, number: nat)
    requires IsMigration(name) && PathOf(name) in tree
    ensures var r := MoveTo(tree, name, number);
      r.Renumbered? ==>
        && r.from == PathOf(name) && r.to == PathOf(MigrationNumbers.Renumbered(name, number))
        && r.at == (if HasDirectory(tree, r.to) then r.to + "/" + BaseName(name) else r.to)
        && r.tree.Keys == tree.Keys - {r.from} + {r.at} && r.tree[r.at] == tree[r.from]
        && forall p :: p in tree && p != r.from ==> r.tree[p] == tree[p]
  {
    var r := MoveTo(tree, name, number);
    BaseNameOfPath(name);
    if r.Renumbered? {
      MoveTouchesOneName(tree, r.from, r.at);
    }
  }

  /** A directory's entries in some order. */
  method List(names: set<string>) returns (listing: seq<string>)
    ensures Lists(listing, names)
  {
    listing := [];
    var rest := names;
    while rest != {}
      invariant rest <= names && Lists(listing, names - rest)
      decreases rest
    {
      ghost var some := Sets.Element(rest);
      var name :| name in rest;
      listing, rest := listing + [name], rest - {name};
    }
    assert names - rest == names;
  }

  /** What the next build makes of a colliding run that was renumbered: the
      directory comes back in order as 1 to `n + 1`, exactly where the
      numbering is restored. */
  method RenumberAndOrder(main: Tree, tree: Tree, name: string, n: nat)
    returns (r: Renumbering, ordered: Option<Result<seq<string>, seq<Problem>>>)
    requires Collides(main, tree, name, n) && Referring(main, tree, name) == {}
    ensures MovesUp(main, tree, name, r) && (r.Renumbered? <==> ordered.Some?)
    ensures IsOrderedTo(ordered, n + 1) <==> n < 9999 && '/' !in name
  {
    r := RenumberMigration(main, tree);
    CollisionIsRenumbered(main, tree, name, n, r);
    ordered := OrderIfMoved(r, n + 1);
  }

  lemma CollisionIsRenumbered(main: Tree, tree: Tree, name: string, n: nat, r: Renumbering)
    requires Collides(main, tree, name, n) && Referring(main, tree, name) == {} && Renumbers(main, tree, r)
    ensures MovesUp(main, tree, name, r)
    ensures r.Renumbered? && NumberedSet(EntryNames(r.tree), n + 1) <==> n < 9999 && '/' !in name
  {
    CollisionMoves(main, tree, name, n, r);
    MoveGoesToNext(main, tree, name, n, r);
    RenumberingRestoresNumbers(main, tree, name, n);
  }

  method OrderIfMoved(r: Renumbering, k: nat) returns (ordered: Option<Result<seq<string>, seq<Problem>>>)
    ensures r.Renumbered? <==> ordered.Some?
    ensures IsOrderedTo(ordered, k) <==> r.Renumbered? && NumberedSet(EntryNames(r.tree), k)
  {
    if !r.Renumbered? { return None; }
    var answer := OrderEntries(r.tree, k);
    ordered := Some(answer);
  }

  predicate IsOrderedTo(ordered: Option<Result<seq<string>, seq<Problem>>>, k: nat) {
    ordered.Some? && ordered.value.Ok? && |ordered.value.value| == k
  }

  method OrderEntries(tree: Tree, k: nat) returns (ordered: Result<seq<string>, seq<Problem>>)
    ensures ordered.Ok? && |ordered.value| == k <==> NumberedSet(EntryNames(tree), k)
  {
    var listing := List(EntryNames(tree));
    ordered := OrderedFiles(listing);
    ListingIsNumbered(listing, EntryNames(tree), k);
    if ordered.Ok? && NumberedTo(listing, k) {
      NumberedOnce(listing, |ordered.value|, k);
    }
  }

  lemma CollisionMoves(main: Tree, tree: Tree, name: string, n: nat, r: Renumbering)
    requires Collides(main, tree, name, n) && Referring(main, tree, name) == {} && Renumbers(main, tree, r)
    ensures MovesUp(main, tree, name, r)
  {
    CollisionIsTaken(main, tree, name, n);
    assert Movable(main, tree, name);
    var other :| Movable(main, tree, other) && MovesUp(main, tree, other, r);
    assert other in {name};
  }

  lemma CollisionIsTaken(main: Tree, tree: Tree, name: string, n: nat)
    requires Collides(main, tree, name, n)
    ensures name in Taken(main, tree)
  {
    var others, m := EntryNames(tree) - {name}, NumberOf(name).value;
    assert HasNumber(others, m);
    var s :| s in others && UsesNumber(s, m);
    assert s in EntryNames(tree) && s !in AddedMigrations(main, tree);
    assert m in KeptNumbers(main, tree);
  }
}
