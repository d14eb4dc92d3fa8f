/** How migration files are named and numbered. */
module MigrationNumbers {
  import opened Outcomes
  import opened Sequences
  import opened Text
  import Sorting

  const SQL := ".sql"

  predicate IsMigration(fileName: string) {
    && |fileName| > 4 + 1 + |SQL|
    && AllDigits(fileName[..4]) && fileName[4] == '_' && EndsWith(fileName[5..], SQL)
  }

  /** The number of a file named `NNNN_<name>.sql`, with a name. */
  function NumberOf(fileName: string): Option<nat> {
    if IsMigration(fileName) then Some(Number(fileName[..4])) else None
  }

  /** A file is migration `n` exactly when its name is the four digits of `n`,
      an underscore, a name and `.sql`. */
  lemma MigrationIs(fileName: string, n: nat)
    ensures NumberOf(fileName) == Some(n) <==>
      n <= 9999 && exists name :: name != "" && fileName == Padded(n, 4) + "_" + name + ".sql"
  {
    if NumberOf(fileName) == Some(n) {
      var name := NameOf(fileName, n);
    }
    forall name | n <= 9999 && name != "" && fileName == Padded(n, 4) + "_" + name + ".sql"
      ensures NumberOf(fileName) == Some(n)
    {
      NamedIsMigration(n, name);
    }
  }

  lemma NameOf(fileName: string, n: nat) returns (name: string)
    requires NumberOf(fileName) == Some(n)
    ensures n <= 9999 && name != "" && fileName == Padded(n, 4) + "_" + name + ".sql"
  {
    FourDigits();
    PaddedOfNumber(fileName[..4]);
    var rest := fileName[5..];
    name := rest[..|rest| - 4];
    assert rest == name + SQL;
    assert fileName == fileName[..4] + "_" + rest;
    assert fileName[..4] + "_" + (name + ".sql") == fileName[..4] + "_" + name + ".sql";
  }

  lemma NamedIsMigration(n: nat, name: string)
    requires n <= 9999 && name != ""
    ensures NumberOf(Padded(n, 4) + "_" + name + ".sql") == Some(n)
  {
    var fileName, rest := Padded(n, 4) + "_" + name + ".sql", name + ".sql";
    FourDigits();
    PaddedFits(n, 4);
    NumberOfPadded(n, 4);
    assert fileName[..4] == Padded(n, 4) && fileName[4] == '_' && fileName[5..] == rest;
    assert rest[|rest| - 4..] == ".sql";
  }

  /** Renumbering puts other digits before the same rest. */
  lemma RenumberedIs(m: nat, name: string, n: nat)
    requires m <= 9999
    ensures Renumbered(Padded(m, 4) + "_" + name + ".sql", n) == Padded(n, 4) + "_" + name + ".sql"
  {
    FourDigits();
    PaddedFits(m, 4);
    var fileName := Padded(m, 4) + "_" + name + ".sql";
    assert fileName[4..] == "_" + name + ".sql";
    assert Padded(n, 4) + ("_" + name + ".sql") == Padded(n, 4) + "_" + name + ".sql";
  }

  function Digits(number: nat): string {
    Padded(number, 4)
  }

  /** A migration's file name with its number replaced. */
  function Renumbered(fileName: string, number: nat): string
    requires |fileName| >= 4
  {
    Digits(number) + fileName[4..]
  }

  /** A renumbered file is a migration of that number exactly when the number
      fits four digits. */
  lemma RenumberedHasNumber(fileName: string, number: nat)
    requires IsMigration(fileName)
    ensures NumberOf(Renumbered(fileName, number)) == Some(number) <==> number <= 9999
    ensures IsMigration(Renumbered(fileName, number)) <==> number <= 9999
    ensures EndsWith(Renumbered(fileName, number), SQL)
  {
    var d, r := Digits(number), Renumbered(fileName, number);
    FourDigits();
    PaddedFits(number, 4);
    NumberOfPadded(number, 4);
    if number <= 9999 {
      assert r[..4] == d && r[4..] == fileName[4..];
      assert r[5..] == fileName[5..];
    } else {
      assert r[4] == d[4] && IsDigit(d[4]);
    }
    var rest := fileName[4..];
    assert fileName[5..] == rest[1..];
    assert r[|r| - 4..] == rest[|rest| - 4..] == fileName[5..][|fileName[5..]| - 4..];
  }

  lemma FourDigits()
    ensures Pow10(4) == 10000
  {
    assert Pow10(1) == 10;
    assert Pow10(2) == 10 * Pow10(1);
    assert Pow10(3) == 10 * Pow10(2);
  }

  lemma NumberFitsFourDigits(fileName: string)
    requires IsMigration(fileName)
    ensures NumberOf(fileName).value <= 9999
    ensures Renumbered(fileName, NumberOf(fileName).value) == fileName
  {
    FourDigits();
    PaddedOfNumber(fileName[..4]);
  }

  // ----- The files of a directory -----

  datatype Numbered = Numbered(number: nat, name: string)

  /** `(u32, &str)` order. */
  predicate NumberedNoLater(p: Numbered, q: Numbered) {
    p.number < q.number || (p.number == q.number && NoLater(p.name, q.name))
  }

  /** The migrations among `names`, in their order. */
  function Parsed(names: seq<string>): seq<Numbered> {
    if names == [] then []
    else
      (if EndsWith(names[0], SQL) && NumberOf(names[0]).Some?
       then [Numbered(NumberOf(names[0]).value, names[0])] else [])
      + Parsed(names[1..])
  }

  function Misnamed(names: seq<string>): seq<string> {
    if names == [] then []
    else
      (if EndsWith(names[0], SQL) && NumberOf(names[0]).None? then [names[0]] else []) + Misnamed(names[1..])
  }

  /** The files that use a number. */
  function Using(files: seq<Numbered>, number: nat): seq<string> {
    if files == [] then []
    else (if files[0].number == number then [files[0].name] else []) + Using(files[1..], number)
  }

  /** The `.sql` files are exactly one migration for each of 1 to `k`. */
  ghost predicate NumberedTo(names: seq<string>, k: nat) {
    && Misnamed(names) == []
    && (forall p :: p in Parsed(names) ==> 1 <= p.number <= k)
    && (forall n :: 1 <= n <= k ==> |Using(Parsed(names), n)| == 1)
  }

  datatype Problem =
    | NotAMigration(name: string)
    | Shared(number: nat, files: seq<string>)
    | Zero(file: string)
    | Missing(first: nat, last: nat, before: string)

  /** A problem that the files do have. */
  ghost predicate IsReal(p: Problem, names: seq<string>) {
    match p
    case NotAMigration(name) => name in Misnamed(names)
    case Shared(n, files) => |files| > 1 && multiset(files) == multiset(Using(Parsed(names), n))
    case Zero(file) => Numbered(0, file) in Parsed(names)
    case Missing(first, last, before) =>
      && 1 <= first <= last
      && Numbered(last + 1, before) in Parsed(names)
      && forall q :: q in Parsed(names) ==> !(first <= q.number <= last)
  }

  lemma {:induction false} UsingHasMember(files: seq<Numbered>, n: nat)
    ensures Using(files, n) != [] <==> exists p :: p in files && p.number == n
  {
    if files != [] {
      UsingHasMember(files[1..], n);
      assert forall p :: p in files <==> p == files[0] || p in files[1..];
    }
  }

  lemma {:induction false} UsingInsert(p: Numbered, files: seq<Numbered>, n: nat)
    ensures multiset(Using(Sorting.Insert(p, files, NumberedNoLater), n)) ==
      multiset(Using(files, n)) + (if p.number == n then multiset{p.name} else multiset{})
  {
    if files == [] || NumberedNoLater(p, files[0]) {
      assert ([p] + files)[1..] == files;
    } else {
      UsingInsert(p, files[1..], n);
      var rest := Sorting.Insert(p, files[1..], NumberedNoLater);
      assert ([files[0]] + rest)[1..] == rest;
    }
  }

  lemma {:induction false} UsingSorted(files: seq<Numbered>, n: nat)
    ensures multiset(Using(Sorting.Sort(files, NumberedNoLater), n)) == multiset(Using(files, n))
  {
    if files != [] {
      UsingSorted(files[1..], n);
      UsingInsert(files[0], Sorting.Sort(files[1..], NumberedNoLater), n);
    }
  }

  lemma NumberedOrderIsTotal()
    ensures Sorting.TotalPreorder(NumberedNoLater)
  {
    forall p, q ensures NumberedNoLater(p, q) || NumberedNoLater(q, p) {
      NoLaterTotal(p.name, q.name, q.name);
    }
    forall p, q, r | NumberedNoLater(p, q) && NumberedNoLater(q, r) ensures NumberedNoLater(p, r) {
      NoLaterTotal(p.name, q.name, r.name);
    }
  }

  lemma {:induction false} MisnamedAppended(names: seq<string>, name: string)
    ensures Misnamed(names + [name]) ==
      Misnamed(names) + (if EndsWith(name, SQL) && NumberOf(name).None? then [name] else [])
  {
    if names == [] {
      assert names + [name] == [name] && [name][1..] == [];
      assert Misnamed([name][1..]) == [];
    } else {
      assert (names + [name])[1..] == names[1..] + [name] && (names + [name])[0] == names[0];
      MisnamedAppended(names[1..], name);
      InTurn(if EndsWith(names[0], SQL) && NumberOf(names[0]).None? then [names[0]] else [], Misnamed(names[1..]),
             if EndsWith(name, SQL) && NumberOf(name).None? then [name] else []);
    }
  }

  lemma {:induction false} ParsedAppended(names: seq<string>, name: string)
    ensures Parsed(names + [name]) ==
      Parsed(names) + (if EndsWith(name, SQL) && NumberOf(name).Some?
                       then [Numbered(NumberOf(name).value, name)] else [])
  {
    if names == [] {
      assert names + [name] == [name] && [name][1..] == [];
      assert Parsed([name][1..]) == [];
    } else {
      assert (names + [name])[1..] == names[1..] + [name] && (names + [name])[0] == names[0];
      ParsedAppended(names[1..], name);
    }
  }
}
