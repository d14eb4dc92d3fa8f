/** `ordered`: the migrations of a directory in order of their number, or
    every reason why they cannot be. */
module MigrationOrder {
  import opened Outcomes
  import opened Text
  import opened MigrationNumbers
  import Sorting

  // ----- What the answer means -----

  /** The files in the order of the numbers 1, 2, 3 and on. */
  ghost predicate InNumberOrder(files: seq<Numbered>) {
    forall i :: 0 <= i < |files| ==> files[i].number == i + 1
  }

  function Names(files: seq<Numbered>): seq<string> {
    if files == [] then [] else [files[0].name] + Names(files[1..])
  }

  ghost predicate Covers(problems: seq<Problem>, number: nat) {
    exists p :: p in problems && p.Missing? && p.first <= number <= p.last
  }

  /** Every misnamed file, every number two files use, every number missing
      before a file and every use of 0000 is named. */
  ghost predicate NamesAll(problems: seq<Problem>, names: seq<string>) {
    && (forall name :: name in Misnamed(names) ==> NotAMigration(name) in problems)
    && (forall n :: |Using(Parsed(names), n)| > 1 ==> exists p :: p in problems && p.Shared? && p.number == n)
    && (forall n, f :: f in Parsed(names) && 1 <= n < f.number && Using(Parsed(names), n) == [] ==>
          Covers(problems, n))
    && (forall f :: f in Parsed(names) && f.number == 0 ==> exists p :: p in problems && p.Zero?)
  }

  /** A set of files numbered exactly 1 to some number has no problem. */
  lemma NumberedHasNoProblem(names: seq<string>, k: nat, p: Problem)
    requires NumberedTo(names, k)
    ensures !IsReal(p, names)
  {
    if p.Missing? {
      var f := Numbered(p.last + 1, p.before);
      assert f in Parsed(names) ==> f.number <= k;
      UsingHasMember(Parsed(names), p.first);
    }
    if p.Shared? && IsReal(p, names) {
      assert |multiset(p.files)| == |p.files| == |Using(Parsed(names), p.number)|;
      UsingHasMember(Parsed(names), p.number);
    }
  }

  // ----- The loops -----

  method Collected(names: seq<string>) returns (numbered: seq<Numbered>, problems: seq<Problem>)
    ensures numbered == Parsed(names)
    ensures forall p :: p in problems <==> p.NotAMigration? && p.name in Misnamed(names)
  {
    numbered, problems := [], [];
    for i := 0 to |names|
      invariant numbered == Parsed(names[..i])
      invariant forall p :: p in problems <==> p.NotAMigration? && p.name in Misnamed(names[..i])
    {
      assert names[..i + 1] == names[..i] + [names[i]];
      MisnamedAppended(names[..i], names[i]);
      ParsedAppended(names[..i], names[i]);
      if EndsWith(names[i], SQL) {
        match NumberOf(names[i])
        case Some(n) => numbered := numbered + [Numbered(n, names[i])];
        case None => problems := problems + [NotAMigration(names[i])];
      }
    }
    assert names[..|names|] == names;
  }

  ghost predicate SameFiles(sorted: seq<Numbered>, names: seq<string>) {
    && (forall p :: p in sorted <==> p in Parsed(names))
    && (forall n :: multiset(Using(sorted, n)) == multiset(Using(Parsed(names), n)))
    && forall i, j :: 0 <= i < j < |sorted| ==> sorted[i].number <= sorted[j].number
  }

  /** The smallest number the next file may have. */
  function Expected(sorted: seq<Numbered>, index: nat): nat
    requires index <= |sorted|
  {
    if index == 0 || sorted[index - 1].number == 0 then 1 else sorted[index - 1].number + 1
  }

  /** A number that more than one file uses. */
  function SharedProblem(n: nat, sharing: seq<string>): seq<Problem> {
    if |sharing| > 1 then [Shared(n, sharing)] else []
  }

  /** A number that is not the next one. */
  function GapProblem(n: nat, expected: nat, name: string): seq<Problem> {
    if n == expected then []
    else if n > expected then [Missing(expected, n - 1, name)]
    else [Zero(name)]
  }

  /** What is wrong with the file at `index`, the first one of its number. */
  function ProblemsAt(sorted: seq<Numbered>, index: nat): seq<Problem>
    requires index < |sorted|
  {
    var n := sorted[index].number;
    SharedProblem(n, Using(sorted, n)) + GapProblem(n, Expected(sorted, index), sorted[index].name)
  }

  lemma SameCount(sorted: seq<Numbered>, names: seq<string>, n: nat)
    requires SameFiles(sorted, names)
    ensures |Using(sorted, n)| == |Using(Parsed(names), n)|
  {
    assert |multiset(Using(sorted, n))| == |multiset(Using(Parsed(names), n))|;
  }

  lemma GapIsReal(sorted: seq<Numbered>, index: nat, names: seq<string>)
    requires index < |sorted| && SameFiles(sorted, names)
    requires index == 0 || sorted[index - 1].number != sorted[index].number
    ensures var n, expected := sorted[index].number, Expected(sorted, index);
      && (n < expected ==> n == 0)
      && forall p :: p in GapProblem(n, expected, sorted[index].name) ==> IsReal(p, names)
  {
    var n, expected := sorted[index].number, Expected(sorted, index);
    assert sorted[index] in sorted && sorted[index] == Numbered(n, sorted[index].name);
    assert index > 0 ==> sorted[index - 1].number <= n;
    if n > expected {
      NothingBetween(sorted, index);
      assert forall q :: q in Parsed(names) ==> q in sorted;
    }
  }

  lemma SharedIsReal(sorted: seq<Numbered>, n: nat, names: seq<string>)
    requires SameFiles(sorted, names)
    ensures forall p :: p in SharedProblem(n, Using(sorted, n)) ==> IsReal(p, names)
  {
  }

  lemma NothingBetween(sorted: seq<Numbered>, index: nat)
    requires index < |sorted|
    requires forall i, j :: 0 <= i < j < |sorted| ==> sorted[i].number <= sorted[j].number
    ensures forall q :: q in sorted ==> !(Expected(sorted, index) <= q.number <= sorted[index].number - 1)
  {
    forall q | q in sorted ensures !(Expected(sorted, index) <= q.number <= sorted[index].number - 1) {
      var k :| 0 <= k < |sorted| && sorted[k] == q;
      if k < index {
        assert k < index - 1 ==> sorted[k].number <= sorted[index - 1].number;
      } else {
        assert k > index ==> sorted[index].number <= sorted[k].number;
      }
    }
  }

  /** What the problems found before `index` say about the files before it. */
  ghost predicate JudgedTo(sorted: seq<Numbered>, index: nat, problems: seq<Problem>)
    requires index <= |sorted|
  {
    && (forall j :: 0 <= j < index && |Using(sorted, sorted[j].number)| > 1 ==>
          exists p :: p in problems && p.Shared? && p.number == sorted[j].number)
    && (forall j :: 0 <= j < index && sorted[j].number == 0 ==> exists p :: p in problems && p.Zero?)
    && (forall n :: 1 <= n < Expected(sorted, index) && Using(sorted, n) == [] ==> Covers(problems, n))
  }

  lemma NamedStays(before: seq<Problem>, more: seq<Problem>)
    ensures forall p :: p in before + more <==> p in before || p in more
    ensures forall n: nat :: Covers(before, n) || Covers(more, n) ==> Covers(before + more, n)
  {
    forall n: nat | Covers(before, n) || Covers(more, n) ensures Covers(before + more, n) {
      if Covers(before, n) {
        var p :| p in before && p.Missing? && p.first <= n <= p.last;
        assert p in before + more;
      } else {
        var p :| p in more && p.Missing? && p.first <= n <= p.last;
        assert p in before + more;
      }
    }
  }

  lemma SharedNamed(sorted: seq<Numbered>, index: nat)
    requires index < |sorted|
    ensures |Using(sorted, sorted[index].number)| > 1 ==>
      exists p :: p in ProblemsAt(sorted, index) && p.Shared? && p.number == sorted[index].number
  {
    var n := sorted[index].number;
    if |Using(sorted, n)| > 1 {
      assert ProblemsAt(sorted, index)[0] == Shared(n, Using(sorted, n));
    }
  }

  lemma GapNamed(sorted: seq<Numbered>, index: nat)
    requires index < |sorted|
    ensures sorted[index].number == 0 ==> exists p :: p in ProblemsAt(sorted, index) && p.Zero?
    ensures forall n :: Expected(sorted, index) <= n < sorted[index].number ==> Covers(ProblemsAt(sorted, index), n)
  {
    var n, problems := sorted[index].number, ProblemsAt(sorted, index);
    var gap := GapProblem(n, Expected(sorted, index), sorted[index].name);
    assert gap != [] ==> problems[|problems| - 1] == gap[0];
  }

  lemma GapsCovered(sorted: seq<Numbered>, index: nat, problems: seq<Problem>, n: nat)
    requires index < |sorted| && JudgedTo(sorted, index, problems)
    requires 1 <= n < Expected(sorted, index + 1) && Using(sorted, n) == []
    ensures Covers(problems + ProblemsAt(sorted, index), n)
  {
    NamedStays(problems, ProblemsAt(sorted, index));
    GapNamed(sorted, index);
    UsingHasMember(sorted, n);
    assert sorted[index] in sorted;
    assert n != sorted[index].number;
  }

  lemma JudgedOneMore(sorted: seq<Numbered>, index: nat, problems: seq<Problem>)
    requires index < |sorted| && JudgedTo(sorted, index, problems)
    ensures JudgedTo(sorted, index + 1, problems + ProblemsAt(sorted, index))
  {
    var more := ProblemsAt(sorted, index);
    NamedStays(problems, more);
    SharedNamed(sorted, index);
    GapNamed(sorted, index);
    forall j | 0 <= j < index + 1 && |Using(sorted, sorted[j].number)| > 1
      ensures exists p :: p in problems + more && p.Shared? && p.number == sorted[j].number
    {
      if j < index {
        var p :| p in problems && p.Shared? && p.number == sorted[j].number;
        assert p in problems + more;
      }
    }
    forall n | 1 <= n < Expected(sorted, index + 1) && Using(sorted, n) == [] ensures Covers(problems + more, n) {
      GapsCovered(sorted, index, problems, n);
    }
  }

  lemma {:induction false} TwoUse(files: seq<Numbered>, i: nat, j: nat)
    requires i < j < |files| && files[i].number == files[j].number
    ensures |Using(files, files[i].number)| > 1
  {
    if i > 0 {
      TwoUse(files[1..], i - 1, j - 1);
    } else {
      assert files[j] in files[1..] by {
        assert files[1..][j - 1] == files[j];
      }
      UsingHasMember(files[1..], files[0].number);
    }
  }

  lemma JudgedSkip(sorted: seq<Numbered>, index: nat, problems: seq<Problem>)
    requires 0 < index < |sorted| && JudgedTo(sorted, index, problems)
    requires sorted[index - 1].number == sorted[index].number
    ensures JudgedTo(sorted, index + 1, problems)
    ensures problems != []
  {
    TwoUse(sorted, index - 1, index);
    assert exists p :: p in problems && p.Shared? && p.number == sorted[index - 1].number;
  }

  lemma {:induction false} InOrderIsNumbered(sorted: seq<Numbered>, names: seq<string>)
    requires SameFiles(sorted, names) && InNumberOrder(sorted) && Misnamed(names) == []
    requires forall j :: 0 <= j < |sorted| ==> |Using(sorted, sorted[j].number)| <= 1
    ensures NumberedTo(names, |sorted|)
  {
    forall n | 1 <= n <= |sorted| ensures |Using(Parsed(names), n)| == 1 {
      assert sorted[n - 1].number == n && sorted[n - 1] in sorted;
      UsingHasMember(sorted, n);
      SameCount(sorted, names, n);
    }
  }

  lemma NamesAllAtEnd(sorted: seq<Numbered>, names: seq<string>, problems: seq<Problem>)
    requires SameFiles(sorted, names) && JudgedTo(sorted, |sorted|, problems)
    requires forall name :: name in Misnamed(names) ==> NotAMigration(name) in problems
    ensures NamesAll(problems, names)
  {
    forall n | |Using(Parsed(names), n)| > 1
      ensures exists p :: p in problems && p.Shared? && p.number == n
    {
      SharedAtEnd(sorted, names, problems, n);
    }
    forall n, f | f in Parsed(names) && 1 <= n < f.number && Using(Parsed(names), n) == []
      ensures Covers(problems, n)
    {
      GapAtEnd(sorted, names, problems, n, f);
    }
    forall f | f in Parsed(names) && f.number == 0 ensures exists p :: p in problems && p.Zero? {
      assert f in sorted;
      var j :| 0 <= j < |sorted| && sorted[j] == f;
    }
  }

  lemma SharedAtEnd(sorted: seq<Numbered>, names: seq<string>, problems: seq<Problem>, n: nat)
    requires SameFiles(sorted, names) && JudgedTo(sorted, |sorted|, problems)
    requires |Using(Parsed(names), n)| > 1
    ensures exists p :: p in problems && p.Shared? && p.number == n
  {
    SameCount(sorted, names, n);
    UsingHasMember(sorted, n);
    var f :| f in sorted && f.number == n;
    var j :| 0 <= j < |sorted| && sorted[j] == f;
  }

  lemma GapAtEnd(sorted: seq<Numbered>, names: seq<string>, problems: seq<Problem>, n: nat, f: Numbered)
    requires SameFiles(sorted, names) && JudgedTo(sorted, |sorted|, problems)
    requires f in Parsed(names) && 1 <= n < f.number && Using(Parsed(names), n) == []
    ensures Covers(problems, n)
  {
    assert f in sorted;
    var j :| 0 <= j < |sorted| && sorted[j] == f;
    assert j < |sorted| - 1 ==> sorted[j].number <= sorted[|sorted| - 1].number;
    SameCount(sorted, names, n);
  }

  /** The `.sql` names among `names`. */
  function SqlFiles(names: seq<string>): seq<string> {
    if names == [] then []
    else (if EndsWith(names[0], SQL) then [names[0]] else []) + SqlFiles(names[1..])
  }

  lemma {:induction false} ParsedAreSqlFiles(names: seq<string>)
    requires Misnamed(names) == []
    ensures Names(Parsed(names)) == SqlFiles(names)
    ensures forall p :: p in Parsed(names) ==> NumberOf(p.name) == Some(p.number)
  {
    if names != [] {
      ParsedAreSqlFiles(names[1..]);
      assert Parsed(names)[|Parsed(names)| - |Parsed(names[1..])|..] == Parsed(names[1..]);
    }
  }

  lemma {:induction false} NamesInsert(p: Numbered, files: seq<Numbered>)
    ensures multiset(Names(Sorting.Insert(p, files, NumberedNoLater))) == multiset{p.name} + multiset(Names(files))
  {
    if files == [] || NumberedNoLater(p, files[0]) {
      assert ([p] + files)[1..] == files;
    } else {
      NamesInsert(p, files[1..]);
      var rest := Sorting.Insert(p, files[1..], NumberedNoLater);
      assert ([files[0]] + rest)[1..] == rest;
    }
  }

  lemma {:induction false} NamesSorted(files: seq<Numbered>)
    ensures multiset(Names(Sorting.Sort(files, NumberedNoLater))) == multiset(Names(files))
  {
    if files != [] {
      NamesSorted(files[1..]);
      NamesInsert(files[0], Sorting.Sort(files[1..], NumberedNoLater));
    }
  }

  lemma {:induction false} NamesByIndex(files: seq<Numbered>)
    ensures |Names(files)| == |files|
    ensures forall i :: 0 <= i < |files| ==> Names(files)[i] == files[i].name
  {
    if files != [] {
      NamesByIndex(files[1..]);
    }
  }

  /** The problems named once the files before `index` are judged: all of
      them real, none of those files' left out. */
  ghost predicate FoundTo(sorted: seq<Numbered>, names: seq<string>, index: nat, problems: seq<Problem>) {
    && index <= |sorted|
    && (forall p :: p in problems ==> IsReal(p, names))
    && (forall name :: name in Misnamed(names) ==> NotAMigration(name) in problems)
    && JudgedTo(sorted, index, problems)
    && (problems == [] ==> InNumberOrder(sorted[..index]) && NoneShared(sorted, index))
  }

  lemma FoundOneMore(sorted: seq<Numbered>, names: seq<string>, index: nat, problems: seq<Problem>)
    requires index < |sorted| && SameFiles(sorted, names) && FoundTo(sorted, names, index, problems)
    requires index == 0 || sorted[index - 1].number != sorted[index].number
    ensures FoundTo(sorted, names, index + 1, problems + ProblemsAt(sorted, index))
  {
    var more := ProblemsAt(sorted, index);
    NamedStays(problems, more);
    GapIsReal(sorted, index, names);
    SharedIsReal(sorted, sorted[index].number, names);
    JudgedOneMore(sorted, index, problems);
    if problems == [] && more == [] {
      InOrderOneMore(sorted, index);
    }
  }

  lemma InOrderOneMore(sorted: seq<Numbered>, index: nat)
    requires index < |sorted| && InNumberOrder(sorted[..index]) && NoneShared(sorted, index)
    requires ProblemsAt(sorted, index) == []
    ensures InNumberOrder(sorted[..index + 1]) && NoneShared(sorted, index + 1)
  {
    var n := sorted[index].number;
    assert GapProblem(n, Expected(sorted, index), sorted[index].name) == [] && SharedProblem(n, Using(sorted, n)) == [];
    assert index > 0 ==> sorted[..index][index - 1].number == index;
  }

  lemma FoundSkip(sorted: seq<Numbered>, names: seq<string>, index: nat, problems: seq<Problem>)
    requires 0 < index < |sorted| && FoundTo(sorted, names, index, problems)
    requires sorted[index - 1].number == sorted[index].number
    ensures FoundTo(sorted, names, index + 1, problems)
    ensures Expected(sorted, index + 1) == Expected(sorted, index)
  {
    JudgedSkip(sorted, index, problems);
  }

  /** The loop over the sorted files, from the problems of the names. A file
      that repeats the number before it was named there. */
  method JudgeAll(sorted: seq<Numbered>, first: seq<Problem>, ghost names: seq<string>)
    returns (problems: seq<Problem>, expected: nat)
    requires Judging(sorted, names, 0, first, 1)
    ensures Judging(sorted, names, |sorted|, problems, expected)
  {
    problems, expected := first, 1;
    for i := 0 to |sorted|
      invariant Judging(sorted, names, i, problems, expected)
    {
      problems, expected := JudgeNext(sorted, i, problems, expected, names);
    }
  }

  method JudgeNext(sorted: seq<Numbered>, i: nat, before: seq<Problem>, least: nat, ghost names: seq<string>)
    returns (problems: seq<Problem>, expected: nat)
    requires i < |sorted| && Judging(sorted, names, i, before, least)
    ensures Judging(sorted, names, i + 1, problems, expected)
  {
    var n := sorted[i].number;
    if i > 0 && sorted[i - 1].number == n {
      JudgingSkips(sorted, names, i, before, least);
      return before, least;
    }
    JudgingGoesOn(sorted, names, i, before, least);
    problems := before + (SharedProblem(n, Using(sorted, n)) + GapProblem(n, least, sorted[i].name));
    expected := if n + 1 > least then n + 1 else least;
  }

  /** Where the loop is before the file at `index`. */
  ghost predicate Judging(sorted: seq<Numbered>, names: seq<string>, index: nat, problems: seq<Problem>,
                          expected: nat) {
    SameFiles(sorted, names) && FoundTo(sorted, names, index, problems) && expected == Expected(sorted, index)
  }

  lemma JudgingSkips(sorted: seq<Numbered>, names: seq<string>, index: nat, problems: seq<Problem>, expected: nat)
    requires 0 < index < |sorted| && sorted[index - 1].number == sorted[index].number
    requires Judging(sorted, names, index, problems, expected)
    ensures Judging(sorted, names, index + 1, problems, expected)
  {
    FoundSkip(sorted, names, index, problems);
  }

  lemma JudgingGoesOn(sorted: seq<Numbered>, names: seq<string>, index: nat, problems: seq<Problem>, expected: nat)
    requires index < |sorted| && (index == 0 || sorted[index - 1].number != sorted[index].number)
    requires Judging(sorted, names, index, problems, expected)
    ensures var n := sorted[index].number;
      Judging(sorted, names, index + 1,
              problems + (SharedProblem(n, Using(sorted, n)) + GapProblem(n, expected, sorted[index].name)),
              if n + 1 > expected then n + 1 else expected)
  {
    FoundOneMore(sorted, names, index, problems);
    assert index > 0 ==> sorted[index - 1].number <= sorted[index].number;
  }

  ghost predicate NoneShared(sorted: seq<Numbered>, upto: nat) {
    forall j :: 0 <= j < upto <= |sorted| ==> |Using(sorted, sorted[j].number)| <= 1
  }

  /** The `.sql` files in order of their number, when they are exactly one for
      each of 1 to some number; otherwise every problem they have, and no
      other. */
  method OrderedFiles(names: seq<string>) returns (r: Result<seq<string>, seq<Problem>>)
    ensures IsAnswer(r, names)
    ensures r.Ok? <==> exists k :: NumberedTo(names, k)
  {
    var numbered, problems := Collected(names);
    var sorted := Sorting.Sort(numbered, NumberedNoLater);
    JudgingStarts(names, problems);
    var after;
    problems, after := JudgeAll(sorted, problems, names);
    AnswerIsRight(names, problems, after);
    r := if problems == [] then Ok(Names(sorted)) else Err(problems);
  }

  lemma JudgingStarts(names: seq<string>, problems: seq<Problem>)
    requires forall p :: p in problems <==> p.NotAMigration? && p.name in Misnamed(names)
    ensures Judging(Sorting.Sort(Parsed(names), NumberedNoLater), names, 0, problems, 1)
  {
    SortedHolds(names);
  }

  ghost predicate IsAnswer(r: Result<seq<string>, seq<Problem>>, names: seq<string>) {
    match r
    case Ok(files) =>
      && NumberedTo(names, |files|) && multiset(files) == multiset(SqlFiles(names))
      && forall i :: 0 <= i < |files| ==> NumberOf(files[i]) == Some(i + 1)
    case Err(problems) =>
      && problems != [] && (forall k :: !NumberedTo(names, k))
      && NamesAll(problems, names) && forall p :: p in problems ==> IsReal(p, names)
  }

  lemma AnswerIsRight(names: seq<string>, problems: seq<Problem>, expected: nat)
    requires var sorted := Sorting.Sort(Parsed(names), NumberedNoLater);
      Judging(sorted, names, |sorted|, problems, expected)
    ensures var sorted := Sorting.Sort(Parsed(names), NumberedNoLater);
      IsAnswer(if problems == [] then Ok(Names(sorted)) else Err(problems), names)
  {
    var sorted := Sorting.Sort(Parsed(names), NumberedNoLater);
    if problems == [] {
      NoneFound(sorted, names);
      NothingWrong(names);
    } else {
      SomethingWrong(sorted, names, problems);
    }
  }

  lemma NoneFound(sorted: seq<Numbered>, names: seq<string>)
    requires FoundTo(sorted, names, |sorted|, [])
    ensures InNumberOrder(sorted) && NoneShared(sorted, |sorted|) && forall name :: name !in Misnamed(names)
  {
    assert sorted[..|sorted|] == sorted;
  }

  /** A set of files is numbered 1 to one number only. */
  lemma NumberedOnce(names: seq<string>, k: nat, m: nat)
    requires NumberedTo(names, k) && NumberedTo(names, m)
    ensures k == m
  {
    UsingHasMember(Parsed(names), k);
    UsingHasMember(Parsed(names), m);
  }

  lemma SomethingWrong(sorted: seq<Numbered>, names: seq<string>, problems: seq<Problem>)
    requires SameFiles(sorted, names) && FoundTo(sorted, names, |sorted|, problems) && problems != []
    ensures NamesAll(problems, names) && forall p :: p in problems ==> IsReal(p, names)
    ensures forall k :: !NumberedTo(names, k)
  {
    NamesAllAtEnd(sorted, names, problems);
    var p := problems[0];
    assert p in problems && IsReal(p, names);
    forall k ensures !NumberedTo(names, k) {
      if NumberedTo(names, k) {
        NumberedHasNoProblem(names, k, p);
      }
    }
  }

  lemma NothingWrong(names: seq<string>)
    requires var sorted := Sorting.Sort(Parsed(names), NumberedNoLater);
      InNumberOrder(sorted) && NoneShared(sorted, |sorted|)
    requires forall name :: name !in Misnamed(names)
    ensures var sorted := Sorting.Sort(Parsed(names), NumberedNoLater);
      && NumberedTo(names, |Names(sorted)|)
      && multiset(Names(sorted)) == multiset(SqlFiles(names))
      && forall i :: 0 <= i < |Names(sorted)| ==> NumberOf(Names(sorted)[i]) == Some(i + 1)
  {
    var sorted := Sorting.Sort(Parsed(names), NumberedNoLater);
    assert Misnamed(names) == [] by {
      assert Misnamed(names) != [] ==> Misnamed(names)[0] in Misnamed(names);
    }
    SortedHolds(names);
    InOrderIsNumbered(sorted, names);
    ParsedAreSqlFiles(names);
    NamesSorted(Parsed(names));
    NamesByIndex(sorted);
    NamesHaveNumbers(sorted);
  }

  lemma NamesHaveNumbers(sorted: seq<Numbered>)
    requires InNumberOrder(sorted) && forall p :: p in sorted ==> NumberOf(p.name) == Some(p.number)
    ensures forall i :: 0 <= i < |Names(sorted)| ==> NumberOf(Names(sorted)[i]) == Some(i + 1)
  {
    NamesByIndex(sorted);
    forall i | 0 <= i < |Names(sorted)| ensures NumberOf(Names(sorted)[i]) == Some(i + 1) {
      assert sorted[i] in sorted;
    }
  }

  lemma SortedHolds(names: seq<string>)
    ensures var sorted := Sorting.Sort(Parsed(names), NumberedNoLater);
      SameFiles(sorted, names) && multiset(sorted) == multiset(Parsed(names))
  {
    NumberedOrderIsTotal();
    Sorting.SortSorts(Parsed(names), NumberedNoLater);
    Sorting.SortKeepsElements(Parsed(names), NumberedNoLater);
    forall n
      ensures multiset(Using(Sorting.Sort(Parsed(names), NumberedNoLater), n)) == multiset(Using(Parsed(names), n))
    {
      UsingSorted(Parsed(names), n);
    }
    var sorted := Sorting.Sort(Parsed(names), NumberedNoLater);
    forall i, j | 0 <= i < j < |sorted| ensures sorted[i].number <= sorted[j].number {
      assert NumberedNoLater(sorted[i], sorted[j]);
    }
  }

  /** Files that are not `.sql` are not migrations: they make no difference. */
  lemma {:induction false} OtherFilesDoNotMatter(names: seq<string>, other: string, at: nat)
    requires at <= |names| && !EndsWith(other, SQL)
    ensures Parsed(names[..at] + [other] + names[at..]) == Parsed(names)
    ensures Misnamed(names[..at] + [other] + names[at..]) == Misnamed(names)
    ensures SqlFiles(names[..at] + [other] + names[at..]) == SqlFiles(names)
  {
    var more := names[..at] + [other] + names[at..];
    if at == 0 {
      assert more[1..] == names;
    } else {
      OtherFilesDoNotMatter(names[1..], other, at - 1);
      assert more[1..] == names[1..][..at - 1] + [other] + names[1..][at - 1..];
    }
  }

  /** So the answer is the same with them and without. */
  lemma OtherFilesSameAnswer(names: seq<string>, other: string, at: nat, r: Result<seq<string>, seq<Problem>>)
    requires at <= |names| && !EndsWith(other, SQL)
    ensures IsAnswer(r, names[..at] + [other] + names[at..]) <==> IsAnswer(r, names)
  {
    OtherFilesDoNotMatter(names, other, at);
    SameAnswer(r, names[..at] + [other] + names[at..], names);
  }

  lemma SameAnswer(r: Result<seq<string>, seq<Problem>>, names: seq<string>, others: seq<string>)
    requires Parsed(names) == Parsed(others) && Misnamed(names) == Misnamed(others)
    requires SqlFiles(names) == SqlFiles(others)
    ensures IsAnswer(r, names) <==> IsAnswer(r, others)
  {
    forall k ensures NumberedTo(names, k) <==> NumberedTo(others, k) {
    }
    match r
    case Ok(_) =>
    case Err(problems) => SameProblems(problems, names, others);
  }

  lemma SameProblems(problems: seq<Problem>, names: seq<string>, others: seq<string>)
    requires Parsed(names) == Parsed(others) && Misnamed(names) == Misnamed(others)
    ensures NamesAll(problems, names) <==> NamesAll(problems, others)
    ensures (forall p :: p in problems ==> IsReal(p, names)) <==> (forall p :: p in problems ==> IsReal(p, others))
  {
    forall p ensures IsReal(p, names) <==> IsReal(p, others) {
    }
  }
}
