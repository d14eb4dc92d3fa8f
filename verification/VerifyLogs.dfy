/** The logs of `integrate`'s verification commands and the attempt the next
    landing writes under. */
module VerifyLogs {
  import opened Outcomes
  import opened Sequences
  import opened Text
  import Sorting

  const U32_MAX := 4_294_967_295
  const USIZE_MAX := 18_446_744_073_709_551_615

  const PREFIX := "integrate-"
  const MIDDLE := "-verify-"
  const UNNUMBERED := "verify-"
  const SUFFIX := ".log"

  /** Where attempt `attempt` writes the log of its `index`th command. */
  function LogName(attempt: nat, index: nat): string {
    PREFIX + Decimal(attempt) + MIDDLE + Decimal(index) + SUFFIX
  }

  /** An unsigned number as Rust parses one: digits, an optional `+` before
      them, no more than `max`. */
  function ParseUnsigned(s: string, max: nat): Option<nat> {
    var digits := if s != [] && s[0] == '+' then s[1..] else s;
    if digits == [] || !AllDigits(digits) || Number(digits) > max then None else Some(Number(digits))
  }

  function StripPrefix(s: string, prefix: string): Option<string> {
    if StartsWith(s, prefix) then Some(s[|prefix|..]) else None
  }

  function StripSuffix(s: string, suffix: string): Option<string> {
    if EndsWith(s, suffix) then Some(s[..|s| - |suffix|]) else None
  }

  /** What is before and after the first occurrence of `separator`. */
  function SplitOnce(s: string, separator: string): Option<(string, string)> {
    if StartsWith(s, separator) then Some(("", s[|separator|..]))
    else if s == [] then None
    else match SplitOnce(s[1..], separator)
      case None => None
      case Some((before, after)) => Some(([s[0]] + before, after))
  }

  datatype LogKey = LogKey(attempt: nat, index: nat)

  /** The key in a log's name without its prefix and suffix. */
  function KeyOfStem(stem: string): (key: Option<LogKey>)
    ensures key.Some? ==> key.value.attempt <= U32_MAX && key.value.index <= USIZE_MAX
  {
    if StartsWith(stem, UNNUMBERED) then
      var index := ParseUnsigned(stem[|UNNUMBERED|..], USIZE_MAX);
      if index.None? then None else Some(LogKey(0, index.value))
    else
      var parts := SplitOnce(stem, MIDDLE);
      if parts.None? then None else
      var attempt := ParseUnsigned(parts.value.0, U32_MAX);
      var index := ParseUnsigned(parts.value.1, USIZE_MAX);
      if attempt.None? || index.None? then None else Some(LogKey(attempt.value, index.value))
  }

  /** The attempt and index in a log's file name; the name used before
      attempts were counted is attempt 0. */
  function KeyOf(name: string): (key: Option<LogKey>)
    ensures key.Some? ==> key.value.attempt <= U32_MAX && key.value.index <= USIZE_MAX
  {
    var rest := StripPrefix(name, PREFIX);
    if rest.None? then None else
    var stem := StripSuffix(rest.value, SUFFIX);
    if stem.None? then None else
    KeyOfStem(stem.value)
  }

  lemma {:induction false} SplitAfterDigits(digits: string, rest: string)
    requires AllDigits(digits)
    ensures SplitOnce(digits + MIDDLE + rest, MIDDLE) == Some((digits, rest))
  {
    var s := digits + MIDDLE + rest;
    if digits == [] {
      assert s == MIDDLE + rest;
    } else {
      assert s[0] == digits[0] != MIDDLE[0];
      assert s[1..] == digits[1..] + MIDDLE + rest;
      SplitAfterDigits(digits[1..], rest);
      assert digits == [digits[0]] + digits[1..];
    }
  }

  lemma DecimalParses(n: nat, max: nat)
    requires n <= max
    ensures ParseUnsigned(Decimal(n), max) == Some(n)
  {
    NumberOfPadded(n, 1);
    assert IsDigit(Decimal(n)[0]);
  }

  /** The key of a written name is what it was written for. */
  lemma KeyOfLogName(attempt: nat, index: nat)
    requires attempt <= U32_MAX && index <= USIZE_MAX
    ensures KeyOf(LogName(attempt, index)) == Some(LogKey(attempt, index))
  {
    var a, i := Decimal(attempt), Decimal(index);
    var name := LogName(attempt, index);
    var stem := a + MIDDLE + i;
    assert name == PREFIX + (stem + SUFFIX);
    assert name[|PREFIX|..] == stem + SUFFIX;
    assert (stem + SUFFIX)[..|stem|] == stem;
    assert IsDigit(stem[0]) && UNNUMBERED[0] == 'v';
    assert !StartsWith(stem, UNNUMBERED) by {
      assert |stem| >= |UNNUMBERED| ==> stem[..|UNNUMBERED|][0] == stem[0];
    }
    SplitAfterDigits(a, i);
    DecimalParses(attempt, U32_MAX);
    DecimalParses(index, USIZE_MAX);
  }

  // ----- The next attempt -----

  /** The highest attempt among the names that are logs. */
  function Highest(names: seq<string>): Option<nat> {
    if names == [] then None
    else
      var rest := Highest(names[1..]);
      match KeyOf(names[0])
      case None => rest
      case Some(key) => if rest.Some? && rest.value >= key.attempt then rest else Some(key.attempt)
  }

  /** The names of a directory; none when it cannot be read. */
  function NamesIn(dir: Option<seq<string>>): seq<string> {
    if dir.None? then [] else dir.value
  }

  /** One past the highest attempt, 1 when there is none. The sum is a `u32`,
      which a release build wraps. */
  function NextAttempt(dir: Option<seq<string>>): nat {
    Following(Highest(NamesIn(dir)))
  }

  function Following(highest: Option<nat>): nat {
    match highest
    case None => 1
    case Some(n) => (n + 1) % (U32_MAX + 1)
  }

  /** The attempts the names are logs of. */
  ghost function Attempts(names: seq<string>): set<nat> {
    if names == [] then {}
    else (if KeyOf(names[0]).Some? then {KeyOf(names[0]).value.attempt} else {}) + Attempts(names[1..])
  }

  lemma {:induction false} AttemptsOfNames(names: seq<string>, name: string)
    requires name in names && KeyOf(name).Some?
    ensures KeyOf(name).value.attempt in Attempts(names)
  {
    if name != names[0] {
      AttemptsOfNames(names[1..], name);
    }
  }

  lemma {:induction false} HighestIsHighest(names: seq<string>)
    ensures Highest(names).None? <==> Attempts(names) == {}
    ensures Highest(names).Some? ==> Highest(names).value in Attempts(names)
    ensures forall a :: a in Attempts(names) ==> a <= Highest(names).value <= U32_MAX
  {
    if names != [] {
      HighestIsHighest(names[1..]);
    }
  }

  lemma FollowingIsPast(highest: Option<nat>, attempts: set<nat>)
    requires highest.None? <==> attempts == {}
    requires highest.Some? ==> highest.value in attempts
    requires forall a :: a in attempts ==> highest.Some? && a <= highest.value <= U32_MAX
    ensures (forall a :: a in attempts ==> a < Following(highest)) <==> U32_MAX !in attempts
    ensures U32_MAX !in attempts ==> 1 <= Following(highest) <= U32_MAX
    ensures 1 in attempts ==> Following(highest) != 1
    ensures highest.Some? && highest.value < U32_MAX ==> Following(highest) == highest.value + 1
  {
  }

  /** What is read of a directory that holds `names`: all of them, or nothing
      when it cannot be read. */
  predicate ReadsAs(dir: Option<seq<string>>, names: seq<string>) {
    dir.Some? ==> dir.value == names
  }

  /** The next attempt is past every attempt present exactly when the directory
      can be read and none of them is the last a `u32` holds, or it cannot and
      there is none but attempt 0. */
  lemma NextAttemptIsPastAll(dir: Option<seq<string>>, names: seq<string>)
    requires ReadsAs(dir, names)
    ensures (forall a :: a in Attempts(names) ==> a < NextAttempt(dir)) <==>
      if dir.Some? then U32_MAX !in Attempts(names) else forall a :: a in Attempts(names) ==> a == 0
    ensures U32_MAX !in Attempts(names) ==> 1 <= NextAttempt(dir) <= U32_MAX
  {
    if dir.Some? {
      HighestIsHighest(names);
      FollowingIsPast(Highest(names), Attempts(names));
    } else {
      FirstAttempt();
    }
  }

  lemma FirstAttempt()
    ensures NextAttempt(None) == 1
  {
  }

  /** Which attempt comes next where the sum wraps. */
  lemma NextAttemptWraps(names: seq<string>)
    ensures U32_MAX in Attempts(names) ==> NextAttempt(Some(names)) == 0
  {
    HighestIsHighest(names);
    if U32_MAX in Attempts(names) {
      assert Highest(names) == Some(U32_MAX);
    }
  }

  lemma NextLogIsFresh(names: seq<string>, index: nat)
    requires U32_MAX !in Attempts(names) && index <= USIZE_MAX
    ensures LogName(NextAttempt(Some(names)), index) !in names
  {
    var name := LogName(NextAttempt(Some(names)), index);
    NextAttemptIsPastAll(Some(names), names);
    KeyOfLogName(NextAttempt(Some(names)), index);
    if name in names {
      AttemptsOfNames(names, name);
    }
  }

  /** A log is written over exactly when the directory cannot be read and the
      first attempt's log is there, or the last attempt a `u32` holds is there
      and so is the log of attempt 0. */
  lemma LogIsWrittenOver(dir: Option<seq<string>>, names: seq<string>, index: nat)
    requires ReadsAs(dir, names) && index <= USIZE_MAX
    ensures LogName(NextAttempt(dir), index) in names <==>
      || (dir.None? && LogName(1, index) in names)
      || (dir.Some? && U32_MAX in Attempts(names) && LogName(0, index) in names)
  {
    if dir.None? {
      FirstAttempt();
    } else if U32_MAX in Attempts(names) {
      NextAttemptWraps(names);
    } else {
      NextLogIsFresh(names, index);
    }
  }

  /** A directory that cannot be read counts as empty: the next attempt is the
      first again, whatever logs are there. */
  lemma UnreadableStartsOver(names: seq<string>, index: nat)
    requires index <= USIZE_MAX && LogName(1, index) in names
    ensures NextAttempt(None) == 1 && LogName(NextAttempt(None), index) in names
    ensures NextAttempt(Some(names)) != 1
  {
    KeyOfLogName(1, index);
    AttemptsOfNames(names, LogName(1, index));
    HighestIsHighest(names);
    FollowingIsPast(Highest(names), Attempts(names));
    FirstAttempt();
  }

  /** A log of the last attempt a `u32` holds: the next attempt is not past
      it. */
  lemma LastAttemptWraps()
    ensures NextAttempt(Some([LogName(U32_MAX, 1)])) == 0
  {
    AttemptAfter(U32_MAX);
  }

  lemma AttemptAfter(attempt: nat)
    requires attempt <= U32_MAX
    ensures NextAttempt(Some([LogName(attempt, 1)])) == Following(Some(attempt))
  {
    HighestOfOne(attempt);
  }

  lemma HighestOfOne(attempt: nat)
    requires attempt <= U32_MAX
    ensures Highest([LogName(attempt, 1)]) == Some(attempt)
  {
    var name := LogName(attempt, 1);
    KeyOfLogName(attempt, 1);
    assert [name][1..] == [];
  }

  /** A log of the first attempt in a directory that cannot be read is written
      over. */
  lemma FirstLogIsWrittenOver()
    ensures LogName(NextAttempt(None), 1) in [LogName(1, 1)] && NextAttempt(Some([LogName(1, 1)])) == 2
  {
    AttemptAfter(1);
    assert Following(Some(1)) == 2;
    FirstAttempt();
    assert [LogName(1, 1)][0] == LogName(NextAttempt(None), 1);
  }

  /** Beside a log of the last attempt a `u32` holds, one of attempt 0 is
      written over. */
  lemma ZerothLogIsWrittenOver()
    ensures var names := [LogName(U32_MAX, 1), LogName(0, 1)]; LogName(NextAttempt(Some(names)), 1) in names
  {
    var names := [LogName(U32_MAX, 1), LogName(0, 1)];
    KeyOfLogName(U32_MAX, 1);
    AttemptsOfNames(names, LogName(U32_MAX, 1));
    LogIsWrittenOver(Some(names), names, 1);
  }

  // ----- Any history of attempts -----

  /** The logs of one attempt's first `count` commands. */
  function AttemptLogs(attempt: nat, count: nat): seq<string> {
    if count == 0 then [] else AttemptLogs(attempt, count - 1) + [LogName(attempt, count)]
  }

  /** One attempt: whether the directory could be read when it began, and how
      many commands it ran. */
  datatype Round = Round(readable: bool, count: nat)

  function LogsOf(names: seq<string>, round: Round): seq<string> {
    AttemptLogs(NextAttempt(if round.readable then Some(names) else None), round.count)
  }

  /** Every log path written by attempts, on a directory that holds `names`. */
  function Written(names: seq<string>, rounds: seq<Round>): seq<string>
    decreases |rounds|
  {
    if rounds == [] then []
    else
      var logs := LogsOf(names, rounds[0]);
      logs + Written(names + logs, rounds[1..])
  }

  /** The attempts that cannot read the directory find no log there of the
      first attempt that they would write. */
  ghost predicate NoneInTheWay(names: seq<string>, rounds: seq<Round>)
    decreases |rounds|
  {
    rounds != [] ==>
      && (rounds[0].readable || forall i: nat :: 1 <= i <= rounds[0].count ==> LogName(1, i) !in names)
      && NoneInTheWay(names + LogsOf(names, rounds[0]), rounds[1..])
  }

  lemma {:induction false} AttemptLogsAre(attempt: nat, count: nat)
    ensures |AttemptLogs(attempt, count)| == count
    ensures forall i :: 0 <= i < count ==> AttemptLogs(attempt, count)[i] == LogName(attempt, i + 1)
  {
    if count > 0 {
      AttemptLogsAre(attempt, count - 1);
    }
  }

  lemma LogNamesDiffer(attempt: nat, i: nat, j: nat)
    requires attempt <= U32_MAX && i < j <= USIZE_MAX
    ensures LogName(attempt, i) != LogName(attempt, j)
  {
    KeyOfLogName(attempt, i);
    KeyOfLogName(attempt, j);
  }

  lemma AttemptLogsDiffer(attempt: nat, count: nat)
    requires attempt <= U32_MAX && count <= USIZE_MAX
    ensures Distinct(AttemptLogs(attempt, count))
  {
    AttemptLogsAre(attempt, count);
    forall i, j | 0 <= i < j < count ensures AttemptLogs(attempt, count)[i] != AttemptLogs(attempt, count)[j] {
      LogNamesDiffer(attempt, i + 1, j + 1);
    }
  }

  lemma LogIsFresh(names: seq<string>, round: Round, i: nat)
    requires U32_MAX !in Attempts(names) && round.count <= USIZE_MAX && 1 <= i <= round.count
    ensures |LogsOf(names, round)| == round.count
    ensures LogsOf(names, round)[i - 1] !in names <==> round.readable || LogName(1, i) !in names
  {
    var dir := if round.readable then Some(names) else None;
    AttemptLogsAre(NextAttempt(dir), round.count);
    LogIsWrittenOver(dir, names, i);
  }

  lemma LogsAreFresh(names: seq<string>, round: Round)
    requires U32_MAX !in Attempts(names) && round.count <= USIZE_MAX
    ensures (forall name :: name in LogsOf(names, round) ==> name !in names) <==>
      round.readable || forall i: nat :: 1 <= i <= round.count ==> LogName(1, i) !in names
  {
    var logs := LogsOf(names, round);
    AttemptLogsAre(NextAttempt(if round.readable then Some(names) else None), round.count);
    if forall name :: name in logs ==> name !in names {
      forall i: nat | 1 <= i <= round.count ensures round.readable || LogName(1, i) !in names {
        LogIsFresh(names, round, i);
        assert logs[i - 1] in logs;
      }
    }
    if round.readable || forall i: nat :: 1 <= i <= round.count ==> LogName(1, i) !in names {
      forall k | 0 <= k < |logs| ensures logs[k] !in names {
        LogIsFresh(names, round, k + 1);
      }
    }
  }

  lemma {:induction false} AttemptsAppended(names: seq<string>, more: seq<string>)
    ensures Attempts(names + more) == Attempts(names) + Attempts(more)
  {
    if names == [] {
      assert names + more == more;
    } else {
      assert (names + more)[1..] == names[1..] + more;
      AttemptsAppended(names[1..], more);
    }
  }

  lemma AttemptsOfOne(name: string)
    ensures Attempts([name]) == if KeyOf(name).Some? then {KeyOf(name).value.attempt} else {}
  {
    assert Attempts([name][1..]) == {};
  }

  lemma {:induction false} AttemptsOfLogs(attempt: nat, count: nat)
    requires attempt <= U32_MAX && count <= USIZE_MAX
    ensures Attempts(AttemptLogs(attempt, count)) <= {attempt}
  {
    if count > 0 {
      AttemptsOfLogs(attempt, count - 1);
      KeyOfLogName(attempt, count);
      AttemptsAppended(AttemptLogs(attempt, count - 1), [LogName(attempt, count)]);
      AttemptsOfOne(LogName(attempt, count));
    }
  }

  /** The attempts present after one more. */
  lemma RoundWithin(names: seq<string>, round: Round, highest: nat)
    requires (forall a :: a in Attempts(names) ==> a <= highest) && highest < U32_MAX && round.count <= USIZE_MAX
    ensures forall a :: a in Attempts(names + LogsOf(names, round)) ==> a <= highest + 1
    ensures Distinct(LogsOf(names, round))
  {
    var dir := if round.readable then Some(names) else None;
    NextAttemptWithin(dir, names, highest);
    AttemptLogsDiffer(NextAttempt(dir), round.count);
    AttemptsAppended(names, LogsOf(names, round));
    AttemptsOfLogs(NextAttempt(dir), round.count);
  }

  /** Nothing written is there already, and nothing is written twice. */
  ghost predicate NoLogIsLost(names: seq<string>, written: seq<string>) {
    Distinct(written) && forall name :: name in written ==> name !in names
  }

  /** Over any history of attempts a `u32` can number, no log is written over
      exactly when none is in the way of an attempt that cannot read the
      directory. */
  lemma {:induction false} NoLogIsOverwritten(names: seq<string>, rounds: seq<Round>, highest: nat)
    requires (forall a :: a in Attempts(names) ==> a <= highest) && highest + |rounds| <= U32_MAX
    requires forall i :: 0 <= i < |rounds| ==> rounds[i].count <= USIZE_MAX
    ensures NoLogIsLost(names, Written(names, rounds)) <==> NoneInTheWay(names, rounds)
    decreases |rounds|
  {
    if rounds != [] {
      var logs := LogsOf(names, rounds[0]);
      LogsAreFresh(names, rounds[0]);
      RoundWithin(names, rounds[0], highest);
      NoLogIsOverwritten(names + logs, rounds[1..], highest + 1);
      LostInParts(names, logs, Written(names + logs, rounds[1..]));
    }
  }

  lemma LostInParts(names: seq<string>, logs: seq<string>, rest: seq<string>)
    requires Distinct(logs)
    ensures NoLogIsLost(names, logs + rest) <==>
      (forall name :: name in logs ==> name !in names) && NoLogIsLost(names + logs, rest)
  {
    var all := logs + rest;
    assert forall name :: name in all <==> name in logs || name in rest;
    if (forall name :: name in logs ==> name !in names) && NoLogIsLost(names + logs, rest) {
      DistinctTogether(logs, rest);
    }
    if NoLogIsLost(names, all) {
      TailIsDistinct(logs, rest);
    }
  }

  lemma TailIsDistinct(logs: seq<string>, rest: seq<string>)
    requires Distinct(logs + rest)
    ensures Distinct(rest) && forall name :: name in rest ==> name !in logs
  {
    var all := logs + rest;
    forall i, j | 0 <= i < |logs| && 0 <= j < |rest| ensures logs[i] != rest[j] {
      assert all[i] == logs[i] && all[|logs| + j] == rest[j];
    }
    forall i, j | 0 <= i < j < |rest| ensures rest[i] != rest[j] {
      assert all[|logs| + i] == rest[i] && all[|logs| + j] == rest[j];
    }
  }

  lemma NextAttemptWithin(dir: Option<seq<string>>, names: seq<string>, highest: nat)
    requires ReadsAs(dir, names) && (forall a :: a in Attempts(names) ==> a <= highest) && highest < U32_MAX
    ensures 1 <= NextAttempt(dir) <= highest + 1
  {
    if dir.None? {
      FirstAttempt();
    } else {
      HighestIsHighest(names);
      FollowingIsPast(Highest(names), Attempts(names));
    }
  }

  // ----- The latest attempt and the earlier ones -----

  datatype LogFile = LogFile(attempt: nat, index: nat, name: string)

  predicate FileNoLater(f: LogFile, g: LogFile) {
    if f.attempt != g.attempt then f.attempt < g.attempt
    else if f.index != g.index then f.index < g.index
    else NoLater(f.name, g.name)
  }

  function Keyed(names: seq<string>): seq<LogFile> {
    if names == [] then []
    else
      (if KeyOf(names[0]).Some? then [LogFile(KeyOf(names[0]).value.attempt, KeyOf(names[0]).value.index, names[0])]
       else [])
      + Keyed(names[1..])
  }

  function WithAttempt(files: seq<LogFile>, attempt: nat, same: bool): seq<LogFile> {
    if files == [] then []
    else (if (files[0].attempt == attempt) == same then [files[0]] else []) + WithAttempt(files[1..], attempt, same)
  }

  lemma FileOrderIsTotal()
    ensures Sorting.TotalPreorder(FileNoLater)
  {
    forall f, g ensures FileNoLater(f, g) || FileNoLater(g, f) {
      NoLaterTotal(f.name, g.name, g.name);
    }
    forall f, g, h | FileNoLater(f, g) && FileNoLater(g, h) ensures FileNoLater(f, h) {
      NoLaterTotal(f.name, g.name, h.name);
    }
  }

  lemma {:induction false} PartitionKeeps(files: seq<LogFile>, attempt: nat)
    ensures multiset(WithAttempt(files, attempt, true)) + multiset(WithAttempt(files, attempt, false)) ==
      multiset(files)
    ensures forall f :: f in WithAttempt(files, attempt, true) <==> f in files && f.attempt == attempt
    ensures forall f :: f in WithAttempt(files, attempt, false) <==> f in files && f.attempt != attempt
  {
    if files != [] {
      PartitionKeeps(files[1..], attempt);
      assert files == [files[0]] + files[1..];
    }
  }

  lemma {:induction false} PartitionKeepsOrder(files: seq<LogFile>, attempt: nat, same: bool)
    requires Sorting.Ordered(files, FileNoLater)
    ensures Sorting.Ordered(WithAttempt(files, attempt, same), FileNoLater)
  {
    if files != [] {
      PartitionKeepsOrder(files[1..], attempt, same);
      PartitionIsLater(files, attempt, same);
    }
  }

  lemma PartitionIsLater(files: seq<LogFile>, attempt: nat, same: bool)
    requires files != [] && Sorting.Ordered(files, FileNoLater)
    ensures forall f :: f in WithAttempt(files[1..], attempt, same) ==> FileNoLater(files[0], f)
  {
    PartitionKeeps(files[1..], attempt);
    forall f | f in WithAttempt(files[1..], attempt, same) ensures FileNoLater(files[0], f) {
      var k :| 0 <= k < |files[1..]| && files[1..][k] == f;
      assert files[k + 1] == f;
    }
  }

  /** The recognised logs, sorted and split at the latest attempt: none is
      lost and each part is in order. */
  method IntegrateLogs(names: seq<string>) returns (current: seq<LogFile>, earlier: seq<LogFile>)
    ensures multiset(current) + multiset(earlier) == multiset(Keyed(names))
    ensures Keyed(names) == [] ==> current == [] && earlier == []
    ensures Keyed(names) != [] ==> current != []
    ensures forall f, g :: f in current && g in current ==> f.attempt == g.attempt
    ensures forall f, g :: f in current && g in earlier ==> g.attempt < f.attempt
    ensures Sorting.Ordered(current, FileNoLater) && Sorting.Ordered(earlier, FileNoLater)
  {
    var keyed := Sorting.Sort(Keyed(names), FileNoLater);
    FileOrderIsTotal();
    Sorting.SortSorts(Keyed(names), FileNoLater);
    if keyed == [] {
      assert |multiset(Keyed(names))| == |multiset(keyed)| == 0;
      return [], [];
    }
    var last := keyed[|keyed| - 1];
    current, earlier := WithAttempt(keyed, last.attempt, true), WithAttempt(keyed, last.attempt, false);
    PartitionKeeps(keyed, last.attempt);
    PartitionKeepsOrder(keyed, last.attempt, true);
    PartitionKeepsOrder(keyed, last.attempt, false);
    assert last in keyed && last in current;
    forall g | g in earlier ensures g.attempt < last.attempt {
      LastIsLatest(keyed, g);
    }
  }

  lemma LastIsLatest(files: seq<LogFile>, f: LogFile)
    requires Sorting.Ordered(files, FileNoLater) && f in files
    ensures f.attempt <= files[|files| - 1].attempt
  {
    var k :| 0 <= k < |files| && files[k] == f;
    assert k < |files| - 1 ==> FileNoLater(files[k], files[|files| - 1]);
  }

  /** The files are exactly the names with a key. */
  lemma {:induction false} KeyedAreLogs(names: seq<string>)
    ensures forall f :: f in Keyed(names) <==> f.name in names && KeyOf(f.name) == Some(LogKey(f.attempt, f.index))
  {
    if names != [] {
      KeyedAreLogs(names[1..]);
      assert forall name :: name in names <==> name == names[0] || name in names[1..];
    }
  }
}
