/** What the names and numbers of `integrate`'s verification logs are. */
module LogKeys {
  import opened Outcomes
  import opened Text
  import opened VerifyLogs
  import Sorting

  /** `text` is the number `n`: digits, with or without a `+` before them. */
  ghost predicate IsNumber(text: string, n: nat, max: nat) {
    exists digits ::
      && (text == digits || text == "+" + digits)
      && digits != "" && AllDigits(digits) && Number(digits) == n && n <= max
  }

  /** `name` is a log's name: numbered, or the one from before there were
      attempts, which counts as attempt 0. */
  ghost predicate NamesLog(name: string, key: LogKey) {
    || (key.attempt == 0 && exists index ::
          IsNumber(index, key.index, 0xFFFF_FFFF_FFFF_FFFF) && name == "integrate-verify-" + index + ".log")
    || exists attempt, index ::
         IsNumbered(name, attempt, index, key)
  }

  ghost predicate IsNumbered(name: string, attempt: string, index: string, key: LogKey) {
    && name == "integrate-" + attempt + "-verify-" + index + ".log"
    && IsNumber(attempt, key.attempt, 0xFFFF_FFFF) && IsNumber(index, key.index, 0xFFFF_FFFF_FFFF_FFFF)
  }

  lemma ParseIs(s: string, n: nat, max: nat)
    ensures ParseUnsigned(s, max) == Some(n) <==> IsNumber(s, n, max)
  {
    if ParseUnsigned(s, max) == Some(n) {
      var digits := if s != [] && s[0] == '+' then s[1..] else s;
      assert s == digits || s == "+" + digits;
    }
    forall digits | (s == digits || s == "+" + digits) && digits != "" && AllDigits(digits)
      ensures digits == (if s != [] && s[0] == '+' then s[1..] else s)
    {
      assert IsDigit(digits[0]);
    }
  }

  lemma NumberHasNoDash(s: string, n: nat, max: nat)
    requires IsNumber(s, n, max)
    ensures s != "" && '-' !in s && s[0] != 'v'
  {
    var digits :| (s == digits || s == "+" + digits) && digits != "" && AllDigits(digits);
    assert IsDigit(digits[0]);
    forall i | 0 <= i < |s| ensures s[i] != '-' {
      if s != digits && i > 0 {
        assert s[i] == digits[i - 1];
      }
    }
  }

  lemma {:induction false} SplitOnceParts(s: string, separator: string)
    ensures SplitOnce(s, separator).Some? ==>
      s == SplitOnce(s, separator).value.0 + separator + SplitOnce(s, separator).value.1
  {
    if !StartsWith(s, separator) && s != [] {
      SplitOnceParts(s[1..], separator);
      if SplitOnce(s[1..], separator).Some? {
        var parts := SplitOnce(s[1..], separator).value;
        assert s == [s[0]] + s[1..];
        assert [s[0]] + (parts.0 + separator + parts.1) == ([s[0]] + parts.0) + separator + parts.1;
      }
    } else if StartsWith(s, separator) {
      assert s == "" + separator + s[|separator|..];
    }
  }

  lemma {:induction false} SplitAfterNumber(number: string, rest: string)
    requires '-' !in number
    ensures SplitOnce(number + MIDDLE + rest, MIDDLE) == Some((number, rest))
  {
    var s := number + MIDDLE + rest;
    if number == [] {
      assert s == MIDDLE + rest;
    } else {
      assert s[0] == number[0] != MIDDLE[0];
      assert s[1..] == number[1..] + MIDDLE + rest;
      SplitAfterNumber(number[1..], rest);
      assert number == [number[0]] + number[1..];
    }
  }

  /** The name between the prefix and the suffix. */
  lemma StemOf(name: string, stem: string)
    ensures name == PREFIX + stem + SUFFIX <==>
      && StripPrefix(name, PREFIX).Some?
      && StripSuffix(StripPrefix(name, PREFIX).value, SUFFIX) == Some(stem)
  {
    var rest := StripPrefix(name, PREFIX);
    if name == PREFIX + stem + SUFFIX {
      assert name == PREFIX + (stem + SUFFIX);
      assert name[..|PREFIX|] == PREFIX && name[|PREFIX|..] == stem + SUFFIX;
      assert (stem + SUFFIX)[..|stem|] == stem && (stem + SUFFIX)[|stem|..] == SUFFIX;
    }
  }

  lemma StemKey(name: string, stem: string)
    requires name == PREFIX + stem + SUFFIX
    ensures KeyOf(name) == KeyOfStem(stem)
  {
    StemOf(name, stem);
  }

  ghost predicate UnnumberedStem(stem: string, index: string, key: LogKey) {
    key.attempt == 0 && IsNumber(index, key.index, USIZE_MAX) && stem == UNNUMBERED + index
  }

  ghost predicate NumberedStem(stem: string, attempt: string, index: string, key: LogKey) {
    && stem == attempt + MIDDLE + index
    && IsNumber(attempt, key.attempt, U32_MAX) && IsNumber(index, key.index, USIZE_MAX)
  }

  lemma KeyOfStemIs(stem: string, key: LogKey)
    ensures KeyOfStem(stem) == Some(key) ==>
      (exists index :: UnnumberedStem(stem, index, key)) ||
      exists attempt, index :: NumberedStem(stem, attempt, index, key)
  {
    if KeyOfStem(stem) == Some(key) {
      if StartsWith(stem, UNNUMBERED) {
        ParseIs(stem[|UNNUMBERED|..], key.index, USIZE_MAX);
        assert UnnumberedStem(stem, stem[|UNNUMBERED|..], key);
      } else {
        SplitOnceParts(stem, MIDDLE);
        var parts := SplitOnce(stem, MIDDLE).value;
        ParseIs(parts.0, key.attempt, U32_MAX);
        ParseIs(parts.1, key.index, USIZE_MAX);
        assert NumberedStem(stem, parts.0, parts.1, key);
      }
    }
  }

  lemma UnnumberedHasKey(stem: string, index: string, key: LogKey)
    requires UnnumberedStem(stem, index, key)
    ensures KeyOfStem(stem) == Some(key)
  {
    assert stem[..|UNNUMBERED|] == UNNUMBERED && stem[|UNNUMBERED|..] == index;
    ParseIs(index, key.index, USIZE_MAX);
  }

  lemma NumberedHasKey(stem: string, attempt: string, index: string, key: LogKey)
    requires NumberedStem(stem, attempt, index, key)
    ensures KeyOfStem(stem) == Some(key)
  {
    NumberHasNoDash(attempt, key.attempt, U32_MAX);
    assert stem[0] == attempt[0] != UNNUMBERED[0];
    assert !StartsWith(stem, UNNUMBERED) by {
      assert |stem| >= |UNNUMBERED| ==> stem[..|UNNUMBERED|][0] == stem[0];
    }
    SplitAfterNumber(attempt, index);
    ParseIs(attempt, key.attempt, U32_MAX);
    ParseIs(index, key.index, USIZE_MAX);
  }

  /** A name has a key exactly when it is the name of that log; every other
      name has none. */
  lemma KeyIs(name: string, key: LogKey)
    ensures KeyOf(name) == Some(key) <==> NamesLog(name, key)
  {
    if KeyOf(name) == Some(key) {
      var stem := StripSuffix(StripPrefix(name, PREFIX).value, SUFFIX).value;
      StemOf(name, stem);
      KeyOfStemIs(stem, key);
      StemNames(name, stem, key);
    }
    if NamesLog(name, key) {
      NamedHasKey(name, key);
    }
  }

  lemma StemNames(name: string, stem: string, key: LogKey)
    requires name == PREFIX + stem + SUFFIX
    requires (exists index :: UnnumberedStem(stem, index, key)) ||
      exists attempt, index :: NumberedStem(stem, attempt, index, key)
    ensures NamesLog(name, key)
  {
    if index :| UnnumberedStem(stem, index, key) {
      assert name == "integrate-verify-" + index + ".log";
    } else {
      var attempt, index :| NumberedStem(stem, attempt, index, key);
      assert name == "integrate-" + attempt + "-verify-" + index + ".log";
      assert IsNumbered(name, attempt, index, key);
    }
  }

  lemma NamedHasKey(name: string, key: LogKey)
    requires NamesLog(name, key)
    ensures KeyOf(name) == Some(key)
  {
    if attempt, index :| IsNumbered(name, attempt, index, key) {
      NumberedNameHasKey(name, attempt, index, key);
    } else {
      var index :|
        IsNumber(index, key.index, 0xFFFF_FFFF_FFFF_FFFF) && name == "integrate-verify-" + index + ".log";
      UnnumberedNameHasKey(name, index, key);
    }
  }

  lemma NumberedNameHasKey(name: string, attempt: string, index: string, key: LogKey)
    requires IsNumbered(name, attempt, index, key)
    ensures KeyOf(name) == Some(key)
  {
    var stem := attempt + MIDDLE + index;
    assert name == PREFIX + stem + SUFFIX;
    StemKey(name, stem);
    assert NumberedStem(stem, attempt, index, key);
    NumberedHasKey(stem, attempt, index, key);
  }

  lemma UnnumberedNameHasKey(name: string, index: string, key: LogKey)
    requires key.attempt == 0 && IsNumber(index, key.index, USIZE_MAX) && name == "integrate-verify-" + index + ".log"
    ensures KeyOf(name) == Some(key)
  {
    var stem := UNNUMBERED + index;
    assert "integrate-verify-" == PREFIX + UNNUMBERED;
    assert name == PREFIX + stem + SUFFIX;
    StemKey(name, stem);
    assert UnnumberedStem(stem, index, key);
    UnnumberedHasKey(stem, index, key);
  }

  // ----- Numbers -----

  lemma {:induction false} AttemptsAre(names: seq<string>)
    ensures forall a :: a in Attempts(names) <==>
      exists name :: name in names && KeyOf(name).Some? && KeyOf(name).value.attempt == a
  {
    if names != [] {
      AttemptsAre(names[1..]);
      assert forall name :: name in names <==> name == names[0] || name in names[1..];
    }
  }

  /** `key` is that of a log among the names whose attempt no other log's
      exceeds. */
  ghost predicate IsLatest(names: seq<string>, name: string, key: LogKey) {
    && name in names && NamesLog(name, key)
    && forall other, k :: other in names && NamesLog(other, k) ==> k.attempt <= key.attempt
  }

  /** The next attempt: 1 where no log is found, and one past the latest there
      is, which is 0 past the last a `u32` holds. */
  lemma NextAttemptIs(dir: Option<seq<string>>)
    ensures dir == None || (forall name, key :: name in dir.value ==> !NamesLog(name, key)) ==> NextAttempt(dir) == 1
    ensures dir.Some? ==> forall name, key :: IsLatest(dir.value, name, key) ==>
      NextAttempt(dir) == After(key.attempt)
  {
    if dir.None? {
      FirstAttempt();
    } else {
      forall name, key | IsLatest(dir.value, name, key) ensures NextAttempt(dir) == After(key.attempt) {
        LatestIsHighest(dir.value, name, key);
        FollowingIs(dir, key.attempt);
      }
      if forall name, key :: name in dir.value ==> !NamesLog(name, key) {
        NoneIsHighest(dir.value);
        FirstIs(dir);
      }
    }
  }

  /** One past `attempt` as a `u32`. */
  function After(attempt: nat): nat {
    if attempt == 0xFFFF_FFFF then 0 else attempt + 1
  }

  lemma FollowingIs(dir: Option<seq<string>>, attempt: nat)
    requires dir.Some? && Highest(dir.value) == Some(attempt)
    ensures NextAttempt(dir) == After(attempt)
  {
    HighestIsHighest(dir.value);
  }

  lemma FirstIs(dir: Option<seq<string>>)
    requires dir.Some? && Highest(dir.value) == None
    ensures NextAttempt(dir) == 1
  {
  }

  lemma LatestIsHighest(names: seq<string>, name: string, key: LogKey)
    requires IsLatest(names, name, key)
    ensures Highest(names) == Some(key.attempt)
  {
    KeyIs(name, key);
    forall other | other in names && KeyOf(other).Some? ensures KeyOf(other).value.attempt <= key.attempt {
      KeyIs(other, KeyOf(other).value);
    }
    LatestByKey(names, name, key);
  }

  lemma LatestByKey(names: seq<string>, name: string, key: LogKey)
    requires name in names && KeyOf(name) == Some(key)
    requires forall other :: other in names && KeyOf(other).Some? ==> KeyOf(other).value.attempt <= key.attempt
    ensures Highest(names) == Some(key.attempt)
  {
    HighestIsHighest(names);
    AttemptsAre(names);
  }

  lemma NoneIsHighest(names: seq<string>)
    requires forall name, key :: name in names ==> !NamesLog(name, key)
    ensures Highest(names) == None
  {
    HighestIsHighest(names);
    AttemptsAre(names);
    if Highest(names).Some? {
      var other :| other in names && KeyOf(other).Some? && KeyOf(other).value.attempt == Highest(names).value;
      KeyIs(other, KeyOf(other).value);
      assert false;
    }
  }

  // ----- The files of a directory -----

  /** How often a file is among those considered: as often as its name is
      there, if its key is that of the name. */
  lemma {:induction false} KeyedCount(names: seq<string>, f: LogFile)
    ensures multiset(Keyed(names))[f] ==
      if NamesLog(f.name, LogKey(f.attempt, f.index)) then multiset(names)[f.name] else 0
  {
    KeyIs(f.name, LogKey(f.attempt, f.index));
    if names != [] {
      KeyedCount(names[1..], f);
      assert names == [names[0]] + names[1..];
    }
  }

  /** Logs in order: by attempt, then by command, then by name. */
  lemma OrderIs(files: seq<LogFile>, i: nat, j: nat)
    requires Sorting.Ordered(files, FileNoLater) && i < j < |files|
    ensures var f, g := files[i], files[j];
      || f.attempt < g.attempt
      || (f.attempt == g.attempt && (f.index < g.index || (f.index == g.index && NoLater(f.name, g.name))))
  {
  }
}
