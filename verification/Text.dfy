/** Text as sequences of characters: decimal digits and their value, fields of
    fixed and of minimum width, the order text is compared by, where one text
    occurs in another, replacing a character, and the blanks around a text as
    Unicode has them. */
module Text {

  predicate IsDigit(c: char) {
    '0' <= c <= '9'
  }

  function DigitOf(d: nat): (c: char)
    requires d < 10
    ensures IsDigit(c) && ValueOfDigit(c) == d
  {
    '0' + d as char
  }

  function ValueOfDigit(c: char): (d: nat)
    requires IsDigit(c)
    ensures d < 10
  {
    (c - '0') as int
  }

  predicate AllDigits(s: string) {
    forall i :: 0 <= i < |s| ==> IsDigit(s[i])
  }

  /** `n` in decimal, with leading zeros up to `width` digits: Rust's
      `{n:0width}`. */
  function Padded(n: nat, width: nat): (s: string)
    ensures s != [] && AllDigits(s) && |s| >= width
    decreases n, width
  {
    if n < 10 && width <= 1 then [DigitOf(n)]
    else Padded(n / 10, if width == 0 then 0 else width - 1) + [DigitOf(n % 10)]
  }

  function Decimal(n: nat): (s: string)
    ensures s != [] && AllDigits(s)
  {
    Padded(n, 1)
  }

  /** The number a run of digits denotes. */
  function Number(s: string): nat
    requires AllDigits(s)
  {
    if s == [] then 0
    else Number(s[..|s| - 1]) * 10 + ValueOfDigit(s[|s| - 1])
  }

  lemma {:induction false} NumberOfPadded(n: nat, width: nat)
    ensures Number(Padded(n, width)) == n
    decreases n, width
  {
    var s := Padded(n, width);
    if !(n < 10 && width <= 1) {
      var w := if width == 0 then 0 else width - 1;
      NumberOfPadded(n / 10, w);
      assert s[..|s| - 1] == Padded(n / 10, w);
    }
  }

  function Pow10(k: nat): nat {
    if k == 0 then 1 else 10 * Pow10(k - 1)
  }

  /** A number that fits has exactly the width asked for. */
  lemma {:induction false} PaddedFits(n: nat, width: nat)
    requires width >= 1
    ensures |Padded(n, width)| == width <==> n < Pow10(width)
    decreases width
  {
    if width == 1 {
      assert Pow10(1) == 10 * Pow10(0) == 10;
    } else {
      PaddedFits(n / 10, width - 1);
      assert Pow10(width) == 10 * Pow10(width - 1);
    }
  }

  /** Digits read back as the number and written out again are themselves. */
  lemma {:induction false} PaddedOfNumber(s: string)
    requires AllDigits(s) && s != []
    ensures Number(s) < Pow10(|s|)
    ensures Padded(Number(s), |s|) == s
    decreases |s|
  {
    assert Pow10(|s|) == 10 * Pow10(|s| - 1);
    var d := ValueOfDigit(s[|s| - 1]);
    assert DigitOf(d) == s[|s| - 1];
    if |s| == 1 {
      assert Number(s[..0]) == 0;
      assert s == [s[0]];
    } else {
      var init := s[..|s| - 1];
      PaddedOfNumber(init);
      assert Number(s) / 10 == Number(init) && Number(s) % 10 == d;
      assert s == init + [s[|s| - 1]];
    }
  }

  // ----- Comparing text -----

  /** Text is compared character by character, a prefix before what it is a
      prefix of. */
  predicate Before(s: string, t: string) {
    if t == [] then false
    else if s == [] then true
    else if s[0] != t[0] then s[0] < t[0]
    else Before(s[1..], t[1..])
  }

  predicate NoLater(s: string, t: string) {
    !Before(t, s)
  }

  lemma {:induction false} NoLaterTotal(s: string, t: string, u: string)
    ensures NoLater(s, t) || NoLater(t, s)
    ensures NoLater(s, t) && NoLater(t, u) ==> NoLater(s, u)
    ensures NoLater(s, t) && NoLater(t, s) ==> s == t
    decreases |s| + |t| + |u|
  {
    if s != [] && t != [] && u != [] {
      NoLaterTotal(s[1..], t[1..], u[1..]);
    } else if s != [] && t != [] {
      NoLaterTotal(s[1..], t[1..], u);
    }
    assert s != [] ==> s == [s[0]] + s[1..];
    assert t != [] ==> t == [t[0]] + t[1..];
  }

  /** Two texts that start with fields of the same width compare as the
      fields do, and as the rest when the fields are equal. */
  lemma {:induction false} BeforeByField(f: string, g: string, s: string, t: string)
    requires |f| == |g|
    ensures Before(f + s, g + t) <==> Before(f, g) || (f == g && Before(s, t))
  {
    if f == [] {
      assert f + s == s && g + t == t;
    } else {
      assert (f + s)[1..] == f[1..] + s && (g + t)[1..] == g[1..] + t;
      BeforeByField(f[1..], g[1..], s, t);
      assert f == [f[0]] + f[1..] && g == [g[0]] + g[1..];
    }
  }

  /** Numbers in fields of the same width compare as numbers. */
  lemma {:induction false} PaddedOrder(m: nat, n: nat, width: nat)
    requires width >= 1 && m < Pow10(width) && n < Pow10(width)
    ensures Before(Padded(m, width), Padded(n, width)) <==> m < n
    ensures Padded(m, width) == Padded(n, width) <==> m == n
    decreases width
  {
    NumberOfPadded(m, width);
    NumberOfPadded(n, width);
    if width == 1 {
      assert Pow10(1) == 10 * Pow10(0) == 10;
      DigitOrder(m, n);
    } else {
      assert Pow10(width) == 10 * Pow10(width - 1);
      PaddedOrder(m / 10, n / 10, width - 1);
      LastDigitOrder(m, n, width);
    }
  }

  lemma PaddedStep(n: nat, width: nat)
    requires width >= 2
    ensures Padded(n, width) == Padded(n / 10, width - 1) + [DigitOf(n % 10)]
  {
  }

  /** The last digit decides between numbers that agree before it. */
  lemma LastDigitOrder(m: nat, n: nat, width: nat)
    requires width >= 2 && m / 10 < Pow10(width - 1) && n / 10 < Pow10(width - 1)
    ensures Before(Padded(m, width), Padded(n, width)) <==>
      || Before(Padded(m / 10, width - 1), Padded(n / 10, width - 1))
      || (Padded(m / 10, width - 1) == Padded(n / 10, width - 1) && m % 10 < n % 10)
  {
    PaddedStep(m, width);
    PaddedStep(n, width);
    PaddedFits(m / 10, width - 1);
    PaddedFits(n / 10, width - 1);
    BeforeByField(Padded(m / 10, width - 1), Padded(n / 10, width - 1), [DigitOf(m % 10)], [DigitOf(n % 10)]);
    DigitOrder(m % 10, n % 10);
  }

  lemma DigitOrder(d: nat, e: nat)
    requires d < 10 && e < 10
    ensures Before([DigitOf(d)], [DigitOf(e)]) <==> d < e
  {
    assert !Before([DigitOf(d)][1..], [DigitOf(e)][1..]);
  }

  // ----- Parts of text -----

  predicate StartsWith(s: string, prefix: string) {
    |s| >= |prefix| && s[..|prefix|] == prefix
  }

  predicate EndsWith(s: string, suffix: string) {
    |s| >= |suffix| && s[|s| - |suffix|..] == suffix
  }

  predicate OccursAt(text: string, needle: string, at: nat) {
    at + |needle| <= |text| && text[at..at + |needle|] == needle
  }

  predicate Contains(text: string, needle: string) {
    exists at :: 0 <= at <= |text| && OccursAt(text, needle, at)
  }

  // ----- Replacing a character -----

  function Replaced(text: string, c: char, with: string): string {
    if text == [] then []
    else (if text[0] == c then with else [text[0]]) + Replaced(text[1..], c, with)
  }

  // ----- Blanks around text -----

  /** Unicode's `White_Space`, which trimming takes off. */
  predicate IsBlank(c: char) {
    || '\U{0009}' <= c <= '\U{000D}'
    || c in {' ', '\U{0085}', '\U{00A0}', '\U{1680}', '\U{2028}', '\U{2029}', '\U{202F}', '\U{205F}', '\U{3000}'}
    || '\U{2000}' <= c <= '\U{200A}'
  }

  function TrimStart(s: string): string {
    if s != [] && IsBlank(s[0]) then TrimStart(s[1..]) else s
  }

  function TrimEnd(s: string): string {
    if s != [] && IsBlank(s[|s| - 1]) then TrimEnd(s[..|s| - 1]) else s
  }

  function Trim(s: string): string {
    TrimEnd(TrimStart(s))
  }
}
