/**
 * String helpers with Python's meaning: `str.split` on a one-character
 * separator, `str.join`, and `str(int)` decimal rendering.
 */
module Strings {

  /** Python's `sep.join(parts)`: the parts with one `sep` between neighbours. */
  function Join(parts: seq<string>, sep: char): string
    decreases |parts|
  {
    if |parts| == 0 then ""
    else if |parts| == 1 then parts[0]
    else parts[0] + [sep] + Join(parts[1..], sep)
  }

  /** Number of occurrences of `c` in `s`. */
  function Count(s: string, c: char): nat
  {
    if |s| == 0 then 0 else (if s[0] == c then 1 else 0) + Count(s[1..], c)
  }

  /**
   * Python's `s.split(sep)` for a single-character separator: never empty,
   * one more part than there are separators, no part holds the separator,
   * and joining the parts back gives `s`.
   */
  function Split(s: string, sep: char): (parts: seq<string>)
    ensures |parts| == Count(s, sep) + 1
    ensures forall k :: 0 <= k < |parts| ==> sep !in parts[k]
    ensures Join(parts, sep) == s
    decreases |s|
  {
    if |s| == 0 then [""]
    else if s[0] == sep then
      var rest := Split(s[1..], sep);
      assert s == [sep] + s[1..];
      [""] + rest
    else
      var rest := Split(s[1..], sep);
      var first := [s[0]] + rest[0];
      assert ([s[0]] + rest[0]) + [sep] == [s[0]] + (rest[0] + [sep]);
      assert s == [s[0]] + s[1..];
      [first] + rest[1..]
  }

  /** Splitting right after a separator-free prefix peels that prefix off. */
  lemma {:induction false} SplitAfterPrefix(a: string, rest: string, sep: char)
    requires sep !in a
    ensures Split(a + [sep] + rest, sep) == [a] + Split(rest, sep)
    decreases |a|
  {
    if |a| == 0 {
      assert a + [sep] + rest == [sep] + rest;
      assert (a + [sep] + rest)[1..] == rest;
    } else {
      var s := a + [sep] + rest;
      assert s[0] == a[0];
      assert s[1..] == a[1..] + [sep] + rest;
      SplitAfterPrefix(a[1..], rest, sep);
      assert [a[0]] + a[1..] == a;
    }
  }

  /** `split` undoes `join` whenever no part contains the separator. */
  lemma {:induction false} SplitJoin(parts: seq<string>, sep: char)
    requires |parts| >= 1
    requires forall k :: 0 <= k < |parts| ==> sep !in parts[k]
    ensures Split(Join(parts, sep), sep) == parts
    decreases |parts|
  {
    if |parts| == 1 {
      SplitWithoutSeparator(parts[0], sep);
    } else {
      SplitJoin(parts[1..], sep);
      SplitAfterPrefix(parts[0], Join(parts[1..], sep), sep);
      assert [parts[0]] + parts[1..] == parts;
    }
  }

  /** A string without the separator splits into itself alone. */
  lemma {:induction false} SplitWithoutSeparator(s: string, sep: char)
    requires sep !in s
    ensures Split(s, sep) == [s]
    decreases |s|
  {
    if |s| > 0 {
      SplitWithoutSeparator(s[1..], sep);
      assert [s[0]] + s[1..] == s;
    }
  }

  // ---------------------------------------------------------------------
  // Decimal rendering, as Python's `str(i)` / f-string `{i}` for an int.

  predicate IsDigit(c: char) { '0' <= c <= '9' }

  function DigitChar(d: nat): (c: char)
    requires d < 10
    ensures IsDigit(c)
  {
    ['0', '1', '2', '3', '4', '5', '6', '7', '8', '9'][d]
  }

  function DigitValue(c: char): nat
    requires IsDigit(c)
  {
    (c as int - '0' as int) as nat
  }

  /** Decimal digits of `n`, most significant first, without leading zeros. */
  function NatToDecimal(n: nat): (s: string)
    ensures |s| >= 1
    ensures forall k :: 0 <= k < |s| ==> IsDigit(s[k])
    ensures |s| > 1 ==> s[0] != '0'
    decreases n
  {
    if n < 10 then [DigitChar(n)] else NatToDecimal(n / 10) + [DigitChar(n % 10)]
  }

  /** Python's `str(i)`: a minus sign for negatives, then the digits. */
  function IntToDecimal(i: int): (s: string)
    ensures '_' !in s
    ensures IsDecimal(s)
  {
    if i < 0 then "-" + NatToDecimal(-i) else NatToDecimal(i)
  }

  /** The value of a string of decimal digits (Horner's rule). */
  function DecimalValue(s: string): nat
    requires forall k :: 0 <= k < |s| ==> IsDigit(s[k])
    decreases |s|
  {
    if |s| == 0 then 0 else 10 * DecimalValue(s[..|s| - 1]) + DigitValue(s[|s| - 1])
  }

  /** Digits, optionally after a minus sign: the strings `str(i)` can produce. */
  predicate IsDecimal(s: string)
  {
    && |s| >= 1
    && (s[0] == '-' ==> forall k :: 1 <= k < |s| ==> IsDigit(s[k]))
    && (s[0] != '-' ==> forall k :: 0 <= k < |s| ==> IsDigit(s[k]))
  }

  /** Python's `int(s)` restricted to what `str(i)` produces. */
  function ParseDecimal(s: string): int
    requires IsDecimal(s)
  {
    if s[0] == '-' then -(DecimalValue(s[1..]) as int) else DecimalValue(s)
  }

  lemma {:induction false} NatToDecimalRoundTrip(n: nat)
    ensures DecimalValue(NatToDecimal(n)) == n
    decreases n
  {
    var s := NatToDecimal(n);
    if n < 10 {
      assert s[..0] == [];
    } else {
      NatToDecimalRoundTrip(n / 10);
      assert s[..|s| - 1] == NatToDecimal(n / 10);
    }
  }

  /** Reading back what `str(i)` printed gives `i`. */
  lemma IntToDecimalRoundTrip(i: int)
    ensures ParseDecimal(IntToDecimal(i)) == i
  {
    if i < 0 {
      NegativeRoundTrip(-i);
      assert IntToDecimal(i) == "-" + NatToDecimal(-i);
    } else {
      NonNegativeRoundTrip(i);
      assert IntToDecimal(i) == NatToDecimal(i);
    }
  }

  lemma NonNegativeRoundTrip(n: nat)
    ensures ParseDecimal(NatToDecimal(n)) == n
  {
    var s := NatToDecimal(n);
    assert IsDigit(s[0]);
    NatToDecimalRoundTrip(n);
  }

  lemma NegativeRoundTrip(n: nat)
    ensures ParseDecimal("-" + NatToDecimal(n)) == -(n as int)
  {
    var digits := NatToDecimal(n);
    var s := "-" + digits;
    assert s[0] == '-' && s[1..] == digits;
    NatToDecimalRoundTrip(n);
  }

  /** Distinct integers print differently. */
  lemma IntToDecimalInjective(i: int, j: int)
    requires IntToDecimal(i) == IntToDecimal(j)
    ensures i == j
  {
    IntToDecimalRoundTrip(i);
    IntToDecimalRoundTrip(j);
  }

  /**
   * A separator-free head is recovered from `head + [sep] + tail`: the first
   * separator marks where the head ends.
   */
  lemma {:induction false} SeparatorSplitsUniquely(a: string, b: string, c: string, d: string, sep: char)
    requires sep !in a && sep !in c
    requires a + [sep] + b == c + [sep] + d
    ensures a == c && b == d
  {
    SplitAfterPrefix(a, b, sep);
    SplitAfterPrefix(c, d, sep);
    assert ([a] + Split(b, sep))[0] == a;
    assert ([c] + Split(d, sep))[1..] == Split(d, sep);
  }
}
