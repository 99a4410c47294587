/**
 * String helpers the program gets from Python's built-ins: `' '.join`,
 * literal substring occurrence, and the decimal rendering of a
 * non-negative integer inside an f-string.
 */
module Text {

  /** Total number of characters in all parts. */
  function TotalLength(parts: seq<string>): nat
  {
    if parts == [] then 0 else |parts[0]| + TotalLength(parts[1..])
  }

  /** Python's `' '.join(parts)`: the parts in order, one space between neighbours. */
  function JoinSpace(parts: seq<string>): (line: string)
    ensures |line| == TotalLength(parts) + (if parts == [] then 0 else |parts| - 1)
  {
    if |parts| == 0 then ""
    else if |parts| == 1 then parts[0]
    else parts[0] + " " + JoinSpace(parts[1..])
  }

  /** `pattern` occurs literally somewhere in `s` (Python's `pattern in s`). */
  predicate Occurs(pattern: string, s: string)
  {
    exists i :: 0 <= i <= |s| && pattern <= s[i..]
  }

  lemma OccursAt(pattern: string, s: string, i: nat)
    requires i <= |s| && pattern <= s[i..]
    ensures Occurs(pattern, s)
  {
  }

  lemma OccursInLeft(pattern: string, a: string, b: string)
    requires Occurs(pattern, a)
    ensures Occurs(pattern, a + b)
  {
    var i :| 0 <= i <= |a| && pattern <= a[i..];
    assert (a + b)[i..] == a[i..] + b;
  }

  lemma OccursInRight(pattern: string, a: string, b: string)
    requires Occurs(pattern, b)
    ensures Occurs(pattern, a + b)
  {
    var i :| 0 <= i <= |b| && pattern <= b[i..];
    assert (a + b)[|a| + i..] == b[i..];
  }

  /** Whatever occurs in one argument occurs in the space-joined command line. */
  lemma {:induction false} OccursInJoin(pattern: string, parts: seq<string>, k: nat)
    requires k < |parts| && Occurs(pattern, parts[k])
    ensures Occurs(pattern, JoinSpace(parts))
    decreases |parts|
  {
    if |parts| > 1 {
      if k == 0 {
        OccursInLeft(pattern, parts[0], " " + JoinSpace(parts[1..]));
        assert parts[0] + (" " + JoinSpace(parts[1..])) == JoinSpace(parts);
      } else {
        OccursInJoin(pattern, parts[1..], k - 1);
        OccursInRight(pattern, parts[0] + " ", JoinSpace(parts[1..]));
        assert parts[0] + " " + JoinSpace(parts[1..]) == JoinSpace(parts);
      }
    }
  }

  /** A non-empty pattern can only occur where its first character does. */
  lemma OccursHasFirstChar(pattern: string, s: string)
    requires |pattern| > 0 && Occurs(pattern, s)
    ensures pattern[0] in s
  {
  }

  /** A character that is not a space and is in no part is not in the joined line. */
  lemma {:induction false} CharNotInJoin(c: char, parts: seq<string>)
    requires c != ' ' && forall k :: 0 <= k < |parts| ==> c !in parts[k]
    ensures c !in JoinSpace(parts)
    decreases |parts|
  {
    if |parts| > 1 {
      CharNotInJoin(c, parts[1..]);
      assert JoinSpace(parts) == parts[0] + " " + JoinSpace(parts[1..]);
    }
  }

  predicate IsDigit(c: char)
  {
    '0' <= c <= '9'
  }

  function DigitChar(d: nat): (c: char)
    requires d < 10
    ensures IsDigit(c)
  {
    (d + '0' as int) as char
  }

  function DigitValue(c: char): (d: nat)
    requires IsDigit(c)
    ensures d < 10
  {
    c as int - '0' as int
  }

  /**
   * The decimal text of `n` as `str(n)` writes it: only digits, at least
   * one, and no leading zero unless `n` is zero.
   */
  function DecimalString(n: nat): (s: string)
    ensures 1 <= |s|
    ensures forall i :: 0 <= i < |s| ==> IsDigit(s[i])
    ensures |s| > 1 ==> s[0] != '0'
    decreases n
  {
    if n < 10 then [DigitChar(n)] else DecimalString(n / 10) + [DigitChar(n % 10)]
  }

  /** Reads a string of decimal digits back as a number. */
  function ParseDecimal(s: string): nat
    requires forall i :: 0 <= i < |s| ==> IsDigit(s[i])
  {
    if s == [] then 0 else ParseDecimal(s[..|s| - 1]) * 10 + DigitValue(s[|s| - 1])
  }

  /** Reading the decimal text of `n` gives back `n`. */
  lemma {:induction false} ParseDecimalString(n: nat)
    ensures ParseDecimal(DecimalString(n)) == n
    decreases n
  {
    var s := DecimalString(n);
    if n < 10 {
      assert s[..0] == [];
    } else {
      ParseDecimalString(n / 10);
      assert s[..|s| - 1] == DecimalString(n / 10);
    }
  }

  /** Different numbers never print the same. */
  lemma DecimalStringInjective(m: nat, n: nat)
    requires DecimalString(m) == DecimalString(n)
    ensures m == n
  {
    ParseDecimalString(m);
    ParseDecimalString(n);
  }
}
