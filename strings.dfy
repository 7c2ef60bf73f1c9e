/**
 * The PHP string builtins the crawler relies on: `explode` and `implode` with a
 * one-character separator, and the decimal rendering of an integer that string
 * concatenation performs.
 */
module Strings {

  /** Number of occurrences of `c` in `s`. */
  function Count(s: string, c: char): nat
  {
    if s == [] then 0 else (if s[0] == c then 1 else 0) + Count(s[1..], c)
  }

  /**
   * `explode(c, s)`: the pieces of `s` between occurrences of `c`. There is
   * always one piece more than there are separators, and no piece holds `c`.
   */
  function Split(s: string, c: char): (parts: seq<string>)
    ensures |parts| == Count(s, c) + 1
    ensures forall i :: 0 <= i < |parts| ==> c !in parts[i]
  {
    if s == [] then [[]]
    else
      var rest := Split(s[1..], c);
      if s[0] == c then [[]] + rest
      else [[s[0]] + rest[0]] + rest[1..]
  }

  /** `implode(c, parts)`: the parts with `c` between neighbours; `""` for no parts. */
  function Join(parts: seq<string>, c: char): string
  {
    if parts == [] then []
    else if |parts| == 1 then parts[0]
    else parts[0] + [c] + Join(parts[1..], c)
  }

  /** Putting one more character in front of the first part puts it in front of the whole. */
  lemma JoinPrepend(x: char, h: string, t: seq<string>, c: char)
    ensures Join([[x] + h] + t, c) == [x] + Join([h] + t, c)
  {
    if t != [] {
      assert ([[x] + h] + t)[1..] == t;
      assert ([h] + t)[1..] == t;
    }
  }

  /** `implode` undoes `explode` for every string. */
  lemma {:induction false} JoinSplit(s: string, c: char)
    ensures Join(Split(s, c), c) == s
  {
    if s != [] {
      var rest := Split(s[1..], c);
      JoinSplit(s[1..], c);
      if s[0] == c {
        assert ([[]] + rest)[1..] == rest;
      } else {
        JoinPrepend(s[0], rest[0], rest[1..], c);
        assert [rest[0]] + rest[1..] == rest;
      }
    }
  }

  /** A string without the separator explodes into itself. */
  lemma {:induction false} SplitWithoutSeparator(s: string, c: char)
    requires c !in s
    ensures Split(s, c) == [s]
  {
    if s != [] {
      assert c !in s[1..];
      SplitWithoutSeparator(s[1..], c);
      assert [s[0]] + s[1..] == s;
    }
  }

  /** Exploding at the first separator: the part before it comes first. */
  lemma {:induction false} SplitAtFirst(a: string, b: string, c: char)
    requires c !in a
    ensures Split(a + [c] + b, c) == [a] + Split(b, c)
  {
    var s := a + [c] + b;
    if a == [] {
      assert s[1..] == b;
    } else {
      assert s[1..] == a[1..] + [c] + b;
      assert c !in a[1..];
      SplitAtFirst(a[1..], b, c);
      assert [a[0]] + a[1..] == a;
    }
  }

  /** `explode` undoes `implode` when there is at least one part and no part holds the separator. */
  lemma {:induction false} SplitJoin(parts: seq<string>, c: char)
    requires |parts| >= 1
    requires forall i :: 0 <= i < |parts| ==> c !in parts[i]
    ensures Split(Join(parts, c), c) == parts
  {
    if |parts| == 1 {
      SplitWithoutSeparator(parts[0], c);
    } else {
      SplitJoin(parts[1..], c);
      SplitAtFirst(parts[0], Join(parts[1..], c), c);
      assert [parts[0]] + parts[1..] == parts;
    }
  }

  /** Joining parts free of `x` with a separator other than `x` gives a string free of `x`. */
  lemma {:induction false} JoinAvoids(parts: seq<string>, sep: char, x: char)
    requires x != sep
    requires forall i :: 0 <= i < |parts| ==> x !in parts[i]
    ensures x !in Join(parts, sep)
  {
    if |parts| > 1 {
      JoinAvoids(parts[1..], sep, x);
    }
  }

  /** The decimal digit for `d`. */
  function DigitChar(d: nat): (ch: char)
    requires d < 10
    ensures '0' <= ch <= '9'
  {
    (('0' as int) + d) as char
  }

  /** Decimal rendering of a natural number, without leading zeros. */
  function NatToString(n: nat): (s: string)
    ensures |s| >= 1
    ensures forall i :: 0 <= i < |s| ==> '0' <= s[i] <= '9'
  {
    if n < 10 then [DigitChar(n)] else NatToString(n / 10) + [DigitChar(n % 10)]
  }

  /** The value of a run of decimal digits (inverse of NatToString). */
  function DigitsValue(s: string): nat
  {
    if s == [] then 0
    else
      var last := s[|s| - 1] as int - '0' as int;
      DigitsValue(s[..|s| - 1]) * 10 + (if 0 <= last then last else 0)
  }

  lemma {:induction false} DigitsValueOfNatToString(n: nat)
    ensures DigitsValue(NatToString(n)) == n
  {
    if n >= 10 {
      DigitsValueOfNatToString(n / 10);
      var s := NatToString(n / 10) + [DigitChar(n % 10)];
      assert s[..|s| - 1] == NatToString(n / 10);
    }
  }

  /** How PHP renders an `int` when it is concatenated to a string. */
  function IntToString(i: int): string
  {
    if i < 0 then "-" + NatToString(-i) else NatToString(i)
  }

  lemma NatToStringInjective(a: nat, b: nat)
    requires NatToString(a) == NatToString(b)
    ensures a == b
  {
    DigitsValueOfNatToString(a);
    DigitsValueOfNatToString(b);
  }

  lemma NoMinusSign(n: nat)
    ensures NatToString(n)[0] != '-'
  {
  }

  /** Different integers render differently. */
  lemma IntToStringInjective(i: int, j: int)
    requires IntToString(i) == IntToString(j)
    ensures i == j
  {
    if i < 0 && j < 0 {
      var ni, nj := NatToString(-i), NatToString(-j);
      assert ni == IntToString(i)[1..];
      assert nj == IntToString(j)[1..];
      NatToStringInjective(-i, -j);
    } else if 0 <= i && 0 <= j {
      NatToStringInjective(i, j);
    } else {
      NoMinusSign(if i < 0 then j else i);
    }
  }

  /** A rendered integer holds only digits and perhaps a leading minus sign. */
  lemma IntToStringChars(i: int)
    ensures forall k :: 0 <= k < |IntToString(i)| ==> IntToString(i)[k] == '-' || '0' <= IntToString(i)[k] <= '9'
  {
  }
}
