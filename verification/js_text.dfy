/**
 * The small part of JavaScript's number and string semantics that the dashboard's
 * formatting and parsing code relies on: integer `toString`, `Number(...)` on
 * digit strings, `padStart`, `split`, `includes`, ASCII `toLowerCase`/`toUpperCase`
 * and the truncating `%` of JavaScript on real numbers.
 */
module JsText {
  import opened Wrappers

  predicate IsDigit(c: char)
  {
    '0' <= c <= '9'
  }

  predicate AllDigits(s: string)
  {
    forall i :: 0 <= i < |s| ==> IsDigit(s[i])
  }

  function DigitChar(d: nat): (c: char)
    requires d < 10
    ensures IsDigit(c)
  {
    (('0' as int) + d) as char
  }

  function DigitOf(c: char): nat
    requires IsDigit(c)
  {
    (c as int) - ('0' as int)
  }

  /** Decimal digits of a natural number, most significant first, without leading zeros. */
  function NatToString(n: nat): (s: string)
    ensures 1 <= |s|
    ensures AllDigits(s)
    decreases n
  {
    if n < 10 then [DigitChar(n)] else NatToString(n / 10) + [DigitChar(n % 10)]
  }

  /** The value of a string of decimal digits ("" has value 0). */
  function DigitsValue(s: string): nat
    requires AllDigits(s)
  {
    if s == [] then 0 else DigitsValue(s[..|s| - 1]) * 10 + DigitOf(s[|s| - 1])
  }

  /** `n.toString()` for an integral JavaScript number. */
  function IntToString(n: int): string
  {
    if n < 0 then "-" + NatToString(-n) else NatToString(n)
  }

  /**
   * `Number(s)` for the strings the dashboard produces: "" is 0, an optional
   * '-' followed by at least one decimal digit is that integer, anything else is
   * NaN (represented by None).
   */
  function ToNumber(s: string): Option<int>
  {
    if s == "" then Some(0)
    else if AllDigits(s) then Some(DigitsValue(s))
    else if s[0] == '-' && 1 < |s| && AllDigits(s[1..]) then Some(-(DigitsValue(s[1..]) as int))
    else None
  }

  lemma {:induction false} DigitsValueOfNatToString(n: nat)
    ensures DigitsValue(NatToString(n)) == n
    decreases n
  {
    if 10 <= n {
      DigitsValueOfNatToString(n / 10);
      var s := NatToString(n);
      assert s[..|s| - 1] == NatToString(n / 10);
    }
  }

  /** Parsing a printed integer gives the integer back. */
  lemma ToNumberOfIntToString(n: int)
    ensures ToNumber(IntToString(n)) == Some(n)
  {
    if n < 0 {
      NegativeToNumber(NatToString(-n));
      DigitsValueOfNatToString(-n);
    } else {
      DigitsValueOfNatToString(n);
    }
  }

  lemma NegativeToNumber(digits: string)
    requires 1 <= |digits| && AllDigits(digits)
    ensures ToNumber("-" + digits) == Some(-(DigitsValue(digits) as int))
  {
    var s := "-" + digits;
    assert s[0] == '-' && !IsDigit(s[0]);
    assert s[1..] == digits;
  }

  /** `s.padStart(width, fill)`. */
  function PadStart(s: string, width: nat, fill: char): (r: string)
    ensures |r| == if |s| < width then width else |s|
    ensures r[|r| - |s|..] == s
    ensures forall i :: 0 <= i < |r| - |s| ==> r[i] == fill
  {
    if |s| < width then Repeat(fill, width - |s|) + s else s
  }

  function Repeat(c: char, k: nat): (r: string)
    ensures |r| == k
    ensures forall i :: 0 <= i < k ==> r[i] == c
  {
    if k == 0 then "" else [c] + Repeat(c, k - 1)
  }

  /** Leading zeros do not change the value of a digit string. */
  lemma {:induction false} LeadingZeroValue(s: string)
    requires AllDigits(s)
    ensures AllDigits("0" + s) && DigitsValue("0" + s) == DigitsValue(s)
    decreases |s|
  {
    if s != [] {
      var t := "0" + s;
      assert t[..|t| - 1] == "0" + s[..|s| - 1];
      LeadingZeroValue(s[..|s| - 1]);
    }
  }

  /** Zero-padding a printed natural number keeps its parsed value. */
  lemma ToNumberOfPadded(n: nat, width: nat)
    ensures ToNumber(PadStart(NatToString(n), width, '0')) == Some(n)
  {
    var s := NatToString(n);
    DigitsValueOfNatToString(n);
    if |s| < width {
      PaddedValue(s, width - |s|);
    }
  }

  lemma {:induction false} PaddedValue(s: string, k: nat)
    requires AllDigits(s)
    ensures AllDigits(Repeat('0', k) + s)
    ensures DigitsValue(Repeat('0', k) + s) == DigitsValue(s)
    decreases k
  {
    if 0 < k {
      PaddedValue(s, k - 1);
      var rest := Repeat('0', k - 1) + s;
      assert Repeat('0', k) + s == "0" + rest;
      LeadingZeroValue(rest);
      assert DigitsValue("0" + rest) == DigitsValue(rest);
    } else {
      assert Repeat('0', k) + s == s;
    }
  }

  /** Index of the first occurrence of `c` in `s`. */
  function IndexOf(s: string, c: char): (i: nat)
    requires c in s
    ensures i < |s| && s[i] == c && c !in s[..i]
  {
    if s[0] == c then 0 else
      assert s == [s[0]] + s[1..];
      var j := IndexOf(s[1..], c);
      assert s[..j + 1] == [s[0]] + s[1..][..j];
      j + 1
  }

  /** `s.split(sep)` for a one-character separator: "" splits into [""]. */
  function Split(s: string, sep: char): (parts: seq<string>)
    ensures 1 <= |parts|
    ensures forall i :: 0 <= i < |parts| ==> sep !in parts[i]
    decreases |s|
  {
    if sep !in s then [s]
    else
      var i := IndexOf(s, sep);
      [s[..i]] + Split(s[i + 1..], sep)
  }

  /** `parts.join(sep)`. */
  function Join(parts: seq<string>, sep: string): string
  {
    if |parts| == 0 then ""
    else if |parts| == 1 then parts[0]
    else parts[0] + sep + Join(parts[1..], sep)
  }

  /** Joining the pieces of a split with the separator gives back the original string. */
  lemma {:induction false} JoinSplit(s: string, sep: char)
    ensures Join(Split(s, sep), [sep]) == s
    decreases |s|
  {
    if sep in s {
      var i := IndexOf(s, sep);
      var rest := Split(s[i + 1..], sep);
      JoinSplit(s[i + 1..], sep);
      assert Split(s, sep) == [s[..i]] + rest;
      JoinCons(s[..i], rest, [sep]);
      assert s == s[..i] + [sep] + s[i + 1..];
    }
  }

  lemma JoinCons(first: string, rest: seq<string>, sep: string)
    requires 1 <= |rest|
    ensures Join([first] + rest, sep) == first + sep + Join(rest, sep)
  {
    assert ([first] + rest)[1..] == rest;
  }

  /** Splitting at the first separator of a string. */
  lemma SplitAtFirst(a: string, b: string, sep: char)
    requires sep !in a
    ensures Split(a + [sep] + b, sep) == [a] + Split(b, sep)
  {
    var s := a + [sep] + b;
    assert s[|a|] == sep;
    assert s[..|a|] == a;
    assert IndexOf(s, sep) == |a|;
    assert s[|a| + 1..] == b;
  }

  /** Splitting a join of separator-free pieces gives the pieces back. */
  lemma {:induction false} SplitJoin(parts: seq<string>, sep: char)
    requires 1 <= |parts|
    requires forall i :: 0 <= i < |parts| ==> sep !in parts[i]
    ensures Split(Join(parts, [sep]), sep) == parts
  {
    if |parts| == 1 {
      assert Join(parts, [sep]) == parts[0];
    } else {
      SplitJoin(parts[1..], sep);
      assert Join(parts, [sep]) == parts[0] + [sep] + Join(parts[1..], [sep]);
      SplitAtFirst(parts[0], Join(parts[1..], [sep]), sep);
    }
  }

  /** `s.startsWith(prefix)`. */
  predicate StartsWith(s: string, prefix: string)
  {
    |prefix| <= |s| && s[..|prefix|] == prefix
  }

  lemma StartsWithHead(head: string, tail: string)
    ensures StartsWith(head + tail, head)
  {
    assert (head + tail)[..|head|] == head;
  }

  /** `s.includes(t)`: `t` occurs in `s` as a contiguous substring. */
  predicate Includes(s: string, t: string)
    decreases |s|
  {
    StartsWith(s, t) || (0 < |s| && Includes(s[1..], t))
  }

  /**
   * Text made of ASCII characters only: there JavaScript's case mapping is the
   * letter-for-letter one of `LowerChar` and `UpperChar`.
   */
  predicate IsAscii(s: string)
  {
    forall i :: 0 <= i < |s| ==> s[i] < 128 as char
  }

  function LowerChar(c: char): char
  {
    if 'A' <= c <= 'Z' then ((c as int) + 32) as char else c
  }

  function UpperChar(c: char): char
  {
    if 'a' <= c <= 'z' then ((c as int) - 32) as char else c
  }

  /** `s.toLowerCase()` on ASCII letters; every other character is kept as it is. */
  function Lower(s: string): (r: string)
    ensures |r| == |s|
    ensures forall i :: 0 <= i < |s| ==> r[i] == LowerChar(s[i])
  {
    seq(|s|, i requires 0 <= i < |s| => LowerChar(s[i]))
  }

  /** `s.toUpperCase()` on ASCII letters; every other character is kept as it is. */
  function Upper(s: string): (r: string)
    ensures |r| == |s|
    ensures forall i :: 0 <= i < |s| ==> r[i] == UpperChar(s[i])
  {
    seq(|s|, i requires 0 <= i < |s| => UpperChar(s[i]))
  }

  /** Truncation toward zero (`Math.trunc`). */
  function Trunc(x: real): int
  {
    if 0.0 <= x then x.Floor else -((-x).Floor)
  }

  /** JavaScript's `x % m` on numbers: the sign follows the dividend. */
  function JsRem(x: real, m: real): real
    requires m != 0.0
  {
    x - m * (Trunc(x / m) as real)
  }

  /** `Math.round`: halves round up. */
  function Round(x: real): int
  {
    (x + 0.5).Floor
  }
}
