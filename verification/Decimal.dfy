/**
 The decimal printers and their reader: print_int of src/kprintf.c, pad_int of src/shell.c and atoi of
 src/string.c. Division and remainder truncate toward zero in C; the printers use them on values that
 are not negative only, where that makes no difference.
 */
module Decimal {

  const INT_MIN := -0x8000_0000
  const INT_MAX := 0x7FFF_FFFF

  function Digit(d: int): char
    requires 0 <= d < 10
  {
    '0' + d as char
  }

  predicate IsDigit(c: char) { '0' <= c <= '9' }

  /** The decimal digits of n, without leading zeros. */
  function Digits(n: nat): (s: string)
    ensures s != [] && forall i :: 0 <= i < |s| ==> IsDigit(s[i])
  {
    (if n < 10 then [] else Digits(n / 10)) + [Digit(n % 10)]
  }

  function Abs(v: int): nat { if v < 0 then -v else v }

  /** What print_int emits. */
  function Printed(v: int): string { (if v < 0 then "-" else "") + Digits(Abs(v)) }

  /** print_int; the output grows by what it prints. Negating the least int is undefined, so it is excluded. */
  method PrintInt(v: int, out: string) returns (r: string)
    requires INT_MIN < v <= INT_MAX
    ensures r == out + Printed(v)
    decreases Abs(v), v < 0
  {
    r := out;
    var value := v;
    if value < 0 {
      r := r + "-";
      value := -value;
    }
    if value / 10 != 0 {
      r := PrintInt(value / 10, r);
    }
    r := r + [Digit(value % 10)];
    assert r == out + Printed(v);
  }

  // ---- Reading ----

  function DigitValue(c: char): nat
    requires IsDigit(c)
  {
    c as int - '0' as int
  }

  /** The value of the digits at the front of s, read after a prefix worth acc. */
  function LeadingFrom(acc: nat, s: string): nat
    decreases |s|, acc
  {
    if s == [] || !IsDigit(s[0]) then acc else LeadingFrom(10 * acc + DigitValue(s[0]), s[1..])
  }

  function LeadingValue(s: string): nat { LeadingFrom(0, s) }

  function SkipSpaces(s: string): (t: string)
    ensures |t| <= |s|
  {
    if s != [] && s[0] == ' ' then SkipSpaces(s[1..]) else s
  }

  function Unsigned(t: string): string { if t != [] && t[0] in {'-', '+'} then t[1..] else t }

  /** The number a text stands for: spaces, a sign, digits; what follows is ignored. */
  function Meaning(text: string): int {
    var t := SkipSpaces(text);
    var v: int := LeadingValue(Unsigned(t));
    if t != [] && t[0] == '-' then -v else v
  }

  /** No partial result exceeds the largest int, so the signed arithmetic of atoi is defined throughout. */
  predicate InRange(text: string) { LeadingValue(Unsigned(SkipSpaces(text))) <= INT_MAX }

  datatype IntResult = Overflow | Int(value: int)

  /** atoi on the buffer of a C string; Overflow where the C arithmetic would be undefined. */
  method Atoi(str: seq<char>) returns (r: IntResult)
    requires '\0' in str
    ensures r == AtoiOf(str)
  {
    var i := 0;
    assert str[0..] == str;
    while str[i] == ' '
      invariant i < |str| && '\0' in str[i..]
      invariant SkipSpaces(str) == SkipSpaces(str[i..])
      decreases |str| - i
    {
      assert str[i..][1..] == str[i + 1..];
      i := i + 1;
    }
    ghost var t := str[i..];
    assert SkipSpaces(str) == t;
    var negative := false;
    if str[i] == '-' {
      negative := true;
      i := i + 1;
    } else if str[i] == '+' {
      i := i + 1;
    }
    assert str[i..] == Unsigned(t);
    var result := ReadDigits(str, i);
    r := if result.Overflow? then Overflow else Int(if negative then -result.value else result.value);
  }

  /** The last loop of atoi. */
  method ReadDigits(str: seq<char>, from: nat) returns (r: IntResult)
    requires from < |str| && '\0' in str[from..]
    ensures var v := LeadingValue(str[from..]);
            r == if v <= INT_MAX then Int(v) else Overflow
  {
    var i := from;
    var result: nat := 0;
    while IsDigit(str[i])
      invariant from <= i < |str| && '\0' in str[i..]
      invariant LeadingValue(str[from..]) == LeadingFrom(result, str[i..])
      invariant result <= INT_MAX
      decreases |str| - i
    {
      assert str[i..][1..] == str[i + 1..];
      var next := result * 10 + DigitValue(str[i]);
      if next > INT_MAX {
        GrowsOnly(next, str[i + 1..]);
        return Overflow;
      }
      result := next;
      i := i + 1;
    }
    return Int(result);
  }

  function AtoiOf(text: string): IntResult { if InRange(text) then Int(Meaning(text)) else Overflow }

  lemma {:induction false} GrowsOnly(acc: nat, s: string)
    ensures LeadingFrom(acc, s) >= acc
    decreases |s|
  {
    if s != [] && IsDigit(s[0]) { GrowsOnly(10 * acc + DigitValue(s[0]), s[1..]); }
  }

  // ---- Round trip ----

  lemma {:induction false} LeadingAppend(acc: nat, s: string, t: string)
    requires forall i :: 0 <= i < |s| ==> IsDigit(s[i])
    ensures LeadingFrom(acc, s + t) == LeadingFrom(LeadingFrom(acc, s), t)
    decreases |s|
  {
    if s == [] {
      assert s + t == t;
    } else {
      assert (s + t)[0] == s[0] && (s + t)[1..] == s[1..] + t;
      LeadingAppend(10 * acc + DigitValue(s[0]), s[1..], t);
    }
  }

  /** The digits of n, whatever non-digit follows, are worth n. */
  lemma {:induction false} ValueOfDigits(n: nat, rest: string)
    requires rest != [] ==> !IsDigit(rest[0])
    ensures LeadingValue(Digits(n) + rest) == n
    decreases n
  {
    var last := [Digit(n % 10)];
    assert (last + rest)[1..] == rest;
    if n < 10 {
      assert Digits(n) + rest == last + rest;
      LastDigit(0, n, rest);
    } else {
      assert Digits(n) + rest == Digits(n / 10) + (last + rest);
      LeadingAppend(0, Digits(n / 10), last + rest);
      ValueOfDigits(n / 10, []);
      assert Digits(n / 10) + [] == Digits(n / 10);
      LastDigit(n / 10, n % 10, rest);
    }
  }

  lemma LastDigit(acc: nat, d: nat, rest: string)
    requires d < 10 && (rest != [] ==> !IsDigit(rest[0]))
    ensures LeadingFrom(acc, [Digit(d)] + rest) == 10 * acc + d
  {
    assert ([Digit(d)] + rest)[1..] == rest;
  }

  /** atoi reads back what print_int emits, whatever non-digit follows it in the buffer. */
  lemma PrintThenAtoi(v: int, rest: string)
    requires -0x8000_0000 < v <= 0x7FFF_FFFF && (rest != [] ==> !('0' <= rest[0] <= '9'))
    ensures AtoiOf(Printed(v) + rest) == Int(v)
  {
    var s := Digits(Abs(v));
    var text := Printed(v) + rest;
    assert text[0] != ' ' by { assert text[0] == if v < 0 then '-' else s[0]; }
    var u := Unsigned(text);
    assert u == s + rest;
    ValueOfDigits(Abs(v), rest);
  }

  lemma {:induction false} SkipsSpaces(k: nat, t: string)
    requires t != [] ==> t[0] != ' '
    ensures SkipSpaces(seq(k, _ => ' ') + t) == t
    decreases k
  {
    if k == 0 {
      assert seq(k, _ => ' ') + t == t;
    } else {
      assert (seq(k, _ => ' ') + t)[1..] == seq(k - 1, _ => ' ') + t;
      SkipsSpaces(k - 1, t);
    }
  }

  /** A sign: none, plus or minus. */
  predicate IsSign(sign: string) { sign in {"", "+", "-"} }

  /**
   What atoi makes of spaces, a sign and the digits of n, whatever non-digit follows: n, negated for a
   minus sign only; and Overflow exactly when n is above the largest int.
   */
  lemma AtoiReads(k: nat, sign: string, n: nat, rest: string)
    requires IsSign(sign) && (rest != [] ==> !('0' <= rest[0] <= '9'))
    ensures AtoiOf(seq(k, _ => ' ') + (sign + Digits(n) + rest))
            == if n > 0x7FFF_FFFF then Overflow else Int((if sign == "-" then -1 else 1) * n)
  {
    var t := sign + Digits(n) + rest;
    SkipsSpaces(k, t);
    SignIsTaken(sign, Digits(n), rest);
    ValueOfDigits(n, rest);
  }

  lemma SignIsTaken(sign: string, s: string, rest: string)
    requires IsSign(sign) && s != [] && '0' <= s[0] <= '9'
    ensures var t := sign + s + rest; t[0] != ' ' && Unsigned(t) == s + rest && (t[0] == '-' <==> sign == "-")
  {
  }

  /** A text that has no digit behind its spaces and its sign reads as 0. */
  lemma AtoiOfNoDigits(k: nat, sign: string, rest: string)
    requires IsSign(sign) && (rest != [] ==> !('0' <= rest[0] <= '9'))
    requires sign == "" && rest != [] ==> rest[0] !in {' ', '+', '-'}
    ensures AtoiOf(seq(k, _ => ' ') + (sign + rest)) == Int(0)
  {
    SkipsSpaces(k, sign + rest);
    assert sign == "" ==> sign + rest == rest;
    assert sign != "" ==> (sign + rest)[1..] == rest && (sign + rest)[0] == sign[0];
  }

  /** The digits of n have no leading zero, except that zero itself is one. */
  lemma {:induction false} NoLeadingZero(n: nat)
    ensures Digits(n)[0] == '0' <==> n == 0
    ensures n < 10 ==> |Digits(n)| == 1
    decreases n
  {
    if n >= 10 { NoLeadingZero(n / 10); }
  }

  // ---- pad_int ----

  function Reversed(s: string): (r: string)
    ensures |r| == |s|
  {
    if s == [] then [] else Reversed(s[1..]) + [s[0]]
  }

  lemma {:induction false} ReversedIndex(s: string, k: nat)
    requires k < |s|
    ensures Reversed(s)[k] == s[|s| - 1 - k]
  {
    if k < |s| - 1 { ReversedIndex(s[1..], k); }
  }

  lemma {:induction false} ReversedAppend(s: string, c: char)
    ensures Reversed(s + [c]) == [c] + Reversed(s)
  {
    if s == [] {
      assert s + [c] == [c] && [c][1..] == [];
    } else {
      assert (s + [c])[1..] == s[1..] + [c] && (s + [c])[0] == s[0];
      ReversedAppend(s[1..], c);
    }
  }

  function Pow10(n: nat): nat { if n == 0 then 1 else 10 * Pow10(n - 1) }

  lemma {:induction false} DigitCount(n: nat, k: nat)
    requires n < Pow10(k) && k > 0
    ensures |Digits(n)| <= k
    decreases k
  {
    if n >= 10 {
      if k > 1 { DigitCount(n / 10, k - 1); }
    }
  }

  /** Ten digits are enough for every int. */
  lemma TenDigits(v: int)
    requires INT_MIN < v <= INT_MAX
    ensures |Digits(Abs(v))| <= 10
  {
    assert Pow10(5) == 100000;
    assert Pow10(10) == 10000000000;
    DigitCount(Abs(v), 10);
  }

  /** pad_int: the digits are produced last first, reversed in place, printed and padded to the width. */
  method PadInt(v: int, width: int, out: string) returns (r: string)
    requires INT_MIN < v <= INT_MAX
    ensures var pad := width - |Printed(v)|;
            r == out + Printed(v) + seq(if pad > 0 then pad else 0, _ => ' ')
  {
    TenDigits(v);
    var buf := new char[16](_ => '\0');
    var len := 0;
    if v == 0 {
      buf[0] := '0';
      len := 1;
    } else {
      len := FillDigits(buf, Abs(v));
      if v < 0 {
        ReversedAppend(buf[..len], '-');
        buf[len] := '-';
        len := len + 1;
        assert buf[..len] == buf[..len - 1] + ['-'];
      }
    }
    assert Reversed(buf[..len]) == Printed(v);
    ReversePrefix(buf, len);
    buf[len] := '\0';
    r := out + buf[..len];
    var i := len;
    while i < width
      invariant i >= len && (i <= width || i == len)
      invariant r == out + Printed(v) + seq(i - len, _ => ' ')
      decreases width - i
    {
      r := r + " ";
      i := i + 1;
      assert seq(i - len, _ => ' ') == seq(i - len - 1, _ => ' ') + [' '];
    }
  }

  /** The divide loop; its bound of 15 digits is never reached. */
  method FillDigits(buf: array<char>, n: nat) returns (len: nat)
    requires buf.Length == 16 && n > 0 && |Digits(n)| <= 10
    modifies buf
    ensures len == |Digits(n)| && Reversed(buf[..len]) == Digits(n)
  {
    len := 0;
    var x: nat := n;
    while x > 0 && len < 15
      invariant x == 0 ==> Reversed(buf[..len]) == Digits(n) && len == |Digits(n)|
      invariant x > 0 ==> Digits(n) == Digits(x) + Reversed(buf[..len]) && |Digits(n)| == |Digits(x)| + len
      invariant len <= 10
      decreases x
    {
      ReversedAppend(buf[..len], Digit(x % 10));
      ghost var was := buf[..len];
      buf[len] := Digit(x % 10);
      assert buf[..len + 1] == was + [Digit(x % 10)];
      ghost var head := if x < 10 then [] else Digits(x / 10);
      assert Digits(x) + Reversed(was) == head + ([Digit(x % 10)] + Reversed(was));
      len := len + 1;
      x := x / 10;
    }
  }

  method ReversePrefix(buf: array<char>, len: nat)
    requires len <= buf.Length
    modifies buf
    ensures buf[..len] == Reversed(old(buf[..len])) && buf[len..] == old(buf[len..])
  {
    for i := 0 to len / 2
      invariant forall k :: 0 <= k < i ==> buf[k] == old(buf[len - 1 - k]) && buf[len - 1 - k] == old(buf[k])
      invariant forall k :: i <= k < len - i ==> buf[k] == old(buf[k])
      invariant forall k :: len <= k < buf.Length ==> buf[k] == old(buf[k])
    {
      var t := buf[i];
      buf[i] := buf[len - 1 - i];
      buf[len - 1 - i] := t;
    }
    ghost var was := old(buf[..len]);
    forall k | 0 <= k < len
      ensures buf[..len][k] == Reversed(was)[k]
    {
      ReversedIndex(was, k);
    }
  }
}
