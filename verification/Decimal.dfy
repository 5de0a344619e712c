/**
  The decimal printer and parser of exos/kernel/machine/hal.c. Digits are produced lowest first into the
  caller's buffer, padded, and reversed in place; the parser skips spaces and accumulates digits modulo 2^32.
*/
module Decimal {

  import opened Words

  // ---------------------------------------------------------------- text

  function DigitChar(d: int): char
    requires 0 <= d < 10
  {
    '0' + d as char
  }

  predicate IsDigit(c: char) {
    '0' <= c <= '9'
  }

  function DigitValue(c: char): int
    requires IsDigit(c)
  {
    (c - '0') as int
  }

  lemma DigitRoundTrip(d: int)
    requires 0 <= d < 10
    ensures IsDigit(DigitChar(d)) && DigitValue(DigitChar(d)) == d
  {
  }

  /** Decimal digits, highest first, without leading zeros. */
  function Digits(v: nat): string {
    if v < 10 then [DigitChar(v)] else Digits(v / 10) + [DigitChar(v % 10)]
  }

  function Repeat(c: char, n: nat): string {
    seq(n, i => c)
  }

  function PadCount(v: nat, width: int): nat {
    if |Digits(v)| < width then width - |Digits(v)| else 0
  }

  /** The digits of v, right aligned in width places. */
  function Printed(v: nat, width: int, pad: char): string {
    Repeat(pad, PadCount(v, width)) + Digits(v)
  }

  /** Decimal digits, lowest first. */
  function LowFirst(v: nat): string {
    if v < 10 then [DigitChar(v)] else [DigitChar(v % 10)] + LowFirst(v / 10)
  }

  function Reversed(s: string): string {
    seq(|s|, i requires 0 <= i < |s| => s[|s| - 1 - i])
  }

  lemma ReversedConcat(a: string, b: string)
    ensures Reversed(a + b) == Reversed(b) + Reversed(a)
  {
  }

  lemma {:induction false} LowFirstReversed(v: nat)
    ensures Reversed(LowFirst(v)) == Digits(v) && |LowFirst(v)| == |Digits(v)|
  {
    if v >= 10 {
      LowFirstReversed(v / 10);
      ReversedConcat([DigitChar(v % 10)], LowFirst(v / 10));
      assert Reversed([DigitChar(v % 10)]) == [DigitChar(v % 10)];
    } else {
      assert Reversed([DigitChar(v)]) == [DigitChar(v)];
    }
  }

  lemma PrintedReversed(v: nat, width: int, pad: char)
    ensures Reversed(LowFirst(v) + Repeat(pad, PadCount(v, width))) == Printed(v, width, pad)
  {
    var n := PadCount(v, width);
    ReversedConcat(LowFirst(v), Repeat(pad, n));
    LowFirstReversed(v);
    assert Reversed(Repeat(pad, n)) == Repeat(pad, n);
  }

  /** The text, character by character: padding in front, and the digits at the end. */
  lemma PrintedText(v: nat, width: int, pad: char)
    ensures var p, n := Printed(v, width, pad), |Digits(v)|;
            && |p| == (if n < width then width else n)
            && (forall i :: 0 <= i < |p| - n ==> p[i] == pad)
            && p[|p| - n..] == Digits(v)
  {
    hide Digits;
  }

  /** The digits have no leading zero, except that 0 is printed as one. */
  lemma {:induction false} DigitsLead(v: nat)
    ensures Digits(v) != [] && (Digits(v)[0] == '0' <==> v == 0) && (v == 0 ==> |Digits(v)| == 1)
  {
    if v >= 10 {
      DigitsLead(v / 10);
    }
  }

  // ---------------------------------------------------------------- the printer

  /** _reverse_str. */
  method ReverseText(str: array<char>, len: int)
    requires 0 <= len <= str.Length
    modifies str
    ensures str[..len] == Reversed(old(str[..len]))
    ensures str[len..] == old(str[len..])
  {
    var p, q := 0, len - 1;
    while p < q
      invariant 0 <= p && q == len - 1 - p && p <= len && p <= q + 2
      invariant forall k :: 0 <= k < p ==> str[k] == old(str[len - 1 - k])
      invariant forall k :: q < k < len ==> str[k] == old(str[len - 1 - k])
      invariant forall k :: p <= k <= q ==> str[k] == old(str[k])
      invariant str[len..] == old(str[len..])
    {
      str[p], str[q] := str[q], str[p];
      p, q := p + 1, q - 1;
    }
    assert forall k :: 0 <= k < len ==> str[k] == old(str[len - 1 - k]);
  }

  lemma LowFirstStep(v: nat)
    ensures LowFirst(v) == [DigitChar(v % 10)] + (if v / 10 == 0 then [] else LowFirst(v / 10))
    ensures LowFirst(v) != []
  {
  }

  /** The first loop of __uint_declz. */
  method WriteDigits(dst: array<char>, value: nat) returns (length: nat)
    requires |LowFirst(value)| <= dst.Length
    modifies dst
    ensures length == |LowFirst(value)| && dst[..length] == LowFirst(value)
    ensures dst[length..] == old(dst[length..])
  {
    hide LowFirst, DigitChar;
    length := 0;
    var v := value;
    ghost var all := LowFirst(value);
    ghost var was := dst[..];
    var more := true;
    ghost var left := all;
    while more
      invariant length <= |all| && dst[..length] + left == all && left == if more then LowFirst(v) else []
      invariant forall i :: length <= i < dst.Length ==> dst[i] == was[i]
      decreases more, v
    {
      LowFirstStep(v);
      ghost var done := dst[..length];
      assert length < |all|;
      dst[length] := DigitChar(v % 10);
      length := length + 1;
      assert dst[..length] == done + [left[0]];
      left := left[1..];
      v := v / 10;
      more := v != 0;
    }
  }

  /** __uint_declz: max(width, digits) characters, the digits right aligned after the padding. */
  method Print(dst: array<char>, value: nat, tz: int, tc: char) returns (length: nat)
    requires value < WORD && 0 <= tz
    requires |Printed(value, tz, tc)| <= dst.Length
    modifies dst
    ensures length == |Printed(value, tz, tc)| && dst[..length] == Printed(value, tz, tc)
    ensures dst[length..] == old(dst[length..])
    ensures length == if |Digits(value)| < tz then tz else |Digits(value)|
    ensures forall i :: 0 <= i < length - |Digits(value)| ==> dst[i] == tc
    ensures dst[length - |Digits(value)|..length] == Digits(value)
  {
    PrintedText(value, tz, tc);
    LowFirstReversed(value);
    hide Digits, LowFirst;
    length := WriteDigits(dst, value);
    ghost var n := length;
    ghost var was := dst[..];
    while length < tz
      invariant n <= length && (length <= tz || length == n) && length <= dst.Length
      invariant dst[..length] == was[..n] + Repeat(tc, length - n)
      invariant forall i :: length <= i < dst.Length ==> dst[i] == was[i]
    {
      dst[length] := tc;
      assert dst[..length + 1] == dst[..length] + [tc];
      assert Repeat(tc, length + 1 - n) == Repeat(tc, length - n) + [tc];
      length := length + 1;
    }
    PrintedReversed(value, tz, tc);
    ReverseText(dst, length);
  }

  // ---------------------------------------------------------------- the parser

  /** First place from i on that holds no space. */
  function SpaceEnd(s: string, i: nat): (e: nat)
    requires i <= |s|
    ensures i <= e <= |s| && (e < |s| ==> s[e] != ' ') && forall k :: i <= k < e ==> s[k] == ' '
    decreases |s| - i
  {
    if i < |s| && s[i] == ' ' then SpaceEnd(s, i + 1) else i
  }

  /** First place from i on that holds no digit. */
  function DigitEnd(s: string, i: nat): (e: nat)
    requires i <= |s|
    ensures i <= e <= |s| && (e < |s| ==> !IsDigit(s[e])) && forall k :: i <= k < e ==> IsDigit(s[k])
    decreases |s| - i
  {
    if i < |s| && IsDigit(s[i]) then DigitEnd(s, i + 1) else i
  }

  predicate AllDigits(s: string) {
    forall k :: 0 <= k < |s| ==> IsDigit(s[k])
  }

  /** The number a digit string denotes. */
  function DecValue(s: string): nat
    requires AllDigits(s)
  {
    if s == [] then 0 else DecValue(s[..|s| - 1]) * 10 + DigitValue(s[|s| - 1])
  }

  /** The digit loop of __decl_uint. */
  method ReadDigits(src: string, start: nat) returns (done: nat, value: int)
    requires start < |src| && src[|src| - 1] == '\0'
    ensures done == DigitEnd(src, start) < |src|
    ensures value == DecValue(src[start..done]) % WORD
  {
    done, value := start, 0;
    assert src[start..done] == [];
    while IsDigit(src[done])
      invariant start <= done < |src| && DigitEnd(src, done) == DigitEnd(src, start)
      invariant AllDigits(src[start..done]) && value == DecValue(src[start..done]) % WORD
      decreases |src| - done
    {
      hide DecValue, DigitValue, AllDigits;
      DecStep(src, start, done);
      WrapStep(DecValue(src[start..done]), DigitValue(src[done]));
      value := (value * 10 + DigitValue(src[done])) % WORD;
      done := done + 1;
    }
  }

  /** __decl_uint on a string that ends in NUL: spaces, then the longest run of digits, modulo 2^32. */
  method Parse(src: string) returns (done: nat, value: int)
    requires src != [] && src[|src| - 1] == '\0'
    ensures done == DigitEnd(src, SpaceEnd(src, 0)) < |src|
    ensures value == DecValue(src[SpaceEnd(src, 0)..done]) % WORD
  {
    var start := 0;
    while src[start] == ' '
      invariant start < |src| && SpaceEnd(src, start) == SpaceEnd(src, 0)
      decreases |src| - start
    {
      start := start + 1;
    }
    done, value := ReadDigits(src, start);
  }

  lemma DecStep(src: string, start: nat, done: nat)
    requires start <= done < |src| && AllDigits(src[start..done]) && IsDigit(src[done])
    ensures AllDigits(src[start..done + 1])
    ensures DecValue(src[start..done + 1]) == DecValue(src[start..done]) * 10 + DigitValue(src[done])
  {
    hide DigitValue;
    var next := src[start..done + 1];
    assert next[..|next| - 1] == src[start..done];
    assert next[|next| - 1] == src[done];
    assert forall k :: 0 <= k < |next| - 1 ==> next[k] == src[start..done][k];
  }

  lemma WrapStep(x: nat, d: int)
    ensures ((x % WORD) * 10 + d) % WORD == (x * 10 + d) % WORD
  {
    var k := x / WORD;
    assert x * 10 + d == (x % WORD) * 10 + d + WORD * (10 * k);
  }

  // ---------------------------------------------------------------- the round trip

  lemma {:induction false} DigitsAre(v: nat)
    ensures AllDigits(Digits(v)) && Digits(v) != [] && DecValue(Digits(v)) == v
  {
    if v < 10 {
      DigitRoundTrip(v);
      assert DecValue([]) == 0;
      assert Digits(v)[..0] == [];
    } else {
      DigitsAre(v / 10);
      DigitRoundTrip(v % 10);
      assert Digits(v)[..|Digits(v)| - 1] == Digits(v / 10);
    }
  }

  /** Leading zeros do not change the number. */
  lemma {:induction false} LeadingZeros(n: nat, s: string)
    requires AllDigits(s)
    ensures AllDigits(Repeat('0', n) + s) && DecValue(Repeat('0', n) + s) == DecValue(s)
    decreases n + |s|
  {
    var t := Repeat('0', n) + s;
    if s != [] {
      LeadingZeros(n, s[..|s| - 1]);
      assert t[..|t| - 1] == Repeat('0', n) + s[..|s| - 1];
    } else if n > 0 {
      LeadingZeros(n - 1, []);
      assert t[..|t| - 1] == Repeat('0', n - 1) + [];
    } else {
      assert t == s;
    }
  }

  lemma SpaceEndIs(s: string, e: nat)
    requires e <= |s| && (forall k :: 0 <= k < e ==> s[k] == ' ') && (e < |s| ==> s[e] != ' ')
    ensures SpaceEnd(s, 0) == e
  {
  }

  lemma DigitEndIs(s: string, i: nat, e: nat)
    requires i <= e <= |s| && (forall k :: i <= k < e ==> IsDigit(s[k])) && (e < |s| ==> !IsDigit(s[e]))
    ensures DigitEnd(s, i) == e
  {
  }

  ghost predicate ParsesTo(s: string, end: nat, v: nat) {
    var start := SpaceEnd(s, 0);
    DigitEnd(s, start) == end && DecValue(s[start..end]) % WORD == v
  }

  lemma PlacesOf(n: nat, digits: string, rest: string, s: string)
    requires digits != [] && AllDigits(digits) && rest != [] && s == Repeat(' ', n) + digits + rest
    ensures |s| == n + |digits| + |rest|
    ensures forall k :: 0 <= k < n ==> s[k] == ' '
    ensures forall k :: n <= k < n + |digits| ==> IsDigit(s[k])
    ensures s[n + |digits|] == rest[0] && s[n..n + |digits|] == digits
  {
    forall k | n <= k < n + |digits| ensures IsDigit(s[k]) {
      assert s[k] == digits[k - n];
    }
  }

  lemma ParseSpaces(n: nat, digits: string, rest: string)
    requires digits != [] && AllDigits(digits) && DecValue(digits) < WORD && rest != [] && !IsDigit(rest[0])
    ensures ParsesTo(Repeat(' ', n) + digits + rest, n + |digits|, DecValue(digits))
  {
    hide DecValue, Repeat, SpaceEnd, DigitEnd, AllDigits;
    var s := Repeat(' ', n) + digits + rest;
    PlacesOf(n, digits, rest, s);
    SpaceEndIs(s, n);
    DigitEndIs(s, n, n + |digits|);
  }

  /** Parsing the printed text, whatever follows, reads all of it and gives the value back. */
  lemma PrintParse(v: nat, width: int, pad: char, rest: string)
    requires v < WORD && (pad == '0' || pad == ' ')
    requires rest != [] && !IsDigit(rest[0])
    ensures ParsesTo(Printed(v, width, pad) + rest, |Printed(v, width, pad)|, v)
  {
    var n := PadCount(v, width);
    DigitsAre(v);
    hide Digits, DecValue;
    if pad == ' ' {
      ParseSpaces(n, Digits(v), rest);
    } else {
      LeadingZeros(n, Digits(v));
      ParseSpaces(0, Printed(v, width, pad), rest);
      assert Repeat(' ', 0) + Printed(v, width, pad) + rest == Printed(v, width, pad) + rest;
    }
  }

  /** The printed text has max(width, digits) characters. */
  lemma PrintedLength(v: nat, width: int, pad: char)
    ensures |Printed(v, width, pad)| == if |Digits(v)| < width then width else |Digits(v)|
    ensures v < WORD ==> |Digits(v)| <= 10
  {
    if v < WORD {
      DigitCount(v, 10);
      assert Pow10(2) == 100;
      assert Pow10(4) == 10_000;
      assert Pow10(6) == 1_000_000;
      assert Pow10(8) == 100_000_000;
      assert Pow10(10) == 10_000_000_000;
    }
  }

  function Pow10(n: nat): (r: nat)
    ensures r >= 1
  {
    if n == 0 then 1 else 10 * Pow10(n - 1)
  }

  lemma {:induction false} DigitCount(v: nat, n: nat)
    requires n > 0
    ensures |Digits(v)| <= n <==> v < Pow10(n)
  {
    if v >= 10 {
      DigitsAre(v / 10);
      if n > 1 {
        DigitCount(v / 10, n - 1);
      }
    }
  }
}
