/**
 * The pieces of Python's string handling that the system relies on:
 * `str.strip`, `str.upper`/`lower`, `str.split`, `str.join`, `str.replace`,
 * `int(s)` / `int(s, 16)`, `str(n)` and the `'%02X' % n` format.
 */
module Text {
  import opened Common

  /** The characters for which Python's `str.isspace()` holds; `strip()` and `int()` drop them. */
  predicate IsSpace(c: char) {
    var n := c as int;
    (9 <= n <= 13) || (28 <= n <= 32) || n == 0x85 || n == 0xA0 || n == 0x1680
    || (0x2000 <= n <= 0x200A) || n == 0x2028 || n == 0x2029 || n == 0x202F
    || n == 0x205F || n == 0x3000
  }

  predicate NoSpace(s: string) {
    forall i :: 0 <= i < |s| ==> !IsSpace(s[i])
  }

  function TrimLeft(s: string): (t: string)
    ensures |t| <= |s|
    ensures t != [] ==> !IsSpace(t[0])
  {
    if s != [] && IsSpace(s[0]) then TrimLeft(s[1..]) else s
  }

  function TrimRight(s: string): (t: string)
    ensures |t| <= |s|
    ensures t != [] ==> !IsSpace(t[|t| - 1])
  {
    if s != [] && IsSpace(s[|s| - 1]) then TrimRight(s[..|s| - 1]) else s
  }

  /** `s.strip()`: the text with leading and trailing whitespace removed. */
  function Strip(s: string): string {
    TrimRight(TrimLeft(s))
  }

  lemma TrimLeftNoSpace(s: string)
    requires s == [] || !IsSpace(s[0])
    ensures TrimLeft(s) == s
  {
  }

  lemma TrimRightNoSpace(s: string)
    requires s == [] || !IsSpace(s[|s| - 1])
    ensures TrimRight(s) == s
  {
  }

  /** Text without whitespace at either end is left alone by `strip()`. */
  lemma StripUnchanged(s: string)
    requires s == [] || (!IsSpace(s[0]) && !IsSpace(s[|s| - 1]))
    ensures Strip(s) == s
  {
    TrimLeftNoSpace(s);
    TrimRightNoSpace(s);
  }

  /** `strip()` is idempotent. */
  lemma StripIdempotent(s: string)
    ensures Strip(Strip(s)) == Strip(s)
  {
    var t := Strip(s);
    var l := TrimLeft(s);
    assert t == TrimRight(l);
    TrimRightPrefix(l);
    if t != [] {
      assert t[0] == l[0];
    }
    StripUnchanged(t);
  }

  /** The result of `strip()` has no whitespace at either end. */
  lemma StripEnds(s: string)
    ensures Strip(s) == [] || (!IsSpace(Strip(s)[0]) && !IsSpace(Strip(s)[|Strip(s)| - 1]))
  {
    var l := TrimLeft(s);
    TrimRightPrefix(l);
    if Strip(s) != [] {
      assert Strip(s)[0] == l[0];
    }
  }

  /** `upper()` leaves whitespace where it was, so it commutes with `strip()`; and it is idempotent. */
  lemma UpperStrip(s: string)
    ensures Upper(Strip(Upper(Strip(s)))) == Upper(Strip(s))
  {
    var u := Upper(Strip(s));
    StripEnds(s);
    StripUnchanged(u);
  }

  lemma {:induction false} TrimLeftSuffix(s: string)
    ensures TrimLeft(s) == s[|s| - |TrimLeft(s)|..]
  {
    if s != [] && IsSpace(s[0]) {
      TrimLeftSuffix(s[1..]);
    }
  }

  lemma {:induction false} TrimRightPrefix(s: string)
    ensures TrimRight(s) == s[..|TrimRight(s)|]
  {
    if s != [] && IsSpace(s[|s| - 1]) {
      TrimRightPrefix(s[..|s| - 1]);
    }
  }

  /** The stripped text is a contiguous piece of the original. */
  lemma StripInfix(s: string) returns (i: nat, j: nat)
    ensures i <= j <= |s| && Strip(s) == s[i..j]
  {
    var l := TrimLeft(s);
    TrimLeftSuffix(s);
    TrimRightPrefix(l);
    i := |s| - |l|;
    j := i + |TrimRight(l)|;
    assert l == s[i..];
    assert TrimRight(l) == l[..j - i];
  }

  function UpperChar(c: char): char {
    if 'a' <= c <= 'z' then (c as int - 32) as char else c
  }

  function LowerChar(c: char): char {
    if 'A' <= c <= 'Z' then (c as int + 32) as char else c
  }

  /** `s.upper()` on ASCII letters. */
  function Upper(s: string): string {
    seq(|s|, i requires 0 <= i < |s| => UpperChar(s[i]))
  }

  /** `s.lower()` on ASCII letters. */
  function Lower(s: string): string {
    seq(|s|, i requires 0 <= i < |s| => LowerChar(s[i]))
  }

  predicate StartsWith(s: string, prefix: string) {
    |prefix| <= |s| && s[..|prefix|] == prefix
  }

  /** `s.replace(a, b)` for single characters. */
  function Replace(s: string, a: char, b: char): string {
    seq(|s|, i requires 0 <= i < |s| => if s[i] == a then b else s[i])
  }

  /** `s.split(sep)`: never empty; `"".split(sep) == [""]`. */
  function Split(s: string, sep: char): (parts: seq<string>)
    ensures |parts| >= 1
  {
    if s == [] then [[]]
    else
      var rest := Split(s[1..], sep);
      if s[0] == sep then [[]] + rest else [[s[0]] + rest[0]] + rest[1..]
  }

  /** `sep.join(parts)`. */
  function Join(parts: seq<string>, sep: char): string {
    if |parts| == 0 then []
    else if |parts| == 1 then parts[0]
    else parts[0] + [sep] + Join(parts[1..], sep)
  }

  /** `[p for p in parts if p]`. */
  function DropEmpty(parts: seq<string>): (r: seq<string>)
    ensures forall i :: 0 <= i < |r| ==> r[i] != []
  {
    if parts == [] then []
    else if parts[0] == [] then DropEmpty(parts[1..])
    else [parts[0]] + DropEmpty(parts[1..])
  }

  lemma {:induction false} SplitNoSep(p: string, sep: char)
    requires sep !in p
    ensures Split(p, sep) == [p]
  {
    if p != [] {
      SplitNoSep(p[1..], sep);
      assert [p[0]] + p[1..] == p;
    }
  }

  lemma {:induction false} SplitAfter(p: string, sep: char, rest: string)
    requires sep !in p
    ensures Split(p + [sep] + rest, sep) == [p] + Split(rest, sep)
  {
    var s := p + [sep] + rest;
    if p == [] {
      assert s[1..] == rest;
    } else {
      assert s[1..] == p[1..] + [sep] + rest;
      SplitAfter(p[1..], sep, rest);
      assert [p[0]] + p[1..] == p;
    }
  }

  /** Splitting a join gives the parts back when no part holds the separator. */
  lemma {:induction false} SplitJoin(parts: seq<string>, sep: char)
    requires |parts| >= 1
    requires forall i :: 0 <= i < |parts| ==> sep !in parts[i]
    ensures Split(Join(parts, sep), sep) == parts
  {
    if |parts| == 1 {
      SplitNoSep(parts[0], sep);
    } else {
      SplitJoin(parts[1..], sep);
      SplitAfter(parts[0], sep, Join(parts[1..], sep));
      assert [parts[0]] + parts[1..] == parts;
    }
  }

  /** No piece of a split holds the separator. */
  lemma {:induction false} SplitPartsNoSep(s: string, sep: char)
    ensures forall i :: 0 <= i < |Split(s, sep)| ==> sep !in Split(s, sep)[i]
  {
    if s != [] {
      SplitPartsNoSep(s[1..], sep);
    }
  }

  lemma {:induction false} ReplaceJoin(parts: seq<string>, sep: char, a: char, b: char)
    requires sep == a || sep == b
    requires forall i :: 0 <= i < |parts| ==> a !in parts[i]
    ensures Replace(Join(parts, sep), a, b) == Join(parts, b)
  {
    if |parts| == 1 {
      assert Replace(parts[0], a, b) == parts[0];
    } else if |parts| > 1 {
      ReplaceJoin(parts[1..], sep, a, b);
      var tail := Join(parts[1..], sep);
      var whole := parts[0] + [sep] + tail;
      assert Replace(whole, a, b) == parts[0] + [b] + Replace(tail, a, b) by {
        forall k | 0 <= k < |whole|
          ensures Replace(whole, a, b)[k] == (parts[0] + [b] + Replace(tail, a, b))[k]
        {
          if k > |parts[0]| {
            assert whole[k] == tail[k - |parts[0]| - 1];
          }
        }
      }
    }
  }

  lemma {:induction false} DropEmptyNone(parts: seq<string>)
    requires forall i :: 0 <= i < |parts| ==> parts[i] != []
    ensures DropEmpty(parts) == parts
  {
    if parts != [] {
      DropEmptyNone(parts[1..]);
      assert [parts[0]] + parts[1..] == parts;
    }
  }

  /** Dropping the empty parts of a concatenation drops them from each half. */
  lemma {:induction false} DropEmptyAppend(a: seq<string>, b: seq<string>)
    ensures DropEmpty(a + b) == DropEmpty(a) + DropEmpty(b)
  {
    if a != [] {
      assert (a + b)[1..] == a[1..] + b;
      DropEmptyAppend(a[1..], b);
    } else {
      assert a + b == b;
    }
  }

  /** Every part that survives `DropEmpty` was a part before, so a property of all parts carries over. */
  lemma {:induction false} DropEmptyKeeps(parts: seq<string>, p: string -> bool)
    requires forall i :: 0 <= i < |parts| ==> p(parts[i])
    ensures forall i :: 0 <= i < |DropEmpty(parts)| ==> p(DropEmpty(parts)[i])
  {
    if parts != [] {
      DropEmptyKeeps(parts[1..], p);
    }
  }

  // ---------------------------------------------------------------- numbers

  /** The value of a digit in bases up to 36, or 36 for a character that is no digit. */
  function DigitValue(c: char): nat {
    if '0' <= c <= '9' then c as int - '0' as int
    else if 'a' <= c <= 'z' then c as int - 'a' as int + 10
    else if 'A' <= c <= 'Z' then c as int - 'A' as int + 10
    else 36
  }

  /** The two bases numbers are read and written in. */
  datatype Radix = Decimal | Hexadecimal {
    function Size(): nat {
      if Decimal? then 10 else 16
    }

    /** `x * Size()`, spelled out per base so that the arithmetic stays linear. */
    function Shift(x: nat): (r: nat)
      ensures r == x * Size()
    {
      if Decimal? then x * 10 else x * 16
    }

    /** `n // Size()` and `n % Size()`. */
    function Quotient(n: nat): (q: nat)
      ensures n >= Size() ==> q < n
    {
      if Decimal? then n / 10 else n / 16
    }

    function Remainder(n: nat): (r: nat)
      ensures r < Size() && Shift(Quotient(n)) + r == n
    {
      if Decimal? then n % 10 else n % 16
    }
  }

  predicate IsDigit(c: char, base: Radix) {
    DigitValue(c) < base.Size()
  }

  /** The upper-case digit for `d`, as `'%X'` and `str()` print it. */
  function DigitChar(d: nat): (c: char)
    requires d < 16
    ensures DigitValue(c) == d
  {
    if d < 10 then ('0' as int + d) as char else ('A' as int + d - 10) as char
  }

  /** Value of a string of digits, most significant first. */
  function DigitsValue(s: string, base: Radix): nat {
    if s == [] then 0 else base.Shift(DigitsValue(s[..|s| - 1], base)) + DigitValue(s[|s| - 1])
  }

  /** Positional notation of `n` without leading zeros. */
  function NatToDigits(n: nat, base: Radix): (s: string)
    ensures |s| >= 1 && forall i :: 0 <= i < |s| ==> IsDigit(s[i], base)
    decreases n
  {
    if n < base.Size() then [DigitChar(n)]
    else NatToDigits(base.Quotient(n), base) + [DigitChar(base.Remainder(n))]
  }

  lemma {:induction false} NatToDigitsValue(n: nat, base: Radix)
    ensures DigitsValue(NatToDigits(n, base), base) == n
    decreases n
  {
    if n >= base.Size() {
      var q, r := base.Quotient(n), base.Remainder(n);
      var s := NatToDigits(n, base);
      assert s == NatToDigits(q, base) + [DigitChar(r)];
      assert s[..|s| - 1] == NatToDigits(q, base);
      NatToDigitsValue(q, base);
      assert DigitsValue(s, base) == base.Shift(DigitsValue(NatToDigits(q, base), base)) + r;
    } else {
      assert NatToDigits(n, base) == [DigitChar(n)];
      assert [DigitChar(n)][..0] == [];
    }
  }

  lemma {:induction false} LeadingZeroValue(s: string, base: Radix)
    ensures DigitsValue("0" + s, base) == DigitsValue(s, base)
    decreases |s|
  {
    if s != [] {
      var t := "0" + s;
      assert t[..|t| - 1] == "0" + s[..|s| - 1];
      LeadingZeroValue(s[..|s| - 1], base);
    }
  }

  /** `str(n)` for an integer. */
  function IntToString(n: int): string {
    if n < 0 then "-" + NatToDigits(-n, Decimal) else NatToDigits(n, Decimal)
  }

  /** `'%02X' % n`: upper-case hexadecimal, zero-padded to two characters. */
  function Hex2(n: int): string {
    if n < 0 then "-" + NatToDigits(-n, Hexadecimal)
    else if n < 16 then "0" + NatToDigits(n, Hexadecimal)
    else NatToDigits(n, Hexadecimal)
  }

  predicate HasHexPrefix(u: string) {
    |u| >= 2 && u[0] == '0' && (u[1] == 'x' || u[1] == 'X')
  }

  /** Digits with single underscores between them, as `int()` accepts. */
  predicate WellFormedDigits(d: string, base: Radix) {
    && |d| > 0 && IsDigit(d[0], base) && IsDigit(d[|d| - 1], base)
    && (forall i :: 0 <= i < |d| ==> IsDigit(d[i], base) || d[i] == '_')
    && (forall i :: 0 <= i < |d| - 1 ==> d[i] != '_' || d[i + 1] != '_')
  }

  function RemoveUnderscores(d: string): string {
    if d == [] then []
    else if d[0] == '_' then RemoveUnderscores(d[1..])
    else [d[0]] + RemoveUnderscores(d[1..])
  }

  /** The digits part of an unsigned numeral: after an optional `0x` and one `_` in base 16. */
  function DigitsPart(u: string, base: Radix): string {
    if base == Hexadecimal && HasHexPrefix(u) then
      (if |u| > 2 && u[2] == '_' then u[3..] else u[2..])
    else u
  }

  /** The value of an unsigned numeral, or `None` when it is malformed. */
  function ParseUnsigned(u: string, base: Radix): Option<nat> {
    var d := DigitsPart(u, base);
    if WellFormedDigits(d, base) then Some(DigitsValue(RemoveUnderscores(d), base)) else None
  }

  /** A numeral with at most one leading `+` or `-`. */
  function ParseSigned(t: string, base: Radix): Option<int> {
    if |t| > 0 && (t[0] == '-' || t[0] == '+') then
      match ParseUnsigned(t[1..], base)
      case None => None
      case Some(v) => var w: int := v; Some(if t[0] == '-' then -w else w)
    else
      match ParseUnsigned(t, base)
      case None => None
      case Some(v) => Some(v)
  }

  /**
   * Python's `int(s, base)` for bases 10 and 16: surrounding whitespace, one sign,
   * `0x`/`0X` in base 16, underscores between digits; `None` where Python raises ValueError.
   */
  function ParseInt(s: string, base: Radix): Option<int>
  {
    ParseSigned(Strip(s), base)
  }

  /** `int(s)`. */
  function ParseDecimal(s: string): Option<int> {
    ParseInt(s, Decimal)
  }

  lemma {:induction false} RemoveUnderscoresDigits(d: string, base: Radix)
    requires forall i :: 0 <= i < |d| ==> IsDigit(d[i], base)
    ensures RemoveUnderscores(d) == d
  {
    if d != [] {
      assert d[0] != '_';
      RemoveUnderscoresDigits(d[1..], base);
      assert [d[0]] + d[1..] == d;
    }
  }

  lemma PlainUnsigned(d: string, base: Radix)
    requires |d| >= 1 && forall i :: 0 <= i < |d| ==> IsDigit(d[i], base)
    requires |d| >= 2 ==> d[1] != 'x' && d[1] != 'X'
    ensures ParseUnsigned(d, base) == Some(DigitsValue(d, base))
  {
    assert !HasHexPrefix(d);
    assert WellFormedDigits(d, base);
    RemoveUnderscoresDigits(d, base);
  }

  /** Text without surrounding whitespace: `int()` reads the sign and digits directly. */
  lemma ParseIntUnstripped(s: string, base: Radix)
    requires |s| >= 1 && !IsSpace(s[0]) && !IsSpace(s[|s| - 1])
    ensures ParseInt(s, base) == ParseSigned(s, base)
  {
    StripUnchanged(s);
  }

  lemma PlainPositiveParse(d: string, base: Radix)
    requires |d| >= 1 && forall i :: 0 <= i < |d| ==> IsDigit(d[i], base)
    requires |d| >= 2 ==> d[1] != 'x' && d[1] != 'X'
    ensures ParseInt(d, base) == Some(DigitsValue(d, base) as int)
  {
    assert IsDigit(d[0], base) && IsDigit(d[|d| - 1], base);
    ParseIntUnstripped(d, base);
    PlainUnsigned(d, base);
  }

  /** A leading `-` negates the unsigned value after it. */
  lemma NegatedUnsigned(t: string, base: Radix, u: nat)
    requires |t| > 0 && t[0] == '-' && ParseUnsigned(t[1..], base) == Some(u)
    ensures ParseSigned(t, base) == Some(-(u as int))
  {
  }

  lemma NegativeSigned(d: string, base: Radix)
    requires |d| >= 1 && forall i :: 0 <= i < |d| ==> IsDigit(d[i], base)
    requires |d| >= 2 ==> d[1] != 'x' && d[1] != 'X'
    ensures ParseSigned("-" + d, base) == Some(-(DigitsValue(d, base) as int))
  {
    var t := "-" + d;
    assert t[1..] == d;
    PlainUnsigned(d, base);
    NegatedUnsigned(t, base, DigitsValue(d, base));
  }

  lemma PlainNegativeParse(d: string, base: Radix)
    requires |d| >= 1 && forall i :: 0 <= i < |d| ==> IsDigit(d[i], base)
    requires |d| >= 2 ==> d[1] != 'x' && d[1] != 'X'
    ensures ParseInt("-" + d, base) == Some(-(DigitsValue(d, base) as int))
  {
    var s := "-" + d;
    assert s[|s| - 1] == d[|d| - 1] && IsDigit(d[|d| - 1], base);
    ParseIntUnstripped(s, base);
    NegativeSigned(d, base);
  }

  /** An unsigned numeral of plain digits (not starting `0x`) parses to its digit value. */
  lemma PlainDigitsParse(sign: string, d: string, base: Radix)
    requires sign == "" || sign == "-"
    requires |d| >= 1 && forall i :: 0 <= i < |d| ==> IsDigit(d[i], base)
    requires |d| >= 2 ==> d[1] != 'x' && d[1] != 'X'
    ensures var v: int := DigitsValue(d, base);
      ParseInt(sign + d, base) == Some(if sign == "-" then -v else v)
  {
    if sign == "-" {
      PlainNegativeParse(d, base);
    } else {
      assert sign + d == d;
      PlainPositiveParse(d, base);
    }
  }

  /** `int(str(n)) == n`. */
  lemma ParseIntToString(n: int)
    ensures ParseDecimal(IntToString(n)) == Some(n)
  {
    var m: nat := if n < 0 then -n else n;
    var d := NatToDigits(m, Decimal);
    NatToDigitsValue(m, Decimal);
    if n < 0 {
      PlainNegativeParse(d, Decimal);
      assert IntToString(n) == "-" + d;
    } else {
      PlainPositiveParse(d, Decimal);
      assert IntToString(n) == d;
    }
  }

  /** `int('%02X' % n, 16) == n`: the two-digit hexadecimal rendering reads back. */
  lemma ParseHex2(n: int)
    ensures ParseInt(Hex2(n), Hexadecimal) == Some(n)
  {
    var m: nat := if n < 0 then -n else n;
    var d := NatToDigits(m, Hexadecimal);
    NatToDigitsValue(m, Hexadecimal);
    if n < 0 {
      PlainDigitsParse("-", d, Hexadecimal);
    } else if n < 16 {
      LeadingZeroValue(d, Hexadecimal);
      PlainDigitsParse("", "0" + d, Hexadecimal);
      assert "" + ("0" + d) == Hex2(n);
    } else {
      PlainDigitsParse("", d, Hexadecimal);
      assert "" + d == d;
    }
  }

  /** `'%02X' % n` has exactly two characters for a byte value. */
  lemma Hex2Byte(n: int)
    requires 0 <= n < 256
    ensures |Hex2(n)| == 2
    ensures forall i :: 0 <= i < 2 ==> IsDigit(Hex2(n)[i], Hexadecimal)
  {
    if n >= 16 {
      assert NatToDigits(n, Hexadecimal) == NatToDigits(n / 16, Hexadecimal) + [DigitChar(n % 16)];
    }
  }

  /** The renderings of numbers hold only digits and `-`: no separator, no space. */
  lemma IntToStringChars(n: int)
    ensures forall i :: 0 <= i < |IntToString(n)| ==> IntToString(n)[i] == '-' || IsDigit(IntToString(n)[i], Decimal)
  {
  }

  lemma Hex2Chars(n: int)
    ensures Hex2(n) != []
    ensures forall i :: 0 <= i < |Hex2(n)| ==> Hex2(n)[i] == '-' || IsDigit(Hex2(n)[i], Hexadecimal)
  {
  }
}
