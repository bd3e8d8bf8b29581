/**
 * The pieces of JavaScript's String and Number behaviour the rest of the model
 * relies on: trim, startsWith, split and join on one character, padStart,
 * the decimal form of an integer and parseInt called without a radix.
 */
module JsStrings {
  import opened Wrappers
  import Uri

  // ---------------------------------------------------------------------------
  // Whitespace and trimming
  // ---------------------------------------------------------------------------

  /** A WhiteSpace or LineTerminator code point of ECMA-262 (sections 12.2 and
      12.3): what String.prototype.trim removes and parseInt skips. */
  predicate IsJsWhitespace(c: char) {
    c == '\t' || c == '\n' || c == '\U{000B}' || c == '\U{000C}' || c == '\r' || c == ' '
    || c == '\U{00A0}' || c == '\U{1680}' || ('\U{2000}' <= c <= '\U{200A}')
    || c == '\U{2028}' || c == '\U{2029}' || c == '\U{202F}' || c == '\U{205F}'
    || c == '\U{3000}' || c == '\U{FEFF}'
  }

  /** s without its leading whitespace. */
  function TrimStart(s: string): (r: string)
    ensures |r| <= |s| && r == s[|s| - |r|..]
    ensures r == [] || !IsJsWhitespace(r[0])
    ensures s == [] || !IsJsWhitespace(s[0]) ==> r == s
  {
    if s != [] && IsJsWhitespace(s[0]) then TrimStart(s[1..]) else s
  }

  /** s without its trailing whitespace. */
  function TrimEnd(s: string): (r: string)
    ensures |r| <= |s| && r == s[..|r|]
    ensures r == [] || !IsJsWhitespace(r[|r| - 1])
    ensures s == [] || !IsJsWhitespace(s[|s| - 1]) ==> r == s
  {
    if s != [] && IsJsWhitespace(s[|s| - 1]) then TrimEnd(s[..|s| - 1]) else s
  }

  /** String.prototype.trim: s without its leading and trailing whitespace. */
  function Trim(s: string): (r: string)
    ensures |r| <= |s|
    ensures r == [] || (!IsJsWhitespace(r[0]) && !IsJsWhitespace(r[|r| - 1]))
  {
    TrimEnd(TrimStart(s))
  }

  /** Only whitespace goes: what trimStart drops is whitespace. */
  lemma {:induction false} TrimStartDropsWhitespace(s: string)
    ensures forall k | 0 <= k < |s| - |TrimStart(s)| :: IsJsWhitespace(s[k])
  {
    if s != [] && IsJsWhitespace(s[0]) {
      TrimStartDropsWhitespace(s[1..]);
      assert forall k | 1 <= k < |s| - |TrimStart(s)| :: s[k] == s[1..][k - 1];
    }
  }

  /** Whitespace in front of text that starts with something else is all
      trimStart removes. */
  lemma {:induction false} TrimStartSkips(indent: string, t: string)
    requires forall k | 0 <= k < |indent| :: IsJsWhitespace(indent[k])
    requires t == [] || !IsJsWhitespace(t[0])
    ensures TrimStart(indent + t) == t
  {
    if indent != [] {
      assert (indent + t)[1..] == indent[1..] + t;
      TrimStartSkips(indent[1..], t);
    }
  }

  /** trimEnd never cuts into a prefix that ends in a non-whitespace
      character. */
  lemma {:induction false} TrimEndKeepsPrefix(p: string, s: string)
    requires p != [] && !IsJsWhitespace(p[|p| - 1])
    ensures p <= TrimEnd(p + s)
    decreases |s|
  {
    var t := p + s;
    if s != [] && IsJsWhitespace(t[|t| - 1]) {
      assert t[..|t| - 1] == p + s[..|s| - 1];
      TrimEndKeepsPrefix(p, s[..|s| - 1]);
    }
  }

  /** Trimming keeps a contiguous piece of s: every character of the result
      is a character of s. */
  lemma TrimKeepsCharacters(s: string)
    ensures forall c | c in Trim(s) :: c in s
  {
    var a := TrimStart(s);
    assert a == s[|s| - |a|..];
    assert Trim(s) == a[..|Trim(s)|];
    forall c | c in Trim(s)
      ensures c in s
    {
      var k :| 0 <= k < |Trim(s)| && Trim(s)[k] == c;
      assert s[|s| - |a| + k] == c;
    }
  }

  /** Concatenation regroups freely. */
  lemma ConcatAssociates<T>(x: seq<T>, y: seq<T>, z: seq<T>)
    ensures x + (y + z) == (x + y) + z
  {
  }

  /** String.prototype.startsWith, from position 0. */
  predicate StartsWith(s: string, prefix: string) {
    prefix <= s
  }

  // ---------------------------------------------------------------------------
  // split and join on one character
  // ---------------------------------------------------------------------------

  /** String.prototype.split with a one-character separator: the pieces
      between separators, in order, always at least one. */
  function Split(s: string, sep: char): (parts: seq<string>)
    ensures |parts| >= 1
    ensures forall i :: 0 <= i < |parts| ==> sep !in parts[i]
  {
    if s == [] then [""]
    else
      var rest := Split(s[1..], sep);
      if s[0] == sep then [""] + rest
      else [[s[0]] + rest[0]] + rest[1..]
  }

  /** Array.prototype.join with a one-character separator. */
  function Join(parts: seq<string>, sep: char): string
  {
    if parts == [] then ""
    else if |parts| == 1 then parts[0]
    else parts[0] + [sep] + Join(parts[1..], sep)
  }

  /** Joining the pieces of a split gives the original string back. */
  lemma {:induction false} JoinSplit(s: string, sep: char)
    ensures Join(Split(s, sep), sep) == s
  {
    if s != [] {
      JoinSplit(s[1..], sep);
      var rest := Split(s[1..], sep);
      if s[0] == sep {
        assert ([""] + rest)[1..] == rest;
      } else {
        var parts := [[s[0]] + rest[0]] + rest[1..];
        if |rest| > 1 {
          assert parts[1..] == rest[1..];
        }
      }
    }
  }

  /** A prefix without the separator becomes the first piece. */
  lemma {:induction false} SplitAtFirst(a: string, sep: char, b: string)
    requires sep !in a
    ensures Split(a + [sep] + b, sep) == [a] + Split(b, sep)
  {
    if a == [] {
      assert (a + [sep] + b)[1..] == b;
    } else {
      assert (a + [sep] + b)[1..] == a[1..] + [sep] + b;
      SplitAtFirst(a[1..], sep, b);
      assert [a[0]] + a[1..] == a;
    }
  }

  /** A string without the separator is a single piece. */
  lemma {:induction false} SplitWithoutSeparator(a: string, sep: char)
    requires sep !in a
    ensures Split(a, sep) == [a]
  {
    if a != [] {
      SplitWithoutSeparator(a[1..], sep);
      assert [a[0]] + a[1..] == a;
    }
  }

  /** Splitting a join of separator-free pieces gives the pieces back. */
  lemma {:induction false} SplitJoin(parts: seq<string>, sep: char)
    requires |parts| >= 1
    requires forall i :: 0 <= i < |parts| ==> sep !in parts[i]
    ensures Split(Join(parts, sep), sep) == parts
  {
    if |parts| == 1 {
      SplitWithoutSeparator(parts[0], sep);
    } else {
      SplitJoin(parts[1..], sep);
      SplitAtFirst(parts[0], sep, Join(parts[1..], sep));
      assert [parts[0]] + parts[1..] == parts;
    }
  }

  // ---------------------------------------------------------------------------
  // Decimal digits
  // ---------------------------------------------------------------------------

  predicate IsDigit(c: char) {
    '0' <= c <= '9'
  }

  predicate AllDigits(s: string) {
    forall k :: 0 <= k < |s| ==> IsDigit(s[k])
  }

  function DigitValue(c: char): nat
    requires IsDigit(c)
  {
    c as int - '0' as int
  }

  function DigitChar(d: nat): (c: char)
    requires d < 10
    ensures IsDigit(c) && DigitValue(c) == d
  {
    ('0' as int + d) as char
  }

  /** The decimal form of n without leading zeros, as Number.prototype.toString
      gives it for an integer. */
  function NatToString(n: nat): (r: string)
    ensures |r| >= 1 && AllDigits(r)
    ensures r[0] == '0' ==> n == 0
  {
    if n < 10 then [DigitChar(n)] else NatToString(n / 10) + [DigitChar(n % 10)]
  }

  /** The number a string of decimal digits denotes; leading zeros allowed. */
  function DecimalValue(s: string): nat
    requires AllDigits(s)
  {
    if s == [] then 0 else DecimalValue(s[..|s| - 1]) * 10 + DigitValue(s[|s| - 1])
  }

  /** Reading back the decimal form of n gives n. */
  lemma {:induction false} NatToStringValue(n: nat)
    ensures DecimalValue(NatToString(n)) == n
  {
    if n >= 10 {
      NatToStringValue(n / 10);
      var s := NatToString(n);
      assert s[..|s| - 1] == NatToString(n / 10);
    }
  }

  /** The decimal form has one digit below 10, at most two below 100. */
  lemma {:induction false} NatToStringLength(n: nat)
    ensures |NatToString(n)| == 1 <==> n < 10
    ensures |NatToString(n)| <= 2 <==> n < 100
  {
    if n >= 10 {
      NatToStringLength(n / 10);
    }
  }

  /** A leading zero does not change the value of a digit string. */
  lemma {:induction false} LeadingZero(s: string)
    requires AllDigits(s)
    ensures AllDigits("0" + s) && DecimalValue("0" + s) == DecimalValue(s)
  {
    var t := "0" + s;
    if s == [] {
      assert t[..|t| - 1] == [];
    } else {
      assert t[..|t| - 1] == "0" + s[..|s| - 1];
      LeadingZero(s[..|s| - 1]);
    }
  }

  /** The decimal form of an integer, with a leading '-' when it is negative. */
  function IntToString(i: int): (r: string)
    ensures |r| >= 1
  {
    if i < 0 then "-" + NatToString(-i) else NatToString(i)
  }

  /** String.prototype.padStart with a one-character filler. */
  function PadStart(s: string, width: nat, fill: char): (r: string)
    ensures |r| == if |s| >= width then |s| else width
    ensures r[|r| - |s|..] == s
    ensures forall k :: 0 <= k < |r| - |s| ==> r[k] == fill
  {
    if |s| >= width then s else seq(width - |s|, _ => fill) + s
  }

  // ---------------------------------------------------------------------------
  // parseInt
  // ---------------------------------------------------------------------------

  /** The longest prefix of s made of decimal digits. */
  function LeadingDigits(s: string): (r: string)
    ensures r <= s && AllDigits(r)
    ensures |r| == |s| || !IsDigit(s[|r|])
  {
    if s != [] && IsDigit(s[0]) then [s[0]] + LeadingDigits(s[1..]) else ""
  }

  /** parseInt(s) with no radix argument (section 19.2.5 of ECMA-262); None
      stands for NaN. Leading whitespace is skipped and one sign is allowed;
      after it a "0x" or "0X" prefix selects hexadecimal, otherwise the radix
      is 10, and reading stops at the first character that is not a digit of
      the radix. A value of 0 read after '-' is -0, which is 0 here. */
  function ParseInt(s: string): Option<int>
  {
    ParseSigned(TrimStart(s))
  }

  /** parseInt on text that no longer starts with whitespace. */
  function ParseSigned(t: string): Option<int>
  {
    var signed := t != [] && (t[0] == '-' || t[0] == '+');
    var magnitude := ParseMagnitude(if signed then t[1..] else t);
    if signed && t[0] == '-' && magnitude.Some? then Some(-magnitude.value) else magnitude
  }

  predicate HasHexPrefix(u: string) {
    |u| >= 2 && u[0] == '0' && (u[1] == 'x' || u[1] == 'X')
  }

  /** The unsigned part: hexadecimal digits after a "0x" prefix, decimal
      digits otherwise. */
  function ParseMagnitude(u: string): (r: Option<int>)
    ensures r.Some? ==> r.value >= 0
  {
    if HasHexPrefix(u) then ParseHexDigits(u[2..]) else ParseDigits(u)
  }

  /** The value of the leading digits of b, or None when b has none. */
  function ParseDigits(b: string): Option<int>
  {
    var digits := LeadingDigits(b);
    if digits == [] then None else Some(DecimalValue(digits))
  }

  predicate AllHexDigits(s: string) {
    forall k :: 0 <= k < |s| ==> Uri.IsHexDigit(s[k])
  }

  /** The longest prefix of s made of hexadecimal digits, in either case. */
  function LeadingHexDigits(s: string): (r: string)
    ensures r <= s && AllHexDigits(r)
    ensures |r| == |s| || !Uri.IsHexDigit(s[|r|])
  {
    if s != [] && Uri.IsHexDigit(s[0]) then [s[0]] + LeadingHexDigits(s[1..]) else ""
  }

  /** The number a string of hexadecimal digits denotes. */
  function HexNumeralValue(s: string): nat
    requires AllHexDigits(s)
  {
    if s == [] then 0 else HexNumeralValue(s[..|s| - 1]) * 16 + Uri.HexValue(s[|s| - 1])
  }

  /** The value of the leading hexadecimal digits of b, or None when b has
      none: "0x" alone is NaN. */
  function ParseHexDigits(b: string): Option<int>
  {
    var digits := LeadingHexDigits(b);
    if digits == [] then None else Some(HexNumeralValue(digits))
  }

  /** Text that starts with neither whitespace nor a sign is read by its
      unsigned part. */
  lemma ParseUnsignedText(t: string)
    requires t != [] && !IsJsWhitespace(t[0]) && t[0] != '-' && t[0] != '+'
    ensures ParseInt(t) == ParseMagnitude(t)
  {
  }

  /** Text that starts with '-' is read as its negated unsigned part (a
      NaN unsigned part stays NaN, as ParseSigned shows). */
  lemma ParseMinusText(t: string, u: string, m: int)
    requires t == ['-'] + u && ParseMagnitude(u) == Some(m)
    ensures ParseInt(t) == Some(-m)
  {
    assert t[0] == '-' && !IsJsWhitespace(t[0]);
    assert t[1..] == u;
  }

  /** Hexadecimal digits after a "0x" or "0X" prefix are read in radix 16. */
  lemma ParseHexPrefixed(x: char, d: string, t: string)
    requires x == 'x' || x == 'X'
    requires d != [] && AllHexDigits(d)
    requires t == ['0', x] + d
    ensures ParseInt(t) == Some(HexNumeralValue(d))
  {
    HexMagnitude(x, d, t);
    assert t[0] == '0';
    ParseUnsignedText(t);
  }

  lemma HexMagnitude(x: char, d: string, u: string)
    requires x == 'x' || x == 'X'
    requires d != [] && AllHexDigits(d)
    requires u == ['0', x] + d
    ensures ParseMagnitude(u) == Some(HexNumeralValue(d))
  {
    assert HasHexPrefix(u) && u[2..] == d;
    LeadingHexDigitsOfHex(d);
  }

  lemma {:induction false} LeadingHexDigitsOfHex(d: string)
    requires AllHexDigits(d)
    ensures LeadingHexDigits(d) == d
  {
    if d != [] {
      LeadingHexDigitsOfHex(d[1..]);
      assert [d[0]] + d[1..] == d;
    }
  }

  /** A "0x" prefix with no hexadecimal digit after it is NaN. */
  lemma ParseHexPrefixAlone(x: char, rest: string, t: string)
    requires x == 'x' || x == 'X'
    requires rest == [] || !Uri.IsHexDigit(rest[0])
    requires t == ['0', x] + rest
    ensures ParseInt(t) == None
  {
    assert t[0] == '0';
    ParseUnsignedText(t);
    assert HasHexPrefix(t) && t[2..] == rest;
  }

  /** A setting written in hexadecimal, "0x1E", is 30 and not the 0 a
      decimal reading gives. */
  lemma HexThirty(t: string)
    requires t == "0x1E"
    ensures ParseInt(t) == Some(30)
  {
    ParseHexPrefixed('x', "1E", t);
    assert HexNumeralValue("1E") == 30 by {
      assert "1E"[..1] == "1";
      assert "1"[..0] == "";
    }
  }

  /** "-0x10" is -16: the sign comes before the prefix. */
  lemma HexMinusSixteen(t: string)
    requires t == "-0x10"
    ensures ParseInt(t) == Some(-16)
  {
    HexSixteen();
    HexMagnitude('x', "10", "0x10");
    ParseMinusText(t, "0x10", 16);
  }

  lemma HexSixteen()
    ensures HexNumeralValue("10") == 16
  {
    assert "10"[..1] == "1";
    assert "1"[..0] == "";
  }

  /** "0x" alone is NaN. */
  lemma HexPrefixOnly(t: string)
    requires t == "0x"
    ensures ParseInt(t) == None
  {
    ParseHexPrefixAlone('x', "", t);
  }

  /** parseInt of a value that may be missing, with a fallback: NaN and 0 are
      both falsy, so both give the fallback; any other value read is the
      result. */
  function ParseIntOr(v: Option<string>, fallback: int): (n: int)
    ensures v.Some? && ParseInt(v.value).Some? && ParseInt(v.value).value != 0 ==> n == ParseInt(v.value).value
    ensures v.None? || ParseInt(v.value).None? || ParseInt(v.value) == Some(0) ==> n == fallback
  {
    if v.Some? && ParseInt(v.value).Some? && ParseInt(v.value).value != 0
    then ParseInt(v.value).value
    else fallback
  }

  lemma {:induction false} LeadingDigitsOfDigits(d: string, rest: string)
    requires AllDigits(d)
    requires rest == [] || !IsDigit(rest[0])
    ensures LeadingDigits(d + rest) == d
  {
    if d == [] {
    } else {
      assert (d + rest)[1..] == d[1..] + rest;
      LeadingDigitsOfDigits(d[1..], rest);
      assert [d[0]] + d[1..] == d;
    }
  }

  /** The digits of n followed by a non-digit are read as n. */
  lemma ParseDigitsOfNat(n: nat, rest: string)
    requires rest == [] || !IsDigit(rest[0])
    ensures ParseDigits(NatToString(n) + rest) == Some(n)
  {
    LeadingDigitsOfDigits(NatToString(n), rest);
    NatToStringValue(n);
  }

  /** The decimal form of n starts a hexadecimal prefix only as "0" followed
      by an 'x'. */
  lemma NoHexPrefix(n: nat, rest: string)
    requires n == 0 && rest != [] ==> rest[0] != 'x' && rest[0] != 'X'
    ensures !HasHexPrefix(NatToString(n) + rest)
  {
    var s := NatToString(n) + rest;
    if |s| >= 2 && s[0] == '0' {
      assert n == 0 && s[1] == rest[0];
    }
  }

  /** A leading '-' followed by the digits of n is read as -n. */
  lemma ParseNegative(n: nat, rest: string, tail: string, s: string)
    requires rest == [] || !IsDigit(rest[0])
    requires n == 0 && rest != [] ==> rest[0] != 'x' && rest[0] != 'X'
    requires tail == NatToString(n) + rest && s == ['-'] + tail
    ensures ParseInt(s) == Some(-(n as int))
  {
    MagnitudeOfNat(n, rest, tail);
    ParseMinusText(s, tail, n);
  }

  /** The unsigned part made of the digits of n is n. */
  lemma MagnitudeOfNat(n: nat, rest: string, tail: string)
    requires rest == [] || !IsDigit(rest[0])
    requires n == 0 && rest != [] ==> rest[0] != 'x' && rest[0] != 'X'
    requires tail == NatToString(n) + rest
    ensures ParseMagnitude(tail) == Some(n)
  {
    NoHexPrefix(n, rest);
    ParseDigitsOfNat(n, rest);
  }

  /** The digits of n are read as n; after "0" an 'x' would start a
      hexadecimal numeral instead. */
  lemma ParseNonNegative(n: nat, rest: string, s: string)
    requires rest == [] || !IsDigit(rest[0])
    requires n == 0 && rest != [] ==> rest[0] != 'x' && rest[0] != 'X'
    requires s == NatToString(n) + rest
    ensures ParseInt(s) == Some(n)
  {
    assert IsDigit(s[0]);
    MagnitudeOfNat(n, rest, s);
    ParseUnsignedText(s);
  }

  /** parseInt reads back the decimal form of any integer, also when it is
      followed by text that does not start with a digit (nor, after "0",
      with the 'x' of a hexadecimal prefix). */
  lemma ParseIntOfIntToString(i: int, rest: string)
    requires rest == [] || !IsDigit(rest[0])
    requires i == 0 && rest != [] ==> rest[0] != 'x' && rest[0] != 'X'
    ensures ParseInt(IntToString(i) + rest) == Some(i)
  {
    var s := IntToString(i) + rest;
    if i < 0 {
      var tail := NatToString(-i) + rest;
      assert s == ['-'] + tail;
      ParseNegative(-i, rest, tail, s);
    } else {
      ParseNonNegative(i, rest, s);
    }
  }
}
