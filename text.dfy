/**
 * Decimal text, as JavaScript renders and reads integers (`n.toString()`,
 * `padStart`), and the character-level helpers the other modules share.
 */
module Text {
  import opened Types

  predicate IsDigit(c: char)
  {
    '0' <= c <= '9'
  }

  /** A non-empty run of decimal digits. */
  predicate IsDigits(s: string)
  {
    |s| > 0 && forall i :: 0 <= i < |s| ==> IsDigit(s[i])
  }

  function DigitChar(d: nat): (c: char)
    requires d < 10
    ensures IsDigit(c)
  {
    (('0' as int) + d) as char
  }

  function DigitValue(c: char): (d: nat)
    requires IsDigit(c)
    ensures d < 10
  {
    c as int - '0' as int
  }

  /** The value of a run of digits, read most significant first. */
  function DigitsValue(s: string): nat
    requires forall i :: 0 <= i < |s| ==> IsDigit(s[i])
  {
    if s == [] then 0
    else DigitsValue(s[..|s| - 1]) * 10 + DigitValue(s[|s| - 1])
  }

  /** Reads a natural number written in decimal; anything but digits is rejected. */
  function ParseNat(s: string): (r: Option<nat>)
    ensures r.Some? <==> IsDigits(s)
  {
    if IsDigits(s) then Some(DigitsValue(s)) else None
  }

  /** `n.toString()` for a natural number: no sign, no leading zero. */
  function NatToString(n: nat): (s: string)
    ensures IsDigits(s)
    ensures n < 10 <==> |s| == 1
    ensures 10 <= n < 100 ==> |s| == 2
  {
    if n < 10 then [DigitChar(n)] else NatToString(n / 10) + [DigitChar(n % 10)]
  }

  lemma DigitsValueSnoc(s: string, c: char)
    requires forall i :: 0 <= i < |s| ==> IsDigit(s[i])
    requires IsDigit(c)
    ensures DigitsValue(s + [c]) == DigitsValue(s) * 10 + DigitValue(c)
  {
    assert (s + [c])[..|s|] == s;
  }

  /** Reading back a rendered natural number gives the number. */
  lemma {:induction false} ParseNatToString(n: nat)
    ensures ParseNat(NatToString(n)) == Some(n)
  {
    if n < 10 {
      DigitsValueSnoc([], DigitChar(n));
      assert [] + [DigitChar(n)] == NatToString(n);
    } else {
      ParseNatToString(n / 10);
      DigitsValueSnoc(NatToString(n / 10), DigitChar(n % 10));
    }
  }

  /** `i.toString()` for any integer: a minus sign before the magnitude of a negative one. */
  function IntToString(i: int): (s: string)
    ensures i >= 0 ==> s == NatToString(i)
    ensures i < 0 ==> s == "-" + NatToString(-i)
  {
    if i < 0 then "-" + NatToString(-i) else NatToString(i)
  }

  /** `s.padStart(width, c)`: `c` repeated in front until `s` is `width` long. */
  function PadStart(s: string, width: nat, c: char): (r: string)
    ensures |r| == if |s| >= width then |s| else width
    ensures r[|r| - |s|..] == s
    ensures forall i :: 0 <= i < |r| - |s| ==> r[i] == c
    decreases width - |s|
  {
    if |s| >= width then s else PadStart([c] + s, width, c)
  }

  /** The position of the first occurrence of `c` in `s`, or |s| when there is none. */
  function IndexOf(s: string, c: char): (i: nat)
    ensures i <= |s|
    ensures i < |s| ==> s[i] == c
    ensures forall k :: 0 <= k < i ==> s[k] != c
  {
    if s == [] then 0
    else if s[0] == c then 0
    else 1 + IndexOf(s[1..], c)
  }

  /** The first `c` after a prefix without one is the one right after the prefix. */
  lemma {:induction false} IndexOfAfterPrefix(prefix: string, rest: string, c: char)
    requires forall k :: 0 <= k < |prefix| ==> prefix[k] != c
    requires |rest| > 0 && rest[0] == c
    ensures IndexOf(prefix + rest, c) == |prefix|
  {
    if prefix != [] {
      assert (prefix + rest)[1..] == prefix[1..] + rest;
      IndexOfAfterPrefix(prefix[1..], rest, c);
    }
  }

  /** The characters `String.prototype.trim` and `parseInt` skip: white space and line terminators. */
  predicate IsWhitespace(c: char)
  {
    c == '\t' || c == '\n' || c == '\U{000B}' || c == '\U{000C}' || c == '\r' || c == ' ' ||
    c == '\U{00A0}' || c == '\U{1680}' || ('\U{2000}' <= c <= '\U{200A}') ||
    c == '\U{2028}' || c == '\U{2029}' || c == '\U{202F}' || c == '\U{205F}' ||
    c == '\U{3000}' || c == '\U{FEFF}'
  }

  predicate AllWhitespace(s: string)
  {
    forall i :: 0 <= i < |s| ==> IsWhitespace(s[i])
  }

  /** `s` without its leading white space. */
  function TrimStart(s: string): (r: string)
    ensures |r| <= |s| && r == s[|s| - |r|..]
    ensures AllWhitespace(s[..|s| - |r|])
    ensures r == [] || !IsWhitespace(r[0])
  {
    if s != [] && IsWhitespace(s[0]) then TrimStart(s[1..]) else s
  }

  /** `s` without its trailing white space. */
  function TrimEnd(s: string): (r: string)
    ensures |r| <= |s| && r == s[..|r|]
    ensures AllWhitespace(s[|r|..])
    ensures r == [] || !IsWhitespace(r[|r| - 1])
  {
    if s != [] && IsWhitespace(s[|s| - 1]) then TrimEnd(s[..|s| - 1]) else s
  }

  /** `s.trim()`. */
  function Trim(s: string): string
  {
    TrimEnd(TrimStart(s))
  }

  /** A text trims to nothing exactly when it is all white space. */
  lemma TrimEmptyIffBlank(s: string)
    ensures Trim(s) == [] <==> AllWhitespace(s)
  {
    var t := TrimStart(s);
    if Trim(s) == [] {
      assert AllWhitespace(t[0..]);
      assert t[0..] == t;
      assert s[..|s|] == s;
    }
  }

  /** Trimming twice trims nothing more. */
  lemma TrimIdempotent(s: string)
    ensures Trim(Trim(s)) == Trim(s)
  {
    var r := Trim(s);
    var t := TrimStart(s);
    if r != [] {
      assert r[0] == t[0];
      assert TrimStart(r) == r;
    }
  }

  /** The number of decimal digits at the start of `s`. */
  function DigitRun(s: string): (k: nat)
    ensures k <= |s|
    ensures forall i :: 0 <= i < k ==> IsDigit(s[i])
    ensures k < |s| ==> !IsDigit(s[k])
  {
    if s != [] && IsDigit(s[0]) then 1 + DigitRun(s[1..]) else 0
  }

  /** The value of the digits at the start of `s`, when there is at least one. */
  function LeadingNumber(s: string): (r: Option<nat>)
    ensures r.Some? <==> s != [] && IsDigit(s[0])
  {
    var k := DigitRun(s);
    if k == 0 then None else Some(DigitsValue(s[..k]))
  }

  /**
   * `parseInt(s)` in base 10: leading white space is skipped, then an
   * optional sign, then the longest run of digits; text after the digits
   * is ignored, and no digit at all gives NaN (None).
   */
  function ParseInt(s: string): (r: Option<int>)
  {
    ParseSigned(TrimStart(s))
  }

  /** An optional sign, then the longest run of digits. */
  function ParseSigned(t: string): (r: Option<int>)
  {
    if t != [] && (t[0] == '-' || t[0] == '+') then
      match LeadingNumber(t[1..])
      case None => None
      case Some(n) => var v: int := n; Some(if t[0] == '-' then -v else v)
    else
      match LeadingNumber(t)
      case None => None
      case Some(n) => Some(n)
  }

  lemma {:induction false} DigitRunOfDigits(s: string, rest: string)
    requires forall i :: 0 <= i < |s| ==> IsDigit(s[i])
    requires rest == [] || !IsDigit(rest[0])
    ensures DigitRun(s + rest) == |s|
  {
    if s != [] {
      assert (s + rest)[1..] == s[1..] + rest;
      DigitRunOfDigits(s[1..], rest);
    }
  }

  /** The digits of a rendered natural number, followed by a non-digit, read back as the number. */
  lemma LeadingNumberOfString(n: nat, rest: string)
    requires rest == [] || !IsDigit(rest[0])
    ensures LeadingNumber(NatToString(n) + rest) == Some(n)
  {
    var d := NatToString(n);
    ParseNatToString(n);
    DigitRunOfDigits(d, rest);
    assert (d + rest)[..|d|] == d;
  }

  /** Text that starts with a digit or a sign has no leading white space to skip. */
  lemma NoLeadingSpace(text: string)
    requires text != [] && (IsDigit(text[0]) || text[0] == '-')
    ensures TrimStart(text) == text
  {
  }

  /** Without a sign, the leading digits are read. */
  lemma ParseUnsigned(text: string)
    requires text != [] && !(text[0] == '-' || text[0] == '+')
    ensures LeadingNumber(text).Some? ==> ParseSigned(text) == Some(LeadingNumber(text).value as int)
  {
  }

  /** After a minus sign, the digits that follow it are read and negated. */
  lemma ParseMinus(text: string)
    requires text != [] && text[0] == '-'
    ensures LeadingNumber(text[1..]).Some? ==> ParseSigned(text) == Some(0 - LeadingNumber(text[1..]).value)
  {
  }

  lemma ParseIntOfDigits(i: int, rest: string)
    requires i >= 0
    requires rest == [] || !IsDigit(rest[0])
    ensures ParseInt(IntToString(i) + rest) == Some(i)
  {
    var text := NatToString(i) + rest;
    assert IntToString(i) + rest == text;
    assert TrimStart(text) == text by {
      NoLeadingSpace(text);
    }
    assert ParseSigned(text) == Some(i) by {
      LeadingNumberOfString(i, rest);
      assert IsDigit(text[0]) && !(text[0] == '-' || text[0] == '+');
      ParseUnsigned(text);
    }
  }

  lemma ParseIntOfMinusDigits(i: int, rest: string)
    requires i < 0
    requires rest == [] || !IsDigit(rest[0])
    ensures ParseInt(IntToString(i) + rest) == Some(i)
  {
    var tail := NatToString(-i) + rest;
    var text := ['-'] + tail;
    assert IntToString(i) + rest == text by {
      PrependRegroup('-', NatToString(-i), rest);
    }
    assert TrimStart(text) == text by {
      NoLeadingSpace(text);
    }
    assert ParseSigned(text) == Some(i) by {
      LeadingNumberOfString(-i, rest);
      assert text[1..] == tail;
      ParseMinus(text);
    }
  }

  lemma PrependRegroup(c: char, a: string, b: string)
    ensures [c] + a + b == [c] + (a + b)
  {
  }

  /**
   * `parseInt` reads back a rendered integer, whatever non-digit text
   * follows it.
   */
  lemma ParseIntToString(i: int, rest: string)
    requires rest == [] || !IsDigit(rest[0])
    ensures ParseInt(IntToString(i) + rest) == Some(i)
  {
    if i < 0 {
      ParseIntOfMinusDigits(i, rest);
    } else {
      ParseIntOfDigits(i, rest);
    }
  }

  /** `toLowerCase` on one character, for the ASCII letters. */
  function LowerChar(c: char): (d: char)
    ensures 'A' <= c <= 'Z' ==> d as int == c as int + 32
    ensures !('A' <= c <= 'Z') ==> d == c
  {
    if 'A' <= c <= 'Z' then (c as int + 32) as char else c
  }

  /** `s.toLowerCase()`, for the ASCII letters. */
  function Lower(s: string): (r: string)
    ensures |r| == |s|
    ensures forall i :: 0 <= i < |s| ==> r[i] == LowerChar(s[i])
  {
    if s == [] then [] else [LowerChar(s[0])] + Lower(s[1..])
  }

  /** Lower-casing leaves no ASCII capital and changes nothing a second time. */
  lemma LowerIdempotent(s: string)
    ensures forall i :: 0 <= i < |s| ==> !('A' <= Lower(s)[i] <= 'Z')
    ensures Lower(Lower(s)) == Lower(s)
  {
  }
}
