/**
 * Model of urlBase64ToUint8Array in src/hooks/usePushNotifications.ts:
 * the VAPID public key, written in the base64url alphabet without
 * padding (section 5 of RFC 4648), is padded with "=", mapped to the
 * standard alphabet (section 4 of RFC 4648), decoded by the browser's
 * `atob` into a binary string, and copied byte by byte into an array.
 *
 * `atob` is modelled as the forgiving-base64 decode it performs: ASCII
 * white space is removed, one or two final "=" are dropped from a length
 * that is a multiple of 4, a length of 1 modulo 4 or a character outside
 * the alphabet fails (the exception is None here), and the leftover bits
 * of a final partial group are discarded.
 */
module PushKey {
  import opened Types

  type byte = x: int | 0 <= x < 256

  // ---------------------------------------------------------------------
  // Padding and alphabet mapping
  // ---------------------------------------------------------------------

  /** `c.repeat(n)`. */
  function Repeat(c: char, n: nat): (r: string)
    ensures |r| == n && forall i :: 0 <= i < n ==> r[i] == c
  {
    seq(n, _ => c)
  }

  /**
   * `"=".repeat((4 - (s.length % 4)) % 4)`: the fewest "=" that make the
   * length a multiple of 4.
   */
  function Padding(s: string): (pad: string)
    ensures 0 <= |pad| <= 3 && (|s| + |pad|) % 4 == 0
    ensures forall i :: 0 <= i < |pad| ==> pad[i] == '='
  {
    Repeat('=', (4 - |s| % 4) % 4)
  }

  /** `.replace(/x/g, y)` for one character. */
  function ReplaceAll(s: string, from: char, to: char): (r: string)
    ensures |r| == |s|
    ensures forall i :: 0 <= i < |s| ==> r[i] == if s[i] == from then to else s[i]
  {
    seq(|s|, i requires 0 <= i < |s| => if s[i] == from then to else s[i])
  }

  /**
   * `.replace(/-/g, "+").replace(/_/g, "/")`: the two characters in which
   * the URL-safe alphabet differs are mapped to the standard ones, every
   * other character is kept.
   */
  function ToStandard(s: string): (r: string)
    ensures |r| == |s|
    ensures forall i :: 0 <= i < |s| ==>
      r[i] == if s[i] == '-' then '+' else if s[i] == '_' then '/' else s[i]
  {
    ReplaceAll(ReplaceAll(s, '-', '+'), '_', '/')
  }

  // ---------------------------------------------------------------------
  // The alphabets of RFC 4648
  // ---------------------------------------------------------------------

  /** Table 1 (section 4) when `url` is false, table 2 (section 5) when it is true. */
  function Letter(v: int, url: bool): char
    requires 0 <= v < 64
  {
    if v < 26 then ('A' as int + v) as char
    else if v < 52 then ('a' as int + (v - 26)) as char
    else if v < 62 then ('0' as int + (v - 52)) as char
    else if v == 62 then (if url then '-' else '+')
    else (if url then '_' else '/')
  }

  /** The value of a character of the standard alphabet. */
  function SextetOf(c: char): (r: Option<int>)
    ensures r.Some? ==> 0 <= r.value < 64 && Letter(r.value, false) == c
  {
    if 'A' <= c <= 'Z' then Some(c as int - 'A' as int)
    else if 'a' <= c <= 'z' then Some(c as int - 'a' as int + 26)
    else if '0' <= c <= '9' then Some(c as int - '0' as int + 52)
    else if c == '+' then Some(62)
    else if c == '/' then Some(63)
    else None
  }

  /** Every letter of the standard alphabet decodes to its value. */
  lemma SextetOfLetter(v: int)
    requires 0 <= v < 64
    ensures SextetOf(Letter(v, false)) == Some(v)
  {
  }

  /** Mapping a URL-safe letter to the standard alphabet gives the standard letter of the same value. */
  lemma StandardOfUrlLetter(v: int)
    requires 0 <= v < 64
    ensures (var c := Letter(v, true); if c == '-' then '+' else if c == '_' then '/' else c) == Letter(v, false)
  {
  }

  predicate InAlphabet(s: string)
  {
    forall i :: 0 <= i < |s| ==> SextetOf(s[i]).Some?
  }

  // ---------------------------------------------------------------------
  // Encoding (the producer of the key) and atob
  // ---------------------------------------------------------------------

  /** The four letters of three bytes: their 24 bits, six at a time. */
  function Group(b0: byte, b1: byte, b2: byte, url: bool): (s: string)
    ensures |s| == 4
  {
    [Letter(b0 / 4, url), Letter(b0 % 4 * 16 + b1 / 16, url),
     Letter(b1 % 16 * 4 + b2 / 64, url), Letter(b2 % 64, url)]
  }

  /** The three letters of a final two bytes, the last with two zero bits. */
  function FinalPair(b0: byte, b1: byte, url: bool): (s: string)
    ensures |s| == 3
  {
    [Letter(b0 / 4, url), Letter(b0 % 4 * 16 + b1 / 16, url), Letter(b1 % 16 * 4, url)]
  }

  /** The two letters of a final byte, the last with four zero bits. */
  function FinalSingle(b0: byte, url: bool): (s: string)
    ensures |s| == 2
  {
    [Letter(b0 / 4, url), Letter(b0 % 4 * 16, url)]
  }

  /**
   * Base64 of `b` without padding: each 3 bytes become 4 letters, and a
   * final 1 or 2 bytes become 2 or 3 letters.
   */
  function Encode(b: seq<byte>, url: bool): (s: string)
    ensures |s| % 4 != 1
  {
    if |b| >= 3 then Group(b[0], b[1], b[2], url) + Encode(b[3..], url)
    else if |b| == 2 then FinalPair(b[0], b[1], url)
    else if |b| == 1 then FinalSingle(b[0], url)
    else []
  }

  /** Mapping to the standard alphabet works character by character. */
  lemma ToStandardAppend(x: string, y: string)
    ensures ToStandard(x + y) == ToStandard(x) + ToStandard(y)
  {
    var l, r := ToStandard(x + y), ToStandard(x) + ToStandard(y);
    assert |l| == |r|;
    forall i | 0 <= i < |l|
      ensures l[i] == r[i]
    {
      if i < |x| {
        assert (x + y)[i] == x[i] && r[i] == ToStandard(x)[i];
      } else {
        assert (x + y)[i] == y[i - |x|] && r[i] == ToStandard(y)[i - |x|];
      }
    }
  }

  /** The URL-safe letters of a value, mapped, are its standard letters. */
  lemma LettersToStandard(vs: seq<int>)
    requires forall k :: 0 <= k < |vs| ==> 0 <= vs[k] < 64
    ensures ToStandard(seq(|vs|, k requires 0 <= k < |vs| => Letter(vs[k], true)))
         == seq(|vs|, k requires 0 <= k < |vs| => Letter(vs[k], false))
  {
    forall k | 0 <= k < |vs| {
      StandardOfUrlLetter(vs[k]);
    }
  }

  /** The letters of a group, mapped, are its standard letters. */
  lemma GroupToStandard(b0: byte, b1: byte, b2: byte)
    ensures ToStandard(Group(b0, b1, b2, true)) == Group(b0, b1, b2, false)
  {
    var vs := [b0 / 4, b0 % 4 * 16 + b1 / 16, b1 % 16 * 4 + b2 / 64, b2 % 64];
    LettersToStandard(vs);
    assert Group(b0, b1, b2, true) == seq(4, k requires 0 <= k < 4 => Letter(vs[k], true));
    assert Group(b0, b1, b2, false) == seq(4, k requires 0 <= k < 4 => Letter(vs[k], false));
  }

  /** The letters of a final one or two bytes, mapped, are their standard letters. */
  lemma FinalToStandard(b0: byte, b1: byte)
    ensures ToStandard(FinalPair(b0, b1, true)) == FinalPair(b0, b1, false)
    ensures ToStandard(FinalSingle(b0, true)) == FinalSingle(b0, false)
  {
    var vs := [b0 / 4, b0 % 4 * 16 + b1 / 16, b1 % 16 * 4];
    LettersToStandard(vs);
    assert FinalPair(b0, b1, true) == seq(3, k requires 0 <= k < 3 => Letter(vs[k], true));
    assert FinalPair(b0, b1, false) == seq(3, k requires 0 <= k < 3 => Letter(vs[k], false));
    var ws := [b0 / 4, b0 % 4 * 16];
    LettersToStandard(ws);
    assert FinalSingle(b0, true) == seq(2, k requires 0 <= k < 2 => Letter(ws[k], true));
    assert FinalSingle(b0, false) == seq(2, k requires 0 <= k < 2 => Letter(ws[k], false));
  }

  /** The URL-safe and the standard encodings differ only in the two mapped letters. */
  lemma {:induction false} EncodeToStandard(b: seq<byte>)
    ensures ToStandard(Encode(b, true)) == Encode(b, false)
    decreases |b|
  {
    if |b| >= 3 {
      EncodeToStandard(b[3..]);
      GroupToStandard(b[0], b[1], b[2]);
      ToStandardAppend(Group(b[0], b[1], b[2], true), Encode(b[3..], true));
    } else if |b| == 2 {
      FinalToStandard(b[0], b[1]);
    } else if |b| == 1 {
      FinalToStandard(b[0], 0);
    }
  }

  /** Letters of values are in the standard alphabet. */
  lemma LettersInAlphabet(vs: seq<int>)
    requires forall k :: 0 <= k < |vs| ==> 0 <= vs[k] < 64
    ensures InAlphabet(seq(|vs|, k requires 0 <= k < |vs| => Letter(vs[k], false)))
  {
    forall k | 0 <= k < |vs| {
      SextetOfLetter(vs[k]);
    }
  }

  lemma InAlphabetAppend(x: string, y: string)
    requires InAlphabet(x) && InAlphabet(y)
    ensures InAlphabet(x + y)
  {
    forall i | 0 <= i < |x + y|
      ensures SextetOf((x + y)[i]).Some?
    {
      if i < |x| {
        assert (x + y)[i] == x[i];
      } else {
        assert (x + y)[i] == y[i - |x|];
      }
    }
  }

  /** The letters of a group are in the standard alphabet. */
  lemma GroupInAlphabet(b0: byte, b1: byte, b2: byte)
    ensures InAlphabet(Group(b0, b1, b2, false))
  {
    var vs := [b0 / 4, b0 % 4 * 16 + b1 / 16, b1 % 16 * 4 + b2 / 64, b2 % 64];
    LettersInAlphabet(vs);
    assert Group(b0, b1, b2, false) == seq(4, k requires 0 <= k < 4 => Letter(vs[k], false));
  }

  /** The letters of a final one or two bytes are in the standard alphabet. */
  lemma FinalInAlphabet(b0: byte, b1: byte)
    ensures InAlphabet(FinalPair(b0, b1, false)) && InAlphabet(FinalSingle(b0, false))
  {
    assert InAlphabet(FinalPair(b0, b1, false)) by {
      var vs := [b0 / 4, b0 % 4 * 16 + b1 / 16, b1 % 16 * 4];
      LettersInAlphabet(vs);
      assert FinalPair(b0, b1, false) == seq(3, k requires 0 <= k < 3 => Letter(vs[k], false));
    }
    var vs := [b0 / 4, b0 % 4 * 16];
    LettersInAlphabet(vs);
    assert FinalSingle(b0, false) == seq(2, k requires 0 <= k < 2 => Letter(vs[k], false));
  }

  /** Every letter of the standard encoding is in the standard alphabet. */
  lemma {:induction false} EncodeInAlphabet(b: seq<byte>)
    ensures InAlphabet(Encode(b, false))
    decreases |b|
  {
    if |b| >= 3 {
      EncodeInAlphabet(b[3..]);
      GroupInAlphabet(b[0], b[1], b[2]);
      InAlphabetAppend(Group(b[0], b[1], b[2], false), Encode(b[3..], false));
    } else if |b| == 2 {
      FinalInAlphabet(b[0], b[1]);
    } else if |b| == 1 {
      FinalInAlphabet(b[0], 0);
    }
  }

  /** The ASCII white space the forgiving-base64 decode removes first. */
  predicate IsAsciiWhitespace(c: char)
  {
    c == '\t' || c == '\n' || c == '\U{000C}' || c == '\r' || c == ' '
  }

  function RemoveAsciiWhitespace(s: string): (r: string)
    ensures forall c :: c in r <==> c in s && !IsAsciiWhitespace(c)
  {
    if s == [] then []
    else
      assert s == [s[0]] + s[1..];
      (if IsAsciiWhitespace(s[0]) then [] else [s[0]]) + RemoveAsciiWhitespace(s[1..])
  }

  lemma {:induction false} RemoveAsciiWhitespaceKeeps(s: string)
    requires forall i :: 0 <= i < |s| ==> !IsAsciiWhitespace(s[i])
    ensures RemoveAsciiWhitespace(s) == s
  {
    if s != [] {
      RemoveAsciiWhitespaceKeeps(s[1..]);
    }
  }

  /** One or two final "=" are dropped when the length is a multiple of 4. */
  function StripPadding(s: string): (r: string)
    ensures |s| % 4 == 0 && |s| >= 2 && s[|s| - 2] == '=' && s[|s| - 1] == '=' ==> r == s[..|s| - 2]
    ensures |s| % 4 == 0 && |s| >= 1 && s[|s| - 1] == '=' && !(|s| >= 2 && s[|s| - 2] == '=') ==> r == s[..|s| - 1]
    ensures |s| % 4 != 0 || s == [] || s[|s| - 1] != '=' ==> r == s
  {
    if |s| % 4 == 0 && |s| >= 2 && s[|s| - 2] == '=' && s[|s| - 1] == '=' then s[..|s| - 2]
    else if |s| % 4 == 0 && |s| >= 1 && s[|s| - 1] == '=' then s[..|s| - 1]
    else s
  }

  /**
   * The bytes of letters of the standard alphabet: 4 letters give 3 bytes,
   * a final 3 give 2 and a final 2 give 1, the leftover bits dropped (a
   * final single letter is rejected before decoding).
   */
  function DecodeLetters(d: string): (r: seq<byte>)
    requires InAlphabet(d)
  {
    if |d| >= 4 then
      var a, b, c, e := SextetOf(d[0]).value, SextetOf(d[1]).value, SextetOf(d[2]).value, SextetOf(d[3]).value;
      [a * 4 + b / 16, b % 16 * 16 + c / 4, c % 4 * 64 + e] + DecodeLetters(d[4..])
    else if |d| == 3 then
      var a, b, c := SextetOf(d[0]).value, SextetOf(d[1]).value, SextetOf(d[2]).value;
      [a * 4 + b / 16, b % 16 * 16 + c / 4]
    else if |d| == 2 then
      var a, b := SextetOf(d[0]).value, SextetOf(d[1]).value;
      [a * 4 + b / 16]
    else []
  }

  /** A binary string: one character per byte, its code the byte. */
  function BinaryString(b: seq<byte>): (s: string)
    ensures |s| == |b| && forall i :: 0 <= i < |b| ==> s[i] as int == b[i]
  {
    seq(|b|, i requires 0 <= i < |b| => b[i] as char)
  }

  /** `window.atob(s)`: the decoded binary string, or None where it throws. */
  function Atob(s: string): (r: Option<string>)
    ensures r.Some? ==> forall i :: 0 <= i < |r.value| ==> r.value[i] as int < 256
  {
    var data := StripPadding(RemoveAsciiWhitespace(s));
    if |data| % 4 == 1 || !InAlphabet(data) then None
    else Some(BinaryString(DecodeLetters(data)))
  }

  // ---------------------------------------------------------------------
  // Decoding round trip
  // ---------------------------------------------------------------------

  /** The values of a group's letters give back its three bytes. */
  lemma GroupSextets(b0: byte, b1: byte, b2: byte)
    ensures var g := Group(b0, b1, b2, false);
      && SextetOf(g[0]).Some? && SextetOf(g[1]).Some? && SextetOf(g[2]).Some? && SextetOf(g[3]).Some?
      && var a, b, c, e := SextetOf(g[0]).value, SextetOf(g[1]).value, SextetOf(g[2]).value, SextetOf(g[3]).value;
         a * 4 + b / 16 == b0 && b % 16 * 16 + c / 4 == b1 && c % 4 * 64 + e == b2
  {
    var v0, v1, v2, v3 := b0 / 4, b0 % 4 * 16 + b1 / 16, b1 % 16 * 4 + b2 / 64, b2 % 64;
    SextetOfLetter(v0);
    SextetOfLetter(v1);
    SextetOfLetter(v2);
    SextetOfLetter(v3);
  }

  /** A group of four letters followed by more letters decodes to the group's three bytes first. */
  lemma DecodeGroupFront(b0: byte, b1: byte, b2: byte, rest: string)
    requires InAlphabet(rest)
    ensures InAlphabet(Group(b0, b1, b2, false) + rest)
    ensures DecodeLetters(Group(b0, b1, b2, false) + rest) == [b0, b1, b2] + DecodeLetters(rest)
  {
    var g := Group(b0, b1, b2, false);
    var s := g + rest;
    GroupInAlphabet(b0, b1, b2);
    InAlphabetAppend(g, rest);
    GroupSextets(b0, b1, b2);
    assert s[0] == g[0] && s[1] == g[1] && s[2] == g[2] && s[3] == g[3] && s[4..] == rest;
  }

  /** A final group of three letters decodes to its two bytes. */
  lemma DecodePair(b0: byte, b1: byte)
    ensures InAlphabet(FinalPair(b0, b1, false))
    ensures DecodeLetters(FinalPair(b0, b1, false)) == [b0, b1]
  {
    var v0, v1, v2 := b0 / 4, b0 % 4 * 16 + b1 / 16, b1 % 16 * 4;
    var s := FinalPair(b0, b1, false);
    assert s == [Letter(v0, false), Letter(v1, false), Letter(v2, false)];
    SextetOfLetter(v0);
    SextetOfLetter(v1);
    SextetOfLetter(v2);
    assert InAlphabet(s);
    assert DecodeLetters(s) == [v0 * 4 + v1 / 16, v1 % 16 * 16 + v2 / 4];
    assert v0 * 4 + v1 / 16 == b0 && v1 % 16 * 16 + v2 / 4 == b1;
  }

  /** A final group of two letters decodes to its one byte. */
  lemma DecodeSingle(b0: byte)
    ensures InAlphabet(FinalSingle(b0, false))
    ensures DecodeLetters(FinalSingle(b0, false)) == [b0]
  {
    var v0, v1 := b0 / 4, b0 % 4 * 16;
    var s := FinalSingle(b0, false);
    assert s == [Letter(v0, false), Letter(v1, false)];
    SextetOfLetter(v0);
    SextetOfLetter(v1);
    assert InAlphabet(s);
    assert DecodeLetters(s) == [v0 * 4 + v1 / 16];
  }

  /** Decoding the standard encoding gives the bytes back. */
  lemma {:induction false} DecodeEncode(b: seq<byte>)
    ensures InAlphabet(Encode(b, false))
    ensures DecodeLetters(Encode(b, false)) == b
    decreases |b|
  {
    if |b| >= 3 {
      DecodeEncode(b[3..]);
      DecodeGroupFront(b[0], b[1], b[2], Encode(b[3..], false));
      assert b == [b[0], b[1], b[2]] + b[3..];
    } else if |b| == 2 {
      DecodePair(b[0], b[1]);
      assert b == [b[0], b[1]];
    } else if |b| == 1 {
      DecodeSingle(b[0]);
      assert b == [b[0]];
    }
  }

  /** The string `atob` is given: the key padded and mapped to the standard alphabet. */
  function Prepared(base64String: string): string
  {
    ToStandard(base64String + Padding(base64String))
  }

  /** The code of every character of a binary string, one byte each. */
  function Codes(raw: string): (b: seq<byte>)
    requires forall i :: 0 <= i < |raw| ==> raw[i] as int < 256
    ensures |b| == |raw| && forall i :: 0 <= i < |raw| ==> b[i] == raw[i] as int
  {
    seq(|raw|, i requires 0 <= i < |raw| => raw[i] as int)
  }

  lemma CodesOfBinary(b: seq<byte>)
    ensures Codes(BinaryString(b)) == b
  {
  }

  /** What urlBase64ToUint8Array yields for a key: the bytes of `atob`'s binary string. */
  function DecodeKey(base64String: string): (r: Option<seq<byte>>)
  {
    match Atob(Prepared(base64String))
    case None => None
    case Some(raw) => Some(Codes(raw))
  }

  /** Padding the standard encoding and dropping the padding again gives the encoding. */
  lemma StripOfPadded(s: string, pad: string)
    requires InAlphabet(s) && |s| % 4 != 1
    requires pad == Padding(s)
    ensures StripPadding(s + pad) == s
  {
    var p := s + pad;
    if |s| % 4 != 0 {
      assert SextetOf(s[|s| - 1]).Some?;
      if |s| % 4 == 3 {
        assert |pad| == 1 && p[|p| - 2] == s[|s| - 1] != '=';
        assert p[..|p| - 1] == s;
      } else {
        assert |pad| == 2 && p[|p| - 1] == '=' && p[|p| - 2] == '=';
        assert p[..|p| - 2] == s;
      }
    } else {
      assert pad == [];
      assert p == s;
      if s != [] {
        assert SextetOf(s[|s| - 1]).Some?;
      }
    }
  }

  /** Letters of the alphabet and padding hold no white space. */
  lemma PaddedHasNoWhitespace(s: string, pad: string)
    requires InAlphabet(s) && pad == Padding(s)
    ensures RemoveAsciiWhitespace(s + pad) == s + pad
  {
    var p := s + pad;
    forall i | 0 <= i < |p|
      ensures !IsAsciiWhitespace(p[i])
    {
      if i < |s| {
        assert SextetOf(s[i]).Some?;
      }
    }
    RemoveAsciiWhitespaceKeeps(p);
  }

  /** `atob` of letters of the alphabet padded to a multiple of 4 decodes them. */
  lemma AtobOfPadded(s: string)
    requires InAlphabet(s) && |s| % 4 != 1
    ensures Atob(s + Padding(s)) == Some(BinaryString(DecodeLetters(s)))
  {
    PaddedHasNoWhitespace(s, Padding(s));
    StripOfPadded(s, Padding(s));
  }

  /** Padding and mapping the URL-safe encoding gives the padded standard encoding. */
  lemma PreparedEncoding(b: seq<byte>)
    ensures Prepared(Encode(b, true)) == Encode(b, false) + Padding(Encode(b, false))
  {
    var u := Encode(b, true);
    var s := Encode(b, false);
    var pad := Padding(u);
    EncodeToStandard(b);
    assert Padding(s) == pad;
    forall i | 0 <= i < |u + pad|
      ensures ToStandard(u + pad)[i] == (s + pad)[i]
    {
      if i < |u| {
        assert (u + pad)[i] == u[i];
        assert ToStandard(u)[i] == s[i];
      }
    }
  }

  /** A key that is the unpadded base64url encoding of some bytes decodes to those bytes. */
  lemma KeyRoundTrip(b: seq<byte>)
    ensures DecodeKey(Encode(b, true)) == Some(b)
  {
    var s := Encode(b, false);
    PreparedEncoding(b);
    DecodeEncode(b);
    AtobOfPadded(s);
    CodesOfBinary(b);
  }

  /** A key of length 1 modulo 4, padded and mapped, ends in three "=" and holds no white space. */
  lemma PreparedOneModFour(base64String: string)
    requires |base64String| % 4 == 1
    requires forall i :: 0 <= i < |base64String| ==> !IsAsciiWhitespace(base64String[i])
    ensures Prepared(base64String) == ToStandard(base64String) + "==="
    ensures RemoveAsciiWhitespace(Prepared(base64String)) == Prepared(base64String)
  {
    assert Padding(base64String) == "===";
    ToStandardAppend(base64String, "===");
    var p := Prepared(base64String);
    forall i | 0 <= i < |p|
      ensures !IsAsciiWhitespace(p[i])
    {
      if i < |base64String| {
        assert p[i] == ToStandard(base64String)[i];
      }
    }
    RemoveAsciiWhitespaceKeeps(p);
  }

  /** A length of 1 modulo 4 is padded with three "=", which `atob` rejects. */
  lemma OneModFourRejected(base64String: string)
    requires |base64String| % 4 == 1
    requires forall i :: 0 <= i < |base64String| ==> !IsAsciiWhitespace(base64String[i])
    ensures DecodeKey(base64String) == None
  {
    var data := StripPadding(RemoveAsciiWhitespace(Prepared(base64String)));
    assert data == ToStandard(base64String) + "=" by {
      var p := Prepared(base64String);
      PreparedOneModFour(base64String);
      assert StripPadding(p) == p[..|p| - 2];
    }
    assert !InAlphabet(data) by {
      assert data[|data| - 1] == '=' && SextetOf('=').None?;
    }
  }

  // ---------------------------------------------------------------------
  // urlBase64ToUint8Array
  // ---------------------------------------------------------------------

  /**
   * urlBase64ToUint8Array: None where `atob` throws; otherwise the array
   * holds one byte per character of the binary string, the byte being the
   * character's code.
   */
  method UrlBase64ToUint8Array(base64String: string) returns (output: Option<seq<byte>>)
    ensures output == DecodeKey(base64String)
  {
    var padding := Padding(base64String);
    var base64 := ToStandard(base64String + padding);
    var rawData := Atob(base64);
    if rawData.None? {
      output := None;
    } else {
      var raw := rawData.value;
      var outputArray := new byte[|raw|];
      for i := 0 to |raw|
        invariant forall j :: 0 <= j < i ==> outputArray[j] == raw[j] as int
      {
        outputArray[i] := raw[i] as int;
      }
      assert outputArray[..] == Codes(raw);
      output := Some(outputArray[..]);
    }
  }
}
