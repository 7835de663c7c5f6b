/**
 * UTF-8 as defined by section 4 of RFC 3629: the well-formed byte-sequence
 * grammar, decoding a byte sequence to Unicode scalar values (Dafny's `char`),
 * and encoding back. `FromUtf8` stands for Rust's `std::str::from_utf8`:
 * it yields the decoded text exactly when the bytes are well-formed.
 */
module Utf8 {
  import opened Wrappers

  newtype byte = x: int | 0 <= x < 256

  /** UTF8-tail = %x80-BF */
  predicate IsTail(b: byte) {
    0x80 <= b <= 0xBF
  }

  /**
   * The number of bytes of the UTF8-char that `s` starts with, or 0 when no
   * rule of the grammar matches a prefix of `s` (this excludes overlong forms,
   * surrogates and values above U+10FFFF).
   */
  function CharWidth(s: seq<byte>): (n: nat)
    ensures n <= 4 && n <= |s|
    ensures n > 0 ==> |s| > 0
  {
    if |s| == 0 then 0
    else if s[0] <= 0x7F then 1
    else if 0xC2 <= s[0] <= 0xDF then
      if |s| >= 2 && IsTail(s[1]) then 2 else 0
    else if s[0] == 0xE0 then
      if |s| >= 3 && 0xA0 <= s[1] <= 0xBF && IsTail(s[2]) then 3 else 0
    else if 0xE1 <= s[0] <= 0xEC || 0xEE <= s[0] <= 0xEF then
      if |s| >= 3 && IsTail(s[1]) && IsTail(s[2]) then 3 else 0
    else if s[0] == 0xED then
      if |s| >= 3 && 0x80 <= s[1] <= 0x9F && IsTail(s[2]) then 3 else 0
    else if s[0] == 0xF0 then
      if |s| >= 4 && 0x90 <= s[1] <= 0xBF && IsTail(s[2]) && IsTail(s[3]) then 4 else 0
    else if 0xF1 <= s[0] <= 0xF3 then
      if |s| >= 4 && IsTail(s[1]) && IsTail(s[2]) && IsTail(s[3]) then 4 else 0
    else if s[0] == 0xF4 then
      if |s| >= 4 && 0x80 <= s[1] <= 0x8F && IsTail(s[2]) && IsTail(s[3]) then 4 else 0
    else 0
  }

  /** UTF8-octets = *( UTF8-char ) */
  predicate ValidUtf8(s: seq<byte>)
    decreases |s|
  {
    |s| == 0 || (CharWidth(s) > 0 && ValidUtf8(s[CharWidth(s)..]))
  }

  /** A Unicode scalar value: a code point that is not a surrogate. */
  predicate IsScalar(cp: int) {
    0 <= cp < 0xD800 || 0xE000 <= cp <= 0x10FFFF
  }

  /** The number of bytes the shortest encoding of `cp` takes (table in section 3 of RFC 3629). */
  function EncodedWidth(cp: int): nat {
    if cp < 0x80 then 1 else if cp < 0x800 then 2 else if cp < 0x10000 then 3 else 4
  }

  /** The code point that the leading UTF8-char of `s` encodes. */
  function CodePoint(s: seq<byte>): (cp: int)
    requires CharWidth(s) > 0
    ensures IsScalar(cp)
    ensures EncodedWidth(cp) == CharWidth(s)
  {
    var n := CharWidth(s);
    if n == 1 then s[0] as int
    else if n == 2 then (s[0] as int - 0xC0) * 0x40 + (s[1] as int - 0x80)
    else if n == 3 then
      (s[0] as int - 0xE0) * 0x1000 + (s[1] as int - 0x80) * 0x40 + (s[2] as int - 0x80)
    else
      (s[0] as int - 0xF0) * 0x40000 + (s[1] as int - 0x80) * 0x1000
        + (s[2] as int - 0x80) * 0x40 + (s[3] as int - 0x80)
  }

  /** Decoding, as `std::str::from_utf8` does it: the whole text, or nothing. */
  function FromUtf8(s: seq<byte>): (r: Option<string>)
    decreases |s|
  {
    if |s| == 0 then Some([])
    else
      var n := CharWidth(s);
      if n == 0 then None
      else
        match FromUtf8(s[n..])
        case None => None
        case Some(rest) => Some([CodePoint(s) as char] + rest)
  }

  /** The UTF-8 encoding of one scalar value (section 3 of RFC 3629). */
  function EncodeChar(c: char): (b: seq<byte>)
    ensures |b| == EncodedWidth(c as int)
  {
    var cp := c as int;
    if cp < 0x80 then [cp as byte]
    else if cp < 0x800 then
      [(0xC0 + cp / 0x40) as byte, (0x80 + cp % 0x40) as byte]
    else if cp < 0x10000 then
      var low := cp % 0x1000;
      [(0xE0 + cp / 0x1000) as byte, (0x80 + low / 0x40) as byte, (0x80 + low % 0x40) as byte]
    else
      var mid := cp % 0x40000;
      var low := mid % 0x1000;
      [(0xF0 + cp / 0x40000) as byte, (0x80 + mid / 0x1000) as byte,
       (0x80 + low / 0x40) as byte, (0x80 + low % 0x40) as byte]
  }

  /** The UTF-8 encoding of a text (what Rust's `str::as_bytes` gives). */
  function Encode(t: string): (b: seq<byte>)
    decreases |t|
  {
    if |t| == 0 then [] else EncodeChar(t[0]) + Encode(t[1..])
  }

  /** Euclidean division by 0x40 is determined by quotient and remainder. */
  lemma DivMod40(x: int, q: int, r: int)
    requires 0 <= r < 0x40 && x == q * 0x40 + r
    ensures x / 0x40 == q && x % 0x40 == r
  {
  }

  lemma DivMod1000(x: int, q: int, r: int)
    requires 0 <= r < 0x1000 && x == q * 0x1000 + r
    ensures x / 0x1000 == q && x % 0x1000 == r
  {
  }

  lemma DivMod40000(x: int, q: int, r: int)
    requires 0 <= r < 0x40000 && x == q * 0x40000 + r
    ensures x / 0x40000 == q && x % 0x40000 == r
  {
  }

  /** The encoding of one char is a UTF8-char, whatever follows it, and decodes back to that char. */
  lemma EncodeCharDecodes(c: char, rest: seq<byte>)
    ensures CharWidth(EncodeChar(c) + rest) == |EncodeChar(c)|
    ensures CodePoint(EncodeChar(c) + rest) == c as int
  {
    var cp := c as int;
    var e := EncodeChar(c);
    var s := e + rest;
    assert s[..|e|] == e;
    if cp < 0x80 {
    } else if cp < 0x800 {
      assert s[0] as int == 0xC0 + cp / 0x40 && s[1] as int == 0x80 + cp % 0x40;
    } else if cp < 0x10000 {
      var low := cp % 0x1000;
      assert s[0] as int == 0xE0 + cp / 0x1000;
      assert s[1] as int == 0x80 + low / 0x40 && s[2] as int == 0x80 + low % 0x40;
    } else {
      var mid := cp % 0x40000;
      var low := mid % 0x1000;
      assert s[0] as int == 0xF0 + cp / 0x40000 && s[1] as int == 0x80 + mid / 0x1000;
      assert s[2] as int == 0x80 + low / 0x40 && s[3] as int == 0x80 + low % 0x40;
    }
  }

  /** Re-encoding the char a UTF8-char decodes to gives back exactly its bytes. */
  lemma DecodedCharEncodes(s: seq<byte>)
    requires CharWidth(s) > 0
    ensures EncodeChar(CodePoint(s) as char) == s[..CharWidth(s)]
  {
    var cp := CodePoint(s);
    var n := CharWidth(s);
    var b := seq(n, i requires 0 <= i < n => s[i] as int);
    if n == 2 {
      DivMod40(cp, b[0] - 0xC0, b[1] - 0x80);
    } else if n == 3 {
      var low := (b[1] - 0x80) * 0x40 + (b[2] - 0x80);
      DivMod1000(cp, b[0] - 0xE0, low);
      DivMod40(low, b[1] - 0x80, b[2] - 0x80);
    } else if n == 4 {
      var low := (b[2] - 0x80) * 0x40 + (b[3] - 0x80);
      var mid := (b[1] - 0x80) * 0x1000 + low;
      DivMod40000(cp, b[0] - 0xF0, mid);
      DivMod1000(mid, b[1] - 0x80, low);
      DivMod40(low, b[2] - 0x80, b[3] - 0x80);
    }
  }

  /** `from_utf8` succeeds exactly on the byte sequences the grammar accepts. */
  lemma {:induction false} FromUtf8DefinedIffValid(s: seq<byte>)
    ensures FromUtf8(s).Some? <==> ValidUtf8(s)
    decreases |s|
  {
    if |s| > 0 && CharWidth(s) > 0 {
      FromUtf8DefinedIffValid(s[CharWidth(s)..]);
    }
  }

  /** Decoding an encoded text gives the text back. */
  lemma {:induction false} EncodeThenDecode(t: string)
    ensures FromUtf8(Encode(t)) == Some(t)
    decreases |t|
  {
    if |t| > 0 {
      var e := EncodeChar(t[0]);
      var rest := Encode(t[1..]);
      EncodeCharDecodes(t[0], rest);
      assert (e + rest)[|e|..] == rest;
      EncodeThenDecode(t[1..]);
      assert [t[0]] + t[1..] == t;
    }
  }

  /** Whatever `from_utf8` accepts re-encodes to the very same bytes. */
  lemma {:induction false} DecodeThenEncode(s: seq<byte>)
    requires FromUtf8(s).Some?
    ensures Encode(FromUtf8(s).value) == s
    decreases |s|
  {
    if |s| > 0 {
      var n := CharWidth(s);
      assert n > 0;
      var rest := FromUtf8(s[n..]).value;
      var t := [CodePoint(s) as char] + rest;
      assert FromUtf8(s).value == t;
      assert t[0] == CodePoint(s) as char && t[1..] == rest;
      calc {
        Encode(t);
        EncodeChar(t[0]) + Encode(t[1..]);
        { DecodedCharEncodes(s); DecodeThenEncode(s[n..]); }
        s[..n] + s[n..];
      }
      assert s[..n] + s[n..] == s;
    }
  }

  /** Every text has a well-formed encoding. */
  lemma EncodingIsValid(t: string)
    ensures ValidUtf8(Encode(t))
  {
    EncodeThenDecode(t);
    FromUtf8DefinedIffValid(Encode(t));
  }
}
