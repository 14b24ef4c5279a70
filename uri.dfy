/** `encodeURIComponent` of ECMA-262 (section "URI Handling Functions"). A Dafny `char` is a
    Unicode scalar value, so every string here is well-formed UTF-16 and the URIError that a lone
    surrogate raises cannot occur. Each code point that is not in the unreserved set is written as
    the `%XX` escapes (upper-case hex) of its UTF-8 bytes. */
module Uri {
  import opened Wrappers

  type Byte = b: int | 0 <= b < 256

  /** The code points `encodeURIComponent` leaves alone: ASCII letters, decimal digits and the
      marks `- _ . ! ~ * ' ( )`. */
  predicate IsUnreserved(c: char) {
    ('A' <= c <= 'Z') || ('a' <= c <= 'z') || ('0' <= c <= '9') || c in "-_.!~*'()"
  }

  /** The UTF-8 encoding of one code point. */
  function Utf8(c: char): (bs: seq<Byte>)
    ensures 1 <= |bs| <= 4
    ensures (|bs| == 1) == (c as int < 0x80)
  {
    var cp := c as int;
    if cp < 0x80 then [cp]
    else if cp < 0x800 then [0xC0 + cp / 64, 0x80 + cp % 64]
    else if cp < 0x1_0000 then [0xE0 + cp / 4096, 0x80 + cp / 64 % 64, 0x80 + cp % 64]
    else [0xF0 + cp / 262144, 0x80 + cp / 4096 % 64, 0x80 + cp / 64 % 64, 0x80 + cp % 64]
  }

  /** One upper-case hexadecimal digit. */
  function HexDigit(n: int): (c: char)
    requires 0 <= n < 16
    ensures '0' <= c <= '9' || 'A' <= c <= 'F'
  {
    if n < 10 then ('0' as int + n) as char else ('A' as int + n - 10) as char
  }

  /** `%XX` for one byte. */
  function EscapeByte(b: Byte): (s: string)
    ensures |s| == 3 && s[0] == '%'
  {
    ['%', HexDigit(b / 16), HexDigit(b % 16)]
  }

  /** `%XX` for every byte, in order. */
  function Escape(bs: seq<Byte>): (s: string)
    ensures |s| == 3 * |bs|
  {
    if bs == [] then [] else EscapeByte(bs[0]) + Escape(bs[1..])
  }

  function EncodeChar(c: char): (s: string)
    ensures |s| >= 1
  {
    if IsUnreserved(c) then [c] else Escape(Utf8(c))
  }

  /** `encodeURIComponent(s)`. */
  function EncodeURIComponent(s: string): (r: string)
    ensures |r| >= |s|
  {
    if s == [] then [] else EncodeChar(s[0]) + EncodeURIComponent(s[1..])
  }

  // ---------------------------------------------------------------------------------------
  // The inverse, used to show that the encoding loses nothing: every `%XX` is read back as a
  // byte, the bytes are read back as UTF-8, and any other code point stands for itself.

  function HexValue(c: char): Option<int>
  {
    if '0' <= c <= '9' then Some(c as int - '0' as int)
    else if 'A' <= c <= 'F' then Some(c as int - 'A' as int + 10)
    else if 'a' <= c <= 'f' then Some(c as int - 'a' as int + 10)
    else None
  }

  /** The byte written by the `%XX` at the front of `s`. */
  function EscapedByte(s: string): (r: Option<Byte>)
  {
    if |s| < 3 || s[0] != '%' then None
    else match (HexValue(s[1]), HexValue(s[2]))
      case (Some(h), Some(l)) => if 0 <= h < 16 && 0 <= l < 16 then Some(h * 16 + l) else None
      case _ => None
  }

  /** The `n` continuation bytes (10xxxxxx) escaped at the front of `s`, folded into `acc`. */
  function Continuations(s: string, n: nat, acc: int): (r: Option<int>)
    decreases n
  {
    if n == 0 then Some(acc)
    else match EscapedByte(s)
      case Some(b) =>
        if 0x80 <= b < 0xC0 then Continuations(s[3..], n - 1, acc * 64 + (b as int - 0x80)) else None
      case None => None
  }

  /** How many bytes a UTF-8 sequence with this leading byte has, and the bits the leading byte
      contributes; None for a byte that cannot lead a sequence. */
  function Lead(b: Byte): Option<(nat, int)>
  {
    if b < 0x80 then Some((1, b))
    else if 0xC2 <= b < 0xE0 then Some((2, b - 0xC0))
    else if 0xE0 <= b < 0xF0 then Some((3, b - 0xE0))
    else if 0xF0 <= b < 0xF5 then Some((4, b - 0xF0))
    else None
  }

  /** The smallest code point that needs `n` UTF-8 bytes (shorter forms are rejected). */
  function MinCodePoint(n: nat): int {
    if n <= 1 then 0 else if n == 2 then 0x80 else if n == 3 then 0x800 else 0x1_0000
  }

  predicate IsScalarValue(cp: int) {
    (0 <= cp < 0xD800) || (0xE000 <= cp < 0x11_0000)
  }

  /** Reads one code point off the front of `s`; also says how many characters it used. */
  function DecodeOne(s: string): (r: Option<(char, nat)>)
    ensures r.Some? ==> 1 <= r.value.1 <= |s|
  {
    if s == [] then None
    else if s[0] != '%' then Some((s[0], 1))
    else match EscapedByte(s)
      case None => None
      case Some(b) =>
        match Lead(b)
        case None => None
        case Some((n, bits)) =>
          if |s| < 3 * n then None
          else match Continuations(s[3..], n - 1, bits)
            case None => None
            case Some(cp) =>
              if MinCodePoint(n) <= cp && IsScalarValue(cp) then Some((cp as char, 3 * n)) else None
  }

  /** Decodes a whole string; None when some part of it is not a valid escape. */
  function Decode(s: string): (r: Option<string>)
    decreases |s|
  {
    if s == [] then Some([])
    else match DecodeOne(s)
      case None => None
      case Some((c, n)) =>
        match Decode(s[n..])
        case None => None
        case Some(rest) => Some([c] + rest)
  }

  // ---------------------------------------------------------------------------------------
  // Properties of the encoding

  lemma HexRoundTrip(b: Byte)
    ensures HexValue(HexDigit(b / 16)) == Some(b / 16)
    ensures HexValue(HexDigit(b % 16)) == Some(b % 16)
  {
  }

  lemma EscapedByteOfEscape(b: Byte, rest: string)
    ensures EscapedByte(EscapeByte(b) + rest) == Some(b)
  {
    HexRoundTrip(b);
    var s := EscapeByte(b) + rest;
    assert s[1] == HexDigit(b / 16) && s[2] == HexDigit(b % 16);
  }

  lemma {:induction false} EscapeConcat(a: seq<Byte>, b: seq<Byte>)
    ensures Escape(a + b) == Escape(a) + Escape(b)
  {
    if a != [] {
      var head := EscapeByte(a[0]);
      assert (a + b)[0] == a[0];
      assert (a + b)[1..] == a[1..] + b;
      EscapeConcat(a[1..], b);
      assert Escape(a + b) == head + (Escape(a[1..]) + Escape(b));
      assert Escape(a) == head + Escape(a[1..]);
    } else {
      assert a + b == b;
    }
  }

  /** Reading back the continuation bytes of an escaped UTF-8 sequence. */
  lemma {:induction false} ContinuationsOfEscape(bs: seq<Byte>, rest: string, acc: int)
    requires forall i :: 0 <= i < |bs| ==> 0x80 <= bs[i] < 0xC0
    ensures Continuations(Escape(bs) + rest, |bs|, acc) == Some(Fold(bs, acc))
  {
    if bs != [] {
      EscapedHead(bs, rest);
      ContinuationsOfEscape(bs[1..], rest, acc * 64 + (bs[0] as int - 0x80));
    }
  }

  /** The value `bs` adds to `acc`, six bits per continuation byte. */
  function Fold(bs: seq<Byte>, acc: int): int
  {
    if bs == [] then acc else Fold(bs[1..], acc * 64 + (bs[0] as int - 0x80))
  }

  lemma DecodeOneEncodeChar(c: char, rest: string)
    ensures DecodeOne(EncodeChar(c) + rest) == Some((c, |EncodeChar(c)|))
  {
    if !IsUnreserved(c) {
      var bs := Utf8(c);
      EscapedHead(bs, rest);
      ContinuationsOfEscape(bs[1..], rest, Lead(bs[0]).value.1);
      Utf8Decodes(c);
      DecodeOneEscaped(c, bs, Escape(bs) + rest, Lead(bs[0]).value.1);
    }
  }

  /** The escaped form of `bs` starts with the escape of `bs[0]`. */
  lemma EscapedHead(bs: seq<Byte>, rest: string)
    requires bs != []
    ensures EscapedByte(Escape(bs) + rest) == Some(bs[0])
    ensures (Escape(bs) + rest)[3..] == Escape(bs[1..]) + rest
  {
    var head := EscapeByte(bs[0]);
    var tail := Escape(bs[1..]) + rest;
    SplitEscape(bs, rest);
    EscapedByteOfEscape(bs[0], tail);
    assert (head + tail)[3..] == tail;
  }

  lemma SplitEscape(bs: seq<Byte>, rest: string)
    requires bs != []
    ensures Escape(bs) + rest == EscapeByte(bs[0]) + (Escape(bs[1..]) + rest)
  {
    assert Escape(bs) == EscapeByte(bs[0]) + Escape(bs[1..]);
  }

  lemma DecodeOneEscaped(c: char, bs: seq<Byte>, s: string, bits: int)
    requires bs == Utf8(c) && 3 * |bs| <= |s| && s[0] == '%'
    requires EscapedByte(s) == Some(bs[0]) && Lead(bs[0]) == Some((|bs|, bits))
    requires Continuations(s[3..], |bs| - 1, bits) == Some(c as int)
    requires MinCodePoint(|bs|) <= c as int
    ensures DecodeOne(s) == Some((c, 3 * |bs|))
  {
    assert IsScalarValue(c as int);
  }

  /** The leading byte of Utf8(c) announces its length, and folding the continuation bytes gives
      back the code point. */
  lemma Utf8Decodes(c: char)
    ensures var bs := Utf8(c);
      && Lead(bs[0]).Some? && Lead(bs[0]).value.0 == |bs|
      && (forall i :: 1 <= i < |bs| ==> 0x80 <= bs[i] < 0xC0)
      && Fold(bs[1..], Lead(bs[0]).value.1) == c as int
      && MinCodePoint(|bs|) <= c as int
  {
    var cp := c as int;
    if 0x80 <= cp < 0x800 {
      LastContinuation(cp);
    } else if 0x800 <= cp < 0x1_0000 {
      ThreeBytes(cp);
    } else if 0x1_0000 <= cp {
      FourBytes(cp);
    }
  }

  /** The last continuation byte completes any code point. */
  lemma LastContinuation(cp: int)
    requires 0 <= cp
    ensures Fold([0x80 + cp % 64], cp / 64) == cp
  {
    assert (cp / 64) * 64 + cp % 64 == cp;
  }

  lemma ThreeBytes(cp: int)
    requires 0x800 <= cp < 0x1_0000
    ensures Fold([0x80 + cp / 64 % 64, 0x80 + cp % 64], cp / 4096) == cp
  {
    var cs: seq<Byte> := [0x80 + cp / 64 % 64, 0x80 + cp % 64];
    assert (cp / 4096) * 64 + cp / 64 % 64 == cp / 64;
    assert cs[1..] == [0x80 + cp % 64];
    assert Fold(cs, cp / 4096) == Fold([0x80 + cp % 64], cp / 64);
    LastContinuation(cp);
  }

  lemma FourBytes(cp: int)
    requires 0x1_0000 <= cp < 0x11_0000
    ensures Fold([0x80 + cp / 4096 % 64, 0x80 + cp / 64 % 64, 0x80 + cp % 64], cp / 262144) == cp
  {
    var cs: seq<Byte> := [0x80 + cp / 4096 % 64, 0x80 + cp / 64 % 64, 0x80 + cp % 64];
    assert (cp / 262144) * 64 + cp / 4096 % 64 == cp / 4096;
    assert (cp / 4096) * 64 + cp / 64 % 64 == cp / 64;
    assert cs[1..] == [0x80 + cp / 64 % 64, 0x80 + cp % 64];
    assert cs[1..][1..] == [0x80 + cp % 64];
    assert Fold(cs, cp / 262144) == Fold(cs[1..], cp / 4096);
    assert Fold(cs[1..], cp / 4096) == Fold([0x80 + cp % 64], cp / 64);
    LastContinuation(cp);
  }

  /** Decoding undoes `encodeURIComponent`. */
  lemma {:induction false} DecodeEncode(s: string)
    ensures Decode(EncodeURIComponent(s)) == Some(s)
  {
    if s != [] {
      var e := EncodeURIComponent(s[1..]);
      DecodeOneEncodeChar(s[0], e);
      assert (EncodeChar(s[0]) + e)[|EncodeChar(s[0])|..] == e;
      DecodeEncode(s[1..]);
      assert s == [s[0]] + s[1..];
    }
  }

  /** Distinct strings have distinct encodings. */
  lemma EncodeInjective(s: string, t: string)
    requires EncodeURIComponent(s) == EncodeURIComponent(t)
    ensures s == t
  {
    DecodeEncode(s);
    DecodeEncode(t);
  }

  /** A string of unreserved code points is its own encoding. */
  lemma {:induction false} EncodeUnreserved(s: string)
    requires forall i :: 0 <= i < |s| ==> IsUnreserved(s[i])
    ensures EncodeURIComponent(s) == s
  {
    if s != [] {
      EncodeUnreserved(s[1..]);
    }
  }

  /** The encoding is character by character. */
  lemma {:induction false} EncodeConcat(s: string, t: string)
    ensures EncodeURIComponent(s + t) == EncodeURIComponent(s) + EncodeURIComponent(t)
  {
    if s != [] {
      assert (s + t)[0] == s[0];
      assert (s + t)[1..] == s[1..] + t;
      EncodeConcat(s[1..], t);
      assert EncodeURIComponent(s + t) == EncodeChar(s[0]) + (EncodeURIComponent(s[1..]) + EncodeURIComponent(t));
    } else {
      assert s + t == t;
    }
  }

  /** Only unreserved code points and `%`. */
  predicate InAlphabet(s: string) {
    forall i :: 0 <= i < |s| ==> IsUnreserved(s[i]) || s[i] == '%'
  }

  lemma AlphabetConcat(a: string, b: string)
    requires InAlphabet(a) && InAlphabet(b)
    ensures InAlphabet(a + b)
  {
    assert forall i :: |a| <= i < |a + b| ==> (a + b)[i] == b[i - |a|];
  }

  /** The encoding contains only unreserved code points and `%`. */
  lemma {:induction false} EncodeAlphabet(s: string)
    ensures InAlphabet(EncodeURIComponent(s))
  {
    if s != [] {
      EncodeAlphabet(s[1..]);
      EscapeAlphabet(Utf8(s[0]));
      AlphabetConcat(EncodeChar(s[0]), EncodeURIComponent(s[1..]));
    }
  }

  lemma {:induction false} EscapeAlphabet(bs: seq<Byte>)
    ensures InAlphabet(Escape(bs))
  {
    if bs != [] {
      EscapeAlphabet(bs[1..]);
      var head := EscapeByte(bs[0]);
      assert InAlphabet(head);
      AlphabetConcat(head, Escape(bs[1..]));
    }
  }
}
