/**
 * `encodeURIComponent` over Unicode scalar values (UTF-8, then percent
 * escapes with upper-case hex digits), and a decoder that undoes it. The
 * decoder exists to prove that the encoding is injective, i.e. that two
 * different texts never share an audio cache key.
 */
module Uri {
  import opened Common

  /** The characters `encodeURIComponent` leaves as they are. */
  predicate IsUnreserved(c: char) {
    || ('A' <= c <= 'Z') || ('a' <= c <= 'z') || ('0' <= c <= '9')
    || c == '-' || c == '_' || c == '.' || c == '!' || c == '~'
    || c == '*' || c == '\'' || c == '(' || c == ')'
  }

  /** The UTF-8 encoding of one scalar value. */
  function Utf8(c: char): (bs: seq<byte>)
    ensures 1 <= |bs| <= 4
    ensures |bs| == 1 <==> (c as int) < 0x80
  {
    var n := c as int;
    if n < 0x80 then [n]
    else if n < 0x800 then [0xC0 + n / 64, 0x80 + n % 64]
    else if n < 0x10000 then [0xE0 + n / 4096, 0x80 + (n / 64) % 64, 0x80 + n % 64]
    else [0xF0 + n / 262144, 0x80 + (n / 4096) % 64, 0x80 + (n / 64) % 64, 0x80 + n % 64]
  }

  function HexDigit(d: nat): (c: char)
    requires d < 16
  {
    if d < 10 then ('0' as int + d) as char else ('A' as int + d - 10) as char
  }

  function HexValue(c: char): Option<nat> {
    if '0' <= c <= '9' then Some(c as int - '0' as int)
    else if 'A' <= c <= 'F' then Some(c as int - 'A' as int + 10)
    else if 'a' <= c <= 'f' then Some(c as int - 'a' as int + 10)
    else None
  }

  /** `%XX` for one byte. */
  function Escape(b: byte): string {
    ['%', HexDigit(b / 16), HexDigit(b % 16)]
  }

  /**
   * An escape is '%' followed by two upper-case hex digits that spell the
   * byte, high digit first; so each of its characters is unreserved or '%'.
   */
  lemma EscapeChars(b: byte)
    ensures Escape(b)[0] == '%'
    ensures forall i :: 1 <= i < 3 ==> '0' <= Escape(b)[i] <= '9' || 'A' <= Escape(b)[i] <= 'F'
    ensures HexValue(Escape(b)[1]) == Some(b / 16) && HexValue(Escape(b)[2]) == Some(b % 16)
    ensures forall i :: 0 <= i < 3 ==> IsUnreserved(Escape(b)[i]) || Escape(b)[i] == '%'
  {
    var d1, d0 := b / 16, b % 16;
    assert IsUnreserved(HexDigit(d1)) && IsUnreserved(HexDigit(d0));
  }

  function EscapeAll(bs: seq<byte>): (r: string)
    ensures |r| == 3 * |bs|
    ensures forall i :: 0 <= i < |r| ==> IsUnreserved(r[i]) || r[i] == '%'
  {
    if bs == [] then []
    else
      EscapeChars(bs[0]);
      Escape(bs[0]) + EscapeAll(bs[1..])
  }

  function EncodeChar(c: char): (r: string)
    ensures forall i :: 0 <= i < |r| ==> IsUnreserved(r[i]) || r[i] == '%'
  {
    if IsUnreserved(c) then [c] else EscapeAll(Utf8(c))
  }

  /** `encodeURIComponent`: the result is a single URL path segment. */
  function EncodeURIComponent(s: string): (r: string)
    ensures forall i :: 0 <= i < |r| ==> IsUnreserved(r[i]) || r[i] == '%'
  {
    if s == [] then [] else EncodeChar(s[0]) + EncodeURIComponent(s[1..])
  }

  /** The byte spelled `%XX` at the start of `s`, if it starts with one. */
  function EscapedByte(s: string): (r: Option<byte>)
    ensures r.Some? ==> 3 <= |s| && s[0] == '%'
  {
    if 3 <= |s| && s[0] == '%' && HexValue(s[1]).Some? && HexValue(s[2]).Some?
    then Some(16 * HexValue(s[1]).value + HexValue(s[2]).value)
    else None
  }

  /** A continuation byte `%XX` with `0x80 <= XX < 0xC0`, as its six payload bits. */
  function Continuation(s: string): (r: Option<nat>)
    ensures r.Some? ==> 3 <= |s| && r.value < 64
  {
    match EscapedByte(s)
    case Some(b) => if 0x80 <= b < 0xC0 then Some(b - 0x80) else None
    case None => None
  }

  predicate IsScalar(n: int) {
    0 <= n < 0xD800 || 0xE000 <= n < 0x110000
  }

  /** Decodes one character and says how many characters of `s` it used. */
  function DecodeChar(s: string): (r: Option<(char, nat)>)
    requires s != []
    ensures r.Some? ==> 1 <= r.value.1 <= |s|
  {
    if s[0] != '%' then Some((s[0], 1))
    else match EscapedByte(s)
      case None => None
      case Some(b0) =>
        if b0 < 0x80 then Some((b0 as char, 3))
        else if 0xC0 <= b0 < 0xE0 then
          match Continuation(s[3..])
          case None => None
          case Some(x1) =>
            var n := (b0 - 0xC0) * 64 + x1;
            if 0x80 <= n then Some((n as char, 6)) else None
        else if 0xE0 <= b0 < 0xF0 then
          match Continuation(s[3..])
          case None => None
          case Some(x1) =>
            match Continuation(s[6..])
            case None => None
            case Some(x2) =>
              var n := (b0 - 0xE0) * 4096 + x1 * 64 + x2;
              if 0x800 <= n && IsScalar(n) then Some((n as char, 9)) else None
        else if 0xF0 <= b0 < 0xF5 then
          match Continuation(s[3..])
          case None => None
          case Some(x1) =>
            match Continuation(s[6..])
            case None => None
            case Some(x2) =>
              match Continuation(s[9..])
              case None => None
              case Some(x3) =>
                var n := (b0 - 0xF0) * 262144 + x1 * 4096 + x2 * 64 + x3;
                if 0x10000 <= n && IsScalar(n) then Some((n as char, 12)) else None
        else None
  }

  /** `decodeURIComponent`, restricted to well-formed UTF-8 escapes. */
  function DecodeURIComponent(s: string): Option<string>
    decreases |s|
  {
    if s == [] then Some([])
    else match DecodeChar(s)
      case None => None
      case Some((c, k)) =>
        match DecodeURIComponent(s[k..])
        case None => None
        case Some(rest) => Some([c] + rest)
  }

  /** An escape reads back as its byte, and what follows it starts three characters on. */
  lemma EscapedByteOfEscape(b: byte, rest: string)
    ensures EscapedByte(Escape(b) + rest) == Some(b)
    ensures (Escape(b) + rest)[3..] == rest
  {
    var s := Escape(b) + rest;
    assert s[1] == HexDigit(b / 16) && s[2] == HexDigit(b % 16);
  }

  /** Decoding the encoding of `c` gives back `c` and consumes exactly its encoding. */
  lemma DecodeEncodeChar(c: char, rest: string)
    ensures DecodeChar(EncodeChar(c) + rest) == Some((c, |EncodeChar(c)|))
  {
    var n := c as int;
    if IsUnreserved(c) {
      assert (EncodeChar(c) + rest)[0] == c;
    } else if n < 0x80 {
      DecodeEscaped1(c, rest);
    } else if n < 0x800 {
      DecodeEscaped2(c, rest);
    } else if n < 0x10000 {
      DecodeEscaped3(c, rest);
    } else {
      DecodeEscaped4(c, rest);
    }
  }

  lemma DecodeEscaped1(c: char, rest: string)
    requires (c as int) < 0x80
    ensures DecodeChar(EscapeAll(Utf8(c)) + rest) == Some((c, 3))
  {
    var bs := Utf8(c);
    assert bs[1..] == [];
    assert EscapeAll(bs) + rest == Escape(bs[0]) + rest;
    EscapedByteOfEscape(bs[0], rest);
  }

  /** A continuation byte's escape reads back as its six payload bits. */
  lemma ContinuationOfEscape(b: byte, rest: string)
    requires 0x80 <= b < 0xC0
    ensures Continuation(Escape(b) + rest) == Some(b - 0x80)
    ensures (Escape(b) + rest)[3..] == rest
  {
    EscapedByteOfEscape(b, rest);
  }

  lemma EscapeAllTwo(b0: byte, b1: byte, rest: string)
    ensures EscapeAll([b0, b1]) + rest == Escape(b0) + (Escape(b1) + rest)
  {
    assert [b0, b1][1..] == [b1] && [b1][1..] == [];
  }

  lemma EscapeAllThree(b0: byte, b1: byte, b2: byte, rest: string)
    ensures EscapeAll([b0, b1, b2]) + rest == Escape(b0) + (Escape(b1) + (Escape(b2) + rest))
  {
    assert [b0, b1, b2][1..] == [b1, b2];
    EscapeAllTwo(b1, b2, rest);
  }

  lemma EscapeAllFour(b0: byte, b1: byte, b2: byte, b3: byte, rest: string)
    ensures EscapeAll([b0, b1, b2, b3]) + rest == Escape(b0) + (Escape(b1) + (Escape(b2) + (Escape(b3) + rest)))
  {
    assert [b0, b1, b2, b3][1..] == [b1, b2, b3];
    EscapeAllThree(b1, b2, b3, rest);
  }

  /** The two-byte UTF-8 form: its lead and continuation bytes, and the value they carry. */
  lemma Utf8Digits2(n: int)
    requires 0x80 <= n < 0x800
    ensures 0xC0 <= 0xC0 + n / 64 < 0xE0 && 0x80 <= 0x80 + n % 64 < 0xC0
    ensures (n / 64) * 64 + n % 64 == n
  {
  }

  /** The three-byte UTF-8 form. */
  lemma Utf8Digits3(n: int)
    requires 0x800 <= n < 0x10000
    ensures 0xE0 <= 0xE0 + n / 4096 < 0xF0
    ensures 0x80 <= 0x80 + (n / 64) % 64 < 0xC0 && 0x80 <= 0x80 + n % 64 < 0xC0
    ensures (n / 4096) * 4096 + ((n / 64) % 64) * 64 + n % 64 == n
  {
    SixBitDigits3(n);
  }

  /** The four-byte UTF-8 form. */
  lemma Utf8Digits4(n: int)
    requires 0x10000 <= n < 0x110000
    ensures 0xF0 <= 0xF0 + n / 262144 < 0xF5
    ensures 0x80 <= 0x80 + (n / 4096) % 64 < 0xC0
    ensures 0x80 <= 0x80 + (n / 64) % 64 < 0xC0 && 0x80 <= 0x80 + n % 64 < 0xC0
    ensures (n / 262144) * 262144 + ((n / 4096) % 64) * 4096 + ((n / 64) % 64) * 64 + n % 64 == n
  {
    SixBitDigits4(n);
  }

  /** `DecodeChar` on a two-byte escape sequence. */
  lemma DecodeCharTwo(s: string, b0: byte, x1: nat)
    requires EscapedByte(s) == Some(b0) && 0xC0 <= b0 < 0xE0
    requires Continuation(s[3..]) == Some(x1)
    requires 0x80 <= (b0 - 0xC0) * 64 + x1
    ensures DecodeChar(s) == Some((((b0 - 0xC0) * 64 + x1) as char, 6))
  {
  }

  /** `DecodeChar` on a three-byte escape sequence. */
  lemma DecodeCharThree(s: string, b0: byte, x1: nat, x2: nat)
    requires EscapedByte(s) == Some(b0) && 0xE0 <= b0 < 0xF0
    requires Continuation(s[3..]) == Some(x1) && Continuation(s[6..]) == Some(x2)
    requires var n := (b0 - 0xE0) * 4096 + x1 * 64 + x2; 0x800 <= n && IsScalar(n)
    ensures DecodeChar(s) == Some((((b0 - 0xE0) * 4096 + x1 * 64 + x2) as char, 9))
  {
  }

  /** `DecodeChar` on a four-byte escape sequence. */
  lemma DecodeCharFour(s: string, b0: byte, x1: nat, x2: nat, x3: nat)
    requires EscapedByte(s) == Some(b0) && 0xF0 <= b0 < 0xF5
    requires Continuation(s[3..]) == Some(x1) && Continuation(s[6..]) == Some(x2) && Continuation(s[9..]) == Some(x3)
    requires var n := (b0 - 0xF0) * 262144 + x1 * 4096 + x2 * 64 + x3; 0x10000 <= n && IsScalar(n)
    ensures DecodeChar(s) == Some((((b0 - 0xF0) * 262144 + x1 * 4096 + x2 * 64 + x3) as char, 12))
  {
  }

  /** A two-byte escape sequence decodes to the value its payload bits spell. */
  lemma DecodeTwoBytes(b0: byte, b1: byte, rest: string)
    requires 0xC0 <= b0 < 0xE0 && 0x80 <= b1 < 0xC0
    requires 0x80 <= (b0 as int - 0xC0) * 64 + (b1 as int - 0x80)
    ensures DecodeChar(Escape(b0) + (Escape(b1) + rest))
      == Some((((b0 as int - 0xC0) * 64 + (b1 as int - 0x80)) as char, 6))
  {
    var t1 := Escape(b1) + rest;
    var s := Escape(b0) + t1;
    EscapedByteOfEscape(b0, t1);
    ContinuationOfEscape(b1, rest);
    DecodeCharTwo(s, b0, b1 - 0x80);
  }

  /** A three-byte escape sequence decodes to the value its payload bits spell. */
  lemma DecodeThreeBytes(b0: byte, b1: byte, b2: byte, rest: string)
    requires 0xE0 <= b0 < 0xF0 && 0x80 <= b1 < 0xC0 && 0x80 <= b2 < 0xC0
    requires var n := (b0 as int - 0xE0) * 4096 + (b1 as int - 0x80) * 64 + (b2 as int - 0x80);
      0x800 <= n && IsScalar(n)
    ensures DecodeChar(Escape(b0) + (Escape(b1) + (Escape(b2) + rest)))
      == Some((((b0 as int - 0xE0) * 4096 + (b1 as int - 0x80) * 64 + (b2 as int - 0x80)) as char, 9))
  {
    var t2 := Escape(b2) + rest;
    var t1 := Escape(b1) + t2;
    var s := Escape(b0) + t1;
    EscapedByteOfEscape(b0, t1);
    ContinuationOfEscape(b1, t2);
    ContinuationOfEscape(b2, rest);
    assert s[6..] == t1[3..];
    DecodeCharThree(s, b0, b1 - 0x80, b2 - 0x80);
  }

  /** A four-byte escape sequence decodes to the value its payload bits spell. */
  lemma DecodeFourBytes(b0: byte, b1: byte, b2: byte, b3: byte, rest: string)
    requires 0xF0 <= b0 < 0xF5 && 0x80 <= b1 < 0xC0 && 0x80 <= b2 < 0xC0 && 0x80 <= b3 < 0xC0
    requires var n := (b0 as int - 0xF0) * 262144 + (b1 as int - 0x80) * 4096 + (b2 as int - 0x80) * 64 + (b3 as int - 0x80);
      0x10000 <= n && IsScalar(n)
    ensures DecodeChar(Escape(b0) + (Escape(b1) + (Escape(b2) + (Escape(b3) + rest))))
      == Some((((b0 as int - 0xF0) * 262144 + (b1 as int - 0x80) * 4096 + (b2 as int - 0x80) * 64 + (b3 as int - 0x80)) as char, 12))
  {
    var t3 := Escape(b3) + rest;
    var t2 := Escape(b2) + t3;
    var t1 := Escape(b1) + t2;
    EscapedByteOfEscape(b0, t1);
    ContinuationOfEscape(b1, t2);
    ContinuationOfEscape(b2, t3);
    ContinuationOfEscape(b3, rest);
    var s := Escape(b0) + t1;
    assert s[6..] == t2 && s[9..] == t3;
    DecodeCharFour(s, b0, b1 - 0x80, b2 - 0x80, b3 - 0x80);
  }

  lemma DecodeEscaped2(c: char, rest: string)
    requires 0x80 <= (c as int) < 0x800
    ensures DecodeChar(EscapeAll(Utf8(c)) + rest) == Some((c, 6))
  {
    var n := c as int;
    Utf8Digits2(n);
    var b0, b1 := 0xC0 + n / 64, 0x80 + n % 64;
    assert Utf8(c) == [b0, b1];
    EscapeAllTwo(b0, b1, rest);
    DecodeTwoBytes(b0, b1, rest);
  }

  lemma DecodeEscaped3(c: char, rest: string)
    requires 0x800 <= (c as int) < 0x10000
    ensures DecodeChar(EscapeAll(Utf8(c)) + rest) == Some((c, 9))
  {
    var n := c as int;
    Utf8Digits3(n);
    var b0, b1, b2 := 0xE0 + n / 4096, 0x80 + (n / 64) % 64, 0x80 + n % 64;
    assert Utf8(c) == [b0, b1, b2];
    EscapeAllThree(b0, b1, b2, rest);
    DecodeThreeBytes(b0, b1, b2, rest);
  }

  lemma DecodeEscaped4(c: char, rest: string)
    requires 0x10000 <= (c as int)
    ensures DecodeChar(EscapeAll(Utf8(c)) + rest) == Some((c, 12))
  {
    var n := c as int;
    Utf8Digits4(n);
    var b0, b1, b2, b3 := 0xF0 + n / 262144, 0x80 + (n / 4096) % 64, 0x80 + (n / 64) % 64, 0x80 + n % 64;
    assert Utf8(c) == [b0, b1, b2, b3];
    EscapeAllFour(b0, b1, b2, b3, rest);
    DecodeFourBytes(b0, b1, b2, b3, rest);
  }

  /** `decodeURIComponent(encodeURIComponent(s)) == s`. */
  lemma {:induction false} DecodeEncode(s: string)
    ensures DecodeURIComponent(EncodeURIComponent(s)) == Some(s)
  {
    if s != [] {
      var e := EncodeChar(s[0]);
      var tail := EncodeURIComponent(s[1..]);
      DecodeEncodeChar(s[0], tail);
      assert (e + tail)[|e|..] == tail;
      DecodeEncode(s[1..]);
      assert [s[0]] + s[1..] == s;
    }
  }

  /** Different texts never encode to the same URI component. */
  lemma EncodeInjective(s: string, t: string)
    ensures EncodeURIComponent(s) == EncodeURIComponent(t) <==> s == t
  {
    DecodeEncode(s);
    DecodeEncode(t);
  }
}
