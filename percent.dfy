/** Percent-encoding as the host provides it: `%XX` escapes (section 2.1 of RFC 3986) standing for
    the UTF-8 bytes of a character. `encodeURIComponent` and `decodeURIComponent` follow
    ECMAScript; `FormSerialize` and `FormDecode` are the application/x-www-form-urlencoded byte
    serializer and parser behind `URLSearchParams` (WHATWG URL Standard). */
module Percent {
  import opened Outcomes
  import opened JsString

  function HexValue(c: char): (r: Option<nat>)
    ensures r.Some? ==> r.value < 16
  {
    if '0' <= c <= '9' then Some(c as int - '0' as int)
    else if 'A' <= c <= 'F' then Some(c as int - 'A' as int + 10)
    else if 'a' <= c <= 'f' then Some(c as int - 'a' as int + 10)
    else None
  }

  /** Upper-case hexadecimal digit, as both encoders write it. */
  function HexDigit(v: nat): char
    requires v < 16
  {
    if v < 10 then ('0' as int + v) as char else ('A' as int + v - 10) as char
  }

  /** The byte that an escape `%XX` starting at `i` stands for. */
  function EscapeAt(s: string, i: nat): (r: Option<nat>)
    ensures r.Some? ==> r.value < 256 && i + 3 <= |s| && s[i] == '%'
  {
    if i + 3 <= |s| && s[i] == '%' && HexValue(s[i + 1]).Some? && HexValue(s[i + 2]).Some?
    then Some(HexValue(s[i + 1]).value * 16 + HexValue(s[i + 2]).value)
    else None
  }

  /** The escape for one byte. */
  function PercentByte(b: nat): string
    requires b < 256
  {
    ['%', HexDigit(b / 16), HexDigit(b % 16)]
  }

  predicate AllBytes(bs: seq<nat>) {
    forall k :: 0 <= k < |bs| ==> bs[k] < 256
  }

  function PercentBytes(bs: seq<nat>): (r: string)
    requires AllBytes(bs)
    ensures |r| == 3 * |bs|
  {
    if bs == [] then [] else PercentByte(bs[0]) + PercentBytes(bs[1..])
  }

  /** The UTF-8 encoding of a character. */
  function Utf8(c: char): (bs: seq<nat>)
    ensures 1 <= |bs| <= 4 && AllBytes(bs)
    ensures (|bs| == 1) <==> (c as int < 0x80)
    ensures |bs| == 1 ==> bs[0] == c as int
    ensures |bs| > 1 ==> bs[0] >= 0xC2
  {
    var cp := c as int;
    if cp < 0x80 then [cp]
    else if cp < 0x800 then [0xC0 + cp / 64, 0x80 + cp % 64]
    else if cp < 0x10000 then [0xE0 + cp / 4096, 0x80 + (cp / 64) % 64, 0x80 + cp % 64]
    else [0xF0 + cp / 262144, 0x80 + (cp / 4096) % 64, 0x80 + (cp / 64) % 64, 0x80 + cp % 64]
  }

  /** What a UTF-8 lead byte announces: how many continuation bytes follow, and the range the
      first of them must lie in (the bounds exclude overlong forms, surrogates and code points
      above U+10FFFF). Zero continuation bytes means the byte cannot start a sequence. */
  datatype Lead = Lead(need: nat, lo: nat, hi: nat)

  function LeadOf(b: nat): (l: Lead)
    ensures l.need <= 3
  {
    if 0xC2 <= b <= 0xDF then Lead(1, 0x80, 0xBF)
    else if b == 0xE0 then Lead(2, 0xA0, 0xBF)
    else if 0xE1 <= b <= 0xEC || 0xEE <= b <= 0xEF then Lead(2, 0x80, 0xBF)
    else if b == 0xED then Lead(2, 0x80, 0x9F)
    else if b == 0xF0 then Lead(3, 0x90, 0xBF)
    else if 0xF1 <= b <= 0xF3 then Lead(3, 0x80, 0xBF)
    else if b == 0xF4 then Lead(3, 0x80, 0x8F)
    else Lead(0, 0, 0)
  }

  /** One step of decoding escaped UTF-8: a character and the position after its escapes, or the
      position after the longest prefix that could still have begun a character. */
  datatype Utf8Step = Good(c: char, next: nat) | Bad(next: nat)

  predicate ContinuationAt(s: string, i: nat, lo: nat, hi: nat) {
    EscapeAt(s, i).Some? && lo <= EscapeAt(s, i).value <= hi
  }

  function SequenceAt(s: string, i: nat): (r: Utf8Step)
    requires EscapeAt(s, i).Some? && EscapeAt(s, i).value >= 0x80
    ensures i + 3 <= r.next <= |s|
  {
    var b0 := EscapeAt(s, i).value;
    var lead := LeadOf(b0);
    if lead.need == 0 || !ContinuationAt(s, i + 3, lead.lo, lead.hi) then Bad(i + 3)
    else
      var b1 := EscapeAt(s, i + 3).value;
      if lead.need == 1 then
        var cp := (b0 - 0xC0) * 64 + (b1 - 0x80);
        Good(cp as char, i + 6)
      else if !ContinuationAt(s, i + 6, 0x80, 0xBF) then Bad(i + 6)
      else
        var b2 := EscapeAt(s, i + 6).value;
        if lead.need == 2 then
          var cp := (b0 - 0xE0) * 4096 + (b1 - 0x80) * 64 + (b2 - 0x80);
          Good(cp as char, i + 9)
        else if !ContinuationAt(s, i + 9, 0x80, 0xBF) then Bad(i + 9)
        else
          var b3 := EscapeAt(s, i + 9).value;
          var cp := (b0 - 0xF0) * 262144 + (b1 - 0x80) * 4096 + (b2 - 0x80) * 64 + (b3 - 0x80);
          Good(cp as char, i + 12)
  }

  /** `decodeURIComponent(s)`, with None where it throws a URIError: a `%` not followed by two
      hexadecimal digits, or escapes that are not well-formed UTF-8. */
  function DecodeURIComponent(s: string): (r: Option<string>)
    decreases |s|
  {
    if s == [] then Some([])
    else if s[0] != '%' then
      match DecodeURIComponent(s[1..])
      case None => None
      case Some(t) => Some([s[0]] + t)
    else match EscapeAt(s, 0)
      case None => None
      case Some(b) =>
        if b < 0x80 then
          match DecodeURIComponent(s[3..])
          case None => None
          case Some(t) => Some([b as char] + t)
        else match SequenceAt(s, 0)
          case Bad(_) => None
          case Good(c, n) =>
            match DecodeURIComponent(s[n..])
            case None => None
            case Some(t) => Some([c] + t)
  }

  /** The characters `encodeURIComponent` leaves as they are. */
  predicate IsComponentSafe(c: char) {
    IsAsciiAlpha(c) || IsAsciiDigit(c)
    || c == '-' || c == '_' || c == '.' || c == '!' || c == '~' || c == '*' || c == '\'' || c == '(' || c == ')'
  }

  function EncodeChar(c: char): string {
    if IsComponentSafe(c) then [c] else PercentBytes(Utf8(c))
  }

  /** `encodeURIComponent(s)`; it cannot throw on a string of scalar values. */
  function EncodeURIComponent(s: string): string {
    if s == [] then [] else EncodeChar(s[0]) + EncodeURIComponent(s[1..])
  }

  /** The characters the form-urlencoded serializer leaves as they are. */
  predicate IsFormSafe(c: char) {
    IsAsciiAlpha(c) || IsAsciiDigit(c) || c == '*' || c == '-' || c == '.' || c == '_'
  }

  /** The form-urlencoded serialization of one name or value: a space becomes `+`. */
  function FormSerialize(s: string): string {
    if s == [] then [] else FormChar(s[0]) + FormSerialize(s[1..])
  }

  function FormChar(c: char): string {
    if c == ' ' then "+" else if IsFormSafe(c) then [c] else PercentBytes(Utf8(c))
  }

  /** The form-urlencoded parse of one name or value: `+` is a space, escapes are decoded as
      UTF-8 bytes, and what cannot be decoded becomes U+FFFD instead of failing. */
  function FormDecode(s: string): string
    decreases |s|
  {
    if s == [] then []
    else match EscapeAt(s, 0)
      case None => [if s[0] == '+' then ' ' else s[0]] + FormDecode(s[1..])
      case Some(b) =>
        if b < 0x80 then [b as char] + FormDecode(s[3..])
        else match SequenceAt(s, 0)
          case Good(c, n) => [c] + FormDecode(s[n..])
          case Bad(n) => ['\U{FFFD}'] + FormDecode(s[n..])
  }

  /** What `encodeURIComponent` may write: safe characters, `%` and hexadecimal digits. */
  predicate ComponentOutputChar(c: char) {
    IsComponentSafe(c) || c == '%'
  }

  /** What the form-urlencoded serializer may write. */
  predicate FormOutputChar(c: char) {
    IsFormSafe(c) || c == '+' || c == '%'
  }

  lemma {:induction false} PercentBytesChars(bs: seq<nat>)
    requires AllBytes(bs)
    ensures forall i :: 0 <= i < |PercentBytes(bs)| ==>
      var c := PercentBytes(bs)[i]; c == '%' || IsAsciiDigit(c) || 'A' <= c <= 'F'
  {
    if bs != [] {
      PercentBytesChars(bs[1..]);
    }
  }

  lemma {:induction false} EncodeURIComponentChars(s: string)
    ensures forall i :: 0 <= i < |EncodeURIComponent(s)| ==> ComponentOutputChar(EncodeURIComponent(s)[i])
  {
    if s != [] {
      EncodeURIComponentChars(s[1..]);
      PercentBytesChars(Utf8(s[0]));
    }
  }

  lemma {:induction false} FormSerializeChars(s: string)
    ensures forall i :: 0 <= i < |FormSerialize(s)| ==> FormOutputChar(FormSerialize(s)[i])
  {
    if s != [] {
      FormSerializeChars(s[1..]);
      PercentBytesChars(Utf8(s[0]));
    }
  }

  // ---------------------------------------------------------------------------------------
  // Round trips

  lemma HexRoundTrip(v: nat)
    requires v < 16
    ensures HexValue(HexDigit(v)) == Some(v)
  {
  }

  lemma EscapeOfPercentByte(b: nat, t: string)
    requires b < 256
    ensures EscapeAt(PercentByte(b) + t, 0) == Some(b)
  {
    HexRoundTrip(b / 16);
    HexRoundTrip(b % 16);
  }

  /** The k-th escape of an escaped byte string reads back the k-th byte. */
  lemma {:induction false} EscapeInBytes(bs: seq<nat>, t: string, k: nat)
    requires AllBytes(bs) && k < |bs|
    ensures EscapeAt(PercentBytes(bs) + t, 3 * k) == Some(bs[k])
    decreases k
  {
    var rest := PercentBytes(bs[1..]) + t;
    assert PercentBytes(bs) + t == PercentByte(bs[0]) + rest;
    if k == 0 {
      EscapeOfPercentByte(bs[0], rest);
    } else {
      EscapeInBytes(bs[1..], t, k - 1);
      var s := PercentBytes(bs) + t;
      assert s[3 * k..] == rest[3 * (k - 1)..];
      assert EscapeAt(s, 3 * k) == EscapeAt(rest, 3 * (k - 1)) by {
        if 3 * k + 3 <= |s| {
          assert s[3 * k] == rest[3 * (k - 1)];
          assert s[3 * k + 1] == rest[3 * (k - 1) + 1];
          assert s[3 * k + 2] == rest[3 * (k - 1) + 2];
        }
      }
    }
  }

  lemma TwoByteSequence(cp: int)
    requires 0x80 <= cp < 0x800
    ensures 0xC2 <= 0xC0 + cp / 64 <= 0xDF
    ensures ((0xC0 + cp / 64) - 0xC0) * 64 + (cp % 64) == cp
  {
  }

  lemma ThreeByteSequence(cp: int)
    requires 0x800 <= cp < 0xD800 || 0xE000 <= cp < 0x10000
    ensures LeadOf(0xE0 + cp / 4096).need == 2
    ensures LeadOf(0xE0 + cp / 4096).lo <= 0x80 + (cp / 64) % 64 <= LeadOf(0xE0 + cp / 4096).hi
    ensures (cp / 4096) * 4096 + ((cp / 64) % 64) * 64 + cp % 64 == cp
  {
    var q := cp / 64;
    assert cp == q * 64 + cp % 64;
    assert q == (q / 64) * 64 + q % 64;
    assert q / 64 == cp / 4096;
  }

  lemma FourByteSequence(cp: int)
    requires 0x10000 <= cp < 0x110000
    ensures LeadOf(0xF0 + cp / 262144).need == 3
    ensures LeadOf(0xF0 + cp / 262144).lo <= 0x80 + (cp / 4096) % 64 <= LeadOf(0xF0 + cp / 262144).hi
    ensures (cp / 262144) * 262144 + ((cp / 4096) % 64) * 4096 + ((cp / 64) % 64) * 64 + cp % 64 == cp
  {
    var q := cp / 64;
    var r := q / 64;
    assert cp == q * 64 + cp % 64;
    assert q == r * 64 + q % 64;
    assert r == (r / 64) * 64 + r % 64;
    assert r == cp / 4096;
    assert r / 64 == cp / 262144;
  }

  lemma SequenceOfTwo(c: char, t: string)
    requires 0x80 <= c as int < 0x800
    ensures SequenceAt(PercentBytes(Utf8(c)) + t, 0) == Good(c, 6)
  {
    var bs := Utf8(c);
    EscapeInBytes(bs, t, 0);
    EscapeInBytes(bs, t, 1);
    TwoByteSequence(c as int);
  }

  lemma SequenceOfThree(c: char, t: string)
    requires 0x800 <= c as int < 0x10000
    ensures SequenceAt(PercentBytes(Utf8(c)) + t, 0) == Good(c, 9)
  {
    var bs := Utf8(c);
    EscapeInBytes(bs, t, 0);
    EscapeInBytes(bs, t, 1);
    EscapeInBytes(bs, t, 2);
    ThreeByteSequence(c as int);
  }

  lemma SequenceOfFour(c: char, t: string)
    requires 0x10000 <= c as int
    ensures SequenceAt(PercentBytes(Utf8(c)) + t, 0) == Good(c, 12)
  {
    var bs := Utf8(c);
    var s := PercentBytes(bs) + t;
    var cp := c as int;
    var b0, b1, b2, b3 := bs[0], bs[1], bs[2], bs[3];
    assert b0 == 0xF0 + cp / 262144 && b1 == 0x80 + (cp / 4096) % 64;
    assert b2 == 0x80 + (cp / 64) % 64 && b3 == 0x80 + cp % 64;
    EscapeInBytes(bs, t, 0);
    EscapeInBytes(bs, t, 1);
    EscapeInBytes(bs, t, 2);
    EscapeInBytes(bs, t, 3);
    FourByteSequence(cp);
    SequenceAtFour(s, b0, b1, b2, b3, c);
  }

  /** Four escaped bytes that form a sequence decode to the character they spell. */
  lemma SequenceAtFour(s: string, b0: nat, b1: nat, b2: nat, b3: nat, c: char)
    requires EscapeAt(s, 0) == Some(b0) && EscapeAt(s, 3) == Some(b1)
    requires EscapeAt(s, 6) == Some(b2) && EscapeAt(s, 9) == Some(b3)
    requires b0 >= 0x80 && LeadOf(b0).need == 3 && LeadOf(b0).lo <= b1 <= LeadOf(b0).hi
    requires 0x80 <= b2 <= 0xBF && 0x80 <= b3 <= 0xBF
    requires (b0 - 0xF0) * 262144 + (b1 - 0x80) * 4096 + (b2 - 0x80) * 64 + (b3 - 0x80) == c as int
    ensures SequenceAt(s, 0) == Good(c, 12)
  {
  }

  /** Decoding the escapes of a non-ASCII character gives that character back. */
  lemma SequenceOfUtf8(c: char, t: string)
    requires c as int >= 0x80
    ensures EscapeAt(PercentBytes(Utf8(c)) + t, 0) == Some(Utf8(c)[0])
    ensures SequenceAt(PercentBytes(Utf8(c)) + t, 0) == Good(c, |PercentBytes(Utf8(c))|)
  {
    var bs := Utf8(c);
    EscapeInBytes(bs, t, 0);
    if c as int < 0x800 {
      SequenceOfTwo(c, t);
    } else if c as int < 0x10000 {
      SequenceOfThree(c, t);
    } else {
      SequenceOfFour(c, t);
    }
  }

  lemma DecodeEncodeChar(c: char, t: string)
    ensures DecodeURIComponent(EncodeChar(c) + t) ==
      match DecodeURIComponent(t) case None => None case Some(u) => Some([c] + u)
  {
    var e := EncodeChar(c);
    if !IsComponentSafe(c) {
      var s := e + t;
      if c as int < 0x80 {
        EscapeOfPercentByte(c as int, t);
        assert s[3..] == t;
      } else {
        SequenceOfUtf8(c, t);
        assert s[|e|..] == t;
      }
    } else {
      assert (e + t)[1..] == t;
    }
  }

  /** `decodeURIComponent(encodeURIComponent(s)) === s`. */
  lemma {:induction false} DecodeEncodeURIComponent(s: string)
    ensures DecodeURIComponent(EncodeURIComponent(s)) == Some(s)
  {
    if s != [] {
      DecodeEncodeURIComponent(s[1..]);
      DecodeEncodeChar(s[0], EncodeURIComponent(s[1..]));
      assert [s[0]] + s[1..] == s;
    }
  }

  /** Without a `%` there is nothing to decode. */
  lemma {:induction false} DecodeWithoutPercent(s: string)
    requires '%' !in s
    ensures DecodeURIComponent(s) == Some(s)
  {
    if s != [] {
      DecodeWithoutPercent(s[1..]);
      assert [s[0]] + s[1..] == s;
    }
  }

  lemma FormDecodeSerializeChar(c: char, t: string)
    ensures FormDecode(FormChar(c) + t) == [c] + FormDecode(t)
  {
    var e := FormChar(c);
    var s := e + t;
    if c == ' ' || IsFormSafe(c) {
      assert s[1..] == t;
    } else if c as int < 0x80 {
      EscapeOfPercentByte(c as int, t);
      assert s[3..] == t;
    } else {
      SequenceOfUtf8(c, t);
      assert s[|e|..] == t;
    }
  }

  /** What `URLSearchParams` serializes, it parses back. */
  lemma {:induction false} FormDecodeSerialize(s: string)
    ensures FormDecode(FormSerialize(s)) == s
  {
    if s != [] {
      FormDecodeSerialize(s[1..]);
      FormDecodeSerializeChar(s[0], FormSerialize(s[1..]));
      assert [s[0]] + s[1..] == s;
    }
  }
}
