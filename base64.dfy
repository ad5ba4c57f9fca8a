/** The host's `atob` and `btoa`: Base64 with the alphabet of section 4 of RFC 4648, decoded by the
    WHATWG "forgiving-base64 decode" (padding optional, ASCII whitespace ignored). Decoded text is
    a binary string: one character per byte. */
module Base64 {
  import opened Outcomes
  import opened JsString

  /** Every character is a byte value (what `btoa` accepts and `atob` returns). */
  predicate IsBinary(s: string) {
    forall i :: 0 <= i < |s| ==> s[i] as int < 256
  }

  function Byte(x: nat): char
    requires x < 256
  {
    x as char
  }

  /** The character for a six-bit value. */
  function Sextet(v: nat): char
    requires v < 64
  {
    if v < 26 then ('A' as int + v) as char
    else if v < 52 then ('a' as int + v - 26) as char
    else if v < 62 then ('0' as int + v - 52) as char
    else if v == 62 then '+' else '/'
  }

  predicate IsAlphabet(c: char) {
    'A' <= c <= 'Z' || 'a' <= c <= 'z' || '0' <= c <= '9' || c == '+' || c == '/'
  }

  predicate AllAlphabet(s: string) {
    forall i :: 0 <= i < |s| ==> IsAlphabet(s[i])
  }

  function SextetValue(c: char): (v: nat)
    requires IsAlphabet(c)
    ensures v < 64 && Sextet(v) == c
  {
    if 'A' <= c <= 'Z' then c as int - 'A' as int
    else if 'a' <= c <= 'z' then c as int - 'a' as int + 26
    else if '0' <= c <= '9' then c as int - '0' as int + 52
    else if c == '+' then 62 else 63
  }

  lemma SextetRoundTrip(v: nat)
    requires v < 64
    ensures IsAlphabet(Sextet(v)) && SextetValue(Sextet(v)) == v
  {
  }

  predicate IsAsciiWhitespace(c: char) {
    c == '\t' || c == '\n' || c == '\U{C}' || c == '\r' || c == ' '
  }

  function RemoveAsciiWhitespace(s: string): (r: string)
    ensures (forall i :: 0 <= i < |s| ==> !IsAsciiWhitespace(s[i])) ==> r == s
  {
    if s == [] then []
    else (if IsAsciiWhitespace(s[0]) then [] else [s[0]]) + RemoveAsciiWhitespace(s[1..])
  }

  /** Removes the one or two `=` a length divisible by four may end with. */
  function StripPadding(d: string): string {
    if |d| >= 2 && d[|d| - 1] == '=' && d[|d| - 2] == '=' then d[..|d| - 2]
    else if |d| >= 1 && d[|d| - 1] == '=' then d[..|d| - 1]
    else d
  }

  /** The bytes of one group of two, three or four characters; the spare low bits of a short
      group are dropped. */
  function DecodeGroup(g: string): (r: string)
    requires AllAlphabet(g) && 2 <= |g| <= 4
    ensures IsBinary(r) && |r| == |g| - 1
  {
    var v0, v1 := SextetValue(g[0]), SextetValue(g[1]);
    var first := [Byte(v0 * 4 + v1 / 16)];
    if |g| == 2 then first
    else
      var v2 := SextetValue(g[2]);
      var second := first + [Byte((v1 % 16) * 16 + v2 / 4)];
      if |g| == 3 then second
      else second + [Byte((v2 % 4) * 64 + SextetValue(g[3]))]
  }

  /** Decodes group by group: four characters at a time, then a final two or three. */
  function DecodeSextets(d: string): (r: string)
    requires AllAlphabet(d) && |d| % 4 != 1
    ensures IsBinary(r)
    decreases |d|
  {
    if |d| == 0 then []
    else if |d| <= 4 then DecodeGroup(d)
    else DecodeGroup(d[..4]) + DecodeSextets(d[4..])
  }

  /** `atob(s)`, with None where `atob` throws. */
  function Atob(s: string): (r: Option<string>)
    ensures r.Some? ==> IsBinary(r.value)
  {
    var d := RemoveAsciiWhitespace(s);
    var e := if |d| % 4 == 0 then StripPadding(d) else d;
    if |e| % 4 == 1 || !AllAlphabet(e) then None else Some(DecodeSextets(e))
  }

  /** The characters of one, two or three bytes, without padding. */
  function EncodeGroup(b: string): (r: string)
    requires IsBinary(b) && 1 <= |b| <= 3
    ensures AllAlphabet(r) && |r| == |b| + 1
  {
    var b0 := b[0] as int;
    var b1 := if |b| >= 2 then b[1] as int else 0;
    var b2 := if |b| == 3 then b[2] as int else 0;
    var all := [Sextet(b0 / 4), Sextet((b0 % 4) * 16 + b1 / 16), Sextet((b1 % 16) * 4 + b2 / 64), Sextet(b2 % 64)];
    all[..|b| + 1]
  }

  /** The encoding of a binary string, without the trailing `=` padding. */
  function EncodeUnpadded(s: string): (r: string)
    requires IsBinary(s)
    decreases |s|
  {
    if |s| == 0 then []
    else if |s| <= 3 then EncodeGroup(s)
    else EncodeGroup(s[..3]) + EncodeUnpadded(s[3..])
  }

  function Padding(n: nat): string {
    if n % 3 == 1 then "==" else if n % 3 == 2 then "=" else ""
  }

  /** `btoa(s)`: throws when a character is above U+00FF. */
  function Btoa(s: string): (r: Outcome<string>)
    ensures r.Throw? <==> !IsBinary(s)
  {
    if IsBinary(s) then Return(EncodeUnpadded(s) + Padding(|s|)) else Throw
  }

  lemma GroupRoundTrip(b: string)
    requires IsBinary(b) && 1 <= |b| <= 3
    ensures DecodeGroup(EncodeGroup(b)) == b
  {
    var b0 := b[0] as int;
    var b1 := if |b| >= 2 then b[1] as int else 0;
    var b2 := if |b| == 3 then b[2] as int else 0;
    var v0, v1, v2, v3 := b0 / 4, (b0 % 4) * 16 + b1 / 16, (b1 % 16) * 4 + b2 / 64, b2 % 64;
    var e := EncodeGroup(b);
    assert e[0] == Sextet(v0) && e[1] == Sextet(v1);
    assert |e| >= 3 ==> e[2] == Sextet(v2);
    assert |e| == 4 ==> e[3] == Sextet(v3);
    SextetRoundTrip(v0);
    SextetRoundTrip(v1);
    SextetRoundTrip(v2);
    SextetRoundTrip(v3);
    Recombine(b0, b1, b2);
    DecodeKnown(e, v0, v1, v2, v3, b);
  }

  /** A group whose sextet values are known decodes to the bytes they recombine into. */
  lemma DecodeKnown(g: string, v0: nat, v1: nat, v2: nat, v3: nat, b: string)
    requires AllAlphabet(g) && 2 <= |g| <= 4 && IsBinary(b) && |b| == |g| - 1
    requires SextetValue(g[0]) == v0 && SextetValue(g[1]) == v1
    requires |g| >= 3 ==> SextetValue(g[2]) == v2
    requires |g| == 4 ==> SextetValue(g[3]) == v3
    requires v0 * 4 + v1 / 16 == b[0] as int
    requires |b| >= 2 ==> (v1 % 16) * 16 + v2 / 4 == b[1] as int
    requires |b| == 3 ==> (v2 % 4) * 64 + v3 == b[2] as int
    ensures DecodeGroup(g) == b
  {
  }

  /** The three bytes come back from the four sextets they are cut into. */
  lemma Recombine(b0: int, b1: int, b2: int)
    requires 0 <= b0 < 256 && 0 <= b1 < 256 && 0 <= b2 < 256
    ensures (b0 / 4) * 4 + ((b0 % 4) * 16 + b1 / 16) / 16 == b0
    ensures (((b0 % 4) * 16 + b1 / 16) % 16) * 16 + ((b1 % 16) * 4 + b2 / 64) / 4 == b1
    ensures (((b1 % 16) * 4 + b2 / 64) % 4) * 64 + b2 % 64 == b2
  {
    var h1, h2 := b1 / 16, b2 / 64;
    assert b0 == (b0 / 4) * 4 + b0 % 4 && b1 == h1 * 16 + b1 % 16 && b2 == h2 * 64 + b2 % 64;
    assert 0 <= h1 < 16 && 0 <= h2 < 4;
    assert ((b0 % 4) * 16 + h1) / 16 == b0 % 4 && ((b0 % 4) * 16 + h1) % 16 == h1;
    assert ((b1 % 16) * 4 + h2) / 4 == b1 % 16 && ((b1 % 16) * 4 + h2) % 4 == h2;
  }

  lemma ShiftMod(x: nat)
    ensures (x + 3) % 3 == x % 3 && (x + 4) % 4 == x % 4
  {
    var q3, q4 := x / 3, x / 4;
    assert x + 3 == (q3 + 1) * 3 + x % 3;
    assert x + 4 == (q4 + 1) * 4 + x % 4;
  }

  lemma {:induction false} EncodeUnpaddedShape(s: string)
    requires IsBinary(s)
    ensures AllAlphabet(EncodeUnpadded(s))
    ensures |EncodeUnpadded(s)| % 4 == (if |s| % 3 == 0 then 0 else |s| % 3 + 1)
    decreases |s|
  {
    if |s| > 3 {
      EncodeUnpaddedShape(s[3..]);
      var g, e := EncodeGroup(s[..3]), EncodeUnpadded(s[3..]);
      assert EncodeUnpadded(s) == g + e;
      assert |g| == 4;
      ShiftMod(|s[3..]|);
      ShiftMod(|e|);
      forall i | 0 <= i < |g + e| ensures IsAlphabet((g + e)[i]) {
        if i < 4 { assert (g + e)[i] == g[i]; } else { assert (g + e)[i] == e[i - 4]; }
      }
    }
  }

  lemma {:induction false} DecodeEncodeUnpadded(s: string)
    requires IsBinary(s)
    ensures AllAlphabet(EncodeUnpadded(s)) && |EncodeUnpadded(s)| % 4 != 1
    ensures DecodeSextets(EncodeUnpadded(s)) == s
    decreases |s|
  {
    EncodeUnpaddedShape(s);
    if 1 <= |s| <= 3 {
      GroupRoundTrip(s);
    } else if |s| > 3 {
      var e := EncodeUnpadded(s);
      var g := EncodeGroup(s[..3]);
      GroupRoundTrip(s[..3]);
      DecodeEncodeUnpadded(s[3..]);
      assert e[..4] == g && e[4..] == EncodeUnpadded(s[3..]);
      assert s == s[..3] + s[3..];
    }
  }

  lemma PaddedLength(n: nat, m: nat)
    requires m % 4 == (if n % 3 == 0 then 0 else n % 3 + 1)
    ensures (m + |Padding(n)|) % 4 == 0
  {
    var q := m / 4;
    assert m == 4 * q + m % 4;
    if n % 3 == 0 {
      assert m + |Padding(n)| == 4 * q;
    } else {
      assert m + |Padding(n)| == 4 * q + 4;
    }
  }

  lemma PaddedEncodingShape(u: string, n: nat)
    requires AllAlphabet(u)
    requires |u| % 4 == (if n % 3 == 0 then 0 else n % 3 + 1)
    ensures RemoveAsciiWhitespace(u + Padding(n)) == u + Padding(n)
    ensures |u + Padding(n)| % 4 == 0
    ensures StripPadding(u + Padding(n)) == u
  {
    var p := u + Padding(n);
    assert forall i :: 0 <= i < |p| ==> p[i] == '=' || IsAlphabet(p[i]);
    PaddedLength(n, |u|);
    if u != [] {
      assert IsAlphabet(u[|u| - 1]);
    }
  }

  /** `atob(btoa(s)) == s` for every string `btoa` accepts. */
  lemma AtobBtoa(s: string)
    requires IsBinary(s)
    ensures Btoa(s).Return?
    ensures Atob(Btoa(s).value) == Some(s)
  {
    DecodeEncodeUnpadded(s);
    EncodeUnpaddedShape(s);
    PaddedEncodingShape(EncodeUnpadded(s), |s|);
  }
}
