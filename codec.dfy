/** The helpers of the URI parsers in src/core/parser.js: tolerant Base64 and percent decoding,
    the INI block parser behind WireGuard `.conf` import, the endpoint and transport-name
    normalisations, the query-parameter copy and the row constructor. */
module Codec {
  import opened Outcomes
  import opened JsString
  import opened JsValue
  import opened Base64
  import opened Percent
  import opened Rows
  import Url

  // ---------------------------------------------------------------------------------------
  // tryDecodeBase64

  /** `'='.repeat((4 - n % 4) % 4)`: the `=` that bring a length `n` to a multiple of four. */
  function PadTo4(n: nat): string {
    if n % 4 == 0 then "" else if n % 4 == 1 then "===" else if n % 4 == 2 then "==" else "="
  }

  /** The URL-safe alphabet mapped back to the standard one, white space removed. */
  function NormalizeBase64(input: string): (r: string)
    ensures |r| <= |input|
  {
    RemoveSpaces(ReplaceChar(ReplaceChar(input, '-', "+"), '_', "/"))
  }

  /** `tryDecodeBase64(input)`: normalise, pad with `=` to a multiple of four, `atob`; None where
      `atob` throws. */
  function TryDecodeBase64(input: string): (r: Option<string>)
    ensures r.Some? ==> IsBinary(r.value)
  {
    PadAndDecode(NormalizeBase64(input))
  }

  /** Pads normalised text with `=` to a multiple of four and hands it to `atob`. */
  function PadAndDecode(normalized: string): (r: Option<string>)
    ensures r.Some? ==> IsBinary(r.value)
  {
    Atob(normalized + PadTo4(|normalized|))
  }

  /** The URL-safe form of a standard encoding (section 5 of RFC 4648). */
  function UrlSafe(e: string): (r: string)
    ensures |r| == |e|
  {
    ReplaceChar(ReplaceChar(e, '+', "-"), '/', "_")
  }

  lemma AlphabetNotSpace(e: string)
    requires forall i :: 0 <= i < |e| ==> IsAlphabet(e[i]) || e[i] == '='
    ensures forall i :: 0 <= i < |e| ==> !IsSpace(e[i])
    ensures '-' !in e && '_' !in e
  {
    forall i | 0 <= i < |e| ensures !IsSpace(e[i]) && e[i] != '-' && e[i] != '_' {
      assert IsAlphabet(e[i]) || e[i] == '=';
    }
  }

  /** Standard and URL-safe encodings both normalise to the standard one. */
  lemma NormalizeUrlSafe(e: string)
    requires AllAlphabet(e)
    ensures NormalizeBase64(UrlSafe(e)) == e
    ensures NormalizeBase64(e) == e
  {
    AlphabetNotSpace(e);
    var u := UrlSafe(e);
    var back := ReplaceChar(ReplaceChar(u, '-', "+"), '_', "/");
    forall i | 0 <= i < |e| ensures back[i] == e[i] {
      assert IsAlphabet(e[i]);
    }
    assert back == e;
  }

  /** The `=` padding added to an unpadded encoding `u` of `n` bytes is what `btoa` writes. */
  lemma PadUnpadded(u: string, n: nat)
    requires |u| % 4 == (if n % 3 == 0 then 0 else n % 3 + 1)
    ensures PadAndDecode(u) == Atob(u + Padding(n))
  {
    assert PadTo4(|u|) == Padding(n);
  }

  lemma TryDecodeNormalized(x: string, s: string)
    requires IsBinary(s) && NormalizeBase64(x) == EncodeUnpadded(s)
    ensures TryDecodeBase64(x) == Some(s)
  {
    EncodeUnpaddedShape(s);
    PadUnpadded(EncodeUnpadded(s), |s|);
    AtobBtoa(s);
  }

  lemma NormalizePadded(e: string, n: nat)
    requires AllAlphabet(e)
    ensures NormalizeBase64(e + Padding(n)) == e + Padding(n)
  {
    var p := e + Padding(n);
    forall i | 0 <= i < |p| ensures IsAlphabet(p[i]) || p[i] == '=' {
      if i < |e| { assert p[i] == e[i]; }
    }
    AlphabetNotSpace(p);
  }

  lemma PadAligned(n: string)
    requires |n| % 4 == 0
    ensures PadAndDecode(n) == Atob(n)
  {
    assert n + PadTo4(|n|) == n;
  }

  lemma TryDecodeAligned(x: string)
    requires |NormalizeBase64(x)| % 4 == 0
    ensures TryDecodeBase64(x) == Atob(NormalizeBase64(x))
  {
    PadAligned(NormalizeBase64(x));
  }

  lemma TryDecodePadded(s: string)
    requires IsBinary(s)
    ensures Btoa(s).Return? && TryDecodeBase64(Btoa(s).value) == Some(s)
  {
    var e := EncodeUnpadded(s);
    EncodeUnpaddedShape(s);
    var p := e + Padding(|s|);
    NormalizePadded(e, |s|);
    PaddedEncodingShape(e, |s|);
    TryDecodeAligned(p);
    AtobBtoa(s);
  }

  /** An encoding `btoa` writes, the same without its padding, and the URL-safe form without
      padding all decode back to the original bytes. */
  lemma TryDecodeBase64Encoded(s: string)
    requires IsBinary(s)
    ensures Btoa(s).Return? && TryDecodeBase64(Btoa(s).value) == Some(s)
    ensures TryDecodeBase64(EncodeUnpadded(s)) == Some(s)
    ensures TryDecodeBase64(UrlSafe(EncodeUnpadded(s))) == Some(s)
  {
    var e := EncodeUnpadded(s);
    EncodeUnpaddedShape(s);
    NormalizeUrlSafe(e);
    TryDecodeNormalized(e, s);
    TryDecodeNormalized(UrlSafe(e), s);
    TryDecodePadded(s);
  }

  /** A normalised length of one more than a multiple of four can never be decoded. */
  lemma TryDecodeBase64RejectsLength(input: string)
    requires |NormalizeBase64(input)| % 4 == 1
    ensures TryDecodeBase64(input) == None
  {
    PadRejects(NormalizeBase64(input));
  }

  lemma ThreeMore(m: nat)
    requires m % 4 == 1
    ensures (m + 3) % 4 == 0
  {
    var q := m / 4;
    assert m == 4 * q + 1;
    assert m + 3 == 4 * (q + 1);
  }

  lemma PadRejects(n: string)
    requires |n| % 4 == 1 && forall i :: 0 <= i < |n| ==> !IsSpace(n[i])
    ensures PadAndDecode(n) == None
  {
    assert PadTo4(|n|) == "===";
    AtobRejectsShort(n);
  }

  /** Three `=` after a length of one more than a multiple of four leave a lone character. */
  lemma AtobRejectsShort(n: string)
    requires |n| % 4 == 1 && forall i :: 0 <= i < |n| ==> !IsSpace(n[i])
    ensures Atob(n + "===") == None
  {
    var padded := n + "===";
    assert forall i :: 0 <= i < |padded| ==> !IsAsciiWhitespace(padded[i]) by {
      forall i | 0 <= i < |padded| ensures !IsAsciiWhitespace(padded[i]) {
        if i < |n| { assert padded[i] == n[i]; }
      }
    }
    assert |padded| == |n| + 3;
    ThreeMore(|n|);
    var stripped := StripPadding(padded);
    assert stripped == n + "=";
    assert !IsAlphabet(stripped[|stripped| - 1]);
  }

  /** The example of the resolver's contract: `dGVzdA` without padding decodes to `test`. */
  lemma TryDecodeBase64Example(x: string, s: string)
    requires x == "dGVzdA" && s == "test"
    ensures TryDecodeBase64(x) == Some(s)
  {
    EncodeTestExample(x, s);
    assert AllAlphabet(x);
    NormalizeUrlSafe(x);
    TryDecodeNormalized(x, s);
  }

  /** Encoding of the example: two groups, the second one byte long. */
  lemma EncodeTestExample(x: string, s: string)
    requires x == "dGVzdA" && s == "test"
    ensures IsBinary(s) && EncodeUnpadded(s) == x
  {
    assert IsBinary(s);
    var g0, g1 := s[..3], s[3..];
    assert g0 == "tes" && g1 == "t";
    assert EncodeGroup(g0) == x[..4] by {
      assert Sextet(29) == 'd' && Sextet(6) == 'G' && Sextet(21) == 'V' && Sextet(51) == 'z';
    }
    assert EncodeGroup(g1) == x[4..] by {
      assert Sextet(29) == 'd' && Sextet(0) == 'A';
    }
    assert EncodeUnpadded(s) == x[..4] + x[4..];
    assert x[..4] + x[4..] == x;
  }

  // ---------------------------------------------------------------------------------------
  // safeDecode

  /** `safeDecode(v)`: `decodeURIComponent(v)`, or `v` itself where that throws. */
  function SafeDecode(v: string): (r: string)
    ensures DecodeURIComponent(v).None? ==> r == v
  {
    match DecodeURIComponent(v) case Some(d) => d case None => v
  }

  /** `safeDecode` undoes `encodeURIComponent` and leaves text without `%` alone. */
  lemma SafeDecodeProperties(s: string)
    ensures SafeDecode(EncodeURIComponent(s)) == s
    ensures '%' !in s ==> SafeDecode(s) == s
  {
    DecodeEncodeURIComponent(s);
    if '%' !in s {
      DecodeWithoutPercent(s);
    }
  }

  // ---------------------------------------------------------------------------------------
  // parseIniLike

  type Section = map<string, string>
  type Ini = map<string, Section>

  /** The loop state: the sections read so far and the current section name (`''` before the
      first header). */
  datatype IniState = IniState(out: Ini, section: string)

  predicate IniValid(st: IniState) {
    st.section == [] || st.section in st.out
  }

  /** What `.` in a regular expression does not match. */
  predicate IsLineTerminator(c: char) {
    c == '\n' || c == '\r' || c == '\U{2028}' || c == '\U{2029}'
  }

  /** `line.match(/^\[(.+)\]$/)`: the section name of a header line. */
  function SectionHeader(line: string): (r: Option<string>)
    ensures r.Some? ==> r.value != [] && line == "[" + r.value + "]"
  {
    if |line| >= 3 && line[0] == '[' && line[|line| - 1] == ']'
       && forall i :: 1 <= i < |line| - 1 ==> !IsLineTerminator(line[i])
    then Some(line[1..|line| - 1])
    else None
  }

  predicate IsEquals(c: char) { c == '=' }

  /** What one line of the file is, once trimmed: blank lines, comments starting with `#` or
      `;` and lines without `=` are ignored, `[name]` is a header, and anything else assigns
      the trimmed text before the first `=` the trimmed text after it. */
  datatype IniLineKind = Ignored | Header(name: string) | Assignment(key: string, value: string)

  function ClassifyLine(raw: string): (r: IniLineKind)
    ensures r.Header? ==> r.name != []
  {
    ClassifyTrimmed(Trim(raw))
  }

  /** The classification of a line once it is trimmed. */
  function ClassifyTrimmed(line: string): (r: IniLineKind)
    ensures r.Header? ==> r.name != []
  {
    if line == [] || line[0] == '#' || line[0] == ';' then Ignored
    else match SectionHeader(line)
      case Some(name) => Header(name)
      case None =>
        var eq := FindFirst(line, IsEquals);
        if eq == |line| then Ignored else Assignment(Trim(line[..eq]), Trim(line[eq + 1..]))
  }

  /** The effect of one line: a header opens its section (keeping what an earlier header of the
      same name stored), an assignment inside a section stores its value under its key, and an
      assignment before the first header is dropped. */
  function IniApply(st: IniState, kind: IniLineKind): (r: IniState)
    requires IniValid(st)
    ensures IniValid(r)
  {
    match kind
    case Ignored => st
    case Header(name) => IniState(if name in st.out then st.out else st.out[name := map[]], name)
    case Assignment(key, value) =>
      if st.section == [] then st
      else IniState(st.out[st.section := st.out[st.section][key := value]], st.section)
  }

  /** One iteration of the loop. */
  function IniLine(st: IniState, raw: string): (r: IniState)
    requires IniValid(st)
    ensures IniValid(r)
  {
    IniApply(st, ClassifyLine(raw))
  }

  function IniFold(lines: seq<string>, st: IniState): (r: IniState)
    requires IniValid(st)
    ensures IniValid(r)
    decreases |lines|
  {
    if lines == [] then st else IniFold(lines[1..], IniLine(st, lines[0]))
  }

  /** The mapping `parseIniLike(text)` returns. */
  function IniSections(text: string): Ini {
    IniFold(SplitLines(text), IniState(map[], "")).out
  }

  lemma IniFoldStep(lines: seq<string>, i: nat, st: IniState)
    requires i < |lines| && IniValid(st)
    ensures IniFold(lines[i..], st) == IniFold(lines[i + 1..], IniApply(st, ClassifyLine(lines[i])))
  {
    assert lines[i..][0] == lines[i];
    assert lines[i..][1..] == lines[i + 1..];
  }

  /** `parseIniLike(text)`, line by line as the source does it. */
  method ParseIniLike(text: string) returns (out: Ini)
    ensures out == IniSections(text)
  {
    var lines := SplitLines(text);
    ghost var target := IniFold(lines, IniState(map[], ""));
    out := map[];
    var section := "";
    var i := 0;
    while i < |lines|
      invariant 0 <= i <= |lines|
      invariant IniValid(IniState(out, section))
      invariant IniFold(lines[i..], IniState(out, section)) == target
    {
      IniFoldStep(lines, i, IniState(out, section));
      out, section := ApplyLine(out, section, ClassifyLine(lines[i]));
      i := i + 1;
    }
  }

  /** The body of the loop in `parseIniLike` for one classified line. */
  method ApplyLine(out: Ini, section: string, kind: IniLineKind) returns (out': Ini, section': string)
    requires IniValid(IniState(out, section))
    ensures IniState(out', section') == IniApply(IniState(out, section), kind)
  {
    out', section' := out, section;
    match kind {
      case Ignored =>
      case Header(name) =>
        section' := name;
        if section' !in out' {
          out' := out'[section' := map[]];
        }
      case Assignment(key, value) =>
        if section' != [] {
          out' := out'[section' := out'[section'][key := value]];
        }
    }
  }

  /** Blank lines and comment lines are ignored. */
  lemma IniSkipsBlankAndComments(raw: string)
    requires Trim(raw) == [] || Trim(raw)[0] == '#' || Trim(raw)[0] == ';'
    ensures ClassifyLine(raw) == Ignored
  {
  }

  /** A line that is neither a header nor holds `=` is ignored. */
  lemma IniIgnoresStrayLines(raw: string)
    requires SectionHeader(Trim(raw)).None? && '=' !in Trim(raw)
    ensures ClassifyLine(raw) == Ignored
  {
    var line := Trim(raw);
    if line != [] && line[0] != '#' && line[0] != ';' {
      var eq := FindFirst(line, IsEquals);
      assert eq == |line|;
    }
  }

  /** An assignment before the first header is dropped. */
  lemma IniOutsideSection(st: IniState, key: string, value: string)
    requires IniValid(st) && st.section == []
    ensures IniApply(st, Assignment(key, value)) == st
  {
  }

  /** A line holding `=` that is not a header assigns the trimmed text after its first `=` to
      the trimmed text before it. */
  lemma ClassifyAssignment(raw: string, eq: nat)
    requires var line := Trim(raw); line != [] && line[0] != '#' && line[0] != ';'
    requires SectionHeader(Trim(raw)).None?
    requires eq < |Trim(raw)| && Trim(raw)[eq] == '=' && '=' !in Trim(raw)[..eq]
    ensures ClassifyLine(raw) == Assignment(Trim(Trim(raw)[..eq]), Trim(Trim(raw)[eq + 1..]))
  {
    AssignmentAt(Trim(raw), eq);
  }

  lemma AssignmentAt(line: string, eq: nat)
    requires line != [] && line[0] != '#' && line[0] != ';'
    requires SectionHeader(line).None?
    requires eq < |line| && line[eq] == '=' && '=' !in line[..eq]
    ensures ClassifyTrimmed(line) == Assignment(Trim(line[..eq]), Trim(line[eq + 1..]))
  {
    forall j | 0 <= j < eq ensures !IsEquals(line[j]) {
      assert line[j] == line[..eq][j];
    }
    FindFirstAt(line, IsEquals, eq);
  }

  /** An assignment inside a section stores the value under the key, replacing any earlier
      value, and touches nothing else. */
  lemma IniAssignment(st: IniState, key: string, value: string)
    requires IniValid(st) && st.section != []
    ensures var r := IniApply(st, Assignment(key, value));
      && r.section == st.section
      && r.out.Keys == st.out.Keys
      && r.out[st.section] == st.out[st.section][key := value]
      && forall name :: name in st.out && name != st.section ==> r.out[name] == st.out[name]
  {
  }

  /** `[name]` is a header when the name holds no line terminator and no white space. */
  lemma ClassifyHeader(name: string)
    requires name != [] && forall i :: 0 <= i < |name| ==> !IsLineTerminator(name[i]) && !IsSpace(name[i])
    ensures ClassifyLine("[" + name + "]") == Header(name)
  {
    var line := "[" + name + "]";
    assert !IsSpace(line[0]) && !IsSpace(line[|line| - 1]);
    assert Trim(line) == line;
    assert SectionHeader(line) == Some(name) by {
      assert line[1..|line| - 1] == name;
      forall i | 1 <= i < |line| - 1 ensures !IsLineTerminator(line[i]) {
        assert line[i] == name[i - 1];
      }
    }
  }

  /** A header opens its section; one seen before keeps the keys it already has. */
  lemma IniHeader(st: IniState, name: string)
    requires IniValid(st) && name != []
    ensures var r := IniApply(st, Header(name));
      && r.section == name
      && (name in st.out ==> r.out == st.out)
      && (name !in st.out ==> r.out == st.out[name := map[]])
  {
  }

  /** No line removes a section or a key. */
  lemma IniApplyGrows(st: IniState, kind: IniLineKind)
    requires IniValid(st)
    ensures var r := IniApply(st, kind);
      forall name :: name in st.out ==> name in r.out && st.out[name].Keys <= r.out[name].Keys
  {
  }

  /** Sections are never dropped and keys never removed: later lines only add or overwrite. */
  lemma {:induction false} IniFoldGrows(lines: seq<string>, st: IniState)
    requires IniValid(st)
    ensures var r := IniFold(lines, st);
      forall name :: name in st.out ==> name in r.out && st.out[name].Keys <= r.out[name].Keys
    decreases |lines|
  {
    if lines != [] {
      IniApplyGrows(st, ClassifyLine(lines[0]));
      IniFoldGrows(lines[1..], IniLine(st, lines[0]));
    }
  }

  // ---------------------------------------------------------------------------------------
  // normalizeEndpoint

  /** `{ host, port }`: the port is `''` (a string) when there is none, a number otherwise. */
  datatype Endpoint = Endpoint(host: string, port: Value)

  /** `normalizeEndpoint(endpoint)`: one leading `[` and one trailing `]` are removed, then the
      text is split at its last `:`. */
  function NormalizeEndpoint(endpoint: string): (r: Endpoint)
    ensures endpoint == [] ==> r == Endpoint("", Str(""))
    ensures r.port.Str? ==> r.port.s == []
  {
    if endpoint == [] then Endpoint("", Str("")) else SplitEndpoint(Unbracket(endpoint))
  }

  /** `endpoint.replace(/^\[/, '').replace(/\]$/, '')`. */
  function Unbracket(endpoint: string): (r: string)
    ensures |r| <= |endpoint|
  {
    var unbracketed := if endpoint != [] && endpoint[0] == '[' then endpoint[1..] else endpoint;
    if unbracketed != [] && unbracketed[|unbracketed| - 1] == ']' then unbracketed[..|unbracketed| - 1] else unbracketed
  }

  /** The host before the last `:` and the number after it (`0` when nothing follows). */
  function SplitEndpoint(cleaned: string): (r: Endpoint)
    ensures r.port.Str? ==> r.port.s == []
  {
    match LastIndexOfChar(cleaned, ':')
    case None => Endpoint(cleaned, Str(""))
    case Some(idx) =>
      var portText := cleaned[idx + 1..];
      Endpoint(cleaned[..idx], if portText == [] then Num(0) else NumberOf(portText))
  }

  /** `Number(String(n)) === n` for a port. */
  lemma NumberOfNat(n: nat)
    ensures NumberOf(NatToString(n)) == Num(n)
  {
    NumberOfToStr(n);
  }

  /** Text whose last `:` is followed by the digits of a port splits into what precedes it and
      that port. */
  lemma SplitEndpointAt(host: string, port: nat)
    ensures SplitEndpoint(host + ":" + NatToString(port)) == Endpoint(host, Num(port))
  {
    var p := NatToString(port);
    var e := host + ":" + p;
    assert forall j :: |host| < j < |e| ==> e[j] != ':' by {
      forall j | |host| < j < |e| ensures e[j] != ':' { assert e[j] == p[j - |host| - 1]; }
    }
    LastIndexOfCharAt(e, ':', |host|);
    assert e[..|host|] == host && e[|host| + 1..] == p;
    NumberOfNat(port);
  }

  /** Text that neither starts with `[` nor ends with `]` is left alone. */
  lemma UnbracketPlain(e: string)
    requires e == [] || (e[0] != '[' && e[|e| - 1] != ']')
    ensures Unbracket(e) == e
  {
  }

  /** `host:port` splits back into the host and the numeric port, whatever `:` the host holds. */
  lemma NormalizeEndpointSplit(host: string, port: nat)
    requires host == [] || host[0] != '['
    ensures NormalizeEndpoint(host + ":" + NatToString(port)) == Endpoint(host, Num(port))
  {
    var p := NatToString(port);
    var e := host + ":" + p;
    assert e[0] != '[' by { if host == [] { assert e[0] == ':'; } else { assert e[0] == host[0]; } }
    assert e[|e| - 1] == p[|p| - 1];
    UnbracketPlain(e);
    SplitEndpointAt(host, port);
  }

  /** The brackets of `[address]:port` are removed only at the ends of the whole text: the
      `]` before the port stays in the host. */
  lemma NormalizeEndpointBracketed(address: string, port: nat)
    requires ':' !in address
    ensures NormalizeEndpoint("[" + address + "]:" + NatToString(port)).host == address + "]"
  {
    var p := NatToString(port);
    var e := "[" + address + "]:" + p;
    var cleaned := address + "]:" + p;
    assert Unbracket(e) == cleaned by {
      assert e[1..] == cleaned;
      assert cleaned[|cleaned| - 1] == p[|p| - 1];
    }
    assert cleaned == (address + "]") + ":" + p;
    SplitEndpointAt(address + "]", port);
  }

  // ---------------------------------------------------------------------------------------
  // normalizeTransport, reverseTransport

  /** The transport ids rows carry. */
  const TransportIds: set<string> := {"websocket", "grpc", "httpupgrade", "xhttp", "mkcp", "raw", "hysteria"}

  /** `normalizeTransport(value)`: a share-link network name to a transport id; total, with
      `raw` for every name outside the table. */
  function NormalizeTransport(value: string): (r: string)
    ensures r in TransportIds
    ensures value in TransportIds - {"websocket"} ==> r == value
    ensures value !in TransportIds + {"ws", "tcp"} ==> r == "raw"
  {
    if value == "ws" then "websocket"
    else if value == "grpc" || value == "httpupgrade" || value == "xhttp" || value == "mkcp" || value == "raw" || value == "hysteria" then value
    else "raw"
  }

  /** `reverseTransport(id)`: the share-link name of a transport id. */
  function ReverseTransport(id: string): (r: string)
    ensures id != "websocket" ==> r == id
  {
    if id == "websocket" then "ws" else id
  }

  /** Every transport id survives the trip to a share-link name and back. */
  lemma TransportRoundTrip(t: string)
    requires t in TransportIds
    ensures NormalizeTransport(ReverseTransport(t)) == t
  {
  }

  // ---------------------------------------------------------------------------------------
  // copyQuery

  /** The bucket `copyQuery(q, dest, keys)` leaves in `dest`. */
  function QueryCopy(q: Url.Params, dest: Bucket, keys: seq<string>): Bucket
    decreases |keys|
  {
    if keys == [] then dest
    else
      var v := Url.Get(q, keys[0]);
      QueryCopy(q, if v.Some? && v.value != [] then dest[keys[0] := Str(v.value)] else dest, keys[1..])
  }

  /** The parameter is listed and present with a non-empty value. */
  predicate Copied(q: Url.Params, keys: seq<string>, k: string) {
    k in keys && Url.GetOr(q, k, "") != []
  }

  /** The bucket `QueryCopy` builds: the listed parameters with a non-empty value, over `dest`. */
  lemma {:induction false} QueryCopyFields(q: Url.Params, dest: Bucket, keys: seq<string>)
    ensures forall k :: k in QueryCopy(q, dest, keys) <==> k in dest || Copied(q, keys, k)
    ensures forall k :: k in QueryCopy(q, dest, keys) ==>
      QueryCopy(q, dest, keys)[k] == if Copied(q, keys, k) then Str(Url.GetOr(q, k, "")) else dest[k]
    decreases |keys|
  {
    if keys != [] {
      var v := Url.Get(q, keys[0]);
      var next := if v.Some? && v.value != [] then dest[keys[0] := Str(v.value)] else dest;
      QueryCopyFields(q, next, keys[1..]);
      forall k ensures Copied(q, keys, k) <==> (k == keys[0] && Url.GetOr(q, k, "") != []) || Copied(q, keys[1..], k) {
        assert k in keys <==> k == keys[0] || k in keys[1..];
      }
    }
  }

  /** `copyQuery(q, dest, keys)`: every listed parameter with a non-empty value lands in `dest`
      under its own name; nothing else changes. */
  method CopyQuery(q: Url.Params, dest: Bucket, keys: seq<string>) returns (out: Bucket)
    ensures forall k :: k in out <==> k in dest || Copied(q, keys, k)
    ensures forall k :: k in out ==> out[k] == if Copied(q, keys, k) then Str(Url.GetOr(q, k, "")) else dest[k]
    ensures out == QueryCopy(q, dest, keys)
  {
    out := dest;
    var i := 0;
    while i < |keys|
      invariant 0 <= i <= |keys|
      invariant forall k :: k in out <==> k in dest || Copied(q, keys[..i], k)
      invariant forall k :: k in out ==> out[k] == if Copied(q, keys[..i], k) then Str(Url.GetOr(q, k, "")) else dest[k]
      invariant QueryCopy(q, out, keys[i..]) == QueryCopy(q, dest, keys)
    {
      var key := keys[i];
      var value := Url.Get(q, key);
      if value.Some? && value.value != [] {
        out := out[key := Str(value.value)];
      }
      assert keys[..i + 1] == keys[..i] + [key];
      assert keys[i..][1..] == keys[i + 1..];
      i := i + 1;
    }
    assert keys[..i] == keys;
    assert keys[i..] == [];
  }

  // ---------------------------------------------------------------------------------------
  // makeRow

  /** `makeRow({...})`: an outbound Xray row; an empty name becomes `protocol-server` (or
      `protocol-node` without a server). */
  function MakeRow(id: string, name: string, protocolId: string, transportId: string,
                   mainConfig: Bucket, optionalConfig: Bucket, transportMain: Bucket, transportOptional: Bucket): (r: Row)
    ensures r.direction == "outbound" && r.engineId == "xray" && r.name != []
    ensures name != [] ==> r.name == name
    ensures r.id == id && r.protocolId == protocolId && r.transportId == transportId
    ensures r.mainConfig == mainConfig && r.optionalConfig == optionalConfig
    ensures r.transportMain == transportMain && r.transportOptional == transportOptional && r.legacy == map[]
  {
    var fallback := protocolId + "-" + (if Present(Field(mainConfig, "server")) then ToStr(mainConfig["server"]) else "node");
    Row(id, "xray", OrStr(name, fallback), "outbound", protocolId, transportId,
        mainConfig, optionalConfig, transportMain, transportOptional, map[])
  }
}
