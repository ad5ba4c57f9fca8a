/** `JSON.parse` (ECMA-404) for the vmess share payload, and the property reads and conversions
    `parseVmess` applies to the parsed value. Numbers are integers here: a fraction or an
    exponent makes the parse fail, and so does a `\u` escape of a lone surrogate. */
module Json {
  import opened Outcomes
  import opened JsString
  import opened JsValue
  import Percent

  datatype Json =
    | JNull
    | JBool(b: bool)
    | JNum(n: int)
    | JStr(s: string)
    | JArr(items: seq<Json>)
    | JObj(members: seq<(string, Json)>)

  /** A value and the position after it. */
  datatype Parsed<+T> = Parsed(value: T, next: nat)

  predicate IsJsonSpace(c: char) {
    c == ' ' || c == '\t' || c == '\n' || c == '\r'
  }

  function SkipSpace(s: string, i: nat): (j: nat)
    requires i <= |s|
    ensures i <= j <= |s| && (j < |s| ==> !IsJsonSpace(s[j]))
    decreases |s| - i
  {
    if i < |s| && IsJsonSpace(s[i]) then SkipSpace(s, i + 1) else i
  }

  function HexQuad(s: string, i: nat): (r: Option<nat>)
    ensures r.Some? ==> r.value < 0x10000
  {
    if i + 4 <= |s| then
      match (Percent.HexValue(s[i]), Percent.HexValue(s[i + 1]), Percent.HexValue(s[i + 2]), Percent.HexValue(s[i + 3]))
      case (Some(a), Some(b), Some(c), Some(d)) => Some(((a * 16 + b) * 16 + c) * 16 + d)
      case _ => None
    else None
  }

  /** The character an escape at `i` (just after the backslash) stands for. A `\u` escape of a
      high surrogate must be followed by one of a low surrogate; the two make one character. */
  function Escape(s: string, i: nat): (r: Option<Parsed<char>>)
    ensures r.Some? ==> i < r.value.next <= |s|
  {
    if i >= |s| then None
    else if s[i] == '"' || s[i] == '\\' || s[i] == '/' then Some(Parsed(s[i], i + 1))
    else if s[i] == 'b' then Some(Parsed('\U{8}', i + 1))
    else if s[i] == 'f' then Some(Parsed('\U{C}', i + 1))
    else if s[i] == 'n' then Some(Parsed('\n', i + 1))
    else if s[i] == 'r' then Some(Parsed('\r', i + 1))
    else if s[i] == 't' then Some(Parsed('\t', i + 1))
    else if s[i] != 'u' then None
    else UnicodeEscape(s, i)
  }

  /** A `\u` escape whose `u` is at `i`. */
  function UnicodeEscape(s: string, i: nat): (r: Option<Parsed<char>>)
    requires i < |s|
    ensures r.Some? ==> i < r.value.next <= |s|
  {
    match HexQuad(s, i + 1)
    case None => None
    case Some(u) =>
      if u < 0xD800 || u >= 0xE000 then Some(Parsed(u as char, i + 5))
      else if u >= 0xDC00 || i + 7 > |s| || s[i + 5] != '\\' || s[i + 6] != 'u' then None
      else match HexQuad(s, i + 7)
        case Some(l) =>
          if 0xDC00 <= l < 0xE000 then Some(Parsed(SurrogatePair(u, l), i + 11))
          else None
        case None => None
  }

  /** The character a high and a low surrogate stand for together. */
  function SurrogatePair(u: nat, l: nat): char
    requires 0xD800 <= u < 0xDC00 && 0xDC00 <= l < 0xE000
  {
    (0x10000 + (u - 0xD800) * 0x400 + (l - 0xDC00)) as char
  }

  /** The characters of a string literal from `i` to its closing quote. */
  function StringBody(s: string, i: nat, acc: string): (r: Option<Parsed<string>>)
    requires i <= |s|
    ensures r.Some? ==> i < r.value.next <= |s|
    decreases |s| - i
  {
    if i == |s| || s[i] < ' ' then None
    else if s[i] == '"' then Some(Parsed(acc, i + 1))
    else if s[i] != '\\' then StringBody(s, i + 1, acc + [s[i]])
    else match Escape(s, i + 1)
      case None => None
      case Some(e) => StringBody(s, e.next, acc + [e.value])
  }

  predicate NotDigit(c: char) { !IsAsciiDigit(c) }

  /** An integer: an optional minus sign, then `0` or digits not starting with `0`. */
  function Integer(s: string, i: nat): (r: Option<Parsed<int>>)
    requires i <= |s|
    ensures r.Some? ==> i < r.value.next <= |s|
  {
    var neg := i < |s| && s[i] == '-';
    var start := if neg then i + 1 else i;
    var end := start + FindFirst(s[start..], NotDigit);
    if end == start || (s[start] == '0' && end > start + 1) then None
    else if end < |s| && (s[end] == '.' || s[end] == 'e' || s[end] == 'E') then None
    else
      var v := DigitsValue(s[start..end]);
      Some(Parsed(if neg then 0 - v else v, end))
  }

  function Literal(s: string, i: nat, word: string, v: Json): (r: Option<Parsed<Json>>)
    requires word != []
    ensures r.Some? ==> i < r.value.next <= |s|
  {
    if OccursAt(s, word, i) then Some(Parsed(v, i + |word|)) else None
  }

  /** A value, with the white space before it. */
  function Value(s: string, i: nat): (r: Option<Parsed<Json>>)
    requires i <= |s|
    ensures r.Some? ==> i < r.value.next <= |s|
    decreases |s| - i, 0
  {
    var j := SkipSpace(s, i);
    if j == |s| then None
    else if s[j] == '{' then Object(s, j + 1)
    else if s[j] == '[' then Array(s, j + 1)
    else if s[j] == '"' then
      match StringBody(s, j + 1, [])
      case None => None
      case Some(p) => Some(Parsed(JStr(p.value), p.next))
    else if s[j] == 't' then Literal(s, j, "true", JBool(true))
    else if s[j] == 'f' then Literal(s, j, "false", JBool(false))
    else if s[j] == 'n' then Literal(s, j, "null", JNull)
    else
      match Integer(s, j)
      case None => None
      case Some(p) => Some(Parsed(JNum(p.value), p.next))
  }

  /** The rest of an array after its `[`. */
  function Array(s: string, i: nat): (r: Option<Parsed<Json>>)
    requires i <= |s|
    ensures r.Some? ==> i < r.value.next <= |s|
    decreases |s| - i, 2
  {
    var j := SkipSpace(s, i);
    if j < |s| && s[j] == ']' then Some(Parsed(JArr([]), j + 1)) else Elements(s, i, [])
  }

  function Elements(s: string, i: nat, acc: seq<Json>): (r: Option<Parsed<Json>>)
    requires i <= |s|
    ensures r.Some? ==> i < r.value.next <= |s|
    decreases |s| - i, 1
  {
    match Value(s, i)
    case None => None
    case Some(p) =>
      var j := SkipSpace(s, p.next);
      if j == |s| then None
      else if s[j] == ',' then Elements(s, j + 1, acc + [p.value])
      else if s[j] == ']' then Some(Parsed(JArr(acc + [p.value]), j + 1))
      else None
  }

  /** The rest of an object after its `{`. */
  function Object(s: string, i: nat): (r: Option<Parsed<Json>>)
    requires i <= |s|
    ensures r.Some? ==> i < r.value.next <= |s|
    decreases |s| - i, 2
  {
    var j := SkipSpace(s, i);
    if j < |s| && s[j] == '}' then Some(Parsed(JObj([]), j + 1)) else Members(s, i, [])
  }

  function Members(s: string, i: nat, acc: seq<(string, Json)>): (r: Option<Parsed<Json>>)
    requires i <= |s|
    ensures r.Some? ==> i < r.value.next <= |s|
    decreases |s| - i, 1
  {
    var j := SkipSpace(s, i);
    if j == |s| || s[j] != '"' then None
    else match StringBody(s, j + 1, [])
      case None => None
      case Some(key) =>
        var k := SkipSpace(s, key.next);
        if k == |s| || s[k] != ':' then None
        else match Value(s, k + 1)
          case None => None
          case Some(p) =>
            var m := SkipSpace(s, p.next);
            if m == |s| then None
            else if s[m] == ',' then Members(s, m + 1, acc + [(key.value, p.value)])
            else if s[m] == '}' then Some(Parsed(JObj(acc + [(key.value, p.value)]), m + 1))
            else None
  }

  /** `JSON.parse(text)`, with None where it throws a SyntaxError. */
  function Parse(text: string): (r: Option<Json>)
  {
    match Value(text, 0)
    case None => None
    case Some(p) => if SkipSpace(text, p.next) == |text| then Some(p.value) else None
  }

  // ---------------------------------------------------------------------------------------
  // Reading the parsed value

  /** `v[key]` for a property the prototypes do not define: the last member of that name of an
      object (JSON.parse keeps the last duplicate), and `undefined` for anything else. */
  function Prop(v: Json, key: string): Option<Json> {
    if v.JObj? then LastMember(v.members, key) else None
  }

  function LastMember(ms: seq<(string, Json)>, key: string): (r: Option<Json>)
    ensures r.Some? ==> exists i :: 0 <= i < |ms| && ms[i] == (key, r.value)
    ensures r.None? ==> forall i :: 0 <= i < |ms| ==> ms[i].0 != key
  {
    if ms == [] then None
    else if ms[|ms| - 1].0 == key then Some(ms[|ms| - 1].1)
    else LastMember(ms[..|ms| - 1], key)
  }

  predicate JTruthy(v: Json) {
    match v
    case JNull => false
    case JBool(b) => b
    case JNum(n) => n != 0
    case JStr(s) => s != []
    case JArr(_) => true
    case JObj(_) => true
  }

  /** `String(v)`: an array is its elements joined with `,` (null elements read as empty), an
      object is `[object Object]`. */
  function JToStr(v: Json): string {
    match v
    case JNull => "null"
    case JBool(b) => if b then "true" else "false"
    case JNum(n) => IntToString(n)
    case JStr(s) => s
    case JArr(items) => JoinItems(items)
    case JObj(_) => "[object Object]"
  }

  function JoinItems(items: seq<Json>): string
    decreases items
  {
    if items == [] then []
    else
      var first := if items[0].JNull? then "" else JToStr(items[0]);
      if |items| == 1 then first else first + "," + JoinItems(items[1..])
  }

  /** `Number(v)`. */
  function JToNumber(v: Json): (r: Value)
    ensures r.Num? || r.NaN?
  {
    match v
    case JNull => Num(0)
    case JBool(b) => Num(if b then 1 else 0)
    case JNum(n) => Num(n)
    case JStr(s) => NumberOf(s)
    case JArr(_) => NumberOf(JToStr(v))
    case JObj(_) => NaN
  }

  /** `json[a] || json[b] || ...`: the first truthy property, or None when all are falsy or
      missing (the caller's own fallback then applies). */
  function FirstTruthy(v: Json, keys: seq<string>): (r: Option<Json>)
    ensures r.Some? ==> JTruthy(r.value)
  {
    if keys == [] then None
    else match Prop(v, keys[0])
      case Some(x) => if JTruthy(x) then Some(x) else FirstTruthy(v, keys[1..])
      case None => FirstTruthy(v, keys[1..])
  }

  /** `String(json[a] || ... || fallback)` */
  function TextOr(v: Json, keys: seq<string>, fallback: string): string {
    match FirstTruthy(v, keys) case Some(x) => JToStr(x) case None => fallback
  }

  /** `json[a] ?? json[b] ?? ...`: the first property that is neither missing nor null. */
  function FirstDefined(v: Json, keys: seq<string>): (r: Option<Json>)
    ensures r.Some? ==> !r.value.JNull?
  {
    if keys == [] then None
    else match Prop(v, keys[0])
      case Some(x) => if x.JNull? then FirstDefined(v, keys[1..]) else Some(x)
      case None => FirstDefined(v, keys[1..])
  }
}
