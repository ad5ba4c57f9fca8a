/** The JavaScript primitives that row fields and proxy fields hold, with the conversions the core
    applies to them: truthiness (`||`), `String(v)` and `Number(v)`. A field that is `undefined`
    is a key absent from its map, or None. */
module JsValue {
  import opened Outcomes
  import opened JsString

  datatype Value = Str(s: string) | Num(n: int) | NaN | Bool(b: bool)

  predicate Truthy(v: Value) {
    match v
    case Str(s) => s != []
    case Num(n) => n != 0
    case NaN => false
    case Bool(b) => b
  }

  /** Truthiness of a field that may be `undefined`. */
  predicate Present(v: Option<Value>) {
    v.Some? && Truthy(v.value)
  }

  /** `v || fallback` */
  function Or(v: Option<Value>, fallback: Value): (r: Value)
    ensures Present(v) ==> r == v.value
    ensures !Present(v) ==> r == fallback
  {
    if Present(v) then v.value else fallback
  }

  /** `s || fallback` for strings. */
  function OrStr(s: string, fallback: string): (r: string)
    ensures s != [] ==> r == s
    ensures s == [] ==> r == fallback
  {
    if s != [] then s else fallback
  }

  /** `a || b` on two fields that may be undefined. */
  function OrField(a: Option<Value>, b: Option<Value>): Option<Value> {
    if Present(a) then a else b
  }

  /** `String(v)` */
  function ToStr(v: Value): (r: string)
    ensures v.Str? ==> r == v.s
  {
    match v
    case Str(s) => s
    case Num(n) => IntToString(n)
    case NaN => "NaN"
    case Bool(b) => if b then "true" else "false"
  }

  /** `String(v ?? '')` for a field that may be missing; the template `${v || ''}` reads the same
      once the falsy values are turned into `''`. */
  function FieldText(v: Option<Value>): string {
    match v case None => "" case Some(x) => ToStr(x)
  }

  /** `Number(s)` for a string: surrounding white space is ignored, the empty string is 0, and
      an optionally signed run of decimal digits is its value; anything else is NaN here. */
  function NumberOf(s: string): (r: Value)
    ensures r.Num? || r.NaN?
    ensures r.Num? && Trim(s) != [] ==> AllDigits(Trim(s)) || Trim(s)[0] == '-' || Trim(s)[0] == '+'
  {
    var t := Trim(s);
    if t == [] then Num(0)
    else if AllDigits(t) then Num(DigitsValue(t))
    else if |t| >= 2 && (t[0] == '-' || t[0] == '+') && AllDigits(t[1..]) then
      Num(if t[0] == '-' then 0 - DigitsValue(t[1..]) as int else DigitsValue(t[1..]))
    else NaN
  }

  /** `Number(v)` for a primitive. */
  function ToNumber(v: Value): (r: Value)
    ensures r.Num? || r.NaN?
  {
    match v
    case Str(s) => NumberOf(s)
    case Num(n) => Num(n)
    case NaN => NaN
    case Bool(b) => Num(if b then 1 else 0)
  }

  lemma TrimDigits(s: string)
    requires s != [] && AllDigits(s)
    ensures Trim(s) == s
  {
    assert !IsSpace(s[0]) && !IsSpace(s[|s| - 1]);
  }

  /** `Number(String(n)) === n` for every integer. */
  lemma NumberOfToStr(n: int)
    ensures NumberOf(ToStr(Num(n))) == Num(n)
  {
    var m := if n < 0 then -n else n;
    DigitsValueOfNatToString(m);
    var d := NatToString(m);
    if n < 0 {
      NumberOfNegative(d);
    } else {
      NumberOfDigits(d);
    }
  }

  lemma NumberOfDigits(d: string)
    requires d != [] && AllDigits(d)
    ensures NumberOf(d) == Num(DigitsValue(d))
  {
    TrimDigits(d);
  }

  lemma NumberOfNegative(d: string)
    requires d != [] && AllDigits(d)
    ensures NumberOf("-" + d) == Num(0 - DigitsValue(d) as int)
  {
    var t := "-" + d;
    assert t[|t| - 1] == d[|d| - 1];
    TrimKeeps(t);
    assert t[1..] == d;
    assert !AllDigits(t) by { assert !IsAsciiDigit(t[0]); }
  }

  lemma TrimKeeps(t: string)
    requires t != [] && !IsSpace(t[0]) && !IsSpace(t[|t| - 1])
    ensures Trim(t) == t
  {
    assert TrimStart(t) == t;
  }
}
