/** src/ui/app.js, the parts that do not touch the page: HTML escaping, the endpoint text and
    the filter of the list view, the protocol choices of the editor, and the three updates of
    the row collection (delete, the buckets of a saved form, save). */
module App {
  import opened Outcomes
  import opened JsString
  import opened JsValue
  import opened Rows

  // ---------------------------------------------------------------------------------------
  // escapeHtml

  /** `escapeHtml(input)` on the text of the input: five `replaceAll`s, `&` first. */
  function EscapeHtml(s: string): string {
    ReplaceChar(ReplaceChar(ReplaceChar(ReplaceChar(ReplaceChar(s, '&', "&amp;"), '<', "&lt;"), '>', "&gt;"), '"', "&quot;"), '\'', "&#39;")
  }

  /** The characters `escapeHtml` replaces. */
  predicate Special(c: char) {
    c == '&' || c == '<' || c == '>' || c == '"' || c == '\''
  }

  /** The entity a special character is written as. */
  function Entity(c: char): string
    requires Special(c)
  {
    if c == '&' then "&amp;" else if c == '<' then "&lt;" else if c == '>' then "&gt;"
    else if c == '"' then "&quot;" else "&#39;"
  }

  /** The step of `UnescapeHtml` that turns the character's entity back: the reverse of the
      order in which `escapeHtml` writes them. */
  function Stage(c: char): nat
    requires Special(c)
  {
    if c == '\'' then 0 else if c == '"' then 1 else if c == '>' then 2 else if c == '<' then 3 else 4
  }

  /** How a character stands after the first `k` steps of unescaping an escaped text. */
  function Unit(k: nat, c: char): string {
    if Special(c) && Stage(c) >= k then Entity(c) else [c]
  }

  function Units(k: nat, s: string): string
    decreases |s|
  {
    if s == [] then [] else Unit(k, s[0]) + Units(k, s[1..])
  }

  /** `s.replaceAll(pat, rep)` for a non-empty text pattern: occurrences replaced left to
      right, none overlapping. */
  function ReplaceText(s: string, pat: string, rep: string): string
    requires pat != []
    decreases |s|
  {
    if s == [] then []
    else if StartsWith(s, pat) then rep + ReplaceText(s[|pat|..], pat, rep)
    else [s[0]] + ReplaceText(s[1..], pat, rep)
  }

  /** The reverse of `escapeHtml`: the five replacements undone in reverse order, `&amp;`
      last. */
  function UnescapeHtml(t: string): string {
    ReplaceText(ReplaceText(ReplaceText(ReplaceText(ReplaceText(t, "&#39;", "'"), "&quot;", "\""), "&gt;", ">"), "&lt;", "<"), "&amp;", "&")
  }

  lemma {:induction false} ReplaceCharAppend(a: string, b: string, c: char, t: string)
    ensures ReplaceChar(a + b, c, t) == ReplaceChar(a, c, t) + ReplaceChar(b, c, t)
    decreases |a|
  {
    if a != [] {
      var h := if a[0] == c then t else [a[0]];
      assert (a + b)[0] == a[0] && (a + b)[1..] == a[1..] + b;
      assert ReplaceChar(a + b, c, t) == h + ReplaceChar(a[1..] + b, c, t);
      ReplaceCharAppend(a[1..], b, c, t);
      assert ReplaceChar(a, c, t) == h + ReplaceChar(a[1..], c, t);
    } else {
      assert a + b == b;
    }
  }

  lemma EscapeHtmlAppend(a: string, b: string)
    ensures EscapeHtml(a + b) == EscapeHtml(a) + EscapeHtml(b)
  {
    var a1, b1 := ReplaceChar(a, '&', "&amp;"), ReplaceChar(b, '&', "&amp;");
    ReplaceCharAppend(a, b, '&', "&amp;");
    var a2, b2 := ReplaceChar(a1, '<', "&lt;"), ReplaceChar(b1, '<', "&lt;");
    ReplaceCharAppend(a1, b1, '<', "&lt;");
    var a3, b3 := ReplaceChar(a2, '>', "&gt;"), ReplaceChar(b2, '>', "&gt;");
    ReplaceCharAppend(a2, b2, '>', "&gt;");
    var a4, b4 := ReplaceChar(a3, '"', "&quot;"), ReplaceChar(b3, '"', "&quot;");
    ReplaceCharAppend(a3, b3, '"', "&quot;");
    ReplaceCharAppend(a4, b4, '\'', "&#39;");
  }

  lemma ReplaceCharOne(c: char, t: string)
    ensures ReplaceChar([c], c, t) == t
  {
    assert [c][1..] == [];
    assert t + [] == t;
  }

  lemma ReplaceCharKeeps(e: string, c: char, t: string)
    requires c !in e
    ensures ReplaceChar(e, c, t) == e
  {
  }

  // How each character passes through the five replacements; each step is stated on a
  // variable so that the solver never evaluates a replacement of a literal text.

  lemma EscapeAmp(c: char)
    requires c == '&'
    ensures EscapeHtml([c]) == "&amp;"
  {
    var e1 := ReplaceChar([c], '&', "&amp;");
    ReplaceCharOne(c, "&amp;");
    assert '<' !in e1 && '>' !in e1 && '"' !in e1 && '\'' !in e1;
    ReplaceCharKeeps(e1, '<', "&lt;");
    ReplaceCharKeeps(e1, '>', "&gt;");
    ReplaceCharKeeps(e1, '"', "&quot;");
    ReplaceCharKeeps(e1, '\'', "&#39;");
  }

  lemma EscapeLt(c: char)
    requires c == '<'
    ensures EscapeHtml([c]) == "&lt;"
  {
    ReplaceCharKeeps([c], '&', "&amp;");
    var e2 := ReplaceChar([c], '<', "&lt;");
    ReplaceCharOne(c, "&lt;");
    assert '>' !in e2 && '"' !in e2 && '\'' !in e2;
    ReplaceCharKeeps(e2, '>', "&gt;");
    ReplaceCharKeeps(e2, '"', "&quot;");
    ReplaceCharKeeps(e2, '\'', "&#39;");
  }

  lemma EscapeGt(c: char)
    requires c == '>'
    ensures EscapeHtml([c]) == "&gt;"
  {
    ReplaceCharKeeps([c], '&', "&amp;");
    ReplaceCharKeeps([c], '<', "&lt;");
    var e3 := ReplaceChar([c], '>', "&gt;");
    ReplaceCharOne(c, "&gt;");
    assert '"' !in e3 && '\'' !in e3;
    ReplaceCharKeeps(e3, '"', "&quot;");
    ReplaceCharKeeps(e3, '\'', "&#39;");
  }

  lemma EscapeQuot(c: char)
    requires c == '"'
    ensures EscapeHtml([c]) == "&quot;"
  {
    ReplaceCharKeeps([c], '&', "&amp;");
    ReplaceCharKeeps([c], '<', "&lt;");
    ReplaceCharKeeps([c], '>', "&gt;");
    var e4 := ReplaceChar([c], '"', "&quot;");
    ReplaceCharOne(c, "&quot;");
    assert '\'' !in e4;
    ReplaceCharKeeps(e4, '\'', "&#39;");
  }

  lemma EscapeApos(c: char)
    requires c == '\''
    ensures EscapeHtml([c]) == "&#39;"
  {
    ReplaceCharKeeps([c], '&', "&amp;");
    ReplaceCharKeeps([c], '<', "&lt;");
    ReplaceCharKeeps([c], '>', "&gt;");
    ReplaceCharKeeps([c], '"', "&quot;");
    ReplaceCharOne(c, "&#39;");
  }

  lemma EscapePlain(c: char)
    requires !Special(c)
    ensures EscapeHtml([c]) == [c]
  {
    ReplaceCharKeeps([c], '&', "&amp;");
    ReplaceCharKeeps([c], '<', "&lt;");
    ReplaceCharKeeps([c], '>', "&gt;");
    ReplaceCharKeeps([c], '"', "&quot;");
    ReplaceCharKeeps([c], '\'', "&#39;");
  }

  lemma EscapeHtmlChar(c: char)
    ensures EscapeHtml([c]) == Unit(0, c)
  {
    if c == '&' {
      EscapeAmp(c);
    } else if c == '<' {
      EscapeLt(c);
    } else if c == '>' {
      EscapeGt(c);
    } else if c == '"' {
      EscapeQuot(c);
    } else if c == '\'' {
      EscapeApos(c);
    } else {
      EscapePlain(c);
    }
  }

  /** Escaping writes each special character as its entity and keeps every other character. */
  lemma {:induction false} EscapeHtmlUnits(s: string)
    ensures EscapeHtml(s) == Units(0, s)
    decreases |s|
  {
    if s != [] {
      assert s == [s[0]] + s[1..];
      EscapeHtmlAppend([s[0]], s[1..]);
      EscapeHtmlChar(s[0]);
      EscapeHtmlUnits(s[1..]);
    }
  }

  lemma {:induction false} UnitsPlain(s: string)
    ensures forall i :: 0 <= i < |Units(0, s)| ==> !(Units(0, s)[i] in {'<', '>', '"', '\''})
    decreases |s|
  {
    if s != [] {
      UnitsPlain(s[1..]);
      var u, rest := Unit(0, s[0]), Units(0, s[1..]);
      assert forall i :: 0 <= i < |u| ==> !(u[i] in {'<', '>', '"', '\''});
      assert forall i :: |u| <= i < |u + rest| ==> (u + rest)[i] == rest[i - |u|];
    }
  }

  /** The output holds no `<`, `>`, `"` or `'`. */
  lemma EscapeHtmlSafe(s: string)
    ensures var t := EscapeHtml(s);
      '<' !in t && '>' !in t && '"' !in t && '\'' !in t
  {
    EscapeHtmlUnits(s);
    UnitsPlain(s);
  }

  /** A text with no occurrence of the pattern's first character passes through. */
  lemma {:induction false} ReplacePassThrough(u: string, r: string, pat: string, rep: string)
    requires pat != [] && pat[0] !in u
    ensures ReplaceText(u + r, pat, rep) == u + ReplaceText(r, pat, rep)
    decreases |u|
  {
    if u != [] {
      var s := u + r;
      assert s[0] == u[0] && s[1..] == u[1..] + r;
      assert forall n :: 0 < n <= |s| ==> s[..n][0] == s[0];
      ReplacePassThrough(u[1..], r, pat, rep);
    } else {
      assert u + r == r;
    }
  }

  /** Every entity starts with `&`, has no other `&`, and is told apart from the others by
      its second character. */
  lemma EntityShape(c: char, d: char)
    requires Special(c) && Special(d)
    ensures var e := Entity(c);
      |e| >= 4 && e[0] == '&' && '&' !in e[1..]
    ensures c != d ==> Entity(c)[1] != Entity(d)[1]
  {
  }

  lemma ReplaceTextHead(pat: string, rest: string, rep: string)
    requires pat != []
    ensures ReplaceText(pat + rest, pat, rep) == rep + ReplaceText(rest, pat, rep)
  {
    var s := pat + rest;
    assert s[..|pat|] == pat && s[|pat|..] == rest;
  }

  /** A text that starts like the pattern but differs at its second character, and holds no
      further occurrence of the pattern's first character, passes through. */
  lemma ReplaceTextMismatch(u: string, rest: string, pat: string, rep: string)
    requires |u| >= 2 && |pat| >= 2 && u[1] != pat[1] && pat[0] !in u[1..]
    ensures ReplaceText(u + rest, pat, rep) == u + ReplaceText(rest, pat, rep)
  {
    var t := u + rest;
    assert t[1] == u[1];
    assert forall n :: 1 < n <= |t| ==> t[..n][1] == t[1];
    assert t[1..] == u[1..] + rest;
    ReplacePassThrough(u[1..], rest, pat, rep);
    assert u == [u[0]] + u[1..];
  }

  /** One step of `UnescapeHtml` turns the step-`k` form of a text into its step-`k + 1`
      form. */
  lemma {:induction false} UnitsStep(k: nat, s: string, pat: string, target: char)
    requires k < 5 && Special(target) && Stage(target) == k && pat == Entity(target)
    ensures ReplaceText(Units(k, s), pat, [target]) == Units(k + 1, s)
    decreases |s|
  {
    if s != [] {
      var c := s[0];
      var u, rest := Unit(k, c), Units(k, s[1..]);
      assert Units(k, s) == u + rest;
      UnitsStep(k, s[1..], pat, target);
      if Special(c) && Stage(c) == k {
        assert c == target;
        ReplaceTextHead(pat, rest, [target]);
      } else if Special(c) && Stage(c) > k {
        EntityShape(c, target);
        ReplaceTextMismatch(u, rest, pat, [target]);
      } else {
        assert u == [c];
        EntityShape(target, target);
        ReplacePassThrough(u, rest, pat, [target]);
      }
    }
  }

  lemma {:induction false} UnitsLast(s: string)
    ensures Units(5, s) == s
    decreases |s|
  {
    if s != [] {
      UnitsLast(s[1..]);
      assert s == [s[0]] + s[1..];
    }
  }

  /** Undoing the five replacements, `&amp;` last, gives back the input. */
  lemma EscapeHtmlRoundTrip(s: string)
    ensures UnescapeHtml(EscapeHtml(s)) == s
  {
    EscapeHtmlUnits(s);
    UnitsStep(0, s, "&#39;", '\'');
    UnitsStep(1, s, "&quot;", '"');
    UnitsStep(2, s, "&gt;", '>');
    UnitsStep(3, s, "&lt;", '<');
    UnitsStep(4, s, "&amp;", '&');
    UnitsLast(s);
  }

  // ---------------------------------------------------------------------------------------
  // readEndpoint

  /** The fields `readEndpoint` tries for the endpoint, in order: `mainConfig.server`,
      `mainConfig.listen`, `mainConfig.address` and the old top-level `host`. */
  function EndpointSources(row: Row): seq<Option<Value>> {
    [Field(row.mainConfig, "server"), Field(row.mainConfig, "listen"), Field(row.mainConfig, "address"),
     Field(row.legacy, "host")]
  }

  /** `:port` for the port `mainConfig.port || row.port`, nothing when that is falsy. */
  function PortSuffix(row: Row): string {
    var port := OrField(Field(row.mainConfig, "port"), Field(row.legacy, "port"));
    if Present(port) then ":" + ToStr(port.value) else ""
  }

  /** `readEndpoint(row)`, as the text the list view writes. */
  function ReadEndpoint(row: Row): string {
    var m := row.mainConfig;
    var candidate := OrField(OrField(OrField(Field(m, "server"), Field(m, "listen")), Field(m, "address")), Field(row.legacy, "host"));
    var text := if Present(candidate) then ToStr(candidate.value) else "-";
    var port := OrField(Field(m, "port"), Field(row.legacy, "port"));
    if Present(port) then text + ":" + ToStr(port.value) else text
  }

  /** The endpoint is the first truthy source, followed by the port when there is one. */
  lemma ReadEndpointFirst(row: Row, i: nat)
    requires i < 4 && Present(EndpointSources(row)[i])
    requires forall j :: 0 <= j < i ==> !Present(EndpointSources(row)[j])
    ensures ReadEndpoint(row) == ToStr(EndpointSources(row)[i].value) + PortSuffix(row)
  {
    var src := EndpointSources(row);
    OrChainFirst(src, i);
  }

  /** `a || b || c || d` is the first truthy one of the four. */
  lemma OrChainFirst(src: seq<Option<Value>>, i: nat)
    requires |src| == 4 && i < 4 && Present(src[i])
    requires forall j :: 0 <= j < i ==> !Present(src[j])
    ensures OrField(OrField(OrField(src[0], src[1]), src[2]), src[3]) == src[i]
  {
    if i > 0 { assert !Present(src[0]); }
    if i > 1 { assert !Present(src[1]); }
    if i > 2 { assert !Present(src[2]); }
  }

  /** Without any truthy source the endpoint is `-`, still followed by the port. */
  lemma ReadEndpointDash(row: Row)
    requires forall j :: 0 <= j < 4 ==> !Present(EndpointSources(row)[j])
    ensures ReadEndpoint(row) == "-" + PortSuffix(row)
  {
    var src := EndpointSources(row);
    assert !Present(src[0]) && !Present(src[1]) && !Present(src[2]) && !Present(src[3]);
  }

  // ---------------------------------------------------------------------------------------
  // filterRows

  /** The list view's filter settings: `state.engineId`, `state.direction`, `state.protocol`
      and `state.search`. */
  datatype View = View(engineId: string, direction: string, protocol: string, search: string)

  /** `row.protocolId || row.protocol || ''` */
  function ProtocolText(row: Row): string {
    if row.protocolId != [] then row.protocolId else Text(row.legacy, "protocol")
  }

  /** The text the search looks in, `${name} ${protocol} ${endpoint}` lower-cased. */
  function SearchText(row: Row): string {
    Lower(row.name + SearchTail(row))
  }

  function SearchTail(row: Row): string {
    " " + ProtocolText(row) + " " + ReadEndpoint(row)
  }

  predicate PassEngine(row: Row, view: View) {
    row.engineId == [] || row.engineId == view.engineId
  }

  predicate PassDirection(row: Row, view: View) {
    view.direction == "all" || row.direction == view.direction
  }

  predicate PassProtocol(row: Row, view: View) {
    view.protocol == "all" || row.protocolId == view.protocol || Field(row.legacy, "protocol") == Some(Str(view.protocol))
  }

  predicate PassSearch(row: Row, view: View) {
    view.search == [] || Contains(SearchText(row), Lower(view.search))
  }

  /** The callback of `filterRows`. */
  predicate Keep(row: Row, view: View) {
    PassEngine(row, view) && PassDirection(row, view) && PassProtocol(row, view) && PassSearch(row, view)
  }

  /** `filterRows(rows, state)` */
  function FilterRows(rows: seq<Row>, view: View): seq<Row>
    decreases |rows|
  {
    if rows == [] then [] else (if Keep(rows[0], view) then [rows[0]] else []) + FilterRows(rows[1..], view)
  }

  /** `sub` is `s` with some elements left out, the rest in their order. */
  predicate IsSubsequence(sub: seq<Row>, s: seq<Row>)
    decreases |s|
  {
    if sub == [] then true
    else if s == [] then false
    else if sub[0] == s[0] then IsSubsequence(sub[1..], s[1..])
    else IsSubsequence(sub, s[1..])
  }

  /** A row is shown exactly when it is one of the rows and passes all four tests. */
  lemma {:induction false} FilterRowsMembers(rows: seq<Row>, view: View)
    ensures forall r :: r in FilterRows(rows, view) <==> r in rows && Keep(r, view)
    decreases |rows|
  {
    if rows != [] {
      FilterRowsMembers(rows[1..], view);
      assert forall r :: r in rows <==> r == rows[0] || r in rows[1..];
    }
  }

  /** The rows shown keep the order they have in the list. */
  lemma {:induction false} FilterRowsInOrder(rows: seq<Row>, view: View)
    ensures IsSubsequence(FilterRows(rows, view), rows)
    decreases |rows|
  {
    if rows != [] {
      var rest := FilterRows(rows[1..], view);
      FilterRowsInOrder(rows[1..], view);
      if Keep(rows[0], view) {
        assert FilterRows(rows, view) == [rows[0]] + rest;
        assert ([rows[0]] + rest)[1..] == rest;
      } else {
        assert FilterRows(rows, view) == rest;
        if rest != [] {
          FilterRowsMembers(rows[1..], view);
          assert rest[0] in rest;
          assert rest[0] != rows[0];
        }
      }
    }
  }

  /** Filtering a list is filtering its two halves. */
  lemma {:induction false} FilterRowsAppend(a: seq<Row>, b: seq<Row>, view: View)
    ensures FilterRows(a + b, view) == FilterRows(a, view) + FilterRows(b, view)
    decreases |a|
  {
    if a == [] {
      assert a + b == b;
    } else {
      assert (a + b)[0] == a[0] && (a + b)[1..] == a[1..] + b;
      FilterRowsAppend(a[1..], b, view);
    }
  }

  /** With every direction, every protocol and no search, exactly the rows of the selected
      engine and the rows without an engine are shown. */
  lemma FilterRowsByEngine(rows: seq<Row>, view: View)
    requires view.direction == "all" && view.protocol == "all" && view.search == []
    ensures forall r :: r in FilterRows(rows, view) <==> r in rows && (r.engineId == [] || r.engineId == view.engineId)
  {
    FilterRowsMembers(rows, view);
  }

  lemma {:induction false} LowerTwice(s: string)
    ensures Lower(Lower(s)) == Lower(s)
    decreases |s|
  {
    if s != [] {
      LowerTwice(s[1..]);
      assert Lower(s)[1..] == Lower(s[1..]);
    }
  }

  /** The search ignores the case of the query. */
  lemma SearchIgnoresCase(row: Row, view: View)
    ensures PassSearch(row, view.(search := Lower(view.search))) == PassSearch(row, view)
  {
    LowerTwice(view.search);
  }

  lemma {:induction false} LowerAppend(a: string, b: string)
    ensures Lower(a + b) == Lower(a) + Lower(b)
    decreases |a|
  {
    if a == [] {
      assert a + b == b;
    } else {
      assert (a + b)[1..] == a[1..] + b;
      LowerAppend(a[1..], b);
    }
  }

  lemma FoundAtStart(name: string, rest: string, query: string)
    requires Lower(query) == Lower(name)
    ensures Contains(Lower(name + rest), Lower(query))
  {
    LowerAppend(name, rest);
    var t := Lower(name + rest);
    var q := Lower(query);
    assert t[..|q|] == q;
    assert OccursAt(t, q, 0);
  }

  /** A row is found by its own name, whatever the case of the query. */
  lemma SearchFindsName(row: Row, view: View)
    requires view.search != [] && Lower(view.search) == Lower(row.name)
    ensures PassSearch(row, view)
  {
    FoundAtStart(row.name, SearchTail(row), view.search);
  }

  // ---------------------------------------------------------------------------------------
  // getProtocolOptions

  /** An engine's protocol catalog, by protocol id. */
  datatype Catalog = Catalog(inbounds: seq<string>, outbounds: seq<string>)

  /** `getProtocolOptions(engine, direction)` */
  function GetProtocolOptions(catalog: Catalog, direction: string): seq<string> {
    if direction == "inbound" then catalog.inbounds
    else if direction == "outbound" then catalog.outbounds
    else catalog.inbounds + catalog.outbounds
  }

  /** Inbound protocols are offered for every direction but `outbound`, outbound protocols for
      every direction but `inbound`; a direction that is neither lists the inbounds first. */
  lemma ProtocolOptionsOffered(catalog: Catalog, direction: string, id: string)
    ensures id in GetProtocolOptions(catalog, direction)
      <==> (direction != "outbound" && id in catalog.inbounds) || (direction != "inbound" && id in catalog.outbounds)
    ensures direction != "inbound" && direction != "outbound" ==>
      GetProtocolOptions(catalog, direction)[..|catalog.inbounds|] == catalog.inbounds
  {
  }

  // ---------------------------------------------------------------------------------------
  // The row collection

  /** `rows.findIndex((item) => item.id === id)`, None for -1. */
  function FindIndex(rows: seq<Row>, id: string): (r: Option<nat>)
    ensures r.Some? ==> r.value < |rows| && rows[r.value].id == id
    ensures r.Some? ==> forall j :: 0 <= j < r.value ==> rows[j].id != id
    ensures r.None? ==> forall j :: 0 <= j < |rows| ==> rows[j].id != id
    decreases |rows|
  {
    if rows == [] then None
    else if rows[0].id == id then Some(0)
    else match FindIndex(rows[1..], id)
      case None => None
      case Some(i) => Some(i + 1)
  }

  /** `rows.filter((row) => row.id !== id)` */
  function WithoutId(rows: seq<Row>, id: string): seq<Row>
    decreases |rows|
  {
    if rows == [] then [] else (if rows[0].id != id then [rows[0]] else []) + WithoutId(rows[1..], id)
  }

  /** Exactly the rows with the id are gone. */
  lemma {:induction false} WithoutIdMembers(rows: seq<Row>, id: string)
    ensures forall r :: r in WithoutId(rows, id) <==> r in rows && r.id != id
    decreases |rows|
  {
    if rows != [] {
      WithoutIdMembers(rows[1..], id);
      assert forall r :: r in rows <==> r == rows[0] || r in rows[1..];
    }
  }

  /** The rows left keep their order: deleting from a list is deleting from its two halves. */
  lemma {:induction false} WithoutIdAppend(a: seq<Row>, b: seq<Row>, id: string)
    ensures WithoutId(a + b, id) == WithoutId(a, id) + WithoutId(b, id)
    decreases |a|
  {
    if a == [] {
      assert a + b == b;
    } else {
      assert (a + b)[0] == a[0] && (a + b)[1..] == a[1..] + b;
      WithoutIdAppend(a[1..], b, id);
    }
  }

  /** The rows after saving `payload`: the row with its id replaced where it stands, or the
      payload put in front. */
  function Upserted(rows: seq<Row>, payload: Row): seq<Row> {
    match FindIndex(rows, payload.id)
    case Some(i) => rows[i := payload]
    case None => [payload] + rows
  }

  /** Saving a payload whose id is taken replaces the first row with that id and keeps the
      length; otherwise the payload comes first and the list grows by one. */
  lemma UpsertedShape(rows: seq<Row>, payload: Row)
    ensures var r := Upserted(rows, payload);
      && ((exists j :: 0 <= j < |rows| && rows[j].id == payload.id) ==>
            |r| == |rows| && payload in r
            && exists i :: 0 <= i < |rows| && r[i] == payload && rows[i].id == payload.id
                 && (forall j :: 0 <= j < i ==> rows[j].id != payload.id)
                 && (forall j :: 0 <= j < |rows| && j != i ==> r[j] == rows[j]))
      && ((forall j :: 0 <= j < |rows| ==> rows[j].id != payload.id) ==> r == [payload] + rows)
  {
    var r := Upserted(rows, payload);
    match FindIndex(rows, payload.id)
    case Some(i) =>
      assert r[i] == payload;
    case None =>
  }

  /** Every id is held by one row at most. */
  predicate UniqueIds(rows: seq<Row>) {
    forall i, j :: 0 <= i < j < |rows| ==> rows[i].id != rows[j].id
  }

  /** Saving keeps ids unique. */
  lemma UpsertedKeepsIdsUnique(rows: seq<Row>, payload: Row)
    requires UniqueIds(rows)
    ensures UniqueIds(Upserted(rows, payload))
  {
    var r := Upserted(rows, payload);
    match FindIndex(rows, payload.id)
    case Some(k) =>
      forall i, j | 0 <= i < j < |r|
        ensures r[i].id != r[j].id
      {
        if i == k { assert rows[k].id == payload.id && r[j] == rows[j]; }
        else if j == k { assert rows[k].id == payload.id && r[i] == rows[i]; }
      }
    case None =>
      forall i, j | 0 <= i < j < |r|
        ensures r[i].id != r[j].id
      {
        if i == 0 { assert r[j] == rows[j - 1]; }
        else { assert r[i] == rows[i - 1] && r[j] == rows[j - 1]; }
      }
  }

  /** Deleting keeps ids unique. */
  lemma {:induction false} WithoutIdKeepsIdsUnique(rows: seq<Row>, id: string)
    requires UniqueIds(rows)
    ensures UniqueIds(WithoutId(rows, id))
    decreases |rows|
  {
    if rows != [] {
      var rest := WithoutId(rows[1..], id);
      assert UniqueIds(rows[1..]) by {
        forall i, j | 0 <= i < j < |rows[1..]|
          ensures rows[1..][i].id != rows[1..][j].id
        {
          assert rows[1..][i] == rows[i + 1] && rows[1..][j] == rows[j + 1];
        }
      }
      WithoutIdKeepsIdsUnique(rows[1..], id);
      if rows[0].id != id {
        WithoutIdMembers(rows[1..], id);
        var r := [rows[0]] + rest;
        forall i, j | 0 <= i < j < |r|
          ensures r[i].id != r[j].id
        {
          if i == 0 {
            assert r[j] == rest[j - 1] && r[j] in rows[1..];
            var k :| 0 <= k < |rows[1..]| && rows[1..][k] == r[j];
            assert rows[k + 1] == r[j];
          } else {
            assert r[i] == rest[i - 1] && r[j] == rest[j - 1];
          }
        }
      }
    }
  }

  /** The list of rows the editor shows and changes: `state.rows`. */
  class RowStore {
    var rows: seq<Row>

    constructor (initial: seq<Row>)
      ensures rows == initial
    {
      rows := initial;
    }

    /** The delete button: every row with the id is removed. */
    method Delete(id: string)
      modifies this
      ensures rows == WithoutId(old(rows), id)
    {
      rows := WithoutId(rows, id);
    }

    /** The end of the save handler: `state.rows[existingIndex] = payload`, or
        `state.rows.unshift(payload)`. */
    method Save(payload: Row)
      modifies this
      ensures rows == Upserted(old(rows), payload)
    {
      var existingIndex := FindIndex(rows, payload.id);
      if existingIndex.Some? {
        rows := rows[existingIndex.value := payload];
      } else {
        rows := [payload] + rows;
      }
    }

    /** The submit handler from the folding of the form on: a form whose folding throws
        leaves the list as it is; otherwise the folded payload is saved. */
    method Submit(base: Row, entries: seq<(string, string)>) returns (saved: bool)
      modifies this
      ensures saved <==> FoldForm(base, entries).Return?
      ensures saved ==> rows == Upserted(old(rows), FoldForm(base, entries).value)
      ensures !saved ==> rows == old(rows)
    {
      var folded := FoldBuckets(base, entries);
      if folded.Throw? {
        return false;
      }
      Save(folded.value);
      return true;
    }
  }

  // ---------------------------------------------------------------------------------------
  // Folding the form's cfg__ entries into the payload's buckets

  /** The four buckets of a row a form field can name. */
  datatype BucketName = MainConfig | OptionalConfig | TransportMain | TransportOptional

  /** The property name of a bucket. */
  function BucketText(b: BucketName): string {
    match b
    case MainConfig => "mainConfig"
    case OptionalConfig => "optionalConfig"
    case TransportMain => "transportMain"
    case TransportOptional => "transportOptional"
  }

  /** The bucket a property name of the payload denotes, if any. */
  function BucketNamed(name: string): Option<BucketName> {
    if name == "mainConfig" then Some(MainConfig)
    else if name == "optionalConfig" then Some(OptionalConfig)
    else if name == "transportMain" then Some(TransportMain)
    else if name == "transportOptional" then Some(TransportOptional)
    else None
  }

  function BucketOf(q: Row, b: BucketName): Bucket {
    match b
    case MainConfig => q.mainConfig
    case OptionalConfig => q.optionalConfig
    case TransportMain => q.transportMain
    case TransportOptional => q.transportOptional
  }

  function WithBucket(q: Row, b: BucketName, m: Bucket): Row {
    match b
    case MainConfig => q.(mainConfig := m)
    case OptionalConfig => q.(optionalConfig := m)
    case TransportMain => q.(transportMain := m)
    case TransportOptional => q.(transportOptional := m)
  }

  /** `payload[bucket][fieldKey] = value`: one of the four buckets gets the field; any other
      property of the payload is a string or undefined, and the assignment throws. */
  function SetBucketField(q: Row, name: string, key: string, value: string): Outcome<Row> {
    match BucketNamed(name)
    case None => Throw
    case Some(b) => Return(WithBucket(q, b, BucketOf(q, b)[key := Str(value)]))
  }

  /** The bucket and field an entry name addresses: a name starting with `cfg__`, split at
      `__`, whose second and third parts are both non-empty. */
  function CfgTarget(key: string): Option<(string, string)> {
    if !StartsWith(key, "cfg__") then None
    else
      var parts := Split(key, "__");
      var bucket, fieldKey := Part(parts, 1), Part(parts, 2);
      if bucket.None? || bucket.value == [] || fieldKey.None? || fieldKey.value == [] then None
      else Some((bucket.value, fieldKey.value))
  }

  /** One pass of the loop over `fd.entries()`. */
  function FormEntry(q: Row, entry: (string, string)): Outcome<Row> {
    var (key, value) := entry;
    match CfgTarget(key)
    case None => Return(q)
    case Some((bucket, fieldKey)) => if Trim(value) == [] then Return(q) else SetBucketField(q, bucket, fieldKey, value)
  }

  /** The whole loop, as a value: the entries folded in order; a throw ends it. */
  function FoldForm(payload: Row, entries: seq<(string, string)>): Outcome<Row>
    decreases |entries|
  {
    if entries == [] then Return(payload)
    else
      match FoldForm(payload, entries[..|entries| - 1])
      case Throw => Throw
      case Return(q) => FormEntry(q, entries[|entries| - 1])
  }

  lemma {:induction false} FoldFormThrows(payload: Row, entries: seq<(string, string)>, i: nat)
    requires i <= |entries| && FoldForm(payload, entries[..i]) == Throw
    ensures FoldForm(payload, entries) == Throw
    decreases |entries| - i
  {
    if i < |entries| {
      assert entries[..i + 1][..i] == entries[..i];
      FoldFormThrows(payload, entries, i + 1);
    } else {
      assert entries[..i] == entries;
    }
  }

  /** The loop of the save handler over the form's entries. */
  method FoldBuckets(payload: Row, entries: seq<(string, string)>) returns (r: Outcome<Row>)
    ensures r == FoldForm(payload, entries)
  {
    var q := payload;
    for i := 0 to |entries|
      invariant FoldForm(payload, entries[..i]) == Return(q)
    {
      assert entries[..i + 1][..i] == entries[..i];
      var (key, value) := entries[i];
      var target := CfgTarget(key);
      if target.None? {
        continue;
      }
      if Trim(value) == [] {
        continue;
      }
      var next := SetBucketField(q, target.value.0, target.value.1, value);
      if next.Throw? {
        FoldFormThrows(payload, entries, i + 1);
        return Throw;
      }
      q := next.value;
    }
    assert entries[..|entries|] == entries;
    r := Return(q);
  }

  /** An entry whose name does not start with `cfg__`, or whose value is blank, changes
      nothing. */
  lemma FormEntryIgnored(q: Row, key: string, value: string)
    requires !StartsWith(key, "cfg__") || Trim(value) == []
    ensures FormEntry(q, (key, value)) == Return(q)
  {
  }

  /** Exactly the four property names denote a bucket. */
  lemma BucketNamedNames(name: string, b: BucketName)
    ensures BucketNamed(name) == Some(b) <==> name == BucketText(b)
  {
  }

  /** Two rows agree on everything but the four buckets. */
  predicate SameOutsideBuckets(a: Row, b: Row) {
    a.id == b.id && a.engineId == b.engineId && a.name == b.name && a.direction == b.direction
    && a.protocolId == b.protocolId && a.transportId == b.transportId && a.legacy == b.legacy
  }

  /** Replacing a bucket changes that bucket, no other, and nothing outside the buckets. */
  lemma WithBucketEffect(q: Row, b: BucketName, m: Bucket, other: BucketName)
    ensures SameOutsideBuckets(WithBucket(q, b, m), q)
    ensures BucketOf(WithBucket(q, b, m), other) == if other == b then m else BucketOf(q, other)
  {
  }

  /** Setting a field succeeds exactly on the four bucket names, and then sets that key of
      that bucket, keeps the other keys and buckets, and nothing outside the buckets changes. */
  lemma SetBucketFieldEffect(q: Row, name: string, key: string, value: string, b: BucketName, other: BucketName)
    ensures SetBucketField(q, name, key, value).Return? <==> BucketNamed(name).Some?
    ensures name == BucketText(b) ==>
      var r := SetBucketField(q, name, key, value).value;
      && SameOutsideBuckets(r, q)
      && BucketOf(r, other) == if other == b then BucketOf(q, b)[key := Str(value)] else BucketOf(q, other)
  {
    if name == BucketText(b) {
      BucketNamedNames(name, b);
      WithBucketEffect(q, b, BucketOf(q, b)[key := Str(value)], other);
    }
  }

  lemma FormEntryOnlyBuckets(q: Row, entry: (string, string))
    ensures FormEntry(q, entry).Return? ==> SameOutsideBuckets(FormEntry(q, entry).value, q)
  {
    match CfgTarget(entry.0)
    case None =>
    case Some((bucket, fieldKey)) =>
      if BucketNamed(bucket).Some? {
        WithBucketEffect(q, BucketNamed(bucket).value, BucketOf(q, BucketNamed(bucket).value)[fieldKey := Str(entry.1)], MainConfig);
      }
  }

  /** Folding changes nothing but the four buckets. */
  lemma {:induction false} FoldFormOnlyBuckets(payload: Row, entries: seq<(string, string)>)
    ensures FoldForm(payload, entries).Return? ==> SameOutsideBuckets(FoldForm(payload, entries).value, payload)
    decreases |entries|
  {
    if entries != [] {
      var init := entries[..|entries| - 1];
      FoldFormOnlyBuckets(payload, init);
      match FoldForm(payload, init)
      case Throw =>
      case Return(q) => FormEntryOnlyBuckets(q, entries[|entries| - 1]);
    }
  }

  /** A form without `cfg__` entries leaves the payload as it is. */
  lemma {:induction false} FoldFormNoCfg(payload: Row, entries: seq<(string, string)>)
    requires forall i :: 0 <= i < |entries| ==> !StartsWith(entries[i].0, "cfg__")
    ensures FoldForm(payload, entries) == Return(payload)
    decreases |entries|
  {
    if entries != [] {
      FoldFormNoCfg(payload, entries[..|entries| - 1]);
    }
  }

  /** Splitting at the first `__` when the text before it has no underscore. */
  lemma SplitAtUnderscores(a: string, b: string)
    requires '_' !in a
    ensures Split(a + "__" + b, "__") == [a] + Split(b, "__")
  {
    var s := a + "__" + b;
    assert OccursAt(s, "__", |a|) by { assert s[|a|..|a| + 2] == "__"; }
    forall j | 0 <= j < |a|
      ensures !OccursAt(s, "__", j)
    {
      assert s[j] == a[j];
      assert j + 2 <= |s| ==> s[j..j + 2][0] == s[j];
    }
    SplitAt(s, "__", |a|);
    assert s[..|a|] == a && s[|a| + 2..] == b;
  }

  lemma SplitNoUnderscore(k: string)
    requires '_' !in k
    ensures Split(k, "__") == [k]
  {
    forall j | 0 <= j <= |k|
      ensures !OccursAt(k, "__", j)
    {
      if j + 2 <= |k| {
        assert k[j..j + 2][0] == k[j];
      }
    }
  }

  lemma CfgSplit(bucket: string, key: string)
    requires '_' !in bucket && '_' !in key
    ensures Split("cfg__" + bucket + "__" + key, "__") == ["cfg", bucket, key]
  {
    var rest := bucket + "__" + key;
    assert "cfg__" + bucket + "__" + key == "cfg" + "__" + rest;
    SplitAtUnderscores("cfg", rest);
    SplitAtUnderscores(bucket, key);
    SplitNoUnderscore(key);
  }

  lemma CfgPrefix(bucket: string, key: string)
    ensures StartsWith("cfg__" + bucket + "__" + key, "cfg__")
  {
    var name := "cfg__" + bucket + "__" + key;
    assert name[..5] == "cfg__";
  }

  /** `'cfg__' + bucket + '__' + key` addresses that bucket and key when neither holds an
      underscore and both are non-empty. */
  lemma CfgTargetOf(bucket: string, key: string)
    requires bucket != [] && '_' !in bucket && key != [] && '_' !in key
    ensures CfgTarget("cfg__" + bucket + "__" + key) == Some((bucket, key))
  {
    CfgPrefix(bucket, key);
    CfgSplit(bucket, key);
  }

  /** A non-blank `cfg__<bucket>__<key>` entry, with neither part holding an underscore, sets
      that key of that bucket to the value: it lands in one of the four buckets, and throws for
      any other name. */
  lemma FormEntryLands(q: Row, bucket: string, key: string, value: string)
    requires bucket != [] && '_' !in bucket && key != [] && '_' !in key && Trim(value) != []
    ensures FormEntry(q, ("cfg__" + bucket + "__" + key, value)) == SetBucketField(q, bucket, key, value)
  {
    CfgTargetOf(bucket, key);
  }
}
