/** The layered input resolver of src/core/parser.js: `parseMixedInput` (scan a text for share
    links and `[Interface]` blocks, parse each, drop duplicates), the `dedupeRows` it ends with,
    and the two entry points built on it, `parseFlexibleInput` and `parseSubscriptionPayload`.
    The k-th row the scan builds (before duplicates are dropped) gets the id `ids(k)`; the source
    draws a random one for it. */
module Resolver {
  import opened Outcomes
  import opened JsString
  import opened JsValue
  import opened Base64
  import opened Rows
  import opened Codec
  import opened Schemes

  // ---------------------------------------------------------------------------------------
  // The share-link scanner: /[a-zA-Z][a-zA-Z0-9+.-]*:\/\/[^\s"'<>]+/g

  predicate IsSchemeTail(c: char) {
    IsAsciiAlpha(c) || IsAsciiDigit(c) || c == '+' || c == '.' || c == '-'
  }

  predicate NotSchemeTail(c: char) { !IsSchemeTail(c) }

  /** A character the link body may hold: anything but white space, quotes and angle brackets. */
  predicate IsLinkChar(c: char) {
    !IsSpace(c) && c != '"' && c != '\'' && c != '<' && c != '>'
  }

  predicate NotLinkChar(c: char) { !IsLinkChar(c) }

  /** The end of the link that starts at `p`, if one does: a letter, the longest run of scheme
      characters, `://` and the longest non-empty run of link characters. Since `:` is not a
      scheme character, the regular expression can match at `p` only this way. */
  function LinkAt(s: string, p: nat): (r: Option<nat>)
    requires p <= |s|
    ensures r.Some? ==> p + 5 <= r.value <= |s|
  {
    if p == |s| || !IsAsciiAlpha(s[p]) then None
    else
      var e := p + 1 + FindFirst(s[p + 1..], NotSchemeTail);
      if OccursAt(s, "://", e) && e + 3 < |s| && IsLinkChar(s[e + 3]) then
        Some(e + 3 + FindFirst(s[e + 3..], NotLinkChar))
      else None
  }

  /** `text.match(...)` from position `p`: the leftmost link, then the search goes on after it. */
  function Links(s: string, p: nat): (r: seq<string>)
    requires p <= |s|
    ensures forall k :: 0 <= k < |r| ==> |r[k]| >= 5 && IsAsciiAlpha(r[k][0])
    decreases |s| - p
  {
    if p == |s| then []
    else match LinkAt(s, p)
      case Some(end) => [s[p..end]] + Links(s, end)
      case None => Links(s, p + 1)
  }

  /** A text without a colon holds no share link. */
  lemma {:induction false} LinksNeedColon(s: string, p: nat)
    requires p <= |s| && ':' !in s
    ensures Links(s, p) == []
    decreases |s| - p
  {
    if p < |s| {
      OccursAtStart(s, "://", p + 1 + FindFirst(s[p + 1..], NotSchemeTail));
      LinksNeedColon(s, p + 1);
    }
  }

  lemma OccursAtStart(s: string, sub: string, i: nat)
    requires sub != []
    ensures OccursAt(s, sub, i) ==> s[i] == sub[0]
  {
    if OccursAt(s, sub, i) {
      assert s[i] == s[i..i + |sub|][0];
    }
  }

  lemma OneLinkAt(scheme: string, rest: string)
    requires scheme != [] && IsAsciiAlpha(scheme[0]) && forall i :: 0 <= i < |scheme| ==> IsSchemeTail(scheme[i])
    requires rest != [] && forall i :: 0 <= i < |rest| ==> IsLinkChar(rest[i])
    ensures LinkAt(scheme + "://" + rest, 0) == Some(|scheme + "://" + rest|)
  {
    var s := scheme + "://" + rest;
    var e := |scheme|;
    var tail := s[1..];
    forall j | 0 <= j < e - 1 ensures !NotSchemeTail(tail[j]) {
      assert tail[j] == scheme[j + 1];
    }
    assert tail[e - 1] == ':';
    FindFirstAt(tail, NotSchemeTail, e - 1);
    assert s[e..e + 3] == "://";
    var body := s[e + 3..];
    assert body == rest;
    FindFirstAt(body, NotLinkChar, |rest|);
    assert IsLinkChar(s[e + 3]) by { assert s[e + 3] == rest[0]; }
  }

  /** A text that is one share link, `scheme://rest` with nothing around it, is found whole. */
  lemma OneLink(scheme: string, rest: string)
    requires scheme != [] && IsAsciiAlpha(scheme[0]) && forall i :: 0 <= i < |scheme| ==> IsSchemeTail(scheme[i])
    requires rest != [] && forall i :: 0 <= i < |rest| ==> IsLinkChar(rest[i])
    ensures Links(scheme + "://" + rest, 0) == [scheme + "://" + rest]
  {
    var s := scheme + "://" + rest;
    OneLinkAt(scheme, rest);
    assert Links(s, |s|) == [];
    assert s[0..|s|] == s;
  }

  // ---------------------------------------------------------------------------------------
  // The WireGuard block scanner: /\[Interface\][\s\S]*?(?=\n\s*\[Interface\]|$)/g

  predicate NotSpace(c: char) { !IsSpace(c) }

  /** The lookahead `\n\s*\[Interface\]` holds at `q`. */
  predicate NextInterfaceAt(s: string, q: nat)
    requires q <= |s|
  {
    q < |s| && s[q] == '\n' && OccursAt(s, "[Interface]", q + 1 + FindFirst(s[q + 1..], NotSpace))
  }

  /** The lazy `[\s\S]*?` stops at the first position where the lookahead holds, or at the end. */
  function BlockEnd(s: string, q: nat): (r: nat)
    requires q <= |s|
    ensures q <= r <= |s|
    ensures r == |s| || NextInterfaceAt(s, r)
    ensures forall j :: q <= j < r ==> !NextInterfaceAt(s, j)
    decreases |s| - q
  {
    if q == |s| || NextInterfaceAt(s, q) then q else BlockEnd(s, q + 1)
  }

  /** The `[Interface]` blocks from position `p`, each up to the next header that starts a line
      (after white space) or up to the end. */
  function ConfBlocks(s: string, p: nat): (r: seq<string>)
    requires p <= |s|
    decreases |s| - p
  {
    match IndexFrom(s, "[Interface]", p)
    case None => []
    case Some(start) =>
      var end := BlockEnd(s, start + 11);
      [s[start..end]] + ConfBlocks(s, end)
  }

  /** A text without `[` holds no WireGuard block. */
  lemma ConfBlocksNeedBracket(s: string, p: nat)
    requires p <= |s| && '[' !in s
    ensures ConfBlocks(s, p) == []
  {
    var i := IndexFrom(s, "[Interface]", p);
    OccursAtStart(s, "[Interface]", if i.Some? then i.value else 0);
  }

  // ---------------------------------------------------------------------------------------
  // dedupeRows

  /** `protocolId|server|port|id-or-password-or-secretKey` */
  function RowKey(row: Row): string {
    var m := row.mainConfig;
    var credential := match FirstPresent(m, ["id", "password", "secretKey"]) case Some(v) => ToStr(v) case None => "";
    row.protocolId + "|" + Text(m, "server") + "|" + Text(m, "port") + "|" + credential
  }

  // The deduplication below is stated for any key function; `dedupeRows` uses `RowKey`.

  function KeysOf<T>(xs: seq<T>, key: T -> string): set<string> {
    set i | 0 <= i < |xs| :: key(xs[i])
  }

  predicate UniqueKeys<T>(xs: seq<T>, key: T -> string) {
    forall i, j :: 0 <= i < j < |xs| ==> key(xs[i]) != key(xs[j])
  }

  /** What `dedupeRows` returns for `rows` (with `key` = `RowKey`): each element in turn is kept
      unless a kept element already has its key. */
  function Dedupe<T>(xs: seq<T>, key: T -> string): seq<T>
  {
    if xs == [] then []
    else
      var kept := Dedupe(xs[..|xs| - 1], key);
      if key(xs[|xs| - 1]) in KeysOf(kept, key) then kept else kept + [xs[|xs| - 1]]
  }

  method DedupeRows(rows: seq<Row>) returns (out: seq<Row>)
    ensures out == Dedupe(rows, RowKey)
  {
    var seen: set<string> := {};
    out := [];
    for i := 0 to |rows|
      invariant out == Dedupe(rows[..i], RowKey)
      invariant seen == KeysOf(out, RowKey)
    {
      assert rows[..i + 1][..i] == rows[..i];
      var key := RowKey(rows[i]);
      if key !in seen {
        KeysOfAppend(out, rows[i], RowKey);
        seen := seen + {key};
        out := out + [rows[i]];
      }
    }
    assert rows[..|rows|] == rows;
  }

  /** Element `i` is the first of its key. */
  predicate IsFirst<T>(xs: seq<T>, i: nat, key: T -> string)
    requires i < |xs|
  {
    forall j :: 0 <= j < i ==> key(xs[j]) != key(xs[i])
  }

  /** The elements among the first `n` that are the first of their key, in order. */
  function FirstOfEachKey<T>(xs: seq<T>, n: nat, key: T -> string): seq<T>
    requires n <= |xs|
  {
    if n == 0 then []
    else if IsFirst(xs, n - 1, key) then FirstOfEachKey(xs, n - 1, key) + [xs[n - 1]]
    else FirstOfEachKey(xs, n - 1, key)
  }

  /** The kept elements carry the same keys as the elements seen so far. */
  lemma {:induction false} DedupeKeys<T>(xs: seq<T>, key: T -> string)
    ensures KeysOf(Dedupe(xs, key), key) == KeysOf(xs, key)
  {
    if xs != [] {
      var prefix := xs[..|xs| - 1];
      DedupeKeys(prefix, key);
      var kept := Dedupe(prefix, key);
      var last := xs[|xs| - 1];
      assert xs == prefix + [last];
      KeysOfAppend(prefix, last, key);
      if key(last) !in KeysOf(kept, key) {
        KeysOfAppend(kept, last, key);
      }
    }
  }

  lemma KeysOfAppend<T>(xs: seq<T>, x: T, key: T -> string)
    ensures KeysOf(xs + [x], key) == KeysOf(xs, key) + {key(x)}
  {
    var all := xs + [x];
    forall k | k in KeysOf(all, key) ensures k in KeysOf(xs, key) + {key(x)} {
      var i :| 0 <= i < |all| && key(all[i]) == k;
      if i < |xs| {
        assert all[i] == xs[i];
      }
    }
    forall k | k in KeysOf(xs, key) ensures k in KeysOf(all, key) {
      var i :| 0 <= i < |xs| && key(xs[i]) == k;
      assert all[i] == xs[i];
    }
    assert key(all[|xs|]) in KeysOf(all, key);
  }

  /** `dedupeRows` keeps exactly the first row of each key, in input order. */
  lemma {:induction false} DedupeKeepsFirst<T>(xs: seq<T>, n: nat, key: T -> string)
    requires n <= |xs|
    ensures Dedupe(xs[..n], key) == FirstOfEachKey(xs, n, key)
  {
    if n > 0 {
      DedupeKeepsFirst(xs, n - 1, key);
      DedupeKeys(xs[..n - 1], key);
      DedupeStep(xs, n, key);
      FirstIffNewKey(xs, n - 1, key);
    }
  }

  /** One more element: kept exactly when no kept element has its key. */
  lemma DedupeStep<T>(xs: seq<T>, n: nat, key: T -> string)
    requires 0 < n <= |xs|
    ensures var kept := Dedupe(xs[..n - 1], key);
      Dedupe(xs[..n], key) == if key(xs[n - 1]) in KeysOf(kept, key) then kept else kept + [xs[n - 1]]
  {
    assert xs[..n][..n - 1] == xs[..n - 1];
  }

  /** An element is the first of its key exactly when no earlier element has that key. */
  lemma FirstIffNewKey<T>(xs: seq<T>, i: nat, key: T -> string)
    requires i < |xs|
    ensures IsFirst(xs, i, key) <==> key(xs[i]) !in KeysOf(xs[..i], key)
  {
    var prefix := xs[..i];
    if !IsFirst(xs, i, key) {
      var j :| 0 <= j < i && key(xs[j]) == key(xs[i]);
      assert key(prefix[j]) == key(xs[i]);
    }
  }

  /** No two rows `dedupeRows` returns share a key. */
  lemma {:induction false} DedupeUnique<T>(xs: seq<T>, key: T -> string)
    ensures UniqueKeys(Dedupe(xs, key), key)
  {
    if xs != [] {
      var prefix := xs[..|xs| - 1];
      DedupeUnique(prefix, key);
    }
  }

  /** Every input key survives: some returned row carries it. */
  lemma DedupeKeepsEveryKey<T>(xs: seq<T>, key: T -> string)
    ensures forall i :: 0 <= i < |xs| ==> exists j :: 0 <= j < |Dedupe(xs, key)| && key(Dedupe(xs, key)[j]) == key(xs[i])
  {
    DedupeKeys(xs, key);
    forall i | 0 <= i < |xs| ensures key(xs[i]) in KeysOf(Dedupe(xs, key), key) {
      assert key(xs[i]) in KeysOf(xs, key);
    }
  }

  /** Rows whose keys are already distinct come back unchanged; so applying `dedupeRows` twice
      is applying it once. */
  lemma {:induction false} DedupeUniqueIdentity<T>(xs: seq<T>, key: T -> string)
    requires UniqueKeys(xs, key)
    ensures Dedupe(xs, key) == xs
  {
    if xs != [] {
      var prefix := xs[..|xs| - 1];
      var last := xs[|xs| - 1];
      forall i, j | 0 <= i < j < |prefix| ensures key(prefix[i]) != key(prefix[j]) {
        assert prefix[i] == xs[i] && prefix[j] == xs[j];
      }
      DedupeUniqueIdentity(prefix, key);
      forall i | 0 <= i < |prefix| ensures key(prefix[i]) != key(last) {
        assert prefix[i] == xs[i];
      }
      assert key(last) !in KeysOf(prefix, key);
      assert prefix + [last] == xs;
    }
  }

  lemma DedupeIdempotent<T>(xs: seq<T>, key: T -> string)
    ensures Dedupe(Dedupe(xs, key), key) == Dedupe(xs, key)
  {
    DedupeUnique(xs, key);
    DedupeUniqueIdentity(Dedupe(xs, key), key);
  }

  // ---------------------------------------------------------------------------------------
  // parseMixedInput

  /** The row of each link in turn, appended to `rows`; a Throw out of `parseUri` ends the scan. */
  function LinkRows(links: seq<string>, ids: nat -> string, rows: seq<Row>): Outcome<seq<Row>>
    decreases |links|
  {
    if links == [] then Return(rows)
    else match ParseUri(ids(|rows|), Trim(links[0]))
      case Throw => Throw
      case Return(None) => LinkRows(links[1..], ids, rows)
      case Return(Some(row)) => LinkRows(links[1..], ids, rows + [row])
  }

  /** The row of each WireGuard block in turn, appended to `rows`. */
  function ConfRows(blocks: seq<string>, ids: nat -> string, rows: seq<Row>): seq<Row>
    decreases |blocks|
  {
    if blocks == [] then rows
    else match ParseWireguardConf(ids(|rows|), blocks[0])
      case None => ConfRows(blocks[1..], ids, rows)
      case Some(row) => ConfRows(blocks[1..], ids, rows + [row])
  }

  /** What `parseMixedInput(text)` returns: the link rows, then the block rows, deduplicated. */
  function MixedInput(text: string, ids: nat -> string): (r: Outcome<seq<Row>>)
    ensures r.Return? ==> UniqueKeys(r.value, RowKey)
  {
    match LinkRows(Links(text, 0), ids, [])
    case Throw => Throw
    case Return(rows) =>
      var all := ConfRows(ConfBlocks(text, 0), ids, rows);
      DedupeUnique(all, RowKey);
      Return(Dedupe(all, RowKey))
  }

  method ParseMixedInput(text: string, ids: nat -> string) returns (r: Outcome<seq<Row>>)
    ensures r == MixedInput(text, ids)
  {
    var linkRows := CollectLinkRows(Links(text, 0), ids);
    if linkRows.Throw? {
      return Throw;
    }
    var rows := CollectConfRows(ConfBlocks(text, 0), ids, linkRows.value);
    var out := DedupeRows(rows);
    r := Return(out);
  }

  /** The first loop of `parseMixedInput`: the row of each link, in order. */
  method CollectLinkRows(links: seq<string>, ids: nat -> string) returns (r: Outcome<seq<Row>>)
    ensures r == LinkRows(links, ids, [])
  {
    var rows: seq<Row> := [];
    var i := 0;
    while i < |links|
      invariant i <= |links|
      invariant LinkRows(links, ids, []) == LinkRows(links[i..], ids, rows)
    {
      assert links[i..][1..] == links[i + 1..];
      var parsed := ParseUri(ids(|rows|), Trim(links[i]));
      match parsed {
        case Throw => return Throw;
        case Return(None) =>
        case Return(Some(row)) => rows := rows + [row];
      }
      i := i + 1;
    }
    assert links[i..] == [];
    r := Return(rows);
  }

  /** The second loop of `parseMixedInput`: the row of each WireGuard block, after `rows`. */
  method CollectConfRows(blocks: seq<string>, ids: nat -> string, rows: seq<Row>) returns (out: seq<Row>)
    ensures out == ConfRows(blocks, ids, rows)
  {
    out := rows;
    var k := 0;
    while k < |blocks|
      invariant k <= |blocks|
      invariant ConfRows(blocks, ids, rows) == ConfRows(blocks[k..], ids, out)
    {
      assert blocks[k..][1..] == blocks[k + 1..];
      var parsed := ParseWireguardConf(ids(|out|), blocks[k]);
      if parsed.Some? {
        out := out + [parsed.value];
      }
      k := k + 1;
    }
    assert blocks[k..] == [];
  }

  /** A text without `:` and `[` yields no rows. */
  lemma MixedInputPlain(text: string, ids: nat -> string)
    requires ':' !in text && '[' !in text
    ensures MixedInput(text, ids) == Return([])
  {
    LinksNeedColon(text, 0);
    ConfBlocksNeedBracket(text, 0);
  }

  // ---------------------------------------------------------------------------------------
  // parseFlexibleInput and parseSubscriptionPayload

  /** `tryDecodeBase64(line.trim()) || ''` for every line, joined back with line feeds. */
  function LineDecoded(normalized: string): string {
    var lines := SplitLines(normalized);
    Join(seq(|lines|, k requires 0 <= k < |lines| => DecodedOr(Trim(lines[k]), "")), "\n")
  }

  /** `parseFlexibleInput(text)`: the direct pass, then the whole input decoded from Base64, then
      each line decoded from Base64; the first pass that yields rows wins. */
  function ParseFlexibleInput(text: string, ids: nat -> string): (r: Outcome<seq<Row>>)
    ensures r.Return? ==> UniqueKeys(r.value, RowKey)
    ensures MixedInput(text, ids).Return? && MixedInput(text, ids).value != [] ==> r == MixedInput(text, ids)
    ensures MixedInput(text, ids).Throw? ==> r.Throw?
    ensures r.Return? && r.value != [] ==>
      || r == MixedInput(text, ids)
      || r == MixedInput(DecodedOr(Trim(text), ""), ids)
      || r == MixedInput(LineDecoded(Trim(text)), ids)
  {
    match MixedInput(text, ids)
    case Throw => Throw
    case Return(direct) =>
      if direct != [] then Return(direct)
      else
        var normalized := Trim(text);
        var decoded := DecodedOr(normalized, "");
        match (if decoded != [] then MixedInput(decoded, ids) else Return([]))
        case Throw => Throw
        case Return(fromDecoded) =>
          if fromDecoded != [] then Return(fromDecoded)
          else
            var lineDecoded := LineDecoded(normalized);
            if Trim(lineDecoded) != [] then MixedInput(lineDecoded, ids) else Return([])
  }

  /** `parseSubscriptionPayload(text)`: the Base64-decoded text when it holds a `://`, else the
      text itself, through `parseMixedInput`. */
  function ParseSubscriptionPayload(text: string, ids: nat -> string): (r: Outcome<seq<Row>>)
    ensures r.Return? ==> UniqueKeys(r.value, RowKey)
    ensures (TryDecodeBase64(Trim(text)).None? || !Contains(TryDecodeBase64(Trim(text)).value, "://")) ==> r == MixedInput(text, ids)
  {
    var decoded := TryDecodeBase64(Trim(text));
    var source := if decoded.Some? && decoded.value != [] && Contains(decoded.value, "://") then decoded.value else text;
    MixedInput(source, ids)
  }

  /** What `btoa` writes has no white space, no `:` and no `[`. */
  lemma BtoaPlain(p: string)
    requires IsBinary(p)
    ensures Btoa(p).Return?
    ensures var e := Btoa(p).value; Trim(e) == e && ':' !in e && '[' !in e
  {
    var u := EncodeUnpadded(p);
    EncodeUnpaddedShape(p);
    var e := u + Padding(|p|);
    forall i | 0 <= i < |e| ensures IsAlphabet(e[i]) || e[i] == '=' {
      if i < |u| {
        assert e[i] == u[i];
      } else {
        assert e[i] == Padding(|p|)[i - |u|];
      }
    }
    AlphabetNotSpace(e);
    if e != [] {
      assert !IsSpace(e[0]) && !IsSpace(e[|e| - 1]);
    }
  }

  /** A subscription body that is the Base64 encoding of a text with share links is read as
      that text. */
  lemma SubscriptionBase64(plain: string, ids: nat -> string)
    requires IsBinary(plain) && Contains(plain, "://")
    ensures ParseSubscriptionPayload(Btoa(plain).value, ids) == MixedInput(plain, ids)
  {
    BtoaPlain(plain);
    TryDecodeBase64Encoded(plain);
  }

  /** A whole-input Base64 encoding of a text that yields rows yields the same rows: the direct
      pass finds nothing in the encoding, the decoded pass finds the rows. */
  lemma FlexibleBase64(plain: string, ids: nat -> string)
    requires IsBinary(plain) && plain != []
    requires MixedInput(plain, ids).Return? && MixedInput(plain, ids).value != []
    ensures ParseFlexibleInput(Btoa(plain).value, ids) == MixedInput(plain, ids)
  {
    BtoaPlain(plain);
    TryDecodeBase64Encoded(plain);
    MixedInputPlain(Btoa(plain).value, ids);
  }
}
