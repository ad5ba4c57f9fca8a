/** Share links: `toShareUri` turns an outbound vless, trojan or shadowsocks row back into a
    link and `exportRowsToUriText` writes one link per line. Every other row writes nothing.
    The shadowsocks link goes through `btoa`, which throws on a character above U+00FF; nothing
    catches it, so the export throws as a whole. */
module Share {
  import opened Outcomes
  import opened JsString
  import opened JsValue
  import opened Percent
  import opened Base64
  import opened Rows
  import opened Codec
  import opened Schemes
  import Url

  // ---------------------------------------------------------------------------------------
  // toShareUri

  /** `if (bucket?.[key]) query.set(key, bucket[key])` */
  function SetFrom(q: Url.Params, b: Bucket, key: string): (r: Url.Params)
    ensures Present(Field(b, key)) ==> Url.Get(r, key) == Some(ToStr(b[key]))
    ensures !Present(Field(b, key)) ==> r == q
  {
    if Present(Field(b, key)) then Url.Set(q, key, ToStr(b[key])) else q
  }

  /** The query of a vless or trojan link: `type` unless the transport is missing or `raw`,
      then `path`, `security`, `sni` and `fp` where the row has them. */
  function ShareQuery(row: Row): (q: Url.Params)
  {
    var withType :=
      if row.transportId != [] && row.transportId != "raw" then [("type", ReverseTransport(row.transportId))] else [];
    var withPath := SetFrom(withType, row.transportMain, "path");
    var withSecurity := SetFrom(withPath, row.optionalConfig, "security");
    var withSni := SetFrom(withSecurity, row.optionalConfig, "sni");
    SetFrom(withSni, row.optionalConfig, "fp")
  }

  /** What `query.get(key)` returns on the query of a vless or trojan link. */
  function SharedParam(b: Bucket, key: string): Option<string> {
    if Present(Field(b, key)) then Some(ToStr(b[key])) else None
  }

  /** Each parameter of the link is the row's field, and `type` is the transport in link
      spelling. */
  lemma ShareQueryParams(row: Row)
    ensures Url.Get(ShareQuery(row), "type")
      == if row.transportId != [] && row.transportId != "raw" then Some(ReverseTransport(row.transportId)) else None
    ensures Url.Get(ShareQuery(row), "path") == SharedParam(row.transportMain, "path")
    ensures Url.Get(ShareQuery(row), "security") == SharedParam(row.optionalConfig, "security")
    ensures Url.Get(ShareQuery(row), "sni") == SharedParam(row.optionalConfig, "sni")
    ensures Url.Get(ShareQuery(row), "fp") == SharedParam(row.optionalConfig, "fp")
  {
    var withType: Url.Params :=
      if row.transportId != [] && row.transportId != "raw" then [("type", ReverseTransport(row.transportId))] else [];
    var withPath := SetFrom(withType, row.transportMain, "path");
    var withSecurity := SetFrom(withPath, row.optionalConfig, "security");
    var withSni := SetFrom(withSecurity, row.optionalConfig, "sni");
    var q := SetFrom(withSni, row.optionalConfig, "fp");
    SetFromOther(withType, row.transportMain, "path", "type");
    SetFromOther(withPath, row.optionalConfig, "security", "type");
    SetFromOther(withPath, row.optionalConfig, "security", "path");
    SetFromOther(withSecurity, row.optionalConfig, "sni", "type");
    SetFromOther(withSecurity, row.optionalConfig, "sni", "path");
    SetFromOther(withSecurity, row.optionalConfig, "sni", "security");
    SetFromOther(withSni, row.optionalConfig, "fp", "type");
    SetFromOther(withSni, row.optionalConfig, "fp", "path");
    SetFromOther(withSni, row.optionalConfig, "fp", "security");
    SetFromOther(withSni, row.optionalConfig, "fp", "sni");
    assert Url.Get(withType, "path") == None && Url.Get(withType, "security") == None;
    assert Url.Get(withType, "sni") == None && Url.Get(withType, "fp") == None;
    SetFromOther(withType, row.transportMain, "path", "security");
    SetFromOther(withType, row.transportMain, "path", "sni");
    SetFromOther(withType, row.transportMain, "path", "fp");
    SetFromOther(withPath, row.optionalConfig, "security", "sni");
    SetFromOther(withPath, row.optionalConfig, "security", "fp");
    SetFromOther(withSecurity, row.optionalConfig, "sni", "fp");
  }

  lemma SetFromOther(q: Url.Params, b: Bucket, key: string, other: string)
    requires other != key
    ensures Url.Get(SetFrom(q, b, key), other) == Url.Get(q, other)
  {
    if Present(Field(b, key)) {
      Url.GetSetOther(q, key, ToStr(b[key]), other);
    }
  }

  /** The credential of a vless or trojan link: `mainConfig.id || mainConfig.password || ''`. */
  function ShareCredential(m: Bucket): string {
    match FirstPresent(m, ["id", "password"]) case Some(v) => ToStr(v) case None => ""
  }

  /** `${protocolId}://${cred}@${host}:${port}?${query}#${name}` */
  function UrlLikeLink(row: Row): (r: string)
    ensures StartsWith(r, row.protocolId + "://")
  {
    var scheme := row.protocolId + "://";
    var rest := EncodeURIComponent(ShareCredential(row.mainConfig))
      + "@" + Text(row.mainConfig, "server") + ":" + Text(row.mainConfig, "port")
      + "?" + Url.Serialize(ShareQuery(row)) + "#" + EncodeURIComponent(OrStr(row.name, row.protocolId));
    assert (scheme + rest)[..|scheme|] == scheme;
    scheme + rest
  }

  /** `${method || ''}:${password || ''}`, the text a shadowsocks link encodes. */
  function SsUserText(m: Bucket): string {
    Text(m, "method") + ":" + Text(m, "password")
  }

  /** `ss://${btoa(user)}@${host}:${port}#${name}` */
  function SsLink(row: Row): (r: Outcome<string>)
    ensures r.Throw? <==> !IsBinary(SsUserText(row.mainConfig))
    ensures r.Return? ==> StartsWith(r.value, "ss://")
  {
    match Btoa(SsUserText(row.mainConfig))
    case Throw => Throw
    case Return(encoded) =>
      var link := "ss://" + (encoded + "@" + Text(row.mainConfig, "server") + ":" + Text(row.mainConfig, "port"))
        + "#" + EncodeURIComponent(OrStr(row.name, "ss"));
      assert link[..5] == "ss://";
      Return(link)
  }

  predicate Shareable(row: Row) {
    row.direction == "outbound" && row.protocolId in {"vless", "trojan", "shadowsocks"}
  }

  /** `toShareUri(row)`: a link for an outbound vless, trojan or shadowsocks row, `''` for any
      other row, and a throw where `btoa` refuses the shadowsocks user text. */
  function ShareUri(row: Row): (r: Outcome<string>)
    ensures r.Throw? <==> Shareable(row) && row.protocolId == "shadowsocks" && !IsBinary(SsUserText(row.mainConfig))
    ensures !Shareable(row) ==> r == Return("")
    ensures r.Return? && Shareable(row) ==> r.value != []
    ensures r.Return? && Shareable(row) && row.protocolId != "shadowsocks" ==> StartsWith(r.value, row.protocolId + "://")
    ensures r.Return? && Shareable(row) && row.protocolId == "shadowsocks" ==> StartsWith(r.value, "ss://")
  {
    if row.direction != "outbound" then Return("")
    else if row.protocolId == "vless" || row.protocolId == "trojan" then Return(UrlLikeLink(row))
    else if row.protocolId == "shadowsocks" then SsLink(row)
    else Return("")
  }

  // ---------------------------------------------------------------------------------------
  // exportRowsToUriText

  /** `rows.map(toShareUri)`, stopping at the first throw. */
  function ShareAll(rows: seq<Row>): (r: Outcome<seq<string>>)
    ensures r.Return? ==> |r.value| == |rows|
  {
    if rows == [] then Return([])
    else match ShareUri(rows[0])
      case Throw => Throw
      case Return(link) =>
        match ShareAll(rows[1..])
        case Throw => Throw
        case Return(links) => Return([link] + links)
  }

  /** `.filter(Boolean)` on strings. */
  function NonEmpty(links: seq<string>): (r: seq<string>)
    ensures |r| <= |links|
    ensures forall i :: 0 <= i < |r| ==> r[i] != [] && r[i] in links
  {
    if links == [] then []
    else (if links[0] == [] then [] else [links[0]]) + NonEmpty(links[1..])
  }

  /** `exportRowsToUriText(rows)`: the links of the rows, empty ones dropped, one per line. */
  function ExportRowsToUriText(rows: seq<Row>): (r: Outcome<string>)
    ensures r.Throw? <==> ShareAll(rows).Throw?
  {
    match ShareAll(rows)
    case Throw => Throw
    case Return(links) => Return(Join(NonEmpty(links), "\n"))
  }

  // ---------------------------------------------------------------------------------------
  // Properties

  /** The map throws exactly when one of the rows cannot be shared. */
  lemma {:induction false} ShareAllThrows(rows: seq<Row>)
    ensures ShareAll(rows).Throw? <==> exists i :: 0 <= i < |rows| && ShareUri(rows[i]).Throw?
  {
    if rows != [] {
      ShareAllThrows(rows[1..]);
      if exists i :: 0 <= i < |rows[1..]| && ShareUri(rows[1..][i]).Throw? {
        var i :| 0 <= i < |rows[1..]| && ShareUri(rows[1..][i]).Throw?;
        assert rows[i + 1] == rows[1..][i];
      }
      if exists i :: 0 <= i < |rows| && ShareUri(rows[i]).Throw? {
        var i :| 0 <= i < |rows| && ShareUri(rows[i]).Throw?;
        if i > 0 { assert rows[1..][i - 1] == rows[i]; }
      }
    }
  }

  /** Without a throw, the k-th link is the k-th row's. */
  lemma {:induction false} ShareAllLinks(rows: seq<Row>)
    requires ShareAll(rows).Return?
    ensures forall i :: 0 <= i < |rows| ==> ShareUri(rows[i]) == Return(ShareAll(rows).value[i])
  {
    if rows != [] {
      ShareAllLinks(rows[1..]);
      forall i | 1 <= i < |rows| ensures ShareUri(rows[i]) == Return(ShareAll(rows).value[i]) {
        assert rows[i] == rows[1..][i - 1];
      }
    }
  }

  /** The export throws exactly when one shadowsocks row bound outward has user text that
      `btoa` refuses. */
  lemma ExportThrows(rows: seq<Row>)
    ensures ExportRowsToUriText(rows).Throw? <==>
      exists i :: 0 <= i < |rows| && Shareable(rows[i]) && rows[i].protocolId == "shadowsocks"
                  && !IsBinary(SsUserText(rows[i].mainConfig))
  {
    ShareAllThrows(rows);
  }

  /** The lines kept are the links of the shareable rows, in order. */
  lemma {:induction false} ExportKeepsShareable(rows: seq<Row>)
    requires ShareAll(rows).Return?
    ensures NonEmpty(ShareAll(rows).value) == SharedLinks(rows)
  {
    if rows != [] {
      ExportKeepsShareable(rows[1..]);
    }
  }

  /** The links of the shareable rows, in order, for rows that `btoa` accepts. */
  function SharedLinks(rows: seq<Row>): seq<string>
    requires ShareAll(rows).Return?
  {
    if rows == [] then []
    else (if Shareable(rows[0]) then [ShareUri(rows[0]).value] else []) + SharedLinks(rows[1..])
  }

  /** Rows none of which can be shared export as empty text. */
  lemma ExportNothingShareable(rows: seq<Row>)
    requires forall i :: 0 <= i < |rows| ==> !Shareable(rows[i])
    ensures ExportRowsToUriText(rows) == Return("")
  {
    ShareAllThrows(rows);
    ExportKeepsShareable(rows);
    NoSharedLinks(rows);
  }

  lemma {:induction false} NoSharedLinks(rows: seq<Row>)
    requires ShareAll(rows).Return?
    requires forall i :: 0 <= i < |rows| ==> !Shareable(rows[i])
    ensures SharedLinks(rows) == []
  {
    if rows != [] {
      NoSharedLinks(rows[1..]);
    }
  }

  /** A shadowsocks link read back by the shadowsocks parser gives the row's server, port text,
      cipher, password and name (`ss` for a row without a name). */
  lemma ShareSsRoundTrip(row: Row, id: string)
    requires row.direction == "outbound" && row.protocolId == "shadowsocks"
    requires forall c :: c in Text(row.mainConfig, "server") ==> c != '#' && c != '?' && c != '@' && c != ':'
    requires AllDigits(Text(row.mainConfig, "port"))
    requires ':' !in Text(row.mainConfig, "method") && IsBinary(SsUserText(row.mainConfig))
    ensures ShareUri(row).Return?
    ensures ParseSs(id, ShareUri(row).value)
      == Return(Some(SsRow(id, OrStr(row.name, "ss"), Text(row.mainConfig, "server"), Text(row.mainConfig, "port"),
                           Text(row.mainConfig, "method"), Text(row.mainConfig, "password"))))
  {
    var m := row.mainConfig;
    var name := OrStr(row.name, "ss");
    SsLinkShape(row);
    SsLinkParses(id, SsUserText(m), Text(m, "method"), Text(m, "password"), Text(m, "server"), Text(m, "port"), name);
  }

  lemma SsLinkShape(row: Row)
    requires row.direction == "outbound" && row.protocolId == "shadowsocks" && IsBinary(SsUserText(row.mainConfig))
    ensures ShareUri(row) == Return("ss://" + (Btoa(SsUserText(row.mainConfig)).value + "@" + Text(row.mainConfig, "server")
                                              + ":" + Text(row.mainConfig, "port"))
                                    + "#" + EncodeURIComponent(OrStr(row.name, "ss")))
  {
  }

  lemma SsLinkParses(id: string, user: string, cipher: string, password: string, host: string, port: string, name: string)
    requires user == cipher + ":" + password && ':' !in cipher && IsBinary(user) && name != []
    requires forall c :: c in host ==> c != '#' && c != '?' && c != '@' && c != ':'
    requires AllDigits(port)
    ensures Btoa(user).Return?
    ensures ParseSs(id, "ss://" + (Btoa(user).value + "@" + host + ":" + port) + "#" + EncodeURIComponent(name))
      == Return(Some(SsRow(id, name, host, port, cipher, password)))
  {
    SsLinkPieces(user, name);
    ParseSsComposed(id, Btoa(user).value, cipher, password, host, port, EncodeURIComponent(name), name);
  }

  /** The encoded user text and the encoded name keep clear of the characters the shadowsocks
      parser splits at, and decode back. */
  lemma SsLinkPieces(user: string, name: string)
    requires IsBinary(user)
    ensures Btoa(user).Return? && TryDecodeBase64(Btoa(user).value) == Some(user)
    ensures forall c :: c in Btoa(user).value ==> c != '#' && c != '?' && c != '@' && c != ':'
    ensures '#' !in EncodeURIComponent(name) && DecodeURIComponent(EncodeURIComponent(name)) == Some(name)
  {
    TryDecodePadded(user);
    BtoaChars(user);
    FragmentChars(name);
    DecodeEncodeURIComponent(name);
  }

  lemma FragmentChars(name: string)
    ensures '#' !in EncodeURIComponent(name)
  {
    var fragment := EncodeURIComponent(name);
    EncodeURIComponentChars(name);
    forall i | 0 <= i < |fragment| ensures fragment[i] != '#' {
      assert ComponentOutputChar(fragment[i]);
    }
  }

  /** Every parameter other than the five the link writes is absent. */
  lemma ShareQueryOther(row: Row, k: string)
    requires k !in {"type", "path", "security", "sni", "fp"}
    ensures Url.Get(ShareQuery(row), k) == None
  {
    var withType: Url.Params :=
      if row.transportId != [] && row.transportId != "raw" then [("type", ReverseTransport(row.transportId))] else [];
    var withPath := SetFrom(withType, row.transportMain, "path");
    var withSecurity := SetFrom(withPath, row.optionalConfig, "security");
    var withSni := SetFrom(withSecurity, row.optionalConfig, "sni");
    SetFromOther(withType, row.transportMain, "path", k);
    SetFromOther(withPath, row.optionalConfig, "security", k);
    SetFromOther(withSecurity, row.optionalConfig, "sni", k);
    SetFromOther(withSni, row.optionalConfig, "fp", k);
  }

  /** What `encodeURIComponent` writes passes the user-info and fragment parses unchanged. */
  lemma ComponentUrlChars(s: string)
    ensures forall i :: 0 <= i < |EncodeURIComponent(s)| ==>
      !Url.InSet(Url.Userinfo, EncodeURIComponent(s)[i]) && !Url.InSet(Url.Fragment, EncodeURIComponent(s)[i])
  {
    EncodeURIComponentChars(s);
  }

  /** The port a link carries: None for an empty port text. */
  function LinkPort(port: string): Option<nat>
    requires AllDigits(port)
  {
    if port == [] then None else Some(DigitsValue(port))
  }

  /** The URL parse of a vless or trojan link returns each of its parts unchanged. */
  lemma UrlLikeLinkParses(row: Row)
    requires row.protocolId == "vless" || row.protocolId == "trojan"
    requires Url.PlainHost(Text(row.mainConfig, "server"))
    requires AllDigits(Text(row.mainConfig, "port"))
    requires Text(row.mainConfig, "port") == [] || DigitsValue(Text(row.mainConfig, "port")) <= 65535
    ensures Url.ParseUrl(UrlLikeLink(row)) == Some(Url.Url(row.protocolId, EncodeURIComponent(ShareCredential(row.mainConfig)), "",
      Text(row.mainConfig, "server"), LinkPort(Text(row.mainConfig, "port")), Some(Url.Serialize(ShareQuery(row))),
      Some(EncodeURIComponent(OrStr(row.name, row.protocolId)))))
  {
    LinkParts(row.protocolId, ShareCredential(row.mainConfig), Text(row.mainConfig, "server"), Text(row.mainConfig, "port"),
              ShareQuery(row), OrStr(row.name, row.protocolId));
  }

  lemma LinkParts(scheme: string, cred: string, host: string, port: string, q: Url.Params, name: string)
    requires scheme == "vless" || scheme == "trojan"
    requires Url.PlainHost(host) && AllDigits(port) && (port == [] || DigitsValue(port) <= 65535)
    ensures Url.ParseUrl((scheme + "://") + (EncodeURIComponent(cred) + "@" + host + ":" + port + "?" + Url.Serialize(q)
                                             + "#" + EncodeURIComponent(name)))
      == Some(Url.Url(scheme, EncodeURIComponent(cred), "", host, LinkPort(port), Some(Url.Serialize(q)), Some(EncodeURIComponent(name))))
  {
    ComponentUrlChars(cred);
    ComponentUrlChars(name);
    Url.SerializeQueryChars(q);
    SchemeLower(scheme);
    var user, query, fragment := EncodeURIComponent(cred), Url.Serialize(q), EncodeURIComponent(name);
    Url.ParseComposedUrl(scheme, user, host, port, query, fragment);
    Regroup(user + "@" + host + ":" + port, query, fragment);
  }

  lemma Regroup(authority: string, query: string, fragment: string)
    ensures authority + "?" + query + "#" + fragment == authority + ("?" + query + "#" + fragment)
  {
  }

  lemma SchemeLower(scheme: string)
    requires scheme == "vless" || scheme == "trojan"
    ensures Url.ValidScheme(scheme) && !Url.IsSpecial(scheme) && Lower(scheme) == scheme
  {
    assert forall i :: 0 <= i < |scheme| ==> 'a' <= scheme[i] <= 'z';
    LowerNoUpper(scheme);
  }

  /** A field as the parsers store a query parameter. */
  function AsField(p: Option<string>): Option<Value> {
    match p case Some(v) => Some(Str(v)) case None => None
  }

  /** The preconditions under which a vless or trojan link reads back. */
  predicate UrlLikeShareable(row: Row) {
    && row.direction == "outbound" && (row.protocolId == "vless" || row.protocolId == "trojan")
    && (row.transportId == [] || row.transportId in TransportIds)
    && Url.PlainHost(Text(row.mainConfig, "server"))
    && AllDigits(Text(row.mainConfig, "port"))
    && (Text(row.mainConfig, "port") == [] || DigitsValue(Text(row.mainConfig, "port")) <= 65535)
    && (Present(Field(row.transportMain, "path")) ==> '%' !in ToStr(row.transportMain["path"]))
  }

  /** The URL the link parses to, and its query: the one `ShareQuery` built. */
  lemma UrlLikeLinkQuery(row: Row)
    requires UrlLikeShareable(row)
    ensures Url.ParseUrl(UrlLikeLink(row)).Some?
    ensures var url := Url.ParseUrl(UrlLikeLink(row)).value;
      && Url.SearchParams(url) == ShareQuery(row)
      && DecodeURIComponent(url.username) == Some(ShareCredential(row.mainConfig)) && url.password == []
      && url.hostname == Text(row.mainConfig, "server")
      && Url.PortText(url) == (if Text(row.mainConfig, "port") == [] then [] else NatToString(DigitsValue(Text(row.mainConfig, "port"))))
      && HashName(url) == Some(OrStr(row.name, row.protocolId))
  {
    UrlLikeLinkParses(row);
    Url.ParseParamsSerialize(ShareQuery(row));
    DecodeEncodeURIComponent(ShareCredential(row.mainConfig));
    DecodeEncodeURIComponent(OrStr(row.name, row.protocolId));
  }

  /** What the URL-style parser builds from a URL whose decodes all succeed. */
  lemma UrlLikeReads(id: string, input: string, scheme: string, url: Url.Url, cred: string, name: string, tm: Bucket)
    requires scheme == "vless" || scheme == "trojan"
    requires Url.ParseUrl(input) == Some(url)
    requires DecodeURIComponent(if scheme == "vless" then url.username else OrStr(url.username, url.password)) == Some(cred)
    requires Url.Get(Url.SearchParams(url), "encryption").None? && Url.Get(Url.SearchParams(url), "host").None?
    requires TransportMainOf(Url.SearchParams(url)) == Some(tm)
    requires HashName(url) == Some(name) && name != []
    ensures var q := Url.SearchParams(url);
      var server := map["server" := Str(url.hostname)];
      var withPort := if Url.PortText(url) != [] then server["port" := NumberOf(Url.PortText(url))] else server;
      ParseUrlLike(id, input, scheme)
      == Some(MakeRow(id, name, scheme, NormalizeTransport(Lower(Url.GetOr(q, "type", Url.GetOr(q, "network", "raw")))),
                      withPort[if scheme == "vless" then "id" else "password" := Str(cred)],
                      QueryCopy(q, map[], UrlLikeOptional), tm, map[]))
  {
    UrlRowReads(id, scheme, url, cred, name, tm);
  }

  lemma UrlRowReads(id: string, scheme: string, url: Url.Url, cred: string, name: string, tm: Bucket)
    requires scheme == "vless" || scheme == "trojan"
    requires DecodeURIComponent(if scheme == "vless" then url.username else OrStr(url.username, url.password)) == Some(cred)
    requires Url.Get(Url.SearchParams(url), "encryption").None? && Url.Get(Url.SearchParams(url), "host").None?
    requires TransportMainOf(Url.SearchParams(url)) == Some(tm)
    requires HashName(url) == Some(name) && name != []
    ensures var q := Url.SearchParams(url);
      var server := map["server" := Str(url.hostname)];
      var withPort := if Url.PortText(url) != [] then server["port" := NumberOf(Url.PortText(url))] else server;
      UrlLikeRow(id, url, scheme)
      == Some(MakeRow(id, name, scheme, NormalizeTransport(Lower(Url.GetOr(q, "type", Url.GetOr(q, "network", "raw")))),
                      withPort[if scheme == "vless" then "id" else "password" := Str(cred)],
                      QueryCopy(q, map[], UrlLikeOptional), tm, map[]))
  {
    var q := Url.SearchParams(url);
    var server := map["server" := Str(url.hostname)];
    var withPort := if Url.PortText(url) != [] then server["port" := NumberOf(Url.PortText(url))] else server;
    CredentialsRead(url, q, scheme, withPort, cred);
  }

  /** The credential a vless or trojan URL contributes when its decode succeeds and no
      `encryption` parameter is present. */
  lemma CredentialsRead(url: Url.Url, q: Url.Params, scheme: string, main: Bucket, cred: string)
    requires scheme == "vless" || scheme == "trojan"
    requires DecodeURIComponent(if scheme == "vless" then url.username else OrStr(url.username, url.password)) == Some(cred)
    requires Url.Get(q, "encryption").None?
    ensures Credentials(url, q, scheme, main) == Some(main[if scheme == "vless" then "id" else "password" := Str(cred)])
  {
  }

  /** The query of a link carries no `encryption` and no `host`, and its path decodes. */
  lemma LinkQueryReads(row: Row)
    requires Present(Field(row.transportMain, "path")) ==> '%' !in ToStr(row.transportMain["path"])
    ensures var q := ShareQuery(row);
      Url.Get(q, "encryption").None? && Url.Get(q, "host").None? && TransportMainOf(q).Some?
  {
    ShareQueryParams(row);
    ShareQueryOther(row, "encryption");
    ShareQueryOther(row, "host");
    ShareQueryOther(row, "serviceName");
    SharedParamText(row.transportMain, "path");
    if Present(Field(row.transportMain, "path")) {
      DecodeWithoutPercent(ToStr(row.transportMain["path"]));
    }
  }

  /** The parse of a shared vless or trojan link, in the terms of `UrlLikeReads`. */
  lemma UrlLikeLinkReads(row: Row, id: string)
    requires UrlLikeShareable(row)
    ensures Url.ParseUrl(UrlLikeLink(row)).Some? && TransportMainOf(ShareQuery(row)).Some?
    ensures var url := Url.ParseUrl(UrlLikeLink(row)).value;
      var q := ShareQuery(row);
      var server := map["server" := Str(url.hostname)];
      var withPort := if Url.PortText(url) != [] then server["port" := NumberOf(Url.PortText(url))] else server;
      ParseUrlLike(id, UrlLikeLink(row), row.protocolId)
      == Some(MakeRow(id, OrStr(row.name, row.protocolId), row.protocolId,
                      NormalizeTransport(Lower(Url.GetOr(q, "type", Url.GetOr(q, "network", "raw")))),
                      withPort[if row.protocolId == "vless" then "id" else "password" := Str(ShareCredential(row.mainConfig))],
                      QueryCopy(q, map[], UrlLikeOptional), TransportMainOf(q).value, map[]))
  {
    UrlLikeLinkQuery(row);
    var url := Url.ParseUrl(UrlLikeLink(row)).value;
    LinkQueryReads(row);
    assert OrStr(url.username, url.password) == url.username;
    UrlLikeReads(id, UrlLikeLink(row), row.protocolId, url, ShareCredential(row.mainConfig),
                 OrStr(row.name, row.protocolId), TransportMainOf(ShareQuery(row)).value);
  }

  /** A vless or trojan link read back by the URL-style parser gives a row of the same
      protocol, with the row's name (the protocol for a row without one) and transport. */
  lemma ShareUrlLikeRoundTrip(row: Row, id: string)
    requires UrlLikeShareable(row)
    ensures ShareUri(row) == Return(UrlLikeLink(row))
    ensures var r := ParseUrlLike(id, UrlLikeLink(row), row.protocolId);
      && r.Some? && r.value.protocolId == row.protocolId && r.value.name == OrStr(row.name, row.protocolId)
      && r.value.transportId == (if row.transportId == [] then "raw" else row.transportId)
  {
    UrlLikeLinkReads(row, id);
    ShareQueryTransport(row);
  }

  /** The transport the URL-style parser reads from the query of the link. */
  lemma ShareQueryTransport(row: Row)
    requires row.transportId == [] || row.transportId in TransportIds
    ensures var q := ShareQuery(row);
      NormalizeTransport(Lower(Url.GetOr(q, "type", Url.GetOr(q, "network", "raw"))))
      == if row.transportId == [] then "raw" else row.transportId
  {
    ShareQueryParams(row);
    ShareQueryOther(row, "network");
    var t, q := row.transportId, ShareQuery(row);
    var network := Url.GetOr(q, "type", Url.GetOr(q, "network", "raw"));
    assert network == if t != [] && t != "raw" then ReverseTransport(t) else "raw";
    SharedTransport(t);
  }

  /** ... and its server, port and credential (`id` for vless, `password` for trojan). */
  lemma ShareUrlLikeMain(row: Row, id: string)
    requires UrlLikeShareable(row)
    ensures var r := ParseUrlLike(id, UrlLikeLink(row), row.protocolId);
      && r.Some?
      && Field(r.value.mainConfig, "server") == Some(Str(Text(row.mainConfig, "server")))
      && Field(r.value.mainConfig, "port")
         == (if Text(row.mainConfig, "port") == [] then None else Some(Num(DigitsValue(Text(row.mainConfig, "port")))))
      && Field(r.value.mainConfig, if row.protocolId == "vless" then "id" else "password")
         == Some(Str(ShareCredential(row.mainConfig)))
  {
    UrlLikeLinkReads(row, id);
    UrlLikeLinkQuery(row);
    var url := Url.ParseUrl(UrlLikeLink(row)).value;
    LinkMain(url.hostname, Url.PortText(url), Text(row.mainConfig, "port"),
             if row.protocolId == "vless" then "id" else "password", ShareCredential(row.mainConfig));
  }

  /** The main bucket the URL-style parser builds from the server, port and credential. */
  lemma LinkMain(host: string, portText: string, port: string, key: string, cred: string)
    requires AllDigits(port) && portText == (if port == [] then [] else NatToString(DigitsValue(port)))
    requires key == "id" || key == "password"
    ensures var server := map["server" := Str(host)];
      var withPort := if portText != [] then server["port" := NumberOf(portText)] else server;
      var main := withPort[key := Str(cred)];
      && Field(main, "server") == Some(Str(host))
      && Field(main, "port") == (if port == [] then None else Some(Num(DigitsValue(port))))
      && Field(main, key) == Some(Str(cred))
  {
    var pv := if portText != [] then Some(NumberOf(portText)) else None;
    if port != [] {
      NumberOfNat(DigitsValue(port));
    }
    assert pv == (if port == [] then None else Some(Num(DigitsValue(port))));
    MainBucket(host, pv, key, cred);
  }

  /** The fields of the main bucket built from a server, an optional port and a credential. */
  lemma MainBucket(host: string, pv: Option<Value>, key: string, cred: string)
    requires key == "id" || key == "password"
    ensures var server := map["server" := Str(host)];
      var main := (if pv.Some? then server["port" := pv.value] else server)[key := Str(cred)];
      && Field(main, "server") == Some(Str(host))
      && Field(main, "port") == pv
      && Field(main, key) == Some(Str(cred))
  {
  }

  /** ... and its path, `security`, `sni` and `fp`, as text. */
  lemma ShareUrlLikeOptions(row: Row, id: string)
    requires UrlLikeShareable(row)
    ensures var r := ParseUrlLike(id, UrlLikeLink(row), row.protocolId);
      && r.Some?
      && Field(r.value.transportMain, "path") == AsField(SharedParam(row.transportMain, "path"))
      && Field(r.value.optionalConfig, "security") == AsField(SharedParam(row.optionalConfig, "security"))
      && Field(r.value.optionalConfig, "sni") == AsField(SharedParam(row.optionalConfig, "sni"))
      && Field(r.value.optionalConfig, "fp") == AsField(SharedParam(row.optionalConfig, "fp"))
  {
    UrlLikeLinkReads(row, id);
    ShareQueryOptions(row);
  }

  /** The transport fields and options the URL-style parser reads from the query of the link. */
  lemma ShareQueryOptions(row: Row)
    requires Present(Field(row.transportMain, "path")) ==> '%' !in ToStr(row.transportMain["path"])
    ensures var q := ShareQuery(row);
      && TransportMainOf(q).Some?
      && Field(TransportMainOf(q).value, "path") == AsField(SharedParam(row.transportMain, "path"))
      && Field(QueryCopy(q, map[], UrlLikeOptional), "security") == AsField(SharedParam(row.optionalConfig, "security"))
      && Field(QueryCopy(q, map[], UrlLikeOptional), "sni") == AsField(SharedParam(row.optionalConfig, "sni"))
      && Field(QueryCopy(q, map[], UrlLikeOptional), "fp") == AsField(SharedParam(row.optionalConfig, "fp"))
  {
    ShareQueryPath(row);
    ShareQueryCopied(row, "security");
    ShareQueryCopied(row, "sni");
    ShareQueryCopied(row, "fp");
  }

  lemma ShareQueryPath(row: Row)
    requires Present(Field(row.transportMain, "path")) ==> '%' !in ToStr(row.transportMain["path"])
    ensures TransportMainOf(ShareQuery(row)).Some?
    ensures Field(TransportMainOf(ShareQuery(row)).value, "path") == AsField(SharedParam(row.transportMain, "path"))
  {
    ShareQueryParams(row);
    ShareQueryOther(row, "serviceName");
    SharedParamText(row.transportMain, "path");
    if Present(Field(row.transportMain, "path")) {
      DecodeWithoutPercent(ToStr(row.transportMain["path"]));
    }
  }

  lemma ShareQueryCopied(row: Row, key: string)
    requires key == "security" || key == "sni" || key == "fp"
    ensures Field(QueryCopy(ShareQuery(row), map[], UrlLikeOptional), key) == AsField(SharedParam(row.optionalConfig, key))
  {
    ShareQueryParams(row);
    QueryCopyFields(ShareQuery(row), map[], UrlLikeOptional);
    SharedParamText(row.optionalConfig, key);
    assert key in UrlLikeOptional;
  }

  /** A parameter the link writes is never empty. */
  lemma SharedParamText(b: Bucket, key: string)
    ensures SharedParam(b, key).Some? ==> SharedParam(b, key).value != []
  {
  }

  /** The transport the URL-style parser reads back from the `type` the link writes. */
  lemma SharedTransport(t: string)
    requires t == [] || t in TransportIds
    ensures var network := if t != [] && t != "raw" then ReverseTransport(t) else "raw";
      NormalizeTransport(Lower(network)) == if t == [] then "raw" else t
  {
    var network := if t != [] && t != "raw" then ReverseTransport(t) else "raw";
    assert forall i :: 0 <= i < |network| ==> !('A' <= network[i] <= 'Z');
    LowerNoUpper(network);
    if t != [] { TransportRoundTrip(t); }
  }

  /** What `btoa` writes: alphabet characters and `=` padding. */
  lemma BtoaChars(s: string)
    requires IsBinary(s)
    ensures forall c :: c in Btoa(s).value ==> IsAlphabet(c) || c == '='
    ensures forall c :: c in Btoa(s).value ==> c != '#' && c != '?' && c != '@' && c != ':'
  {
    EncodeUnpaddedShape(s);
    var e := EncodeUnpadded(s) + Padding(|s|);
    forall c | c in e ensures IsAlphabet(c) || c == '=' {
      var i :| 0 <= i < |e| && e[i] == c;
      if i < |EncodeUnpadded(s)| { assert e[i] == EncodeUnpadded(s)[i]; }
    }
  }
}
