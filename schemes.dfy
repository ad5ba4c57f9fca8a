/** The per-scheme share-link parsers of src/core/parser.js and the dispatcher `parseUri`. A
    parser that catches its own errors returns None (`null`) for them; `parseSs`, which has no
    `try`, returns an Outcome whose Throw is the URIError of its fragment decode. Every row is
    built by `MakeRow` with the id the caller supplies (the source draws it from
    `Math.random`). */
module Schemes {
  import opened Outcomes
  import opened JsString
  import opened JsValue
  import opened Percent
  import opened Rows
  import opened Codec
  import Url
  import Json

  /** What every parser promises about a row it returns. */
  predicate Built(row: Row, id: string) {
    row.id == id && row.direction == "outbound" && row.engineId == "xray" && row.name != []
  }

  /** `tryDecodeBase64(s) || fallback` */
  function DecodedOr(s: string, fallback: string): (r: string)
    ensures TryDecodeBase64(s).None? || TryDecodeBase64(s).value == [] ==> r == fallback
    ensures TryDecodeBase64(s).Some? && TryDecodeBase64(s).value != [] ==> r == TryDecodeBase64(s).value
  {
    match TryDecodeBase64(s) case Some(d) => if d != [] then d else fallback case None => fallback
  }

  /** `s.replace(/^prefix/i, by)` for a lower-case ASCII prefix. */
  function ReplacePrefix(s: string, prefix: string, replacement: string): (r: string)
    ensures |s| < |prefix| || Lower(s[..|prefix|]) != prefix ==> r == s
  {
    if |s| >= |prefix| && Lower(s[..|prefix|]) == prefix then replacement + s[|prefix|..] else s
  }

  /** `Number(url.port || fallback)` */
  function PortOr(url: Url.Url, fallback: nat): (r: Value)
    ensures url.port.None? ==> r == Num(fallback)
    ensures url.port.Some? ==> r == Num(url.port.value)
  {
    if Url.PortText(url) == [] then Num(fallback)
    else
      NumberOfNat(url.port.value);
      NumberOf(Url.PortText(url))
  }

  /** `decodeURIComponent((url.hash || '').replace(/^#/, ''))` */
  function HashName(url: Url.Url): Option<string> {
    DecodeURIComponent(Url.HashText(url))
  }

  // ---------------------------------------------------------------------------------------
  // parseUrlLike (vless, trojan, anytls and the vmess fallback)

  /** The query parameters `parseUrlLike` copies into `optionalConfig`. */
  const UrlLikeOptional: seq<string> := ["security", "sni", "alpn", "fp", "flow", "insecure", "allowInsecure",
    "host", "headerType", "obfs", "obfs-password", "pbk", "sid", "serviceName", "peer", "servername"]

  /** The credential fields: `id` (and `encryption`) for vless and vmess, `password` for trojan and
      anytls; None where `decodeURIComponent` throws. */
  function Credentials(url: Url.Url, q: Url.Params, scheme: string, main: Bucket): Option<Bucket> {
    if scheme == "vless" || scheme == "vmess" then
      match DecodeURIComponent(url.username)
      case None => None
      case Some(uuid) =>
        var withId := main["id" := Str(uuid)];
        var encryption := Url.GetOr(q, "encryption", "");
        Some(if encryption != [] then withId["encryption" := Str(encryption)] else withId)
    else if scheme == "trojan" || scheme == "anytls" then
      match DecodeURIComponent(OrStr(url.username, url.password))
      case None => None
      case Some(password) => Some(main["password" := Str(password)])
    else Some(main)
  }

  /** `transportMain`: the decoded `path` and the `serviceName` when present. */
  function TransportMainOf(q: Url.Params): Option<Bucket> {
    var service := Url.GetOr(q, "serviceName", "");
    var withService: Bucket := if service != [] then map["serviceName" := Str(service)] else map[];
    var path := Url.GetOr(q, "path", "");
    if path == [] then Some(withService)
    else match DecodeURIComponent(path)
      case None => None
      case Some(p) => Some(map["path" := Str(p)] + withService)
  }

  function ParseUrlLike(id: string, input: string, scheme: string): (r: Option<Row>)
    ensures r.Some? ==> Built(r.value, id) && r.value.protocolId == scheme && r.value.transportId in TransportIds
    ensures Url.ParseUrl(input).None? ==> r.None?
  {
    match Url.ParseUrl(input)
    case None => None
    case Some(url) => UrlLikeRow(id, url, scheme)
  }

  /** The row `parseUrlLike` builds from a parsed URL; None where a decode throws. */
  function UrlLikeRow(id: string, url: Url.Url, scheme: string): (r: Option<Row>)
    ensures r.Some? ==> Built(r.value, id) && r.value.protocolId == scheme && r.value.transportId in TransportIds
  {
    var q := Url.SearchParams(url);
    var network := Lower(Url.GetOr(q, "type", Url.GetOr(q, "network", "raw")));
    var server := map["server" := Str(url.hostname)];
    var withPort := if Url.PortText(url) != [] then server["port" := NumberOf(Url.PortText(url))] else server;
    var host := Url.GetOr(q, "host", "");
    match Credentials(url, q, scheme, withPort)
    case None => None
    case Some(main) =>
      match TransportMainOf(q)
      case None => None
      case Some(transportMain) =>
        match HashName(url)
        case None => None
        case Some(name) =>
          Some(MakeRow(id, OrStr(name, scheme + "-" + url.hostname), scheme, NormalizeTransport(network),
                       main, QueryCopy(q, map[], UrlLikeOptional), transportMain,
                       if host != [] then map["host" := Str(host)] else map[]))
  }

  // ---------------------------------------------------------------------------------------
  // parseVmess

  /** `String(json[key] || fallback)` */
  function JText(json: Json.Json, keys: seq<string>, fallback: string): string {
    Json.TextOr(json, keys, fallback)
  }

  /** The row of a decoded vmess JSON payload; None where reading a property of `null` throws. */
  function VmessRow(id: string, json: Json.Json): (r: Option<Row>)
    ensures r.Some? <==> !json.JNull?
    ensures r.Some? ==> Built(r.value, id) && r.value.protocolId == "vmess"
  {
    if json.JNull? then None
    else
      Some(MakeRow(id, VmessName(json), "vmess", NormalizeTransport(Lower(JText(json, ["net"], "tcp"))),
        VmessMain(json), VmessOptional(json),
        map["path" := Str(JText(json, ["path"], "")), "serviceName" := Str(JText(json, ["serviceName"], ""))],
        map["host" := Str(JText(json, ["host"], "")), "type" := Str(JText(json, ["type"], ""))]))
  }

  /** `json.ps || json.name` as text, else `vmess-` and the address. */
  function VmessName(json: Json.Json): string {
    match Json.FirstTruthy(json, ["ps", "name"])
    case Some(v) => Json.JToStr(v)
    case None => "vmess-" + JText(json, ["add"], "node")
  }

  /** The `tls` field lower-cased, with empty, `none` and `false` read as `none`. */
  function VmessSecurity(json: Json.Json): string {
    var tlsRaw := Lower(JText(json, ["tls"], ""));
    if tlsRaw != [] && tlsRaw != "none" && tlsRaw != "false" then tlsRaw else "none"
  }

  function VmessMain(json: Json.Json): Bucket {
    var port := match Json.FirstTruthy(json, ["port"]) case Some(v) => Json.JToNumber(v) case None => Num(0);
    map["server" := Str(JText(json, ["add"], "")), "port" := port, "id" := Str(JText(json, ["id"], ""))]
  }

  function VmessOptional(json: Json.Json): Bucket {
    var alterId := match Json.FirstDefined(json, ["aid", "alterId"]) case Some(v) => Json.JToStr(v) case None => "0";
    var insecure := match Json.FirstDefined(json, ["allowInsecure", "insecure"]) case Some(v) => Json.JToStr(v) case None => "";
    map["security" := Str(VmessSecurity(json)), "scy" := Str(JText(json, ["scy", "security"], "auto")),
        "alterId" := Str(alterId), "sni" := Str(JText(json, ["sni"], "")), "alpn" := Str(JText(json, ["alpn"], "")),
        "fp" := Str(JText(json, ["fp"], "")), "host" := Str(JText(json, ["host"], "")),
        "path" := Str(JText(json, ["path"], "")), "type" := Str(JText(json, ["type"], "")),
        "allowInsecure" := Str(insecure)]
  }

  /** `parseVmess(input)`: a Base64 JSON payload, or a URL-shaped link where the payload does not
      decode to anything. */
  function ParseVmess(id: string, input: string): (r: Option<Row>)
    ensures r.Some? ==> Built(r.value, id) && r.value.protocolId == "vmess"
  {
    var payload := if |input| >= 8 then input[8..] else "";
    match TryDecodeBase64(payload)
    case None => ParseUrlLike(id, input, "vmess")
    case Some(decoded) =>
      if decoded == [] then ParseUrlLike(id, input, "vmess")
      else match Json.Parse(decoded)
        case None => None
        case Some(json) => VmessRow(id, json)
  }

  // ---------------------------------------------------------------------------------------
  // parseSs

  /** The user info and server part of the text before `#` and `?`: split at `@` when there is
      one, else after a Base64 decode that must yield an `@`. */
  function SsParts(main: string): (r: Option<(string, string)>)
    ensures r.None? <==> '@' !in main && (TryDecodeBase64(main).None? || '@' !in TryDecodeBase64(main).value)
  {
    IndexOfChar(main, '@');
    if Contains(main, "@") then
      var parts := Split(main, "@");
      Some((parts[0], parts[1]))
    else match TryDecodeBase64(main)
      case None => None
      case Some(decoded) =>
        IndexOfChar(decoded, '@');
        if decoded == [] || !Contains(decoded, "@") then None
        else
          var parts := Split(decoded, "@");
          Some((parts[0], parts[1]))
  }

  /** `method:password`, recovered from plain or Base64 user info; the split is at the first `:`. */
  function SsUser(userInfo: string): (r: Option<(string, string)>)
    ensures r.Some? ==> ':' !in r.value.0
    ensures r.None? <==> ':' !in userInfo && ':' !in DecodedOr(userInfo, userInfo)
  {
    IndexOfChar(userInfo, ':');
    var decodedUser := if Contains(userInfo, ":") then userInfo else DecodedOr(userInfo, userInfo);
    IndexOfChar(decodedUser, ':');
    match IndexOf(decodedUser, ":")
    case None => None
    case Some(idx) =>
      assert forall j :: 0 <= j < |decodedUser[..idx]| ==> decodedUser[..idx][j] != ':';
      Some((decodedUser[..idx], decodedUser[idx + 1..]))
  }

  /** The text after `ss://` before its first `#` and its first `?`. */
  function SsMain(input: string): string {
    var body := if |input| >= 5 then input[5..] else "";
    Split(Split(body, "#")[0], "?")[0]
  }

  /** The text between the first and the second `#`, empty without a `#`. */
  function SsFragment(input: string): string {
    var body := if |input| >= 5 then input[5..] else "";
    match Part(Split(body, "#"), 1) case Some(h) => h case None => ""
  }

  /** `parseSs(input)`. A fragment that is not valid percent-encoding throws out of it; a link
      with no server part or no `method:password` is `null` before the fragment is read. */
  function ParseSs(id: string, input: string): (r: Outcome<Option<Row>>)
    ensures r.Return? && r.value.Some? ==> Built(r.value.value, id) && r.value.value.protocolId == "shadowsocks"
    ensures r.Return? && r.value.Some? ==> r.value.value.mainConfig.Keys == {"server", "port", "method", "password"}
    ensures '@' !in SsMain(input) && (TryDecodeBase64(SsMain(input)).None? || '@' !in TryDecodeBase64(SsMain(input)).value)
      ==> r == Return(None)
    ensures SsParts(SsMain(input)).Some? && SsUser(SsParts(SsMain(input)).value.0).None? ==> r == Return(None)
  {
    SsFromMain(id, SsMain(input), SsFragment(input))
  }

  /** The rest of `parseSs` once the text before `#` and `?` and the fragment are cut out. */
  function SsFromMain(id: string, main: string, fragment: string): (r: Outcome<Option<Row>>)
    ensures r.Return? && r.value.Some? ==> Built(r.value.value, id) && r.value.value.protocolId == "shadowsocks"
    ensures r.Return? && r.value.Some? ==> r.value.value.mainConfig.Keys == {"server", "port", "method", "password"}
    ensures SsParts(main).None? ==> r == Return(None)
    ensures SsParts(main).Some? && SsUser(SsParts(main).value.0).None? ==> r == Return(None)
  {
    match SsParts(main)
    case None => Return(None)
    case Some(pair) =>
      match SsUser(pair.0)
      case None => Return(None)
      case Some(user) =>
        var serverParts := Split(pair.1, ":");
        var server := serverParts[0];
        var portText := match Part(serverParts, 1) case Some(p) => p case None => "";
        match DecodeURIComponent(fragment)
        case None => Throw
        case Some(name) =>
          Return(Some(MakeRow(id, OrStr(name, "ss-" + server), "shadowsocks", "raw",
            map["server" := Str(server), "port" := if portText == [] then Num(0) else NumberOf(portText),
                "method" := Str(user.0), "password" := Str(user.1)],
            map[], map[], map[])))
  }

  /** The row `parseSs` builds for `ss://encoded@host:port#fragment`. */
  function SsRow(id: string, name: string, host: string, portText: string, cipher: string, password: string): Row {
    MakeRow(id, name, "shadowsocks", "raw",
      map["server" := Str(host), "port" := if portText == [] then Num(0) else NumberOf(portText),
          "method" := Str(cipher), "password" := Str(password)],
      map[], map[], map[])
  }

  lemma SsPartsComposed(encoded: string, host: string, portText: string)
    requires '@' !in encoded && '@' !in host && ':' !in host && ':' !in portText && '@' !in portText
    ensures SsParts(encoded + "@" + host + ":" + portText) == Some((encoded, host + ":" + portText))
    ensures Split(host + ":" + portText, ":") == [host, portText]
  {
    var main := encoded + "@" + host + ":" + portText;
    assert main == encoded + ['@'] + (host + ":" + portText);
    assert main[|encoded|] == '@';
    IndexOfChar(main, '@');
    SplitAtChar(encoded, '@', host + ":" + portText);
    SplitWithoutChar(host + ":" + portText, '@');
    assert host + ":" + portText == host + [':'] + portText;
    SplitAtChar(host, ':', portText);
    SplitWithoutChar(portText, ':');
  }

  lemma SsUserDecoded(encoded: string, cipher: string, password: string)
    requires ':' !in encoded && ':' !in cipher
    requires TryDecodeBase64(encoded) == Some(cipher + ":" + password)
    ensures SsUser(encoded) == Some((cipher, password))
  {
    IndexOfChar(encoded, ':');
    var user := cipher + ":" + password;
    assert user[|cipher|] == ':';
    IndexOfChar(user, ':');
    var idx := IndexOf(user, ":").value;
    assert forall j :: 0 <= j < |cipher| ==> user[j] == cipher[j];
    assert idx == |cipher|;
    assert user[..idx] == cipher && user[idx + 1..] == password;
  }

  lemma SsMainChars(encoded: string, host: string, portText: string)
    requires forall c :: c in encoded ==> c != '#' && c != '?'
    requires forall c :: c in host ==> c != '#' && c != '?'
    requires AllDigits(portText)
    ensures var main := encoded + "@" + host + ":" + portText; '#' !in main && '?' !in main
  {
    var main := encoded + "@" + host + ":" + portText;
    forall j | 0 <= j < |main| ensures main[j] != '#' && main[j] != '?' {
      if j < |encoded| { assert main[j] in encoded; }
      else if |encoded| < j < |encoded| + 1 + |host| { assert main[j] == host[j - |encoded| - 1] && host[j - |encoded| - 1] in host; }
      else if j > |encoded| + |host| + 1 { assert main[j] == portText[j - |encoded| - |host| - 2]; }
    }
  }

  lemma SsBodySplit(main: string, fragment: string)
    requires '#' !in main && '?' !in main && '#' !in fragment
    ensures var body := ("ss://" + main + "#" + fragment)[5..];
      Split(body, "#") == [main, fragment] && Split(main, "?")[0] == main
  {
    assert ("ss://" + main + "#" + fragment)[5..] == main + ['#'] + fragment;
    SplitAtChar(main, '#', fragment);
    SplitWithoutChar(fragment, '#');
    SplitWithoutChar(main, '?');
  }

  /** `ss://encoded@host:port#fragment` with Base64 user info `method:password`: the method ends
      at the first `:`, so the password may hold further colons. */
  lemma ParseSsComposed(id: string, encoded: string, cipher: string, password: string,
                        host: string, portText: string, fragment: string, name: string)
    requires forall c :: c in encoded ==> c != '#' && c != '?' && c != '@' && c != ':'
    requires forall c :: c in host ==> c != '#' && c != '?' && c != '@' && c != ':'
    requires AllDigits(portText)
    requires ':' !in cipher && TryDecodeBase64(encoded) == Some(cipher + ":" + password)
    requires '#' !in fragment && DecodeURIComponent(fragment) == Some(name) && name != []
    ensures ParseSs(id, "ss://" + (encoded + "@" + host + ":" + portText) + "#" + fragment)
      == Return(Some(SsRow(id, name, host, portText, cipher, password)))
  {
    var main := encoded + "@" + host + ":" + portText;
    SsMainChars(encoded, host, portText);
    SsBodySplit(main, fragment);
    var input := "ss://" + main + "#" + fragment;
    assert |input| >= 5;
    var hashParts := Split(input[5..], "#");
    assert hashParts == [main, fragment];
    assert Part(hashParts, 1) == Some(fragment);
    assert SsMain(input) == main && SsFragment(input) == fragment;
    SsPartsComposed(encoded, host, portText);
    SsUserDecoded(encoded, cipher, password);
    SsFromMainReads(id, main, encoded, host, portText, cipher, password, fragment, name);
  }

  /** `ss://main#fragment` whose main part holds no `@`, as written or after a Base64 decode, is
      `null` whatever its fragment: the fragment decode that could throw is never reached. */
  lemma ParseSsNoServer(id: string, main: string, fragment: string)
    requires '#' !in main && '?' !in main && '#' !in fragment
    requires '@' !in main && (TryDecodeBase64(main).None? || '@' !in TryDecodeBase64(main).value)
    ensures ParseSs(id, "ss://" + main + "#" + fragment) == Return(None)
  {
    SsBodySplit(main, fragment);
    assert SsMain("ss://" + main + "#" + fragment) == main;
  }

  /** `ss://user@server#fragment` whose user info has no `:`, as written or after a Base64
      decode, is `null` whatever its fragment. */
  lemma ParseSsNoMethod(id: string, user: string, server: string, fragment: string)
    requires '#' !in user && '?' !in user && '@' !in user && ':' !in user
    requires '#' !in server && '?' !in server && '#' !in fragment
    requires ':' !in DecodedOr(user, user)
    ensures ParseSs(id, "ss://" + (user + "@" + server) + "#" + fragment) == Return(None)
  {
    var main := user + "@" + server;
    assert main == user + ['@'] + server;
    SsBodySplit(main, fragment);
    assert SsMain("ss://" + main + "#" + fragment) == main;
    SplitAtChar(user, '@', server);
    assert SsParts(main).value.0 == user by { IndexOfChar(main, '@'); assert main[|user|] == '@'; }
  }

  lemma SsFromMainReads(id: string, main: string, encoded: string, host: string, portText: string,
                        cipher: string, password: string, fragment: string, name: string)
    requires SsParts(main) == Some((encoded, host + ":" + portText))
    requires Split(host + ":" + portText, ":") == [host, portText]
    requires SsUser(encoded) == Some((cipher, password))
    requires DecodeURIComponent(fragment) == Some(name) && name != []
    ensures SsFromMain(id, main, fragment) == Return(Some(SsRow(id, name, host, portText, cipher, password)))
  {
    var serverParts := Split(host + ":" + portText, ":");
    assert Part(serverParts, 1) == Some(portText);
  }

  // ---------------------------------------------------------------------------------------
  // parseSsr

  /** The colon fields of a decoded SSR payload, before its `/?` parameters; empty when the
      payload does not decode to anything. */
  function SsrFields(input: string): seq<string> {
    var payload := if |input| >= 6 then input[6..] else "";
    match TryDecodeBase64(payload)
    case None => []
    case Some(decoded) => if decoded == [] then [] else Split(Split(decoded, "/?")[0], ":")
  }

  /** `new URLSearchParams(init)`: a leading `?` is dropped. */
  function NewSearchParams(init: string): Url.Params {
    Url.ParseParams(if init != [] && init[0] == '?' then init[1..] else init)
  }

  /** `safeDecode(tryDecodeBase64(v || '') || v || fallback)` */
  function SsrText(v: string, fallback: string): string {
    SafeDecode(DecodedOr(v, OrStr(v, fallback)))
  }

  function ParseSsr(id: string, input: string): (r: Option<Row>)
    ensures |SsrFields(input)| < 6 ==> r.None?
    ensures r.Some? ==> Built(r.value, id) && r.value.protocolId == "ssr"
  {
    var payload := if |input| >= 6 then input[6..] else "";
    match TryDecodeBase64(payload)
    case None => None
    case Some(decoded) => if decoded == [] then None else SsrRow(id, decoded)
  }

  /** The row of a decoded `server:port:protocol:method:obfs:password/?params` text. */
  function SsrRow(id: string, decoded: string): (r: Option<Row>)
    ensures |Split(Split(decoded, "/?")[0], ":")| < 6 ==> r.None?
    ensures r.Some? ==> Built(r.value, id) && r.value.protocolId == "ssr"
  {
    var halves := Split(decoded, "/?");
    var parts := Split(halves[0], ":");
    if |parts| < 6 then None
    else Some(SsrFieldsRow(id, parts, match Part(halves, 1) case Some(p) => p case None => ""))
  }

  /** The row of the `:`-separated fields and the parameter text after `/?`. */
  function SsrFieldsRow(id: string, parts: seq<string>, query: string): (r: Row)
    requires |parts| >= 6
    ensures Built(r, id) && r.protocolId == "ssr"
  {
    var params := NewSearchParams(query);
    var server := parts[0];
    MakeRow(id, SsrText(Url.GetOr(params, "remarks", ""), "ssr-" + server), "ssr", "raw",
      map["server" := Str(server), "port" := if parts[1] == [] then Num(0) else NumberOf(parts[1]),
          "method" := Str(parts[3]), "password" := Str(DecodedOr(parts[5], parts[5]))],
      map["protocol" := Str(parts[2]), "obfs" := Str(parts[4]),
          "protocol-param" := Str(SsrText(Url.GetOr(params, "protoparam", ""), "")),
          "obfs-param" := Str(SsrText(Url.GetOr(params, "obfsparam", ""), ""))],
      map[], map[])
  }

  // ---------------------------------------------------------------------------------------
  // parseSocks, parseHysteria, parseWireguard, parseTuic, parseSnell, parseSsh, parseHttp

  /** `user:pass` from the user name, plain or Base64; both empty without a `:`. */
  function SocksUser(userRaw: string): (r: (string, string))
    ensures ':' !in r.0
  {
    var decoded := if Contains(userRaw, ":") then userRaw else DecodedOr(userRaw, userRaw);
    IndexOfChar(decoded, ':');
    match IndexOf(decoded, ":")
    case None => ("", "")
    case Some(idx) =>
      assert forall j :: 0 <= j < |decoded[..idx]| ==> decoded[..idx][j] != ':';
      (decoded[..idx], decoded[idx + 1..])
  }

  function ParseSocks(id: string, input: string): (r: Option<Row>)
    ensures r.Some? ==> Built(r.value, id) && r.value.protocolId == "socks"
  {
    match Url.ParseUrl(ReplacePrefix(input, "socks5://", "socks://"))
    case None => None
    case Some(url) => SocksRow(id, url)
  }

  /** The row `parseSocks` builds from a parsed URL; None where a decode throws. */
  function SocksRow(id: string, url: Url.Url): (r: Option<Row>)
    ensures r.Some? ==> Built(r.value, id) && r.value.protocolId == "socks"
  {
    match DecodeURIComponent(url.username)
    case None => None
    case Some(userRaw) =>
      match HashName(url)
      case None => None
      case Some(name) =>
        var user := SocksUser(userRaw);
        Some(MakeRow(id, OrStr(name, "socks-" + url.hostname), "socks", "raw",
          map["server" := Str(url.hostname), "port" := PortOr(url, 1080)],
          map["user" := Str(user.0), "pass" := Str(user.1)], map[], map[]))
  }

  function ParseHysteria(id: string, input: string, scheme: string): (r: Option<Row>)
    ensures r.Some? ==> Built(r.value, id) && r.value.transportId == "hysteria"
    ensures r.Some? ==> r.value.protocolId == if scheme == "hysteria2" || scheme == "hy2" then "hysteria2" else "hysteria"
  {
    match Url.ParseUrl(ReplacePrefix(input, "hy2://", "hysteria2://"))
    case None => None
    case Some(url) => HysteriaRow(id, url, scheme)
  }

  /** The row `parseHysteria` builds from a parsed URL; None where a decode throws. */
  function HysteriaRow(id: string, url: Url.Url, scheme: string): (r: Option<Row>)
    ensures r.Some? ==> Built(r.value, id) && r.value.transportId == "hysteria"
    ensures r.Some? ==> r.value.protocolId == if scheme == "hysteria2" || scheme == "hy2" then "hysteria2" else "hysteria"
  {
    var q := Url.SearchParams(url);
    var protocolId := if scheme == "hysteria2" || scheme == "hy2" then "hysteria2" else "hysteria";
    match HashName(url)
    case None => None
    case Some(name) =>
      match DecodeURIComponent(url.username)
      case None => None
      case Some(auth) =>
        Some(MakeRow(id, OrStr(name, protocolId + "-" + url.hostname), protocolId, "hysteria",
          map["server" := Str(url.hostname), "port" := PortOr(url, 443), "auth" := Str(auth)],
          map["security" := Str(Url.GetOr(q, "security", "")), "obfs" := Str(Url.GetOr(q, "obfs", "")),
              "obfs-password" := Str(Url.GetOr(q, "obfs-password", "")),
              "sni" := Str(Url.GetOr(q, "sni", Url.GetOr(q, "peer", "")))],
          map[], map[]))
  }

  function ParseWireguard(id: string, input: string): (r: Option<Row>)
    ensures r.Some? ==> Built(r.value, id) && r.value.protocolId == "wireguard"
  {
    match Url.ParseUrl(ReplacePrefix(input, "wg://", "wireguard://"))
    case None => None
    case Some(url) => WireguardRow(id, url)
  }

  /** The row `parseWireguard` builds from a parsed URL; None where a decode throws. */
  function WireguardRow(id: string, url: Url.Url): (r: Option<Row>)
    ensures r.Some? ==> Built(r.value, id) && r.value.protocolId == "wireguard"
  {
    var q := Url.SearchParams(url);
    match HashName(url)
    case None => None
    case Some(name) =>
      match DecodeURIComponent(OrStr(url.username, Url.GetOr(q, "private-key", "")))
      case None => None
      case Some(secretKey) =>
        match DecodeURIComponent(Url.GetOr(q, "address", Url.GetOr(q, "ip", "")))
        case None => None
        case Some(address) =>
          match DecodeURIComponent(Url.GetOr(q, "publickey", Url.GetOr(q, "public-key", "")))
          case None => None
          case Some(publicKey) =>
            match DecodeURIComponent(Url.GetOr(q, "reserved", ""))
            case None => None
            case Some(reserved) =>
              Some(MakeRow(id, OrStr(name, "wireguard"), "wireguard", "raw",
                map["secretKey" := Str(secretKey), "address" := Str(address), "publicKey" := Str(publicKey),
                    "server" := Str(url.hostname), "port" := PortOr(url, 0)],
                map["reserved" := Str(reserved), "mtu" := Str(Url.GetOr(q, "mtu", "")),
                    "keepalive" := Str(Url.GetOr(q, "keepalive", ""))],
                map[], map[]))
  }

  function ParseTuic(id: string, input: string): (r: Option<Row>)
    ensures r.Some? ==> Built(r.value, id) && r.value.protocolId == "tuic"
  {
    match Url.ParseUrl(input)
    case None => None
    case Some(url) =>
      var q := Url.SearchParams(url);
      match HashName(url)
      case None => None
      case Some(name) =>
        match DecodeURIComponent(url.username)
        case None => None
        case Some(uuid) =>
          match DecodeURIComponent(url.password)
          case None => None
          case Some(password) =>
            Some(MakeRow(id, OrStr(name, "tuic-" + url.hostname), "tuic", "raw",
              map["server" := Str(url.hostname), "port" := PortOr(url, 443), "id" := Str(uuid), "password" := Str(password)],
              map["sni" := Str(Url.GetOr(q, "sni", "")), "alpn" := Str(Url.GetOr(q, "alpn", ""))],
              map[], map[]))
  }

  function ParseSnell(id: string, input: string): (r: Option<Row>)
    ensures r.Some? ==> Built(r.value, id) && r.value.protocolId == "snell"
    ensures r.Some? ==> "version" in r.value.optionalConfig && r.value.optionalConfig["version"] != Str("")
  {
    match Url.ParseUrl(input)
    case None => None
    case Some(url) =>
      var q := Url.SearchParams(url);
      match HashName(url)
      case None => None
      case Some(name) =>
        match DecodeURIComponent(OrStr(url.username, Url.GetOr(q, "psk", "")))
        case None => None
        case Some(password) =>
          Some(MakeRow(id, OrStr(name, "snell-" + url.hostname), "snell", "raw",
            map["server" := Str(url.hostname), "port" := PortOr(url, 443), "password" := Str(password)],
            map["version" := Str(Url.GetOr(q, "version", "2"))], map[], map[]))
  }

  function ParseSsh(id: string, input: string): (r: Option<Row>)
    ensures r.Some? ==> Built(r.value, id) && r.value.protocolId == "ssh"
  {
    match Url.ParseUrl(input)
    case None => None
    case Some(url) =>
      match HashName(url)
      case None => None
      case Some(name) =>
        match DecodeURIComponent(url.username)
        case None => None
        case Some(user) =>
          match DecodeURIComponent(url.password)
          case None => None
          case Some(password) =>
            Some(MakeRow(id, OrStr(name, "ssh-" + url.hostname), "ssh", "raw",
              map["server" := Str(url.hostname), "port" := PortOr(url, 22), "user" := Str(user), "password" := Str(password)],
              map[], map[], map[]))
  }

  function ParseHttp(id: string, input: string): (r: Option<Row>)
    ensures r.Some? ==> Built(r.value, id) && r.value.protocolId == "http"
    ensures r.Some? ==>
      && Url.ParseUrl(input).Some? && "security" in r.value.optionalConfig
      && r.value.optionalConfig["security"] == Str(if Url.ParseUrl(input).value.scheme == "https" then "tls" else "none")
  {
    match Url.ParseUrl(input)
    case None => None
    case Some(url) =>
      var https := url.scheme == "https";
      match HashName(url)
      case None => None
      case Some(name) =>
        match DecodeURIComponent(url.username)
        case None => None
        case Some(user) =>
          match DecodeURIComponent(url.password)
          case None => None
          case Some(pass) =>
            Some(MakeRow(id, OrStr(name, "http-" + url.hostname), "http", "raw",
              map["server" := Str(url.hostname), "port" := PortOr(url, if https then 443 else 80)],
              map["user" := Str(user), "pass" := Str(pass), "security" := Str(if https then "tls" else "none")],
              map[], map[]))
  }

  // ---------------------------------------------------------------------------------------
  // parseWireguardConf

  /** `map[section]?.[key] || ''` */
  function IniValue(m: Ini, section: string, key: string): string {
    if section in m && key in m[section] then m[section][key] else ""
  }

  /** `parseWireguardConf(text)`: a row from the `Interface` and `Peer` sections, None when
      neither exists. */
  function ParseWireguardConf(id: string, text: string): (r: Option<Row>)
    ensures r.None? <==> "Interface" !in IniSections(text) && "Peer" !in IniSections(text)
    ensures r.Some? ==> Built(r.value, id) && r.value.protocolId == "wireguard"
    ensures r.Some? ==> r.value.mainConfig == WireguardMain(IniSections(text))
  {
    var m := IniSections(text);
    if "Interface" !in m && "Peer" !in m then None
    else
      Some(MakeRow(id, "wireguard-conf", "wireguard", "raw", WireguardMain(m),
        map["mtu" := Str(IniValue(m, "Interface", "MTU")), "dns" := Str(IniValue(m, "Interface", "DNS")),
            "keepalive" := Str(IniValue(m, "Peer", "PersistentKeepalive"))],
        map[], map[]))
  }

  /** The main bucket of a `.conf` row: the interface key and address, the peer key, and the
      peer endpoint split into server and port (`''` when the port is missing or zero). */
  function WireguardMain(m: Ini): (r: Bucket)
    ensures r.Keys == {"secretKey", "address", "publicKey", "server", "port"}
  {
    var endpoint := NormalizeEndpoint(IniValue(m, "Peer", "Endpoint"));
    map["secretKey" := Str(IniValue(m, "Interface", "PrivateKey")), "address" := Str(IniValue(m, "Interface", "Address")),
        "publicKey" := Str(IniValue(m, "Peer", "PublicKey")), "server" := Str(endpoint.host),
        "port" := if Truthy(endpoint.port) then endpoint.port else Str("")]
  }

  /** The keys come from the `Interface` and `Peer` sections, the server from the endpoint. */
  lemma WireguardMainFields(m: Ini)
    ensures var r := WireguardMain(m);
      && r["secretKey"] == Str(IniValue(m, "Interface", "PrivateKey"))
      && r["address"] == Str(IniValue(m, "Interface", "Address"))
      && r["publicKey"] == Str(IniValue(m, "Peer", "PublicKey"))
      && r["server"] == Str(NormalizeEndpoint(IniValue(m, "Peer", "Endpoint")).host)
  {
  }

  /** A peer endpoint `host:port` gives the server and the numeric port; a peer without one gives
      an empty server and an empty port. */
  lemma WireguardConfEndpoint(id: string, text: string, host: string, port: nat)
    requires "Peer" in IniSections(text)
    requires host == [] || host[0] != '['
    ensures IniValue(IniSections(text), "Peer", "Endpoint") == host + ":" + NatToString(port) && port != 0 ==>
      ParseWireguardConf(id, text).value.mainConfig["server"] == Str(host)
      && ParseWireguardConf(id, text).value.mainConfig["port"] == Num(port)
    ensures IniValue(IniSections(text), "Peer", "Endpoint") == [] ==>
      ParseWireguardConf(id, text).value.mainConfig["server"] == Str("")
      && ParseWireguardConf(id, text).value.mainConfig["port"] == Str("")
  {
    var m := IniSections(text);
    if IniValue(m, "Peer", "Endpoint") == host + ":" + NatToString(port) && port != 0 {
      WireguardMainEndpoint(m, host, port);
    }
    if IniValue(m, "Peer", "Endpoint") == [] {
      WireguardMainNoEndpoint(m);
    }
  }

  lemma WireguardMainEndpoint(m: Ini, host: string, port: nat)
    requires host == [] || host[0] != '['
    requires IniValue(m, "Peer", "Endpoint") == host + ":" + NatToString(port) && port != 0
    ensures WireguardMain(m)["server"] == Str(host) && WireguardMain(m)["port"] == Num(port)
  {
    NormalizeEndpointSplit(host, port);
  }

  lemma WireguardMainNoEndpoint(m: Ini)
    requires IniValue(m, "Peer", "Endpoint") == []
    ensures WireguardMain(m)["server"] == Str("") && WireguardMain(m)["port"] == Str("")
  {
  }

  // ---------------------------------------------------------------------------------------
  // parseUri

  const SupportedSchemes: set<string> := {"vless", "vmess", "trojan", "ss", "ssr", "socks", "socks5",
    "wireguard", "wg", "hysteria2", "hy2", "hysteria", "tuic", "snell", "ssh", "anytls", "http", "https"}

  predicate IsTrailingPunctuation(c: char) {
    c == ')' || c == ',' || c == '.' || c == ';'
  }

  /** `input.replace(/[),.;]+$/, '')`: the longest run of those characters at the end goes. */
  function StripTrailingPunctuation(s: string): (r: string)
    ensures |r| <= |s| && r == s[..|r|]
    ensures r == [] || !IsTrailingPunctuation(r[|r| - 1])
    ensures forall i :: |r| <= i < |s| ==> IsTrailingPunctuation(s[i])
    decreases |s|
  {
    if s != [] && IsTrailingPunctuation(s[|s| - 1]) then StripTrailingPunctuation(s[..|s| - 1]) else s
  }

  /** `(clean.split('://')[0] || '').toLowerCase()` */
  function SchemeOf(clean: string): string {
    Lower(Split(clean, "://")[0])
  }

  /** `parseUri(input)`: the trailing punctuation is stripped, the scheme lower-cased and the
      input handed to the parser of its scheme; None for a scheme outside the supported set. */
  function ParseUri(id: string, input: string): (r: Outcome<Option<Row>>)
    ensures SchemeOf(StripTrailingPunctuation(input)) !in SupportedSchemes ==> r == Return(None)
    ensures r.Throw? ==> SchemeOf(StripTrailingPunctuation(input)) == "ss"
    ensures r.Return? && r.value.Some? ==> Built(r.value.value, id)
  {
    var clean := StripTrailingPunctuation(input);
    var scheme := SchemeOf(clean);
    if scheme !in SupportedSchemes then Return(None)
    else if scheme == "vmess" then Return(ParseVmess(id, clean))
    else if scheme == "ss" then ParseSs(id, clean)
    else if scheme == "ssr" then Return(ParseSsr(id, clean))
    else if scheme == "socks" || scheme == "socks5" then Return(ParseSocks(id, clean))
    else if scheme == "wireguard" || scheme == "wg" then Return(ParseWireguard(id, clean))
    else if scheme == "hysteria2" || scheme == "hy2" || scheme == "hysteria" then Return(ParseHysteria(id, clean, scheme))
    else if scheme == "tuic" then Return(ParseTuic(id, clean))
    else if scheme == "snell" then Return(ParseSnell(id, clean))
    else if scheme == "ssh" then Return(ParseSsh(id, clean))
    else if scheme == "http" || scheme == "https" then Return(ParseHttp(id, clean))
    else Return(ParseUrlLike(id, clean, scheme))
  }
}
