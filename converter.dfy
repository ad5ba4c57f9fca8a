/** src/core/converter.js: rows re-stamped for an engine, and rows turned into Mihomo proxies
    written as YAML text. */
module Converter {
  import opened Outcomes
  import opened JsString
  import opened JsValue
  import opened Rows
  import opened Codec

  // ---------------------------------------------------------------------------------------
  // Id tables

  /** `mapProtocolToMihomo(protocolId)`: the Mihomo proxy type of a protocol id. */
  function MapProtocolToMihomo(protocolId: string): string {
    if protocolId == "shadowsocks" then "ss"
    else if protocolId == "socks" then "socks5"
    else if protocolId == "wireguard" then "wg"
    else if protocolId == "hysteria" || protocolId == "hysteria2" then "hysteria2"
    else protocolId
  }

  /** Four ids are renamed (hysteria joining hysteria2); every other id is its own type. */
  lemma MapProtocolTable(protocolId: string)
    ensures var r := MapProtocolToMihomo(protocolId);
      && (protocolId == "shadowsocks" ==> r == "ss")
      && (protocolId == "socks" ==> r == "socks5")
      && (protocolId == "wireguard" ==> r == "wg")
      && (protocolId == "hysteria" || protocolId == "hysteria2" ==> r == "hysteria2")
      && (protocolId !in {"shadowsocks", "socks", "wireguard", "hysteria", "hysteria2"} ==> r == protocolId)
  {
  }

  /** Mapping a mapped id again changes nothing. */
  lemma MapProtocolIdempotent(protocolId: string)
    ensures MapProtocolToMihomo(MapProtocolToMihomo(protocolId)) == MapProtocolToMihomo(protocolId)
  {
  }

  /** `mapTransport(transportId = 'raw')`: the Mihomo network of a transport id. A row without a
      transport id (the empty string here) takes the default `raw`. */
  function MapTransport(transportId: string): string {
    var id := if transportId == [] then "raw" else transportId;
    if id == "raw" then "tcp" else if id == "websocket" then "ws" else id
  }

  /** raw (also the default) becomes tcp, websocket becomes ws, and every other id is its own
      network. */
  lemma MapTransportTable(transportId: string)
    ensures var r := MapTransport(transportId);
      && (transportId in {"", "raw"} ==> r == "tcp")
      && (transportId == "websocket" ==> r == "ws")
      && (transportId !in {"", "raw", "websocket"} ==> r == transportId)
  {
  }

  /** The share-link parsers' table reads every Mihomo network name back as the transport id
      it came from. */
  lemma MapTransportNormalizes(t: string)
    requires t in TransportIds
    ensures NormalizeTransport(MapTransport(t)) == t
  {
  }

  // ---------------------------------------------------------------------------------------
  // adaptRowsToEngine

  /** One row of `adaptRowsToEngine(rows, engineId)`. */
  function AdaptRow(row: Row, engineId: string): Row {
    if engineId != "mihomo" then row.(engineId := engineId)
    else row.(engineId := "mihomo", protocolId := MapProtocolToMihomo(row.protocolId))
  }

  /** `adaptRowsToEngine(rows, engineId)` */
  function AdaptRowsToEngine(rows: seq<Row>, engineId: string): (r: seq<Row>)
    ensures |r| == |rows| && forall i :: 0 <= i < |rows| ==> r[i] == AdaptRow(rows[i], engineId)
  {
    seq(|rows|, i requires 0 <= i < |rows| => AdaptRow(rows[i], engineId))
  }

  /** For every engine other than Mihomo, only the engine id changes, row by row. */
  lemma AdaptOtherEngine(rows: seq<Row>, engineId: string, i: nat)
    requires engineId != "mihomo" && i < |rows|
    ensures var r := AdaptRowsToEngine(rows, engineId)[i];
      r.engineId == engineId && r == rows[i].(engineId := engineId)
  {
  }

  /** For Mihomo, the protocol is mapped and every other field, the buckets among them, keeps
      its value. */
  lemma AdaptMihomo(rows: seq<Row>, i: nat)
    requires i < |rows|
    ensures var r := AdaptRowsToEngine(rows, "mihomo")[i];
      && r.engineId == "mihomo" && r.protocolId == MapProtocolToMihomo(rows[i].protocolId)
      && r.(engineId := rows[i].engineId, protocolId := rows[i].protocolId) == rows[i]
  {
  }

  /** Adapting twice for the same engine is adapting once. */
  lemma AdaptIdempotent(rows: seq<Row>, engineId: string)
    ensures AdaptRowsToEngine(AdaptRowsToEngine(rows, engineId), engineId) == AdaptRowsToEngine(rows, engineId)
  {
    var once := AdaptRowsToEngine(rows, engineId);
    forall i | 0 <= i < |rows|
      ensures AdaptRowsToEngine(once, engineId)[i] == once[i]
    {
      MapProtocolIdempotent(rows[i].protocolId);
    }
  }

  // ---------------------------------------------------------------------------------------
  // yaml and boolFromString

  /** `yaml(value)` for a field that may be undefined (None): a boolean or a number bare, a
      missing or empty value as `""`, any other text between double quotes with each `"`
      written `\"`. */
  function Yaml(v: Option<Value>): (r: string)
    ensures r != []
  {
    match v
    case None => "\"\""
    case Some(Bool(b)) => if b then "true" else "false"
    case Some(Num(n)) => IntToString(n)
    case Some(NaN) => "NaN"
    case Some(Str(s)) => if s == [] then "\"\"" else "\"" + EscapeQuotes(s) + "\""
  }

  /** `.replace(/"/g, '\\"')`: a backslash put before each double quote. */
  function EscapeQuotes(s: string): string {
    if s == [] then [] else (if s[0] == '"' then ['\\', '"'] else [s[0]]) + EscapeQuotes(s[1..])
  }

  /** The character a one-character escape of a YAML double-quoted scalar stands for
      (section 5.7 of YAML 1.2); None for the escapes that take hexadecimal digits and for
      invalid ones. */
  function YamlEscape(c: char): Option<char> {
    if c == '0' then Some('\0') else if c == 'a' then Some('\U{7}') else if c == 'b' then Some('\U{8}')
    else if c == 't' || c == '\t' then Some('\t') else if c == 'n' then Some('\n')
    else if c == 'v' then Some('\U{B}') else if c == 'f' then Some('\U{C}') else if c == 'r' then Some('\r')
    else if c == 'e' then Some('\U{1B}') else if c == ' ' then Some(' ') else if c == '"' then Some('"')
    else if c == '/' then Some('/') else if c == '\\' then Some('\\') else if c == 'N' then Some('\U{85}')
    else if c == '_' then Some('\U{A0}') else if c == 'L' then Some('\U{2028}') else if c == 'P' then Some('\U{2029}')
    else None
  }

  /** The text between the quotes of a double-quoted scalar, read as a YAML processor reads it
      (one line, no line folding). */
  function YamlUnescape(s: string): Option<string>
    decreases |s|
  {
    if s == [] then Some([])
    else if s[0] == '"' then None
    else if s[0] == '\\' then
      if |s| < 2 then None
      else
        var c, rest := YamlEscape(s[1]), YamlUnescape(s[2..]);
        if c.Some? && rest.Some? then Some([c.value] + rest.value) else None
    else
      var rest := YamlUnescape(s[1..]);
      if rest.Some? then Some([s[0]] + rest.value) else None
  }

  /** A double-quoted scalar as a YAML processor reads it. */
  function YamlReadQuoted(t: string): Option<string> {
    if |t| >= 2 && t[0] == '"' && t[|t| - 1] == '"' then YamlUnescape(t[1..|t| - 1]) else None
  }

  lemma UnescapePlain(c: char, t: string)
    requires c != '"' && c != '\\'
    ensures YamlUnescape([c] + t) == if YamlUnescape(t).Some? then Some([c] + YamlUnescape(t).value) else None
  {
    assert ([c] + t)[1..] == t;
  }

  lemma UnescapeEscape(c: char, t: string)
    requires YamlEscape(c).Some?
    ensures YamlUnescape(['\\', c] + t)
      == if YamlUnescape(t).Some? then Some([YamlEscape(c).value] + YamlUnescape(t).value) else None
  {
    assert (['\\', c] + t)[2..] == t;
  }

  lemma {:induction false} UnescapeQuoted(s: string)
    requires '\\' !in s
    ensures YamlUnescape(EscapeQuotes(s)) == Some(s)
  {
    if s != [] {
      UnescapeQuoted(s[1..]);
      var rest := EscapeQuotes(s[1..]);
      assert s == [s[0]] + s[1..];
      if s[0] == '"' {
        assert EscapeQuotes(s) == ['\\', '"'] + rest;
        assert YamlEscape('"') == Some('"');
        UnescapeEscape('"', rest);
      } else {
        assert EscapeQuotes(s) == [s[0]] + rest;
        UnescapePlain(s[0], rest);
      }
    }
  }

  /** Text without a backslash reads back from its scalar unchanged. */
  lemma YamlStringRoundTrip(s: string)
    requires '\\' !in s
    ensures YamlReadQuoted(Yaml(Some(Str(s)))) == Some(s)
  {
    if s != [] {
      var inner := EscapeQuotes(s);
      var t := "\"" + inner + "\"";
      assert t[1..|t| - 1] == inner;
      UnescapeQuoted(s);
    }
  }

  /** A backslash is written as it stands, so a backslash and an escape letter read back as
      the one character that escape stands for: the two characters `\n`, say, come back as a
      line feed. */
  lemma YamlBackslashQuirk(c: char)
    requires c != '"' && YamlEscape(c).Some?
    ensures Yaml(Some(Str(['\\', c]))) == "\"" + ['\\', c] + "\""
    ensures YamlReadQuoted(Yaml(Some(Str(['\\', c])))) == Some([YamlEscape(c).value])
    ensures YamlReadQuoted(Yaml(Some(Str(['\\', c])))) != Some(['\\', c])
  {
    var u := ['\\', c];
    assert EscapeQuotes(u) == u by {
      assert u[1..] == [c] && [c][1..] == [];
      assert EscapeQuotes([c]) == [c] + EscapeQuotes([]);
    }
    var t := "\"" + u + "\"";
    assert t[1..|t| - 1] == u;
    assert u == u + [];
    UnescapeEscape(c, []);
    assert YamlUnescape([]) == Some([]);
    assert [YamlEscape(c).value] + [] == [YamlEscape(c).value];
    assert Yaml(Some(Str(u))) == t;
  }

  /** `boolFromString(v)`: `String(v || '')` lower-cased is `1` or `true`. */
  function BoolFromString(v: Option<Value>): bool {
    var text := Lower(if Present(v) then ToStr(v.value) else "");
    text == "1" || text == "true"
  }

  /** A text is true exactly when it is `1` or, in any case, `true`; the empty text is false. */
  lemma BoolFromStringText(s: string)
    ensures BoolFromString(Some(Str(s))) <==> Lower(s) == "true" || s == "1"
  {
    if s != [] && Lower(s) == "1" {
      assert LowerChar(s[0]) == '1';
      assert s == [s[0]];
    }
  }

  /** A number is true exactly when it is 1. */
  lemma BoolFromStringNumber(n: int)
    ensures BoolFromString(Some(Num(n))) <==> n == 1
  {
    if n < 0 {
      assert Lower(IntToString(n))[0] == '-';
    } else if n >= 10 {
      var t := NatToString(n);
      assert |t| >= 2 && IsAsciiDigit(t[0]);
      assert Lower(t)[0] == t[0];
    } else if n > 0 {
      assert NatToString(n) == [DigitChar(n)];
      assert Lower([DigitChar(n)]) == [DigitChar(n)];
    }
  }

  /** A boolean is itself; `undefined` and `NaN` are false. */
  lemma BoolFromStringOther(v: Option<Value>)
    requires v.None? || v.value.Bool? || v.value.NaN?
    ensures BoolFromString(v) <==> v == Some(Bool(true))
  {
    assert Lower("true") == "true";
    assert Lower("") == "";
  }

  // ---------------------------------------------------------------------------------------
  // convertRowToMihomoProxy

  /** The properties a proxy object can have. */
  datatype Key =
    | Name | Type | Server | Port | Sni | Alpn | SkipCertVerify
    | Uuid | Cipher | Tls | Network | WsPath | WsHost | GrpcServiceName | RealityPublicKey | RealityShortId
    | ClientFingerprint | Password | Username | Protocol | Obfs | ProtocolParam | ObfsParam | Psk | Version
    | User | PrivateKey | PublicKey | Ip

  /** The property name as the proxy object spells it. */
  function KeyText(k: Key): string {
    match k
    case Name => "name" case Type => "type" case Server => "server" case Port => "port" case Sni => "sni"
    case Alpn => "alpn" case SkipCertVerify => "skip-cert-verify" case Uuid => "uuid" case Cipher => "cipher"
    case Tls => "tls" case Network => "network" case WsPath => "ws-opts.path" case WsHost => "ws-opts.headers.Host"
    case GrpcServiceName => "grpc-opts.grpc-service-name" case RealityPublicKey => "reality-opts.public-key"
    case RealityShortId => "reality-opts.short-id" case ClientFingerprint => "client-fingerprint"
    case Password => "password" case Username => "username" case Protocol => "protocol" case Obfs => "obfs"
    case ProtocolParam => "protocol-param" case ObfsParam => "obfs-param" case Psk => "psk"
    case Version => "version" case User => "user" case PrivateKey => "private-key" case PublicKey => "public-key"
    case Ip => "ip"
  }

  /** The entries of an object literal as written, spreads expanded: `{ ...common, k: v }` is
      the entries of `common` followed by `(k, v)`. None stands for `undefined`. */
  type Entries = seq<(Key, Option<Value>)>

  /** The object's keys in the order `Object.entries` yields them: a key's first entry fixes its
      place. */
  function Keys(e: Entries): seq<Key>
    decreases |e|
  {
    if e == [] then []
    else
      var ks := Keys(e[..|e| - 1]);
      var k := e[|e| - 1].0;
      if k in ks then ks else ks + [k]
  }

  /** Each key once, and exactly the keys that have an entry. */
  lemma {:induction false} KeysExact(e: Entries)
    ensures forall i, j :: 0 <= i < j < |Keys(e)| ==> Keys(e)[i] != Keys(e)[j]
    ensures forall k :: k in Keys(e) <==> exists i :: 0 <= i < |e| && e[i].0 == k
    decreases |e|
  {
    if e != [] {
      var init := e[..|e| - 1];
      KeysExact(init);
      var ks := Keys(init);
      var k := e[|e| - 1].0;
      assert forall x :: (exists i :: 0 <= i < |e| && e[i].0 == x) ==> x in ks || x == k by {
        forall x | exists i :: 0 <= i < |e| && e[i].0 == x
          ensures x in ks || x == k
        {
          var i :| 0 <= i < |e| && e[i].0 == x;
          if i < |e| - 1 { assert init[i].0 == x; }
        }
      }
      assert forall x :: x in ks ==> exists i :: 0 <= i < |e| && e[i].0 == x by {
        forall x | x in ks
          ensures exists i :: 0 <= i < |e| && e[i].0 == x
        {
          var i :| 0 <= i < |init| && init[i].0 == x;
          assert e[i].0 == x;
        }
      }
    }
  }

  /** `object[key]`: the value of the key's last entry; None when there is none. */
  function Lookup(e: Entries, key: Key): Option<Value>
    decreases |e|
  {
    if e == [] then None
    else if e[|e| - 1].0 == key then e[|e| - 1].1
    else Lookup(e[..|e| - 1], key)
  }

  /** An entry that no later entry overrides gives the key its value. */
  lemma {:induction false} LookupLast(e: Entries, i: nat)
    requires i < |e| && forall j :: i < j < |e| ==> e[j].0 != e[i].0
    ensures e[i].0 in Keys(e) && Lookup(e, e[i].0) == e[i].1
    decreases |e|
  {
    KeysExact(e);
    if i < |e| - 1 {
      var init := e[..|e| - 1];
      assert init[i] == e[i];
      LookupLast(init, i);
    }
  }

  /** A key without an entry is not a key of the object, and reads as `undefined`. */
  lemma {:induction false} LookupMissing(e: Entries, key: Key)
    requires forall j :: 0 <= j < |e| ==> e[j].0 != key
    ensures key !in Keys(e) && Lookup(e, key) == None
    decreases |e|
  {
    KeysExact(e);
    if e != [] {
      var init := e[..|e| - 1];
      assert forall j :: 0 <= j < |init| ==> init[j] == e[j];
      LookupMissing(init, key);
    }
  }

  /** Entries added after an object leave the order of its keys in place. */
  lemma {:induction false} KeysPrefix(a: Entries, b: Entries)
    ensures |Keys(a)| <= |Keys(a + b)| && Keys(a + b)[..|Keys(a)|] == Keys(a)
    decreases |b|
  {
    if b != [] {
      var init := b[..|b| - 1];
      var k := b[|b| - 1].0;
      assert (a + b)[..|a + b| - 1] == a + init;
      assert (a + b)[|a + b| - 1].0 == k;
      KeysPrefix(a, init);
      var ks := Keys(a + init);
      assert Keys(a + b) == if k in ks then ks else ks + [k];
      assert (ks + [k])[..|Keys(a)|] == ks[..|Keys(a)|];
    } else {
      assert a + b == a;
    }
  }

  lemma KeysTwo(x: (Key, Option<Value>), y: (Key, Option<Value>))
    requires x.0 != y.0
    ensures Keys([x, y]) == [x.0, y.0]
  {
    assert [x, y][..1] == [x];
    assert Keys([x]) == [x.0] by {
      assert [x][..0] == [];
    }
  }

  /** A later object's entry that nothing after it overrides wins over the earlier object. */
  lemma LookupSecond(a: Entries, b: Entries, i: nat)
    requires i < |b| && forall j :: i < j < |b| ==> b[j].0 != b[i].0
    ensures b[i].0 in Keys(a + b) && Lookup(a + b, b[i].0) == b[i].1
  {
    var e := a + b;
    assert e[|a| + i] == b[i];
    assert forall j :: |a| + i < j < |e| ==> e[j] == b[j - |a|];
    LookupLast(e, |a| + i);
  }

  /** An earlier object's entry that nothing after it overrides keeps its value. */
  lemma LookupFirst(a: Entries, b: Entries, i: nat)
    requires i < |a| && forall j :: i < j < |a| ==> a[j].0 != a[i].0
    requires forall j :: 0 <= j < |b| ==> b[j].0 != a[i].0
    ensures a[i].0 in Keys(a + b) && Lookup(a + b, a[i].0) == a[i].1
  {
    var e := a + b;
    assert forall j :: |a| <= j < |e| ==> e[j] == b[j - |a|];
    LookupLast(e, i);
  }

  /** `row.mainConfig?.server || ''` */
  function ServerOf(row: Row): Value {
    Or(Field(row.mainConfig, "server"), Str(""))
  }

  /** `Number(row.mainConfig?.port || 0) || undefined` */
  function PortOf(row: Row): Option<Value> {
    var n := ToNumber(Or(Field(row.mainConfig, "port"), Num(0)));
    if n.Num? && n.n != 0 then Some(n) else None
  }

  /** `row.name || `${type}-${server}`` */
  function NameOf(row: Row, proxyType: string): string {
    OrStr(row.name, proxyType + "-" + ToStr(ServerOf(row)))
  }

  /** `security === 'tls' || security === 'reality'` with `security` defaulting to `none`. */
  predicate TlsOn(row: Row) {
    var security := Or(Field(row.optionalConfig, "security"), Str("none"));
    security == Str("tls") || security == Str("reality")
  }

  /** The keys of `common`, in order. */
  const CommonKeys: seq<Key> := [Name, Type, Server, Port, Sni, Alpn, SkipCertVerify]

  /** The fields every proxy starts with, `common` in the source. */
  function Common(row: Row, proxyType: string): (r: Entries)
    ensures |r| == 7 && forall i :: 0 <= i < 7 ==> r[i].0 == CommonKeys[i]
  {
    var o := row.optionalConfig;
    [(Name, Some(Str(NameOf(row, proxyType)))), (Type, Some(Str(proxyType))), (Server, Some(ServerOf(row))),
     (Port, PortOf(row)), (Sni, Field(o, "sni")), (Alpn, Field(o, "alpn")),
     (SkipCertVerify, Some(Bool(BoolFromString(Field(o, "allowInsecure")))))]
  }

  /** The cases of the `switch (type)` that adds per-type fields; Bare for every other type,
      which keeps only the common fields. */
  datatype Kind = Vless | Vmess | Trojan | Ss | Socks5 | Http | Hysteria2 | Anytls | Ssr | Snell | Tuic | Ssh | Wg | Bare

  /** The type name of each case. */
  function KindName(kind: Kind): string {
    match kind
    case Vless => "vless" case Vmess => "vmess" case Trojan => "trojan" case Ss => "ss" case Socks5 => "socks5"
    case Http => "http" case Hysteria2 => "hysteria2" case Anytls => "anytls" case Ssr => "ssr"
    case Snell => "snell" case Tuic => "tuic" case Ssh => "ssh" case Wg => "wg" case Bare => ""
  }

  /** The case a proxy type selects. */
  function KindOf(proxyType: string): Kind {
    if proxyType == "vless" then Vless else if proxyType == "vmess" then Vmess
    else if proxyType == "trojan" then Trojan else if proxyType == "ss" then Ss
    else if proxyType == "socks5" then Socks5 else if proxyType == "http" then Http
    else if proxyType == "hysteria2" then Hysteria2 else if proxyType == "anytls" then Anytls
    else if proxyType == "ssr" then Ssr else if proxyType == "snell" then Snell
    else if proxyType == "tuic" then Tuic else if proxyType == "ssh" then Ssh
    else if proxyType == "wg" then Wg else Bare
  }

  /** A type selects the case of its own name, and only the thirteen names of the switch
      select a case other than Bare. */
  lemma KindOfNames(proxyType: string)
    ensures KindOf(proxyType) != Bare ==> KindName(KindOf(proxyType)) == proxyType
    ensures KindOf(proxyType) == Bare <==> forall k :: k != Bare ==> KindName(k) != proxyType
  {
    if KindOf(proxyType) == Bare {
      forall k | k != Bare
        ensures KindName(k) != proxyType
      {
      }
    }
  }

  /** The cases that write `tls` from the row's security. */
  const TlsKinds: set<Kind> := {Vless, Vmess, Trojan, Socks5, Http, Hysteria2}

  /** Whether a per-type object may set the key: everything but the common keys other than
      `sni` and `alpn`. */
  predicate ExtraKey(k: Key) {
    !(k.Name? || k.Type? || k.Server? || k.Port? || k.SkipCertVerify?)
  }

  /** The per-type entries that follow the common ones. */
  function Extras(row: Row, kind: Kind): (r: Entries)
    ensures forall i :: 0 <= i < |r| ==> ExtraKey(r[i].0)
    ensures kind !in TlsKinds && kind != Anytls ==> forall i :: 0 <= i < |r| ==> r[i].0 != Tls
  {
    match kind
    case Vless | Vmess => VlessExtras(row)
    case Trojan => TrojanExtras(row)
    case Ss => SsExtras(row)
    case Socks5 | Http => SocksExtras(row)
    case Hysteria2 => Hysteria2Extras(row)
    case Anytls => AnytlsExtras(row)
    case Ssr => SsrExtras(row)
    case Snell => SnellExtras(row)
    case Tuic => TuicExtras(row)
    case Ssh => SshExtras(row)
    case Wg => WgExtras(row)
    case Bare => []
  }

  function VlessExtras(row: Row): (r: Entries)
    ensures forall i :: 0 <= i < |r| ==> ExtraKey(r[i].0)
  {
    var o := row.optionalConfig;
    [(Uuid, Field(row.mainConfig, "id")), (Cipher, Some(Or(Field(o, "scy"), Str("auto")))), (Tls, Some(Bool(TlsOn(row)))),
     (Network, Some(Str(MapTransport(row.transportId)))), (WsPath, Field(row.transportMain, "path")),
     (WsHost, OrField(Field(row.transportOptional, "host"), Field(o, "host"))),
     (GrpcServiceName, Field(row.transportMain, "serviceName")), (RealityPublicKey, Field(o, "pbk")),
     (RealityShortId, Field(o, "sid")), (ClientFingerprint, Field(o, "fp"))]
  }

  function TrojanExtras(row: Row): (r: Entries)
    ensures forall i :: 0 <= i < |r| ==> ExtraKey(r[i].0)
  {
    [(Password, Field(row.mainConfig, "password")), (Tls, Some(Bool(TlsOn(row)))),
     (Network, Some(Str(MapTransport(row.transportId)))), (WsPath, Field(row.transportMain, "path")),
     (GrpcServiceName, Field(row.transportMain, "serviceName")), (ClientFingerprint, Field(row.optionalConfig, "fp"))]
  }

  function SsExtras(row: Row): (r: Entries)
    ensures forall i :: 0 <= i < |r| ==> ExtraKey(r[i].0)
  {
    [(Cipher, Field(row.mainConfig, "method")), (Password, Field(row.mainConfig, "password"))]
  }

  /** socks5 and http write the same fields. */
  function SocksExtras(row: Row): (r: Entries)
    ensures forall i :: 0 <= i < |r| ==> ExtraKey(r[i].0)
  {
    [(Username, Field(row.optionalConfig, "user")), (Password, Field(row.optionalConfig, "pass")), (Tls, Some(Bool(TlsOn(row))))]
  }

  function Hysteria2Extras(row: Row): (r: Entries)
    ensures forall i :: 0 <= i < |r| ==> ExtraKey(r[i].0)
  {
    [(Password, Field(row.mainConfig, "auth")), (Tls, Some(Bool(TlsOn(row)))), (Sni, Field(row.optionalConfig, "sni"))]
  }

  function AnytlsExtras(row: Row): (r: Entries)
    ensures forall i :: 0 <= i < |r| ==> ExtraKey(r[i].0)
  {
    var o := row.optionalConfig;
    [(Password, Field(row.mainConfig, "password")), (Tls, Some(Bool(true))),
     (ClientFingerprint, OrField(Field(o, "fp"), Field(o, "fingerprint")))]
  }

  function SsrExtras(row: Row): (r: Entries)
    ensures forall i :: 0 <= i < |r| ==> ExtraKey(r[i].0)
  {
    var m, o := row.mainConfig, row.optionalConfig;
    [(Cipher, Field(m, "method")), (Password, Field(m, "password")), (Protocol, Field(o, "protocol")),
     (Obfs, Field(o, "obfs")), (ProtocolParam, Field(o, "protocol-param")), (ObfsParam, Field(o, "obfs-param"))]
  }

  function SnellExtras(row: Row): (r: Entries)
    ensures forall i :: 0 <= i < |r| ==> ExtraKey(r[i].0)
  {
    [(Psk, Field(row.mainConfig, "password")), (Version, Some(Or(Field(row.optionalConfig, "version"), Str("2"))))]
  }

  function TuicExtras(row: Row): (r: Entries)
    ensures forall i :: 0 <= i < |r| ==> ExtraKey(r[i].0)
  {
    var m, o := row.mainConfig, row.optionalConfig;
    [(Uuid, Field(m, "id")), (Password, Field(m, "password")), (Sni, Field(o, "sni")), (Alpn, Field(o, "alpn"))]
  }

  function SshExtras(row: Row): (r: Entries)
    ensures forall i :: 0 <= i < |r| ==> ExtraKey(r[i].0)
  {
    var m := row.mainConfig;
    [(User, Field(m, "user")), (Username, Field(m, "user")), (Password, Field(m, "password"))]
  }

  function WgExtras(row: Row): (r: Entries)
    ensures forall i :: 0 <= i < |r| ==> ExtraKey(r[i].0)
  {
    var m := row.mainConfig;
    [(PrivateKey, Field(m, "secretKey")), (PublicKey, Field(m, "publicKey")), (Ip, Field(m, "address"))]
  }

  /** The Mihomo type of a row. */
  function TypeOf(row: Row): string {
    MapProtocolToMihomo(row.protocolId)
  }

  /** `convertRowToMihomoProxy(row)`: `{ ...common, ...per-type fields }`. */
  function ConvertRowToMihomoProxy(row: Row): Entries {
    Common(row, TypeOf(row)) + Extras(row, KindOf(TypeOf(row)))
  }

  /** Entries that start with `name` and `type` give an object whose first keys are those. */
  lemma KeysStartWithNameType(c: Entries, x: Entries)
    requires |c| >= 2 && c[0].0 == Name && c[1].0 == Type
    ensures |Keys(c + x)| >= 2 && Keys(c + x)[..2] == [Name, Type]
  {
    var e := c + x;
    var front := c[..2];
    assert front == [c[0], c[1]];
    KeysTwo(c[0], c[1]);
    assert e == front + e[2..];
    KeysPrefix(front, e[2..]);
  }

  /** The proxy's keys start with `name` and `type`, whatever the type adds. */
  lemma ConvertKeysStart(row: Row)
    ensures var e := ConvertRowToMihomoProxy(row);
      |Keys(e)| >= 2 && Keys(e)[..2] == [Name, Type]
  {
    KeysStartWithNameType(Common(row, TypeOf(row)), Extras(row, KindOf(TypeOf(row))));
  }

  // ---------------------------------------------------------------------------------------
  // Properties of the conversion

  /** The common entries other than `sni` and `alpn` are never overridden. */
  lemma CommonValue(row: Row, i: nat)
    requires i < 7 && i != 4 && i != 5
    ensures var c := Common(row, TypeOf(row));
      Lookup(ConvertRowToMihomoProxy(row), c[i].0) == c[i].1
  {
    var c := Common(row, TypeOf(row));
    LookupFirst(c, Extras(row, KindOf(TypeOf(row))), i);
  }

  /** The proxy's name is the row's, or `type-server` for a row without one; never empty. Its
      type is the mapped protocol. */
  lemma ConvertName(row: Row)
    ensures var e := ConvertRowToMihomoProxy(row);
      && Lookup(e, Name) == Some(Str(NameOf(row, TypeOf(row)))) && NameOf(row, TypeOf(row)) != []
      && (row.name != [] ==> NameOf(row, TypeOf(row)) == row.name)
  {
    CommonValue(row, 0);
  }

  lemma ConvertType(row: Row)
    ensures Lookup(ConvertRowToMihomoProxy(row), Type) == Some(Str(MapProtocolToMihomo(row.protocolId)))
  {
    CommonValue(row, 1);
  }

  /** `port` is the non-zero number the port field converts to, and undefined (so left out of
      the YAML) for a missing, zero or non-numeric port. */
  lemma ConvertPort(row: Row)
    ensures Lookup(ConvertRowToMihomoProxy(row), Port) == PortOf(row)
  {
    CommonValue(row, 3);
  }

  /** The port is dropped when missing, zero or not a number, and a port written in decimal
      digits is its number. */
  lemma PortOfCases(row: Row)
    ensures var n := ToNumber(Or(Field(row.mainConfig, "port"), Num(0)));
      && (PortOf(row).None? <==> !(n.Num? && n.n != 0))
      && (!Present(Field(row.mainConfig, "port")) ==> PortOf(row).None?)
      && (forall p: nat :: p > 0 && Field(row.mainConfig, "port") == Some(Str(NatToString(p))) ==> PortOf(row) == Some(Num(p)))
  {
    forall p: nat | p > 0 && Field(row.mainConfig, "port") == Some(Str(NatToString(p)))
      ensures PortOf(row) == Some(Num(p))
    {
      NumberOfNat(p);
    }
  }

  /** `skip-cert-verify` is true exactly when `allowInsecure` lower-cases to `1` or `true`. */
  lemma ConvertSkipCertVerify(row: Row)
    ensures var v := Field(row.optionalConfig, "allowInsecure");
      Lookup(ConvertRowToMihomoProxy(row), SkipCertVerify)
        == Some(Bool(Present(v) && Lower(ToStr(v.value)) in {"1", "true"}))
  {
    CommonValue(row, 6);
  }

  /** Entries added after a per-type object that writes `tls` from the security leave it. */
  lemma ExtrasTls(row: Row, c: Entries, kind: Kind)
    requires kind in TlsKinds
    ensures var e := c + Extras(row, kind);
      Tls in Keys(e) && Lookup(e, Tls) == Some(Bool(TlsOn(row)))
  {
    var x := Extras(row, kind);
    if kind == Vless || kind == Vmess {
      TlsInExtras(c, x, 2, TlsOn(row));
    } else if kind == Socks5 || kind == Http {
      TlsInExtras(c, x, 2, TlsOn(row));
    } else {
      TlsInExtras(c, x, 1, TlsOn(row));
    }
  }

  lemma TlsInExtras(c: Entries, x: Entries, i: nat, on: bool)
    requires i < |x| && x[i] == (Tls, Some(Bool(on))) && forall j :: i < j < |x| ==> x[j].0 != Tls
    ensures Tls in Keys(c + x) && Lookup(c + x, Tls) == Some(Bool(on))
  {
    LookupSecond(c, x, i);
  }

  lemma ExtrasNoTls(row: Row, c: Entries, kind: Kind)
    requires forall j :: 0 <= j < |c| ==> c[j].0 != Tls
    requires kind !in TlsKinds && kind != Anytls
    ensures var e := c + Extras(row, kind);
      Tls !in Keys(e) && Lookup(e, Tls) == None
  {
    var x := Extras(row, kind);
    var e: Entries := c + x;
    assert forall j :: 0 <= j < |e| ==> e[j].0 != Tls by {
      forall j | 0 <= j < |e|
        ensures e[j].0 != Tls
      {
        if j >= |c| { assert e[j] == x[j - |c|]; }
      }
    }
    LookupMissing(e, Tls);
  }

  /** vless, vmess, trojan, socks5, http and hysteria2 write `tls` true exactly when
      `security` is `tls` or `reality`. */
  lemma ConvertTlsFromSecurity(row: Row)
    requires KindOf(TypeOf(row)) in TlsKinds
    ensures var e := ConvertRowToMihomoProxy(row);
      var security := Field(row.optionalConfig, "security");
      Tls in Keys(e) && Lookup(e, Tls) == Some(Bool(security == Some(Str("tls")) || security == Some(Str("reality"))))
  {
    ExtrasTls(row, Common(row, TypeOf(row)), KindOf(TypeOf(row)));
  }

  /** anytls always writes `tls` true. */
  lemma ConvertTlsAnytls(row: Row)
    requires TypeOf(row) == "anytls"
    ensures var e := ConvertRowToMihomoProxy(row);
      Tls in Keys(e) && Lookup(e, Tls) == Some(Bool(true))
  {
    var c := Common(row, "anytls");
    assert ConvertRowToMihomoProxy(row) == c + AnytlsExtras(row);
    LookupSecond(c, AnytlsExtras(row), 1);
  }

  /** Every other type writes no `tls`. */
  lemma ConvertTlsAbsent(row: Row)
    requires KindOf(TypeOf(row)) !in TlsKinds && KindOf(TypeOf(row)) != Anytls
    ensures var e := ConvertRowToMihomoProxy(row);
      Tls !in Keys(e) && Lookup(e, Tls) == None
  {
    var c := Common(row, TypeOf(row));
    assert forall j :: 0 <= j < |c| ==> c[j].0 != Tls;
    ExtrasNoTls(row, c, KindOf(TypeOf(row)));
  }

  /** A shadowsocks row becomes type `ss` with the cipher from `method` and the password from
      `password`. */
  lemma ConvertShadowsocks(row: Row)
    requires row.protocolId == "shadowsocks"
    ensures var e := ConvertRowToMihomoProxy(row);
      && Lookup(e, Cipher) == Field(row.mainConfig, "method")
      && Lookup(e, Password) == Field(row.mainConfig, "password")
  {
    var c := Common(row, "ss");
    assert ConvertRowToMihomoProxy(row) == c + SsExtras(row);
    LookupSecond(c, SsExtras(row), 0);
    LookupSecond(c, SsExtras(row), 1);
  }

  /** A snell row's `version` defaults to `2`. */
  lemma ConvertSnellVersion(row: Row)
    requires row.protocolId == "snell"
    ensures var v := Field(row.optionalConfig, "version");
      Lookup(ConvertRowToMihomoProxy(row), Version) == Some(if Present(v) then v.value else Str("2"))
  {
    var c := Common(row, "snell");
    assert ConvertRowToMihomoProxy(row) == c + SnellExtras(row);
    LookupSecond(c, SnellExtras(row), 1);
  }


  // ---------------------------------------------------------------------------------------
  // toMihomoYaml

  /** A field that gets a line: not `name` or `type`, and neither `''` nor undefined. */
  predicate Written(key: Key, value: Option<Value>) {
    key != Name && key != Type && value != None && value != Some(Str(""))
  }

  function EntryLine(key: Key, value: Option<Value>): string {
    "    " + KeyText(key) + ": " + Yaml(value)
  }

  /** The lines of the fields under `keys`, in order. */
  function EntryLines(e: Entries, keys: seq<Key>): seq<string> {
    if keys == [] then []
    else
      var k := keys[|keys| - 1];
      var init := EntryLines(e, keys[..|keys| - 1]);
      if Written(k, Lookup(e, k)) then init + [EntryLine(k, Lookup(e, k))] else init
  }

  lemma Associative(a: seq<string>, b: seq<string>, c: seq<string>)
    ensures a + b + c == a + (b + c)
  {
  }

  lemma EntryLinesNext(e: Entries, keys: seq<Key>, j: nat)
    requires j < |keys|
    ensures EntryLines(e, keys[..j + 1])
      == if Written(keys[j], Lookup(e, keys[j])) then EntryLines(e, keys[..j]) + [EntryLine(keys[j], Lookup(e, keys[j]))]
         else EntryLines(e, keys[..j])
  {
    assert keys[..j + 1][..j] == keys[..j];
  }

  /** The name written for a proxy without one. */
  const DefaultName := "proxy"

  /** `proxy.name || 'proxy'` */
  function NameOrProxy(e: Entries): Option<Value> {
    if Present(Lookup(e, Name)) then Lookup(e, Name) else Some(Str(DefaultName))
  }

  /** The name line, the type line and the field lines of one proxy. */
  function ProxyLines(e: Entries): seq<string> {
    ["  - name: " + Yaml(NameOrProxy(e)), "    type: " + Yaml(Lookup(e, Type))] + EntryLines(e, Keys(e))
  }

  /** `rows.map(convertRowToMihomoProxy)`; no proxy is falsy, so `filter(Boolean)` keeps all. */
  function ConvertAll(rows: seq<Row>): (proxies: seq<Entries>)
    ensures |proxies| == |rows| && forall i :: 0 <= i < |rows| ==> proxies[i] == ConvertRowToMihomoProxy(rows[i])
  {
    seq(|rows|, i requires 0 <= i < |rows| => ConvertRowToMihomoProxy(rows[i]))
  }

  /** One block of lines per proxy. */
  function Blocks(proxies: seq<Entries>): (r: seq<seq<string>>)
    ensures |r| == |proxies| && forall i :: 0 <= i < |proxies| ==> r[i] == ProxyLines(proxies[i])
  {
    seq(|proxies|, i requires 0 <= i < |proxies| => ProxyLines(proxies[i]))
  }

  /** The blocks one after the other. */
  function Flatten(blocks: seq<seq<string>>): seq<string> {
    if blocks == [] then [] else Flatten(blocks[..|blocks| - 1]) + blocks[|blocks| - 1]
  }

  lemma FlattenNext(blocks: seq<seq<string>>, i: nat)
    requires i < |blocks|
    ensures Flatten(blocks[..i + 1]) == Flatten(blocks[..i]) + blocks[i]
  {
    assert blocks[..i + 1][..i] == blocks[..i];
  }

  lemma BlocksPrefix(proxies: seq<Entries>, i: nat)
    requires i <= |proxies|
    ensures Blocks(proxies[..i]) == Blocks(proxies)[..i]
  {
  }

  /** The lines of `toMihomoYaml(rows)` before they are joined. */
  function YamlLines(rows: seq<Row>): seq<string> {
    ["proxies:"] + Flatten(Blocks(ConvertAll(rows)))
  }

  /** `toMihomoYaml(rows)`, as a value. */
  function MihomoYaml(rows: seq<Row>): string {
    Join(YamlLines(rows), "\n")
  }

  /** `toMihomoYaml(rows)`: the rows converted, then written out. */
  method ToMihomoYaml(rows: seq<Row>) returns (text: string)
    ensures text == MihomoYaml(rows)
  {
    var proxies := ConvertAll(rows);
    text := WriteProxies(proxies);
  }

  /** The loop of `toMihomoYaml`: each proxy's lines pushed after `proxies:`, then all joined
      with line feeds. */
  method WriteProxies(proxies: seq<Entries>) returns (text: string)
    ensures text == Join(["proxies:"] + Flatten(Blocks(proxies)), "\n")
  {
    ghost var blocks := Blocks(proxies);
    var lines := ["proxies:"];
    for i := 0 to |proxies|
      invariant lines == ["proxies:"] + Flatten(blocks[..i])
    {
      var block := WriteProxy(proxies[i]);
      FlattenNext(blocks, i);
      Associative(["proxies:"], Flatten(blocks[..i]), block);
      lines := lines + block;
    }
    assert blocks[..|proxies|] == blocks;
    text := Join(lines, "\n");
  }

  /** The body of that loop: the name line, the type line, then the proxy's entries. */
  method WriteProxy(proxy: Entries) returns (lines: seq<string>)
    ensures lines == ProxyLines(proxy)
  {
    var name := Lookup(proxy, Name);
    lines := ["  - name: " + Yaml(if Present(name) then name else Some(Str(DefaultName)))];
    lines := lines + ["    type: " + Yaml(Lookup(proxy, Type))];
    lines := WriteEntries(proxy, lines);
  }

  /** The inner loop: for each entry of `Object.entries(proxy)` that is neither `name`,
      `type`, `''` nor undefined, a line pushed onto `lines`. */
  method WriteEntries(proxy: Entries, start: seq<string>) returns (lines: seq<string>)
    ensures lines == start + EntryLines(proxy, Keys(proxy))
  {
    lines := start;
    var keys := Keys(proxy);
    for j := 0 to |keys|
      invariant lines == start + EntryLines(proxy, keys[..j])
    {
      var key := keys[j];
      var value := Lookup(proxy, key);
      EntryLinesNext(proxy, keys, j);
      if key != Name && key != Type && value != None && value != Some(Str("")) {
        Associative(start, EntryLines(proxy, keys[..j]), [EntryLine(key, value)]);
        lines := lines + [EntryLine(key, value)];
      }
    }
    assert keys[..|keys|] == keys;
  }

  // ---------------------------------------------------------------------------------------
  // Properties of the layout

  /** The keys among `keys` that get a line, in order. */
  function WrittenKeys(e: Entries, keys: seq<Key>): seq<Key> {
    if keys == [] then []
    else
      var k := keys[|keys| - 1];
      var init := WrittenKeys(e, keys[..|keys| - 1]);
      if Written(k, Lookup(e, k)) then init + [k] else init
  }

  /** A key is written exactly when it is among the keys and its value is neither `''` nor
      undefined (and it is not `name` or `type`). */
  lemma {:induction false} WrittenKeysExact(e: Entries, keys: seq<Key>)
    ensures forall k :: k in WrittenKeys(e, keys) <==> k in keys && Written(k, Lookup(e, k))
  {
    if keys != [] {
      var init := keys[..|keys| - 1];
      WrittenKeysExact(e, init);
      assert keys == init + [keys[|keys| - 1]];
    }
  }

  /** The field lines are the lines of the written keys, one each, in the keys' order. */
  lemma {:induction false} EntryLinesOfWritten(e: Entries, keys: seq<Key>)
    ensures var ws := WrittenKeys(e, keys);
      |EntryLines(e, keys)| == |ws| && forall i :: 0 <= i < |ws| ==> EntryLines(e, keys)[i] == EntryLine(ws[i], Lookup(e, ws[i]))
  {
    if keys != [] {
      EntryLinesOfWritten(e, keys[..|keys| - 1]);
    }
  }

  /** A converted row is named by its own name (or `type-server`), never `proxy`, and typed
      by its Mihomo type. */
  lemma ProxyBlock(row: Row)
    ensures var e := ConvertRowToMihomoProxy(row);
      && NameOrProxy(e) == Some(Str(NameOf(row, TypeOf(row))))
      && Lookup(e, Type) == Some(Str(TypeOf(row)))
  {
    ConvertName(row);
    ConvertType(row);
  }

  /** Block `i` follows the blocks before it. */
  lemma {:induction false} FlattenInOrder(blocks: seq<seq<string>>, i: nat)
    requires i < |blocks|
    ensures var lo := |Flatten(blocks[..i])|;
      lo + |blocks[i]| <= |Flatten(blocks)| && Flatten(blocks)[lo..lo + |blocks[i]|] == blocks[i]
    decreases |blocks|
  {
    var init := blocks[..|blocks| - 1];
    var front := Flatten(init);
    var last := blocks[|blocks| - 1];
    assert Flatten(blocks) == front + last;
    if i == |blocks| - 1 {
      assert init == blocks[..i];
      assert (front + last)[|front|..|front| + |last|] == last;
    } else {
      FlattenInOrder(init, i);
      assert init[..i] == blocks[..i] && init[i] == blocks[i];
      var lo := |Flatten(blocks[..i])|;
      assert (front + last)[lo..lo + |blocks[i]|] == front[lo..lo + |blocks[i]|];
    }
  }

  /** The text's lines are `proxies:` and then the blocks, block `i` after the blocks before
      it; `toMihomoYaml` writes the blocks `Blocks(ConvertAll(rows))`, one per row. */
  lemma MihomoYamlBlocks(blocks: seq<seq<string>>, i: nat)
    requires i < |blocks|
    ensures var lines := ["proxies:"] + Flatten(blocks);
      var start := 1 + |Flatten(blocks[..i])|;
      && lines[0] == "proxies:"
      && start + |blocks[i]| <= |lines| && lines[start..start + |blocks[i]|] == blocks[i]
  {
    FlattenInOrder(blocks, i);
    var f := Flatten(blocks);
    var lo := |Flatten(blocks[..i])|;
    assert (["proxies:"] + f)[1 + lo..1 + lo + |blocks[i]|] == f[lo..lo + |blocks[i]|];
  }

  /** One more proxy adds exactly its own block at the end of the lines. */
  lemma FlattenBlocksAppend(proxies: seq<Entries>, e: Entries)
    ensures Flatten(Blocks(proxies + [e])) == Flatten(Blocks(proxies)) + ProxyLines(e)
  {
    var all := Blocks(proxies + [e]);
    assert all == Blocks(proxies) + [ProxyLines(e)];
    assert all[..|all| - 1] == Blocks(proxies);
  }

  /** No rows give the header line alone; one more row adds exactly its own block at the end.
      So `filter(Boolean)` drops no proxy: every row yields one block, in row order. */
  lemma MihomoYamlAppend(rows: seq<Row>, row: Row)
    ensures YamlLines([]) == ["proxies:"]
    ensures YamlLines(rows + [row]) == YamlLines(rows) + ProxyLines(ConvertRowToMihomoProxy(row))
  {
    var proxies := ConvertAll(rows);
    var e := ConvertRowToMihomoProxy(row);
    assert ConvertAll(rows + [row]) == proxies + [e];
    FlattenBlocksAppend(proxies, e);
    Associative(["proxies:"], Flatten(Blocks(proxies)), ProxyLines(e));
  }

  /** The first line of a row's block names it by the row's own name (or `type-server`). */
  lemma ProxyNameLine(row: Row)
    ensures ProxyLines(ConvertRowToMihomoProxy(row))[0] == "  - name: " + Yaml(Some(Str(NameOf(row, TypeOf(row)))))
  {
    ProxyBlock(row);
  }
}
