/**
What validation does to the JSON configuration of a listener (listener/validation.go, mihomo/config and
node/validator.go with credentials/generator.go): drop client-only keys, check it against the schema of the
protocol, fill in missing credentials, check the result. Doing it twice changes nothing, whatever random
material would be drawn. The JSON codec and the checks on single values are parameters.
*/
module ConfigFit {
  import opened Wrappers
  import opened Text
  import opened Credentials
  import opened TuicModes
  import C = ClientExport
  import L = ListenerModel

  type Object = map<string, Json>

  datatype Panel = Panel(
    parse: string -> Option<Json>,                    // json.Unmarshal into a map: an object or null
    render: Json -> string,                           // json.Marshal of one
    allowed: (string, string, Json) -> bool,          // validateListenerObject, key by key
    accepted: (string, string, Json) -> bool,         // validateObject, key by key
    specific: (string, Object) -> bool,               // validateProtocolSpecific but for the TLS modes
    tls: (string, string) -> bool,                    // the TLS flag suits the protocol
    secret: (string, string, string) -> string,       // what would be drawn
    uuid: (string, string, string) -> string)

  /** The kinds that carry credentials, by protocol name. */
  function KindOf(protocol: string): Option<Kind> {
    match protocol
    case "vless" => Some(Vless)
    case "vmess" => Some(Vmess)
    case "trojan" => Some(Trojan)
    case "shadowquic" => Some(ShadowQuic)
    case "hysteria2" => Some(Hysteria2)
    case "anytls" => Some(AnyTls)
    case "mieru" => Some(Mieru)
    case "tuic" => Some(Tuic)
    case "tuic-v4" => Some(TuicV4)
    case "tuic-v5" => Some(TuicV5)
    case _ => None
  }

  /** Marshalling round-trips, drawn secrets are not blank, and what the schemas say of the keys looked at here. */
  ghost predicate LawfulPanel(p: Panel) {
    && (forall s :: p.parse(s).Some? ==> p.parse(s).value.Null? || p.parse(s).value.Fields?)
    && (forall j: Json | j.Null? || j.Fields? :: p.parse(p.render(j)) == Some(j) && Trim(p.render(j)) != "")
    && (forall a, b, c :: Trim(p.secret(a, b, c)) != "")
    && (forall protocol, value :: KindOf(protocol).Some? ==> p.allowed(protocol, CredentialKey(KindOf(protocol).value), value))
    && (forall protocol, value :: !p.allowed(protocol, "private_key", value))
    && (forall protocol, key, s | protocol in CERT_PROTOCOLS && key in PAIR_KEYS ::
          p.allowed(protocol, key, Str(s)) && p.accepted(protocol, key, Str(s)))
    && (forall mode, host :: p.allowed("snell", "obfs-opts", Obfs(mode, host)) && p.accepted("snell", "obfs-opts", Obfs(mode, host)))
    && (forall protocol, value | protocol != "snell" :: !p.allowed(protocol, "obfs-opts", value))
  }

  /** The protocols whose schema has fields for a certificate pair. */
  const CERT_PROTOCOLS: set<string> :=
    {"vmess", "vless", "trojan", "hysteria2", "tuic", "tuic-v4", "tuic-v5", "anytls", "trusttunnel"}

  const PAIR_KEYS: set<string> := {"certificate", "private-key"}

  function Obfs(mode: string, host: string): Json {
    Fields(map["mode" := Str(mode), "host" := Str(host)])
  }

  function CredentialKey(kind: Kind): string {
    if kind == TuicV4 then "token" else "users"
  }

  // ---------------------------------------------------------------- dropping client-only keys

  const PANEL_KEYS: set<string> := {"security_layer", "transport_layer", "access_profile"}
  const PUBLIC_KEYS: set<string> := {"public-key", "public_key"}

  function Sanitised(m: Object): Object {
    var kept := m - PANEL_KEYS;
    if "reality-config" in kept && kept["reality-config"].Fields? then
      kept["reality-config" := Fields(kept["reality-config"].fields - PUBLIC_KEYS)]
    else kept
  }

  lemma SanitisingTwice(m: Object)
    ensures Sanitised(Sanitised(m)) == Sanitised(m)
  {
    var once := Sanitised(m);
    assert once - PANEL_KEYS == once;
    if "reality-config" in once && once["reality-config"].Fields? {
      assert once["reality-config"].fields - PUBLIC_KEYS == once["reality-config"].fields;
    }
  }

  /** sanitizeListenerConfigJSON. */
  function SanitisedText(p: Panel, config: string): Option<string> {
    if Trim(config) == "" then Some(config)
    else match p.parse(config)
      case None => None
      case Some(Fields(m)) => Some(p.render(Fields(Sanitised(m))))
      case Some(j) => Some(p.render(j))
  }

  /** The same, key by key. */
  method SanitizeListenerConfig(p: Panel, config: string) returns (clean: Option<string>)
    ensures clean == SanitisedText(p, config)
  {
    if Trim(config) == "" {
      return Some(config);
    }
    var decoded := p.parse(config);
    if decoded.None? {
      return None;
    }
    if !decoded.value.Fields? {
      return Some(p.render(decoded.value));
    }
    var m := decoded.value.fields;
    m := m - {"security_layer"};
    m := m - {"transport_layer"};
    m := m - {"access_profile"};
    assert m == decoded.value.fields - PANEL_KEYS;
    if "reality-config" in m && m["reality-config"].Fields? {
      var raw := m["reality-config"].fields;
      raw := raw - {"public-key"};
      raw := raw - {"public_key"};
      assert raw == m["reality-config"].fields - PUBLIC_KEYS;
      m := m["reality-config" := Fields(raw)];
    }
    return Some(p.render(Fields(m)));
  }

  // ---------------------------------------------------------------- filling in credentials

  function Get(m: Object, key: string): Json {
    if key in m then m[key] else Null
  }

  function View(m: Object): Config {
    Config(Get(m, "users"), Get(m, "token"), Get(m, "password"))
  }

  /** EnsureListenerCredentials on the whole object. */
  function EnsuredObject(kind: Kind, m: Object, secret: string, uuid: string): Object {
    if !RequiresCredentials(kind) || HasExportCredentials(kind, View(m)) then m
    else
      var filled := Ensured(kind, View(m), secret, uuid);
      match kind
      case Vless | Vmess | Trojan | ShadowQuic | TrustTunnel => m["users" := filled.users]
      case TuicV4 => (m - {"users"})["token" := filled.token]
      case Hysteria2 | AnyTls | Mieru | Tuic | TuicV5 => (m - {"token"})["users" := filled.users]
  }

  method RequiresUserCredentials(protocol: string) returns (required: bool)
    ensures required <==> KindOf(protocol).Some?
  {
    match protocol {
      case "vless" | "vmess" | "trojan" | "hysteria2" | "anytls" | "mieru" | "shadowquic" | "tuic" | "tuic-v4" | "tuic-v5" =>
        return true;
      case _ =>
        return false;
    }
  }

  /** hasExportCredentials on the object. */
  method HasObjectCredentials(protocol: string, m: Object) returns (found: bool)
    requires KindOf(protocol).Some?
    ensures found <==> HasExportCredentials(KindOf(protocol).value, View(m))
  {
    var tokens := C.TuicTokenNonEmpty(Get(m, "token"));
    if protocol == "tuic-v4" {
      return tokens;
    }
    if "users" !in m || m["users"].Null? {
      return protocol == "tuic" && tokens;
    }
    if protocol in {"hysteria2", "anytls", "mieru", "tuic", "tuic-v5"} {
      return m["users"].Fields? && |m["users"].fields| > 0;
    }
    return m["users"].Items? && |m["users"].items| > 0;
  }

  /** The switch of EnsureListenerCredentials on the protocol. */
  method EnsureObject(protocol: string, m: Object, secret: string, uuid: string) returns (filled: Object)
    requires KindOf(protocol).Some? && !HasExportCredentials(KindOf(protocol).value, View(m))
    ensures filled == EnsuredObject(KindOf(protocol).value, m, secret, uuid)
  {
    filled := m;
    match protocol {
      case "vless" | "vmess" =>
        filled := filled["users" := Items([Fields(map["username" := Str("client"), "uuid" := Str(uuid)])])];
      case "trojan" | "shadowquic" =>
        filled := filled["users" := Items([Fields(map["username" := Str("client"), "password" := Str(secret)])])];
      case "tuic-v4" =>
        filled := filled - {"users"};
        filled := filled["token" := Items([Str(secret)])];
      case "hysteria2" | "anytls" | "mieru" | "tuic" | "tuic-v5" =>
        var username := "client";
        if protocol == "tuic" || protocol == "tuic-v5" {
          username := uuid;
        }
        filled := filled - {"token"};
        filled := filled["users" := Fields(map[username := Str(secret)])];
    }
  }

  /** It does to the credentials what the generator does to them. */
  lemma EnsuredView(kind: Kind, m: Object, secret: string, uuid: string)
    ensures View(EnsuredObject(kind, m, secret, uuid)) == Ensured(kind, View(m), secret, uuid)
  {
  }

  lemma EnsuringObjectTwice(kind: Kind, m: Object, secret: string, uuid: string, secret': string, uuid': string)
    requires Trim(secret) != ""
    ensures var once := EnsuredObject(kind, m, secret, uuid);
            && (RequiresCredentials(kind) ==> HasExportCredentials(kind, View(once)))
            && EnsuredObject(kind, once, secret', uuid') == once
  {
    EnsuredView(kind, m, secret, uuid);
    EnsuringTwice(kind, View(m), secret, uuid, secret', uuid');
  }

  /** A filled object is as sanitised as it was, and its other keys are those it had. */
  lemma EnsuringKeepsSanitised(kind: Kind, m: Object, secret: string, uuid: string)
    requires Sanitised(m) == m
    ensures var once := EnsuredObject(kind, m, secret, uuid);
            && Sanitised(once) == once
            && forall k | k in once && k != CredentialKey(kind) :: k in m && once[k] == m[k]
  {
    var once := EnsuredObject(kind, m, secret, uuid);
    assert m - PANEL_KEYS == m;
    assert forall k | k in PANEL_KEYS :: k !in m && k !in once;
    assert once - PANEL_KEYS == once;
    if "reality-config" in once && once["reality-config"].Fields? {
      assert once["reality-config"] == m["reality-config"];
      assert Sanitised(m)["reality-config"] == m["reality-config"];
    }
  }

  // ---------------------------------------------------------------- TLS modes

  /** What decides how a listener is secured; the other protocol checks do not look at these keys. */
  const SECURITY_KEYS: set<string> :=
    {"certificate", "private-key", "private_key", "allow-insecure", "reality-config", "tlsmirror-config", "shadow-tls",
     "res-tls", "jls-config", "jls-upstream", "obfs-opts", "sni"}

  predicate IsTrue(j: Json) {
    j == Scalar("true")
  }

  /** The certificate pair as node/validator.go looks for it. */
  predicate HasCertificate(m: Object) {
    NonBlank(Get(m, "certificate"))
  }

  predicate HasKey(m: Object) {
    NonBlank(Get(m, "private-key"))
  }

  predicate Exclusive(m: Object) {
    "reality-config" in m || "tlsmirror-config" in m
  }

  predicate WrapperOn(m: Object, key: string) {
    IsTrue(Field(Get(m, key), "enable"))
  }

  predicate AnyWrapperOn(m: Object) {
    WrapperOn(m, "shadow-tls") || WrapperOn(m, "res-tls") || WrapperOn(m, "jls-config")
  }

  function One(b: bool): nat {
    if b then 1 else 0
  }

  /** The TLS part of validateProtocolSpecific: a whole pair or none, and one way of securing the listener. */
  predicate TlsModes(protocol: string, m: Object) {
    match protocol
    case "vless" | "vmess" | "trojan" => HasCertificate(m) == HasKey(m) && !(HasCertificate(m) && Exclusive(m))
    case "hysteria2" | "trusttunnel" => HasCertificate(m) && HasKey(m)
    case "anytls" =>
      && HasCertificate(m) == HasKey(m)
      && OneMode(WrapperOn(m, "shadow-tls"), WrapperOn(m, "res-tls"), WrapperOn(m, "jls-config"), HasCertificate(m),
                 IsTrue(Get(m, "allow-insecure")))
    case _ => true
  }

  /** One way of securing an AnyTLS listener, or none if that is allowed. */
  predicate OneMode(shadow: bool, res: bool, jls: bool, certificate: bool, insecure: bool) {
    var modes := One(shadow) + One(res) + One(jls) + One(certificate);
    modes <= 1 && (insecure || modes == 1)
  }

  method HasString(m: Object, key: string) returns (found: bool)
    ensures found <==> NonBlank(Get(m, key))
  {
    if key !in m {
      return false;
    }
    return m[key].Str? && Trim(m[key].text) != "";
  }

  method EnabledObject(m: Object, key: string) returns (on: bool)
    ensures on <==> WrapperOn(m, key)
  {
    if key !in m || !m[key].Fields? || "enable" !in m[key].fields {
      return false;
    }
    return m[key].fields["enable"] == Scalar("true");
  }

  /** validateServerTLSModes, hasCertificatePair and the TLS part of validateAnyTLS. */
  method ValidateTlsModes(protocol: string, m: Object) returns (ok: bool)
    ensures ok <==> TlsModes(protocol, m)
  {
    var certificate := HasString(m, "certificate");
    var key := HasString(m, "private-key");
    match protocol {
      case "vless" | "vmess" | "trojan" =>
        if certificate != key {
          return false;
        }
        if certificate {
          if "reality-config" in m {
            return false;
          }
          if "tlsmirror-config" in m {
            return false;
          }
        }
        return true;
      case "hysteria2" | "trusttunnel" =>
        return certificate && key;
      case "anytls" =>
        if certificate != key {
          return false;
        }
        ok := CountModes(m, certificate);
      case _ =>
        return true;
    }
  }

  method CountModes(m: Object, certificate: bool) returns (ok: bool)
    ensures ok <==> OneMode(WrapperOn(m, "shadow-tls"), WrapperOn(m, "res-tls"), WrapperOn(m, "jls-config"), certificate,
                            IsTrue(Get(m, "allow-insecure")))
  {
    var secureModes := 0;
    var shadow := EnabledObject(m, "shadow-tls");
    var res := EnabledObject(m, "res-tls");
    var jls := EnabledObject(m, "jls-config");
    if shadow { secureModes := secureModes + 1; }
    if res { secureModes := secureModes + 1; }
    if jls { secureModes := secureModes + 1; }
    if certificate { secureModes := secureModes + 1; }
    if secureModes > 1 {
      return false;
    }
    var insecure := "allow-insecure" in m && m["allow-insecure"] == Scalar("true");
    return insecure || secureModes != 0;
  }

  // ---------------------------------------------------------------- the whole step

  predicate AllAllowed(p: Panel, protocol: string, m: Object) {
    forall k | k in m :: p.allowed(protocol, k, m[k])
  }

  predicate AllAccepted(p: Panel, protocol: string, m: Object) {
    forall k | k in m :: p.accepted(protocol, k, m[k])
  }

  /** ValidateListenerConfig: nothing, or an object whose keys are allowed. */
  predicate SchemaAllows(p: Panel, protocol: string, config: string) {
    Trim(config) == ""
    || (p.parse(config).Some? && p.parse(config).value.Fields? && AllAllowed(p, protocol, p.parse(config).value.fields))
  }

  /** decodeConfig on a configuration that passed. */
  function Decode(p: Panel, config: string): Object {
    if Trim(config) != "" && p.parse(config).Some? && p.parse(config).value.Fields? then p.parse(config).value.fields
    else map[]
  }

  /** EnsureListenerCredentials on the text, which is rewritten only when something was missing. */
  function EnsuredText(p: Panel, protocol: string, config: string, secret: string, uuid: string): string {
    match KindOf(protocol)
    case None => config
    case Some(kind) =>
      if HasExportCredentials(kind, View(Decode(p, config))) then config
      else p.render(Fields(EnsuredObject(kind, Decode(p, config), secret, uuid)))
  }

  predicate Specific(p: Panel, protocol: string, m: Object) {
    TlsModes(protocol, m) && p.specific(protocol, m - SECURITY_KEYS)
  }

  /** What ValidateModel leaves of the configuration, None when it refuses it. */
  function Fit(p: Panel, protocol: string, other: string, config: string): Option<string> {
    var clean := SanitisedText(p, config);
    if clean.None? || !SchemaAllows(p, protocol, clean.value) then None
    else
      var filled := EnsuredText(p, protocol, clean.value, p.secret(protocol, other, config), p.uuid(protocol, other, config));
      if AllAccepted(p, protocol, Decode(p, filled)) && Specific(p, protocol, Decode(p, filled)) && p.tls(protocol, other)
      then Some(filled) else None
  }

  /** A check of every key on its own. */
  method CheckKeys(check: (string, string, Json) -> bool, protocol: string, m: Object) returns (ok: bool)
    ensures ok <==> forall k | k in m :: check(protocol, k, m[k])
  {
    var todo := m.Keys;
    while todo != {}
      invariant todo <= m.Keys && forall k | k in m && k !in todo :: check(protocol, k, m[k])
      decreases todo
    {
      var k :| k in todo;
      todo := todo - {k};
      if !check(protocol, k, m[k]) {
        return false;
      }
    }
    return true;
  }

  method ValidateListenerConfig(p: Panel, protocol: string, config: string) returns (ok: bool)
    ensures ok <==> SchemaAllows(p, protocol, config)
  {
    if Trim(config) == "" {
      return true;
    }
    var values := p.parse(config);
    if values.None? || !values.value.Fields? {
      return false;
    }
    ok := CheckKeys(p.allowed, protocol, values.value.fields);
  }

  method DecodeConfig(p: Panel, config: string) returns (m: Object)
    ensures m == Decode(p, config)
  {
    if Trim(config) == "" {
      return map[];
    }
    var decoded := p.parse(config);
    if decoded.None? || !decoded.value.Fields? {
      return map[];
    }
    return decoded.value.fields;
  }

  method EnsureListenerCredentialsText(p: Panel, protocol: string, config: string, secret: string, uuid: string)
    returns (text: string)
    ensures text == EnsuredText(p, protocol, config, secret, uuid)
  {
    var required := RequiresUserCredentials(protocol);
    if !required {
      return config;
    }
    var m := DecodeConfig(p, config);
    var found := HasObjectCredentials(protocol, m);
    if found {
      return config;
    }
    var filled := EnsureObject(protocol, m, secret, uuid);
    return p.render(Fields(filled));
  }

  /** What ValidateModel and ValidateNode do to the configuration, in their order. */
  method FitConfig(p: Panel, protocol: string, other: string, config: string) returns (fitted: Option<string>)
    ensures fitted == Fit(p, protocol, other, config)
  {
    var clean := SanitizeListenerConfig(p, config);
    if clean.None? {
      return None;
    }
    var allowed := ValidateListenerConfig(p, protocol, clean.value);
    if !allowed {
      return None;
    }
    var filled := EnsureListenerCredentialsText(p, protocol, clean.value, p.secret(protocol, other, config),
                                                p.uuid(protocol, other, config));
    var m := DecodeConfig(p, filled);
    var accepted := CheckKeys(p.accepted, protocol, m);
    if !accepted {
      return None;
    }
    var secured := ValidateTlsModes(protocol, m);
    if !secured || !p.specific(protocol, m - SECURITY_KEYS) || !p.tls(protocol, other) {
      return None;
    }
    return Some(filled);
  }

  /** A text that passes all checks as it stands, and has what it needs, is left alone. */
  predicate Settled(p: Panel, protocol: string, other: string, config: string) {
    && SanitisedText(p, config) == Some(config) && SchemaAllows(p, protocol, config)
    && (KindOf(protocol).Some? ==> HasExportCredentials(KindOf(protocol).value, View(Decode(p, config))))
    && AllAccepted(p, protocol, Decode(p, config)) && Specific(p, protocol, Decode(p, config)) && p.tls(protocol, other)
  }

  lemma CleanTextStays(p: Panel, config: string)
    requires LawfulPanel(p) && SanitisedText(p, config).Some?
    ensures var clean := SanitisedText(p, config).value;
            && SanitisedText(p, clean) == Some(clean)
            && (Trim(clean) == "" || (p.parse(clean).Some? && p.render(p.parse(clean).value) == clean))
            && Sanitised(Decode(p, clean)) == Decode(p, clean)
  {
    if Trim(config) != "" && p.parse(config).value.Fields? {
      var m := p.parse(config).value.fields;
      SanitisingTwice(m);
      assert p.parse(p.render(Fields(Sanitised(m)))) == Some(Fields(Sanitised(m)));
    }
  }

  lemma FilledTextStays(p: Panel, protocol: string, clean: string, secret: string, uuid: string)
    requires LawfulPanel(p) && Trim(secret) != "" && SchemaAllows(p, protocol, clean)
    requires SanitisedText(p, clean) == Some(clean) && Sanitised(Decode(p, clean)) == Decode(p, clean)
    ensures var filled := EnsuredText(p, protocol, clean, secret, uuid);
            && SanitisedText(p, filled) == Some(filled) && SchemaAllows(p, protocol, filled)
            && (KindOf(protocol).Some? ==> HasExportCredentials(KindOf(protocol).value, View(Decode(p, filled))))
  {
    if KindOf(protocol).Some? && !HasExportCredentials(KindOf(protocol).value, View(Decode(p, clean))) {
      var kind, m := KindOf(protocol).value, Decode(p, clean);
      var once := EnsuredObject(kind, m, secret, uuid);
      EnsuringKeepsSanitised(kind, m, secret, uuid);
      EnsuringObjectTwice(kind, m, secret, uuid, secret, uuid);
      assert p.parse(p.render(Fields(once))) == Some(Fields(once));
      assert AllAllowed(p, protocol, once);
    }
  }

  lemma FittedIsSettled(p: Panel, protocol: string, other: string, config: string)
    requires LawfulPanel(p) && Fit(p, protocol, other, config).Some?
    ensures Settled(p, protocol, other, Fit(p, protocol, other, config).value)
  {
    var clean := SanitisedText(p, config).value;
    CleanTextStays(p, config);
    FilledTextStays(p, protocol, clean, p.secret(protocol, other, config), p.uuid(protocol, other, config));
  }

  /** Fitting a fitted configuration changes nothing. */
  lemma FitIsIdempotent(p: Panel, protocol: string, other: string, config: string)
    requires LawfulPanel(p) && Fit(p, protocol, other, config).Some?
    ensures var fitted := Fit(p, protocol, other, config).value;
            Fit(p, protocol, other, fitted) == Some(fitted)
  {
    FittedIsSettled(p, protocol, other, config);
  }

  /** Nor does the credential provider of a generation find anything to fill in. */
  lemma SettledHasItsCredentials(p: Panel, protocol: string, other: string, config: string, secret: string, uuid: string)
    requires Settled(p, protocol, other, config)
    ensures EnsuredText(p, protocol, config, secret, uuid) == config
  {
  }

  /** So the rules of the panel are lawful, provided that the IP parser is. */
  lemma PanelRulesAreLawful(parseIP: string -> Option<int>, supported: string -> bool, p: Panel)
    requires LawfulPanel(p)
    requires L.LawfulAddresses(parseIP)
    ensures L.Lawful(L.Rules(parseIP, supported, (protocol, other, config) => Fit(p, protocol, other, config)))
  {
    forall a, b, c | Fit(p, a, b, c).Some? ensures Fit(p, a, b, Fit(p, a, b, c).value) == Fit(p, a, b, c) {
      FitIsIdempotent(p, a, b, c);
    }
  }
}
