/**
What happens to the certificate of a listener outside the mutators: the generator (mihomo/config/generator.go,
tls_ensure.go, wrapper_sanitize.go) drops unfinished TLS wrappers, restores the pair kept on disk, mints one
where one is needed, and stores the result; start-up hydration (certstore/hydrate.go) restores pairs only.
Neither asks whether the listener is secured in another way by now, so either can store a configuration
that validation refuses. This module says exactly when.
*/
module TlsMaterial {
  import opened Wrappers
  import opened Text
  import opened Credentials
  import opened ConfigFit
  import opened TuicModes
  import L = ListenerModel

  datatype Pair = Pair(certificate: string, key: string)

  predicate Usable(pair: Option<Pair>) {
    pair.Some? ==> Trim(pair.value.certificate) != "" && Trim(pair.value.key) != ""
  }

  // ---------------------------------------------------------------- unfinished wrappers

  predicate IsBool(j: Json) {
    j in {Scalar("true"), Scalar("false")}
  }

  /** wrapperEnabled. */
  predicate WrapperEnabled(m: Object) {
    if IsBool(Get(m, "enable")) then IsTrue(Get(m, "enable"))
    else if IsBool(Get(m, "enabled")) then IsTrue(Get(m, "enabled"))
    else exists k | k in m :: k !in {"enable", "enabled"}
  }

  /** hasJLSUsers. */
  predicate HasJlsUsers(users: Json) {
    match users
    case Fields(fields) => exists k | k in fields :: Trim(k) != "" && NonBlank(fields[k])
    case Items(items) => exists row | row in items :: NonBlank(Field(row, "username")) && NonBlank(Field(row, "password"))
    case _ => false
  }

  predicate WholeJls(m: Object) {
    WrapperEnabled(m) && NonBlank(Get(m, "dest")) && HasJlsUsers(Get(m, "users"))
  }

  predicate WholeShadowTls(m: Object) {
    && WrapperEnabled(m) && NonBlank(Field(Get(m, "handshake"), "dest"))
    && (NonBlank(Get(m, "password")) || (Get(m, "users").Items? && Get(m, "users").items != []))
  }

  predicate WholeResTls(m: Object) {
    WrapperEnabled(m) && NonBlank(Get(m, "dest"))
  }

  predicate WholeUpstream(m: Object) {
    NonBlank(Get(m, "addr"))
  }

  predicate WholeMirror(m: Object) {
    NonBlank(Get(m, "dest")) && NonBlank(Get(m, "primary-key"))
  }

  /** Drop the object under a key unless it is whole. */
  function Weeded(m: Object, key: string, whole: Object -> bool): Object {
    if key in m && m[key].Fields? && !whole(m[key].fields) then m - {key} else m
  }

  function FirstHost(m: Object): string {
    if NonBlank(Get(m, "host")) then Trim(TextOf(Get(m, "host")))
    else if NonBlank(Get(m, "Host")) then Trim(TextOf(Get(m, "Host")))
    else Trim(TextOf(Get(m, "HOST")))
  }

  /** sanitizeObfsOpts. */
  function ObfsSettled(m: Object): Object {
    if "obfs-opts" !in m || !m["obfs-opts"].Fields? then m
    else
      var opts := m["obfs-opts"].fields;
      var host, mode := FirstHost(opts), Trim(TextOf(Get(opts, "mode")));
      if host == "" || mode == "" then m - {"obfs-opts"} else m["obfs-opts" := Obfs(mode, host)]
  }

  /** sanitizeIncompleteTLSWrappers. */
  function Unwrapped(m: Object): Object {
    ObfsSettled(WeededAll(m))
  }

  function WeededAll(m: Object): Object {
    var a := Weeded(m, "jls-config", WholeJls);
    var b := Weeded(a, "shadow-tls", WholeShadowTls);
    var c := Weeded(b, "res-tls", WholeResTls);
    var d := Weeded(c, "jls-upstream", WholeUpstream);
    Weeded(d, "tlsmirror-config", WholeMirror)
  }

  // The same as the generator does it, one step after the other.

  method WrapperIsEnabled(m: Object) returns (on: bool)
    ensures on <==> WrapperEnabled(m)
  {
    if m == map[] {
      return false;
    }
    if "enable" in m && IsBool(m["enable"]) {
      return m["enable"] == Scalar("true");
    }
    if "enabled" in m && IsBool(m["enabled"]) {
      return m["enabled"] == Scalar("true");
    }
    var todo := m.Keys;
    while todo != {}
      invariant todo <= m.Keys && forall k | k in m && k !in todo :: k in {"enable", "enabled"}
      decreases todo
    {
      var k :| k in todo;
      todo := todo - {k};
      if k != "enable" && k != "enabled" {
        return true;
      }
    }
    return false;
  }

  method HasJLSUsers(users: Json) returns (found: bool)
    ensures found <==> HasJlsUsers(users)
  {
    if users.Fields? {
      var todo := users.fields.Keys;
      while todo != {}
        invariant todo <= users.fields.Keys
        invariant forall k | k in users.fields && k !in todo :: Trim(k) == "" || !NonBlank(users.fields[k])
        decreases todo
      {
        var user :| user in todo;
        todo := todo - {user};
        var pass := users.fields[user];
        if Trim(user) != "" && pass.Str? && Trim(pass.text) != "" {
          return true;
        }
      }
    }
    if users.Items? {
      for i := 0 to |users.items|
        invariant forall k | 0 <= k < i ::
                    !(NonBlank(Field(users.items[k], "username")) && NonBlank(Field(users.items[k], "password")))
      {
        var row := users.items[i];
        if Trim(TextOf(Field(row, "username"))) != "" && Trim(TextOf(Field(row, "password"))) != "" {
          assert row in users.items;
          return true;
        }
      }
    }
    return false;
  }

  method CompleteShadowTLSBlock(m: Object) returns (whole: bool)
    ensures whole <==> WholeShadowTls(m)
  {
    var on := WrapperIsEnabled(m);
    if !on {
      return false;
    }
    var dest := "";
    if "handshake" in m && m["handshake"].Fields? && "dest" in m["handshake"].fields {
      dest := TextOf(m["handshake"].fields["dest"]);
    }
    if Trim(dest) == "" {
      return false;
    }
    if Trim(TextOf(Get(m, "password"))) != "" {
      return true;
    }
    return "users" in m && m["users"].Items? && |m["users"].items| > 0;
  }

  method FirstHostOf(m: Object) returns (host: string)
    ensures host == FirstHost(m)
  {
    var keys := ["host", "Host", "HOST"];
    for i := 0 to 3
      invariant forall k | 0 <= k < i :: !NonBlank(Get(m, keys[k]))
    {
      if keys[i] in m && m[keys[i]].Str? && Trim(m[keys[i]].text) != "" {
        assert i > 0 ==> !NonBlank(Get(m, keys[0]));
        assert i > 1 ==> !NonBlank(Get(m, keys[1]));
        return Trim(m[keys[i]].text);
      }
    }
    assert !NonBlank(Get(m, keys[0])) && !NonBlank(Get(m, keys[1])) && !NonBlank(Get(m, keys[2]));
    return "";
  }

  method SanitizeObfsOpts(m: Object) returns (u: Object)
    ensures u == ObfsSettled(m)
  {
    if "obfs-opts" !in m || !m["obfs-opts"].Fields? {
      return m;
    }
    var opts := m["obfs-opts"].fields;
    var host := FirstHostOf(opts);
    var mode := "";
    if "mode" in opts && opts["mode"].Str? {
      mode := Trim(opts["mode"].text);
    }
    if host == "" || mode == "" {
      return m - {"obfs-opts"};
    }
    return m["obfs-opts" := Fields(map["mode" := Str(mode), "host" := Str(host)])];
  }

  method DropUnfinishedJls(m: Object) returns (u: Object)
    ensures u == Weeded(m, "jls-config", WholeJls)
  {
    u := m;
    if "jls-config" in m && m["jls-config"].Fields? {
      var jls := m["jls-config"].fields;
      var on := WrapperIsEnabled(jls);
      var dest := HasString(jls, "dest");
      var users := HasJLSUsers(Get(jls, "users"));
      if !on || !dest || !users {
        u := m - {"jls-config"};
      }
    }
  }

  method DropUnfinishedShadowTls(m: Object) returns (u: Object)
    ensures u == Weeded(m, "shadow-tls", WholeShadowTls)
  {
    u := m;
    if "shadow-tls" in m && m["shadow-tls"].Fields? {
      var whole := CompleteShadowTLSBlock(m["shadow-tls"].fields);
      if !whole {
        u := m - {"shadow-tls"};
      }
    }
  }

  method DropUnfinishedResTls(m: Object) returns (u: Object)
    ensures u == Weeded(m, "res-tls", WholeResTls)
  {
    u := m;
    if "res-tls" in m && m["res-tls"].Fields? {
      var on := WrapperIsEnabled(m["res-tls"].fields);
      var dest := HasString(m["res-tls"].fields, "dest");
      if !on || !dest {
        u := m - {"res-tls"};
      }
    }
  }

  method DropUnfinishedUpstream(m: Object) returns (u: Object)
    ensures u == Weeded(m, "jls-upstream", WholeUpstream)
  {
    u := m;
    if "jls-upstream" in m && m["jls-upstream"].Fields? {
      var addr := HasString(m["jls-upstream"].fields, "addr");
      if !addr {
        u := m - {"jls-upstream"};
      }
    }
  }

  method DropUnfinishedMirror(m: Object) returns (u: Object)
    ensures u == Weeded(m, "tlsmirror-config", WholeMirror)
  {
    u := m;
    if "tlsmirror-config" in m && m["tlsmirror-config"].Fields? {
      var dest := HasString(m["tlsmirror-config"].fields, "dest");
      var key := HasString(m["tlsmirror-config"].fields, "primary-key");
      if !dest || !key {
        u := m - {"tlsmirror-config"};
      }
    }
  }

  method SanitizeIncompleteTLSWrappers(m: Object) returns (u: Object)
    ensures u == Unwrapped(m)
  {
    u := DropUnfinishedJls(m);
    u := DropUnfinishedShadowTls(u);
    u := DropUnfinishedResTls(u);
    u := DropUnfinishedUpstream(u);
    u := DropUnfinishedMirror(u);
    u := SanitizeObfsOpts(u);
  }

  const WRAPPER_KEYS: set<string> :=
    {"jls-config", "shadow-tls", "res-tls", "jls-upstream", "tlsmirror-config", "obfs-opts"}

  /** The two configurations differ in these keys at most. */
  ghost predicate SameBut(a: Object, b: Object, keys: set<string>) {
    forall k | k !in keys :: (k in a <==> k in b) && Get(a, k) == Get(b, k)
  }

  /** u is m without some of its wrappers, and perhaps with other obfuscation options. */
  ghost predicate Lightened(u: Object, m: Object) {
    && SameBut(u, m, WRAPPER_KEYS)
    && (forall k | k in u :: k in m && (k != "obfs-opts" ==> u[k] == m[k]))
    && ("obfs-opts" in u ==> u["obfs-opts"] == m["obfs-opts"] || exists mode, host :: u["obfs-opts"] == Obfs(mode, host))
  }

  /** A wrapper that is weeded was there, and one that is left is whole. */
  lemma WeededIsWhole(m: Object, key: string, whole: Object -> bool)
    ensures var w := Weeded(m, key, whole);
            && SameBut(w, m, {key}) && (forall k | k in w :: k in m && w[k] == m[k])
            && (Get(w, key).Fields? ==> whole(Get(w, key).fields))
  {
  }

  lemma ObfsIsElsewhere(m: Object)
    ensures SameBut(ObfsSettled(m), m, {"obfs-opts"}) && Lightened(ObfsSettled(m), m)
  {
  }

  lemma UnwrappedIsLess(m: Object)
    ensures Lightened(Unwrapped(m), m)
  {
    var e := WeededAll(m);
    ObfsIsElsewhere(e);
  }

  // ---------------------------------------------------------------- certificate pairs

  function KeyText(m: Object): string {
    if TextOf(Get(m, "private-key")) != "" then TextOf(Get(m, "private-key")) else TextOf(Get(m, "private_key"))
  }

  /** A pair as the generator looks for it. */
  predicate HasPair(m: Object) {
    Trim(TextOf(Get(m, "certificate"))) != "" && Trim(KeyText(m)) != ""
  }

  function WithPair(m: Object, pair: Pair): Object {
    m["certificate" := Str(pair.certificate)]["private-key" := Str(pair.key)]
  }

  /** The pair on disk stands in for a missing or half one. */
  function Restored(m: Object, disk: Option<Pair>): Object {
    if !HasPair(m) && disk.Some? then WithPair(m - {"private_key"}, disk.value) else m
  }

  function WithoutBlank(m: Object, key: string): Object {
    if key in m && m[key].Str? && Trim(m[key].text) == "" then m - {key} else m
  }

  /** completeShadowTLS, completeResTLS and completeJLS. */
  predicate Complete(m: Object) {
    CompleteShadowTls(Get(m, "shadow-tls")) || CompleteResTls(Get(m, "res-tls")) || CompleteJls(Get(m, "jls-config"))
  }

  predicate CompleteShadowTls(block: Json) {
    && block.Fields? && Get(block.fields, "enable") != Scalar("false")
    && (NonBlank(Get(block.fields, "password")) || "users" in block.fields
        || NonBlank(Field(Get(block.fields, "handshake"), "dest")))
  }

  predicate CompleteResTls(block: Json) {
    block.Fields? && Get(block.fields, "enable") != Scalar("false") && NonBlank(Get(block.fields, "dest"))
  }

  predicate CompleteJls(block: Json) {
    block.Fields? && NonBlank(Get(block.fields, "dest")) && HasJlsUsers(Get(block.fields, "users"))
  }

  function Layer(m: Object): string {
    ToLower(Trim(TextOf(Get(m, "security_layer"))))
  }

  /** listenerProtocolNeedsCert. */
  predicate NeedsCert(protocol: string, m: Object) {
    && "reality-config" !in m
    && !(IsTrue(Get(m, "allow-insecure")) && protocol in {"anytls", "trojan", "vmess", "vless"})
    && !(Layer(m) == "none" && protocol in {"vless", "vmess", "trojan"})
    && Layer(m) != "reality"
    && !Complete(m)
    && Get(m, "tlsmirror-config").Null?
    && protocol in CERT_PROTOCOLS
  }

  const KEY_FIELDS: set<string> := {"certificate", "private-key", "private_key"}

  function WithoutBlanks(m: Object): Object {
    WithoutBlank(WithoutBlank(WithoutBlank(m, "certificate"), "private-key"), "private_key")
  }

  /** Half a pair is dropped. */
  function WithoutHalf(m: Object): Object {
    if Trim(TextOf(Get(m, "certificate"))) != "" || Trim(KeyText(m)) != "" then m - KEY_FIELDS else m
  }

  /** ensureListenerTLSMaterial; None when minting fails. */
  function Secured(protocol: string, m: Object, minted: Option<Pair>): Option<Object> {
    var a := WithoutBlanks(m);
    if HasPair(a) then Some(a - {"allow-insecure"})
    else if !NeedsCert(protocol, WithoutHalf(a)) then Some(WithoutHalf(a))
    else if minted.None? then None
    else Some(WithPair(WithoutHalf(a), minted.value) - {"allow-insecure"})
  }

  /** The repair of a server name an older generator stored. */
  function Repaired(m: Object, hints: set<string>): Object {
    if "sni" in m && m["sni"].Str? && m["sni"].text != "" && m["sni"].text in hints then m - {"sni"} else m
  }

  /** What the generator makes of a configuration. */
  function Generated(protocol: string, m: Object, hints: set<string>, disk: Option<Pair>, minted: Option<Pair>): Option<Object> {
    var u := Unwrapped(m);
    if protocol !in CERT_PROTOCOLS then
      Some(Repaired(u - {"certificate", "private-key", "private_key", "allow-insecure"}, hints))
    else Secured(protocol, Repaired(Restored(u, disk), hints), minted)
  }

  // The same as the generator does it.

  method CompleteShadowTLS(m: Object) returns (complete: bool)
    ensures complete <==> CompleteShadowTls(Get(m, "shadow-tls"))
  {
    if "shadow-tls" !in m || !m["shadow-tls"].Fields? {
      return false;
    }
    var block := m["shadow-tls"].fields;
    if "enable" in block && block["enable"] == Scalar("false") {
      return false;
    }
    if Trim(TextOf(Get(block, "password"))) != "" {
      return true;
    }
    if "users" in block {
      return true;
    }
    if "handshake" in block && block["handshake"].Fields? {
      var dest := HasString(block["handshake"].fields, "dest");
      return dest;
    }
    return false;
  }

  method CompleteResTLS(m: Object) returns (complete: bool)
    ensures complete <==> CompleteResTls(Get(m, "res-tls"))
  {
    if "res-tls" !in m || !m["res-tls"].Fields? {
      return false;
    }
    var block := m["res-tls"].fields;
    if "enable" in block && block["enable"] == Scalar("false") {
      return false;
    }
    complete := HasString(block, "dest");
  }

  method CompleteJLS(m: Object) returns (complete: bool)
    ensures complete <==> CompleteJls(Get(m, "jls-config"))
  {
    if "jls-config" !in m || !m["jls-config"].Fields? {
      return false;
    }
    var dest := HasString(m["jls-config"].fields, "dest");
    if !dest {
      return false;
    }
    complete := HasJLSUsers(Get(m["jls-config"].fields, "users"));
  }

  method SupportsCertField(protocol: string) returns (supports: bool)
    ensures supports <==> protocol in CERT_PROTOCOLS
  {
    match protocol {
      case "vmess" | "vless" | "trojan" | "hysteria2" | "tuic" | "tuic-v4" | "tuic-v5" | "anytls" | "trusttunnel" =>
        return true;
      case _ =>
        return false;
    }
  }

  /** listenerProtocolNeedsCert, test by test. */
  method ListenerProtocolNeedsCert(protocol: string, m: Object) returns (needs: bool)
    ensures needs <==> NeedsCert(protocol, m)
  {
    if "reality-config" in m {
      return false;
    }
    if Get(m, "allow-insecure") == Scalar("true") && protocol in {"anytls", "trojan", "vmess", "vless"} {
      return false;
    }
    var layer := ToLower(Trim(TextOf(Get(m, "security_layer"))));
    if layer == "none" && protocol in {"vless", "vmess", "trojan"} {
      return false;
    }
    if layer == "reality" {
      return false;
    }
    var shadow := CompleteShadowTLS(m);
    var res := CompleteResTLS(m);
    var jls := CompleteJLS(m);
    if shadow || res || jls {
      return false;
    }
    if "tlsmirror-config" in m && !m["tlsmirror-config"].Null? {
      return false;
    }
    needs := SupportsCertField(protocol);
  }

  method DropBlanks(m: Object) returns (g: Object)
    ensures g == WithoutBlanks(m)
  {
    g := m;
    if "certificate" in g && g["certificate"].Str? && Trim(g["certificate"].text) == "" {
      g := g - {"certificate"};
    }
    if "private-key" in g && g["private-key"].Str? && Trim(g["private-key"].text) == "" {
      g := g - {"private-key"};
    }
    if "private_key" in g && g["private_key"].Str? && Trim(g["private_key"].text) == "" {
      g := g - {"private_key"};
    }
  }

  method DropKeys(m: Object) returns (g: Object)
    ensures g == m - KEY_FIELDS
  {
    g := m - {"certificate"};
    g := g - {"private-key"};
    g := g - {"private_key"};
  }

  /** ensureListenerTLSMaterial, with the pair minting would yield. */
  method EnsureListenerTLSMaterial(protocol: string, m: Object, minted: Option<Pair>) returns (secured: Option<Object>)
    ensures secured == Secured(protocol, m, minted)
  {
    var g := DropBlanks(m);
    var certificate, key := TextOf(Get(g, "certificate")), TextOf(Get(g, "private-key"));
    if key == "" {
      key := TextOf(Get(g, "private_key"));
    }
    if Trim(certificate) != "" && Trim(key) != "" {
      return Some(g - {"allow-insecure"});
    }
    if Trim(certificate) != "" || Trim(key) != "" {
      g := DropKeys(g);
    }
    var needs := ListenerProtocolNeedsCert(protocol, g);
    if !needs {
      return Some(g);
    }
    if minted.None? {
      return None;
    }
    g := g["certificate" := Str(minted.value.certificate)];
    g := g["private-key" := Str(minted.value.key)];
    return Some(g - {"allow-insecure"});
  }

  /** The step of generateListeners between decoding a configuration and storing it again. */
  method GenerateConfig(protocol: string, m: Object, hints: set<string>, disk: Option<Pair>, minted: Option<Pair>)
    returns (g: Option<Object>)
    ensures g == Generated(protocol, m, hints, disk, minted)
  {
    var u := SanitizeIncompleteTLSWrappers(m);
    var supports := SupportsCertField(protocol);
    if !supports {
      u := u - {"certificate", "private-key", "private_key", "allow-insecure"};
    }
    var certificate, key := TextOf(Get(u, "certificate")), TextOf(Get(u, "private-key"));
    if key == "" {
      key := TextOf(Get(u, "private_key"));
    }
    if supports && (Trim(certificate) == "" || Trim(key) == "") && disk.Some? {
      u := u["certificate" := Str(disk.value.certificate)];
      u := u["private-key" := Str(disk.value.key)];
      u := u - {"private_key"};
      assert u == WithPair(Unwrapped(m) - {"private_key"}, disk.value);
    }
    if "sni" in u && u["sni"].Str? && u["sni"].text != "" && u["sni"].text in hints {
      u := u - {"sni"};
    }
    if !supports {
      return Some(u);
    }
    g := EnsureListenerTLSMaterial(protocol, u, minted);
  }

  // ---------------------------------------------------------------- when that spoils a listener

  /** A pair as both sides look for it. */
  predicate Paired(m: Object) {
    HasCertificate(m) && HasKey(m)
  }

  predicate Unpaired(m: Object) {
    !HasCertificate(m) && !HasKey(m)
  }

  lemma PairIsPair(m: Object)
    requires "private_key" !in m
    ensures HasPair(m) == Paired(m)
  {
  }

  lemma BlanksGo(m: Object)
    requires "private_key" !in m
    ensures var a := WithoutBlanks(m);
            && SameBut(a, m, KEY_FIELDS) && "private_key" !in a && a.Keys <= m.Keys
            && HasCertificate(a) == HasCertificate(m) && HasKey(a) == HasKey(m)
            && forall k | k in a :: a[k] == m[k]
  {
  }

  lemma HalvesGo(m: Object)
    requires "private_key" !in m && !HasPair(m)
    ensures var a := WithoutHalf(m);
            && SameBut(a, m, KEY_FIELDS) && Unpaired(a) && a.Keys <= m.Keys && forall k | k in a :: a[k] == m[k]
  {
  }

  lemma NeedsCertLooksElsewhere(protocol: string, a: Object, b: Object)
    requires SameBut(a, b, KEY_FIELDS + {"sni"})
    ensures NeedsCert(protocol, a) == NeedsCert(protocol, b)
  {
    assert Get(a, "reality-config") == Get(b, "reality-config") && Get(a, "allow-insecure") == Get(b, "allow-insecure");
    assert Get(a, "security_layer") == Get(b, "security_layer") && Get(a, "shadow-tls") == Get(b, "shadow-tls");
    assert Get(a, "res-tls") == Get(b, "res-tls") && Get(a, "jls-config") == Get(b, "jls-config");
    assert Get(a, "tlsmirror-config") == Get(b, "tlsmirror-config");
  }

  /** g comes from m without further keys but those of a pair, which are texts. */
  ghost predicate FromConfig(g: Object, m: Object) {
    forall k | k in g :: (k in m && g[k] == m[k]) || (k in PAIR_KEYS && g[k].Str?)
  }

  /** The keys the generator may change without taking a wrapper away. */
  const MATERIAL_KEYS: set<string> := {"certificate", "private-key", "private_key", "allow-insecure", "sni"}

  lemma SecuredMaterial(protocol: string, m: Object, minted: Option<Pair>)
    requires "private_key" !in m && Usable(minted) && Secured(protocol, m, minted).Some?
    ensures var g := Secured(protocol, m, minted).value;
            && SameBut(g, m, MATERIAL_KEYS) && FromConfig(g, m)
            && (if Paired(m) || NeedsCert(protocol, m) then Paired(g)
                else Unpaired(g) && Get(g, "allow-insecure") == Get(m, "allow-insecure"))
  {
    var a := WithoutBlanks(m);
    BlanksGo(m);
    PairIsPair(a);
    if !HasPair(a) {
      HalvesGo(a);
      NeedsCertLooksElsewhere(protocol, WithoutHalf(a), m);
      if minted.Some? { MintedMaterial(WithoutHalf(a), m, minted); }
    }
  }

  lemma MintedMaterial(b: Object, m: Object, minted: Option<Pair>)
    requires SameBut(b, m, KEY_FIELDS) && Usable(minted) && minted.Some? && FromConfig(b, m)
    ensures var g := WithPair(b, minted.value) - {"allow-insecure"};
            SameBut(g, m, MATERIAL_KEYS) && FromConfig(g, m) && Paired(g)
  {
  }

  /** How a configuration without `private_key` comes out, for a protocol with certificates. */
  lemma GeneratedMaterial(protocol: string, m: Object, hints: set<string>, disk: Option<Pair>, minted: Option<Pair>)
    requires protocol in CERT_PROTOCOLS && "private_key" !in m && Usable(disk) && Usable(minted)
    requires Generated(protocol, m, hints, disk, minted).Some?
    ensures var u, g := Unwrapped(m), Generated(protocol, m, hints, disk, minted).value;
            && SameBut(g, u, MATERIAL_KEYS) && FromConfig(g, u)
            && (if HasPair(m) || disk.Some? || NeedsCert(protocol, u) then Paired(g)
                else Unpaired(g) && Get(g, "allow-insecure") == Get(u, "allow-insecure"))
  {
    var u := Unwrapped(m);
    var s := Repaired(Restored(u, disk), hints);
    UnwrappedIsLess(m);
    LightenedPair(u, m);
    RestoredMaterial(u, hints, disk);
    NeedsCertLooksElsewhere(protocol, s, u);
    SecuredMaterial(protocol, s, minted);
    OneAfterTheOther(Generated(protocol, m, hints, disk, minted).value, s, u);
  }

  lemma LightenedPair(u: Object, m: Object)
    requires Lightened(u, m)
    ensures HasPair(u) == HasPair(m) && ("private_key" in u <==> "private_key" in m)
    ensures Get(u, "allow-insecure") == Get(m, "allow-insecure")
  {
    assert Get(u, "certificate") == Get(m, "certificate") && Get(u, "private-key") == Get(m, "private-key");
    assert Get(u, "private_key") == Get(m, "private_key");
  }

  lemma RestoredMaterial(u: Object, hints: set<string>, disk: Option<Pair>)
    requires "private_key" !in u && Usable(disk)
    ensures var s := Repaired(Restored(u, disk), hints);
            && "private_key" !in s && SameBut(s, u, KEY_FIELDS + {"sni"}) && FromConfig(s, u)
            && (Paired(s) <==> HasPair(u) || disk.Some?)
  {
    PairIsPair(u);
  }

  lemma OneAfterTheOther(g: Object, s: Object, u: Object)
    requires SameBut(g, s, MATERIAL_KEYS) && SameBut(s, u, KEY_FIELDS + {"sni"}) && FromConfig(g, s) && FromConfig(s, u)
    ensures SameBut(g, u, MATERIAL_KEYS) && FromConfig(g, u)
  {
  }

  /**
   The generator turns an accepted configuration into a refused one: the configuration has no pair, and it gets
   one from disk next to another way of securing the listener, or it gets one minted next to a mirror entry
   that is null, or (AnyTLS) its only enabled wrapper was unfinished while another one stands in for it.
   */
  predicate Spoils(protocol: string, m: Object, disk: Option<Pair>) {
    !HasPair(m) && SpoiltBy(protocol, Unwrapped(m), disk)
  }

  /** ... for a configuration that is left with these wrappers. */
  predicate SpoiltBy(protocol: string, u: Object, disk: Option<Pair>) {
    match protocol
    case "vless" | "vmess" | "trojan" =>
      if disk.Some? then Exclusive(u) else NeedsCert(protocol, u) && "tlsmirror-config" in u
    case "anytls" =>
      if disk.Some? then AnyWrapperOn(u)
      else !NeedsCert(protocol, u) && !AnyWrapperOn(u) && !IsTrue(Get(u, "allow-insecure"))
    case _ => false
  }

  lemma GeneratedModesIff(protocol: string, m: Object, hints: set<string>, disk: Option<Pair>, minted: Option<Pair>)
    requires protocol in CERT_PROTOCOLS && "private_key" !in m && Usable(disk) && Usable(minted)
    requires TlsModes(protocol, m) && Generated(protocol, m, hints, disk, minted).Some?
    ensures TlsModes(protocol, Generated(protocol, m, hints, disk, minted).value) <==> !Spoils(protocol, m, disk)
  {
    var u, g := Unwrapped(m), Generated(protocol, m, hints, disk, minted).value;
    GeneratedMaterial(protocol, m, hints, disk, minted);
    PairIsPair(m);
    UnwrappedIsLess(m);
    LightenedPair(u, m);
    if protocol in {"vless", "vmess", "trojan"} {
      ExclusiveModesIff(protocol, m, u, g, disk);
    } else if protocol == "anytls" {
      WrappersLeft(m);
      AnyTlsModesIff(m, u, g, disk);
    }
  }

  lemma ExclusiveModesIff(protocol: string, m: Object, u: Object, g: Object, disk: Option<Pair>)
    requires protocol in {"vless", "vmess", "trojan"} && TlsModes(protocol, m) && HasPair(m) == Paired(m)
    requires Lightened(u, m) && SameBut(g, u, MATERIAL_KEYS)
    requires if HasPair(m) || disk.Some? || NeedsCert(protocol, u) then Paired(g) else Unpaired(g)
    ensures TlsModes(protocol, g) <==> HasPair(m) || !SpoiltBy(protocol, u, disk)
  {
    assert Exclusive(g) == Exclusive(u);
    assert Exclusive(u) ==> Exclusive(m);
    assert "reality-config" in u ==> !NeedsCert(protocol, u);
  }

  lemma AnyTlsModesIff(m: Object, u: Object, g: Object, disk: Option<Pair>)
    requires TlsModes("anytls", m) && HasPair(m) == Paired(m)
    requires Lightened(u, m) && SameBut(g, u, MATERIAL_KEYS) && (AnyWrapperOn(u) ==> Complete(u))
    requires if HasPair(m) || disk.Some? || NeedsCert("anytls", u) then Paired(g)
             else Unpaired(g) && Get(g, "allow-insecure") == Get(u, "allow-insecure")
    ensures TlsModes("anytls", g) <==> HasPair(m) || !SpoiltBy("anytls", u, disk)
  {
    SameWrappers(g, u);
    FewerWrappers(u, m);
    LightenedPair(u, m);
    assert NeedsCert("anytls", u) ==> !AnyWrapperOn(u);
  }

  lemma SameWrappers(g: Object, u: Object)
    requires SameBut(g, u, MATERIAL_KEYS)
    ensures forall k | k in {"shadow-tls", "res-tls", "jls-config"} :: WrapperOn(g, k) == WrapperOn(u, k)
  {
  }

  lemma FewerWrappers(u: Object, m: Object)
    requires Lightened(u, m)
    ensures forall k | k in {"shadow-tls", "res-tls", "jls-config"} && WrapperOn(u, k) :: WrapperOn(m, k)
  {
  }

  lemma WrappersAreWhole(m: Object)
    ensures var u := Unwrapped(m);
            && (Get(u, "jls-config").Fields? ==> WholeJls(Get(u, "jls-config").fields))
            && (Get(u, "shadow-tls").Fields? ==> WholeShadowTls(Get(u, "shadow-tls").fields))
            && (Get(u, "res-tls").Fields? ==> WholeResTls(Get(u, "res-tls").fields))
  {
    var a := Weeded(m, "jls-config", WholeJls);
    var b := Weeded(a, "shadow-tls", WholeShadowTls);
    var c := Weeded(b, "res-tls", WholeResTls);
    var d := Weeded(c, "jls-upstream", WholeUpstream);
    WeededIsWhole(m, "jls-config", WholeJls);
    WeededIsWhole(a, "shadow-tls", WholeShadowTls);
    WeededIsWhole(b, "res-tls", WholeResTls);
    WeededIsWhole(c, "jls-upstream", WholeUpstream);
    WeededIsWhole(d, "tlsmirror-config", WholeMirror);
    ObfsIsElsewhere(WeededAll(m));
  }

  /** An enabled wrapper that is still there is complete. */
  lemma WrappersLeft(m: Object)
    ensures AnyWrapperOn(Unwrapped(m)) ==> Complete(Unwrapped(m))
  {
    WrappersAreWhole(m);
  }

  // ---------------------------------------------------------------- the stored text

  /** decodeListenerConfig. */
  function Loaded(p: Panel, config: string): Option<Object> {
    if Trim(config) == "" then Some(map[])
    else match p.parse(config)
      case None => None
      case Some(Fields(m)) => Some(m)
      case Some(_) => Some(map[])
  }

  /** What the generator writes to the configuration of a listener, if anything. */
  function GeneratedText(p: Panel, protocol: string, config: string, hints: set<string>, disk: Option<Pair>,
                         minted: Option<Pair>): Option<string> {
    var loaded := Loaded(p, config);
    var after := if loaded.None? then None else Generated(protocol, loaded.value, hints, disk, minted);
    if after.None? || Trim(p.render(Fields(after.value))) == Trim(config) then None else Some(p.render(Fields(after.value)))
  }

  /** What hydration writes, if anything: unreadable configurations count as empty. */
  function HydratedText(p: Panel, protocol: string, config: string, disk: Option<Pair>): Option<string> {
    var loaded := Loaded(p, config);
    var m := if loaded.None? then map[] else loaded.value;
    if protocol !in CERT_PROTOCOLS || HasPair(m) || disk.None? then None else Some(p.render(Fields(Restored(m, disk))))
  }

  method DecodeListenerConfig(p: Panel, config: string) returns (m: Option<Object>)
    ensures m == Loaded(p, config)
  {
    if Trim(config) == "" {
      return Some(map[]);
    }
    var decoded := p.parse(config);
    if decoded.None? {
      return None;
    }
    return Some(if decoded.value.Fields? then decoded.value.fields else map[]);
  }

  /** What generateListeners stores: nothing when the text has not changed. */
  method GenerateText(p: Panel, protocol: string, config: string, hints: set<string>, disk: Option<Pair>, minted: Option<Pair>)
    returns (text: Option<string>)
    ensures text == GeneratedText(p, protocol, config, hints, disk, minted)
  {
    var m := DecodeListenerConfig(p, config);
    if m.None? {
      return None;
    }
    var g := GenerateConfig(protocol, m.value, hints, disk, minted);
    if g.None? {
      return None;
    }
    var patched := p.render(Fields(g.value));
    return if Trim(patched) != Trim(config) then Some(patched) else None;
  }

  /** One row of HydrateListenersFromDisk. */
  method HydrateText(p: Panel, protocol: string, config: string, disk: Option<Pair>) returns (text: Option<string>)
    ensures text == HydratedText(p, protocol, config, disk)
  {
    var supports := SupportsCertField(protocol);
    if !supports {
      return None;
    }
    var decoded := DecodeListenerConfig(p, config);
    var m: Object := if decoded.Some? then decoded.value else map[];
    var certificate, key := TextOf(Get(m, "certificate")), TextOf(Get(m, "private-key"));
    if key == "" {
      key := TextOf(Get(m, "private_key"));
    }
    if Trim(certificate) != "" && Trim(key) != "" {
      return None;
    }
    if disk.None? {
      return None;
    }
    m := m["certificate" := Str(disk.value.certificate)];
    m := m["private-key" := Str(disk.value.key)];
    m := m - {"private_key"};
    ghost var before := if decoded.Some? then decoded.value else map[];
    assert m == WithPair(before - {"private_key"}, disk.value);
    return Some(p.render(Fields(m)));
  }

  /** An object made from a settled one in ways validation does not mind, but perhaps for its TLS modes. */
  ghost predicate Derived(protocol: string, g: Object, m: Object) {
    && (forall k | k in g ::
          || (k in m && g[k] == m[k])
          || (k in PAIR_KEYS && protocol in CERT_PROTOCOLS && g[k].Str?)
          || (k == "obfs-opts" && k in m && exists mode, host :: g[k] == Obfs(mode, host)))
    && SameBut(g, m, SECURITY_KEYS)
  }

  /** Such an object has the same credentials, and looks the same to the other protocol checks. */
  lemma DerivedLooksTheSame(protocol: string, g: Object, m: Object)
    requires SameBut(g, m, SECURITY_KEYS)
    ensures View(g) == View(m) && g - SECURITY_KEYS == m - SECURITY_KEYS
  {
    assert forall k | k !in SECURITY_KEYS :: (k in g <==> k in m) && Get(g, k) == Get(m, k);
  }

  /** Validation of a rendered object that passes everything but, perhaps, the TLS modes. */
  lemma RenderedFitsIff(p: Panel, protocol: string, other: string, g: Object)
    requires LawfulPanel(p) && Sanitised(g) == g && AllAllowed(p, protocol, g) && AllAccepted(p, protocol, g)
    requires KindOf(protocol).Some? ==> HasExportCredentials(KindOf(protocol).value, View(g))
    requires p.specific(protocol, g - SECURITY_KEYS) && p.tls(protocol, other)
    ensures var text := p.render(Fields(g));
            Fit(p, protocol, other, text) == if TlsModes(protocol, g) then Some(text) else None
  {
    var text := p.render(Fields(g));
    assert p.parse(text) == Some(Fields(g)) && Trim(text) != "" && Decode(p, text) == g;
    assert SanitisedText(p, text) == Some(text);
  }

  /** Validation of such an object looks at its TLS modes only. */
  lemma DerivedFitsIff(p: Panel, protocol: string, other: string, config: string, g: Object)
    requires LawfulPanel(p) && Settled(p, protocol, other, config) && Derived(protocol, g, Decode(p, config))
    ensures var text := p.render(Fields(g));
            Fit(p, protocol, other, text) == if TlsModes(protocol, g) then Some(text) else None
  {
    DerivedIsAllowed(p, protocol, other, config, g);
    DerivedIsSanitised(p, protocol, other, config, g);
    DerivedLooksTheSame(protocol, g, Decode(p, config));
    RenderedFitsIff(p, protocol, other, g);
  }

  lemma DerivedIsAllowed(p: Panel, protocol: string, other: string, config: string, g: Object)
    requires LawfulPanel(p) && Settled(p, protocol, other, config) && Derived(protocol, g, Decode(p, config))
    ensures AllAllowed(p, protocol, g) && AllAccepted(p, protocol, g)
  {
    var m := Decode(p, config);
    forall k | k in g ensures p.allowed(protocol, k, g[k]) && p.accepted(protocol, k, g[k]) {
      if k in m {
        assert p.allowed(protocol, k, m[k]) && p.accepted(protocol, k, m[k]);
      }
    }
  }

  lemma DerivedIsSanitised(p: Panel, protocol: string, other: string, config: string, g: Object)
    requires LawfulPanel(p) && Settled(p, protocol, other, config) && Derived(protocol, g, Decode(p, config))
    ensures Sanitised(g) == g
  {
    CleanTextStays(p, config);
    SanitisedStays(g, Decode(p, config));
  }

  lemma SanitisedStays(g: Object, m: Object)
    requires Sanitised(m) == m && SameBut(g, m, SECURITY_KEYS)
    requires "reality-config" in g ==> "reality-config" in m && g["reality-config"] == m["reality-config"]
    ensures Sanitised(g) == g
  {
    assert forall k | k in PANEL_KEYS :: k !in Sanitised(m) && k !in SECURITY_KEYS;
    assert g - PANEL_KEYS == g && m - PANEL_KEYS == m;
    if "reality-config" in g && g["reality-config"].Fields? {
      assert g["reality-config"] == m["reality-config"] == Sanitised(m)["reality-config"];
    }
  }

  lemma GeneratedIsDerived(protocol: string, m: Object, hints: set<string>, disk: Option<Pair>, minted: Option<Pair>)
    requires "private_key" !in m && Usable(disk) && Usable(minted)
    requires Generated(protocol, m, hints, disk, minted).Some?
    ensures Derived(protocol, Generated(protocol, m, hints, disk, minted).value, m)
  {
    UnwrappedIsLess(m);
    if protocol in CERT_PROTOCOLS {
      GeneratedMaterial(protocol, m, hints, disk, minted);
    }
  }

  lemma SettledIsLoaded(p: Panel, protocol: string, other: string, config: string)
    requires LawfulPanel(p) && Settled(p, protocol, other, config)
    ensures Loaded(p, config) == Some(Decode(p, config)) && "private_key" !in Decode(p, config)
    ensures TlsModes(protocol, Decode(p, config))
  {
  }

  /** The exact effect of a generation on a settled configuration: it stays settled unless it is spoilt, and then it is refused. */
  lemma GenerationSpoilsIff(p: Panel, protocol: string, other: string, config: string, hints: set<string>,
                            disk: Option<Pair>, minted: Option<Pair>)
    requires LawfulPanel(p) && Settled(p, protocol, other, config) && Usable(disk) && Usable(minted)
    requires GeneratedText(p, protocol, config, hints, disk, minted).Some?
    ensures var text := GeneratedText(p, protocol, config, hints, disk, minted).value;
            Fit(p, protocol, other, text) == if Spoils(protocol, Decode(p, config), disk) then None else Some(text)
  {
    var m := Decode(p, config);
    SettledIsLoaded(p, protocol, other, config);
    var g := Generated(protocol, m, hints, disk, minted).value;
    GeneratedIsDerived(protocol, m, hints, disk, minted);
    DerivedFitsIff(p, protocol, other, config, g);
    if protocol in CERT_PROTOCOLS {
      GeneratedModesIff(protocol, m, hints, disk, minted);
    }
  }

  /** The same for hydration, which takes no wrapper away: a restored pair must not meet another way of securing. */
  predicate HydrationSpoils(protocol: string, m: Object) {
    match protocol
    case "vless" | "vmess" | "trojan" => Exclusive(m)
    case "anytls" => AnyWrapperOn(m)
    case _ => false
  }

  lemma HydrationSpoilsIff(p: Panel, protocol: string, other: string, config: string, disk: Option<Pair>)
    requires LawfulPanel(p) && Settled(p, protocol, other, config) && Usable(disk)
    requires HydratedText(p, protocol, config, disk).Some?
    ensures var text := HydratedText(p, protocol, config, disk).value;
            Fit(p, protocol, other, text) == if HydrationSpoils(protocol, Decode(p, config)) then None else Some(text)
  {
    SettledIsLoaded(p, protocol, other, config);
    HydratedModesIff(protocol, Decode(p, config), disk);
    DerivedFitsIff(p, protocol, other, config, Restored(Decode(p, config), disk));
  }

  lemma HydratedModesIff(protocol: string, m: Object, disk: Option<Pair>)
    requires protocol in CERT_PROTOCOLS && "private_key" !in m && Usable(disk) && disk.Some? && !HasPair(m)
    requires TlsModes(protocol, m)
    ensures var g := Restored(m, disk);
            Derived(protocol, g, m) && (TlsModes(protocol, g) <==> !HydrationSpoils(protocol, m))
  {
    var g := Restored(m, disk);
    assert m - {"private_key"} == m;
    assert Paired(g) && SameBut(g, m, MATERIAL_KEYS);
    PairIsPair(m);
    if protocol == "anytls" {
      SameWrappers(g, m);
    }
  }

  // ---------------------------------------------------------------- the row

  function PanelRules(parseIP: string -> Option<int>, supported: string -> bool, p: Panel): L.Rules {
    L.Rules(parseIP, supported, (protocol, other, config) => Fit(p, protocol, other, config))
  }

  /** A settled row whose configuration has been rewritten by a generation validates again exactly unless it is spoilt. */
  lemma GeneratedRowValidatesIff(parseIP: string -> Option<int>, supported: string -> bool, p: Panel, l: L.Listener,
                                 hints: set<string>, disk: Option<Pair>, minted: Option<Pair>)
    requires LawfulPanel(p) && Usable(disk) && Usable(minted)
    requires L.StableBut(x => L.Validate(PanelRules(parseIP, supported, p), x), l)
    requires GeneratedText(p, L.ProtocolOf(l), l.config, hints, disk, minted).Some?
    ensures var rules := PanelRules(parseIP, supported, p);
            var after := l.(config := GeneratedText(p, L.ProtocolOf(l), l.config, hints, disk, minted).value);
            L.Validate(rules, after) == if Spoils(L.ProtocolOf(l), Decode(p, l.config), disk) then None
                                        else Some(after.(publicHost := L.CanonicalHost(after.publicHost)))
  {
    var rules := PanelRules(parseIP, supported, p);
    var after := l.(config := GeneratedText(p, L.ProtocolOf(l), l.config, hints, disk, minted).value);
    assert L.Validate(rules, l).value.config == l.config;
    FittedIsSettled(p, L.ProtocolOf(l), l.other, l.config);
    GenerationSpoilsIff(p, L.ProtocolOf(l), l.other, l.config, hints, disk, minted);
    assert L.ProtocolOf(after) == L.ProtocolOf(l) && L.BindOf(after) == L.BindOf(l);
  }

  // ---------------------------------------------------------------- a listener that is spoilt

  /** certstore.Save after the rewrite: a whole pair is kept for the next time. */
  function Mirrored(disk: Option<Pair>, g: Object): Option<Pair> {
    if HasPair(g) then Some(Pair(Trim(TextOf(Get(g, "certificate"))) + "\n", Trim(KeyText(g)) + "\n")) else disk
  }

  lemma {:induction false} TrimOfLine(s: string)
    ensures Trim(s + "\n") == Trim(s)
  {
    TrimDropsLast(s, '\n');
  }

  /**
   A vless listener that had a certificate, was generated once, and is then moved to REALITY: the next generation
   puts the certificate it had kept next to the REALITY configuration, and validation refuses the two together.
   */
  lemma ForgottenPairComesBack(first: Object, hints: set<string>, minted: Option<Pair>, reality: Json, users: Json)
    requires HasPair(first) && "private_key" !in first && Usable(minted)
    ensures var moved := map["users" := users, "reality-config" := reality];
            var once := Generated("vless", first, hints, None, minted);
            && once.Some? && TlsModes("vless", moved)
            && var kept := Mirrored(None, once.value);
               var again := Generated("vless", moved, hints, kept, minted);
               && again.Some? && Paired(again.value) && "reality-config" in again.value
               && !TlsModes("vless", again.value) && Spoils("vless", moved, kept)
  {
    var once := Generated("vless", first, hints, None, minted);
    FirstGenerationKeepsThePair(first, hints, minted);
    TrimOfLine(Trim(TextOf(Get(once.value, "certificate"))));
    TrimOfLine(Trim(KeyText(once.value)));
    MovedIsSpoilt(Mirrored(None, once.value), hints, minted, reality, users);
  }

  lemma MovedIsSpoilt(kept: Option<Pair>, hints: set<string>, minted: Option<Pair>, reality: Json, users: Json)
    requires kept.Some? && Usable(kept) && Usable(minted)
    ensures var moved := map["users" := users, "reality-config" := reality];
            var again := Generated("vless", moved, hints, kept, minted);
            && TlsModes("vless", moved) && again.Some? && Paired(again.value) && "reality-config" in again.value
            && !TlsModes("vless", again.value) && Spoils("vless", moved, kept)
  {
    var moved := map["users" := users, "reality-config" := reality];
    NothingToUnwrap(moved);
    assert forall k | k in KEY_FIELDS :: k !in moved;
    RestoredMaterial(moved, hints, kept);
    SecuredWithPair("vless", Repaired(Restored(moved, kept), hints), minted);
    GeneratedMaterial("vless", moved, hints, kept, minted);
    PairIsPair(moved);
    GeneratedModesIff("vless", moved, hints, kept, minted);
  }

  lemma NothingToUnwrap(m: Object)
    requires forall k | k in WRAPPER_KEYS :: k !in m
    ensures Unwrapped(m) == m
  {
    assert "jls-config" !in m && "shadow-tls" !in m && "res-tls" !in m;
    assert "jls-upstream" !in m && "tlsmirror-config" !in m && "obfs-opts" !in m;
  }

  lemma SecuredWithPair(protocol: string, s: Object, minted: Option<Pair>)
    requires "private_key" !in s && Paired(s)
    ensures Secured(protocol, s, minted).Some? && HasPair(Secured(protocol, s, minted).value)
  {
    BlanksGo(s);
    PairIsPair(WithoutBlanks(s));
  }

  lemma FirstGenerationKeepsThePair(m: Object, hints: set<string>, minted: Option<Pair>)
    requires HasPair(m) && "private_key" !in m
    ensures Generated("vless", m, hints, None, minted).Some?
    ensures HasPair(Generated("vless", m, hints, None, minted).value)
  {
    var u := Unwrapped(m);
    UnwrappedIsLess(m);
    LightenedPair(u, m);
    var s := Repaired(Restored(u, None), hints);
    assert HasPair(s);
    PairIsPair(s);
    SecuredWithPair("vless", s, minted);
  }
}
