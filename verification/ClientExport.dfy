/**
The client side of the credentials of a listener (converter/client.go), and what it has to do with the
server side: whatever a client is given, the listener compiled from the same configuration and bound
users accepts.
*/
module ClientExport {
  import opened Wrappers
  import opened Text
  import opened Credentials

  // ---------------------------------------------------------------- credentials taken from the configuration

  predicate HasConfigUsers(users: Json) {
    users.Fields? && exists k | k in users.fields :: NonBlank(users.fields[k])
  }

  method TuicConfigHasUsers(users: Json) returns (found: bool)
    ensures found <==> HasConfigUsers(users)
  {
    if !users.Fields? {
      return false;
    }
    var todo := users.fields.Keys;
    while todo != {}
      invariant forall k | k in users.fields && k !in todo :: !NonBlank(users.fields[k])
      decreases todo
    {
      var k :| k in todo;
      todo := todo - {k};
      if NonBlank(users.fields[k]) {
        return true;
      }
    }
    return false;
  }

  method TuicTokenNonEmpty(token: Json) returns (found: bool)
    ensures found <==> Tokens(token) != []
  {
    if token.Str? {
      return Trim(token.text) != "";
    }
    if token.Items? {
      assert token.items[0..] == token.items;
      for i := 0 to |token.items|
        invariant TokensOf(token.items) == TokensOf(token.items[i..])
      {
        assert token.items[i..][1..] == token.items[i + 1..];
        if NonBlank(token.items[i]) {
          return true;
        }
      }
    }
    return false;
  }

  ghost predicate MapUser(users: Json, keyed: bool, c: Cred) {
    users.Fields? && exists k | k in users.fields :: NonBlank(users.fields[k]) && c == MapCred(users, keyed, k)
  }

  function MapCred(users: Json, keyed: bool, k: string): Cred
    requires users.Fields? && k in users.fields && NonBlank(users.fields[k])
  {
    Cred(k, Trim(users.fields[k].text), if keyed then k else "")
  }

  method FromMap(users: Json, keyed: bool) returns (out: seq<Cred>)
    ensures forall c :: c in out <==> MapUser(users, keyed, c)
  {
    out := [];
    if !users.Fields? {
      return;
    }
    var todo := users.fields.Keys;
    while todo != {}
      invariant todo <= users.fields.Keys
      invariant forall c :: c in out <==>
                  exists k | k in users.fields.Keys - todo :: NonBlank(users.fields[k]) && c == MapCred(users, keyed, k)
      decreases todo
    {
      var k :| k in todo;
      todo := todo - {k};
      if users.fields[k].Str? {
        var s := Trim(users.fields[k].text);
        if s != "" {
          out := out + [Cred(k, s, if keyed then k else "")];
        }
      }
    }
  }

  /** The credential of a configured user object, if it has what the kind needs. */
  function RowCred(byUuid: bool, row: Json): Option<Cred> {
    var username, password, uuid := TextOf(Field(row, "username")), TextOf(Field(row, "password")), TextOf(Field(row, "uuid"));
    if !row.Fields? then None
    else if byUuid then
      var id := if uuid == "" then username else uuid;
      if Trim(id) == "" then None else Some(Cred(id, password, id))
    else if Trim(password) == "" && Trim(uuid) == "" then None
    else Some(Cred(username, password, uuid))
  }

  ghost predicate ListUser(users: Json, byUuid: bool, c: Cred) {
    users.Items? && exists row | row in users.items :: RowCred(byUuid, row) == Some(c)
  }

  method ReadRow(byUuid: bool, row: Json) returns (cred: Option<Cred>)
    ensures cred == RowCred(byUuid, row)
  {
    if !row.Fields? {
      return None;
    }
    var uuid, password := TextOf(Field(row, "uuid")), TextOf(Field(row, "password"));
    if byUuid {
      if uuid == "" {
        uuid := TextOf(Field(row, "username"));
      }
      if Trim(uuid) == "" {
        return None;
      }
      return Some(Cred(uuid, password, uuid));
    }
    if Trim(password) == "" && Trim(uuid) == "" {
      return None;
    }
    return Some(Cred(TextOf(Field(row, "username")), password, uuid));
  }

  method FromList(users: Json, byUuid: bool) returns (out: seq<Cred>)
    ensures forall c :: c in out <==> ListUser(users, byUuid, c)
  {
    out := [];
    if !users.Items? {
      return;
    }
    for i := 0 to |users.items|
      invariant forall c :: c in out <==> exists row | row in users.items[..i] :: RowCred(byUuid, row) == Some(c)
    {
      var cred := ReadRow(byUuid, users.items[i]);
      if cred.Some? {
        out := out + [cred.value];
      }
      assert users.items[..i + 1] == users.items[..i] + [users.items[i]];
    }
    assert users.items[..|users.items|] == users.items;
  }

  predicate ClientUsesToken(kind: Kind, cfg: Config) {
    kind == TuicV4 || (kind == Tuic && Tokens(cfg.token) != [] && !HasConfigUsers(cfg.users))
  }

  /** A credential the configuration holds for this kind; those of token mode are never looked at. */
  ghost predicate FromConfig(kind: Kind, cfg: Config, c: Cred) {
    match kind
    case Vless | Vmess => ListUser(cfg.users, true, c)
    case Tuic | TuicV4 | TuicV5 => !ClientUsesToken(kind, cfg) && MapUser(cfg.users, true, c)
    case Hysteria2 | AnyTls =>
      || ListUser(cfg.users, false, c)
      || MapUser(cfg.users, false, c)
      || (NonBlank(cfg.password) && c == Cred("", Trim(cfg.password.text), "")
          && forall d :: !ListUser(cfg.users, false, d) && !MapUser(cfg.users, false, d))
    case _ => ListUser(cfg.users, false, c) || MapUser(cfg.users, false, c)
  }

  /** credentialsFromListenerConfig. */
  method CredentialsFromListenerConfig(kind: Kind, cfg: Config) returns (out: seq<Cred>)
    requires !ClientUsesToken(kind, cfg)
    ensures forall c :: c in out <==> FromConfig(kind, cfg, c)
  {
    match kind {
      case Vless | Vmess =>
        out := FromList(cfg.users, true);
      case Tuic | TuicV4 | TuicV5 =>
        out := FromMap(cfg.users, true);
      case Hysteria2 | AnyTls =>
        out := FromEither(cfg.users);
        if |out| == 0 && NonBlank(cfg.password) {
          assert forall d :: d !in out;
          out := [Cred("", Trim(cfg.password.text), "")];
        } else if |out| > 0 {
          assert out[0] in out;
        }
      case Trojan | ShadowQuic | TrustTunnel | Mieru =>
        out := FromEither(cfg.users);
    }
  }

  method FromEither(users: Json) returns (out: seq<Cred>)
    ensures forall c :: c in out <==> ListUser(users, false, c) || MapUser(users, false, c)
  {
    var named := FromMap(users, false);
    var listed := FromList(users, false);
    return named + listed;
  }

  // ---------------------------------------------------------------- profiles

  /** normalizeTUICToken: the first token as it stands, not the first usable one. */
  method NormalizeTuicToken(show: Json -> string, token: Json) returns (text: string)
    ensures text == ClientToken(show, token)
  {
    if token.Str? {
      return token.text;
    }
    if token.Items? {
      return if |token.items| > 0 then show(token.items[0]) else "";
    }
    return show(token);
  }

  function ClientToken(show: Json -> string, token: Json): string {
    match token
    case Str(s) => s
    case Items(items) => if items != [] then show(items[0]) else ""
    case _ => show(token)
  }

  /** The profile of one credential; UUIDs and TUIC entries may be skipped. */
  function Emitted(kind: Kind, c: Cred): Option<Proxy> {
    match kind
    case Vless | Vmess => if c.uuid == "" then None else Some(ByUuid(c.uuid))
    case Trojan | Hysteria2 | AnyTls => Some(ByPassword(c.password))
    case ShadowQuic | TrustTunnel | Mieru => Some(ByLogin(c.username, c.password))
    case Tuic | TuicV4 | TuicV5 => if Complete(c) then Some(ByKey(KeyOf(c), Trim(c.password))) else None
  }

  /** The part of listenerToProxies that writes the credential into a profile, protocol by protocol. */
  method EmitOne(kind: Kind, c: Cred) returns (p: Option<Proxy>)
    ensures p == Emitted(kind, c)
  {
    match kind
    case Vless | Vmess =>
      if c.uuid == "" {
        return None;
      }
      return Some(ByUuid(c.uuid));
    case Trojan | Hysteria2 | AnyTls =>
      return Some(ByPassword(c.password));
    case ShadowQuic | TrustTunnel | Mieru =>
      return Some(ByLogin(c.username, c.password));
    case Tuic | TuicV4 | TuicV5 =>
      var uuid := Trim(c.uuid);
      if uuid == "" {
        uuid := Trim(c.username);
      }
      var pass := Trim(c.password);
      if uuid == "" || pass == "" {
        return None;
      }
      return Some(ByKey(uuid, pass));
  }

  /** The bound credentials, or those of the configuration when nobody is bound. */
  ghost predicate Chosen(kind: Kind, cfg: Config, creds: seq<Cred>, c: Cred) {
    if creds != [] then c in creds else FromConfig(kind, cfg, c)
  }

  ghost predicate Offers(show: Json -> string, kind: Kind, cfg: Config, creds: seq<Cred>, p: Proxy) {
    if ClientUsesToken(kind, cfg) then Tokens(cfg.token) != [] && p == ByToken(ClientToken(show, cfg.token))
    else exists c :: Chosen(kind, cfg, creds, c) && Emitted(kind, c) == Some(p)
  }

  /** listenerToProxies behind its protocol check, as far as credentials go. */
  method EmitProxies(show: Json -> string, kind: Kind, cfg: Config, creds: seq<Cred>) returns (result: Option<seq<Proxy>>)
    ensures ClientUsesToken(kind, cfg) && Tokens(cfg.token) != [] ==> result == Some([ByToken(ClientToken(show, cfg.token))])
    ensures result.Some? ==> forall p :: p in result.value <==> Offers(show, kind, cfg, creds, p)
    ensures result.None? ==> forall p :: !Offers(show, kind, cfg, creds, p)
  {
    var tokens := TuicTokenNonEmpty(cfg.token);
    var users := TuicConfigHasUsers(cfg.users);
    if kind == TuicV4 || (kind == Tuic && tokens && !users) {
      if !tokens {
        return None;
      }
      var token := NormalizeTuicToken(show, cfg.token);
      return Some([ByToken(token)]);
    }
    var chosen := creds;
    if chosen == [] {
      chosen := CredentialsFromListenerConfig(kind, cfg);
    }
    assert forall c :: c in chosen <==> Chosen(kind, cfg, creds, c);
    var proxies := EmitAll(kind, chosen);
    if proxies == [] && (kind in {Tuic, TuicV5} || chosen == []) {
      assert forall p :: p !in proxies;
      return None;
    }
    return Some(proxies);
  }

  method EmitAll(kind: Kind, chosen: seq<Cred>) returns (proxies: seq<Proxy>)
    ensures forall p :: p in proxies <==> exists c :: c in chosen && Emitted(kind, c) == Some(p)
  {
    proxies := [];
    for i := 0 to |chosen|
      invariant forall p :: p in proxies <==> exists c :: c in chosen[..i] && Emitted(kind, c) == Some(p)
    {
      var p := EmitOne(kind, chosen[i]);
      if p.Some? {
        proxies := proxies + [p.value];
      }
      assert chosen[..i + 1] == chosen[..i] + [chosen[i]];
    }
    assert chosen[..|chosen|] == chosen;
  }

  // ---------------------------------------------------------------- nobody is left out

  /** The credential of this user is among the profiles, unless the protocol cannot use it. */
  ghost predicate HandedOut(kind: Kind, c: Cred, profiles: seq<Proxy>) {
    match kind
    case Vless | Vmess => c.uuid != "" ==> ByUuid(c.uuid) in profiles
    case Trojan | Hysteria2 | AnyTls => ByPassword(c.password) in profiles
    case ShadowQuic | TrustTunnel | Mieru => ByLogin(c.username, c.password) in profiles
    case Tuic | TuicV4 | TuicV5 =>
      Trim(c.password) != "" ==>
        if Trim(c.uuid) != "" then ByKey(Trim(c.uuid), Trim(c.password)) in profiles
        else Trim(c.username) != "" ==> ByKey(Trim(c.username), Trim(c.password)) in profiles
  }

  /** The same for a user object of a configured list. */
  ghost predicate RowHandedOut(kind: Kind, row: Json, profiles: seq<Proxy>) {
    var username, password, uuid := TextOf(Field(row, "username")), TextOf(Field(row, "password")), TextOf(Field(row, "uuid"));
    match kind
    case Vless | Vmess =>
      && (Trim(uuid) != "" ==> ByUuid(uuid) in profiles)
      && (uuid == "" && Trim(username) != "" ==> ByUuid(username) in profiles)
    case Trojan | Hysteria2 | AnyTls => Trim(password) != "" || Trim(uuid) != "" ==> ByPassword(password) in profiles
    case ShadowQuic | TrustTunnel | Mieru => Trim(password) != "" || Trim(uuid) != "" ==> ByLogin(username, password) in profiles
    case Tuic | TuicV4 | TuicV5 => true
  }

  /** The same for an entry of a configured map. */
  ghost predicate EntryHandedOut(kind: Kind, name: string, secret: string, profiles: seq<Proxy>) {
    match kind
    case Vless | Vmess => true
    case Trojan | Hysteria2 | AnyTls => secret != "" ==> ByPassword(secret) in profiles
    case ShadowQuic | TrustTunnel | Mieru => secret != "" ==> ByLogin(name, secret) in profiles
    case Tuic | TuicV4 | TuicV5 => secret != "" && Trim(name) != "" ==> ByKey(Trim(name), secret) in profiles
  }

  /** Every bound user finds a profile with the credential of his own; without any, every configured one does. */
  ghost predicate NobodyLeftOut(kind: Kind, cfg: Config, creds: seq<Cred>, profiles: seq<Proxy>) {
    && (forall c | c in creds :: HandedOut(kind, c, profiles))
    && (creds == [] && cfg.users.Items? ==>
          forall row | row in cfg.users.items && row.Fields? :: RowHandedOut(kind, row, profiles))
    && (creds == [] && cfg.users.Fields? ==>
          forall name | name in cfg.users.fields && cfg.users.fields[name].Str? ::
            EntryHandedOut(kind, name, Trim(cfg.users.fields[name].text), profiles))
    && (creds == [] && kind in {Hysteria2, AnyTls} && cfg.users.Null? && cfg.password.Str? && Trim(cfg.password.text) != "" ==>
          ByPassword(Trim(cfg.password.text)) in profiles)
  }

  /** A legacy TUIC listener with a usable token and no usable users. */
  ghost predicate TokensOnly(cfg: Config) {
    Tokens(cfg.token) != [] && !(cfg.users.Fields? && exists k | k in cfg.users.fields :: NonBlank(cfg.users.fields[k]))
  }

  /** The profiles of an export are complete. */
  lemma EveryUserGetsAProfile(show: Json -> string, kind: Kind, cfg: Config, creds: seq<Cred>, profiles: seq<Proxy>)
    requires !(kind == Tuic && TokensOnly(cfg)) && kind != TuicV4
    requires forall p :: Offers(show, kind, cfg, creds, p) ==> p in profiles
    ensures NobodyLeftOut(kind, cfg, creds, profiles)
  {
    forall c | c in creds ensures HandedOut(kind, c, profiles) {
      assert Chosen(kind, cfg, creds, c);
      assert Emitted(kind, c).Some? ==> Offers(show, kind, cfg, creds, Emitted(kind, c).value);
    }
    if creds == [] {
      ConfiguredGetProfiles(show, kind, cfg, profiles);
    }
  }

  lemma ConfiguredGetProfiles(show: Json -> string, kind: Kind, cfg: Config, profiles: seq<Proxy>)
    requires !ClientUsesToken(kind, cfg) && forall p :: Offers(show, kind, cfg, [], p) ==> p in profiles
    ensures NobodyLeftOut(kind, cfg, [], profiles)
  {
    if cfg.users.Items? {
      forall row | row in cfg.users.items && row.Fields? ensures RowHandedOut(kind, row, profiles) {
        var cred := RowCred(kind in {Vless, Vmess}, row);
        if cred.Some? && kind !in {Tuic, TuicV4, TuicV5} {
          assert ListUser(cfg.users, kind in {Vless, Vmess}, cred.value) && Chosen(kind, cfg, [], cred.value);
          assert Emitted(kind, cred.value).Some? ==> Offers(show, kind, cfg, [], Emitted(kind, cred.value).value);
        }
      }
    }
    if cfg.users.Fields? {
      forall name | name in cfg.users.fields && NonBlank(cfg.users.fields[name])
        ensures EntryHandedOut(kind, name, Trim(cfg.users.fields[name].text), profiles)
      {
        var c := MapCred(cfg.users, kind in {Tuic, TuicV4, TuicV5}, name);
        if kind !in {Vless, Vmess} {
          assert MapUser(cfg.users, kind in {Tuic, TuicV4, TuicV5}, c) && Chosen(kind, cfg, [], c);
          assert Emitted(kind, c).Some? ==> Offers(show, kind, cfg, [], Emitted(kind, c).value);
        }
      }
    }
    if kind in {Hysteria2, AnyTls} && cfg.users.Null? && NonBlank(cfg.password) {
      var c := Cred("", Trim(cfg.password.text), "");
      assert Chosen(kind, cfg, [], c) && Emitted(kind, c) == Some(ByPassword(c.password));
      assert Offers(show, kind, cfg, [], ByPassword(c.password));
    }
  }

  /**
   listenerToProxies. The protocol list it consults (internal/config) does not know tuic-v4 and tuic-v5,
   so those two are always refused here and exported by BuildShare instead.
   */
  method ListenerToProxies(show: Json -> string, kind: Kind, cfg: Config, creds: seq<Cred>) returns (result: Option<seq<Proxy>>)
    ensures kind in {TuicV4, TuicV5} ==> result.None?
    ensures result.Some? ==> forall p :: p in result.value <==> Offers(show, kind, cfg, creds, p)
    ensures result.None? && kind !in {TuicV4, TuicV5} ==> forall p :: !Offers(show, kind, cfg, creds, p)
    ensures kind !in {TuicV4, TuicV5} && !(kind == Tuic && TokensOnly(cfg)) ==>
              NobodyLeftOut(kind, cfg, creds, if result.Some? then result.value else [])
    ensures kind == Tuic && TokensOnly(cfg) && cfg.token.Str? ==> result == Some([ByToken(cfg.token.text)])
    ensures kind == Tuic && TokensOnly(cfg) && cfg.token.Items? ==> result == Some([ByToken(show(cfg.token.items[0]))])
  {
    if kind in {TuicV4, TuicV5} {
      return None;
    }
    result := EmitProxies(show, kind, cfg, creds);
    if !(kind == Tuic && TokensOnly(cfg)) {
      EveryUserGetsAProfile(show, kind, cfg, creds, if result.Some? then result.value else []);
    }
  }

  // ---------------------------------------------------------------- agreement

  ghost predicate ShowsStrings(show: Json -> string) {
    forall s :: show(Str(s)) == s
  }

  /** What validateUserRow demands: every user object has this string. */
  predicate CleanRows(users: Json, key: string) {
    users.Items? && forall row | row in users.items && row.Fields? :: NonBlank(Field(row, key))
  }

  /** A map of non-blank trimmed strings, as autofill leaves it. */
  predicate CleanMap(users: Json) {
    && users.Fields? && users.fields != map[]
    && forall k | k in users.fields :: NonBlank(users.fields[k]) && Trimmed(users.fields[k].text)
  }

  predicate TrimmedKeys(users: Json) {
    users.Fields? ==> forall k | k in users.fields :: Trimmed(k)
  }

  /** The first token can be presented as it stands. */
  predicate CleanFirstToken(token: Json) {
    match token
    case Str(s) => Trimmed(s)
    case Items(items) => items != [] && NonBlank(items[0]) && Trimmed(items[0].text)
    case _ => false
  }

  predicate SoundTuic(cfg: Config, creds: seq<Cred>, tokens: bool) {
    if tokens then CleanFirstToken(cfg.token)
    else if creds != [] then ConsistentKeys(creds)
    else TrimmedKeys(cfg.users)
  }

  /** What validation, autofill and the unique user names and UUIDs of the panel provide. */
  predicate Sound(kind: Kind, cfg: Config, creds: seq<Cred>) {
    match kind
    case Vless | Vmess => creds == [] ==> CleanRows(cfg.users, "uuid")
    case Trojan | ShadowQuic | TrustTunnel => creds == [] ==> CleanRows(cfg.users, "password")
    case Hysteria2 | AnyTls => if creds != [] then ConsistentNames(creds) else CleanMap(cfg.users)
    case Mieru => if creds != [] then ConsistentNames(creds) && AllNamed(creds) else CleanMap(cfg.users)
    case Tuic | TuicV4 | TuicV5 =>
      ServerUsesTokens(kind, cfg) == ClientUsesToken(kind, cfg) && SoundTuic(cfg, creds, ServerUsesTokens(kind, cfg))
  }

  predicate AllNamed(creds: seq<Cred>) {
    forall c | c in creds :: c.username != ""
  }

  /** Whatever a client is given, the server accepts. */
  lemma ClientIsAccepted(show: Json -> string, kind: Kind, cfg: Config, creds: seq<Cred>, random: string,
                         inbound: Inbound, p: Proxy)
    requires ShowsStrings(show) && Sound(kind, cfg, creds)
    requires Serves(show, kind, cfg, creds, random, inbound) && Offers(show, kind, cfg, creds, p)
    ensures Admits(inbound, p)
  {
    if ClientUsesToken(kind, cfg) {
      CleanTokenIsServed(show, cfg.token);
    } else {
      var c :| Chosen(kind, cfg, creds, c) && Emitted(kind, c) == Some(p);
      if !UsesList(kind) { EntryIsServed(show, kind, cfg, creds, random, inbound, c); }
      else if creds != [] { BoundRowIsServed(show, kind, cfg, creds, random, inbound, c); }
      else { ConfiguredRowIsServed(show, kind, cfg, random, inbound, c); }
    }
  }

  lemma EntryIsServed(show: Json -> string, kind: Kind, cfg: Config, creds: seq<Cred>, random: string,
                      inbound: Inbound, c: Cred)
    requires ShowsStrings(show) && Sound(kind, cfg, creds) && !UsesList(kind) && !ClientUsesToken(kind, cfg)
    requires Serves(show, kind, cfg, creds, random, inbound)
    requires Chosen(kind, cfg, creds, c) && Emitted(kind, c).Some?
    ensures Admits(inbound, Emitted(kind, c).value)
  {
    if creds != [] {
      var i :| 0 <= i < |creds| && creds[i] == c;
      if UsesNames(kind) { ByNameFinds(creds, i); }
      else { ByKeysFinds(ConfigKeys(show, cfg.users), creds, i); }
    } else if UsesNames(kind) {
      CleanMapIsServed(kind, cfg, c);
    }
  }

  lemma BoundRowIsServed(show: Json -> string, kind: Kind, cfg: Config, creds: seq<Cred>, random: string,
                         inbound: Inbound, c: Cred)
    requires UsesList(kind) && c in creds && Emitted(kind, c).Some?
    requires Serves(show, kind, cfg, creds, random, inbound)
    ensures Admits(inbound, Emitted(kind, c).value)
  {
    var row := Fields(RowOf(kind in {Vless, Vmess}, c));
    assert row.fields != map[] by {
      assert "uuid" in row.fields || "password" in row.fields;
    }
    assert ServerRow(show, cfg, creds, kind in {Vless, Vmess}, row);
    assert row in inbound.list;
  }

  lemma ConfiguredRowIsServed(show: Json -> string, kind: Kind, cfg: Config, random: string, inbound: Inbound, c: Cred)
    requires UsesList(kind) && Sound(kind, cfg, []) && FromConfig(kind, cfg, c) && Emitted(kind, c).Some?
    requires Serves(show, kind, cfg, [], random, inbound)
    ensures Admits(inbound, Emitted(kind, c).value)
  {
  }

  lemma CleanMapIsServed(kind: Kind, cfg: Config, c: Cred)
    requires UsesNames(kind) && CleanMap(cfg.users) && FromConfig(kind, cfg, c)
    ensures c.username in cfg.users.fields && cfg.users.fields[c.username] == Str(c.password)
  {
    var k :| k in cfg.users.fields;
    assert MapUser(cfg.users, false, MapCred(cfg.users, false, k));
  }

  lemma CleanTokenIsServed(show: Json -> string, token: Json)
    requires ShowsStrings(show) && CleanFirstToken(token) && Tokens(token) != []
    ensures ClientToken(show, token) in Tokens(token)
  {
  }

  /** What a client presents is the credential of this user, as the kind looks at it. */
  predicate Presents(c: Cred, p: Proxy) {
    match p
    case ByUuid(uuid) => c.uuid == uuid
    case ByPassword(secret) => c.password == secret
    case ByLogin(name, secret) => (c.username == name || (c.username == "" && name == "default")) && c.password == secret
    case ByKey(name, secret) => (c.username == name || (c.username == "" && name == "default")) && c.password == secret
    case ByToken(_) => false
  }

  /** A listener with bound users lets nobody else in. */
  lemma OnlyUsersAreAdmitted(show: Json -> string, kind: Kind, cfg: Config, creds: seq<Cred>, random: string,
                             inbound: Inbound, p: Proxy)
    requires kind !in {Tuic, TuicV4, TuicV5} && creds != []
    requires Serves(show, kind, cfg, creds, random, inbound) && Admits(inbound, p)
    ensures exists c | c in creds :: Presents(c, p)
  {
    if row :| row in inbound.list && AdmittedByRow(row, p) {
      var c :| c in creds && RowOf(kind in {Vless, Vmess}, c) != map[] && row == Fields(RowOf(kind in {Vless, Vmess}, c));
      assert Presents(c, p);
    } else {
      var name :| name in inbound.table && AdmittedByEntry(name, inbound.table[name], p);
      EntryBelongsToUser(creds, name, p);
    }
  }

  lemma EntryBelongsToUser(creds: seq<Cred>, name: string, p: Proxy)
    requires name in ByName(creds) && AdmittedByEntry(name, ByName(creds)[name], p)
    ensures exists c | c in creds :: Presents(c, p)
  {
    ServedAreSurvivors(creds, name);
    var j :| 0 <= j < |creds| && Survives(creds, j) && NameKey(creds[j]) == name && ByName(creds)[name] == Str(creds[j].password);
    assert creds[j] in creds && Presents(creds[j], p);
  }

  predicate AdmittedByRow(row: Json, p: Proxy) {
    match p
    case ByUuid(uuid) => Field(row, "uuid") == Str(uuid)
    case ByPassword(secret) => Field(row, "password") == Str(secret)
    case ByLogin(name, secret) => TextOf(Field(row, "username")) == name && Field(row, "password") == Str(secret)
    case _ => false
  }

  predicate AdmittedByEntry(name: string, value: Json, p: Proxy) {
    match p
    case ByPassword(secret) => value == Str(secret)
    case ByLogin(n, secret) => n == name && value == Str(secret)
    case ByKey(n, secret) => n == name && value == Str(secret)
    case _ => false
  }

  // ---------------------------------------------------------------- nothing weaker will do

  /** Every profile handed out is accepted. */
  ghost predicate Agree(show: Json -> string, kind: Kind, cfg: Config, creds: seq<Cred>, inbound: Inbound) {
    forall p :: Offers(show, kind, cfg, creds, p) ==> Admits(inbound, p)
  }

  /** Both sides let TUIC users in by key: tuic-v5, and the legacy kind without tokens. */
  predicate KeyMode(kind: Kind, cfg: Config) {
    kind == TuicV5 || (kind == Tuic && Tokens(cfg.token) == [])
  }

  /** Both sides go by tokens: tuic-v4, and the legacy kind with tokens and without users. */
  predicate TokenMode(kind: Kind, cfg: Config) {
    Tokens(cfg.token) != [] && (kind == TuicV4 || (kind == Tuic && !HasConfigUsers(cfg.users)))
  }

  /** Bound TUIC users: exactly when no key comes with two passwords. */
  lemma BoundKeysAgreeIff(show: Json -> string, kind: Kind, cfg: Config, creds: seq<Cred>, random: string, inbound: Inbound)
    requires ShowsStrings(show) && KeyMode(kind, cfg) && creds != []
    requires Serves(show, kind, cfg, creds, random, inbound)
    ensures Agree(show, kind, cfg, creds, inbound) <==> ConsistentKeys(creds)
  {
    if ConsistentKeys(creds) {
      forall p | Offers(show, kind, cfg, creds, p) ensures Admits(inbound, p) {
        ClientIsAccepted(show, kind, cfg, creds, random, inbound, p);
      }
    }
    if Agree(show, kind, cfg, creds, inbound) {
      forall i | 0 <= i < |creds| && Complete(creds[i])
        ensures KeyOf(creds[i]) in inbound.table && inbound.table[KeyOf(creds[i])] == Str(Trim(creds[i].password))
      {
        assert Chosen(kind, cfg, creds, creds[i]);
        assert Offers(show, kind, cfg, creds, ByKey(KeyOf(creds[i]), Trim(creds[i].password)));
      }
    }
  }

  /** The entry of a configured map that a client is handed: a usable password under a key that is not blank. */
  predicate KeyEntry(users: Json, k: string) {
    users.Fields? && k in users.fields && NonBlank(users.fields[k]) && Trim(k) != ""
  }

  /** The trimmed key stands in the map itself, with the same password. */
  predicate KeyFits(show: Json -> string, fields: map<string, Json>, k: string)
    requires k in fields && NonBlank(fields[k])
  {
    Trim(k) in fields && Trim(show(fields[Trim(k)])) == Trim(fields[k].text)
  }

  predicate KeysHaveTwins(show: Json -> string, users: Json) {
    users.Fields? ==> forall k | k in users.fields && KeyEntry(users, k) :: KeyFits(show, users.fields, k)
  }

  /** Unbound TUIC listeners with configured users: exactly when every padded key has such a twin. */
  lemma ConfiguredKeysAgreeIff(show: Json -> string, kind: Kind, cfg: Config, random: string, inbound: Inbound)
    requires KeyMode(kind, cfg) && Serves(show, kind, cfg, [], random, inbound)
    ensures Agree(show, kind, cfg, [], inbound) <==> KeysHaveTwins(show, cfg.users)
  {
    if Agree(show, kind, cfg, [], inbound) && cfg.users.Fields? {
      forall k | k in cfg.users.fields && KeyEntry(cfg.users, k) ensures KeyFits(show, cfg.users.fields, k) {
        KeyIsOffered(show, kind, cfg, random, inbound, k);
      }
    }
    if KeysHaveTwins(show, cfg.users) {
      forall p | Offers(show, kind, cfg, [], p) ensures Admits(inbound, p) {
        var c :| Chosen(kind, cfg, [], c) && Emitted(kind, c) == Some(p);
        var k :| k in cfg.users.fields && NonBlank(cfg.users.fields[k]) && c == MapCred(cfg.users, true, k);
        KeyIsOffered(show, kind, cfg, random, inbound, k);
      }
    }
  }

  lemma KeyIsOffered(show: Json -> string, kind: Kind, cfg: Config, random: string, inbound: Inbound, k: string)
    requires KeyMode(kind, cfg) && Serves(show, kind, cfg, [], random, inbound) && KeyEntry(cfg.users, k)
    ensures var p := ByKey(Trim(k), Trim(cfg.users.fields[k].text));
            && Emitted(kind, MapCred(cfg.users, true, k)) == Some(p) && Offers(show, kind, cfg, [], p)
            && (Admits(inbound, p) <==> KeyFits(show, cfg.users.fields, k))
  {
    var c := MapCred(cfg.users, true, k);
    assert c == Cred(k, Trim(cfg.users.fields[k].text), k) && KeyOf(c) == Trim(k);
    assert MapUser(cfg.users, true, c) && FromConfig(kind, cfg, c);
    assert Chosen(kind, cfg, [], c);
    assert inbound.table == ConfigKeys(show, cfg.users);
  }

  /** Bound Mieru users: exactly when everyone has a name and no name comes with two passwords. */
  lemma BoundNamesAgreeIff(show: Json -> string, cfg: Config, creds: seq<Cred>, random: string, inbound: Inbound)
    requires ShowsStrings(show) && creds != [] && Serves(show, Mieru, cfg, creds, random, inbound)
    ensures Agree(show, Mieru, cfg, creds, inbound) <==> ConsistentNames(creds) && AllNamed(creds)
  {
    if ConsistentNames(creds) && AllNamed(creds) {
      forall p | Offers(show, Mieru, cfg, creds, p) ensures Admits(inbound, p) {
        ClientIsAccepted(show, Mieru, cfg, creds, random, inbound, p);
      }
    }
    if Agree(show, Mieru, cfg, creds, inbound) {
      forall c | c in creds
        ensures c.username in inbound.table && inbound.table[c.username] == Str(c.password) && c.username != ""
      {
        assert Chosen(Mieru, cfg, creds, c);
        assert Offers(show, Mieru, cfg, creds, ByLogin(c.username, c.password));
        assert Admits(inbound, ByLogin(c.username, c.password));
        NobodyIsCalledNothing(creds);
      }
    }
  }

  lemma NobodyIsCalledNothing(creds: seq<Cred>)
    ensures "" !in ByName(creds)
  {
  }

  /** Bound Hysteria 2 and AnyTLS users: exactly when every password survives under some name. */
  lemma BoundPasswordsAgreeIff(show: Json -> string, kind: Kind, cfg: Config, creds: seq<Cred>, random: string, inbound: Inbound)
    requires kind in {Hysteria2, AnyTls} && creds != [] && Serves(show, kind, cfg, creds, random, inbound)
    ensures Agree(show, kind, cfg, creds, inbound) <==> EverySecretSurvives(creds)
  {
    assert kind == Hysteria2 || kind == AnyTls;
    assert inbound.table == ByName(creds);
    forall i | 0 <= i < |creds| ensures Admits(inbound, ByPassword(creds[i].password)) <==> SecretSurvives(creds, i) {
      AdmittedByTable(inbound, creds[i].password);
      ServedIffSurviving(creds, i);
    }
    forall p ensures Offers(show, kind, cfg, creds, p) <==> exists i | 0 <= i < |creds| :: p == ByPassword(creds[i].password) {
      BoundOffers(show, kind, cfg, creds, p);
    }
    if Agree(show, kind, cfg, creds, inbound) {
      forall i | 0 <= i < |creds| ensures SecretSurvives(creds, i) {
        assert Offers(show, kind, cfg, creds, ByPassword(creds[i].password));
      }
    }
  }

  lemma AdmittedByTable(inbound: Inbound, secret: string)
    requires forall row :: row !in inbound.list
    ensures Admits(inbound, ByPassword(secret)) <==> Stored(inbound.table, secret)
  {
  }

  predicate Stored(table: map<string, Json>, secret: string) {
    exists name | name in table :: table[name] == Str(secret)
  }

  /** These kinds offer the passwords of the bound users. */
  lemma BoundOffers(show: Json -> string, kind: Kind, cfg: Config, creds: seq<Cred>, p: Proxy)
    requires kind in {Hysteria2, AnyTls} && creds != []
    ensures Offers(show, kind, cfg, creds, p) <==> exists i | 0 <= i < |creds| :: p == ByPassword(creds[i].password)
  {
    if Offers(show, kind, cfg, creds, p) {
      var c :| Chosen(kind, cfg, creds, c) && Emitted(kind, c) == Some(p);
      var i :| 0 <= i < |creds| && creds[i] == c;
      assert p == ByPassword(creds[i].password);
    }
    if i :| 0 <= i < |creds| && p == ByPassword(creds[i].password) {
      assert Chosen(kind, cfg, creds, creds[i]) && Emitted(kind, creds[i]) == Some(p);
    }
  }

  lemma ServedIffSurviving(creds: seq<Cred>, i: nat)
    requires i < |creds|
    ensures Stored(ByName(creds), creds[i].password) <==> SecretSurvives(creds, i)
  {
    if name :| name in ByName(creds) && ByName(creds)[name] == Str(creds[i].password) {
      ServedAreSurvivors(creds, name);
    }
    if j :| 0 <= j < |creds| && Survives(creds, j) && creds[j].password == creds[i].password {
      SurvivorsAreServed(creds, j);
    }
  }

  /** No later credential has the same name. */
  predicate Survives(creds: seq<Cred>, j: nat)
    requires j < |creds|
  {
    forall k | j < k < |creds| :: NameKey(creds[k]) != NameKey(creds[j])
  }

  predicate SecretSurvives(creds: seq<Cred>, i: nat)
    requires i < |creds|
  {
    exists j | 0 <= j < |creds| :: Survives(creds, j) && creds[j].password == creds[i].password
  }

  predicate EverySecretSurvives(creds: seq<Cred>) {
    forall i | 0 <= i < |creds| :: SecretSurvives(creds, i)
  }

  lemma {:induction false} SurvivorsAreServed(creds: seq<Cred>, j: nat)
    requires j < |creds| && Survives(creds, j)
    ensures NameKey(creds[j]) in ByName(creds) && ByName(creds)[NameKey(creds[j])] == Str(creds[j].password)
  {
    if j < |creds| - 1 {
      var front := creds[..|creds| - 1];
      assert front[j] == creds[j];
      SurvivorsAreServed(front, j);
    }
  }

  lemma {:induction false} ServedAreSurvivors(creds: seq<Cred>, name: string)
    requires name in ByName(creds)
    ensures exists j | 0 <= j < |creds| ::
              Survives(creds, j) && NameKey(creds[j]) == name && ByName(creds)[name] == Str(creds[j].password)
  {
    var n := |creds| - 1;
    if NameKey(creds[n]) == name {
      assert Survives(creds, n);
    } else {
      ServedAreSurvivors(creds[..n], name);
      var j :| 0 <= j < n && Survives(creds[..n], j) && NameKey(creds[..n][j]) == name
               && ByName(creds[..n])[name] == Str(creds[..n][j].password);
      assert Survives(creds, j);
    }
  }

  /** No row of a configured list gives the client a credential. */
  predicate NoListUser(users: Json) {
    users.Items? ==> forall row | row in users.items :: RowCred(false, row).None?
  }

  /** Every usable password of a configured map is stored without padding under its name. */
  predicate PlainEntries(users: Json) {
    users.Fields? ==> forall k | k in users.fields && NonBlank(users.fields[k]) :: Trimmed(users.fields[k].text)
  }

  /** Every padded password of a configured map also stands there without padding. */
  predicate PaddedHaveTwins(users: Json) {
    users.Fields? ==>
      forall k | k in users.fields && NonBlank(users.fields[k]) :: Stored(users.fields, Trim(users.fields[k].text))
  }

  /** The configured password is handed out, which no listener of these kinds accepts. */
  predicate FallsBack(kind: Kind, cfg: Config) {
    kind in {Hysteria2, AnyTls} && NonBlank(cfg.password) && !HasConfigUsers(cfg.users)
  }

  /** Unbound listeners with a map of names: exactly when the credentials come from the map, free of padding. */
  lemma ConfiguredNamesAgreeIff(show: Json -> string, kind: Kind, cfg: Config, random: string, inbound: Inbound)
    requires UsesNames(kind) && Serves(show, kind, cfg, [], random, inbound)
    ensures Agree(show, kind, cfg, [], inbound) <==>
            && NoListUser(cfg.users) && !FallsBack(kind, cfg)
            && if kind == Mieru then PlainEntries(cfg.users) else PaddedHaveTwins(cfg.users)
  {
    if Agree(show, kind, cfg, [], inbound) {
      ListUsersAreRefused(show, kind, cfg, random, inbound);
      if FallsBack(kind, cfg) {
        FallbackIsRefused(show, kind, cfg, random, inbound);
      }
      if cfg.users.Fields? {
        forall k | k in cfg.users.fields && NonBlank(cfg.users.fields[k]) ensures EntryFits(kind, cfg.users.fields, k) {
          EntryIsOffered(show, kind, cfg, random, inbound, k);
        }
      }
    }
    if NoListUser(cfg.users) && !FallsBack(kind, cfg)
       && if kind == Mieru then PlainEntries(cfg.users) else PaddedHaveTwins(cfg.users) {
      forall p | Offers(show, kind, cfg, [], p) ensures Admits(inbound, p) {
        var c :| Chosen(kind, cfg, [], c) && Emitted(kind, c) == Some(p);
        OnlyMapUsers(kind, cfg, c);
        var k :| k in cfg.users.fields && NonBlank(cfg.users.fields[k]) && c == MapCred(cfg.users, false, k);
        assert EntryFits(kind, cfg.users.fields, k);
        EntryIsOffered(show, kind, cfg, random, inbound, k);
      }
    }
  }

  /** The profile of this entry of a configured map is accepted. */
  predicate EntryFits(kind: Kind, fields: map<string, Json>, k: string)
    requires k in fields && NonBlank(fields[k])
  {
    if kind == Mieru then Trimmed(fields[k].text) else Stored(fields, Trim(fields[k].text))
  }

  lemma EntryIsOffered(show: Json -> string, kind: Kind, cfg: Config, random: string, inbound: Inbound, k: string)
    requires UsesNames(kind) && Serves(show, kind, cfg, [], random, inbound)
    requires cfg.users.Fields? && k in cfg.users.fields && NonBlank(cfg.users.fields[k])
    ensures var c := MapCred(cfg.users, false, k);
            && Emitted(kind, c).Some? && Offers(show, kind, cfg, [], Emitted(kind, c).value)
            && (Admits(inbound, Emitted(kind, c).value) <==> EntryFits(kind, cfg.users.fields, k))
  {
    var c := MapCred(cfg.users, false, k);
    assert MapUser(cfg.users, false, c) && Chosen(kind, cfg, [], c);
    assert inbound.table == cfg.users.fields;
    if kind == Mieru {
      assert Emitted(kind, c) == Some(ByLogin(k, Trim(cfg.users.fields[k].text)));
    } else {
      assert Emitted(kind, c) == Some(ByPassword(Trim(cfg.users.fields[k].text)));
      AdmittedByTable(inbound, Trim(cfg.users.fields[k].text));
    }
  }

  lemma OnlyMapUsers(kind: Kind, cfg: Config, c: Cred)
    requires UsesNames(kind) && NoListUser(cfg.users) && !FallsBack(kind, cfg) && FromConfig(kind, cfg, c)
    ensures MapUser(cfg.users, false, c)
  {
    if HasConfigUsers(cfg.users) {
      var k :| k in cfg.users.fields && NonBlank(cfg.users.fields[k]);
      assert MapUser(cfg.users, false, MapCred(cfg.users, false, k));
    }
  }

  lemma ListUsersAreRefused(show: Json -> string, kind: Kind, cfg: Config, random: string, inbound: Inbound)
    requires UsesNames(kind) && Serves(show, kind, cfg, [], random, inbound)
    requires Agree(show, kind, cfg, [], inbound)
    ensures NoListUser(cfg.users)
  {
    if row :| cfg.users.Items? && row in cfg.users.items && RowCred(false, row).Some? {
      var c := RowCred(false, row).value;
      assert ListUser(cfg.users, false, c) && Chosen(kind, cfg, [], c);
      assert Offers(show, kind, cfg, [], Emitted(kind, c).value);
    }
  }

  lemma FallbackIsRefused(show: Json -> string, kind: Kind, cfg: Config, random: string, inbound: Inbound)
    requires UsesNames(kind) && Serves(show, kind, cfg, [], random, inbound)
    requires NoListUser(cfg.users) && FallsBack(kind, cfg)
    ensures Offers(show, kind, cfg, [], ByPassword(Trim(cfg.password.text)))
    ensures !Admits(inbound, ByPassword(Trim(cfg.password.text)))
  {
    var c := Cred("", Trim(cfg.password.text), "");
    assert forall d :: !ListUser(cfg.users, false, d) && !MapUser(cfg.users, false, d);
    assert Chosen(kind, cfg, [], c) && Emitted(kind, c) == Some(ByPassword(c.password));
    assert Trim(c.password) == c.password != "";
  }

  /** What the client presents is one of the usable tokens as they are trimmed. */
  predicate FirstTokenFits(show: Json -> string, token: Json) {
    match token
    case Str(s) => Trimmed(s)
    case Items(items) =>
      if items != [] && items[0].Str? then CleanFirstToken(token)
      else items != [] && exists j | j in items :: NonBlank(j) && Trim(j.text) == show(items[0])
    case _ => false
  }

  /**
   TUIC tokens: exactly when the text, or the first of a list, is neither blank nor padded. A first element
   that is no string is printed, and fits only if it reads like one of the strings.
   */
  lemma TokenAgreesIff(show: Json -> string, kind: Kind, cfg: Config, creds: seq<Cred>, random: string, inbound: Inbound)
    requires ShowsStrings(show) && TokenMode(kind, cfg)
    requires Serves(show, kind, cfg, creds, random, inbound)
    ensures Agree(show, kind, cfg, creds, inbound) <==> FirstTokenFits(show, cfg.token)
  {
    var presented := ClientToken(show, cfg.token);
    assert Offers(show, kind, cfg, creds, ByToken(presented));
    if cfg.token.Items? {
      TokensOfContains(cfg.token.items, presented);
      if presented in Tokens(cfg.token) {
        var j :| j in cfg.token.items && NonBlank(j) && Trim(j.text) == presented;
        assert Trimmed(Trim(j.text));
      }
    }
  }

  /** The legacy kind goes two ways exactly when tokens and users are both configured; then nothing fits. */
  lemma BothModesAgreeOnNothing(show: Json -> string, cfg: Config, creds: seq<Cred>, random: string, inbound: Inbound, p: Proxy)
    requires Serves(show, Tuic, cfg, creds, random, inbound) && Offers(show, Tuic, cfg, creds, p)
    requires Tokens(cfg.token) != [] && HasConfigUsers(cfg.users)
    ensures ServerUsesTokens(Tuic, cfg) != ClientUsesToken(Tuic, cfg) && !Admits(inbound, p)
  {
  }
}
