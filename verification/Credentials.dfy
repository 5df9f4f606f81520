/**
The server side of the credentials of a listener (protocol/compile.go, protocol/compile_modules.go):
from the configuration of a listener and the credentials of its bound users to the users or tokens the
core accepts. Keys of a configuration that carry no credential are not modelled; `show` is fmt.Sprint.
*/
module Credentials {
  import opened Wrappers
  import opened Text

  datatype Json = Null | Str(text: string) | Scalar(shown: string) | Items(items: seq<Json>) | Fields(fields: map<string, Json>)

  /** What a panel user brings along; user names and UUIDs are unique in the panel's database. */
  datatype Cred = Cred(username: string, password: string, uuid: string)

  datatype Config = Config(users: Json, token: Json, password: Json)

  datatype Kind =
    | Vless | Vmess | Trojan | ShadowQuic | TrustTunnel | Hysteria2 | AnyTls | Mieru | Tuic | TuicV4 | TuicV5

  /** The users or tokens of a compiled listener. */
  datatype Inbound = Inbound(list: seq<Json>, table: map<string, Json>, tokens: seq<string>)

  /** What a client presents. */
  datatype Proxy =
    | ByUuid(uuid: string)
    | ByPassword(secret: string)
    | ByLogin(username: string, password: string)
    | ByKey(key: string, keyPassword: string)
    | ByToken(token: string)

  function Field(row: Json, key: string): Json {
    if row.Fields? && key in row.fields then row.fields[key] else Null
  }

  function TextOf(j: Json): string {
    if j.Str? then j.text else ""
  }

  predicate NonBlank(j: Json) {
    j.Str? && Trim(j.text) != ""
  }

  /** The core lets a client in. */
  ghost predicate Admits(inbound: Inbound, p: Proxy) {
    match p
    case ByUuid(uuid) => exists row | row in inbound.list :: Field(row, "uuid") == Str(uuid)
    case ByPassword(secret) =>
      || (exists row | row in inbound.list :: Field(row, "password") == Str(secret))
      || (exists name | name in inbound.table :: inbound.table[name] == Str(secret))
    case ByLogin(username, password) =>
      || (exists row | row in inbound.list ::
            TextOf(Field(row, "username")) == username && Field(row, "password") == Str(password))
      || (username in inbound.table && inbound.table[username] == Str(password))
    case ByKey(key, password) => key in inbound.table && inbound.table[key] == Str(password)
    case ByToken(token) => token in inbound.tokens
  }

  // ---------------------------------------------------------------- users as a list

  /** The users entry of a bound credential: by UUID, or by password under its name if it has one. */
  function RowOf(byUuid: bool, c: Cred): map<string, Json> {
    if byUuid then (if c.uuid != "" then map["uuid" := Str(c.uuid)] else map[])
    else if c.username != "" then map["username" := Str(c.username), "password" := Str(c.password)]
    else if c.uuid != "" then map["password" := Str(c.password), "uuid" := Str(c.uuid)]
    else map["password" := Str(c.password)]
  }

  /** A row normalizeUsersValue makes of the configured users: an object of a list, or an entry of a map. */
  ghost predicate ConfigRow(show: Json -> string, users: Json, row: Json) {
    match users
    case Items(items) => row in items && row.Fields?
    case Fields(fields) =>
      exists name | name in fields :: row == Fields(map["username" := Str(name), "password" := Str(show(fields[name]))])
    case _ => false
  }

  method NormalizeUsersValue(show: Json -> string, users: Json) returns (out: seq<Json>)
    ensures forall row :: row in out <==> ConfigRow(show, users, row)
  {
    out := [];
    if users.Items? {
      for i := 0 to |users.items|
        invariant forall row :: row in out <==> row in users.items[..i] && row.Fields?
      {
        if users.items[i].Fields? {
          out := out + [users.items[i]];
        }
        assert users.items[..i + 1] == users.items[..i] + [users.items[i]];
      }
      assert users.items[..|users.items|] == users.items;
    } else if users.Fields? {
      var todo := users.fields.Keys;
      while todo != {}
        invariant todo <= users.fields.Keys
        invariant forall row :: row in out <==> exists name | name in users.fields.Keys - todo ::
                    row == Fields(map["username" := Str(name), "password" := Str(show(users.fields[name]))])
        decreases todo
      {
        var name :| name in todo;
        todo := todo - {name};
        out := out + [Fields(map["username" := Str(name), "password" := Str(show(users.fields[name]))])];
      }
    }
  }

  /** A row of the users list of a listener: of a bound credential, else of the configuration. */
  ghost predicate ServerRow(show: Json -> string, cfg: Config, creds: seq<Cred>, byUuid: bool, row: Json) {
    if creds != [] then exists c | c in creds :: RowOf(byUuid, c) != map[] && row == Fields(RowOf(byUuid, c))
    else ConfigRow(show, cfg.users, row)
  }

  method AsUsersArray(show: Json -> string, cfg: Config, creds: seq<Cred>, byUuid: bool) returns (out: seq<Json>)
    ensures forall row :: row in out <==> ServerRow(show, cfg, creds, byUuid, row)
  {
    if creds == [] {
      out := NormalizeUsersValue(show, cfg.users);
      return;
    }
    out := [];
    for i := 0 to |creds|
      invariant forall row :: row in out <==>
                  exists c | c in creds[..i] :: RowOf(byUuid, c) != map[] && row == Fields(RowOf(byUuid, c))
    {
      var c, row := creds[i], map[];
      if byUuid {
        if c.uuid != "" {
          row := row["uuid" := Str(c.uuid)];
        }
      } else {
        if c.username != "" {
          row := row["username" := Str(c.username)]["password" := Str(c.password)];
        } else {
          row := row["password" := Str(c.password)];
          if c.uuid != "" {
            row := row["uuid" := Str(c.uuid)];
          }
        }
      }
      assert row == RowOf(byUuid, c);
      if row != map[] {
        out := out + [Fields(row)];
      }
      assert creds[..i + 1] == creds[..i] + [c];
    }
    assert creds[..|creds|] == creds;
  }

  // ---------------------------------------------------------------- users as a map of names

  function NameKey(c: Cred): string {
    if c.username == "" then "default" else c.username
  }

  /** The map of the first n credentials: a later credential of the same name wins. */
  function ByName(creds: seq<Cred>): map<string, Json> {
    if creds == [] then map[]
    else var last := creds[|creds| - 1]; ByName(creds[..|creds| - 1])[NameKey(last) := Str(last.password)]
  }

  function ServerNames(cfg: Config, creds: seq<Cred>): map<string, Json> {
    if creds != [] then ByName(creds) else if cfg.users.Fields? then cfg.users.fields else map[]
  }

  method AsUsersMap(cfg: Config, creds: seq<Cred>) returns (out: map<string, Json>)
    ensures out == ServerNames(cfg, creds)
  {
    if creds == [] {
      return if cfg.users.Fields? then cfg.users.fields else map[];
    }
    out := map[];
    for i := 0 to |creds|
      invariant out == ByName(creds[..i])
    {
      var name := creds[i].username;
      if name == "" {
        name := "default";
      }
      assert creds[..i + 1][..i] == creds[..i];
      out := out[name := Str(creds[i].password)];
    }
    assert creds[..|creds|] == creds;
  }

  /** Credentials of one name agree on the password. */
  predicate ConsistentNames(creds: seq<Cred>) {
    forall i, j | 0 <= i < |creds| && 0 <= j < |creds| && NameKey(creds[i]) == NameKey(creds[j]) ::
      creds[i].password == creds[j].password
  }

  lemma {:induction false} ByNameFinds(creds: seq<Cred>, i: nat)
    requires ConsistentNames(creds) && i < |creds|
    ensures NameKey(creds[i]) in ByName(creds) && ByName(creds)[NameKey(creds[i])] == Str(creds[i].password)
  {
    var front, last := creds[..|creds| - 1], creds[|creds| - 1];
    if NameKey(creds[i]) != NameKey(last) {
      assert front[i] == creds[i];
      ByNameFinds(front, i);
    }
  }

  lemma {:induction false} ByNameKeys(creds: seq<Cred>, name: string)
    requires name in ByName(creds)
    ensures exists c | c in creds :: NameKey(c) == name
  {
    var front, last := creds[..|creds| - 1], creds[|creds| - 1];
    if name != NameKey(last) {
      ByNameKeys(front, name);
      var c :| c in front && NameKey(c) == name;
      assert c in creds;
    }
  }

  // ---------------------------------------------------------------- TUIC: users as a map of UUIDs, or tokens

  function KeyOf(c: Cred): string {
    if Trim(c.uuid) != "" then Trim(c.uuid) else Trim(c.username)
  }

  predicate Complete(c: Cred) {
    KeyOf(c) != "" && Trim(c.password) != ""
  }

  /** The configured users that have a password, trimmed. */
  function ConfigKeys(show: Json -> string, users: Json): map<string, Json> {
    if users.Fields? then map k | k in users.fields && Trim(show(users.fields[k])) != "" :: Str(Trim(show(users.fields[k])))
    else map[]
  }

  /** The bound credentials on top of them, later ones last. */
  function ByKeys(base: map<string, Json>, creds: seq<Cred>): map<string, Json> {
    if creds == [] then base
    else
      var last, below := creds[|creds| - 1], ByKeys(base, creds[..|creds| - 1]);
      if Complete(last) then below[KeyOf(last) := Str(Trim(last.password))] else below
  }

  method AsUsersMapUuid(show: Json -> string, cfg: Config, creds: seq<Cred>) returns (out: map<string, Json>)
    ensures out == ByKeys(ConfigKeys(show, cfg.users), creds)
  {
    out := map[];
    if cfg.users.Fields? {
      var todo := cfg.users.fields.Keys;
      while todo != {}
        invariant todo <= cfg.users.fields.Keys
        invariant out == map k | k in ConfigKeys(show, cfg.users) && k !in todo :: ConfigKeys(show, cfg.users)[k]
        decreases todo
      {
        var k :| k in todo;
        todo := todo - {k};
        var s := Trim(show(cfg.users.fields[k]));
        if s != "" {
          out := out[k := Str(s)];
        }
      }
      assert out == ConfigKeys(show, cfg.users);
    }
    for i := 0 to |creds|
      invariant out == ByKeys(ConfigKeys(show, cfg.users), creds[..i])
    {
      assert creds[..i + 1][..i] == creds[..i];
      var key := Trim(creds[i].uuid);
      if key == "" {
        key := Trim(creds[i].username);
      }
      if key == "" { continue; }
      var pass := Trim(creds[i].password);
      if pass == "" { continue; }
      out := out[key := Str(pass)];
    }
    assert creds[..|creds|] == creds;
  }

  /** Complete credentials of one key agree on the trimmed password. */
  predicate ConsistentKeys(creds: seq<Cred>) {
    forall i, j | 0 <= i < |creds| && 0 <= j < |creds|
                  && Complete(creds[i]) && Complete(creds[j]) && KeyOf(creds[i]) == KeyOf(creds[j]) ::
      Trim(creds[i].password) == Trim(creds[j].password)
  }

  lemma {:induction false} ByKeysFinds(base: map<string, Json>, creds: seq<Cred>, i: nat)
    requires ConsistentKeys(creds) && i < |creds| && Complete(creds[i])
    ensures KeyOf(creds[i]) in ByKeys(base, creds)
    ensures ByKeys(base, creds)[KeyOf(creds[i])] == Str(Trim(creds[i].password))
  {
    var front, last := creds[..|creds| - 1], creds[|creds| - 1];
    if i < |creds| - 1 {
      assert front[i] == creds[i];
      ByKeysFinds(base, front, i);
      assert creds[i] == front[i];
    }
  }

  /** The non-blank string tokens of a configuration, trimmed, in order. */
  function TokensOf(items: seq<Json>): seq<string> {
    if items == [] then []
    else (if NonBlank(items[0]) then [Trim(items[0].text)] else []) + TokensOf(items[1..])
  }

  function Tokens(token: Json): seq<string> {
    match token
    case Str(s) => if Trim(s) != "" then [Trim(s)] else []
    case Items(items) => TokensOf(items)
    case _ => []
  }

  method AllStringTokens(token: Json) returns (out: seq<string>)
    ensures out == Tokens(token)
  {
    out := [];
    if token.Str? {
      var s := Trim(token.text);
      return if s != "" then [s] else [];
    }
    if token.Items? {
      assert token.items[0..] == token.items;
      for i := 0 to |token.items|
        invariant TokensOf(token.items) == out + TokensOf(token.items[i..])
      {
        assert token.items[i..][1..] == token.items[i + 1..];
        if token.items[i].Str? {
          var s := Trim(token.items[i].text);
          if s != "" {
            out := out + [s];
          }
        }
      }
    }
  }

  /** Exactly the trimmed non-blank strings of the configuration are tokens. */
  lemma {:induction false} TokensOfContains(items: seq<Json>, t: string)
    ensures t in TokensOf(items) <==> exists j | j in items :: NonBlank(j) && Trim(j.text) == t
  {
    if items != [] {
      TokensOfContains(items[1..], t);
      assert items == [items[0]] + items[1..];
    }
  }

  /**
   The mode of TUICCompiler.Compile. The users it looks at are those of the map under construction,
   which never has any at that point, so the legacy kind is decided by the tokens alone.
   */
  predicate ServerUsesTokens(kind: Kind, cfg: Config) {
    kind == TuicV4 || (kind == Tuic && Tokens(cfg.token) != [])
  }

  // ---------------------------------------------------------------- Compile

  predicate UsesList(kind: Kind) {
    kind in {Vless, Vmess, Trojan, ShadowQuic, TrustTunnel}
  }

  predicate UsesNames(kind: Kind) {
    kind in {Hysteria2, AnyTls, Mieru}
  }

  /** What the compiled listener accepts; `random` is a token nobody knows. */
  ghost predicate Serves(show: Json -> string, kind: Kind, cfg: Config, creds: seq<Cred>, random: string, inbound: Inbound) {
    && (forall row :: row in inbound.list <==>
          UsesList(kind) && ServerRow(show, cfg, creds, kind in {Vless, Vmess}, row))
    && inbound.table == (if UsesList(kind) || ServerUsesTokens(kind, cfg) then map[]
                         else if UsesNames(kind) then ServerNames(cfg, creds)
                         else ByKeys(ConfigKeys(show, cfg.users), creds))
    && inbound.tokens == (if !ServerUsesTokens(kind, cfg) then []
                          else if Tokens(cfg.token) == [] then [random] else Tokens(cfg.token))
  }

  /** Compile, as far as credentials go. */
  method Compile(show: Json -> string, kind: Kind, cfg: Config, creds: seq<Cred>, random: string) returns (inbound: Inbound)
    ensures Serves(show, kind, cfg, creds, random, inbound)
  {
    var list: seq<Json>, table: map<string, Json>, tokens: seq<string> := [], map[], [];
    match kind {
      case Vless | Vmess =>
        list := AsUsersArray(show, cfg, creds, true);
      case Trojan | ShadowQuic | TrustTunnel =>
        list := AsUsersArray(show, cfg, creds, false);
      case Hysteria2 | AnyTls | Mieru =>
        table := AsUsersMap(cfg, creds);
      case Tuic | TuicV4 | TuicV5 =>
        var toks := AllStringTokens(cfg.token);
        var hasUsers := false; // managedKeys keeps the configured users out of the map this is read from
        var isV4 := kind == TuicV4;
        if kind == Tuic {
          isV4 := |toks| > 0 && !hasUsers;
        }
        if isV4 {
          if |toks| == 0 {
            toks := [random];
          }
          tokens := toks;
        } else {
          table := AsUsersMapUuid(show, cfg, creds);
        }
    }
    return Inbound(list, table, tokens);
  }
}
