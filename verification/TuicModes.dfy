/**
TUIC has two modes: tokens (v4) and UUIDs with passwords (v5). Four places choose between them: the
validator (node/validator.go), the compiler, the client export and the share builder
(protocol/share_modules.go). Also here: autofill (listener/autofill.go), which leaves the form the others
rely on, and the credential generator (credentials/generator.go).
*/
module TuicModes {
  import opened Wrappers
  import opened Text
  import opened Credentials
  import opened ClientExport

  /** hasNonEmpty. */
  predicate Filled(j: Json) {
    match j
    case Null => false
    case Str(s) => Trim(s) != ""
    case Scalar(_) => true
    case Fields(m) => m != map[]
    case Items(items) => exists e | e in items :: if e.Str? then Trim(e.text) != "" else !e.Null?
  }

  /** The rule of validateProtocolSpecific for the three kinds. */
  predicate ValidTuic(kind: Kind, cfg: Config) {
    match kind
    case TuicV4 => Filled(cfg.token) && !Filled(cfg.users)
    case TuicV5 => Filled(cfg.users) && !Filled(cfg.token) && cfg.users.Fields?
    case Tuic => Filled(cfg.users) != Filled(cfg.token) && (Filled(cfg.users) ==> cfg.users.Fields?)
    case _ => false
  }

  method HasNonEmpty(value: Json) returns (filled: bool)
    ensures filled <==> Filled(value)
  {
    match value
    case Null =>
      return false;
    case Str(s) =>
      return Trim(s) != "";
    case Fields(m) =>
      return |m| > 0;
    case Items(items) =>
      var allEmpty := true;
      for i := 0 to |items|
        invariant forall k | 0 <= k < i :: items[k].Str? ==> Trim(items[k].text) == ""
        invariant allEmpty <==> forall k | 0 <= k < i :: items[k].Str? || items[k].Null?
      {
        if items[i].Str? {
          if Trim(items[i].text) != "" {
            return true;
          }
        } else if !items[i].Null? {
          allEmpty := false;
        }
      }
      return !allEmpty;
    case Scalar(_) =>
      return true;
  }

  /** The TUIC part of validateProtocolSpecific. */
  method ValidateTuic(kind: Kind, cfg: Config) returns (ok: bool)
    requires kind in {Tuic, TuicV4, TuicV5}
    ensures ok <==> ValidTuic(kind, cfg)
  {
    var users := HasNonEmpty(cfg.users);
    var token := HasNonEmpty(cfg.token);
    if kind == TuicV4 {
      return token && !users;
    }
    if kind == TuicV5 {
      if !users || token {
        return false;
      }
    } else if users == token {
      return false;
    }
    if users && !(cfg.users.Fields? && |cfg.users.fields| > 0) {
      return false;
    }
    return true;
  }

  predicate StringTokens(token: Json) {
    token.Null? || token.Str? || (token.Items? && forall e | e in token.items :: e.Str? || e.Null?)
  }

  /** looksLikeUUID. */
  predicate LooksLikeUuid(text: string) {
    var s := Trim(text);
    && |s| == 36
    && forall i | 0 <= i < 36 :: if i in {8, 13, 18, 23} then s[i] == '-' else HexDigit(s[i])
  }

  method LooksLikeUUID(text: string) returns (ok: bool)
    ensures ok <==> LooksLikeUuid(text)
  {
    var s := Trim(text);
    if |s| != 36 {
      return false;
    }
    for i := 0 to 36
      invariant forall k | 0 <= k < i :: if k in {8, 13, 18, 23} then s[k] == '-' else HexDigit(s[k])
    {
      var c := s[i];
      if i == 8 || i == 13 || i == 18 || i == 23 {
        if c != '-' {
          return false;
        }
      } else if (c < '0' || c > '9') && (c < 'a' || c > 'f') && (c < 'A' || c > 'F') {
        return false;
      }
    }
    return true;
  }

  predicate HexDigit(c: char) {
    '0' <= c <= '9' || 'a' <= c <= 'f' || 'A' <= c <= 'F'
  }

  function FirstToken(token: Json): string {
    if Tokens(token) == [] then "" else Tokens(token)[0]
  }

  /** firstNonEmptyTokenValue, also firstNonEmptyToken of autofill. */
  method FirstNonEmptyToken(token: Json) returns (first: string)
    ensures first == FirstToken(token)
  {
    if token.Str? {
      return Trim(token.text);
    }
    if token.Items? {
      assert token.items[0..] == token.items;
      for i := 0 to |token.items|
        invariant TokensOf(token.items) == TokensOf(token.items[i..])
      {
        assert token.items[i..][1..] == token.items[i + 1..];
        if token.items[i].Str? {
          var s := Trim(token.items[i].text);
          if s != "" {
            return s;
          }
        }
      }
    }
    return "";
  }

  /** The mode of BuildShare for one user. */
  predicate ShareUsesToken(kind: Kind, cfg: Config, user: Cred) {
    || kind == TuicV4
    || (kind == Tuic && Tokens(cfg.token) != []
        && (!(cfg.users.Fields? && cfg.users.fields != map[]) || !LooksLikeUuid(KeyOf(user))))
  }

  /** What BuildShare hands out for one user, if anything. */
  function ShareOf(kind: Kind, cfg: Config, user: Cred): Option<Proxy> {
    if !ShareUsesToken(kind, cfg, user) then
      if Complete(user) then Some(ByKey(KeyOf(user), Trim(user.password))) else None
    else if Tokens(cfg.token) != [] then Some(ByToken(FirstToken(cfg.token)))
    else if Trim(user.uuid) == "" && !LooksLikeUuid(user.username) && Trim(user.password) != "" then
      Some(ByToken(Trim(user.password)))
    else None
  }

  /** TUICCompiler.BuildShare, as far as credentials go. */
  method BuildShare(kind: Kind, cfg: Config, user: Cred) returns (share: Option<Proxy>)
    requires kind in {Tuic, TuicV4, TuicV5}
    ensures share == ShareOf(kind, cfg, user)
  {
    var first := FirstNonEmptyToken(cfg.token);
    FirstTokenIsServed(cfg.token);
    var isV4 := kind == TuicV4;
    var uuid := Trim(user.uuid);
    if uuid == "" {
      uuid := Trim(user.username);
    }
    if kind == Tuic {
      var hasTok := first != "";
      var hasUsers := cfg.users.Fields? && cfg.users.fields != map[];
      var known := LooksLikeUUID(uuid);
      if hasTok && !hasUsers {
        isV4 := true;
      } else if known && Trim(user.password) != "" {
        isV4 := false;
      } else {
        isV4 := hasTok && !known;
      }
    }
    if isV4 {
      var token := first;
      if token == "" {
        token := Trim(user.password);
        var named := LooksLikeUUID(user.username);
        if Trim(user.uuid) != "" || named {
          token := "";
        }
      }
      if token == "" {
        return None;
      }
      return Some(ByToken(token));
    }
    var pass := Trim(user.password);
    if uuid == "" || pass == "" {
      return None;
    }
    return Some(ByKey(uuid, pass));
  }

  /** The share token taken from the configuration is one of the compiled tokens. */
  lemma FirstTokenIsServed(token: Json)
    ensures Tokens(token) != [] ==> FirstToken(token) in Tokens(token) && FirstToken(token) != ""
    ensures Tokens(token) == [] ==> FirstToken(token) == ""
  {
    if Tokens(token) != [] && token.Items? {
      TokensOfContains(token.items, FirstToken(token));
    }
  }

  // ---------------------------------------------------------------- one mode

  /** On a valid configuration with string tokens compiler, client export and share builder take the same mode. */
  lemma ModesCohere(kind: Kind, cfg: Config, user: Cred)
    requires ValidTuic(kind, cfg) && StringTokens(cfg.token)
    ensures ServerUsesTokens(kind, cfg) == ClientUsesToken(kind, cfg) == ShareUsesToken(kind, cfg, user) == Filled(cfg.token)
    ensures ServerUsesTokens(kind, cfg) ==> Tokens(cfg.token) != []
  {
    FilledIsTokens(cfg.token);
    if kind == Tuic && cfg.users.Fields? && cfg.users.fields == map[] {
      assert !HasConfigUsers(cfg.users);
    }
  }

  lemma FilledIsTokens(token: Json)
    requires StringTokens(token)
    ensures Filled(token) <==> Tokens(token) != []
  {
    if token.Items? {
      if e :| e in token.items && e.Str? && Trim(e.text) != "" {
        TokensOfContains(token.items, Trim(e.text));
      }
      if Tokens(token) != [] {
        TokensOfContains(token.items, Tokens(token)[0]);
      }
    }
  }

  /**
   Without the rule, the share builder follows the compiler for a legacy listener exactly unless it has
   tokens, users and a user with a UUID.
   */
  lemma ShareModeIff(cfg: Config, user: Cred)
    ensures ShareUsesToken(Tuic, cfg, user) == ServerUsesTokens(Tuic, cfg) <==>
            !(Tokens(cfg.token) != [] && cfg.users.Fields? && cfg.users.fields != map[] && LooksLikeUuid(KeyOf(user)))
  {
  }

  // ---------------------------------------------------------------- shares are accepted

  /** stringListFrom: the non-blank strings of a list, or the comma-separated parts of a text, trimmed. */
  function StringList(token: Json): seq<string> {
    if token.Str? then NonBlankParts(Split(token.text, ',')) else Tokens(token)
  }

  function NonBlankParts(parts: seq<string>): seq<string> {
    if parts == [] then [] else (if Trim(parts[0]) != "" then [Trim(parts[0])] else []) + NonBlankParts(parts[1..])
  }

  method StringListFrom(token: Json) returns (out: seq<string>)
    ensures out == StringList(token)
  {
    if token.Str? {
      out := NonBlankTexts(Split(token.text, ','));
    } else {
      out := AllStringTokens(token);
    }
  }

  /** The loop of splitCSV. */
  method NonBlankTexts(parts: seq<string>) returns (out: seq<string>)
    ensures out == NonBlankParts(parts)
  {
    out := [];
    assert parts[0..] == parts;
    for i := 0 to |parts|
      invariant NonBlankParts(parts) == out + NonBlankParts(parts[i..])
    {
      assert parts[i..][1..] == parts[i + 1..];
      var item := Trim(parts[i]);
      if item != "" {
        out := out + [item];
      }
    }
  }

  /** The user a configured row stands for; a UUID may stand in the place of the name. */
  method DecodeRow(row: Json) returns (user: Cred)
    ensures user == Decoded(row)
  {
    var username, password, uuid := "", "", "";
    if row.Fields? {
      if "username" in row.fields && row.fields["username"].Str? {
        username := Trim(row.fields["username"].text);
      }
      if "password" in row.fields && row.fields["password"].Str? {
        password := Trim(row.fields["password"].text);
      }
      if "uuid" in row.fields && row.fields["uuid"].Str? {
        uuid := Trim(row.fields["uuid"].text);
      }
    }
    if uuid == "" && username != "" {
      var known := LooksLikeUUID(username);
      if known {
        uuid := username;
      }
    }
    return Cred(username, password, uuid);
  }

  function Decoded(row: Json): Cred {
    var username, uuid := Trim(TextOf(Field(row, "username"))), Trim(TextOf(Field(row, "uuid")));
    Cred(username, Trim(TextOf(Field(row, "password"))), if uuid == "" && LooksLikeUuid(username) then username else uuid)
  }

  function TokenUser(token: string): Cred {
    Cred("", token, "")
  }

  /** An unbound listener is shared per token: always for v4, for the legacy kind when it has no users. */
  predicate SharedPerToken(kind: Kind, cfg: Config) {
    StringList(cfg.token) != [] && (kind == TuicV4 || (kind == Tuic && NoRows(cfg.users)))
  }

  predicate NoRows(users: Json) {
    match users
    case Items(items) => forall row | row in items :: !row.Fields?
    case Fields(fields) => fields == map[]
    case _ => true
  }

  /** The users DecodeNodeModel shares a listener with: the bound ones, its tokens, or the configured ones. */
  ghost predicate ShareUser(show: Json -> string, kind: Kind, cfg: Config, creds: seq<Cred>, user: Cred) {
    if creds != [] then user in creds
    else if SharedPerToken(kind, cfg) then exists t | t in StringList(cfg.token) :: user == TokenUser(t)
    else exists row: Json :: ConfigRow(show, cfg.users, row) && user == Decoded(row)
  }

  /** The user part of DecodeNodeModel. */
  method DecodeUsers(show: Json -> string, kind: Kind, cfg: Config, creds: seq<Cred>) returns (users: seq<Cred>)
    ensures forall user :: user in users <==> ShareUser(show, kind, cfg, creds, user)
  {
    users := creds;
    if |users| > 0 {
      return;
    }
    var rows := NormalizeUsersValue(show, cfg.users);
    RowsOrNone(show, cfg.users);
    for i := 0 to |rows|
      invariant |users| == i
      invariant forall user :: user in users <==> exists row: Json :: row in rows[..i] && user == Decoded(row)
    {
      assert rows[..i + 1] == rows[..i] + [rows[i]];
      var user := DecodeRow(rows[i]);
      users := users + [user];
    }
    assert rows[..|rows|] == rows;
    var tokens := StringListFrom(cfg.token);
    if tokens != [] && (kind == TuicV4 || (kind == Tuic && |users| == 0)) {
      assert kind == Tuic ==> forall row :: !ConfigRow(show, cfg.users, row);
      users := [];
      for i := 0 to |tokens|
        invariant forall user :: user in users <==> exists t | t in tokens[..i] :: user == TokenUser(t)
      {
        assert tokens[..i + 1] == tokens[..i] + [tokens[i]];
        var user := Cred("", tokens[i], "");
        assert user == TokenUser(tokens[i]);
        users := users + [user];
      }
      assert tokens[..|tokens|] == tokens;
    } else if |users| > 0 {
      assert rows[0] in rows;
    }
  }

  lemma RowsOrNone(show: Json -> string, users: Json)
    ensures NoRows(users) <==> forall row :: !ConfigRow(show, users, row)
  {
    if users.Fields? && users.fields != map[] {
      var name :| name in users.fields;
      assert ConfigRow(show, users, Fields(map["username" := Str(name), "password" := Str(show(users.fields[name]))]));
    }
    if users.Items? && !NoRows(users) {
      var row :| row in users.items && row.Fields?;
      assert ConfigRow(show, users, row);
    }
  }

  /** BuildShares: one share per user, or none at all when one of them has none. */
  method BuildShares(kind: Kind, cfg: Config, users: seq<Cred>) returns (shares: Option<seq<Proxy>>)
    requires kind in {Tuic, TuicV4, TuicV5}
    ensures shares.Some? <==> |users| > 0 && forall i | 0 <= i < |users| :: ShareOf(kind, cfg, users[i]).Some?
    ensures shares.Some? ==> |shares.value| == |users|
                             && forall i | 0 <= i < |users| :: Some(shares.value[i]) == ShareOf(kind, cfg, users[i])
  {
    if users == [] {
      return None;
    }
    var out: seq<Proxy> := [];
    for i := 0 to |users|
      invariant |out| == i
      invariant forall k | 0 <= k < i :: ShareOf(kind, cfg, users[k]) == Some(out[k])
    {
      var share := BuildShare(kind, cfg, users[i]);
      if share.None? {
        assert ShareOf(kind, cfg, users[i]).None?;
        return None;
      }
      out := out + [share.value];
    }
    return Some(out);
  }

  /** ExportShares: a listener is exported when it has users and each of them has a share, and then with exactly those. */
  method ExportShares(show: Json -> string, kind: Kind, cfg: Config, creds: seq<Cred>) returns (shares: Option<seq<Proxy>>)
    requires kind in {Tuic, TuicV4, TuicV5}
    ensures shares.Some? <==>
              && (exists user :: ShareUser(show, kind, cfg, creds, user))
              && (forall user | ShareUser(show, kind, cfg, creds, user) :: ShareOf(kind, cfg, user).Some?)
    ensures shares.Some? ==> forall p ::
              p in shares.value <==> exists user :: ShareUser(show, kind, cfg, creds, user) && ShareOf(kind, cfg, user) == Some(p)
  {
    var users := DecodeUsers(show, kind, cfg, creds);
    shares := BuildShares(kind, cfg, users);
    assert |users| > 0 ==> users[0] in users;
    assert forall i | 0 <= i < |users| :: users[i] in users;
    if shares.Some? {
      forall p
        ensures p in shares.value <==> exists user :: ShareUser(show, kind, cfg, creds, user) && ShareOf(kind, cfg, user) == Some(p)
      {
        if user :| ShareUser(show, kind, cfg, creds, user) && ShareOf(kind, cfg, user) == Some(p) {
          var i :| 0 <= i < |users| && users[i] == user;
          assert shares.value[i] == p;
        }
      }
    }
  }

  /** Every TUIC share of a valid listener is accepted; the first token need not even be clean. */
  lemma ShareIsAccepted(show: Json -> string, kind: Kind, cfg: Config, creds: seq<Cred>, random: string, inbound: Inbound,
                        user: Cred)
    requires ValidTuic(kind, cfg) && StringTokens(cfg.token) && ShareUser(show, kind, cfg, creds, user)
    requires if creds != [] then ConsistentKeys(creds) else TrimmedKeys(cfg.users)
    requires Serves(show, kind, cfg, creds, random, inbound) && ShareOf(kind, cfg, user).Some?
    ensures Admits(inbound, ShareOf(kind, cfg, user).value)
  {
    ModesCohere(kind, cfg, user);
    if ServerUsesTokens(kind, cfg) {
      FirstTokenIsServed(cfg.token);
    } else {
      KeyIsServed(show, kind, cfg, creds, user);
    }
  }

  /** In key mode: whoever a listener is shared with is in its map of users. */
  lemma KeyIsServed(show: Json -> string, kind: Kind, cfg: Config, creds: seq<Cred>, user: Cred)
    requires ShareUser(show, kind, cfg, creds, user) && Complete(user)
    requires creds == [] ==> !SharedPerToken(kind, cfg) && cfg.users.Fields? && TrimmedKeys(cfg.users)
    requires creds != [] ==> ConsistentKeys(creds)
    ensures var table := ByKeys(ConfigKeys(show, cfg.users), creds);
            KeyOf(user) in table && table[KeyOf(user)] == Str(Trim(user.password))
  {
    if creds != [] {
      var i :| 0 <= i < |creds| && creds[i] == user;
      ByKeysFinds(ConfigKeys(show, cfg.users), creds, i);
    } else {
      DecodedIsServed(show, cfg, user);
    }
  }

  /** A valid listener with tokens needs nobody bound to be shared: every token user gets the first token. */
  lemma TokenListenerIsShared(show: Json -> string, kind: Kind, cfg: Config, random: string, inbound: Inbound, t: string)
    requires ValidTuic(kind, cfg) && StringTokens(cfg.token) && Filled(cfg.token)
    requires Serves(show, kind, cfg, [], random, inbound) && t in StringList(cfg.token)
    ensures ShareUser(show, kind, cfg, [], TokenUser(t))
    ensures ShareOf(kind, cfg, TokenUser(t)) == Some(ByToken(FirstToken(cfg.token)))
    ensures Admits(inbound, ByToken(FirstToken(cfg.token)))
  {
    ModesCohere(kind, cfg, TokenUser(t));
    FirstTokenIsServed(cfg.token);
    NoRowsUnlessFilled(cfg.users);
  }

  lemma NoRowsUnlessFilled(users: Json)
    requires !Filled(users)
    ensures NoRows(users)
  {
  }

  lemma DecodedIsServed(show: Json -> string, cfg: Config, user: Cred)
    requires cfg.users.Fields? && TrimmedKeys(cfg.users) && Complete(user)
    requires exists row: Json :: ConfigRow(show, cfg.users, row) && user == Decoded(row)
    ensures KeyOf(user) in ConfigKeys(show, cfg.users)
    ensures ConfigKeys(show, cfg.users)[KeyOf(user)] == Str(Trim(user.password))
  {
    var row: Json :| ConfigRow(show, cfg.users, row) && user == Decoded(row);
    var name :| name in cfg.users.fields
                && row == Fields(map["username" := Str(name), "password" := Str(show(cfg.users.fields[name]))]);
    assert Field(row, "uuid") == Null;
    assert user.username == name;
  }

  // ---------------------------------------------------------------- what saving leaves

  /** Blank passwords of a map of users are filled in. */
  method FillPasswords(fields: map<string, Json>, fill: string -> string) returns (users: map<string, Json>)
    ensures users.Keys == fields.Keys
    ensures forall k | k in fields :: users[k] == if NonBlank(fields[k]) then fields[k] else Str(fill(k))
  {
    users := fields;
    var todo := fields.Keys;
    while todo != {}
      invariant users.Keys == fields.Keys && todo <= users.Keys
      invariant forall k | k in users :: users[k] == if k in todo || NonBlank(fields[k]) then fields[k] else Str(fill(k))
      decreases todo
    {
      var k :| k in todo;
      todo := todo - {k};
      if !users[k].Str? || Trim(users[k].text) == "" {
        users := users[k := Str(fill(k))];
      }
    }
  }

  /** autofillTUICUsers; `secret` and `uuid` are fresh random strings, `fill` a fresh password for each blank one. */
  method AutofillTuicUsers(kind: Kind, cfg: Config, secret: string, uuid: string, fill: string -> string)
    returns (filled: Config)
    requires kind in {Tuic, TuicV4, TuicV5}
    requires Trim(secret) == secret != "" && Trim(uuid) == uuid != "" && forall k :: Trim(fill(k)) == fill(k) != ""
    ensures ValidTuic(kind, filled) && StringTokens(filled.token)
    ensures kind == TuicV4 <==> ServerUsesTokens(kind, filled)
    ensures kind == TuicV4 ==> CleanFirstToken(filled.token)
                               && (Tokens(cfg.token) != [] ==> Tokens(filled.token) == [FirstToken(cfg.token)])
    ensures kind == TuicV4 ==>
              filled == Config(Null, Items([Str(if Tokens(cfg.token) != [] then FirstToken(cfg.token) else secret)]), cfg.password)
    ensures kind != TuicV4 && !(cfg.users.Fields? && cfg.users.fields != map[]) ==>
              filled == Config(Fields(map[uuid := Str(secret)]), Null, cfg.password)
    ensures kind != TuicV4 && cfg.users.Fields? && cfg.users.fields != map[] ==>
              && filled.users.Fields? && filled.users.fields.Keys == cfg.users.fields.Keys && filled.password == cfg.password
              && forall k | k in cfg.users.fields && !NonBlank(cfg.users.fields[k]) :: filled.users.fields[k] == Str(fill(k))
    ensures kind != TuicV4 ==> filled.token == Null
                               && forall k | k in filled.users.fields :: NonBlank(filled.users.fields[k])
    ensures kind != TuicV4 && cfg.users.Fields? && cfg.users.fields != map[] ==>
              && filled.users.fields.Keys == cfg.users.fields.Keys
              && forall k | k in cfg.users.fields && NonBlank(cfg.users.fields[k]) ::
                   filled.users.fields[k] == cfg.users.fields[k]
  {
    if kind == TuicV4 {
      var token := FirstNonEmptyToken(cfg.token);
      FirstTokenIsServed(cfg.token);
      if token == "" {
        token := secret;
      } else {
        FirstTokenIsTrimmed(cfg.token);
      }
      filled := cfg.(users := Null, token := Items([Str(token)]));
      assert filled.token.items[0] == Str(token);
      assert TokensOf([Str(token)]) == [token] + TokensOf([]);
      return;
    }
    if cfg.users.Fields? && cfg.users.fields != map[] {
      var users := FillPasswords(cfg.users.fields, fill);
      assert users != map[] by {
        var k :| k in cfg.users.fields;
        assert k in users;
      }
      return cfg.(token := Null, users := Fields(users));
    }
    filled := cfg.(token := Null, users := Fields(map[uuid := Str(secret)]));
    assert uuid in filled.users.fields;
  }

  lemma FirstTokenIsTrimmed(token: Json)
    requires Tokens(token) != []
    ensures Trim(FirstToken(token)) == FirstToken(token)
  {
    if token.Items? {
      TokensOfContains(token.items, FirstToken(token));
    }
  }

  predicate RequiresCredentials(kind: Kind) {
    kind != TrustTunnel
  }

  /** hasExportCredentials. */
  predicate HasExportCredentials(kind: Kind, cfg: Config) {
    if kind == TuicV4 then Tokens(cfg.token) != []
    else if cfg.users.Null? then kind == Tuic && Tokens(cfg.token) != []
    else if UsesNames(kind) || kind in {Tuic, TuicV5} then cfg.users.Fields? && cfg.users.fields != map[]
    else cfg.users.Items? && cfg.users.items != []
  }

  /** EnsureListenerCredentials, with the random material it would draw. */
  function Ensured(kind: Kind, cfg: Config, secret: string, uuid: string): Config {
    if !RequiresCredentials(kind) || HasExportCredentials(kind, cfg) then cfg
    else match kind
      case Vless | Vmess => cfg.(users := Items([Fields(map["username" := Str("client"), "uuid" := Str(uuid)])]))
      case Trojan | ShadowQuic | TrustTunnel =>
        cfg.(users := Items([Fields(map["username" := Str("client"), "password" := Str(secret)])]))
      case TuicV4 => cfg.(users := Null, token := Items([Str(secret)]))
      case Hysteria2 | AnyTls | Mieru => cfg.(token := Null, users := Fields(map["client" := Str(secret)]))
      case Tuic | TuicV5 => cfg.(token := Null, users := Fields(map[uuid := Str(secret)]))
  }

  /** hasExportCredentials, as it looks at the keys one after the other. */
  method HasCredentials(kind: Kind, cfg: Config) returns (found: bool)
    ensures found <==> HasExportCredentials(kind, cfg)
  {
    var tokens := TuicTokenNonEmpty(cfg.token);
    if kind == TuicV4 {
      return tokens;
    }
    if cfg.users.Null? {
      return kind == Tuic && tokens;
    }
    if kind in {Hysteria2, AnyTls, Mieru, Tuic, TuicV5} {
      return cfg.users.Fields? && |cfg.users.fields| > 0;
    }
    return cfg.users.Items? && |cfg.users.items| > 0;
  }

  /** EnsureListenerCredentials on the decoded configuration. */
  method EnsureListenerCredentials(kind: Kind, cfg: Config, secret: string, uuid: string) returns (filled: Config)
    ensures filled == Ensured(kind, cfg, secret, uuid)
  {
    filled := cfg;
    var found := HasCredentials(kind, cfg);
    if found {
      return;
    }
    match kind
    case Vless | Vmess =>
      filled := filled.(users := Items([Fields(map["username" := Str("client"), "uuid" := Str(uuid)])]));
    case Trojan | ShadowQuic =>
      filled := filled.(users := Items([Fields(map["username" := Str("client"), "password" := Str(secret)])]));
    case TuicV4 =>
      filled := filled.(users := Null);
      filled := filled.(token := Items([Str(secret)]));
    case Hysteria2 | AnyTls | Mieru | Tuic | TuicV5 =>
      var username := "client";
      if kind == Tuic || kind == TuicV5 {
        username := uuid;
      }
      filled := filled.(token := Null);
      filled := filled.(users := Fields(map[username := Str(secret)]));
    case TrustTunnel =>
  }

  /** A listener that had no credentials can be used with exactly the drawn ones. */
  ghost predicate UsableWith(kind: Kind, inbound: Inbound, secret: string, uuid: string) {
    match kind
    case Vless | Vmess => Admits(inbound, ByUuid(uuid))
    case Trojan | Hysteria2 | AnyTls => Admits(inbound, ByPassword(secret))
    case ShadowQuic | Mieru => Admits(inbound, ByLogin("client", secret))
    case TuicV4 => Admits(inbound, ByToken(secret)) && |inbound.tokens| == 1
    case Tuic | TuicV5 => Admits(inbound, ByKey(uuid, secret)) && |inbound.table| == 1
    case TrustTunnel => true
  }

  lemma EnsuredIsUsable(show: Json -> string, kind: Kind, cfg: Config, secret: string, uuid: string, random: string,
                        inbound: Inbound)
    requires ShowsStrings(show) && !HasExportCredentials(kind, cfg)
    requires Trim(secret) == secret != "" && Trim(uuid) == uuid != ""
    requires Serves(show, kind, Ensured(kind, cfg, secret, uuid), [], random, inbound)
    ensures UsableWith(kind, inbound, secret, uuid)
  {
    var once := Ensured(kind, cfg, secret, uuid);
    match kind
    case Vless | Vmess | Trojan | ShadowQuic =>
      var row := once.users.items[0];
      assert ServerRow(show, once, [], kind in {Vless, Vmess}, row);
      assert row in inbound.list;
    case Hysteria2 | AnyTls | Mieru =>
      assert inbound.table == once.users.fields && "client" in inbound.table;
    case TuicV4 =>
      assert TokensOf([Str(secret)]) == [secret] + TokensOf([]);
    case Tuic | TuicV5 =>
      assert inbound.table == map[uuid := Str(secret)];
    case TrustTunnel =>
  }

  /** A second call finds the credentials of the first, whatever it would draw: saved credentials never rotate. */
  lemma EnsuringTwice(kind: Kind, cfg: Config, secret: string, uuid: string, secret': string, uuid': string)
    requires Trim(secret) != ""
    ensures RequiresCredentials(kind) ==> HasExportCredentials(kind, Ensured(kind, cfg, secret, uuid))
    ensures Ensured(kind, Ensured(kind, cfg, secret, uuid), secret', uuid') == Ensured(kind, cfg, secret, uuid)
  {
    var once := Ensured(kind, cfg, secret, uuid);
    if RequiresCredentials(kind) && !HasExportCredentials(kind, cfg) {
      if kind == TuicV4 {
        assert TokensOf([Str(secret)]) == [Trim(secret)] + TokensOf([]);
      } else if once.users.Fields? {
        assert "client" in once.users.fields || uuid in once.users.fields;
      }
    }
  }
}
