/**
A listener row, its validation (listener/validation.go ValidateModel with node/validator.go
ValidateNode) and the endpoint conflict relation (listener/endpoints.go).

Parsing IP addresses and fitting the JSON configuration of a protocol (sanitising it, filling missing
credentials, checking it against the schema) are parameters: any functions with the stated
properties. Fields without influence on these decisions are carried in `other`.
*/
module ListenerModel {
  import opened Wrappers
  import opened Text
  import opened PortSpec

  datatype Listener = Listener(
    id: nat,
    name: string,
    protocol: string,
    kind: string,
    port: string,
    bind: string,
    listen: string,
    publicHost: string,
    enabled: bool,
    config: string,
    other: string,
    deleted: bool)

  datatype Rules = Rules(
    parseIP: string -> Option<int>,                              // net.ParseIP: the 128-bit number, IPv4 mapped
    supported: string -> bool,                                   // the protocol list
    fit: (string, string, string) -> Option<string>)             // protocol, other fields, configuration

  const ANY_ADDRESS := "0.0.0.0"

  const V4_ZERO: int := 0xffff_0000_0000

  /** What net.ParseIP guarantees, with the addresses used as examples. */
  ghost predicate LawfulAddresses(parseIP: string -> Option<int>) {
    && parseIP(ANY_ADDRESS) == Some(V4_ZERO) && parseIP("::") == Some(0)
    && parseIP("127.0.0.1") == Some(V4_ZERO + 0x7f00_0001) && parseIP("127.0.0.2") == Some(V4_ZERO + 0x7f00_0002)
    && parseIP("::1") == Some(1) && parseIP("::2") == Some(2)
    && (forall s :: parseIP(s).Some? ==> s != "" && Trimmed(s) && TrimBrackets(s) == s)
    && (forall s :: parseIP(ToLower(s)) == parseIP(s))
  }

  /** What net.ParseIP and the configuration checks guarantee. */
  ghost predicate Lawful(rules: Rules) {
    && LawfulAddresses(rules.parseIP)
    && (forall p, o, c :: rules.fit(p, o, c).Some? ==>
          rules.fit(p, o, rules.fit(p, o, c).value) == rules.fit(p, o, c))
  }

  function FirstNonEmpty(a: string, b: string): string {
    if Trim(a) != "" then Trim(a) else Trim(b)
  }

  function CanonicalHost(h: string): string {
    if Trim(h) != "" then TrimBrackets(Trim(h)) else h
  }

  /** The protocol a listener is checked as: its protocol field, or the older type field. */
  function ProtocolOf(l: Listener): string {
    if ToLower(Trim(l.protocol)) != "" then ToLower(Trim(l.protocol)) else ToLower(Trim(l.kind))
  }

  function BindOf(l: Listener): string {
    var address := FirstNonEmpty(l.bind, l.listen);
    if address == "" then ANY_ADDRESS else TrimBrackets(address)
  }

  /** ValidateModel: the normalised listener, or None when it is refused. */
  function Validate(rules: Rules, l: Listener): Option<Listener> {
    var protocol := ProtocolOf(l);
    var legacy := ToLower(Trim(l.kind));
    var address := FirstNonEmpty(l.bind, l.listen);
    var config := rules.fit(protocol, l.other, l.config);
    if Trim(l.name) == "" || protocol == "" || !rules.supported(protocol) then None
    else if legacy != "" && protocol != legacy then None
    else if Read(l.port).None? then None
    else if address != "" && rules.parseIP(address).None? then None
    else if rules.parseIP(BindOf(l)).None? || config.None? then None
    else Some(l.(name := Trim(l.name), protocol := protocol, kind := protocol, bind := BindOf(l),
                 publicHost := CanonicalHost(l.publicHost), config := config.value))
  }

  method FirstNonEmptyOf(values: seq<string>) returns (first: string)
    ensures |values| == 2 ==> first == FirstNonEmpty(values[0], values[1])
  {
    for i := 0 to |values|
      invariant forall k | 0 <= k < i :: Trim(values[k]) == ""
    {
      if Trim(values[i]) != "" {
        return Trim(values[i]);
      }
    }
    return "";
  }

  /** ValidateModel and then ValidateNode, field by field. */
  method ValidateModel(rules: Rules, l: Listener) returns (result: Option<Listener>)
    ensures result == Validate(rules, l)
  {
    var m := l.(name := Trim(l.name));
    if m.name == "" {
      return None;
    }
    var protocol, legacy := ToLower(Trim(l.protocol)), ToLower(Trim(l.kind));
    if protocol == "" {
      protocol := legacy;
    }
    if protocol == "" || !rules.supported(protocol) {
      return None;
    }
    if legacy != "" && protocol != legacy {
      return None;
    }
    m := m.(protocol := protocol);
    var valid := ValidPort(l.port);
    if !valid {
      return None;
    }
    var address := FirstNonEmptyOf([l.bind, l.listen]);
    if address != "" {
      if rules.parseIP(address).None? {
        return None;
      }
      m := m.(bind := address);
    }
    LoweredStays(l);
    result := ValidateNode(rules, m);
  }

  lemma LoweredStays(l: Listener)
    ensures ToLower(Trim(ProtocolOf(l))) == ProtocolOf(l)
  {
    var raw := if ToLower(Trim(l.protocol)) != "" then l.protocol else l.kind;
    ToLowerKeepsTrimmed(Trim(raw));
    ToLowerTwice(Trim(raw));
  }

  /** ValidateNode: both names of the protocol, the port again, the bind address, the public host, the configuration. */
  method ValidateNode(rules: Rules, l: Listener) returns (result: Option<Listener>)
    ensures var protocol, bind := ProtocolOf(l), BindOf(l);
            var config := rules.fit(protocol, l.other, l.config);
            result == if Trim(l.name) == "" || Read(l.port).None? || !rules.supported(protocol) || rules.parseIP(bind).None? || config.None? then None
                      else Some(l.(name := Trim(l.name), protocol := protocol, kind := protocol, bind := bind,
                                   publicHost := CanonicalHost(l.publicHost), config := config.value))
  {
    var name, protocol := Trim(l.name), ToLower(Trim(l.protocol));
    if name == "" {
      return None;
    }
    if protocol == "" {
      protocol := ToLower(Trim(l.kind));
    }
    if !rules.supported(protocol) {
      return None;
    }
    var valid := IsValidPortString(l.port);
    if !valid {
      return None;
    }
    var bind := Trim(l.bind);
    if bind == "" {
      bind := Trim(l.listen);
    }
    if bind == "" {
      bind := "0.0.0.0";
    }
    bind := TrimBrackets(bind);
    if rules.parseIP(bind).None? {
      return None;
    }
    var host := l.publicHost;
    if Trim(host) != "" {
      host := TrimBrackets(Trim(host));
    }
    var config := rules.fit(protocol, l.other, l.config);
    if config.None? {
      return None;
    }
    return Some(l.(name := name, protocol := protocol, kind := protocol, bind := bind, publicHost := host,
                   config := config.value));
  }

  /** Validation is idempotent in everything but the public host, which is normalised once more. */
  lemma ValidateTwice(rules: Rules, l: Listener)
    requires Lawful(rules) && Validate(rules, l).Some?
    ensures var once := Validate(rules, l).value;
            Validate(rules, once) == Some(once.(publicHost := CanonicalHost(once.publicHost)))
  {
    var once := Validate(rules, l).value;
    var raw := if ToLower(Trim(l.protocol)) != "" then l.protocol else l.kind;
    ToLowerKeepsTrimmed(Trim(raw));
    ToLowerTwice(Trim(raw));
    assert ToLower(Trim(once.protocol)) == once.protocol;
    assert Trim(once.name) == once.name;
    assert rules.parseIP(once.bind).Some?;
    assert FirstNonEmpty(once.bind, once.listen) == once.bind;
  }

  /**
   What the registry relies on about validation: it keeps identity, port and state of a listener,
   leaves a trimmed non-empty name and a readable port, does not look at identity, state or (beyond
   readability) the port, and a second pass only touches the public host. If the configuration has been
   changed in between, a second pass touches at most that and the public host.
   */
  ghost predicate LawfulValidator(rules: Rules, validate: Listener -> Option<Listener>) {
    && (forall l :: validate(l).Some? ==> Preserves(l, validate(l).value))
    && (forall l :: validate(l).Some? ==> Validated(rules, validate, validate(l).value))
    && (forall l, p :: validate(l).Some? && Read(p).Some? ==>
          validate(l.(port := p)) == Some(validate(l).value.(port := p)))
    && (forall l, m {:trigger SameUpToPlace(l, m)} :: SameUpToPlace(l, m) && validate(l) == Some(l.(publicHost := CanonicalHost(l.publicHost))) ==>
          validate(m) == Some(m.(publicHost := CanonicalHost(m.publicHost))))
    && (forall l, m {:trigger SameUpToPlace(l, m)} :: SameUpToPlace(l, m) && Normal(rules, validate, l) ==> Normal(rules, validate, m))
  }

  /** Filling in defaults does not look at the port. */
  ghost predicate LawfulAutofill(autofill: Listener -> Option<string>) {
    forall l: Listener, p: string :: autofill(l.(port := p)) == autofill(l)
  }

  ghost predicate Preserves(l: Listener, m: Listener) {
    && m.id == l.id && m.port == l.port && m.listen == l.listen && m.enabled == l.enabled && m.deleted == l.deleted
    && m.name == Trim(l.name) && m.name != "" && Read(m.port).Some?
  }

  /** Validating again changes nothing but the public host. */
  ghost predicate StableBut(validate: Listener -> Option<Listener>, l: Listener) {
    validate(l) == Some(l.(publicHost := CanonicalHost(l.publicHost)))
  }

  predicate SameButConfig(l: Listener, m: Listener) {
    m == l.(config := m.config)
  }

  /** Only the configuration and the public host of l have been fitted. */
  predicate Refitted(l: Listener, v: Listener) {
    v == l.(publicHost := CanonicalHost(l.publicHost), config := v.config)
  }

  /** A listener as validation leaves it, whatever has happened to its configuration since. */
  ghost predicate Normal(rules: Rules, validate: Listener -> Option<Listener>, l: Listener) {
    && l.name != "" && Trimmed(l.name) && Read(l.port).Some?
    && l.bind != "" && TrimBrackets(Trim(l.bind)) == l.bind && rules.parseIP(l.bind).Some?
    && forall m {:trigger SameButConfig(l, m)} | SameButConfig(l, m) && validate(m).Some? :: Refitted(m, validate(m).value)
  }

  /** A listener as validation leaves it. */
  ghost predicate Validated(rules: Rules, validate: Listener -> Option<Listener>, l: Listener) {
    StableBut(validate, l) && Normal(rules, validate, l)
  }

  /** The same listener at another readable port, under another name, key or state. */
  ghost predicate SameUpToPlace(l: Listener, m: Listener) {
    && m == l.(id := m.id, name := m.name, port := m.port, enabled := m.enabled, deleted := m.deleted)
    && Read(m.port).Some? && m.name != "" && Trimmed(m.name)
  }

  lemma ValidateIgnoresPort(rules: Rules, l: Listener, p: string)
    requires Validate(rules, l).Some? && Read(p).Some?
    ensures Validate(rules, l.(port := p)) == Some(Validate(rules, l).value.(port := p))
  {
    var m := l.(port := p);
    assert ProtocolOf(m) == ProtocolOf(l) && BindOf(m) == BindOf(l);
  }

  lemma ValidateIgnoresPlace(rules: Rules, l: Listener, m: Listener)
    requires SameUpToPlace(l, m) && Validate(rules, l) == Some(l.(publicHost := CanonicalHost(l.publicHost)))
    ensures Validate(rules, m) == Some(m.(publicHost := CanonicalHost(m.publicHost)))
  {
    assert ProtocolOf(m) == ProtocolOf(l) && BindOf(m) == BindOf(l);
  }

  lemma ValidateIsNormal(rules: Rules, l: Listener)
    requires Lawful(rules) && Validate(rules, l).Some?
    ensures Normal(rules, l => Validate(rules, l), Validate(rules, l).value)
  {
    var once := Validate(rules, l).value;
    ValidateTwice(rules, l);
    forall m | SameButConfig(once, m) && Validate(rules, m).Some? ensures Refitted(m, Validate(rules, m).value) {
      assert ProtocolOf(m) == ProtocolOf(once) && BindOf(m) == BindOf(once);
    }
  }

  lemma NormalElsewhere(rules: Rules, l: Listener, m: Listener)
    requires SameUpToPlace(l, m) && Normal(rules, l => Validate(rules, l), l)
    ensures Normal(rules, l => Validate(rules, l), m)
  {
    forall x | SameButConfig(m, x) && Validate(rules, x).Some? ensures Refitted(x, Validate(rules, x).value) {
      var y := l.(config := x.config);
      assert ProtocolOf(y) == ProtocolOf(x) && BindOf(y) == BindOf(x);
      assert Validate(rules, y).Some?;
      assert SameButConfig(l, y) && Refitted(y, Validate(rules, y).value);
    }
  }

  /** The validation of the panel is such a function. */
  lemma ValidateIsLawful(rules: Rules)
    requires Lawful(rules)
    ensures LawfulValidator(rules, l => Validate(rules, l))
  {
    var validate := l => Validate(rules, l);
    forall l | Validate(rules, l).Some? ensures Validated(rules, validate, Validate(rules, l).value) {
      ValidateTwice(rules, l);
      ValidateIsNormal(rules, l);
    }
    forall l, m | SameUpToPlace(l, m) && Normal(rules, validate, l) ensures Normal(rules, validate, m) {
      NormalElsewhere(rules, l, m);
    }
    forall l, p | Validate(rules, l).Some? && Read(p).Some?
      ensures Validate(rules, l.(port := p)) == Some(Validate(rules, l).value.(port := p))
    {
      ValidateIgnoresPort(rules, l, p);
    }
    forall l, m | SameUpToPlace(l, m) && Validate(rules, l) == Some(l.(publicHost := CanonicalHost(l.publicHost)))
      ensures Validate(rules, m) == Some(m.(publicHost := CanonicalHost(m.publicHost)))
    {
      ValidateIgnoresPlace(rules, l, m);
    }
  }

  /** A host in brackets with blanks inside is not stable: each validation strips another layer. */
  lemma HostNormalisationIsNotIdempotent()
    ensures CanonicalHost("[ a ]") == " a " && CanonicalHost(" a ") == "a"
  {
    var s := "[ a ]";
    assert Trim(s) == s;
    assert s[1..] == " a ]" && " a ]"[..3] == " a ";
    assert TrimBrackets(" a ]") == TrimBrackets(" a ");
    assert " a "[1..] == "a " && "a "[..1] == "a";
    assert Trim(" a ") == Trim("a ") == Trim("a") == "a";
  }

  // ---------------------------------------------------------------- endpoints

  function FirstAddress(l: Listener): string {
    if Trim(l.listen) != "" then Trim(l.listen)
    else if Trim(l.bind) != "" then Trim(l.bind)
    else ANY_ADDRESS
  }

  method FirstListenerAddress(l: Listener) returns (address: string)
    ensures address == FirstAddress(l)
  {
    if Trim(l.listen) != "" {
      return Trim(l.listen);
    }
    if Trim(l.bind) != "" {
      return Trim(l.bind);
    }
    return "0.0.0.0";
  }

  method ListenerAddressesConflict(rules: Rules, left: string, right: string) returns (conflict: bool)
    ensures conflict <==> AddressesConflict(rules, left, right)
  {
    var a, b := TrimBrackets(Trim(left)), TrimBrackets(Trim(right));
    if a == "" {
      a := "0.0.0.0";
    }
    if b == "" {
      b := "0.0.0.0";
    }
    if a == "0.0.0.0" || a == "::" || b == "0.0.0.0" || b == "::" {
      return true;
    }
    var ia, ib := rules.parseIP(a), rules.parseIP(b);
    if ia.None? || ib.None? {
      return ToLower(a) == ToLower(b);
    }
    return ia.value == ib.value;
  }

  function Unbracketed(a: string): string {
    var t := TrimBrackets(Trim(a));
    if t == "" then ANY_ADDRESS else t
  }

  /** listenerAddressesConflict. */
  predicate AddressesConflict(rules: Rules, a: string, b: string) {
    var x, y := Unbracketed(a), Unbracketed(b);
    || x == ANY_ADDRESS || x == "::" || y == ANY_ADDRESS || y == "::"
    || (if rules.parseIP(x).None? || rules.parseIP(y).None? then ToLower(x) == ToLower(y)
        else rules.parseIP(x) == rules.parseIP(y))
  }

  /** Two listeners cannot both be started: they share a port at conflicting addresses. */
  ghost predicate Clash(rules: Rules, a: Listener, b: Listener) {
    SharePort(a.port, b.port) && AddressesConflict(rules, FirstAddress(a), FirstAddress(b))
  }

  lemma ClashIsSymmetric(rules: Rules, a: Listener, b: Listener)
    ensures Clash(rules, a, b) <==> Clash(rules, b, a)
  {
  }

  /** A listener with a readable port clashes with any other at the same endpoint, itself included. */
  lemma ClashIsReflexive(rules: Rules, a: Listener, b: Listener)
    requires Read(a.port).Some? && a.port == b.port && a.bind == b.bind && a.listen == b.listen
    ensures Clash(rules, a, b)
  {
    var parts := Split(a.port, ',');
    ReadRangesAreValid(parts);
    assert parts != [];
    var ranges := Read(a.port).value;
    assert ranges[0].lo <= ranges[0].lo <= ranges[0].hi;
    assert Denotes(a.port, ranges[0].lo);
  }
}
