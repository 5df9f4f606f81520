/**
The endpoint check of the configuration generator (mihomo/config/generator.go). It runs over the enabled
listeners before anything is generated, with an address relation of its own: it looks at the bind address
first where the registry looks at the listen address first, and it goes by address families where the
registry goes by two spellings of "any address".
*/
module GenerationCheck {
  import opened Wrappers
  import opened Text
  import opened PortSpec
  import opened ListenerModel

  /** config.firstListenerAddress. */
  function ConfigAddress(l: Listener): string {
    if TrimBrackets(Trim(l.bind)) != "" then TrimBrackets(Trim(l.bind))
    else if TrimBrackets(Trim(l.listen)) != "" then TrimBrackets(Trim(l.listen))
    else ANY_ADDRESS
  }

  method FirstConfigAddress(l: Listener) returns (address: string)
    ensures address == ConfigAddress(l)
  {
    var v := TrimBrackets(Trim(l.bind));
    if v != "" {
      return v;
    }
    v := TrimBrackets(Trim(l.listen));
    if v != "" {
      return v;
    }
    return "0.0.0.0";
  }

  /** net.IP.To4 yields an address. */
  predicate IsV4(ip: int) {
    V4_ZERO <= ip <= V4_ZERO + 0xffff_ffff
  }

  /** net.IP.IsUnspecified. */
  predicate Unspecified(ip: int) {
    ip == 0 || ip == V4_ZERO
  }

  /** config.listenerAddressesConflict on two parsed addresses. */
  predicate SameSocket(a: int, b: int) {
    a == b || (IsV4(a) == IsV4(b) && (Unspecified(a) || Unspecified(b)))
  }

  /** A wildcard takes every address of its family, and no other. */
  lemma WildcardsTakeTheirFamily(ip: int)
    ensures SameSocket(0xffff_0000_0000, ip) <==> 0xffff_0000_0000 <= ip <= 0xffff_ffff_ffff
    ensures SameSocket(0, ip) <==> ip < 0xffff_0000_0000 || 0xffff_ffff_ffff < ip
  {
  }

  method AddressesCollide(rules: Rules, a: string, b: string) returns (collide: bool)
    ensures collide <==> rules.parseIP(a).Some? && rules.parseIP(b).Some?
                         && SameSocket(rules.parseIP(a).value, rules.parseIP(b).value)
  {
    var ia, ib := rules.parseIP(a), rules.parseIP(b);
    if ia.None? || ib.None? {
      return false;
    }
    if ia.value == ib.value {
      return true;
    }
    if IsV4(ia.value) && IsV4(ib.value) {
      return Unspecified(ia.value) || Unspecified(ib.value);
    }
    if !IsV4(ia.value) && !IsV4(ib.value) {
      return Unspecified(ia.value) || Unspecified(ib.value);
    }
    return false;
  }

  /** The generator refuses these two listeners next to each other. */
  ghost predicate Collide(rules: Rules, a: Listener, b: Listener) {
    && SharePort(a.port, b.port)
    && rules.parseIP(ConfigAddress(a)).Some? && rules.parseIP(ConfigAddress(b)).Some?
    && SameSocket(rules.parseIP(ConfigAddress(a)).value, rules.parseIP(ConfigAddress(b)).value)
  }

  predicate WellPlaced(rules: Rules, l: Listener) {
    rules.parseIP(ConfigAddress(l)).Some? && Read(l.port).Some? && Trim(l.name) != ""
  }

  /** validateListenerEndpoint and the name test. */
  method CheckPlace(rules: Rules, l: Listener) returns (ok: bool)
    ensures ok <==> WellPlaced(rules, l)
  {
    var address := FirstConfigAddress(l);
    if rules.parseIP(address).None? {
      return false;
    }
    ok := IsValidPortString(l.port);
    ok := ok && Trim(l.name) != "";
  }

  ghost predicate CollidesLater(rules: Rules, list: seq<Listener>, i: nat)
    requires i < |list|
  {
    exists j | i < j < |list| :: Collide(rules, list[i], list[j])
  }

  predicate AllRead(list: seq<Listener>) {
    forall i | 0 <= i < |list| :: Read(list[i].port).Some?
  }

  /** The inner loop; on unreadable ports its answer does not matter, the listener is refused anyway. */
  method FindLaterCollision(rules: Rules, list: seq<Listener>, i: nat) returns (found: bool)
    requires i < |list|
    ensures AllRead(list) ==> (found <==> CollidesLater(rules, list, i))
  {
    for j := i + 1 to |list|
      invariant AllRead(list) ==> forall k | i < k < j :: !Collide(rules, list[i], list[k])
    {
      var overlap := ConfigPortsOverlap(list[i].port, list[j].port);
      if overlap {
        var here := FirstConfigAddress(list[i]);
        var there := FirstConfigAddress(list[j]);
        found := AddressesCollide(rules, here, there);
        if found {
          return;
        }
      }
      if AllRead(list) {
        forall k | i < k <= j ensures !Collide(rules, list[i], list[k]) {
          if k == j {}
        }
      }
    }
    return false;
  }

  /** The names of the first i listeners. */
  function NamesBefore(list: seq<Listener>, i: nat): set<string>
    requires i <= |list|
  {
    set k | 0 <= k < i :: Trim(list[k].name)
  }

  lemma OneMoreName(list: seq<Listener>, i: nat)
    requires i < |list|
    ensures NamesBefore(list, i + 1) == NamesBefore(list, i) + {Trim(list[i].name)}
  {
  }

  /** What the generator demands of an enabled listener among the others. */
  ghost predicate Fine(rules: Rules, list: seq<Listener>, i: nat)
    requires i < |list|
  {
    WellPlaced(rules, list[i]) && Trim(list[i].name) !in NamesBefore(list, i) && !CollidesLater(rules, list, i)
  }

  ghost predicate Startable(rules: Rules, list: seq<Listener>) {
    forall i | 0 <= i < |list| :: Fine(rules, list, i)
  }

  /** What has been found out about a listener that passed: unreadable ports further on may spoil the rest. */
  ghost predicate Passed(rules: Rules, list: seq<Listener>, i: nat)
    requires i < |list|
  {
    Read(list[i].port).Some? && (AllRead(list) ==> Fine(rules, list, i))
  }

  lemma AllPassed(rules: Rules, list: seq<Listener>)
    requires forall i | 0 <= i < |list| :: Passed(rules, list, i)
    ensures Startable(rules, list)
  {
    forall i | 0 <= i < |list| ensures Read(list[i].port).Some? {
      assert Passed(rules, list, i);
    }
    forall i | 0 <= i < |list| ensures Fine(rules, list, i) {
      assert Passed(rules, list, i);
    }
  }

  lemma UnreadAreRefused(rules: Rules, list: seq<Listener>)
    requires !AllRead(list)
    ensures !Startable(rules, list)
  {
    var i :| 0 <= i < |list| && Read(list[i].port).None?;
    assert !Fine(rules, list, i);
  }

  /** The checks of one listener; `seen` holds the names of those before it. */
  method CheckOne(rules: Rules, list: seq<Listener>, i: nat, seen: set<string>) returns (ok: bool)
    requires i < |list| && seen == NamesBefore(list, i)
    ensures ok ==> Passed(rules, list, i)
    ensures !ok && AllRead(list) ==> !Fine(rules, list, i)
  {
    var placed := CheckPlace(rules, list[i]);
    if !placed || Trim(list[i].name) in seen {
      return false;
    }
    var found := FindLaterCollision(rules, list, i);
    return !found;
  }

  /** validateListenerEndpoints. */
  method ValidateListenerEndpoints(rules: Rules, list: seq<Listener>) returns (ok: bool)
    ensures ok <==> Startable(rules, list)
  {
    var seen: set<string> := {};
    for i := 0 to |list|
      invariant seen == NamesBefore(list, i)
      invariant forall k | 0 <= k < i :: Passed(rules, list, k)
    {
      ok := CheckOne(rules, list, i, seen);
      if !ok {
        if AllRead(list) {
          assert !Fine(rules, list, i);
        } else {
          UnreadAreRefused(rules, list);
        }
        return;
      }
      forall k | 0 <= k < i + 1 ensures Passed(rules, list, k) {
        if k >= i { assert k == i; }
      }
      OneMoreName(list, i);
      seen := seen + {Trim(list[i].name)};
    }
    AllPassed(rules, list);
    return true;
  }

  // ---------------------------------------------------------------- what peace in the registry is worth

  /** The address the registry compares. */
  function RegistryAddress(l: Listener): string {
    Unbracketed(FirstAddress(l))
  }

  predicate Wildcard(a: string) {
    a == ANY_ADDRESS || a == "::"
  }

  /** Registry and generator see this listener at one address, and agree whether that is "any address". */
  predicate Straight(rules: Rules, l: Listener) {
    var x, ip := RegistryAddress(l), rules.parseIP(ConfigAddress(l));
    Wildcard(x) || (ip.Some? && rules.parseIP(x) == ip && !Unspecified(ip.value))
  }

  /** For such listeners peace is enough. */
  lemma StraightListenersAgree(rules: Rules, a: Listener, b: Listener)
    requires Straight(rules, a) && Straight(rules, b) && Collide(rules, a, b)
    ensures Clash(rules, a, b)
  {
  }

  /** An address other than x that the generator does not tell apart from g. */
  function Beside(rules: Rules, x: string, g: string): string
    requires rules.parseIP(g).Some?
  {
    var ip := rules.parseIP(g).value;
    if !Unspecified(ip) then g
    else if IsV4(ip) then (if rules.parseIP(x) != rules.parseIP("127.0.0.1") then "127.0.0.1" else "127.0.0.2")
    else if rules.parseIP(x) != rules.parseIP("::1") then "::1" else "::2"
  }

  lemma BesideIsElsewhere(rules: Rules, x: string, g: string)
    requires LawfulAddresses(rules.parseIP) && rules.parseIP(g).Some?
    requires rules.parseIP(x) != rules.parseIP(g) || Unspecified(rules.parseIP(g).value)
    ensures var a, ip := Beside(rules, x, g), rules.parseIP(g).value;
            && rules.parseIP(a).Some? && !Unspecified(rules.parseIP(a).value) && SameSocket(ip, rules.parseIP(a).value)
            && rules.parseIP(x) != rules.parseIP(a) && ToLower(x) != ToLower(a)
  {
  }

  lemma AtAddress(rules: Rules, l: Listener, a: string)
    requires LawfulAddresses(rules.parseIP) && rules.parseIP(a).Some?
    ensures var m := l.(bind := a, listen := ""); ConfigAddress(m) == a && RegistryAddress(m) == a
  {
  }

  /** A neighbour that shows what is wrong with a listener that is not. */
  lemma CrookedListenersCollide(rules: Rules, l: Listener) returns (m: Listener)
    requires LawfulAddresses(rules.parseIP) && WellPlaced(rules, l) && !Straight(rules, l)
    ensures WellPlaced(rules, m) && Straight(rules, m) && Collide(rules, l, m) && !Clash(rules, l, m)
  {
    var x, g := RegistryAddress(l), ConfigAddress(l);
    var a := Beside(rules, x, g);
    BesideIsElsewhere(rules, x, g);
    AtAddress(rules, l, a);
    m := l.(bind := a, listen := "");
    ReadableSharesWithItself(l.port);
  }

  lemma ReadableSharesWithItself(port: string)
    requires Read(port).Some?
    ensures SharePort(port, port)
  {
    ReadRangesAreValid(Split(port, ','));
    assert Denotes(port, Read(port).value[0].lo);
  }

  /** Exactly: peace with its neighbours keeps a listener out of the generator's way if and only if it is straight. */
  lemma PeaceIsEnoughIff(rules: Rules, l: Listener)
    requires LawfulAddresses(rules.parseIP) && WellPlaced(rules, l)
    ensures Straight(rules, l) <==>
            forall m | WellPlaced(rules, m) && Straight(rules, m) && Collide(rules, l, m) :: Clash(rules, l, m)
  {
    if Straight(rules, l) {
      forall m | WellPlaced(rules, m) && Straight(rules, m) && Collide(rules, l, m) ensures Clash(rules, l, m) {
        StraightListenersAgree(rules, l, m);
      }
    } else {
      var m := CrookedListenersCollide(rules, l);
    }
  }

  /** Two listeners that validation and the registry let live side by side, and no generation starts with. */
  lemma TwoAddressesMislead(rules: Rules, l: Listener, other: Listener)
    requires LawfulAddresses(rules.parseIP)
    requires Validate(rules, l).Some? && l.bind == "127.0.0.1" && l.listen == ""
    requires other == l.(id := other.id, name := other.name, listen := "127.0.0.2") && Trim(other.name) != ""
    ensures Validate(rules, other).Some?
    ensures var a, b := Validate(rules, l).value, Validate(rules, other).value;
            !Clash(rules, a, b) && Collide(rules, a, b) && !Startable(rules, [a, b])
  {
    var a, b := Validate(rules, l).value, Validate(rules, other).value;
    assert FirstAddress(a) == "127.0.0.1" && FirstAddress(b) == "127.0.0.2";
    assert ConfigAddress(a) == "127.0.0.1" == ConfigAddress(b);
    assert [a, b][0] == a && [a, b][1] == b;
    ReadableSharesWithItself(l.port);
    assert CollidesLater(rules, [a, b], 0) && !Fine(rules, [a, b], 0);
  }
}
