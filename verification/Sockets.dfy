/**
Which listeners really listen (mihomo/socket_index.go, mihomo/listener_runtime.go and the readiness check
of mihomo/core_update.go): the ports a listener should hold, an index over the sockets of the core, and
the polling loop between them. Reading the sockets and the clock are inputs; netip.ParseAddr followed by
Unmap is the parameter `parse`.
*/
module Sockets {
  import opened Collections
  import opened Wrappers
  import opened Text
  import opened PortSpec

  datatype Network = Tcp | Udp

  datatype Address = V4(bits: nat) | V6(bits: nat)

  const UNSPECIFIED4 := V4(0)
  const UNSPECIFIED6 := V6(0)

  datatype SocketType = Stream | Datagram | OtherType

  datatype Connection = Connection(
    pid: int, kind: SocketType, listening: bool, remotePort: nat, address: string, port: nat,
    familyKnown: bool, ipv6Only: bool)

  datatype Key = Key(network: Network, address: Option<Address>, port: nat)

  datatype State = Bound | FamilyUnknown

  datatype Endpoint = Endpoint(network: Network, address: string, port: nat)

  type Parser = string -> Option<Address>

  function EndpointKey(parse: Parser, e: Endpoint): Key {
    Key(e.network, parse(e.address), e.port)
  }

  // ---------------------------------------------------------------- the naive scan

  /** The network a socket of the process accepts clients on. */
  function Serving(pid: int, c: Connection): Option<Network> {
    if c.pid != pid then None
    else if c.kind == Stream && c.listening then Some(Tcp)
    else if c.kind == Datagram && c.remotePort == 0 then Some(Udp)
    else None
  }

  /** The socket certainly accepts clients of this key; a dual-stack `::` also serves 0.0.0.0. */
  predicate Covers(parse: Parser, pid: int, c: Connection, key: Key) {
    && Serving(pid, c) == Some(key.network) && c.port == key.port && parse(c.address).Some?
    && (parse(c.address) == key.address || (DualStack(parse, c, key) && c.familyKnown && !c.ipv6Only))
  }

  /** The socket is a `::` of unknown family, which may or may not serve 0.0.0.0. */
  predicate MightCover(parse: Parser, pid: int, c: Connection, key: Key) {
    && Serving(pid, c) == Some(key.network) && c.port == key.port
    && DualStack(parse, c, key) && !c.familyKnown
  }

  predicate DualStack(parse: Parser, c: Connection, key: Key) {
    parse(c.address) == Some(UNSPECIFIED6) && key.address == Some(UNSPECIFIED4)
  }

  predicate SomeCovers(parse: Parser, pid: int, connections: seq<Connection>, key: Key) {
    exists c | c in connections :: Covers(parse, pid, c, key)
  }

  predicate SomeMightCover(parse: Parser, pid: int, connections: seq<Connection>, key: Key) {
    exists c | c in connections :: MightCover(parse, pid, c, key)
  }

  /** The state of a key by looking at every connection. */
  function Scan(parse: Parser, pid: int, connections: seq<Connection>, key: Key): Option<State> {
    if SomeCovers(parse, pid, connections, key) then Some(Bound)
    else if SomeMightCover(parse, pid, connections, key) then Some(FamilyUnknown)
    else None
  }

  /** The order and repetition of connections do not matter. */
  lemma ScanIgnoresOrder(parse: Parser, pid: int, a: seq<Connection>, b: seq<Connection>, key: Key)
    requires Elements(a) == Elements(b)
    ensures Scan(parse, pid, a, key) == Scan(parse, pid, b, key)
  {
    assert forall c :: c in a <==> c in Elements(a);
    assert forall c :: c in b <==> c in Elements(b);
  }

  lemma ScanOneMore(parse: Parser, pid: int, connections: seq<Connection>, c: Connection, key: Key)
    ensures Scan(parse, pid, connections + [c], key) == Step(parse, pid, c, key, Scan(parse, pid, connections, key))
  {
  }

  // ---------------------------------------------------------------- the index

  function Lookup(index: map<Key, State>, key: Key): Option<State> {
    if key in index then Some(index[key]) else None
  }

  /** What one more connection makes of the state of a key. */
  function Step(parse: Parser, pid: int, c: Connection, key: Key, before: Option<State>): Option<State> {
    if Covers(parse, pid, c, key) then Some(Bound)
    else if MightCover(parse, pid, c, key) && before.None? then Some(FamilyUnknown)
    else before
  }

  /** The loop body of indexSockets. */
  method Record(parse: Parser, pid: int, c: Connection, index: map<Key, State>) returns (result: map<Key, State>)
    ensures forall key :: Lookup(result, key) == Step(parse, pid, c, key, Lookup(index, key))
  {
    result := index;
    if c.pid != pid { return; }
    var network := Tcp;
    if c.kind == Stream && c.listening {
    } else if c.kind == Datagram && c.remotePort == 0 {
      network := Udp;
    } else {
      return;
    }
    var exact := EndpointKey(parse, Endpoint(network, c.address, c.port));
    if exact.address.None? { return; }
    result := result[exact := Bound];
    if exact.address != Some(UNSPECIFIED6) {
      return;
    }
    var both := exact.(address := Some(UNSPECIFIED4));
    if c.familyKnown && !c.ipv6Only {
      result := result[both := Bound];
    } else if !c.familyKnown && Lookup(result, both) != Some(Bound) {
      result := result[both := FamilyUnknown];
    }
    forall key ensures Lookup(result, key) == Step(parse, pid, c, key, Lookup(index, key)) {
      var before := Lookup(index, key);
      assert before.None? || before.value.Bound? || before.value.FamilyUnknown?;
      assert Covers(parse, pid, c, key) ==> key == exact || key == both;
      assert MightCover(parse, pid, c, key) ==> key == both;
    }
  }

  /** indexSockets: looking a key up is scanning all connections for it. */
  method IndexSockets(parse: Parser, pid: int, connections: seq<Connection>) returns (index: map<Key, State>)
    ensures forall key :: Lookup(index, key) == Scan(parse, pid, connections, key)
  {
    index := map[];
    for i := 0 to |connections|
      invariant forall key :: Lookup(index, key) == Scan(parse, pid, connections[..i], key)
    {
      index := Record(parse, pid, connections[i], index);
      assert connections[..i + 1] == connections[..i] + [connections[i]];
      forall key ensures Lookup(index, key) == Scan(parse, pid, connections[..i + 1], key) {
        ScanOneMore(parse, pid, connections[..i], connections[i], key);
      }
    }
    assert connections[..|connections|] == connections;
  }

  // ---------------------------------------------------------------- expected endpoints

  datatype Listener = Listener(kind: string, listen: string, port: string, udp: bool, kcp: bool, transport: string)

  /** The networks a listener of this kind opens, None when it cannot be told. */
  function Networks(l: Listener): (networks: Option<seq<Network>>)
    ensures networks.Some? ==> Distinct(networks.value)
  {
    match l.kind
    case "hysteria2" | "tuic" | "shadowquic" => Some([Udp])
    case "mieru" => Some(if ToLower(l.transport) == "udp" then [Udp] else [Tcp])
    case "shadowsocks" => if l.kcp then None else if l.udp then Some([Tcp, Udp]) else Some([Tcp])
    case "snell" | "vmess" | "vless" | "trojan" | "anytls" | "sudoku" | "trusttunnel" => Some([Tcp])
    case _ => None
  }

  /** Exactly these ports, each once per network. */
  ghost predicate Lists(endpoints: seq<Endpoint>, networks: seq<Network>, address: string, ports: set<nat>) {
    && Distinct(endpoints)
    && forall e :: e in endpoints <==> e.network in networks && e.address == address && e.port in ports
  }

  /** A new port on every network. */
  method AddPort(endpoints: seq<Endpoint>, networks: seq<Network>, address: string, ghost ports: set<nat>, port: nat)
    returns (more: seq<Endpoint>)
    requires Lists(endpoints, networks, address, ports) && Distinct(networks) && port !in ports
    ensures Lists(more, networks, address, ports + {port})
  {
    more := endpoints;
    for i := 0 to |networks|
      invariant Distinct(more)
      invariant forall e ::
        e in more <==> e in endpoints || (e.network in networks[..i] && e.address == address && e.port == port)
    {
      var e := Endpoint(networks[i], address, port);
      assert e !in endpoints && networks[i] !in networks[..i];
      assert e !in more;
      more := more + [e];
      assert networks[..i + 1] == networks[..i] + [networks[i]];
    }
    assert networks[..|networks|] == networks;
  }

  /** The loop over one range, skipping ports seen before. */
  method AddRange(endpoints: seq<Endpoint>, seen: set<nat>, networks: seq<Network>, address: string, lo: nat, hi: nat)
    returns (more: seq<Endpoint>, marked: set<nat>)
    requires Lists(endpoints, networks, address, seen) && Distinct(networks) && lo <= hi
    ensures Lists(more, networks, address, marked)
    ensures forall p :: p in marked <==> p in seen || lo <= p <= hi
  {
    more, marked := endpoints, seen;
    var port := lo;
    while port <= hi
      invariant lo <= port <= hi + 1
      invariant Lists(more, networks, address, marked)
      invariant forall p :: p in marked <==> p in seen || lo <= p < port
    {
      if port !in marked {
        more := AddPort(more, networks, address, marked, port);
        marked := marked + {port};
      }
      port := port + 1;
    }
  }

  /** One part of the port text, as endpoints reads it. */
  method ReadBounds(part: string) returns (range: Option<Range>)
    ensures range == ReadPart(part)
  {
    var bounds := SplitOnce(Trim(part), '-');
    TrimKeepsNonSpace(part, '-');
    if |bounds| == 1 {
      assert bounds[0] == Trim(part) && Trim(bounds[0]) == bounds[0];
    }
    var start := Atoi(Trim(bounds[0]));
    if start.None? || start.value < 1 || start.value > 65535 {
      return None;
    }
    var end := start;
    if |bounds| == 2 {
      end := Atoi(Trim(bounds[1]));
      if end.None? || end.value < start.value || end.value > 65535 {
        return None;
      }
    }
    return Some(Range(start.value, end.value));
  }

  /** The transport part of endpoints. */
  method ListenerNetworks(l: Listener) returns (networks: Option<seq<Network>>)
    ensures networks == Networks(l)
  {
    var list := [Tcp];
    match l.kind {
      case "hysteria2" | "tuic" | "shadowquic" =>
        list := [Udp];
      case "mieru" =>
        if ToLower(l.transport) == "udp" {
          list := [Udp];
        }
      case "shadowsocks" =>
        if l.kcp {
          return None;
        }
        if l.udp {
          list := list + [Udp];
          assert list == [Tcp, Udp];
        }
      case "snell" | "vmess" | "vless" | "trojan" | "anytls" | "sudoku" | "trusttunnel" =>
      case _ =>
        return None;
    }
    return Some(list);
  }

  function ListenAddress(l: Listener): string {
    if Trim(l.listen) == "" then "0.0.0.0" else Trim(l.listen)
  }

  /** endpoints: the port texts it reads are those of PortSpec, and each denoted port is listed once per network. */
  method Endpoints(isIP: string -> bool, l: Listener) returns (endpoints: Option<seq<Endpoint>>, ghost ports: set<nat>)
    ensures endpoints.Some? <==> Networks(l).Some? && isIP(ListenAddress(l)) && Read(l.port).Some?
    ensures endpoints.Some? ==> Lists(endpoints.value, Networks(l).value, ListenAddress(l), ports)
    ensures endpoints.Some? ==> forall p: nat :: p in ports <==> Denotes(l.port, p)
  {
    ports := {};
    var networks := ListenerNetworks(l);
    if networks.None? {
      return None, {};
    }
    var address := Trim(l.listen);
    if address == "" {
      address := "0.0.0.0";
    }
    if !isIP(address) {
      return None, {};
    }
    var parts := Split(l.port, ',');
    var found: seq<Endpoint>, seen: set<nat>, ranges: seq<Range> := [], {}, [];
    NoPartYet(parts);
    for k := 0 to |parts|
      invariant ReadParts(parts) == Continue(ranges, parts, k)
      invariant Lists(found, networks.value, address, seen)
      invariant forall p: nat :: p in seen <==> InRanges(ranges, p)
    {
      NextPart(ranges, parts, k);
      var range := ReadBounds(parts[k]);
      if range.None? {
        return None, {};
      }
      PartIsProper(parts[k]);
      found, seen := AddRange(found, seen, networks.value, address, range.value.lo, range.value.hi);
      OneMoreRange(ranges, range.value);
      ranges := ranges + [range.value];
    }
    assert parts[|parts|..] == [] && ranges + [] == ranges;
    return Some(found), seen;
  }

  lemma PartIsProper(part: string)
    requires ReadPart(part).Some?
    ensures ValidRange(ReadPart(part).value)
  {
  }

  lemma OneMoreRange(ranges: seq<Range>, r: Range)
    ensures forall p: int :: InRanges(ranges + [r], p) <==> InRanges(ranges, p) || r.lo <= p <= r.hi
  {
    var more := ranges + [r];
    assert more[|ranges|] == r;
    assert forall i | 0 <= i < |ranges| :: more[i] == ranges[i];
  }

  // ---------------------------------------------------------------- runtime state of one listener

  datatype Runtime = Listening | Unknown | NotListening

  datatype Report = Report(state: Runtime, bound: seq<bool>)

  /** The state of an endpoint, by scanning. */
  function StateOf(parse: Parser, pid: int, connections: seq<Connection>, e: Endpoint): Option<State> {
    Scan(parse, pid, connections, EndpointKey(parse, e))
  }

  /** inspectEndpoints with both inputs available: the worst state over all endpoints, and which of them are bound. */
  method InspectEndpoints(parse: Parser, pid: int, connections: seq<Connection>, endpoints: seq<Endpoint>)
    returns (report: Report)
    ensures report.state == NotListening <==> exists e | e in endpoints :: StateOf(parse, pid, connections, e).None?
    ensures report.state == Listening <==> forall e | e in endpoints :: StateOf(parse, pid, connections, e) == Some(Bound)
    ensures |report.bound| == |endpoints|
    ensures forall i | 0 <= i < |endpoints| :: report.bound[i] <==> StateOf(parse, pid, connections, endpoints[i]) == Some(Bound)
  {
    var index := IndexSockets(parse, pid, connections);
    var state, bound := Listening, [];
    for i := 0 to |endpoints|
      invariant |bound| == i
      invariant forall k | 0 <= k < i :: bound[k] <==> StateOf(parse, pid, connections, endpoints[k]) == Some(Bound)
      invariant state == NotListening <==> exists k | 0 <= k < i :: StateOf(parse, pid, connections, endpoints[k]).None?
      invariant state == Listening <==> forall k | 0 <= k < i :: StateOf(parse, pid, connections, endpoints[k]) == Some(Bound)
    {
      var found := Lookup(index, EndpointKey(parse, endpoints[i]));
      bound := bound + [found == Some(Bound)];
      if found == Some(FamilyUnknown) {
        if state != NotListening {
          state := Unknown;
        }
      } else if found.None? {
        state := NotListening;
      }
      assert found == StateOf(parse, pid, connections, endpoints[i]);
    }
    return Report(state, bound);
  }

  // ---------------------------------------------------------------- waiting for readiness

  /**
   What one turn of the polling loop sees: whether the deadline has passed at its start, the process, the
   sockets unless reading them failed, and whether the deadline passes before the timer of the turn fires.
   */
  datatype Turn = Turn(expired: bool, pid: int, connections: Option<seq<Connection>>, late: bool)

  datatype Outcome = Ready | Missing(listener: nat, endpoint: Endpoint) | Stopped

  predicate Absent(parse: Parser, t: Turn, e: Endpoint)
    requires t.connections.Some?
  {
    StateOf(parse, t.pid, t.connections.value, e).None?
  }

  /** A completed inspection that misses nothing. */
  predicate Complete(parse: Parser, t: Turn, expected: seq<seq<Endpoint>>) {
    && t.pid != 0 && t.connections.Some?
    && forall i, j | 0 <= i < |expected| && 0 <= j < |expected[i]| :: !Absent(parse, t, expected[i][j])
  }

  /** The search for the first expected endpoint that is missing. */
  method FindMissing(parse: Parser, t: Turn, expected: seq<seq<Endpoint>>) returns (missing: Option<Outcome>)
    requires t.pid != 0 && t.connections.Some?
    ensures missing.None? <==> Complete(parse, t, expected)
    ensures missing.Some? ==> missing.value.Missing? && missing.value.listener < |expected|
                              && missing.value.endpoint in expected[missing.value.listener]
                              && Absent(parse, t, missing.value.endpoint)
    ensures missing.Some? ==> forall k, j | 0 <= k < missing.value.listener && 0 <= j < |expected[k]| ::
              !Absent(parse, t, expected[k][j])
  {
    var index := IndexSockets(parse, t.pid, t.connections.value);
    for i := 0 to |expected|
      invariant forall k, j | 0 <= k < i && 0 <= j < |expected[k]| :: !Absent(parse, t, expected[k][j])
    {
      for j := 0 to |expected[i]|
        invariant forall l | 0 <= l < j :: !Absent(parse, t, expected[i][l])
      {
        if Lookup(index, EndpointKey(parse, expected[i][j])).None? {
          assert Absent(parse, t, expected[i][j]);
          return Some(Missing(i, expected[i][j]));
        }
      }
    }
    return None;
  }

  /** After this turn the loop goes on. */
  predicate GoesOn(parse: Parser, expected: seq<seq<Endpoint>>, t: Turn) {
    !t.expired && t.pid != 0 && t.connections.Some? && !t.late && !Complete(parse, t, expected)
  }

  /** The outcome names an endpoint that is missing in this turn, of the first listener that misses one. */
  predicate MissingAt(parse: Parser, expected: seq<seq<Endpoint>>, t: Turn, outcome: Outcome) {
    && t.pid != 0 && t.connections.Some? && outcome.Missing?
    && outcome.listener < |expected| && outcome.endpoint in expected[outcome.listener] && Absent(parse, t, outcome.endpoint)
    && forall k, j | 0 <= k < outcome.listener && 0 <= j < |expected[k]| :: !Absent(parse, t, expected[k][j])
  }

  /** What the loop returns when the k-th turn is the first after which it does not go on. */
  predicate EndsWith(parse: Parser, expected: seq<seq<Endpoint>>, script: seq<Turn>, k: nat, outcome: Outcome, failed: Option<bool>)
    requires k < |script|
  {
    var t := script[k];
    if t.expired then
      if k == 0 then outcome == Ready && failed == None
      else MissingAt(parse, expected, script[k - 1], outcome) && failed == Some(false)
    else if t.pid == 0 then outcome == Stopped && failed == (if k == 0 then None else Some(false))
    else if t.connections.None? then
      failed == Some(true) && if t.late && k > 0 then MissingAt(parse, expected, script[k - 1], outcome) else outcome == Ready
    else failed == Some(false) && if Complete(parse, t, expected) then outcome == Ready else MissingAt(parse, expected, t, outcome)
  }

  /** The loop ends in turn k, or with the script. */
  predicate Ends(parse: Parser, expected: seq<seq<Endpoint>>, script: seq<Turn>, k: nat, outcome: Outcome, failed: Option<bool>) {
    && k <= |script| && (forall j | 0 <= j < k :: GoesOn(parse, expected, script[j]))
    && if k < |script| then !GoesOn(parse, expected, script[k]) && EndsWith(parse, expected, script, k, outcome, failed)
       else if k == 0 then outcome == Ready && failed == None
       else MissingAt(parse, expected, script[k - 1], outcome) && failed == Some(false)
  }

  /** The polling loop of waitForListenerSockets, with the turn in which it ends. */
  method PollSockets(parse: Parser, expected: seq<seq<Endpoint>>, script: seq<Turn>)
    returns (outcome: Outcome, failed: Option<bool>, ghost turn: nat)
    ensures Ends(parse, expected, script, turn, outcome, failed)
  {
    var missing: Option<Outcome> := None;
    failed, turn := None, 0;
    for i := 0 to |script|
      invariant turn == i && forall k | 0 <= k < i :: GoesOn(parse, expected, script[k])
      invariant if i == 0 then missing == None && failed == None
                else missing.Some? && MissingAt(parse, expected, script[i - 1], missing.value) && failed == Some(false)
    {
      var t := script[i];
      if t.expired {
        return if missing.Some? then missing.value else Ready, failed, i;
      }
      if t.pid == 0 {
        return Stopped, failed, i;
      }
      if t.connections.None? {
        failed := Some(true);
        return if t.late && missing.Some? then missing.value else Ready, failed, i;
      }
      failed := Some(false);
      missing := FindMissing(parse, t, expected);
      if missing.None? {
        return Ready, failed, i;
      }
      if t.late {
        return missing.value, failed, i;
      }
      turn := i + 1;
    }
    return if missing.Some? then missing.value else Ready, failed, |script|;
  }

  /**
   waitForListenerSockets; the deadline passes at the end of the script at the latest. `failed` is whether
   the last inspection of this call failed, None when there was none. `turn` is the turn that decides.
   */
  method WaitForListenerSockets(parse: Parser, expected: seq<seq<Endpoint>>, script: seq<Turn>)
    returns (outcome: Outcome, failed: Option<bool>, ghost turn: nat)
    ensures Ends(parse, expected, script, turn, outcome, failed)
    ensures outcome == Ready ==>
              || (failed == Some(false) && exists t | t in script :: !t.expired && Complete(parse, t, expected))
              || failed == Some(true)
              || (failed == None && (script == [] || script[0].expired))
    ensures outcome.Missing? ==> failed.Some? && exists t | t in script ::
              && t.pid != 0 && t.connections.Some?
              && outcome.listener < |expected| && outcome.endpoint in expected[outcome.listener]
              && Absent(parse, t, outcome.endpoint)
    ensures outcome == Stopped ==> exists t | t in script :: t.pid == 0
    ensures NothingElse(script) && script != [] ==>
              (outcome == Ready <==> exists t | t in script :: Complete(parse, t, expected))
    ensures failed == Some(true) ==> exists t | t in script :: t.connections.None?
  {
    outcome, failed, turn := PollSockets(parse, expected, script);
    if turn < |script| {
      assert script[turn] in script;
    }
    if turn > 0 {
      assert script[turn - 1] in script;
    }
  }

  /** No turn is late, stopped or unreadable. */
  predicate NothingElse(script: seq<Turn>) {
    forall t | t in script :: !t.expired && !t.late && t.pid != 0 && t.connections.Some?
  }

  /** The loop ends without an error: on a completed inspection that misses nothing, or because it never looked. */
  predicate GetsReady(parse: Parser, expected: seq<seq<Endpoint>>, script: seq<Turn>) {
    || script == [] || script[0].expired
    || exists k | 0 <= k < |script| ::
         && Complete(parse, script[k], expected) && !script[k].expired
         && forall j | 0 <= j < k :: GoesOn(parse, expected, script[j])
  }

  lemma ReadyIffItGetsReady(parse: Parser, expected: seq<seq<Endpoint>>, script: seq<Turn>, turn: nat, outcome: Outcome,
                            failed: Option<bool>)
    requires Ends(parse, expected, script, turn, outcome, failed)
    ensures outcome == Ready && failed != Some(true) <==> GetsReady(parse, expected, script)
  {
    if k :| 0 <= k < |script| && Complete(parse, script[k], expected) && !script[k].expired
            && forall j | 0 <= j < k :: GoesOn(parse, expected, script[j]) {
      assert !GoesOn(parse, expected, script[k]);
      assert turn == k;
    }
  }

  /**
   checkUpdateReadiness: two waits under one deadline, the first of which starts before it; `alive` is
   whether the core still runs in between. Without an error there was a completed inspection in which no
   expected endpoint was missing.
   */
  method CheckUpdateReadiness(parse: Parser, expected: seq<seq<Endpoint>>, first: seq<Turn>, alive: bool, second: seq<Turn>)
    returns (ok: bool)
    requires first != [] && !first[0].expired
    ensures ok <==> alive && GetsReady(parse, expected, first) && GetsReady(parse, expected, second)
    ensures ok ==> alive && exists t | t in first :: !t.expired && Complete(parse, t, expected)
    ensures ok && second != [] && !second[0].expired ==> exists t | t in second :: Complete(parse, t, expected)
    ensures alive && NothingElse(first) && NothingElse(second) && (exists t | t in first :: Complete(parse, t, expected))
            && (exists t | t in second :: Complete(parse, t, expected))
            ==> ok
  {
    var outcome, failed, turn := WaitForListenerSockets(parse, expected, first);
    ReadyIffItGetsReady(parse, expected, first, turn, outcome, failed);
    if outcome != Ready || failed == Some(true) {
      return false;
    }
    if !alive {
      return false;
    }
    var outcome2, failed2, turn2 := WaitForListenerSockets(parse, expected, second);
    ReadyIffItGetsReady(parse, expected, second, turn2, outcome2, failed2);
    return outcome2 == Ready && failed2 != Some(true);
  }
}
