/**
The listener registry (listener/service.go, listener/p2.go, listener/quick.go): a table of listeners
with tombstones and a version history. Every mutator runs under s.mu, and so does a generation it
schedules, which writes configurations of its own (mihomo/config/generator.go, user/service_creds.go); the
start-up hydration (certstore/hydrate.go) runs before there are any. Each is one method, and the state
between two method calls is the state whenever the lock is free. Any database statement may fail: `works`
says which statements of the run succeed.
*/
module Registry {
  import opened Collections
  import opened Wrappers
  import opened Text
  import opened PortSpec
  import opened ListenerModel
  import opened GenerationCheck
  import opened ListenerTable

  datatype Refusal =
    | Invalid | NameTaken | EndpointTaken | NotFound | NoFreePort | NothingSupplied | Database | Stuck

  datatype Outcome = Inserted | Duplicate | Failed

  datatype Template = Template(protocol: string, config: string)

  const MIN_PORT: nat := 10000
  const MAX_PORT: nat := 60000
  const RESERVED: set<int> := {22, 53, 80, 443, 8080, 8443, 9090}

  /** A port of the automatic range that no live listener denotes. */
  ghost predicate Free(n: nat, live: Rows) {
    MIN_PORT <= n <= MAX_PORT && n !in RESERVED && forall id | id in live :: !Denotes(live[id].port, n)
  }

  /** Such a port, written in decimal. */
  ghost predicate FreshPort(text: string, live: Rows) {
    exists n | Free(n, live) :: text == Decimal(n)
  }

  /** A listener on such a port clashes with nothing. */
  lemma FreshPortClashesWithNothing(rules: Rules, live: Rows, l: Listener)
    requires FreshPort(l.port, live)
    ensures PeaceWith(rules, live, l, l.id)
    ensures Read(l.port).Some?
  {
    var n :| Free(n, live) && l.port == Decimal(n);
    DecimalIsSpec(n);
    forall id | id in live ensures !Clash(rules, l, live[id]) {
      SinglePortOverlap(n, live[id].port);
    }
  }

  /** The bindings (listener, user) without those of one listener. */
  function Unbound(bindings: set<(nat, nat)>, id: nat): set<(nat, nat)> {
    set b | b in bindings && b.0 != id
  }

  function AllEnabled(batch: seq<Listener>): (candidates: seq<Listener>)
    ensures |candidates| == |batch|
  {
    seq(|batch|, i requires 0 <= i < |batch| => batch[i].(enabled := true))
  }

  predicate Auto(port: string) {
    Trim(port) == "" || Trim(port) == "0"
  }

  /** strings.Contains, for a non-empty part. */
  predicate Contains(s: string, part: string)
    requires part != ""
  {
    |part| <= |s| && (s[..|part|] == part || Contains(s[1..], part))
  }

  lemma {:induction false} ContainsIs(s: string, part: string)
    requires part != ""
    ensures Contains(s, part) <==> exists i | 0 <= i <= |s| :: part <= s[i..]
  {
    if |part| <= |s| {
      ContainsIs(s[1..], part);
      assert s[0..] == s;
      if i :| 1 <= i <= |s| && part <= s[i..] {
        assert s[1..][i - 1..] == s[i..];
      }
      if i :| 0 <= i <= |s[1..]| && part <= s[1..][i..] {
        assert s[1..][i..] == s[i + 1..];
      }
    }
  }

  /** The test both endpoint checks run on a pair of listeners. */
  method Conflicting(rules: Rules, a: Listener, b: Listener) returns (found: bool)
    ensures found <==> Clash(rules, a, b)
  {
    found := PortsOverlap(a.port, b.port);
    if found {
      var here := FirstListenerAddress(a);
      var there := FirstListenerAddress(b);
      found := ListenerAddressesConflict(rules, here, there);
    }
  }

  class Service {
    const rules: Rules
    const validate: Listener -> Option<Listener>
    const autofill: Listener -> Option<string>
    const works: nat -> bool
    const random: nat -> Option<nat> // the n-th draw of a random number, None when the source fails
    var rows: Rows
    var history: History
    var bindings: set<(nat, nat)> // listener, user
    var nextId: nat
    var clock: nat
    var drawn: nat
    var schedules: nat           // calls of scheduleConfigApply
    ghost var touched: set<nat>  // the rows whose configuration something other than a mutator has written

    function Live(): Rows
      reads this`rows
    {
      LiveRows(rows)
    }

    ghost predicate Lawful()
    {
      LawfulValidator(rules, validate) && LawfulAutofill(autofill)
    }

    ghost predicate Valid()
      reads this`rows, this`nextId, this`history, this`touched
    {
      && Lawful() && Shape(rows, nextId) && Peace(rules, Live()) && Normalised(rules, validate, Live(), touched) && Dense(history)
    }

    /** No database statement fails from here on. */
    ghost predicate Healthy()
      reads this`clock
    {
      forall k | clock <= k :: works(k)
    }

    constructor (rules: Rules, validate: Listener -> Option<Listener>, autofill: Listener -> Option<string>,
                 works: nat -> bool, random: nat -> Option<nat>)
      requires LawfulValidator(rules, validate) && LawfulAutofill(autofill)
      ensures Valid() && rows == map[] && history == map[] && bindings == {} && touched == {}
      ensures this.rules == rules && this.validate == validate && this.autofill == autofill && this.works == works
      ensures this.random == random
    {
      this.rules, this.validate, this.autofill, this.works, this.random := rules, validate, autofill, works, random;
      rows, history, bindings, nextId, clock, drawn, schedules, touched := map[], map[], {}, 1, 0, 0, 0, {};
    }

    method Statement() returns (ok: bool)
      modifies this`clock
      ensures clock == old(clock) + 1 && ok == works(old(clock))
    {
      ok := works(clock);
      clock := clock + 1;
    }

    /** SaveVersion: append a snapshot of the live row. */
    method SaveVersion(id: nat, reason: string) returns (ok: bool)
      requires Shape(rows, nextId) && Dense(history)
      modifies this`history, this`clock
      ensures clock == old(clock) + 3 && (old(Healthy()) ==> Healthy()) && Dense(history) && Extends(old(history), history)
      ensures ok <==> id in Live() && works(old(clock)) && works(old(clock) + 1) && works(old(clock) + 2)
      ensures ok ==> id in Live() && history == Recorded(old(history), Live()[id], reason)
      ensures ok ==>
                var before := if id in old(history) then old(history)[id] else [];
                history == old(history)[id := before + [Version(|before| + 1, reason, Live()[id])]]
      ensures !ok ==> history == old(history)
      ensures old(Healthy()) && id in Live() ==> ok
    {
      var found := Statement();
      var counted := Statement();
      var written := Statement();
      ok := id in Live() && found && counted && written;
      if ok {
        RecordingExtends(history, Live()[id], reason);
        history := Recorded(history, Live()[id], reason);
      }
    }

    /** UPDATE of the name of a tombstone, refused by UNIQUE(name). */
    method RenameTombstone(row: Listener, name: string, staged: Rows, next: nat) returns (ok: bool)
      requires Shape(rows, nextId) && Shape(rows + staged, next) && staged.Keys !! rows.Keys
      requires row.id in rows && rows[row.id] == row && row.deleted
      modifies this`rows, this`clock
      ensures clock == old(clock) + 1 && Shape(rows, nextId) && Shape(rows + staged, next)
      ensures rows == if ok then old(rows)[row.id := row.(name := name)] else old(rows)
    {
      ok := Statement();
      if exists id | id in rows + staged && id != row.id :: (rows + staged)[id].name == name {
        ok := false;
      }
      if ok {
        var renamed := row.(name := name);
        WritingBelow(rows, staged, renamed);
        WriteKeepsShape(rows + staged, next, renamed, next);
        assert forall id | id in rows :: id in rows + staged && (rows + staged)[id] == rows[id];
        WriteKeepsShape(rows, nextId, renamed, nextId);
        rows := rows[row.id := renamed];
      }
    }

    /** Get a tombstone out of the way of its name: purge it or, if that fails, give it a name with a time stamp. */
    method Reclaim(row: Listener, staged: Rows, next: nat) returns (ok: bool)
      requires Shape(rows, nextId) && Shape(rows + staged, next) && staged.Keys !! rows.Keys
      requires row.id in rows && rows[row.id] == row && row.deleted
      modifies this`rows, this`clock
      ensures old(clock) <= clock && (old(Healthy()) ==> Healthy() && ok)
      ensures Shape(rows, nextId) && Shape(rows + staged, next)
      ensures Purged(old(rows), rows) && (!ok ==> rows == old(rows))
      ensures forall id | id in old(rows) && id != row.id :: id in rows && rows[id] == old(rows)[id]
      ensures ok ==> forall id | id in rows :: rows[id].name != row.name
    {
      var purged := Statement();
      if purged {
        RemovingBelow(rows, staged, row.id, next);
        rows := rows - {row.id};
        return true;
      }
      var stamp: nat := *;
      var suffix := "__deleted_" + Decimal(row.id) + "_" + Decimal(stamp);
      assert |row.name + suffix| > |row.name|;
      assert row.name + suffix == row.name + "__deleted_" + Decimal(row.id) + "_" + Decimal(stamp);
      ok := RenameTombstone(row, row.name + suffix, staged, next);
    }

    /** The loop of ensureUniqueName. */
    method ReclaimName(name: string, self: nat, staged: Rows, next: nat) returns (err: Option<Refusal>)
      requires Shape(rows, nextId) && Shape(rows + staged, next) && staged.Keys !! rows.Keys
      modifies this`rows, this`clock
      ensures old(clock) <= clock && (old(Healthy()) ==> Healthy() && err != Some(Database))
      ensures Shape(rows, nextId) && Shape(rows + staged, next) && Purged(old(rows), rows)
      ensures forall id | id in old(rows) && old(rows)[id].name != name :: id in rows && rows[id] == old(rows)[id]
      ensures err in {None, Some(NameTaken), Some(Database)}
      ensures err.None? ==> NameUnused(rows, name, self)
      ensures err == Some(NameTaken) ==> exists id :: id in rows && id != self && rows[id].name == name && !rows[id].deleted
    {
      var found := set id | id in rows && id != self && rows[id].name == name;
      assert forall id | id in rows && id != self && rows[id].name == name :: id in found;
      while found != {}
        invariant old(clock) <= clock && (old(Healthy()) ==> Healthy())
        invariant Shape(rows, nextId) && Shape(rows + staged, next) && Purged(old(rows), rows)
        invariant forall id | id in old(rows) && old(rows)[id].name != name :: id in rows && rows[id] == old(rows)[id]
        invariant forall id | id in found :: id in rows && id != self && rows[id].name == name
        invariant found == {} ==> NameUnused(rows, name, self)
        decreases found
      {
        var id :| id in found;
        assert forall k | k in found :: k == id; // names are unique
        found := found - {id};
        if !rows[id].deleted {
          return Some(NameTaken);
        }
        ghost var before := rows;
        var reclaimed := Reclaim(rows[id], staged, next);
        PurgedTwice(old(rows), before, rows);
        if !reclaimed {
          return Some(Database);
        }
      }
      return None;
    }

    /** ensureUniqueName while a transaction holds further rows. */
    method EnsureUniqueNameBeside(candidate: Listener, staged: Rows, next: nat) returns (err: Option<Refusal>)
      requires Shape(rows, nextId) && Shape(rows + staged, next) && staged.Keys !! rows.Keys
      modifies this`rows, this`clock
      ensures old(clock) <= clock && Shape(rows, nextId) && Shape(rows + staged, next)
      ensures Purged(old(rows), rows) && Live() == old(Live())
      ensures forall id | id in old(rows) && old(rows)[id].name != Trim(candidate.name) :: id in rows && rows[id] == old(rows)[id]
      ensures err.None? ==> NameUnused(rows, Trim(candidate.name), candidate.id) && Trim(candidate.name) != ""
      ensures err.Some? ==> err.value in {Invalid, NameTaken, Database}
      ensures err == Some(Invalid) ==> Trim(candidate.name) == ""
      ensures err == Some(NameTaken) ==> !NameUnused(Live(), Trim(candidate.name), candidate.id)
      ensures old(Healthy()) ==> Healthy() && err != Some(Database)
    {
      var name := Trim(candidate.name);
      if name == "" { return Some(Invalid); }
      var read := Statement();
      if !read { return Some(Database); }
      err := ReclaimName(name, candidate.id, staged, next);
      PurgedLooksTheSame(old(rows), rows);
      if err == Some(NameTaken) {
        var id :| id in rows && id != candidate.id && rows[id].name == name && !rows[id].deleted;
        assert id in Live();
      }
    }

    /** ensureUniqueName: reclaim the name from tombstones, refuse a live row that holds it. */
    method EnsureUniqueName(candidate: Listener) returns (err: Option<Refusal>)
      requires Shape(rows, nextId)
      modifies this`rows, this`clock
      ensures old(clock) <= clock && Shape(rows, nextId) && Purged(old(rows), rows) && Live() == old(Live())
      ensures forall id | id in old(rows) && old(rows)[id].name != Trim(candidate.name) :: id in rows && rows[id] == old(rows)[id]
      ensures err.None? ==> NameUnused(rows, Trim(candidate.name), candidate.id) && Trim(candidate.name) != ""
      ensures err.Some? ==> err.value in {Invalid, NameTaken, Database}
      ensures err == Some(Invalid) ==> Trim(candidate.name) == ""
      ensures err == Some(NameTaken) ==> !NameUnused(Live(), Trim(candidate.name), candidate.id)
      ensures old(Healthy()) ==> Healthy() && err != Some(Database)
    {
      assert rows + map[] == rows;
      err := EnsureUniqueNameBeside(candidate, map[], nextId);
    }

    /** ensureEndpointAvailable; a new candidate has id 0, which no row has. */
    method EnsureEndpointAvailable(candidate: Listener) returns (err: Option<Refusal>)
      requires Shape(rows, nextId)
      modifies this`rows, this`clock
      ensures old(clock) <= clock && Shape(rows, nextId) && Purged(old(rows), rows) && Live() == old(Live())
      ensures err.None? ==> NameUnused(rows, Trim(candidate.name), candidate.id) && Trim(candidate.name) != ""
      ensures err.None? ==> PeaceWith(rules, Live(), candidate, candidate.id)
      ensures err.Some? ==> err.value in {Invalid, NameTaken, EndpointTaken, Database}
      ensures err == Some(Invalid) ==> Trim(candidate.name) == ""
      ensures err == Some(NameTaken) ==> !NameUnused(Live(), Trim(candidate.name), candidate.id)
      ensures err == Some(EndpointTaken) ==> !PeaceWith(rules, Live(), candidate, candidate.id)
      ensures old(Healthy()) ==> Healthy() && err != Some(Database)
    {
      err := EnsureUniqueName(candidate);
      if err.Some? {
        return;
      }
      var read := Statement();
      if !read { return Some(Database); }
      ghost var live := Live();
      var todo := Live().Keys - {candidate.id};
      while todo != {}
        modifies {}
        invariant todo <= live.Keys - {candidate.id}
        invariant forall id | id in live && id != candidate.id && id !in todo :: !Clash(rules, candidate, live[id])
        decreases todo
      {
        var id :| id in todo;
        todo := todo - {id};
        var conflicting := Conflicting(rules, candidate, Live()[id]);
        if conflicting {
          return Some(EndpointTaken);
        }
      }
    }

    /** db.Create: a key is chosen unless one was supplied; keys and names are unique, tombstones included. */
    method Insert(l: Listener) returns (saved: Listener, outcome: Outcome)
      requires Shape(rows, nextId)
      modifies this`rows, this`nextId, this`clock
      ensures old(clock) <= clock && Shape(rows, nextId)
      ensures outcome.Inserted? ==>
                && saved == l.(id := saved.id) && saved.id !in old(rows) && (l.id != 0 ==> saved.id == l.id)
                && NameUnused(old(rows), l.name, saved.id) && rows == old(rows)[saved.id := saved]
      ensures !outcome.Inserted? ==> rows == old(rows) && nextId == old(nextId)
      ensures outcome.Failed? ==> !works(old(clock))
      ensures old(Healthy()) ==> Healthy()
      ensures old(Healthy()) && l.id !in old(rows) && NameUnused(old(rows), l.name, l.id) ==> outcome.Inserted?
    {
      saved := l;
      var written := Statement();
      if !written {
        return l, Failed;
      }
      if l.id in rows || exists id | id in rows && id != l.id :: rows[id].name == l.name {
        return l, Duplicate;
      }
      if l.id == 0 {
        saved := l.(id := nextId);
      }
      var after := if nextId <= saved.id then saved.id + 1 else nextId;
      WriteKeepsShape(rows, nextId, saved, after);
      rows, nextId, outcome := rows[saved.id := saved], after, Inserted;
    }

    // -------------------------------------------------------------- creating one listener

    /** The ports a list of ranges denotes, marked one by one. */
    method MarkUsed(used: set<int>, ranges: seq<Range>) returns (marked: set<int>)
      ensures forall n :: n in marked <==> n in used || InRanges(ranges, n)
    {
      marked := used;
      for i := 0 to |ranges|
        invariant forall n :: n in marked <==> n in used || InRanges(ranges[..i], n)
      {
        var p, lo, hi := ranges[i].lo, ranges[i].lo, ranges[i].hi;
        ghost var before := marked;
        while p <= hi
          invariant lo <= p
          invariant forall n :: n in marked <==> n in before || (lo <= n < p && n <= hi)
        {
          marked := marked + {p};
          p := p + 1;
        }
        InOneMoreRange(ranges, i);
      }
      assert ranges[..|ranges|] == ranges;
    }

    /** The ports allocateFreePort must not hand out. */
    method UsedPorts(exclude: seq<int>) returns (used: set<int>)
      ensures forall n: nat | MIN_PORT <= n <= MAX_PORT :: n !in used <==> Free(n, Live()) && n !in exclude
    {
      used := RESERVED + set e | e in exclude && e > 0;
      ghost var base, live := used, Live();
      var todo := Live().Keys;
      while todo != {}
        modifies {}
        invariant todo <= live.Keys
        invariant forall n :: n in used <==> n in base || Taken(live, live.Keys - todo, n)
        decreases todo
      {
        var id :| id in todo;
        todo := todo - {id};
        var ranges, ok := PortRanges(Live()[id].port);
        ghost var before := used;
        if ok {
          used := MarkUsed(used, ranges);
        }
        assert forall n :: n in used <==> n in before || Denotes(live[id].port, n);
        TakenOneMore(live, live.Keys - todo - {id}, id);
        assert live.Keys - todo == live.Keys - todo - {id} + {id};
      }
      forall n: nat | MIN_PORT <= n <= MAX_PORT ensures n !in used <==> Free(n, Live()) && n !in exclude {
        assert Taken(live, live.Keys - todo, n) <==> exists id | id in live :: Denotes(live[id].port, n);
      }
    }

    /** The port the k-th random draw stands for. */
    function Draw(k: nat): nat
      requires random(k).Some?
    {
      MIN_PORT + random(k).value % (MAX_PORT - MIN_PORT + 1)
    }

    /** Every port of the automatic range can be drawn. */
    lemma EveryPortCanBeDrawn(k: nat, port: nat)
      requires 10000 <= port <= 60000 && random(k) == Some(port - 10000)
      ensures Draw(k) == port
    {
    }

    /** One of the next 300 draws fails, or all of them hit ports that are in use or excluded. */
    ghost predicate Unlucky(live: Rows, from: nat, exclude: seq<int>) {
      match forall k | from <= k < from + 300 :: random(k).Some?
      case false => true
      case true => forall k | from <= k < from + 300 :: !Free(Draw(k), live) || Draw(k) in exclude
    }

    /** That was so from some draw on that has been reached. */
    ghost predicate DrawsFail(live: Rows, from: nat, to: nat) {
      exists k, exclude | from <= k <= to :: Unlucky(live, k, exclude)
    }

    /** allocateFreePort: up to 300 draws; it gives up only when a draw fails or all of them hit a used port. */
    method AllocateFreePort(exclude: seq<int>) returns (port: Option<nat>)
      modifies this`clock, this`drawn
      ensures old(clock) < clock && (old(Healthy()) ==> Healthy())
      ensures port.Some? ==> Free(port.value, Live()) && port.value !in exclude
      ensures port.Some? ==> 10000 <= port.value <= 60000 && forall id | id in Live() :: !Denotes(Live()[id].port, port.value)
      ensures port.None? ==> !works(old(clock)) || Unlucky(Live(), old(drawn), exclude)
      ensures old(drawn) <= drawn && (port.Some? ==> old(drawn) < drawn)
    {
      var read := Statement();
      if !read { return None; }
      var used := UsedPorts(exclude);
      for attempt := 0 to 300
        invariant drawn == old(drawn) + attempt && clock == old(clock) + 1
        invariant forall k | old(drawn) <= k < drawn :: random(k).Some? && Draw(k) in used
      {
        if random(drawn).None? {
          return None;
        }
        var p := Draw(drawn);
        drawn := drawn + 1;
        if p !in used {
          return Some(p);
        }
      }
      return None;
    }

    /** The name of the listener is neither blank nor that of another one. */
    ghost predicate NameFits(live: Rows, l: Listener) {
      Trim(l.name) != "" && NameUnused(live, Trim(l.name), l.id)
    }

    /** The port a request asks for counts as tried. */
    function OwnPort(l: Listener): seq<int> {
      var current := Atoi(Trim(l.port));
      if current.Some? && current.value > 0 then [current.value] else []
    }

    /** One retry: another free port, and the checks on it. */
    method TryElsewhere(l: Listener, tried: seq<int>) returns (port: Option<nat>, err: Option<Refusal>)
      requires Shape(rows, nextId)
      modifies this`rows, this`clock, this`drawn
      ensures old(clock) < clock && (old(Healthy()) ==> Healthy())
      ensures Shape(rows, nextId) && Purged(old(rows), rows) && Live() == old(Live())
      ensures port.Some? ==> port.value !in tried
      ensures port.Some? && err.None? ==> Free(port.value, Live()) && NameUnused(rows, Trim(l.name), l.id)
      ensures err.Some? ==> err.value in {Invalid, NameTaken, Database}
      ensures port.None? ==> !works(old(clock)) || Unlucky(old(Live()), old(drawn), tried)
      ensures old(drawn) <= drawn && (port.Some? ==> old(drawn) < drawn)
      ensures old(Healthy()) && port.Some? && NameFits(old(Live()), l) ==> err.None?
    {
      err := None;
      port := AllocateFreePort(tried);
      if port.Some? {
        var moved := l.(port := Decimal(port.value));
        assert FreshPort(moved.port, Live());
        FreshPortClashesWithNothing(rules, Live(), moved);
        err := EnsureEndpointAvailable(moved);
      }
    }

    /**
     The retry loop of Create: eight other ports, unless one of them will do or no further one is found (`gaveUp`);
     `first` is why the requested one was refused.
     */
    method RetryElsewhere(l: Listener, first: Refusal) returns (moved: Listener, last: Option<Refusal>, ghost gaveUp: bool)
      requires Shape(rows, nextId) && first != Stuck
      modifies this`rows, this`clock, this`drawn
      ensures old(clock) <= clock && (old(Healthy()) ==> Healthy())
      ensures Shape(rows, nextId) && Purged(old(rows), rows) && Live() == old(Live())
      ensures moved == l.(port := moved.port)
      ensures last.None? ==> FreshPort(moved.port, Live()) && NameUnused(rows, Trim(l.name), l.id)
      ensures last.None? ==> Atoi(moved.port) != Atoi(Trim(l.port))
      ensures last.Some? ==> last.value == first || last.value in {Invalid, NameTaken, Database}
      ensures old(Healthy()) && NameFits(old(Live()), l) && last.Some? ==> Unlucky(old(Live()), old(drawn), OwnPort(l))
      ensures last.Some? && !gaveUp ==> old(drawn) + 8 <= drawn
      ensures gaveUp ==> (exists k | old(clock) <= k < clock :: !works(k)) || DrawsFail(old(Live()), old(drawn), drawn)
    {
      moved, last, gaveUp := l, Some(first), false;
      var tried := OwnPort(l);
      for attempt := 0 to 8
        invariant old(clock) <= clock && (old(Healthy()) ==> Healthy())
        invariant Shape(rows, nextId) && Purged(old(rows), rows) && Live() == old(Live())
        invariant moved == l.(port := moved.port) && forall p | p in OwnPort(l) :: p in tried
        invariant last.Some? && (last.value == first || last.value in {Invalid, NameTaken, Database})
        invariant !gaveUp && old(drawn) + attempt <= drawn
        invariant old(Healthy()) && NameFits(old(Live()), l) ==> attempt == 0 && drawn == old(drawn) && tried == OwnPort(l)
      {
        ghost var before, from, start := rows, drawn, clock;
        var port, refused := TryElsewhere(moved, tried);
        PurgedTwice(old(rows), before, rows);
        if port.None? {
          gaveUp := true;
          assert Unlucky(old(Live()), from, tried) ==> DrawsFail(old(Live()), old(drawn), drawn);
          return;
        }
        tried := tried + [port.value];
        moved, last := l.(port := Decimal(port.value)), refused;
        if last.None? {
          AtoiOfDecimal(port.value);
          return;
        }
      }
    }

    /** db.Create with its one retry: a duplicate reclaims the name from tombstones first. */
    method StoreNew(l: Listener) returns (saved: Listener, err: Option<Refusal>)
      requires Shape(rows, nextId) && !l.deleted
      modifies this`rows, this`nextId, this`clock
      ensures old(clock) <= clock && (old(Healthy()) ==> Healthy()) && Shape(rows, nextId)
      ensures err.None? ==> saved == l.(id := saved.id) && (l.id != 0 ==> saved.id == l.id)
      ensures err.None? ==> saved.id !in old(Live()) && Live() == old(Live())[saved.id := saved]
      ensures err.Some? ==> err.value in {NameTaken, Database} && Live() == old(Live())
      ensures old(Healthy()) && l.id !in old(rows) && NameUnused(old(rows), l.name, l.id) ==> err.None?
      ensures old(Healthy()) && l.id !in old(rows) && NameFits(old(Live()), l) && Trim(l.name) == l.name ==> err.None?
    {
      var outcome: Outcome;
      saved, outcome := Insert(l);
      if outcome.Duplicate? {
        var reclaimed := EnsureUniqueName(l);
        ghost var before := rows;
        saved, outcome := Insert(l);
        if !outcome.Inserted? {
          return l, Some(NameTaken);
        }
        WriteShows(before, saved);
        return saved, None;
      }
      if outcome.Failed? {
        return l, Some(Database);
      }
      WriteShows(old(rows), saved);
      return saved, None;
    }

    /** What is stored for a request: defaults filled in, validated, normalised. */
    function Prepared(request: Listener): Option<Listener>
    {
      var config := autofill(request);
      if config.None? then None else validate(request.(config := config.value))
    }

    lemma PreparedShape(l: Listener)
      requires Lawful() && Prepared(l).Some?
      ensures var v := Prepared(l).value;
              && v.id == l.id && v.port == l.port && v.enabled == l.enabled && v.deleted == l.deleted
              && v.name != "" && Trimmed(v.name) && Read(v.port).Some? && Kept(rules, validate, v, false)
    {
      var filled := l.(config := autofill(l).value);
      assert Preserves(filled, validate(filled).value);
    }

    /** Preparing commutes with moving to another readable port. */
    lemma PreparedElsewhere(l: Listener, port: string)
      requires Lawful() && Prepared(l).Some? && Read(port).Some?
      ensures Prepared(l.(port := port)) == Some(Prepared(l).value.(port := port))
    {
      var filled := l.(config := autofill(l).value);
      assert validate(filled.(port := port)) == Some(validate(filled).value.(port := port));
      assert filled.(port := port) == l.(port := port).(config := autofill(l.(port := port)).value);
    }

    /** A prepared listener stays settled under another key, at another readable port, in another state. */
    lemma SettledElsewhere(prepared: Listener, l: Listener)
      requires LawfulValidator(rules, validate) && Kept(rules, validate, prepared, false)
      requires l == prepared.(id := l.id, port := l.port, enabled := l.enabled)
      requires Read(l.port).Some?
      ensures Kept(rules, validate, l, false)
    {
      assert Preserves(prepared, validate(prepared).value);
      assert SameUpToPlace(prepared, l);
    }

    /** The registry stays valid when a settled listener joins that clashes with nothing. */
    lemma JoiningKeepsValid(live: Rows, l: Listener)
      requires Peace(rules, live) && Normalised(rules, validate, live, touched)
      requires Kept(rules, validate, l, false) && PeaceWith(rules, live, l, l.id)
      ensures Peace(rules, live[l.id := l]) && Normalised(rules, validate, live[l.id := l], touched)
    {
      JoiningKeepsPeace(rules, live, l.id, l);
    }

    /** The free port the retries settle on; there nothing is in the way. */
    method PlaceElsewhere(l: Listener, first: Refusal) returns (placed: Listener, err: Option<Refusal>)
      requires Shape(rows, nextId) && first in {Invalid, NameTaken, EndpointTaken, Database}
      modifies this`rows, this`clock, this`drawn
      ensures old(clock) <= clock && (old(Healthy()) ==> Healthy())
      ensures Shape(rows, nextId) && rows.Keys <= old(rows).Keys && Live() == old(Live())
      ensures placed == l.(port := placed.port)
      ensures err.None? ==> PeaceWith(rules, Live(), placed, l.id) && NameUnused(rows, Trim(l.name), l.id)
      ensures err.None? ==> FreshPort(placed.port, Live())
      ensures err.Some? ==> err.value in {first, Invalid, NameTaken, Database}
      ensures old(Healthy()) && NameFits(old(Live()), l) && err.Some? ==> Unlucky(old(Live()), old(drawn), OwnPort(l))
    {
      ghost var gaveUp;
      placed, err, gaveUp := RetryElsewhere(l, first);
      if err.None? {
        FreshPortClashesWithNothing(rules, Live(), placed);
      }
    }

    /** The check of the requested endpoint. */
    method PlaceHere(l: Listener) returns (err: Option<Refusal>)
      requires Shape(rows, nextId)
      modifies this`rows, this`clock
      ensures old(clock) <= clock && (old(Healthy()) ==> Healthy())
      ensures Shape(rows, nextId) && rows.Keys <= old(rows).Keys && Live() == old(Live())
      ensures err.None? ==> PeaceWith(rules, Live(), l, l.id) && NameUnused(rows, Trim(l.name), l.id)
      ensures err.Some? ==> err.value in {Invalid, NameTaken, EndpointTaken, Database}
      ensures err == Some(EndpointTaken) ==> !PeaceWith(rules, Live(), l, l.id)
      ensures old(Healthy()) && NameFits(old(Live()), l) ==> err in {None, Some(EndpointTaken)}
    {
      err := EnsureEndpointAvailable(l);
    }

    /** The requested endpoint, or the free port the retries settle on. */
    method FindPlace(l: Listener, auto: bool) returns (placed: Listener, err: Option<Refusal>)
      requires Shape(rows, nextId)
      modifies this`rows, this`clock, this`drawn
      ensures old(clock) <= clock && (old(Healthy()) ==> Healthy())
      ensures Shape(rows, nextId) && rows.Keys <= old(rows).Keys && Live() == old(Live())
      ensures placed == l.(port := placed.port)
      ensures err.None? ==> PeaceWith(rules, Live(), placed, l.id) && NameUnused(rows, Trim(l.name), l.id)
      ensures err.None? ==> placed == l || FreshPort(placed.port, Live())
      ensures err.Some? ==> err.value in {Invalid, NameTaken, EndpointTaken, Database}
      ensures err == Some(EndpointTaken) ==> !PeaceWith(rules, Live(), l, l.id)
      ensures old(Healthy()) && NameFits(old(Live()), l) ==>
                && (PeaceWith(rules, old(Live()), l, l.id) ==> err.None? && placed == l)
                && (err.Some? ==> Unlucky(old(Live()), old(drawn), OwnPort(l)))
    {
      placed := l;
      err := PlaceHere(l);
      if err.None? {
        return;
      }
      if auto || err.value == EndpointTaken
         || (err.value == NameTaken && Contains(ToLower(l.name), "conflicts with existing")) {
        placed, err := PlaceElsewhere(l, err.value);
      }
    }

    /** Create, from the endpoint check of the prepared listener to its row. */
    method PlaceAndStore(v: Listener, auto: bool) returns (saved: Listener, err: Option<Refusal>)
      requires Shape(rows, nextId) && !v.deleted && Trim(v.name) == v.name != ""
      modifies this`rows, this`nextId, this`clock, this`drawn
      ensures old(clock) <= clock && (old(Healthy()) ==> Healthy()) && Shape(rows, nextId)
      ensures err.Some? ==> Live() == old(Live())
      ensures err.None? ==> saved == v.(id := saved.id, port := saved.port) && saved.id !in old(Live())
      ensures err.None? ==> Live() == old(Live())[saved.id := saved] && PeaceWith(rules, old(Live()), saved, saved.id)
      ensures err.None? ==> saved.port == v.port || FreshPort(saved.port, old(Live()))
      ensures err == Some(EndpointTaken) ==> !PeaceWith(rules, Live(), v, v.id)
      ensures old(Healthy()) && v.id !in old(rows) && NameUnused(old(Live()), v.name, v.id)
              && PeaceWith(rules, old(Live()), v, v.id)
              ==> err.None? && saved.port == v.port
      ensures old(Healthy()) && v.id !in old(rows) && NameUnused(old(Live()), v.name, v.id) && err.Some?
              ==> Unlucky(old(Live()), old(drawn), OwnPort(v))
    {
      ghost var live := Live();
      var placed;
      placed, err := FindPlace(v, auto);
      if err.Some? {
        return v, err;
      }
      saved, err := StoreNew(placed);
      if err.Some? {
        return v, err;
      }
      SameEndpointSamePeace(rules, live, placed, v.id, saved, saved.id);
    }

    /** Storing a settled listener that way keeps the registry valid. */
    method Admit(v: Listener, auto: bool) returns (saved: Listener, err: Option<Refusal>)
      requires Valid() && !v.deleted && Kept(rules, validate, v, false) && Read(v.port).Some?
      modifies this`rows, this`nextId, this`clock, this`drawn
      ensures old(clock) <= clock && (old(Healthy()) ==> Healthy()) && Valid()
      ensures err.Some? ==> Live() == old(Live())
      ensures err.None? ==> saved == v.(id := saved.id, port := saved.port) && saved.id !in old(Live())
      ensures err.None? ==> Live() == old(Live())[saved.id := saved] && Read(saved.port).Some?
      ensures err.None? ==> saved.port == v.port || FreshPort(saved.port, old(Live()))
      ensures err == Some(EndpointTaken) ==> !PeaceWith(rules, Live(), v, v.id)
      ensures old(Healthy()) && v.id !in old(rows) && NameUnused(old(Live()), v.name, v.id)
              && PeaceWith(rules, old(Live()), v, v.id)
              ==> err.None? && saved.port == v.port
      ensures old(Healthy()) && v.id !in old(rows) && NameUnused(old(Live()), v.name, v.id) && err.Some?
              ==> Unlucky(old(Live()), old(drawn), OwnPort(v))
    {
      assert Preserves(v, validate(v).value);
      ghost var live := Live();
      saved, err := PlaceAndStore(v, auto);
      if err.None? {
        if saved.port != v.port {
          FreshPortClashesWithNothing(rules, live, saved);
        }
        SettledElsewhere(v, saved);
        JoiningKeepsValid(live, saved);
      }
    }

    /** Create, from the prepared listener on. */
    method CreatePrepared(v: Listener, auto: bool) returns (saved: Listener, err: Option<Refusal>)
      requires Valid() && !v.deleted && Kept(rules, validate, v, false) && Read(v.port).Some?
      modifies this`rows, this`history, this`nextId, this`clock, this`drawn, this`schedules
      ensures Valid() && Extends(old(history), history)
      ensures err.Some? ==> Live() == old(Live()) && history == old(history)
      ensures err.None? ==> saved == v.(id := saved.id, port := saved.port) && saved.id !in old(Live())
      ensures err.None? ==> Live() == old(Live())[saved.id := saved] && Read(saved.port).Some?
      ensures err.None? ==> saved.port == v.port || FreshPort(saved.port, old(Live()))
      ensures err == Some(EndpointTaken) ==> !PeaceWith(rules, Live(), v, v.id)
      ensures old(Healthy()) && err.None? ==> history == Recorded(old(history), saved, "create")
      ensures old(Healthy()) && v.id !in old(rows) && NameUnused(old(Live()), v.name, v.id)
              && PeaceWith(rules, old(Live()), v, v.id)
              ==> err.None? && saved.port == v.port
      ensures old(Healthy()) && v.id !in old(rows) && NameUnused(old(Live()), v.name, v.id) && err.Some?
              ==> Unlucky(old(Live()), old(drawn), OwnPort(v))
      ensures schedules == old(schedules) + if err.None? then 1 else 0
    {
      saved, err := Admit(v, auto);
      if err.None? {
        var recorded := SaveVersion(saved.id, "create");
        schedules := schedules + 1;
      }
    }

    /** A request that is valid at some port of its choice, or at an automatic one, and has a name of its own. */
    ghost predicate Creatable(live: Rows, request: Listener) {
      var v := Prepared(if Auto(request.port) then request.(port := Decimal(MIN_PORT)) else request);
      v.Some? && NameUnused(live, v.value.name, request.id)
    }

    lemma AutomaticHasNoOwnPort(l: Listener)
      requires Auto(l.port)
      ensures OwnPort(l) == []
    {
      if Trim(l.port) == "0" {
        AtoiOfDecimal(0);
        assert Decimal(0) == "0";
      }
    }

    /** Such a request is prepared at whatever port it gets. */
    lemma CreatableIsPrepared(live: Rows, request: Listener, l: Listener)
      requires Lawful() && Creatable(live, request)
      requires if Auto(request.port) then l == request.(port := l.port) && FreshPort(l.port, live) else l == request
      ensures Prepared(l).Some? && NameUnused(live, Prepared(l).value.name, request.id)
    {
      if Auto(request.port) {
        FreshPortClashesWithNothing(rules, live, l);
        PreparedElsewhere(request.(port := Decimal(MIN_PORT)), l.port);
        assert l == request.(port := Decimal(MIN_PORT)).(port := l.port);
      }
    }

    /** Create at the requested port, or at the free one chosen for it. */
    method CreateAt(l: Listener, auto: bool) returns (saved: Listener, err: Option<Refusal>)
      requires Valid() && !l.deleted && (auto ==> FreshPort(l.port, Live()))
      modifies this`rows, this`history, this`nextId, this`clock, this`drawn, this`schedules
      ensures Valid() && Extends(old(history), history)
      ensures err.Some? ==> Live() == old(Live()) && history == old(history)
      ensures err.None? ==> saved.id !in old(Live()) && Live() == old(Live())[saved.id := saved]
      ensures err.None? ==> Prepared(l.(port := saved.port)) == Some(saved.(id := l.id))
      ensures err.None? ==> saved.port == l.port || FreshPort(saved.port, old(Live()))
      ensures auto ==> err != Some(EndpointTaken)
      ensures old(Healthy()) && err.None? ==> history == Recorded(old(history), saved, "create")
      ensures var v := Prepared(l);
              old(Healthy()) && v.Some? && l.id !in old(rows) && NameUnused(old(Live()), v.value.name, l.id) ==>
                && (auto || PeaceWith(rules, old(Live()), v.value, l.id) ==> err.None? && saved.port == l.port)
                && (err.Some? ==> Unlucky(old(Live()), old(drawn), OwnPort(l)))
      ensures schedules == old(schedules) + if err.None? then 1 else 0
    {
      var prepared := Prepared(l);
      if prepared.None? {
        return l, Some(Invalid);
      }
      PreparedShape(l);
      if auto {
        FreshPortClashesWithNothing(rules, Live(), prepared.value);
      }
      saved, err := CreatePrepared(prepared.value, auto);
      if err.None? {
        PreparedElsewhere(l, saved.port);
      }
    }

    /** Create; with a working database and luck in the draws it only fails for want of a valid request or a name. */
    method Create(request: Listener) returns (saved: Listener, err: Option<Refusal>)
      requires Valid() && !request.deleted
      modifies this`rows, this`history, this`nextId, this`clock, this`drawn, this`schedules
      ensures Valid() && Extends(old(history), history)
      ensures err.Some? ==> Live() == old(Live()) && history == old(history)
      ensures err.None? ==> saved.id !in old(Live()) && Live() == old(Live())[saved.id := saved]
      ensures err.None? ==>
                var config := autofill(request.(port := saved.port));
                config.Some? && validate(request.(port := saved.port, config := config.value)) == Some(saved.(id := request.id))
      ensures err.None? ==> (saved.port == request.port && !Auto(request.port)) || FreshPort(saved.port, old(Live()))
      ensures Auto(request.port) ==> err != Some(EndpointTaken)
      ensures old(Healthy()) && err.None? ==> history == Recorded(old(history), saved, "create")
      ensures var v := Prepared(request);
              old(Healthy()) && !Auto(request.port) && v.Some? && request.id !in old(rows)
              && NameUnused(old(Live()), v.value.name, request.id) && PeaceWith(rules, old(Live()), v.value, request.id)
              ==> err.None? && saved.port == request.port
      ensures Creatable(old(Live()), request) && request.id !in old(rows) && old(Healthy()) && err.Some?
              ==> Unlucky(old(Live()), old(drawn), OwnPort(request))
      ensures schedules == old(schedules) + if err.None? then 1 else 0
    {
      var l := request;
      if Auto(request.port) {
        AutomaticHasNoOwnPort(request);
        var port := AllocateFreePort([]);
        if port.None? {
          return request, Some(NoFreePort);
        }
        l := request.(port := Decimal(port.value));
        assert FreshPort(l.port, Live());
      }
      if Creatable(Live(), request) {
        CreatableIsPrepared(Live(), request, l);
      }
      saved, err := CreateAt(l, Auto(request.port));
      assert request.(port := saved.port) == l.(port := saved.port);
    }

    // -------------------------------------------------------------- changing one listener

    /** db.Save of a live row; UNIQUE(name) is respected by the caller. */
    method Save(l: Listener) returns (ok: bool)
      requires Shape(rows, nextId) && l.id in Live() && !l.deleted && NameUnused(rows, l.name, l.id)
      modifies this`rows, this`clock
      ensures old(clock) <= clock && (old(Healthy()) ==> ok && Healthy())
      ensures Shape(rows, nextId)
      ensures Live() == if ok then old(Live())[l.id := l] else old(Live())
    {
      ok := Statement();
      if ok {
        WriteKeepsShape(rows, nextId, l, nextId);
        WriteShows(rows, l);
        rows := rows[l.id := l];
      }
    }

    /** Check, record and write over the live row: the common end of Update and RollbackVersion. */
    method Overwrite(l: Listener, reason: string) returns (err: Option<Refusal>)
      requires Shape(rows, nextId) && Dense(history) && !l.deleted && Trim(l.name) == l.name != ""
      modifies this`rows, this`history, this`clock
      ensures Shape(rows, nextId) && Dense(history) && Extends(old(history), history)
      ensures err.Some? ==> Live() == old(Live())
      ensures err.None? ==> l.id in old(Live()) && Live() == old(Live())[l.id := l]
      ensures err.None? ==> history == Recorded(old(history), old(Live())[l.id], reason)
      ensures err.None? ==> NameUnused(old(Live()), l.name, l.id) && PeaceWith(rules, old(Live()), l, l.id)
      ensures err.Some? ==> err.value in {EndpointTaken, NameTaken, NotFound, Database}
      ensures err == Some(EndpointTaken) ==> !PeaceWith(rules, old(Live()), l, l.id)
      ensures err == Some(NameTaken) ==> !NameUnused(old(Live()), l.name, l.id)
      ensures err == Some(NotFound) ==> l.id !in old(Live())
      ensures old(Healthy()) ==> Healthy() && err != Some(Database)
    {
      err := EnsureEndpointAvailable(l);
      if err.Some? {
        return;
      }
      var recorded := SaveVersion(l.id, reason);
      if !recorded {
        return Some(if l.id in Live() then Database else NotFound);
      }
      var saved := Save(l);
      return if saved then None else Some(Database);
    }

    /** The reason of a refusal is real. */
    ghost predicate Justified(err: Option<Refusal>, live: Rows, l: Option<Listener>, id: nat) {
      match err
      case Some(Invalid) => l.None?
      case Some(NotFound) => id !in live
      case Some(NameTaken) => l.Some? && !NameUnused(live, l.value.name, id)
      case Some(EndpointTaken) => l.Some? && !PeaceWith(rules, live, l.value, id)
      case Some(Database) => true
      case _ => err.None?
    }

    /** Overwriting with a settled listener keeps the registry valid. */
    method Replace(l: Listener, reason: string) returns (err: Option<Refusal>)
      requires Valid() && !l.deleted && Kept(rules, validate, l, false)
      modifies this`rows, this`history, this`clock, this`schedules
      ensures Valid() && Extends(old(history), history)
      ensures err.Some? ==> Live() == old(Live())
      ensures err.None? ==> l.id in old(Live()) && Live() == old(Live())[l.id := l]
      ensures err.None? ==> history == Recorded(old(history), old(Live())[l.id], reason)
      ensures old(Healthy()) ==> Healthy()
      ensures old(Healthy()) ==>
                (err.None? <==> l.id in old(Live()) && NameUnused(old(Live()), l.name, l.id)
                                && PeaceWith(rules, old(Live()), l, l.id))
      ensures Justified(err, old(Live()), Some(l), l.id)
      ensures schedules == old(schedules) + if err.None? then 1 else 0
    {
      assert Preserves(l, validate(l).value);
      ghost var live := Live();
      err := Overwrite(l, reason);
      if err.None? {
        JoiningKeepsValid(live, l);
        schedules := schedules + 1;
      }
    }

    /** Update. */
    method Update(request: Listener) returns (err: Option<Refusal>)
      requires Valid() && !request.deleted
      modifies this`rows, this`history, this`clock, this`schedules
      ensures Valid() && Extends(old(history), history)
      ensures err.Some? ==> Live() == old(Live())
      ensures err.None? ==> Prepared(request).Some? && request.id in old(Live())
      ensures err.None? ==> Live() == old(Live())[request.id := Prepared(request).value]
      ensures err.None? ==> autofill(request).Some?
                            && Some(Live()[request.id]) == validate(request.(config := autofill(request).value))
      ensures err.None? ==> history == Recorded(old(history), old(Live())[request.id], "before-update")
      ensures var v := Prepared(request);
              old(Healthy()) ==>
                (err.None? <==> v.Some? && request.id in old(Live()) && NameUnused(old(Live()), v.value.name, request.id)
                                && PeaceWith(rules, old(Live()), v.value, request.id))
      ensures Justified(err, old(Live()), Prepared(request), request.id)
      ensures schedules == old(schedules) + if err.None? then 1 else 0
    {
      var prepared := Prepared(request);
      if prepared.None? {
        return Some(Invalid);
      }
      PreparedShape(request);
      var loaded := Statement();
      if !loaded {
        return Some(Database);
      }
      if request.id !in Live() {
        return Some(NotFound);
      }
      err := Replace(prepared.value, "before-update");
    }

    /** RollbackVersion. */
    method RollbackVersion(id: nat, number: int) returns (err: Option<Refusal>)
      requires Valid()
      modifies this`rows, this`history, this`clock, this`schedules
      ensures Valid()
      ensures Extends(old(history), history) && (old(Healthy()) ==> Healthy())
      ensures err.Some? ==> Live() == old(Live())
      ensures err.None? ==> id in old(Live()) && Restored(validate, old(history), id, number).Some?
      ensures err.None? ==> Live() == old(Live())[id := Restored(validate, old(history), id, number).value]
      ensures err.None? ==> history == Recorded(old(history), old(Live())[id], "before-rollback")
      ensures Restored(validate, old(history), id, number).None? ==> err.Some? && history == old(history)
      ensures err.None? ==> id in old(history) && exists k | 0 <= k < |old(history)[id]| :: old(history)[id][k].number == number
      ensures err.None? ==> forall k | 0 <= k < |old(history)[id]| && old(history)[id][k].number == number ::
                Some(Live()[id]) == validate(old(history)[id][k].snapshot.(id := id, deleted := false))
      ensures var v := Restored(validate, old(history), id, number);
              old(Healthy()) ==>
                (err.None? <==> v.Some? && id in old(Live()) && NameUnused(old(Live()), v.value.name, id)
                                && PeaceWith(rules, old(Live()), v.value, id))
      ensures err != Some(NotFound) ==> Justified(err, old(Live()), Restored(validate, old(history), id, number), id)
      ensures err == Some(NotFound) ==> id !in old(Live()) || FindVersion(old(history), id, number).None?
      ensures schedules == old(schedules) + if err.None? then 1 else 0
    {
      RestoredByNumber(validate, history, id, number);
      var loaded := Statement();
      if !loaded {
        return Some(Database);
      }
      var version := FindVersion(history, id, number);
      if version.None? {
        return Some(NotFound);
      }
      var target := version.value.snapshot.(id := id, deleted := false);
      var validated := validate(target);
      if validated.None? {
        return Some(Invalid);
      }
      assert Preserves(target, validated.value);
      err := Replace(validated.value, "before-rollback");
    }

    /**
     A row recorded at some point is what a rollback to the number it got then restores, whatever has been recorded
     since: it succeeds exactly when the row still validates and fits, and leaves the row as validation sees it now.
     */
    method RestoreRecorded(row: Listener, reason: string, ghost earlier: History, number: nat) returns (err: Option<Refusal>)
      requires Valid() && !row.deleted && Extends(Recorded(earlier, row, reason), history)
      requires number == (if row.id in earlier then |earlier[row.id]| else 0) + 1
      modifies this`rows, this`history, this`clock, this`schedules
      ensures Valid() && Extends(old(history), history)
      ensures err.Some? ==> Live() == old(Live())
      ensures err.None? ==> validate(row).Some? && Live() == old(Live())[row.id := validate(row).value]
      ensures old(Healthy()) ==>
                (err.None? <==> validate(row).Some? && row.id in old(Live())
                                && NameUnused(old(Live()), validate(row).value.name, row.id)
                                && PeaceWith(rules, old(Live()), validate(row).value, row.id))
    {
      RecordedVersionStays(validate, earlier, row, reason, history);
      err := RollbackVersion(row.id, number);
    }

    /** The second half of it: `live` was the table before the rollback. */
    method Undo(id: nat, ghost live: Rows) returns (err: Option<Refusal>)
      requires Valid() && Healthy()
      requires id in live && live[id].id == id && id in Live() && Live() == live[id := Live()[id]]
      requires Peace(rules, live) && Normalised(rules, validate, live, touched) && NamesDiffer(live)
      requires Restored(validate, history, id, |VersionsOf(history, id)|) == validate(live[id])
      modifies this`rows, this`history, this`clock, this`schedules
      ensures Valid() && (err.None? <==> validate(live[id]).Some?)
      ensures Live() == if err.None? then live[id := validate(live[id]).value] else old(Live())
      ensures |VersionsOf(history, id)| == |VersionsOf(old(history), id)| + if err.None? then 1 else 0
    {
      if validate(live[id]).Some? {
        UndoIsPossible(live, Live()[id], live[id]);
        WritingTwice(live, id, Live()[id], validate(live[id]).value);
      }
      err := RollbackVersion(id, |VersionsOf(history, id)|);
    }

    /**
     Rolling a rollback back. The row that was recorded comes back as validation sees it now, so this
     succeeds exactly when that row still validates, and restores the table exactly when it validates to
     itself. A row is refused only when something has been written to its configuration behind the registry;
     any other row comes back up to one more normalisation of its public host.
     */
    method RollbackAndUndo(id: nat, number: int) returns (err: Option<Refusal>, undo: Option<Refusal>)
      requires Valid() && Healthy()
      modifies this`rows, this`history, this`clock, this`schedules
      ensures Valid()
      ensures err.Some? ==> Live() == old(Live())
      ensures err.None? ==> id in old(Live()) && Restored(validate, old(history), id, number).Some?
      ensures err.None? ==> (undo.None? <==> validate(old(Live())[id]).Some?)
      ensures err.None? ==> Live() == old(Live())[id := if undo.None? then validate(old(Live())[id]).value
                                                        else Restored(validate, old(history), id, number).value]
      ensures err.None? && undo.None? ==> (Live() == old(Live()) <==> validate(old(Live())[id]) == Some(old(Live())[id]))
      ensures err.None? ==> |VersionsOf(history, id)| == |VersionsOf(old(history), id)| + if undo.None? then 2 else 1
      ensures err.None? && id !in touched ==>
                var row := old(Live())[id];
                && undo.None? && Live() == old(Live())[id := row.(publicHost := CanonicalHost(row.publicHost))]
                && (Live() == old(Live()) <==> CanonicalHost(row.publicHost) == row.publicHost)
    {
      ghost var live, before, table, next := Live(), history, rows, nextId;
      undo := None;
      err := RollbackVersion(id, number);
      if err.None? {
        LiveNamesDiffer(table, next);
        LastVersionRestores(validate, before, live[id], "before-rollback");
        undo := Undo(id, live);
        UntouchedIsStable(live, id);
        if undo.None? {
          WritingTwice(live, id, live[id], validate(live[id]).value);
        }
      }
    }

    lemma UntouchedIsStable(live: Rows, id: nat)
      requires Normalised(rules, validate, live, touched) && id in live
      ensures id !in touched ==> StableBut(validate, live[id])
    {
      assert Kept(rules, validate, live[id], id in touched);
    }

    /** Why: the recorded row was at peace with the others, which have not changed, and validation keeps its place. */
    lemma UndoIsPossible(live: Rows, changed: Listener, row: Listener)
      requires Peace(rules, live) && Normalised(rules, validate, live, touched) && row.id in live && live[row.id] == row
      requires NamesDiffer(live) && validate(row).Some?
      ensures var middle, back := live[row.id := changed], validate(row).value;
              NameUnused(middle, back.name, row.id) && PeaceWith(rules, middle, back, row.id)
    {
      assert Kept(rules, validate, live[row.id], row.id in touched) && SameButConfig(row, row);
      SameEndpointSamePeace(rules, live, row, row.id, validate(row).value, row.id);
    }

    // -------------------------------------------------------------- configurations written behind the mutators

    /** UPDATE of the configuration of one live row. */
    method WriteConfig(id: nat, config: string) returns (ok: bool)
      requires Shape(rows, nextId) && id in Live()
      modifies this`rows, this`clock
      ensures clock == old(clock) + 1 && (old(Healthy()) ==> Healthy() && ok) && Shape(rows, nextId)
      ensures Live() == if ok then old(Live())[id := old(Live())[id].(config := config)] else old(Live())
    {
      ok := Statement();
      if ok {
        var l := rows[id].(config := config);
        WriteKeepsShape(rows, nextId, l, nextId);
        WriteShows(rows, l);
        rows := rows[id := l];
      }
    }

    /**
     One pass over the rows of a snapshot: write what becomes of the configuration of each. The generator and
     the start-up hydration ignore a failing write and go on; the credential provider stops at it, and at a
     listener it cannot prepare. `written` are the rows the pass has dealt with.
     */
    method RewriteConfigs(snapshot: Rows, refuses: Listener -> bool, rewrite: Listener -> Option<string>, strict: bool)
      returns (err: Option<Refusal>, ghost written: set<nat>)
      requires Shape(rows, nextId) && snapshot.Keys <= Live().Keys
      modifies this`rows, this`clock
      ensures old(clock) <= clock && (old(Healthy()) ==> Healthy()) && Shape(rows, nextId)
      ensures written <= snapshot.Keys && Live() == Rewritten(old(Live()), Only(snapshot, written), rewrite)
      ensures err in {None, Some(Invalid), Some(Database)} && (!strict ==> err.None?)
      ensures err.None? && (strict || old(Healthy())) ==> written == snapshot.Keys
      ensures old(Healthy()) && strict ==> (err.None? <==> forall id | id in snapshot :: !refuses(snapshot[id]))
    {
      var todo := snapshot.Keys;
      written := {};
      RewritingNothing(Live(), snapshot, rewrite);
      while todo != {}
        invariant todo <= snapshot.Keys && written <= snapshot.Keys && written !! todo
        invariant old(clock) <= clock && (old(Healthy()) ==> Healthy()) && Shape(rows, nextId)
        invariant Live() == Rewritten(old(Live()), Only(snapshot, written), rewrite)
        invariant strict || old(Healthy()) ==> written + todo == snapshot.Keys
        invariant strict ==> forall id | id in snapshot && id !in todo :: !refuses(snapshot[id])
        decreases todo
      {
        var id :| id in todo;
        if strict && refuses(snapshot[id]) {
          return Some(Invalid), written;
        }
        MovingOver(snapshot.Keys, written, todo, id);
        todo := todo - {id};
        var wrote := RewriteNext(old(Live()), snapshot, rewrite, written, id);
        if wrote {
          written := written + {id};
        } else if strict {
          return Some(Database), written;
        }
      }
      return None, written;
    }

    /** The loop body: the row as it was loaded decides what is written. */
    method RewriteNext(ghost before: Rows, snapshot: Rows, rewrite: Listener -> Option<string>, ghost written: set<nat>, id: nat)
      returns (wrote: bool)
      requires Shape(rows, nextId) && id in before && id in snapshot && id !in written
      requires Live() == Rewritten(before, Only(snapshot, written), rewrite)
      modifies this`rows, this`clock
      ensures old(clock) <= clock && (old(Healthy()) ==> Healthy() && wrote) && Shape(rows, nextId)
      ensures Live() == Rewritten(before, Only(snapshot, if wrote then written + {id} else written), rewrite)
    {
      RewritingOneMore(before, snapshot, rewrite, written, id);
      wrote := true;
      if rewrite(snapshot[id]).Some? {
        wrote := WriteConfig(id, rewrite(snapshot[id]).value);
      }
    }

    /** The rows the credential provider writes to. */
    function Unowned(): Rows
      reads this`rows, this`bindings
    {
      Ownerless(Live(), bindings)
    }

    /** activeCredentialsByListener, as far as it writes: credentials for enabled listeners without users. */
    method ProvideCredentials(refuses: Listener -> bool, refill: Listener -> Option<string>)
      returns (err: Option<Refusal>, ghost filled: set<nat>)
      requires Shape(rows, nextId)
      modifies this`rows, this`clock
      ensures old(clock) <= clock && (old(Healthy()) ==> Healthy()) && Shape(rows, nextId)
      ensures filled <= old(Unowned()).Keys && Live() == Rewritten(old(Live()), Only(old(Unowned()), filled), refill)
      ensures err in {None, Some(Invalid), Some(Database)}
      ensures err.None? ==> filled == old(Unowned()).Keys
      ensures old(Healthy()) ==> (err.None? <==> forall id | id in old(Unowned()) :: !refuses(old(Unowned())[id]))
    {
      filled := {};
      RewritingNothing(Live(), Unowned(), refill);
      var listeners := Statement();
      var bound := Statement();
      var users := true;
      if bindings != {} {
        users := Statement();
      }
      if !(listeners && bound && users) {
        return Some(Database), filled;
      }
      err, filled := RewriteConfigs(Unowned(), refuses, refill, true);
      if err.None? {
        var again := Statement(); // the caller reads the bindings once more
        err := if again then None else Some(Database);
      }
    }

    /** What a generation has written: credentials first, then what the generator makes of the rows it had loaded before. */
    ghost predicate GeneratedFrom(live: Rows, unowned: Rows, refill: Listener -> Option<string>, filled: set<nat>,
                                  rewrite: Listener -> Option<string>, written: set<nat>)
      reads this`rows
    {
      && filled <= unowned.Keys && written <= Enabled(live).Keys
      && Live() == Rewritten(Rewritten(live, Only(unowned, filled), refill), Only(Enabled(live), written), rewrite)
    }

    /**
     Row by row: a disabled listener is never touched, one with users gets at most what the generator makes of it,
     and after a complete generation every enabled listener has what the generator makes of the row as it was or,
     if that is nothing, what the credential provider makes of it when nobody is bound to it.
     */
    lemma GeneratedRow(live: Rows, bound: set<(nat, nat)>, refill: Listener -> Option<string>, filled: set<nat>,
                       rewrite: Listener -> Option<string>, written: set<nat>, id: nat)
      requires GeneratedFrom(live, Ownerless(live, bound), refill, filled, rewrite, written) && id in live
      ensures id in Live()
      ensures !live[id].enabled ==> Live()[id] == live[id]
      ensures (exists u :: (id, u) in bound) ==>
                Live()[id] == live[id]
                || (rewrite(live[id]).Some? && Live()[id] == live[id].(config := rewrite(live[id]).value))
      ensures live[id].enabled && filled == Ownerless(live, bound).Keys && written == Enabled(live).Keys ==>
                Live()[id] == live[id].(config :=
                  if rewrite(live[id]).Some? then rewrite(live[id]).value
                  else if refill(live[id]).Some? && !(exists u :: (id, u) in bound) then refill(live[id]).value
                  else live[id].config)
    {
      assert forall b | b in bound :: b == (b.0, b.1);
      if u :| (id, u) in bound {
        assert (id, u).0 == id;
      }
    }

    /**
     GenerateFinalConfig up to the compilation of the listeners: its endpoint check, the credential provider
     and the generator's rewrite of stored configurations. A table at peace can fail the check, and then
     nothing is generated at all.
     */
    method Generate(template: bool, refuses: Listener -> bool, refill: Listener -> Option<string>,
                    rewrite: Listener -> Option<string>)
      returns (err: Option<Refusal>, ghost filled: set<nat>, ghost written: set<nat>)
      requires Valid()
      modifies this`rows, this`clock, this`touched
      ensures Valid() && touched == old(touched) + Changed(old(Live()), Live())
      ensures forall id | id in touched && id !in old(touched) :: id in old(Live()) && id in Live() && Live()[id] != old(Live())[id]
      ensures OnlyConfigs(old(Live()), Live(), Enabled(old(Live())).Keys)
      ensures GeneratedFrom(old(Live()), old(Unowned()), refill, filled, rewrite, written)
      ensures GenerationEnds(err, filled, written, template, old(Healthy()), NoCollision(rules, Enabled(old(Live()))),
                             Enabled(old(Live())), old(Unowned()), refuses)
    {
      ghost var live := Live();
      var startable := CheckEndpoints();
      err, filled, written := RunGeneration(template, startable, refuses, refill, rewrite);
      Touch(live, Enabled(live).Keys);
    }

    /** Note which rows a writer of configurations has changed; what the registry relies on still holds. */
    ghost method Touch(live: Rows, ids: set<nat>)
      requires Lawful() && Shape(rows, nextId) && Dense(history)
      requires Peace(rules, live) && Normalised(rules, validate, live, touched) && OnlyConfigs(live, Live(), ids)
      modifies this`touched
      ensures Valid() && touched == old(touched) + Changed(live, Live())
    {
      RewritingKeepsRows(rules, validate, live, Live(), touched, ids);
      touched := touched + Changed(live, Live());
    }

    /** How a generation ends: when its endpoint check stops it, and how far it gets on a working database. */
    ghost predicate GenerationEnds(err: Option<Refusal>, filled: set<nat>, written: set<nat>, template: bool, healthy: bool,
                                   startable: bool, enabled: Rows, unowned: Rows, refuses: Listener -> bool)
    {
      && CheckDecides(err, template, healthy, startable)
      && (err == Some(EndpointTaken) ==> filled == {} && written == {})
      && (healthy && template && startable ==> (err.None? <==> forall id | id in unowned :: !refuses(unowned[id])))
      && (healthy && err.None? ==> filled == unowned.Keys && written == enabled.Keys)
    }

    predicate CheckDecides(err: Option<Refusal>, template: bool, healthy: bool, startable: bool) {
      if startable then err != Some(EndpointTaken)
      else if healthy && template then err == Some(EndpointTaken)
      else err.Some?
    }

    /** The generation in its order; whether the endpoint check passes is known from the rows. */
    method RunGeneration(template: bool, startable: bool, refuses: Listener -> bool, refill: Listener -> Option<string>,
                         rewrite: Listener -> Option<string>)
      returns (err: Option<Refusal>, ghost filled: set<nat>, ghost written: set<nat>)
      requires Shape(rows, nextId)
      modifies this`rows, this`clock
      ensures Shape(rows, nextId) && OnlyConfigs(old(Live()), Live(), Enabled(old(Live())).Keys)
      ensures GeneratedFrom(old(Live()), old(Unowned()), refill, filled, rewrite, written)
      ensures GenerationEnds(err, filled, written, template, old(Healthy()), startable,
                             Enabled(old(Live())), old(Unowned()), refuses)
    {
      filled, written := {}, {};
      err := Preamble(template, startable);
      if err.None? {
        err, filled, written := WriteGenerated(Enabled(Live()), refuses, refill, rewrite);
      } else {
        NothingGenerated(Unowned(), refill, rewrite);
      }
    }

    lemma NothingGenerated(unowned: Rows, refill: Listener -> Option<string>, rewrite: Listener -> Option<string>)
      ensures GeneratedFrom(Live(), unowned, refill, {}, rewrite, {})
      ensures OnlyConfigs(Live(), Live(), Enabled(Live()).Keys)
    {
      RewritingNothing(Live(), unowned, refill);
      RewritingNothing(Live(), Enabled(Live()), rewrite);
    }

    /** The part of a generation that only reads. */
    method Preamble(template: bool, startable: bool) returns (err: Option<Refusal>)
      modifies this`clock
      ensures old(clock) <= clock && (old(Healthy()) ==> Healthy())
      ensures CheckDecides(err, template, old(Healthy()), startable)
      ensures old(Healthy()) && template && startable ==> err.None?
    {
      var fragments := Statement();
      if !fragments {
        return Some(Database);
      }
      if !template {
        return Some(Invalid);
      }
      var loaded := Statement();
      if !loaded {
        return Some(Database);
      }
      return if startable then None else Some(EndpointTaken);
    }

    /** It never stops one when registry and generator read all addresses alike. */
    lemma StraightStart(live: Rows)
      requires Peace(rules, live)
      ensures (forall id | id in Enabled(live) :: Straight(rules, live[id])) ==> NoCollision(rules, Enabled(live))
    {
      if forall id | id in Enabled(live) :: Straight(rules, live[id]) {
        forall id | id in Enabled(live) ensures PeaceWith(rules, Enabled(live), Enabled(live)[id], id) {
          assert PeaceWith(rules, live, live[id], id);
        }
        PeacefulStraightStart(rules, Enabled(live));
      }
    }

    /** The part that writes. */
    method WriteGenerated(snapshot: Rows, refuses: Listener -> bool, refill: Listener -> Option<string>,
                          rewrite: Listener -> Option<string>)
      returns (err: Option<Refusal>, ghost filled: set<nat>, ghost written: set<nat>)
      requires Shape(rows, nextId) && snapshot == Enabled(Live())
      modifies this`rows, this`clock
      ensures Shape(rows, nextId) && OnlyConfigs(old(Live()), Live(), snapshot.Keys)
      ensures GeneratedFrom(old(Live()), old(Unowned()), refill, filled, rewrite, written)
      ensures err in {None, Some(Invalid), Some(Database)}
      ensures old(Healthy()) ==> (err.None? <==> forall id | id in old(Unowned()) :: !refuses(old(Unowned())[id]))
      ensures old(Healthy()) && err.None? ==> filled == old(Unowned()).Keys && written == snapshot.Keys
    {
      ghost var live, unowned := Live(), Unowned();
      err, filled := ProvideCredentials(refuses, refill);
      ghost var middle := Live();
      written := {};
      RewritingNothing(middle, snapshot, rewrite);
      if err.None? {
        var skipped;
        skipped, written := RewriteConfigs(snapshot, refuses, rewrite, false);
      }
      RewritingIsOnlyConfigs(live, Only(unowned, filled), refill);
      RewritingIsOnlyConfigs(middle, Only(snapshot, written), rewrite);
      OnlyConfigsTwice(live, middle, Live(), snapshot.Keys);
    }

    /** validateListenerEndpoints on the enabled rows. */
    method CheckEndpoints() returns (startable: bool)
      requires Valid()
      ensures startable <==> NoCollision(rules, Enabled(Live()))
    {
      var list := Select(Enabled(Live()).Keys);
      EnabledAreListed(list);
      startable := ValidateListenerEndpoints(rules, list);
    }

    lemma EnabledAreListed(list: seq<Listener>)
      requires Valid() && DistinctKeys(list) && |list| == |Enabled(Live()).Keys|
      requires forall l | l in list :: l.id in Enabled(Live()).Keys && Live()[l.id] == l
      ensures Startable(rules, list) <==> NoCollision(rules, Enabled(Live()))
    {
      LiveNamesDiffer(rows, nextId);
      CountKeys(list);
      SubsetIsSmaller(Keys(list), Enabled(Live()).Keys);
      forall id | id in Enabled(Live()) ensures Enabled(Live())[id] in list && Enabled(Live())[id].id == id {
        assert id in Keys(list);
      }
      StartableIff(rules, validate, Enabled(Live()), touched, list);
    }

    /** HydrateListenersFromDisk and HydrateFromMihomoYAML: one pass each over all live rows at start-up. */
    method Hydrate(restore: Listener -> Option<string>) returns (ghost written: set<nat>)
      requires Valid()
      modifies this`rows, this`clock, this`touched
      ensures Valid() && touched == old(touched) + Changed(old(Live()), Live())
      ensures forall id | id in touched && id !in old(touched) :: id in old(Live()) && id in Live() && Live()[id] != old(Live())[id]
      ensures written <= old(Live()).Keys && Live() == Rewritten(old(Live()), Only(old(Live()), written), restore)
      ensures old(Healthy()) ==> written == old(Live()).Keys
    {
      ghost var live := Live();
      written := RestoreConfigs(restore);
      RewritingIsOnlyConfigs(live, Only(live, written), restore);
      Touch(live, live.Keys);
    }

    method RestoreConfigs(restore: Listener -> Option<string>) returns (ghost written: set<nat>)
      requires Shape(rows, nextId)
      modifies this`rows, this`clock
      ensures Shape(rows, nextId)
      ensures written <= old(Live()).Keys && Live() == Rewritten(old(Live()), Only(old(Live()), written), restore)
      ensures old(Healthy()) ==> written == old(Live()).Keys
    {
      written := {};
      RewritingNothing(Live(), Live(), restore);
      var loaded := Statement();
      if loaded {
        var skipped;
        skipped, written := RewriteConfigs(Live(), _ => false, restore, false);
      }
    }

    // -------------------------------------------------------------- deleting a listener

    /** UPDATE of one live row, refused by UNIQUE(name). */
    method Write(l: Listener) returns (ok: bool)
      requires Shape(rows, nextId) && l.id in Live()
      modifies this`rows, this`clock
      ensures clock == old(clock) + 1 && (old(Healthy()) ==> Healthy()) && Shape(rows, nextId)
      ensures rows == if ok then old(rows)[l.id := l] else old(rows)
      ensures Live() == if !ok then old(Live()) else if l.deleted then old(Live()) - {l.id} else old(Live())[l.id := l]
      ensures ok <==> works(old(clock)) && NameUnused(old(rows), l.name, l.id)
    {
      ok := Statement();
      if exists id | id in rows && id != l.id :: rows[id].name == l.name {
        ok := false;
      }
      if ok {
        WriteKeepsShape(rows, nextId, l, nextId);
        WriteShows(rows, l);
        rows := rows[l.id := l];
      }
    }

    /** The attempt to give a listener its name back when its deletion failed half-way. */
    method RestoreName(row: Listener, ghost live: Rows)
      requires Shape(rows, nextId) && row.id in live && live[row.id] == row && !row.deleted
      requires Live() == live[row.id := Renamed(row)] && NameUnused(rows, row.name, row.id)
      modifies this`rows, this`clock
      ensures Shape(rows, nextId)
      ensures Live() == if works(old(clock)) then live else live[row.id := Renamed(row)]
    {
      var restored := Write(row);
      WritingTwice(live, row.id, Renamed(row), row);
    }

    /** The statements from k on free the name of a listener and then stop its deletion. */
    predicate StopsHalfway(k: nat) {
      works(k) && !(works(k + 1) && works(k + 2))
    }

    /** ... and leave the listener under the freed name. */
    predicate KeepsFreedName(k: nat) {
      if works(k + 1) then !works(k + 3) else !works(k + 2)
    }

    /** A deletion once the name is free: drop the bindings, leave a tombstone, or try to undo. */
    method FinishBurying(row: Listener, ghost live: Rows, ghost k: nat) returns (err: Option<Refusal>)
      requires clock == k + 1 && works(k)
      requires Shape(rows, nextId) && row.id in live && live[row.id] == row && !row.deleted
      requires Live() == live[row.id := Renamed(row)] && NameUnused(rows, row.name, row.id)
      modifies this`rows, this`bindings, this`clock
      ensures Shape(rows, nextId)
      ensures err.None? <==> !StopsHalfway(k)
      ensures err.None? ==> rows == old(rows)[row.id := Tombstone(row)] && Live() == live - {row.id}
      ensures bindings == if works(k + 1) then Unbound(old(bindings), row.id) else old(bindings)
      ensures err.Some? ==> Live() == if KeepsFreedName(k) then live[row.id := Renamed(row)] else live
    {
      assert NameUnused(rows, FreedName(row), row.id) by {
        assert rows[row.id] == Live()[row.id] == Renamed(row);
      }
      var unbound := Statement();
      if !unbound {
        RestoreName(row, live);
        return Some(Database);
      }
      bindings := Unbound(bindings, row.id);
      var buried := Write(Tombstone(row));
      if !buried {
        RestoreName(row, live);
        return Some(Database);
      }
      RemovingWritten(live, row.id, Renamed(row));
      return None;
    }

    /** Delete, once the row is recorded: free the name, then the rest. */
    method Bury(row: Listener) returns (err: Option<Refusal>)
      requires Shape(rows, nextId) && row.id in Live() && Live()[row.id] == row && !row.deleted
      modifies this`rows, this`bindings, this`clock
      ensures Shape(rows, nextId)
      ensures err.None? <==> NameUnused(old(rows), FreedName(row), row.id) && works(old(clock)) && !StopsHalfway(old(clock))
      ensures err.None? ==> rows == old(rows)[row.id := Tombstone(row)] && Live() == old(Live()) - {row.id}
      ensures err.None? ==> bindings == Unbound(old(bindings), row.id)
      ensures err.Some? ==>
                var halfway := NameUnused(old(rows), FreedName(row), row.id) && StopsHalfway(old(clock));
                && Live() == (if halfway && KeepsFreedName(old(clock)) then old(Live())[row.id := Renamed(row)] else old(Live()))
                && bindings == (if halfway && works(old(clock) + 1) then Unbound(old(bindings), row.id) else old(bindings))
    {
      ghost var live, before := Live(), rows;
      var freed := Write(Renamed(row));
      if !freed {
        return Some(Database);
      }
      assert NameUnused(rows, row.name, row.id);
      err := FinishBurying(row, live, old(clock));
      WritingTwice(before, row.id, Renamed(row), Tombstone(row));
    }

    /** A completed deletion: recorded, unbound, and its name free for the next listener. */
    ghost predicate Buried(row: Listener, before: Rows, versions: History, bound: set<(nat, nat)>)
      reads this`rows, this`history, this`bindings
    {
      && rows == before[row.id := Tombstone(row)]
      && NameUnused(rows, row.name, 0)
      && history == Recorded(versions, row, "before-delete")
      && bindings == Unbound(bound, row.id)
    }

    /**
     With the statements from k on, a deletion records the listener and frees its name, then fails, and
     yet changes what a generation reads: the name stays freed, or bindings are gone.
     */
    ghost predicate Abandons(row: Listener, k: nat)
      reads this`rows, this`bindings
    {
      && works(k) && works(k + 1) && works(k + 2) && NameUnused(rows, FreedName(row), row.id) && StopsHalfway(k + 3)
      && (KeepsFreedName(k + 3) || (works(k + 4) && Unbound(bindings, row.id) != bindings))
    }

    /** Record a live row, then bury it. */
    method Retire(row: Listener) returns (err: Option<Refusal>)
      requires Shape(rows, nextId) && Dense(history) && row.id in Live() && Live()[row.id] == row && !row.deleted
      modifies this`rows, this`history, this`bindings, this`clock
      ensures Shape(rows, nextId) && Dense(history) && Extends(old(history), history)
      ensures err.None? ==> Live() == old(Live()) - {row.id} && Buried(row, old(rows), old(history), old(bindings))
      ensures err.Some? ==> Live() == old(Live()) || Live() == old(Live())[row.id := Renamed(row)]
      ensures err.Some? ==> bindings == old(bindings) || bindings == Unbound(old(bindings), row.id)
      ensures err.Some? && (Live() != old(Live()) || bindings != old(bindings)) <==> old(Abandons(row, clock))
      ensures old(Healthy()) ==> (err.None? <==> NameUnused(old(rows), FreedName(row), row.id))
    {
      var recorded := SaveVersion(row.id, "before-delete");
      if !recorded {
        return Some(Database);
      }
      FreedNameIsLonger(row);
      WritingTwice(Live(), row.id, row, Renamed(row));
      err := Bury(row);
    }

    /** The deletion of this listener would be abandoned. */
    ghost predicate DeletionAbandons(id: nat)
      reads this`rows, this`bindings, this`clock
    {
      id in Live() && works(clock) && Abandons(Live()[id], clock + 1)
    }

    /** Remove a listener; one that is already gone counts as removed. */
    method Remove(id: nat) returns (err: Option<Refusal>)
      requires Shape(rows, nextId) && Dense(history)
      modifies this`rows, this`history, this`bindings, this`clock
      ensures Shape(rows, nextId) && Dense(history) && Extends(old(history), history)
      ensures err.None? ==> Live() == old(Live()) - {id}
      ensures err.None? && id in old(Live()) ==> Buried(old(Live())[id], old(rows), old(history), old(bindings))
      ensures err.None? && id !in old(Live()) ==> bindings == old(bindings)
      ensures err.Some? && Live() != old(Live()) ==>
                id in old(Live()) && Live() == old(Live())[id := Renamed(old(Live())[id])]
      ensures err.Some? ==> bindings == old(bindings) || bindings == Unbound(old(bindings), id)
      ensures err.Some? && (Live() != old(Live()) || bindings != old(bindings)) <==> old(DeletionAbandons(id))
      ensures old(Healthy()) ==>
                (err.None? <==> id !in old(Live()) || NameUnused(old(rows), FreedName(old(Live())[id]), id))
    {
      var live: Rows := Live();
      var loaded := Statement();
      if !loaded {
        return Some(Database);
      }
      if id !in live {
        AbsentIsNoLoss(live, id);
        return None;
      }
      err := Retire(live[id]);
    }

    /**
     Delete. It is refused only by a failing statement or by a row that already has the freed name. A
     refused deletion changes listeners or bindings exactly when `DeletionAbandons` says so, and then
     nothing is scheduled.
     */
    method Delete(id: nat) returns (err: Option<Refusal>)
      requires Valid()
      modifies this`rows, this`history, this`bindings, this`clock, this`schedules
      ensures Valid() && Extends(old(history), history)
      ensures err.None? ==> Live() == old(Live()) - {id}
      ensures err.None? && id in old(Live()) ==> Buried(old(Live())[id], old(rows), old(history), old(bindings))
      ensures err.None? && id !in old(Live()) ==> bindings == old(bindings)
      ensures err.None? && id in old(Live()) ==>
                && rows == old(rows)[id := old(Live())[id].(name := old(Live())[id].name + "__deleted_" + Decimal(id), deleted := true)]
                && forall l, u :: (l, u) in bindings <==> (l, u) in old(bindings) && l != id
      ensures err.Some? && Live() != old(Live()) ==>
                id in old(Live()) && Live() == old(Live())[id := Renamed(old(Live())[id])]
      ensures err.Some? && Live() != old(Live()) ==>
                Live()[id] == old(Live())[id].(name := old(Live())[id].name + "__deleted_" + Decimal(id))
      ensures err.Some? && bindings != old(bindings) ==> forall l, u :: (l, u) in bindings <==> (l, u) in old(bindings) && l != id
      ensures err.Some? && (Live() != old(Live()) || bindings != old(bindings)) <==> old(DeletionAbandons(id))
      ensures schedules == old(schedules) + if err.None? && id in old(Live()) then 1 else 0
      ensures old(Healthy()) ==>
                (err.None? <==> id !in old(Live()) || NameUnused(old(rows), FreedName(old(Live())[id]), id))
    {
      ghost var before := Live();
      var known := id in Live();
      err := Remove(id);
      if known {
        assert before[id].id == id;
        DeletionKeepsValid(before, before[id], Live());
        if err.None? {
          schedules := schedules + 1;
        }
      } else {
        AbsentIsNoLoss(before, id);
        assert Live() == before;
      }
    }

    /** With a working database no deletion is abandoned. */
    lemma HealthyDeletionsFinish(id: nat)
      requires Healthy()
      ensures !DeletionAbandons(id)
    {
      assert works(clock + 4) && works(clock + 5) && works(clock + 6);
    }

    lemma DeletionKeepsValid(live: Rows, row: Listener, after: Rows)
      requires LawfulValidator(rules, validate) && Peace(rules, live) && Normalised(rules, validate, live, touched)
      requires row.id in live && live[row.id] == row
      requires after == live - {row.id} || after == live || after == live[row.id := Renamed(row)]
      ensures Peace(rules, after) && Normalised(rules, validate, after, touched)
    {
      LeavingKeepsPeace(rules, live, row.id);
      RenamingKeepsValid(live, row);
    }

    lemma AbsentIsNoLoss(live: Rows, id: nat)
      requires id !in live
      ensures live - {id} == live
    {
    }

    lemma RenamingKeepsValid(live: Rows, row: Listener)
      requires LawfulValidator(rules, validate) && Peace(rules, live) && Normalised(rules, validate, live, touched)
      requires row.id in live && live[row.id] == row
      ensures Peace(rules, live[row.id := Renamed(row)]) && Normalised(rules, validate, live[row.id := Renamed(row)], touched)
    {
      assert Kept(rules, validate, live[row.id], row.id in touched);
      FreedNameIsTrimmed(row);
      assert SameUpToPlace(row, Renamed(row));
      assert PeaceWith(rules, live, live[row.id], row.id);
      SameEndpointSamePeace(rules, live, row, row.id, Renamed(row), row.id);
      JoiningKeepsPeace(rules, live, row.id, Renamed(row));
    }

    // -------------------------------------------------------------- copies and templates

    /** Check, insert and record a listener without a key. */
    method AddNew(v: Listener, reason: string) returns (saved: Listener, err: Option<Refusal>)
      requires Shape(rows, nextId) && Dense(history) && !v.deleted && v.id == 0 && Trim(v.name) == v.name != ""
      modifies this`rows, this`history, this`nextId, this`clock
      ensures Shape(rows, nextId) && Dense(history) && Extends(old(history), history)
      ensures err.Some? ==> Live() == old(Live())
      ensures err.None? ==> saved == v.(id := saved.id) && saved.id !in old(Live()) && Live() == old(Live())[saved.id := saved]
      ensures err.None? ==> NameUnused(old(Live()), v.name, 0) && PeaceWith(rules, old(Live()), v, 0)
      ensures err.Some? ==> history == old(history)
      ensures old(Healthy()) && err.None? ==> history == Recorded(old(history), saved, reason)
      ensures old(Healthy()) && NameUnused(old(Live()), v.name, 0) && PeaceWith(rules, old(Live()), v, 0) ==> err.None?
    {
      saved := v;
      err := EnsureEndpointAvailable(v);
      if err.Some? {
        return;
      }
      ghost var before := rows;
      var outcome: Outcome;
      saved, outcome := Insert(v);
      if !outcome.Inserted? {
        return v, Some(Database);
      }
      WriteShows(before, saved);
      var recorded := SaveVersion(saved.id, reason);
    }

    /** Adding a settled listener keeps the registry valid. */
    method Join(v: Listener, reason: string) returns (saved: Listener, err: Option<Refusal>)
      requires Valid() && !v.deleted && v.id == 0 && Kept(rules, validate, v, false)
      modifies this`rows, this`history, this`nextId, this`clock, this`schedules
      ensures Valid() && Extends(old(history), history)
      ensures err.Some? ==> Live() == old(Live())
      ensures err.None? ==> saved == v.(id := saved.id) && saved.id !in old(Live()) && Live() == old(Live())[saved.id := saved]
      ensures err.None? ==> NameUnused(old(Live()), v.name, 0) && PeaceWith(rules, old(Live()), v, 0)
      ensures err.Some? ==> history == old(history)
      ensures old(Healthy()) && err.None? ==> history == Recorded(old(history), saved, reason)
      ensures old(Healthy()) && NameUnused(old(Live()), v.name, 0) && PeaceWith(rules, old(Live()), v, 0) ==> err.None?
      ensures schedules == old(schedules) + if err.None? then 1 else 0
    {
      assert Preserves(v, validate(v).value);
      ghost var live := Live();
      saved, err := AddNew(v, reason);
      if err.None? {
        SettledElsewhere(v, saved);
        SameEndpointSamePeace(rules, live, v, 0, saved, saved.id);
        JoiningKeepsValid(live, saved);
        schedules := schedules + 1;
      }
    }

    /** What Clone validates: the source row under another name and, if one is given, at another port. */
    function Copy(source: Listener, name: string, port: string): Listener {
      source.(id := 0, deleted := false, name := Trim(name), port := if Trim(port) != "" then Trim(port) else source.port)
    }

    /** Clone; without a port of its own the copy clashes with its source, so it is always refused. */
    method Clone(id: nat, name: string, port: string) returns (saved: Listener, err: Option<Refusal>)
      requires Valid()
      modifies this`rows, this`history, this`nextId, this`clock, this`schedules
      ensures Valid() && Extends(old(history), history)
      ensures err.Some? ==> Live() == old(Live())
      ensures err.None? ==> saved.id !in old(Live()) && Live() == old(Live())[saved.id := saved]
      ensures err.None? ==> id in old(Live()) && validate(Copy(old(Live())[id], name, port)) == Some(saved.(id := 0))
      ensures Trim(port) == "" ==> err.Some?
      ensures err.None? ==>
                validate(old(Live())[id].(id := 0, deleted := false, name := Trim(name), port := Trim(port))) == Some(saved.(id := 0))
      ensures old(Healthy()) && err.None? ==> history == Recorded(old(history), saved, "clone")
      ensures old(Healthy()) && id in old(Live()) && Trim(name) != "" ==>
                var v := validate(Copy(old(Live())[id], name, port));
                (err.None? <==> v.Some? && NameUnused(old(Live()), v.value.name, 0) && PeaceWith(rules, old(Live()), v.value, 0))
      ensures schedules == old(schedules) + if err.None? then 1 else 0
    {
      saved := *;
      var loaded := Statement();
      if !loaded || id !in Live() {
        return saved, Some(if loaded then NotFound else Database);
      }
      var source := Live()[id];
      if Trim(name) == "" {
        return source, Some(Invalid);
      }
      var copy := Copy(source, name, port);
      var validated := validate(copy);
      if validated.None? {
        return source, Some(Invalid);
      }
      assert Preserves(copy, validated.value);
      if Trim(port) == "" {
        assert Kept(rules, validate, Live()[id], id in touched);
        CopyClashes(source, copy);
      }
      saved, err := Join(validated.value, "clone");
    }

    lemma CopyClashes(source: Listener, copy: Listener)
      requires LawfulValidator(rules, validate) && Normal(rules, validate, source) && SameUpToPlace(source, copy)
      requires copy.port == source.port && validate(copy).Some?
      ensures Clash(rules, validate(copy).value, source)
    {
      assert Normal(rules, validate, copy) && SameButConfig(copy, copy);
      ClashIsReflexive(rules, validate(copy).value, source);
    }

    function Instance(template: Template, name: string, port: string): Listener {
      Listener(0, Trim(name), template.protocol, "", if Trim(port) == "" then "0" else Trim(port), ANY_ADDRESS, "", "", true,
               template.config, "", false)
    }

    /** InstantiateTemplate; a blank port becomes "0", which validation refuses. */
    method InstantiateTemplate(template: Option<Template>, name: string, port: string)
      returns (saved: Listener, err: Option<Refusal>)
      requires Valid()
      modifies this`rows, this`history, this`nextId, this`clock, this`schedules
      ensures Valid() && Extends(old(history), history)
      ensures err.Some? ==> Live() == old(Live())
      ensures err.None? ==> saved.id !in old(Live()) && Live() == old(Live())[saved.id := saved]
      ensures err.None? ==> template.Some? && validate(Instance(template.value, name, port)) == Some(saved.(id := 0))
      ensures Trim(port) == "" ==> err.Some?
      ensures err.None? ==>
                var t := template.value;
                validate(Listener(0, Trim(name), t.protocol, "", Trim(port), "0.0.0.0", "", "", true, t.config, "", false))
                == Some(saved.(id := 0))
      ensures old(Healthy()) && err.None? ==> history == Recorded(old(history), saved, "template")
      ensures old(Healthy()) && template.Some? && Trim(name) != "" ==>
                var v := validate(Instance(template.value, name, port));
                (err.None? <==> v.Some? && NameUnused(old(Live()), v.value.name, 0) && PeaceWith(rules, old(Live()), v.value, 0))
      ensures schedules == old(schedules) + if err.None? then 1 else 0
    {
      saved := *;
      if template.None? {
        return saved, Some(NotFound);
      }
      var l := Instance(template.value, name, port);
      if Trim(name) == "" {
        return l, Some(Invalid);
      }
      var validated := validate(l);
      if validated.None? {
        return l, Some(Invalid);
      }
      assert Preserves(l, validated.value);
      if Trim(port) == "" {
        ZeroIsNoPort(l.port);
      }
      saved, err := Join(validated.value, "template");
    }

    // -------------------------------------------------------------- batches

    /** The inner loop of ensureBatchEndpointsAvailable. */
    method FindLaterClash(batch: seq<Listener>, i: nat) returns (found: bool)
      requires i < |batch|
      ensures found <==> ClashesLater(rules, batch, i)
    {
      for j := i + 1 to |batch|
        invariant forall k | i < k < j :: !Clash(rules, batch[i], batch[k])
      {
        found := Conflicting(rules, batch[i], batch[j]);
        if found {
          return;
        }
        forall k | i < k <= j ensures !Clash(rules, batch[i], batch[k]) {
          if k == j {}
        }
      }
      return false;
    }

    /** ensureBatchEndpointsAvailable: every candidate against the table, then against the ones after it. */
    method EnsureBatchEndpointsAvailable(batch: seq<Listener>) returns (err: Option<Refusal>)
      requires Shape(rows, nextId)
      modifies this`rows, this`clock
      ensures old(clock) <= clock && (old(Healthy()) ==> Healthy())
      ensures Shape(rows, nextId) && Purged(old(rows), rows) && Live() == old(Live())
      ensures err.None? ==> BatchAtPeace(rules, Live(), batch)
      ensures BatchAtPeace(rules, Live(), batch) && PairwisePeace(rules, batch) && BatchNamesUnused(Live(), batch)
              ==> err in {None, Some(Database)}
      ensures err.Some? ==> err.value in {Invalid, NameTaken, EndpointTaken, Database}
      ensures old(Healthy()) ==> err != Some(Database)
    {
      for i := 0 to |batch|
        invariant old(clock) <= clock && (old(Healthy()) ==> Healthy())
        invariant Shape(rows, nextId) && Purged(old(rows), rows) && Live() == old(Live())
        invariant forall k | 0 <= k < i :: PeaceWith(rules, Live(), batch[k], batch[k].id)
      {
        ghost var before := rows;
        err := EnsureEndpointAvailable(batch[i]);
        PurgedTwice(old(rows), before, rows);
        if err.Some? {
          return;
        }
        forall k | 0 <= k <= i ensures PeaceWith(rules, Live(), batch[k], batch[k].id) {
          if k == i {}
        }
        var clash := FindLaterClash(batch, i);
        if clash {
          return Some(EndpointTaken);
        }
      }
      return None;
    }

    /** The live listeners with these keys, in the order the database returns them. */
    method Select(wanted: set<nat>) returns (found: seq<Listener>)
      requires Shape(rows, nextId) && wanted <= Live().Keys
      ensures forall l | l in found :: l.id in wanted && Live()[l.id] == l
      ensures DistinctKeys(found) && |found| == |wanted|
    {
      var todo := wanted;
      found := [];
      while todo != {}
        invariant todo <= wanted && |found| + |todo| == |wanted|
        invariant forall l | l in found :: l.id in wanted - todo && Live()[l.id] == l
        invariant DistinctKeys(found)
        decreases todo
      {
        var id :| id in todo;
        todo := todo - {id};
        found := found + [Live()[id]];
      }
    }

    /** As many listeners are found as keys are given exactly if the keys are distinct and all live. */
    method Fetch(ids: seq<nat>) returns (found: seq<Listener>)
      requires Shape(rows, nextId)
      ensures forall l | l in found :: l.id in ids && l.id in Live() && Live()[l.id] == l
      ensures DistinctKeys(found)
      ensures |found| == |ids| <==> Distinct(ids) && forall id | id in ids :: id in Live()
    {
      var wanted := set id | id in ids && id in Live();
      found := Select(wanted);
      CountElements(ids);
      SubsetIsSmaller(wanted, Elements(ids));
      assert wanted == Elements(ids) <==> forall id | id in ids :: id in Live();
    }

    /** Record every listener of a batch, one version each. */
    method SaveVersions(batch: seq<Listener>, reason: string) returns (ok: bool)
      requires Shape(rows, nextId) && Dense(history)
      requires forall l | l in batch :: l.id in Live() && Live()[l.id] == l
      modifies this`history, this`clock
      ensures old(clock) <= clock && (old(Healthy()) ==> Healthy() && ok)
      ensures Dense(history) && Extends(old(history), history)
      ensures ok ==> history == RecordedAll(old(history), batch, reason)
    {
      for i := 0 to |batch|
        invariant old(clock) <= clock && (old(Healthy()) ==> Healthy())
        invariant Dense(history) && Extends(old(history), history)
        invariant history == RecordedAll(old(history), batch[..i], reason)
      {
        assert batch[i] in batch && batch[..i + 1][..i] == batch[..i];
        ghost var before := history;
        ok := SaveVersion(batch[i].id, reason);
        ExtendsTwice(old(history), before, history);
        if !ok {
          return;
        }
      }
      assert batch[..|batch|] == batch;
      return true;
    }

    /** The endpoint check before enabling; it compares live listeners with each other, and those are at peace. */
    method CheckEnabled(previous: seq<Listener>) returns (err: Option<Refusal>)
      requires Valid() && DistinctKeys(previous)
      requires forall l | l in previous :: l.id in Live() && Live()[l.id] == l
      modifies this`rows, this`clock
      ensures old(clock) <= clock && (old(Healthy()) ==> Healthy() && err.None?)
      ensures Shape(rows, nextId) && Live() == old(Live())
      ensures err in {None, Some(Database)}
    {
      ghost var live := Live();
      LiveNamesDiffer(rows, nextId);
      CandidatesAreAvailable(live, previous);
      err := EnsureBatchEndpointsAvailable(AllEnabled(previous));
    }

    /** BatchSetEnabled: never refused for a conflict, because disabled listeners keep their endpoint. */
    method BatchSetEnabled(ids: seq<nat>, enabled: bool) returns (err: Option<Refusal>, ghost changed: seq<Listener>)
      requires Valid()
      modifies this`rows, this`history, this`clock, this`schedules
      ensures Valid() && Extends(old(history), history)
      ensures err.Some? ==> Live() == old(Live()) && err.value in {NothingSupplied, NotFound, Database}
      ensures err.None? ==> Live() == WithEnabled(old(Live()), Elements(ids), enabled)
      ensures err.None? ==> Live().Keys == old(Live()).Keys && forall id | id in old(Live()) ::
                Live()[id] == old(Live())[id].(enabled := if id in ids then enabled else old(Live())[id].enabled)
      ensures err.None? ==>
                && |changed| == |ids| && DistinctKeys(changed)
                && (forall l | l in changed :: l.id in ids && l.id in old(Live()) && old(Live())[l.id] == l)
                && history == RecordedAll(old(history), changed, "before-batch-enabled")
      ensures old(Healthy()) ==>
                (err.None? <==> ids != [] && Distinct(ids) && forall id | id in ids :: id in old(Live()))
      ensures schedules == old(schedules) + if err.None? then 1 else 0
    {
      changed := [];
      if ids == [] {
        return Some(NothingSupplied), changed;
      }
      var loaded := Statement();
      if !loaded {
        return Some(Database), changed;
      }
      var previous := Fetch(ids);
      if |previous| != |ids| {
        return Some(NotFound), changed;
      }
      changed := previous;
      err := SetAll(previous, ids, enabled);
    }

    /** BatchSetEnabled on the listeners it has loaded: check, record, write. */
    method SetAll(previous: seq<Listener>, ids: seq<nat>, enabled: bool) returns (err: Option<Refusal>)
      requires Valid() && DistinctKeys(previous)
      requires forall l | l in previous :: l.id in Live() && Live()[l.id] == l
      modifies this`rows, this`history, this`clock, this`schedules
      ensures Valid() && Extends(old(history), history)
      ensures Live() == if err.None? then WithEnabled(old(Live()), Elements(ids), enabled) else old(Live())
      ensures err in {None, Some(Database)}
      ensures err.None? ==> history == RecordedAll(old(history), previous, "before-batch-enabled")
      ensures old(Healthy()) ==> err.None?
      ensures schedules == old(schedules) + if err.None? then 1 else 0
    {
      err := None;
      if enabled {
        err := CheckEnabled(previous);
      }
      if err.None? {
        var recorded := SaveVersions(previous, "before-batch-enabled");
        if !recorded {
          return Some(Database);
        }
        err := SetEnabled(ids, enabled);
      }
    }

    method SetEnabled(ids: seq<nat>, enabled: bool) returns (err: Option<Refusal>)
      requires Valid()
      modifies this`rows, this`clock, this`schedules
      ensures schedules == old(schedules) + if err.None? then 1 else 0
      ensures Valid() && err in {None, Some(Database)}
      ensures Live() == if err.None? then WithEnabled(old(Live()), Elements(ids), enabled) else old(Live())
      ensures old(Healthy()) ==> err.None?
    {
      var written := Statement();
      if !written {
        return Some(Database);
      }
      EnablingShows(rows, nextId, Elements(ids), enabled);
      EnablingKeepsPeace(rules, Live(), Elements(ids), enabled);
      EnablingKeepsRows(rules, validate, Live(), touched, Elements(ids), enabled);
      rows := WithEnabled(rows, Elements(ids), enabled);
      schedules := schedules + 1;
      return None;
    }

    /** The check before enabling compares live listeners with each other, and those are at peace. */
    lemma CandidatesAreAvailable(live: Rows, previous: seq<Listener>)
      requires Peace(rules, live) && Normalised(rules, validate, live, touched) && NamesDiffer(live)
      requires DistinctKeys(previous) && forall l | l in previous :: l.id in live && live[l.id] == l
      ensures var candidates := AllEnabled(previous);
              BatchAtPeace(rules, live, candidates) && PairwisePeace(rules, candidates) && BatchNamesUnused(live, candidates)
    {
      var candidates := AllEnabled(previous);
      forall i | 0 <= i < |candidates|
        ensures PeaceWith(rules, live, candidates[i], candidates[i].id)
        ensures NameUnused(live, Trim(candidates[i].name), candidates[i].id) && Trim(candidates[i].name) != ""
      {
        var row := previous[i];
        assert row in previous;
        assert PeaceWith(rules, live, live[row.id], row.id);
        SameEndpointSamePeace(rules, live, row, row.id, candidates[i], row.id);
        assert Kept(rules, validate, live[row.id], row.id in touched);
      }
      forall i, j | 0 <= i < j < |candidates| ensures !Clash(rules, candidates[i], candidates[j]) {
        assert previous[j] in previous && !Clash(rules, candidates[i], live[previous[j].id]);
        assert FirstAddress(candidates[j]) == FirstAddress(previous[j]);
      }
    }

    /** One step of the transaction of BatchCreate: check a listener's name in the table, insert it into the transaction. */
    method Stage(l: Listener, staged: Rows, next: nat) returns (saved: Listener, err: Option<Refusal>)
      requires Shape(rows, nextId) && Shape(rows + staged, next) && staged.Keys !! rows.Keys
      requires !l.deleted && Trim(l.name) == l.name != ""
      modifies this`rows, this`clock
      ensures old(clock) <= clock && (old(Healthy()) ==> Healthy())
      ensures Shape(rows, nextId) && Purged(old(rows), rows) && Live() == old(Live()) && Shape(rows + staged, next)
      ensures err.None? ==> saved == l.(id := saved.id) && (l.id != 0 ==> saved.id == l.id)
      ensures err.Some? ==> err.value != Stuck
      ensures err.None? ==> 0 < saved.id && saved.id !in rows + staged && NameUnused(rows + staged, saved.name, saved.id)
      ensures old(Healthy()) && l.id == 0 && NameUnused(old(Live()), l.name, 0) && NameUnused(staged, l.name, 0) ==> err.None?
    {
      saved := l;
      err := EnsureUniqueNameBeside(l, staged, next);
      if err.Some? {
        return;
      }
      var written := Statement();
      if !written || l.id in rows + staged || exists id | id in staged && id != l.id :: staged[id].name == l.name {
        return l, Some(Database);
      }
      if l.id == 0 {
        saved := l.(id := next);
      }
    }

    /** The transaction holds what its requests are prepared to, ready to join the table. */
    ghost predicate Staged(list: seq<Listener>, created: seq<Listener>, staged: Rows, next: nat)
      reads this`rows, this`nextId
    {
      && Shape(rows + staged, next) && nextId <= next && staged.Keys !! rows.Keys
      && StagedAs(staged, created) && PreparedAs(list, created)
    }

    /** A batch without keys that neither the table nor the batch itself stands in the way of. */
    ghost predicate Fits(list: seq<Listener>, live: Rows) {
      && (forall i | 0 <= i < |list| :: FitsAlone(list[i], live))
      && (forall i, j | 0 <= i < j < |list| :: FitTogether(Prepared(list[i]).value, Prepared(list[j]).value))
    }

    ghost predicate FitsAlone(request: Listener, live: Rows) {
      var v := Prepared(request);
      request.id == 0 && v.Some? && NameUnused(live, v.value.name, 0) && PeaceWith(rules, live, v.value, 0)
    }

    ghost predicate FitTogether(a: Listener, b: Listener) {
      a.name != b.name && !Clash(rules, a, b)
    }

    lemma StagedNamesDiffer(list: seq<Listener>, i: nat, created: seq<Listener>, staged: Rows, live: Rows)
      requires i < |list| && StagedAs(staged, created) && PreparedAs(list[..i], created) && Fits(list, live)
      ensures NameUnused(staged, Prepared(list[i]).value.name, 0)
    {
    }

    /** The loop body of BatchCreate. */
    method StageNext(list: seq<Listener>, i: nat, created: seq<Listener>, staged: Rows, next: nat)
      returns (saved: Listener, after: nat, err: Option<Refusal>)
      requires Shape(rows, nextId) && Lawful() && i < |list| && !list[i].deleted
      requires Staged(list[..i], created, staged, next)
      modifies this`rows, this`clock
      ensures old(clock) <= clock && (old(Healthy()) ==> Healthy())
      ensures Shape(rows, nextId) && Purged(old(rows), rows) && Live() == old(Live())
      ensures err.None? ==> Staged(list[..i + 1], created + [saved], staged[saved.id := saved], after)
      ensures err.Some? ==> err.value != Stuck
      ensures old(Healthy()) && Fits(list, old(Live())) ==> err.None?
    {
      saved, after := list[i], next;
      var prepared := Prepared(list[i]);
      if prepared.None? {
        return saved, after, Some(Invalid);
      }
      PreparedShape(list[i]);
      if Fits(list, Live()) {
        StagedNamesDiffer(list, i, created, staged, Live());
        assert FitsAlone(list[i], Live());
      }
      saved, err := Stage(prepared.value, staged, next);
      if err.Some? {
        return;
      }
      after := if next <= saved.id then saved.id + 1 else next;
      SettledElsewhere(prepared.value, saved);
      StagedOneMore(list, i, created, staged, next, saved, after);
    }

    lemma StagedOneMore(list: seq<Listener>, i: nat, created: seq<Listener>, staged: Rows, next: nat, saved: Listener, after: nat)
      requires i < |list| && Staged(list[..i], created, staged, next)
      requires 0 < saved.id < after && next <= after && saved.id !in rows + staged
      requires NameUnused(rows + staged, saved.name, saved.id)
      requires !saved.deleted && Kept(rules, validate, saved, false) && Prepared(list[i]) == Some(saved.(id := list[i].id))
      ensures Staged(list[..i + 1], created + [saved], staged[saved.id := saved], after)
    {
      WriteKeepsShape(rows + staged, next, saved, after);
      WritingBeside(rows, staged, saved);
      StagingOneMore(staged, created, saved);
      PreparingOneMore(list, i, created, saved);
    }

    /** The transaction of BatchCreate, up to its commit: nothing is visible yet. */
    method StageAll(list: seq<Listener>) returns (created: seq<Listener>, staged: Rows, next: nat, err: Option<Refusal>)
      requires Shape(rows, nextId) && Lawful() && forall l | l in list :: !l.deleted
      modifies this`rows, this`clock
      ensures old(clock) <= clock && (old(Healthy()) ==> Healthy())
      ensures Shape(rows, nextId) && Purged(old(rows), rows) && Live() == old(Live())
      ensures err.None? ==> Staged(list, created, staged, next)
      ensures err.Some? ==> err.value != Stuck
      ensures old(Healthy()) && Fits(list, old(Live())) ==> err.None?
    {
      created, staged, next := [], map[], nextId;
      assert rows + staged == rows;
      for i := 0 to |list|
        invariant old(clock) <= clock && (old(Healthy()) ==> Healthy())
        invariant Shape(rows, nextId) && Purged(old(rows), rows) && Live() == old(Live())
        invariant Staged(list[..i], created, staged, next)
      {
        assert list[i] in list;
        ghost var before := rows;
        var saved, after;
        saved, after, err := StageNext(list, i, created, staged, next);
        PurgedTwice(old(rows), before, rows);
        if err.Some? {
          return;
        }
        staged, next, created := staged[saved.id := saved], after, created + [saved];
      }
      assert list[..|list|] == list;
      return created, staged, next, None;
    }

    /** The staged rows are the created listeners under their keys. */
    ghost predicate StagedAs(staged: Rows, created: seq<Listener>) {
      ListsAll(staged, created) && forall id | id in staged :: !staged[id].deleted && Kept(rules, validate, staged[id], false)
    }

    /** Each created listener is what its request is prepared to, under its key. */
    ghost predicate PreparedAs(list: seq<Listener>, created: seq<Listener>) {
      |created| == |list| && forall i | 0 <= i < |list| :: Prepared(list[i]) == Some(created[i].(id := list[i].id))
    }

    lemma StagingOneMore(staged: Rows, created: seq<Listener>, saved: Listener)
      requires StagedAs(staged, created) && saved.id !in staged && !saved.deleted && Kept(rules, validate, saved, false)
      ensures StagedAs(staged[saved.id := saved], created + [saved])
    {
      ListingOneMore(staged, created, saved);
    }

    lemma PreparingOneMore(list: seq<Listener>, i: nat, created: seq<Listener>, saved: Listener)
      requires i < |list| && PreparedAs(list[..i], created) && Prepared(list[i]) == Some(saved.(id := list[i].id))
      ensures PreparedAs(list[..i + 1], created + [saved])
    {
    }

    /** Undo a committed batch: soft-delete its rows one by one, stopping at the first failure. */
    method Withdraw(created: seq<Listener>, ghost live: Rows) returns (ok: bool)
      requires Shape(rows, nextId) && DistinctKeys(created)
      requires forall l | l in created :: l.id in live && live[l.id] == l
      requires Live() == live
      modifies this`rows, this`clock
      ensures Shape(rows, nextId) && (old(Healthy()) ==> ok && Healthy())
      ensures ok ==> Live() == live - Keys(created)
      ensures !ok ==> exists l | l in created :: l.id in Live()
      ensures forall id | id in live && id !in Keys(created) :: id in Live() && Live()[id] == live[id]
    {
      assert live - Keys(created[..0]) == live;
      for i := 0 to |created|
        invariant old(clock) <= clock && (old(Healthy()) ==> Healthy())
        invariant Shape(rows, nextId) && Live() == live - Keys(created[..i])
      {
        KeysOneMore(created, i);
        assert created[i] in created;
        ok := Write(created[i].(deleted := true));
        if !ok {
          return;
        }
        RemovingOneMore(live, Keys(created[..i]), created[i].id);
      }
      assert created[..|created|] == created;
      return true;
    }

    /** BatchCreate up to the history: stage, commit, check, withdraw. */
    method StoreBatch(list: seq<Listener>) returns (created: seq<Listener>, err: Option<Refusal>)
      requires Valid() && forall l | l in list :: !l.deleted
      modifies this`rows, this`nextId, this`clock
      ensures Shape(rows, nextId) && (old(Healthy()) ==> Healthy())
      ensures err != Some(Stuck) ==> Valid()
      ensures err.Some? && err != Some(Stuck) ==> Live() == old(Live())
      ensures err.None? ==> PreparedAs(list, created) && DistinctKeys(created) && Added(old(Live()), created, Live())
      ensures err == Some(Stuck) ==> Keeps(old(Live()), Live()) && Live() != old(Live())
      ensures old(Healthy()) ==> err != Some(Stuck)
      ensures old(Healthy()) && list != [] && Fits(list, old(Live())) ==> err.None?
    {
      if list == [] {
        return [], Some(NothingSupplied);
      }
      var staged, next;
      created, staged, next, err := Transact(list);
      if err.Some? {
        return [], err;
      }
      err := CommitBatch(list, created, staged, next);
    }

    /** The transaction from its begin to its commit, which is still to be made visible. */
    method Transact(list: seq<Listener>) returns (created: seq<Listener>, staged: Rows, next: nat, err: Option<Refusal>)
      requires Shape(rows, nextId) && Lawful() && forall l | l in list :: !l.deleted
      modifies this`rows, this`clock
      ensures old(clock) <= clock && (old(Healthy()) ==> Healthy())
      ensures Shape(rows, nextId) && Live() == old(Live())
      ensures err.None? ==> Staged(list, created, staged, next)
      ensures err.Some? ==> err.value != Stuck
      ensures old(Healthy()) && Fits(list, old(Live())) ==> err.None?
    {
      created, staged, next := [], map[], nextId;
      var begun := Statement();
      if !begun {
        return created, staged, next, Some(Database);
      }
      created, staged, next, err := StageAll(list);
      if err.None? {
        var committed := Statement();
        err := if committed then None else Some(Database);
      }
    }

    /** Commit a staged batch, then check it. */
    method CommitBatch(list: seq<Listener>, created: seq<Listener>, staged: Rows, next: nat) returns (err: Option<Refusal>)
      requires Valid() && Staged(list, created, staged, next)
      modifies this`rows, this`nextId, this`clock
      ensures Shape(rows, nextId) && (old(Healthy()) ==> Healthy())
      ensures err != Some(Stuck) ==> Valid()
      ensures err.Some? && err != Some(Stuck) ==> Live() == old(Live())
      ensures err.None? ==> Added(old(Live()), created, Live())
      ensures err == Some(Stuck) ==> Keeps(old(Live()), Live()) && Live() != old(Live())
      ensures old(Healthy()) ==> err != Some(Stuck)
      ensures old(Healthy()) && Fits(list, old(Live())) ==> err.None?
    {
      ghost var live := Live();
      CommitShows(rows, staged);
      if Fits(list, live) {
        FittingBatchIsAvailable(list, created, staged, live);
      }
      rows, nextId := rows + staged, next;
      err := Settle(created, staged, live);
    }

    /**
     BatchCreate. All or nothing as far as the live listeners go, unless withdrawing a batch that turned
     out to clash fails half-way, which takes a failing statement; then listeners stay and nothing is scheduled.
     */
    method BatchCreate(list: seq<Listener>) returns (created: seq<Listener>, err: Option<Refusal>)
      requires Valid() && forall l | l in list :: !l.deleted
      modifies this`rows, this`history, this`nextId, this`clock, this`schedules
      ensures err != Some(Stuck) ==> Valid()
      ensures Extends(old(history), history)
      ensures err.Some? && err != Some(Stuck) ==> Live() == old(Live())
      ensures err.None? ==> PreparedAs(list, created) && DistinctKeys(created) && Added(old(Live()), created, Live())
      ensures err == Some(Stuck) ==> Keeps(old(Live()), Live()) && Live() != old(Live())
      ensures old(Healthy()) ==> err != Some(Stuck)
      ensures err.None? ==> forall i | 0 <= i < |list| ::
                autofill(list[i]).Some?
                && validate(list[i].(config := autofill(list[i]).value)) == Some(created[i].(id := list[i].id))
      ensures old(Healthy()) && err.None? ==> history == RecordedAll(old(history), created, "batch-create")
      ensures old(Healthy()) && list != [] && Fits(list, old(Live())) ==> err.None?
      ensures schedules == old(schedules) + if err.None? then 1 else 0
    {
      created, err := StoreBatch(list);
      if err.Some? {
        return [], err;
      }
      RecordCreated(created);
      schedules := schedules + 1;
    }

    /** The history of a new batch is best-effort: a failing version is skipped. */
    method RecordCreated(created: seq<Listener>)
      requires Shape(rows, nextId) && Dense(history)
      requires forall l | l in created :: l.id in Live() && Live()[l.id] == l
      modifies this`history, this`clock
      ensures Dense(history) && Extends(old(history), history)
      ensures old(Healthy()) ==> history == RecordedAll(old(history), created, "batch-create")
    {
      for i := 0 to |created|
        invariant old(clock) <= clock && (old(Healthy()) ==> Healthy())
        invariant Dense(history) && Extends(old(history), history)
        invariant old(Healthy()) ==> history == RecordedAll(old(history), created[..i], "batch-create")
      {
        assert created[i] in created && created[..i + 1][..i] == created[..i];
        ghost var before := history;
        var recorded := SaveVersion(created[i].id, "batch-create");
        ExtendsTwice(old(history), before, history);
      }
      assert created[..|created|] == created;
    }

    /** After the commit of a batch: check its endpoints, withdraw it when one is taken. */
    method Settle(created: seq<Listener>, ghost staged: Rows, ghost live: Rows) returns (err: Option<Refusal>)
      requires Shape(rows, nextId) && Peace(rules, live) && Normalised(rules, validate, live, touched)
      requires StagedAs(staged, created) && live.Keys !! staged.Keys && Live() == live + staged
      modifies this`rows, this`clock
      ensures Shape(rows, nextId) && (old(Healthy()) ==> Healthy())
      ensures err.None? ==> Added(live, created, Live()) && Peace(rules, Live()) && Normalised(rules, validate, Live(), touched)
      ensures err.Some? && err != Some(Stuck) ==> Live() == live
      ensures err == Some(Stuck) ==> Keeps(live, Live()) && Live() != live
      ensures old(Healthy()) ==> err != Some(Stuck)
      ensures old(Healthy()) && BatchAtPeace(rules, live + staged, created) && PairwisePeace(rules, created)
              && BatchNamesUnused(live + staged, created)
              ==> err.None?
    {
      StagedKeys(staged, created);
      err := EnsureBatchEndpointsAvailable(created);
      if err.Some? {
        var withdrawn := Withdraw(created, live + staged);
        LeavingTogether(live, staged);
        return if withdrawn then err else Some(Stuck);
      }
      JoiningTogether(live, staged, created);
    }

    /** What fits is available once committed. */
    lemma FittingBatchIsAvailable(list: seq<Listener>, created: seq<Listener>, staged: Rows, live: Rows)
      requires Lawful() && StagedAs(staged, created) && PreparedAs(list, created) && Fits(list, live)
      requires live.Keys !! staged.Keys && 0 !in live
      ensures BatchAtPeace(rules, live + staged, created) && PairwisePeace(rules, created)
      ensures BatchNamesUnused(live + staged, created)
    {
      forall i | 0 <= i < |created|
        ensures PeaceWith(rules, live + staged, created[i], created[i].id)
        ensures NameUnused(live + staged, Trim(created[i].name), created[i].id) && Trim(created[i].name) != ""
      {
        CreatedIsAvailable(list, created, staged, live, i);
      }
      forall i | 0 <= i < |created| ensures !ClashesLater(rules, created, i) {
        forall j | i < j < |created| ensures !Clash(rules, created[i], created[j]) {
          CreatedFitTogether(list, created, live, i, j);
        }
      }
    }

    lemma CreatedIsAvailable(list: seq<Listener>, created: seq<Listener>, staged: Rows, live: Rows, i: nat)
      requires Lawful() && ListsAll(staged, created) && PreparedAs(list, created) && Fits(list, live)
      requires live.Keys !! staged.Keys && 0 !in live && i < |created|
      ensures PeaceWith(rules, live + staged, created[i], created[i].id)
      ensures NameUnused(live + staged, Trim(created[i].name), created[i].id) && Trim(created[i].name) != ""
    {
      CreatedFitsAlone(list, created, live, i);
      forall id | id in staged && id != created[i].id
        ensures !Clash(rules, created[i], staged[id]) && staged[id].name != created[i].name
      {
        var k :| 0 <= k < |created| && created[k] == staged[id];
        CreatedFitBesides(list, created, live, i, k);
      }
    }

    lemma CreatedFitBesides(list: seq<Listener>, created: seq<Listener>, live: Rows, i: nat, k: nat)
      requires PreparedAs(list, created) && Fits(list, live) && i < |created| && k < |created| && i != k
      ensures !Clash(rules, created[i], created[k]) && created[i].name != created[k].name
    {
      CreatedFitTogether(list, created, live, if i < k then i else k, if i < k then k else i);
      ClashIsSymmetric(rules, created[i], created[k]);
    }

    lemma CreatedFitsAlone(list: seq<Listener>, created: seq<Listener>, live: Rows, i: nat)
      requires Lawful() && PreparedAs(list, created) && Fits(list, live) && i < |created| && 0 !in live
      ensures NameUnused(live, created[i].name, created[i].id) && PeaceWith(rules, live, created[i], created[i].id)
      ensures Trim(created[i].name) == created[i].name != ""
    {
      assert FitsAlone(list[i], live);
      PreparedShape(list[i]);
      SameEndpointSamePeace(rules, live, Prepared(list[i]).value, 0, created[i], created[i].id);
    }

    lemma CreatedFitTogether(list: seq<Listener>, created: seq<Listener>, live: Rows, i: nat, j: nat)
      requires PreparedAs(list, created) && Fits(list, live) && i < j < |created|
      ensures !Clash(rules, created[i], created[j]) && created[i].name != created[j].name
    {
    }

    lemma JoiningTogether(live: Rows, staged: Rows, created: seq<Listener>)
      requires StagedAs(staged, created) && live.Keys !! staged.Keys
      requires Peace(rules, live) && Normalised(rules, validate, live, touched) && BatchAtPeace(rules, live + staged, created)
      ensures Added(live, created, live + staged)
      ensures Peace(rules, live + staged) && Normalised(rules, validate, live + staged, touched)
    {
      StagedKeys(staged, created);
      forall id | id in staged ensures PeaceWith(rules, live + staged, staged[id], id) {
        assert staged[id] in created;
      }
      JoiningManyKeepsPeace(rules, live, staged);
    }

    lemma StagedKeys(staged: Rows, created: seq<Listener>)
      requires StagedAs(staged, created)
      ensures Keys(created) == staged.Keys
      ensures forall l | l in created :: l.id in staged && staged[l.id] == l
    {
    }
  }

  lemma ZeroIsNoPort(zero: string)
    requires |zero| == 1 && zero[0] == '0'
    ensures !Read(zero).Some?
  {
    ZeroIsNoPart(zero);
    SinglePart(zero);
  }

  lemma ZeroIsNoPart(zero: string)
    requires |zero| == 1 && zero[0] == '0'
    ensures Trim(zero) == zero && ReadPart(zero).None?
  {
    assert zero[0] as int == 48;
    assert Trimmed(zero) && AllDigits(zero) && zero[..0] == "" && DigitsValue(zero) == 0;
    assert Atoi(zero) == Some(0);
  }

  lemma FreedNameIsLonger(l: Listener)
    ensures FreedName(l) != l.name
  {
  }

  /** One of the listeners with these keys denotes the port. */
  predicate Taken(live: Rows, keys: set<nat>, n: int) {
    exists id | id in keys :: id in live && Denotes(live[id].port, n)
  }

  lemma TakenOneMore(live: Rows, keys: set<nat>, id: nat)
    requires id in live
    ensures forall n :: Taken(live, keys + {id}, n) <==> Taken(live, keys, n) || Denotes(live[id].port, n)
  {
  }

  lemma InOneMoreRange(ranges: seq<Range>, i: nat)
    requires i < |ranges|
    ensures forall n :: InRanges(ranges[..i + 1], n) <==> InRanges(ranges[..i], n) || ranges[i].lo <= n <= ranges[i].hi
  {
    var front, more := ranges[..i], ranges[..i + 1];
    assert more == front + [ranges[i]];
    forall n ensures InRanges(more, n) <==> InRanges(front, n) || ranges[i].lo <= n <= ranges[i].hi {
      if InRanges(front, n) {
        var k :| 0 <= k < |front| && front[k].lo <= n <= front[k].hi;
        assert more[k] == front[k];
      }
      assert more[i] == ranges[i];
    }
  }
}
