/**
Names in a merged subscription: disambiguating proxies from external links (converter/external_links.go)
and prefixing those of remote servers (converter/remote_merge.go).
*/
module Names {
  import opened Collections
  import opened Wrappers
  import opened Text

  // ---------------------------------------------------------------- external links

  /** The names tried in turn: base, base-2, base-3, ... */
  function Candidate(base: string, n: nat): string {
    if n < 2 then base else base + "-" + Decimal(n)
  }

  lemma CandidatesDiffer(base: string, m: nat, n: nat)
    requires 1 <= m < n
    ensures Candidate(base, m) != Candidate(base, n)
  {
    DecimalDigits(n);
    if m >= 2 && Candidate(base, m) == Candidate(base, n) {
      assert Candidate(base, m)[|base| + 1..] == Decimal(m);
      assert Candidate(base, n)[|base| + 1..] == Decimal(n);
      DecimalIsInjective(m, n);
    }
  }

  method ContainsName(names: seq<string>, want: string) returns (found: bool)
    ensures found <==> want in names
  {
    for i := 0 to |names|
      invariant want !in names[..i]
    {
      if names[i] == want {
        return true;
      }
      assert names[..i + 1] == names[..i] + [names[i]];
    }
    assert names[..|names|] == names;
    return false;
  }

  function Candidates(base: string, n: nat): set<string> {
    if n == 0 then {} else Candidates(base, n - 1) + {Candidate(base, n)}
  }

  lemma {:induction false} CandidatesCount(base: string, n: nat)
    ensures |Candidates(base, n)| == n
    ensures forall c | c in Candidates(base, n) :: exists k | 1 <= k <= n :: c == Candidate(base, k)
  {
    if n > 0 {
      CandidatesCount(base, n - 1);
      if Candidate(base, n) in Candidates(base, n - 1) {
        var k :| 1 <= k <= n - 1 && Candidate(base, n) == Candidate(base, k);
        CandidatesDiffer(base, k, n);
      }
    }
  }

  /** No more candidates can be taken than there are names. */
  lemma TakenFit(names: seq<string>, base: string, n: nat)
    requires forall k | 1 <= k <= n :: Candidate(base, k) in names
    ensures n <= |names|
  {
    CandidatesCount(base, n);
    CountElements(names);
    SubsetIsSmaller(Candidates(base, n), Elements(names));
  }

  /** The rename loop: the first candidate that is not taken, found within |names| + 1 tries. */
  method Disambiguate(names: seq<string>, base: string) returns (name: string, ghost tries: nat)
    ensures name !in names
    ensures 1 <= tries <= |names| + 1 && name == Candidate(base, tries)
    ensures forall k | 1 <= k < tries :: Candidate(base, k) in names
  {
    name := base;
    var n := 2;
    var taken := ContainsName(names, name);
    while taken
      invariant 2 <= n <= |names| + 2 && name == Candidate(base, n - 1) && (taken <==> name in names)
      invariant forall k | 1 <= k < n - 1 :: Candidate(base, k) in names
      decreases |names| + 2 - n
    {
      TakenFit(names, base, n - 1);
      name := base + "-" + Decimal(n);
      n := n + 1;
      taken := ContainsName(names, name);
    }
    tries := n - 1;
  }

  /** The name a proxy of an external document starts from; entries that are no objects are skipped. */
  function BaseName(name: string, i: nat): string {
    if Trim(name) == "" then "ext-" + Decimal(i + 1) else name
  }

  function Objects(items: seq<Option<string>>): nat {
    if items == [] then 0 else Objects(items[..|items| - 1]) + if items[|items| - 1].Some? then 1 else 0
  }

  /** The merge loop of one document: earlier names stay, and a duplicate-free list stays duplicate-free. */
  method MergeDocument(names: seq<string>, items: seq<Option<string>>) returns (all: seq<string>)
    ensures names <= all && |all| == |names| + Objects(items)
    ensures Distinct(names) ==> Distinct(all)
    ensures forall i | 0 <= i < |items| && items[i].Some? :: Placed(names, items, i, all)
  {
    all := names;
    for i := 0 to |items|
      invariant names <= all && |all| == |names| + Objects(items[..i])
      invariant Distinct(names) ==> Distinct(all)
      invariant forall j | 0 <= j < i && items[j].Some? :: Placed(names, items, j, all)
    {
      assert items[..i + 1][..i] == items[..i];
      if items[i].Some? {
        var base := items[i].value;
        if Trim(base) == "" {
          base := "ext-" + Decimal(i + 1);
        }
        var name, tries := Disambiguate(all, base);
        ghost var before := all;
        all := all + [name];
        assert all[..|before|] == before;
        assert FirstFree(before, BaseName(items[i].value, i), tries);
        forall j | 0 <= j <= i && items[j].Some? ensures Placed(names, items, j, all) {
          if j < i {
            assert Placed(names, items, j, before);
            var k := |names| + Objects(items[..j]);
            assert all[k] == before[k] && all[..k] == before[..k];
          }
        }
      }
    }
    assert items[..|items|] == items;
  }

  /** The n-th candidate is the first that is not among the names. */
  ghost predicate FirstFree(names: seq<string>, base: string, n: nat) {
    n >= 1 && Candidate(base, n) !in names && forall k | 1 <= k < n :: Candidate(base, k) in names
  }

  /** The i-th entry is merged in order, under the first of its candidates that is free at that point. */
  ghost predicate Placed(names: seq<string>, items: seq<Option<string>>, i: nat, all: seq<string>)
    requires i < |items| && items[i].Some?
  {
    var k := |names| + Objects(items[..i]);
    && k < |all|
    && exists n | FirstFree(all[..k], BaseName(items[i].value, i), n) :: all[k] == Candidate(BaseName(items[i].value, i), n)
  }

  // ---------------------------------------------------------------- remote servers

  const TWO_TO_64: nat := 0x1_0000_0000_0000_0000

  function Pow10(n: nat): nat {
    if n == 0 then 1 else 10 * Pow10(n - 1)
  }

  lemma TwentyDigitsSuffice()
    ensures TWO_TO_64 <= Pow10(20)
  {
    assert Pow10(5) == 100_000;
    assert Pow10(10) == 10_000_000_000;
    assert Pow10(15) == 1_000_000_000_000_000;
    assert Pow10(20) == 100_000_000_000_000_000_000;
  }

  /** The digits still to be written for a number, none once it is used up. */
  function Pending(rest: nat): string {
    if rest == 0 then "" else Decimal(rest)
  }

  /** Taking the last digit off leaves the other digits, and room for them. */
  lemma LastDigit(rest: nat, room: nat, quotient: nat, digit: nat, written: string)
    requires 0 < rest < Pow10(room) && quotient == rest / 10 && digit == rest % 10
    ensures room > 0 && quotient < Pow10(room - 1)
    ensures Pending(rest) + written == Pending(quotient) + ([DigitChar(digit)] + written)
  {
  }

  /** itoaU: its 20-byte buffer, filled from the back, holds every 64-bit number. */
  method ItoaU(n: nat) returns (text: string)
    requires n < TWO_TO_64
    ensures text == Decimal(n)
  {
    if n == 0 {
      return "0";
    }
    var b := new char[20];
    text := WriteDigits(b, n);
  }

  /** The loop of itoaU. */
  method WriteDigits(b: array<char>, n: nat) returns (text: string)
    requires b.Length == 20 && 0 < n < TWO_TO_64
    modifies b
    ensures text == Decimal(n)
  {
    var i: nat, rest: nat := 20, n;
    TwentyDigitsSuffice();
    assert b[20..] == "";
    while rest > 0
      invariant i <= 20 && rest < Pow10(i)
      invariant Pending(n) == Pending(rest) + b[i..]
      decreases rest
    {
      ghost var written := b[i..];
      var quotient, digit := rest / 10, rest % 10;
      LastDigit(rest, i, quotient, digit, written);
      i := i - 1;
      b[i] := DigitChar(digit);
      assert b[i..] == [DigitChar(digit)] + written;
      rest := quotient;
    }
    return b[i..];
  }

  function Prefix(server: nat): string {
    "R" + Decimal(server) + "-"
  }

  /** After the R come the digits of the server, then the first dash. */
  lemma PrefixShape(name: string, server: nat)
    requires HasPrefix(name, Prefix(server))
    ensures var digits := |Decimal(server)|;
            && |name| > digits + 1 && name[1..digits + 1] == Decimal(server) && name[digits + 1] == '-'
            && forall k | 1 <= k <= digits :: name[k] != '-'
  {
    var digits := Decimal(server);
    DecimalDigits(server);
    assert name[..|digits| + 2] == Prefix(server);
    assert name[1..|digits| + 1] == digits;
    forall k | 1 <= k <= |digits| ensures name[k] != '-' {
      assert name[k] == digits[k - 1] && IsDigit(digits[k - 1]);
    }
  }

  /** A text starts with the prefix of at most one server. */
  lemma PrefixesAreDisjoint(name: string, a: nat, b: nat)
    requires HasPrefix(name, Prefix(a)) && HasPrefix(name, Prefix(b))
    ensures a == b
  {
    PrefixShape(name, a);
    PrefixShape(name, b);
    assert |Decimal(a)| == |Decimal(b)|;
    DecimalIsInjective(a, b);
  }

  datatype Mirror = Mirror(server: nat, name: string, proxies: seq<string>)

  /** The name of a proxy of a mirror: its own or the mirror's, with the prefix of the server unless it has it. */
  function PrefixedName(m: Mirror, proxy: string): string {
    var n := if proxy == "" then m.name else proxy;
    if HasPrefix(n, Prefix(m.server)) then n else Prefix(m.server) + n
  }

  /** A proxy of some mirror, with its new name. */
  datatype Named = Named(server: nat, name: string)

  function NamesOf(m: Mirror, count: nat): seq<Named>
    requires count <= |m.proxies|
  {
    if count == 0 then [] else NamesOf(m, count - 1) + [Named(m.server, PrefixedName(m, m.proxies[count - 1]))]
  }

  function AllNames(mirrors: seq<Mirror>): seq<Named> {
    if mirrors == [] then []
    else var last := mirrors[|mirrors| - 1]; AllNames(mirrors[..|mirrors| - 1]) + NamesOf(last, |last.proxies|)
  }

  /** How many proxies the first i mirrors have. */
  function CountBefore(mirrors: seq<Mirror>, i: nat): nat
    requires i <= |mirrors|
  {
    if i == 0 then 0 else CountBefore(mirrors, i - 1) + |mirrors[i - 1].proxies|
  }

  /** The name is this one, with the prefix of its server or, if it had that already, as it is. */
  predicate IsNameOf(name: string, own: string, server: nat) {
    var prefix := "R" + Decimal(server) + "-";
    if prefix <= own then name == own else name == prefix + own
  }

  lemma PrefixedNameIs(m: Mirror, proxy: string)
    ensures IsNameOf(PrefixedName(m, proxy), if proxy == "" then m.name else proxy, m.server)
  {
  }

  lemma {:induction false} NamesOfAt(m: Mirror, count: nat)
    requires count <= |m.proxies|
    ensures |NamesOf(m, count)| == count
    ensures forall j | 0 <= j < count :: NamesOf(m, count)[j] == Named(m.server, PrefixedName(m, m.proxies[j]))
  {
    if count > 0 {
      NamesOfAt(m, count - 1);
    }
  }

  lemma {:induction false} AllNamesAt(mirrors: seq<Mirror>, i: nat, j: nat)
    requires i < |mirrors| && j < |mirrors[i].proxies|
    ensures CountBefore(mirrors, i) + j < |AllNames(mirrors)|
    ensures AllNames(mirrors)[CountBefore(mirrors, i) + j] == Named(mirrors[i].server, PrefixedName(mirrors[i], mirrors[i].proxies[j]))
  {
    var n := |mirrors| - 1;
    var front, last := mirrors[..n], mirrors[n];
    AllNamesCount(front);
    SameCount(mirrors, front, i);
    if i < n {
      AllNamesAt(front, i, j);
    } else {
      NamesOfAt(last, |last.proxies|);
    }
  }

  lemma {:induction false} AllNamesCount(mirrors: seq<Mirror>)
    ensures |AllNames(mirrors)| == CountBefore(mirrors, |mirrors|)
  {
    if mirrors != [] {
      var n := |mirrors| - 1;
      AllNamesCount(mirrors[..n]);
      SameCount(mirrors, mirrors[..n], n);
      NamesOfAt(mirrors[n], |mirrors[n].proxies|);
    }
  }

  lemma {:induction false} SameCount(mirrors: seq<Mirror>, front: seq<Mirror>, i: nat)
    requires front <= mirrors && i <= |front|
    ensures CountBefore(mirrors, i) == CountBefore(front, i)
  {
    if i > 0 {
      SameCount(mirrors, front, i - 1);
    }
  }

  /** The nested loops of appendRemoteProxyMaps. */
  method AppendNames(mirrors: seq<Mirror>, names: seq<string>) returns (all: seq<string>, ghost added: seq<Named>)
    requires forall m | m in mirrors :: m.server < TWO_TO_64
    ensures added == AllNames(mirrors)
    ensures names <= all && |all| == |names| + |added|
    ensures forall i | 0 <= i < |added| :: all[|names| + i] == added[i].name
  {
    all, added := names, [];
    for i := 0 to |mirrors|
      invariant added == AllNames(mirrors[..i])
      invariant names <= all && |all| == |names| + |added|
      invariant forall k | 0 <= k < |added| :: all[|names| + k] == added[k].name
    {
      var m := mirrors[i];
      assert m in mirrors && mirrors[..i + 1][..i] == mirrors[..i];
      for j := 0 to |m.proxies|
        invariant added == AllNames(mirrors[..i]) + NamesOf(m, j)
        invariant names <= all && |all| == |names| + |added|
        invariant forall k | 0 <= k < |added| :: all[|names| + k] == added[k].name
      {
        var n := m.proxies[j];
        if n == "" {
          n := m.name;
        }
        var id := ItoaU(m.server);
        var prefix := "R" + id + "-";
        if !HasPrefix(n, prefix) {
          n := prefix + n;
        }
        all, added := all + [n], added + [Named(m.server, n)];
      }
    }
    assert mirrors[..|mirrors|] == mirrors;
  }

  /** The j-th proxy of the i-th mirror is where it belongs, under its own name or its mirror's with the prefix. */
  predicate MergedAt(mirrors: seq<Mirror>, names: seq<string>, all: seq<string>, i: int, j: int)
    requires 0 <= i < |mirrors| && 0 <= j < |mirrors[i].proxies|
  {
    var m, k := mirrors[i], |names| + CountBefore(mirrors, i) + j;
    k < |all| && IsNameOf(all[k], if m.proxies[j] == "" then m.name else m.proxies[j], m.server)
  }

  /**
   appendRemoteProxyMaps: the proxies of all mirrors in order, behind the names there were, each under its own name
   or its mirror's, with the prefix of the server.
   */
  method AppendRemoteProxies(mirrors: seq<Mirror>, names: seq<string>) returns (all: seq<string>, ghost added: seq<Named>)
    requires forall m | m in mirrors :: m.server < TWO_TO_64
    ensures added == AllNames(mirrors)
    ensures names <= all && |all| == |names| + CountBefore(mirrors, |mirrors|) == |names| + |added|
    ensures forall i | 0 <= i < |added| :: all[|names| + i] == added[i].name
    ensures forall i, j | 0 <= i < |mirrors| && 0 <= j < |mirrors[i].proxies| :: MergedAt(mirrors, names, all, i, j)
  {
    all, added := AppendNames(mirrors, names);
    AllNamesCount(mirrors);
    forall i, j | 0 <= i < |mirrors| && 0 <= j < |mirrors[i].proxies| ensures MergedAt(mirrors, names, all, i, j) {
      AllNamesAt(mirrors, i, j);
      PrefixedNameIs(mirrors[i], mirrors[i].proxies[j]);
    }
  }

  lemma {:induction false} NamesOfHavePrefix(m: Mirror, count: nat)
    requires count <= |m.proxies|
    ensures forall x | x in NamesOf(m, count) :: HasPrefix(x.name, Prefix(x.server))
  {
    if count > 0 {
      NamesOfHavePrefix(m, count - 1);
    }
  }

  lemma {:induction false} AllNamesHavePrefix(mirrors: seq<Mirror>)
    ensures forall x | x in AllNames(mirrors) :: HasPrefix(x.name, Prefix(x.server))
  {
    if mirrors != [] {
      AllNamesHavePrefix(mirrors[..|mirrors| - 1]);
      var last := mirrors[|mirrors| - 1];
      NamesOfHavePrefix(last, |last.proxies|);
    }
  }

  /** Proxies of different remote servers never share a name. */
  lemma ServersNeverShareNames(mirrors: seq<Mirror>, x: Named, y: Named)
    requires x in AllNames(mirrors) && y in AllNames(mirrors) && x.server != y.server
    ensures x.name != y.name
  {
    AllNamesHavePrefix(mirrors);
    if x.name == y.name {
      PrefixesAreDisjoint(x.name, x.server, y.server);
    }
  }
}
