/**
Port specifications such as "443, 8000-8100": several pieces of the panel parse them on their own
(validPort and parsePortRanges in listener/validation.go, isValidPortString in node/validator.go and again
in mihomo/config/generator.go, which has a parsePortRanges too, portRanges in listener/endpoints.go and the
port loop of endpoints in mihomo/listener_runtime.go).
Each is modelled with its own control flow and proved against one reading of the text.
*/
module PortSpec {
  import opened Wrappers
  import opened Text

  datatype Range = Range(lo: int, hi: int)

  predicate ValidRange(r: Range) {
    1 <= r.lo <= r.hi <= 65535
  }

  /** What a part without surrounding blanks means: a port, or two ports joined by a dash. */
  function ReadTrimmed(t: string): Option<Range> {
    if '-' in t then
      var bounds := SplitOnce(t, '-');
      Between(Atoi(Trim(bounds[0])), Atoi(Trim(bounds[1])))
    else Between(Atoi(t), Atoi(t))
  }

  function Between(lo: Option<int>, hi: Option<int>): Option<Range> {
    if lo.Some? && hi.Some? && ValidRange(Range(lo.value, hi.value)) then Some(Range(lo.value, hi.value)) else None
  }

  /** What one comma-separated part means, blanks around it ignored. */
  function ReadPart(part: string): Option<Range> {
    ReadTrimmed(Trim(part))
  }

  /** The ranges of a list of parts, None as soon as one of them is unreadable. */
  function ReadParts(parts: seq<string>): Option<seq<Range>> {
    if parts == [] then Some([]) else Prepend(ReadPart(parts[0]), ReadParts(parts[1..]))
  }

  function Prepend(first: Option<Range>, rest: Option<seq<Range>>): Option<seq<Range>> {
    if first.Some? && rest.Some? then Some([first.value] + rest.value) else None
  }

  /** The meaning of a whole specification; None when it is not one. */
  function Read(spec: string): Option<seq<Range>> {
    ReadParts(Split(spec, ','))
  }

  lemma {:induction false} ReadRangesAreValid(parts: seq<string>)
    requires ReadParts(parts).Some?
    ensures forall i | 0 <= i < |ReadParts(parts).value| :: ValidRange(ReadParts(parts).value[i])
  {
    if parts != [] {
      ReadRangesAreValid(parts[1..]);
    }
  }

  /** The specification contains this port. */
  predicate Denotes(spec: string, port: int) {
    Read(spec).Some? && InRanges(Read(spec).value, port)
  }

  predicate InRanges(ranges: seq<Range>, port: int) {
    exists i | 0 <= i < |ranges| :: ranges[i].lo <= port <= ranges[i].hi
  }

  // ---------------------------------------------------------------- blanks around the whole text

  lemma SplitWithLeading(c: char, s: string)
    requires c != ','
    ensures Split([c] + s, ',') == [[c] + Split(s, ',')[0]] + Split(s, ',')[1..]
  {
    var t := [c] + s;
    if ',' in s {
      var i := IndexOf(s, ',');
      assert t[..i + 1] == [c] + s[..i];
      FirstIndex(t, ',', i + 1);
      assert t[i + 2..] == s[i + 1..];
      assert Split(t, ',') == [t[..i + 1]] + Split(s[i + 1..], ',');
    } else {
      assert ',' !in t;
    }
  }

  lemma FirstIndex(s: string, c: char, i: nat)
    requires i < |s| && s[i] == c && c !in s[..i]
    ensures IndexOf(s, c) == i
  {
  }

  lemma {:induction false} SplitWithTrailing(s: string, c: char)
    requires c != ','
    ensures var parts := Split(s, ',');
            Split(s + [c], ',') == parts[..|parts| - 1] + [parts[|parts| - 1] + [c]]
    decreases |s|
  {
    var t := s + [c];
    if ',' in s {
      var i := IndexOf(s, ',');
      assert t[..i] == s[..i];
      FirstIndex(t, ',', i);
      assert t[i + 1..] == s[i + 1..] + [c];
      SplitWithTrailing(s[i + 1..], c);
    } else {
      assert ',' !in t;
    }
  }

  /** Reading ignores blanks around the whole text, because it ignores them around every part. */
  lemma {:induction false} ReadIgnoresTrim(spec: string)
    ensures Read(Trim(spec)) == Read(spec)
    decreases |spec|
  {
    if Trimmed(spec) {
    } else if IsSpace(spec[0]) {
      var c, s := spec[0], spec[1..];
      assert spec == [c] + s;
      ReadIgnoresTrim(s);
      LeadingBlank(c, s);
      assert Trim(spec) == Trim(s) by { TrimDropsFirst(c, s); }
    } else {
      var s, c := spec[..|spec| - 1], spec[|spec| - 1];
      assert spec == s + [c];
      ReadIgnoresTrim(s);
      TrailingBlank(s, c);
      assert Trim(spec) == Trim(s) by { TrimDropsLast(s, c); }
    }
  }

  lemma LeadingBlank(c: char, s: string)
    requires IsSpace(c)
    ensures Read([c] + s) == Read(s)
  {
    SplitWithLeading(c, s);
    TrimDropsFirst(c, Split(s, ',')[0]);
  }

  lemma TrailingBlank(s: string, c: char)
    requires IsSpace(c)
    ensures Read(s + [c]) == Read(s)
  {
    SplitWithTrailing(s, c);
    BlankAfterLast(Split(s, ','), c);
  }

  lemma BlankAfterLast(parts: seq<string>, c: char)
    requires |parts| > 0 && IsSpace(c)
    ensures ReadParts(parts[..|parts| - 1] + [parts[|parts| - 1] + [c]]) == ReadParts(parts)
  {
    var front, last := parts[..|parts| - 1], parts[|parts| - 1];
    assert parts == front + [last];
    assert ReadPart(last + [c]) == ReadPart(last) by { TrimDropsLast(last, c); }
    ReadPartsAppend(front, last + [c], last);
  }

  lemma {:induction false} ReadPartsAppend(parts: seq<string>, a: string, b: string)
    requires ReadPart(a) == ReadPart(b)
    ensures ReadParts(parts + [a]) == ReadParts(parts + [b])
  {
    if parts != [] {
      assert (parts + [a])[1..] == parts[1..] + [a] && (parts + [b])[1..] == parts[1..] + [b];
      ReadPartsAppend(parts[1..], a, b);
    }
  }

  /** A part with two dashes is no range: its second half is never a positive number. */
  lemma TwoDashesAreRefused(part: string)
    requires |Split(Trim(part), '-')| > 2
    ensures ReadPart(part).None?
  {
    var t := Trim(part);
    SplitParts(t, '-');
    var i := IndexOf(t, '-');
    SplitParts(t[i + 1..], '-');
    assert SplitOnce(t, '-')[1] == t[i + 1..] && '-' in t[i + 1..];
    TrimKeepsNonSpace(t[i + 1..], '-');
    DashIsNeverPositive(Trim(t[i + 1..]));
  }

  // ---------------------------------------------------------------- the parsers

  /** The ranges found so far, followed by those of the parts from k on. */
  function Continue(out: seq<Range>, parts: seq<string>, k: nat): Option<seq<Range>>
    requires k <= |parts|
  {
    var rest := ReadParts(parts[k..]);
    if rest.Some? then Some(out + rest.value) else None
  }

  lemma NoPartYet(parts: seq<string>)
    ensures Continue([], parts, 0) == ReadParts(parts)
  {
    assert parts[0..] == parts;
    if ReadParts(parts).Some? {
      assert [] + ReadParts(parts).value == ReadParts(parts).value;
    }
  }

  lemma NextPart(out: seq<Range>, parts: seq<string>, k: nat)
    requires k < |parts|
    ensures ReadParts(parts[k..]).Some? <==> ReadPart(parts[k]).Some? && ReadParts(parts[k + 1..]).Some?
    ensures Continue(out, parts, k) ==
              if ReadPart(parts[k]).Some? then Continue(out + [ReadPart(parts[k]).value], parts, k + 1) else None
  {
    assert parts[k..][1..] == parts[k + 1..];
    if ReadParts(parts[k..]).Some? {
      var rest := ReadParts(parts[k + 1..]).value;
      assert out + ([ReadPart(parts[k]).value] + rest) == out + [ReadPart(parts[k]).value] + rest;
    }
  }

  /** The loop body of validPort. */
  method ValidPart(raw: string) returns (ok: bool)
    ensures ok <==> ReadPart(raw).Some?
  {
    var part := Trim(raw);
    if part == "" {
      return false;
    }
    if '-' in part {
      var r := SplitOnce(part, '-');
      var a, b := Atoi(Trim(r[0])), Atoi(Trim(r[1]));
      return !(a.None? || b.None? || a.value < 1 || b.value > 65535 || a.value > b.value);
    }
    var p := Atoi(part);
    return !(p.None? || p.value < 1 || p.value > 65535);
  }

  /** listener.validPort. */
  method ValidPort(raw: string) returns (ok: bool)
    ensures ok <==> Read(raw).Some?
  {
    ReadIgnoresTrim(raw);
    var text := Trim(raw);
    if text == "" {
      return false;
    }
    var parts := Split(text, ',');
    NoPartYet(parts);
    for k := 0 to |parts|
      invariant ReadParts(parts).Some? <==> ReadParts(parts[k..]).Some?
    {
      NextPart([], parts, k);
      var good := ValidPart(parts[k]);
      if !good {
        return false;
      }
    }
    return true;
  }

  /** node.isValidPortString, which recurses into the parts of a list. */
  method IsValidPortString(raw: string) returns (ok: bool)
    ensures ok <==> Read(raw).Some?
    decreases |raw|
  {
    ReadIgnoresTrim(raw);
    var s := Trim(raw);
    if s == "" {
      return false;
    }
    if ',' in s {
      var parts := Split(s, ',');
      for k := 0 to |parts|
        invariant ReadParts(parts).Some? <==> ReadParts(parts[k..]).Some?
      {
        NextPart([], parts, k);
        SplitParts(s, ',');
        assert parts[k] in parts;
        SinglePart(parts[k]);
        var good := IsValidPortString(Trim(parts[k]));
        if !good {
          return false;
        }
      }
      return true;
    }
    SinglePart(s);
    if '-' in s {
      var parts := SplitOnce(s, '-');
      var start, end := Atoi(Trim(parts[0])), Atoi(Trim(parts[1]));
      assert ReadPart(s) == Between(start, end);
      return !(start.None? || end.None? || start.value < 1 || end.value > 65535 || start.value > end.value);
    }
    var port := Atoi(s);
    assert ReadPart(s) == Between(port, port);
    return !(port.None? || port.value < 1 || port.value > 65535);
  }

  /** A text without commas is its own only part, trimmed or not. */
  lemma SinglePart(part: string)
    requires ',' !in part
    ensures Read(Trim(part)).Some? <==> ReadPart(part).Some?
  {
    ReadIgnoresTrim(part);
    assert Split(part, ',') == [part];
    assert ReadParts([part]) == Prepend(ReadPart(part), Some([]));
  }

  /** listener.portRanges, which splits at every dash. */
  method PortRanges(value: string) returns (out: seq<Range>, ok: bool)
    ensures ok <==> Read(value).Some?
    ensures ok ==> out == Read(value).value
  {
    var parts := Split(value, ',');
    out := [];
    NoPartYet(parts);
    for k := 0 to |parts|
      invariant ReadParts(parts) == Continue(out, parts, k)
    {
      NextPart(out, parts, k);
      var part := Trim(parts[k]);
      if part == "" {
        return [], false;
      }
      var bounds := Split(part, '-');
      if |bounds| > 2 {
        TwoDashesAreRefused(parts[k]);
        return [], false;
      }
      assert bounds == SplitOnce(part, '-') by { SplitOfFew(part); }
      var start := Atoi(Trim(bounds[0]));
      if start.None? || start.value < 1 || start.value > 65535 {
        return [], false;
      }
      var end := start;
      if |bounds| == 2 {
        end := Atoi(Trim(bounds[1]));
        if end.None? || end.value < start.value || end.value > 65535 {
          return [], false;
        }
      }
      out := out + [Range(start.value, end.value)];
    }
    return out, true;
  }

  lemma SplitOfFew(s: string)
    requires |Split(s, '-')| <= 2
    ensures Split(s, '-') == SplitOnce(s, '-')
  {
  }

  /** The loop body of both parsePortRanges: what it appends, if anything. */
  method ParsePart(raw: string) returns (found: Option<Range>)
    ensures ReadPart(raw).Some? ==> found == ReadPart(raw)
  {
    var part := Trim(raw);
    if part == "" {
      return None;
    }
    if '-' in part {
      var p := SplitOnce(part, '-');
      var a, b := Atoi(Trim(p[0])), Atoi(Trim(p[1]));
      return if a.Some? && b.Some? then Some(Range(a.value, b.value)) else None;
    }
    var p := Atoi(part);
    return if p.Some? then Some(Range(p.value, p.value)) else None;
  }

  /** config.parsePortRanges, which skips what it cannot read and checks no bounds. */
  method ConfigPortRanges(raw: string) returns (out: seq<Range>)
    ensures Read(raw).Some? ==> out == Read(raw).value
  {
    var parts := Split(raw, ',');
    out := [];
    NoPartYet(parts);
    for k := 0 to |parts|
      invariant ReadParts(parts).Some? ==> ReadParts(parts) == Continue(out, parts, k)
    {
      NextPart(out, parts, k);
      var found := ParsePart(parts[k]);
      if found.Some? {
        out := out + [found.value];
      }
    }
  }

  /** listener.parsePortRanges: the same on the trimmed text. */
  method ParsePortRanges(raw: string) returns (result: seq<Range>)
    ensures Read(raw).Some? ==> result == Read(raw).value
  {
    ReadIgnoresTrim(raw);
    result := ConfigPortRanges(Trim(raw));
  }

  predicate RangesMeet(x: Range, y: Range) {
    x.lo <= y.hi && y.lo <= x.hi
  }

  ghost predicate SharePort(a: string, b: string) {
    exists p: int :: Denotes(a, p) && Denotes(b, p)
  }

  ghost predicate SomeMeet(ra: seq<Range>, rb: seq<Range>) {
    exists i, j | 0 <= i < |ra| && 0 <= j < |rb| :: RangesMeet(ra[i], rb[j])
  }

  /** Two lists of proper ranges meet somewhere exactly if they contain a common port. */
  lemma MeetingRangesShare(ra: seq<Range>, rb: seq<Range>)
    requires forall i | 0 <= i < |ra| :: ValidRange(ra[i])
    requires forall i | 0 <= i < |rb| :: ValidRange(rb[i])
    ensures SomeMeet(ra, rb) <==> exists p: int :: InRanges(ra, p) && InRanges(rb, p)
  {
    if SomeMeet(ra, rb) {
      var i, j :| 0 <= i < |ra| && 0 <= j < |rb| && RangesMeet(ra[i], rb[j]);
      var p := if ra[i].lo < rb[j].lo then rb[j].lo else ra[i].lo;
      assert InRanges(ra, p) && InRanges(rb, p);
    }
    if p: int :| InRanges(ra, p) && InRanges(rb, p) {
      var i :| 0 <= i < |ra| && ra[i].lo <= p <= ra[i].hi;
      var j :| 0 <= j < |rb| && rb[j].lo <= p <= rb[j].hi;
      assert RangesMeet(ra[i], rb[j]);
    }
  }

  lemma MeetingRangesSharePort(a: string, b: string)
    requires Read(a).Some? && Read(b).Some?
    ensures SomeMeet(Read(a).value, Read(b).value) <==> SharePort(a, b)
  {
    ReadRangesAreValid(Split(a, ','));
    ReadRangesAreValid(Split(b, ','));
    MeetingRangesShare(Read(a).value, Read(b).value);
    if p: int :| InRanges(Read(a).value, p) && InRanges(Read(b).value, p) {
      assert Denotes(a, p) && Denotes(b, p);
    }
  }

  /** The nested loops both overlap tests run over their parsed ranges. */
  method AnyMeet(ra: seq<Range>, rb: seq<Range>) returns (found: bool)
    ensures found <==> SomeMeet(ra, rb)
  {
    for k := 0 to |ra|
      invariant forall i, j | 0 <= i < k && 0 <= j < |rb| :: !RangesMeet(ra[i], rb[j])
    {
      for l := 0 to |rb|
        invariant forall j | 0 <= j < l :: !RangesMeet(ra[k], rb[j])
      {
        if ra[k].lo <= rb[l].hi && rb[l].lo <= ra[k].hi {
          assert RangesMeet(ra[k], rb[l]);
          return true;
        }
      }
    }
    return false;
  }

  /** listener.portsOverlap: false unless both texts are specifications that share a port. */
  method PortsOverlap(a: string, b: string) returns (overlap: bool)
    ensures overlap <==> SharePort(a, b)
  {
    var ra, oka := PortRanges(a);
    var rb, okb := PortRanges(b);
    if !oka || !okb {
      return false;
    }
    overlap := AnyMeet(ra, rb);
    MeetingRangesSharePort(a, b);
  }

  /** listener.PortRangesOverlap agrees with it wherever both texts are specifications. */
  method PortRangesOverlap(a: string, b: string) returns (overlap: bool)
    ensures Read(a).Some? && Read(b).Some? ==> (overlap <==> SharePort(a, b))
  {
    var ra := ParsePortRanges(a);
    var rb := ParsePortRanges(b);
    overlap := AnyMeet(ra, rb);
    if Read(a).Some? && Read(b).Some? {
      MeetingRangesSharePort(a, b);
    }
  }

  /** config.portsOverlap does too. */
  method ConfigPortsOverlap(a: string, b: string) returns (overlap: bool)
    ensures Read(a).Some? && Read(b).Some? ==> (overlap <==> SharePort(a, b))
  {
    var ra := ConfigPortRanges(a);
    var rb := ConfigPortRanges(b);
    overlap := AnyMeet(ra, rb);
    if Read(a).Some? && Read(b).Some? {
      MeetingRangesSharePort(a, b);
    }
  }

  /** A single port written in decimal is a specification of exactly that port. */
  lemma DecimalIsSpec(port: nat)
    requires 1 <= port <= 65535
    ensures Read(Decimal(port)) == Some([Range(port, port)])
  {
    AtoiOfDecimal(port);
    var s := Decimal(port);
    assert Split(s, ',') == [s];
    assert ReadPart(s) == Some(Range(port, port));
    assert [s][1..] == [] && ReadParts([s]) == Prepend(ReadPart(s), Some([]));
    assert [Range(port, port)] + [] == [Range(port, port)];
  }

  /** It overlaps another specification exactly if that one contains the port. */
  lemma SinglePortOverlap(port: nat, spec: string)
    requires 1 <= port <= 65535
    ensures SharePort(Decimal(port), spec) <==> Denotes(spec, port)
  {
    DecimalIsSpec(port);
    var one := [Range(port, port)];
    assert one[0].lo <= port <= one[0].hi;
    assert Denotes(Decimal(port), port);
  }
}
