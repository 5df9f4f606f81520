/**
The Go string functions the port and name handling is written in: strings.TrimSpace, Split,
SplitN(_, _, 2), Contains, HasPrefix and strconv.Atoi with its 64-bit range. Strings are sequences
of Unicode scalars; invalid UTF-8 is not modelled.
*/
module Text {
  import opened Wrappers

  /** unicode.IsSpace, by code point. */
  predicate IsSpace(c: char) {
    var n := c as int;
    if n < 0x1680 then 9 <= n <= 13 || n == 32 || n == 0x85 || n == 0xA0
    else n == 0x1680 || 0x2000 <= n <= 0x200A || 0x2028 <= n <= 0x2029 || n == 0x202F || n == 0x205F || n == 0x3000
  }

  /** strings.TrimSpace. */
  function Trim(s: string): (t: string)
    ensures |t| <= |s|
    ensures Trimmed(t)
    ensures Trimmed(s) ==> t == s
  {
    if s == "" then s
    else if IsSpace(s[0]) then Trim(s[1..])
    else if IsSpace(s[|s| - 1]) then Trim(s[..|s| - 1])
    else s
  }

  predicate Trimmed(s: string) {
    s == "" || (!IsSpace(s[0]) && !IsSpace(s[|s| - 1]))
  }

  /** Trimming only removes white space. */
  lemma {:induction false} TrimKeepsNonSpace(s: string, c: char)
    requires !IsSpace(c)
    ensures c in Trim(s) <==> c in s
  {
    if s != "" {
      if IsSpace(s[0]) {
        TrimKeepsNonSpace(s[1..], c);
        assert s == [s[0]] + s[1..];
      } else if IsSpace(s[|s| - 1]) {
        TrimKeepsNonSpace(s[..|s| - 1], c);
        assert s == s[..|s| - 1] + [s[|s| - 1]];
      }
    }
  }

  lemma {:induction false} TrimDropsFirst(c: char, s: string)
    requires IsSpace(c)
    ensures Trim([c] + s) == Trim(s)
  {
  }

  lemma {:induction false} TrimDropsLast(s: string, c: char)
    requires IsSpace(c)
    ensures Trim(s + [c]) == Trim(s)
    decreases |s|
  {
    var t := s + [c];
    if s == "" {
      assert t[1..] == "";
    } else if IsSpace(s[0]) {
      assert t[1..] == s[1..] + [c];
      TrimDropsLast(s[1..], c);
    } else {
      assert t[..|t| - 1] == s;
    }
  }

  /** The first position of c in s. */
  function IndexOf(s: string, c: char): (i: nat)
    requires c in s
    ensures i < |s| && s[i] == c && c !in s[..i]
  {
    if s[0] == c then 0 else
      assert s == [s[0]] + s[1..];
      var rest := IndexOf(s[1..], c);
      assert s[..rest + 1] == [s[0]] + s[1..][..rest];
      rest + 1
  }

  /** strings.Split with a one-character separator. */
  function Split(s: string, sep: char): (parts: seq<string>)
    ensures |parts| >= 1
    decreases |s|
  {
    if sep in s then
      var i := IndexOf(s, sep);
      [s[..i]] + Split(s[i + 1..], sep)
    else [s]
  }

  lemma {:induction false} SplitParts(s: string, sep: char)
    ensures forall p | p in Split(s, sep) :: sep !in p && |p| <= |s|
    ensures sep in s ==> forall p | p in Split(s, sep) :: |p| < |s|
    ensures sep in s <==> |Split(s, sep)| >= 2
    decreases |s|
  {
    if sep in s {
      SplitParts(s[IndexOf(s, sep) + 1..], sep);
    }
  }

  /** strings.SplitN(s, sep, 2). */
  function SplitOnce(s: string, sep: char): (parts: seq<string>)
    ensures 1 <= |parts| <= 2 && (|parts| == 2 <==> sep in s)
  {
    if sep in s then
      var i := IndexOf(s, sep);
      [s[..i], s[i + 1..]]
    else [s]
  }

  predicate IsDigit(c: char) {
    '0' <= c <= '9'
  }

  predicate AllDigits(s: string) {
    forall i | 0 <= i < |s| :: IsDigit(s[i])
  }

  /** The number a digit string spells. */
  function DigitsValue(s: string): nat
    requires AllDigits(s)
  {
    if s == "" then 0 else 10 * DigitsValue(s[..|s| - 1]) + (s[|s| - 1] as int - '0' as int)
  }

  const MIN_INT64: int := -0x8000_0000_0000_0000
  const MAX_INT64: int := 0x7fff_ffff_ffff_ffff

  /** strconv.Atoi: an optional sign, then digits, within the range of a 64-bit int. */
  function Atoi(s: string): (n: Option<int>)
  {
    var digits := if s != "" && (s[0] == '+' || s[0] == '-') then s[1..] else s;
    if digits == "" || !AllDigits(digits) then None
    else
      var size: int := DigitsValue(digits);
      var value := if s[0] == '-' then -size else size;
      if MIN_INT64 <= value <= MAX_INT64 then Some(value) else None
  }

  /** A dash makes a number non-positive or unreadable, wherever it stands. */
  lemma DashIsNeverPositive(s: string)
    requires '-' in s
    ensures Atoi(s).Some? ==> Atoi(s).value <= 0
  {
  }

  predicate HasPrefix(s: string, prefix: string) {
    prefix <= s
  }

  /** strings.ToLower on ASCII letters; other characters are left alone. */
  function ToLower(s: string): (t: string)
    ensures |t| == |s|
    ensures forall i | 0 <= i < |s| :: t[i] == LowerChar(s[i])
  {
    seq(|s|, i requires 0 <= i < |s| => LowerChar(s[i]))
  }

  function LowerChar(c: char): char {
    if 'A' <= c <= 'Z' then (c as int + 32) as char else c
  }

  function DigitChar(d: nat): char
    requires d < 10
  {
    '0' + d as char
  }

  /** strconv.Itoa of a non-negative number. */
  function Decimal(n: nat): string {
    if n < 10 then [DigitChar(n)] else Decimal(n / 10) + [DigitChar(n % 10)]
  }

  lemma {:induction false} DecimalDigits(n: nat)
    ensures AllDigits(Decimal(n)) && Decimal(n) != "" && DigitsValue(Decimal(n)) == n
  {
    if n >= 10 {
      DecimalDigits(n / 10);
      assert Decimal(n)[..|Decimal(n)| - 1] == Decimal(n / 10);
    } else {
      assert Decimal(n)[..0] == "";
    }
  }

  /** Different numbers are written differently. */
  lemma DecimalIsInjective(m: nat, n: nat)
    requires Decimal(m) == Decimal(n)
    ensures m == n
  {
    DecimalDigits(m);
    DecimalDigits(n);
  }

  lemma AtoiOfDecimal(n: nat)
    requires n <= MAX_INT64
    ensures Atoi(Decimal(n)) == Some(n) && Trimmed(Decimal(n)) && '-' !in Decimal(n) && ',' !in Decimal(n)
  {
    DecimalDigits(n);
    var s := Decimal(n);
    assert IsDigit(s[0]) && IsDigit(s[|s| - 1]);
  }

  /** strings.Trim(s, "[]"). */
  function TrimBrackets(s: string): (t: string)
    ensures |t| <= |s|
  {
    if s == "" then s
    else if s[0] == '[' || s[0] == ']' then TrimBrackets(s[1..])
    else if s[|s| - 1] == '[' || s[|s| - 1] == ']' then TrimBrackets(s[..|s| - 1])
    else s
  }

  predicate IsBracket(c: char) {
    c in "[]"
  }

  /** Exactly the brackets at both ends go. */
  lemma {:induction false} TrimBracketsIs(s: string) returns (i: nat, j: nat)
    ensures i <= j <= |s| && TrimBrackets(s) == s[i..j]
    ensures forall k | 0 <= k < i || j <= k < |s| :: IsBracket(s[k])
    ensures i < j ==> !IsBracket(s[i]) && !IsBracket(s[j - 1])
  {
    if s == "" {
      i, j := 0, 0;
    } else if IsBracket(s[0]) {
      i, j := TrimBracketsIs(s[1..]);
      assert s[1..][i..j] == s[i + 1..j + 1];
      assert forall k | 1 <= k < |s| :: s[k] == s[1..][k - 1];
      i, j := i + 1, j + 1;
    } else if IsBracket(s[|s| - 1]) {
      i, j := TrimBracketsIs(s[..|s| - 1]);
    } else {
      i, j := 0, |s|;
    }
  }

  /** The same for white space. */
  lemma {:induction false} TrimIs(s: string) returns (i: nat, j: nat)
    ensures i <= j <= |s| && Trim(s) == s[i..j]
    ensures forall k | 0 <= k < i || j <= k < |s| :: IsSpace(s[k])
    ensures i < j ==> !IsSpace(s[i]) && !IsSpace(s[j - 1])
  {
    if s == "" {
      i, j := 0, 0;
    } else if IsSpace(s[0]) {
      i, j := TrimIs(s[1..]);
      assert s[1..][i..j] == s[i + 1..j + 1];
      assert forall k | 1 <= k < |s| :: s[k] == s[1..][k - 1];
      i, j := i + 1, j + 1;
    } else if IsSpace(s[|s| - 1]) {
      i, j := TrimIs(s[..|s| - 1]);
    } else {
      i, j := 0, |s|;
    }
  }

  /** A split text is its parts with the separator between them. */
  function Joined(parts: seq<string>, sep: char): string
    requires parts != []
  {
    if |parts| == 1 then parts[0] else parts[0] + [sep] + Joined(parts[1..], sep)
  }

  lemma {:induction false} SplitIs(s: string, sep: char)
    ensures Joined(Split(s, sep), sep) == s
    decreases |s|
  {
    if sep in s {
      var i := IndexOf(s, sep);
      SplitIs(s[i + 1..], sep);
      assert Split(s, sep)[1..] == Split(s[i + 1..], sep);
      assert s == s[..i] + [sep] + s[i + 1..];
    }
  }

  predicate NoBrackets(s: string) {
    '[' !in s && ']' !in s
  }

  /** No capital letter is left, and letters keep their place in the alphabet. */
  lemma ToLowerIs(s: string, i: nat)
    requires i < |s|
    ensures var c := ToLower(s)[i];
            if 'A' <= s[i] <= 'Z' then 'a' <= c <= 'z' && c as int - 'a' as int == s[i] as int - 'A' as int else c == s[i]
  {
  }

  lemma ToLowerTwice(s: string)
    ensures ToLower(ToLower(s)) == ToLower(s)
  {
  }

  /** Lower-casing keeps a text free of surrounding blanks. */
  lemma ToLowerKeepsTrimmed(s: string)
    requires Trimmed(s)
    ensures Trimmed(ToLower(s))
  {
  }
}
