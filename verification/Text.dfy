/** The parts of Go's `strings` and `strconv` the engine relies on. Characters are the code points of valid UTF-8
    text; all separators are ASCII, so they split its bytes where they split its code points. */
module Text {
  import opened Results

  // ---- integers ----

  /** Go's `int` on a 64-bit platform. */
  type Int64 = i: int | -0x8000_0000_0000_0000 <= i < 0x8000_0000_0000_0000

  predicate IsDigit(c: char) {
    '0' <= c <= '9'
  }

  function Digit(d: nat): (c: char)
    requires d < 10
    ensures IsDigit(c) && DigitValue(c) == d
  {
    '0' + d as char
  }

  function DigitValue(c: char): nat
    requires IsDigit(c)
  {
    c as int - '0' as int
  }

  function NatToString(n: nat): string {
    if n < 10 then [Digit(n)] else NatToString(n / 10) + [Digit(n % 10)]
  }

  function Itoa(n: int): string {
    if n < 0 then "-" + NatToString(-n) else NatToString(n)
  }

  function ParseDigits(s: string): Option<nat> {
    if s == "" || !IsDigit(s[|s| - 1]) then None
    else if |s| == 1 then Some(DigitValue(s[0]))
    else
      match ParseDigits(s[..|s| - 1])
      case None => None
      case Some(n) => Some(10 * n + DigitValue(s[|s| - 1]))
  }

  /** `strconv.Atoi`: an optional sign, at least one digit, and a value that fits. */
  function Atoi(s: string): Option<Int64> {
    var negative := s != "" && s[0] == '-';
    var signed := s != "" && (s[0] == '-' || s[0] == '+');
    match ParseDigits(if signed then s[1..] else s)
    case None => None
    case Some(n) =>
      var v := if negative then 0 - n else n;
      if -0x8000_0000_0000_0000 <= v < 0x8000_0000_0000_0000 then Some(v) else None
  }

  lemma {:induction false} ParsePrintedDigits(n: nat)
    ensures ParseDigits(NatToString(n)) == Some(n)
    ensures NatToString(n) != "" && forall i :: 0 <= i < |NatToString(n)| ==> IsDigit(NatToString(n)[i])
  {
    if n >= 10 {
      ParsePrintedDigits(n / 10);
      assert NatToString(n)[..|NatToString(n)| - 1] == NatToString(n / 10);
    }
  }

  predicate AllDigits(s: string) {
    s != "" && forall i :: 0 <= i < |s| ==> '0' <= s[i] <= '9'
  }

  /** Exactly the non-empty runs of digits are numbers. */
  lemma {:induction false} DigitsAreNumbers(s: string)
    ensures ParseDigits(s).Some? <==> AllDigits(s)
  {
    if |s| > 1 {
      var past := s[..|s| - 1];
      DigitsAreNumbers(past);
      if AllDigits(past) && IsDigit(s[|s| - 1]) {
        assert forall i :: 0 <= i < |s| - 1 ==> s[i] == past[i];
      }
      if AllDigits(s) { assert AllDigits(past); }
    }
  }

  /** Such a run is the printed number behind some zeros. */
  lemma {:induction false} NumberOfDigits(s: string) returns (zeros: string)
    requires ParseDigits(s).Some?
    ensures s == zeros + NatToString(ParseDigits(s).value) && forall c :: c in zeros ==> c == '0'
  {
    hide NatToString, Digit;
    zeros := "";
    var d := DigitValue(s[|s| - 1]);
    if |s| == 1 {
      OneDigit(d);
    } else {
      var past := s[..|s| - 1];
      zeros := NumberOfDigits(past);
      var n := ParseDigits(past).value;
      assert s == past + [s[|s| - 1]];
      OneDigit(d);
      OneDigit(0);
      if n == 0 {
        zeros := zeros + "0";
      } else {
        PrintTenfold(n, d);
        assert s == zeros + (NatToString(n) + [Digit(d)]);
      }
    }
  }

  lemma OneDigit(d: nat)
    requires d < 10
    ensures NatToString(d) == [Digit(d)] && DigitValue(Digit(d)) == d && Digit(0) == '0'
    ensures forall c :: IsDigit(c) && DigitValue(c) == d ==> c == Digit(d)
  {
  }

  lemma PrintTenfold(n: nat, d: nat)
    requires n > 0 && d < 10
    ensures NatToString(10 * n + d) == NatToString(n) + [Digit(d)]
  {
    assert (10 * n + d) / 10 == n && (10 * n + d) % 10 == d;
  }

  /** A text is a number exactly when it is digits behind at most one sign and fits; then it is that number. */
  lemma AtoiIff(s: string)
    ensures var signed := s != "" && s[0] in {'+', '-'}; var digits := if signed then s[1..] else s;
            && (ParseDigits(digits).Some? <==> AllDigits(digits)) && (Atoi(s).Some? ==> AllDigits(digits))
            && (ParseDigits(digits).Some? ==>
                  s != "" && var n := ParseDigits(digits).value; var v := if s[0] == '-' then 0 - n else n;
                  Atoi(s) == if -0x8000_0000_0000_0000 <= v < 0x8000_0000_0000_0000 then Some(v) else None)
  {
    hide ParseDigits;
    DigitsAreNumbers(if s != "" && s[0] in {'+', '-'} then s[1..] else s);
  }

  lemma ItoaSign(n: int)
    ensures Itoa(n) != "" && (Itoa(n)[0] == '-' <==> n < 0) && Itoa(n)[0] != '+'
  {
    ParsePrintedDigits(if n < 0 then 0 - n else n);
  }

  /** `Atoi` undoes `Itoa`. */
  lemma AtoiItoa(n: Int64)
    ensures Atoi(Itoa(n)) == Some(n)
  {
    hide NatToString, ParseDigits;
    ItoaSign(n);
    ParsePrintedDigits(if n < 0 then 0 - n else n);
    if n < 0 {
      assert Itoa(n)[1..] == NatToString(0 - n);
    }
  }

  lemma ItoaCharacters(n: int, i: nat)
    requires i < |Itoa(n)|
    ensures IsDigit(Itoa(n)[i]) || Itoa(n)[i] == '-'
  {
    ParsePrintedDigits(if n < 0 then 0 - n else n);
  }

  lemma ItoaInjective(m: int, n: int)
    requires Itoa(m) == Itoa(n)
    ensures m == n
  {
    hide NatToString, ParseDigits;
    ItoaSign(m);
    ItoaSign(n);
    ParsePrintedDigits(if m < 0 then 0 - m else m);
    ParsePrintedDigits(if n < 0 then 0 - n else n);
    if m < 0 {
      assert Itoa(m)[1..] == Itoa(n)[1..];
    }
  }

  // ---- splitting and joining ----

  /** `strings.Split` with a separator of one character. */
  function Split(s: string, sep: char): (parts: seq<string>)
    ensures parts != []
  {
    if s == "" then [""]
    else if s[0] == sep then [""] + Split(s[1..], sep)
    else
      var rest := Split(s[1..], sep);
      [[s[0]] + rest[0]] + rest[1..]
  }

  /** `strings.Join` with a separator of one character. */
  function Join(parts: seq<string>, sep: char): string {
    if parts == [] then ""
    else if |parts| == 1 then parts[0]
    else parts[0] + [sep] + Join(parts[1..], sep)
  }

  lemma {:induction false} SplitWhole(s: string, sep: char)
    requires sep !in s
    ensures Split(s, sep) == [s]
  {
    if s != "" {
      SplitWhole(s[1..], sep);
      assert [s[0]] + s[1..] == s;
    }
  }

  /** Splitting a text at its first separator. */
  lemma {:induction false} SplitFirst(a: string, sep: char, b: string)
    requires sep !in a
    ensures Split(a + [sep] + b, sep) == [a] + Split(b, sep)
  {
    var s := a + [sep] + b;
    if a == "" {
      assert s[1..] == b;
    } else {
      assert s[1..] == a[1..] + [sep] + b;
      SplitFirst(a[1..], sep, b);
      assert [a[0]] + a[1..] == a;
    }
  }

  lemma {:induction false} SplitPartsHaveNoSeparator(s: string, sep: char)
    ensures forall i :: 0 <= i < |Split(s, sep)| ==> sep !in Split(s, sep)[i]
  {
    if s != "" {
      SplitPartsHaveNoSeparator(s[1..], sep);
    }
  }

  /** `Join` undoes `Split`. */
  lemma {:induction false} JoinSplit(s: string, sep: char)
    ensures Join(Split(s, sep), sep) == s
  {
    if s != "" {
      var rest := Split(s[1..], sep);
      JoinSplit(s[1..], sep);
      assert [s[0]] + s[1..] == s;
      if s[0] == sep {
        assert ([""] + rest)[1..] == rest;
      } else if |rest| > 1 {
        assert ([[s[0]] + rest[0]] + rest[1..])[1..] == rest[1..];
        assert Join(Split(s, sep), sep) == [s[0]] + (rest[0] + [sep] + Join(rest[1..], sep));
      }
    }
  }

  /** `Split` undoes `Join`, when no part contains the separator. */
  lemma {:induction false} SplitJoin(parts: seq<string>, sep: char)
    requires parts != [] && forall i :: 0 <= i < |parts| ==> sep !in parts[i]
    ensures Split(Join(parts, sep), sep) == parts
  {
    if |parts| == 1 {
      SplitWhole(parts[0], sep);
    } else {
      SplitJoin(parts[1..], sep);
      SplitFirst(parts[0], sep, Join(parts[1..], sep));
      assert parts == [parts[0]] + parts[1..];
    }
  }

  /** A text with a separator splits in two at the first one. */
  lemma {:induction false} FirstSeparator(s: string, sep: char) returns (a: string, b: string)
    requires sep in s
    ensures sep !in a && s == a + [sep] + b
  {
    if s[0] == sep {
      a, b := "", s[1..];
    } else {
      a, b := FirstSeparator(s[1..], sep);
      a := [s[0]] + a;
    }
  }

  lemma NoLaterSeparator(a: string, x: string, sep: char)
    requires sep !in x
    ensures forall p :: |a| < p < |a + [sep] + x| ==> (a + [sep] + x)[p] != sep
    ensures (a + [sep] + x)[|a|] == sep
  {
    forall p | |a| < p < |a + [sep] + x|
      ensures (a + [sep] + x)[p] != sep
    {
      assert (a + [sep] + x)[p] == x[p - |a| - 1];
    }
  }

  /** What follows the last separator determines both halves. */
  lemma LastSeparatorDetermines(a: string, x: string, b: string, y: string, sep: char)
    requires a + [sep] + x == b + [sep] + y
    requires sep !in x && sep !in y
    ensures a == b && x == y
  {
    var s := a + [sep] + x;
    NoLaterSeparator(a, x, sep);
    NoLaterSeparator(b, y, sep);
    assert |a| == |b|;
    assert s[..|a|] == a == b;
    assert s[|a| + 1..] == x == y;
  }

  // ---- prefixes, suffixes and trimming ----

  predicate HasPrefix(s: string, prefix: string) {
    |prefix| <= |s| && s[..|prefix|] == prefix
  }

  function TrimPrefix(s: string, prefix: string): string {
    if HasPrefix(s, prefix) then s[|prefix|..] else s
  }

  predicate HasSuffix(s: string, suffix: string) {
    |suffix| <= |s| && s[|s| - |suffix|..] == suffix
  }

  /** `strings.TrimRight` with a cut set of one character. */
  function TrimRight(s: string, c: char): string {
    if s != "" && s[|s| - 1] == c then TrimRight(s[..|s| - 1], c) else s
  }

  /** `unicode.IsSpace`. */
  predicate IsSpace(c: char) {
    || '\U{0009}' <= c <= '\U{000D}'
    || c == ' ' || c == '\U{0085}' || c == '\U{00A0}' || c == '\U{1680}'
    || '\U{2000}' <= c <= '\U{200A}'
    || c == '\U{2028}' || c == '\U{2029}' || c == '\U{202F}' || c == '\U{205F}' || c == '\U{3000}'
  }

  function TrimLeftSpace(s: string): string {
    if s != "" && IsSpace(s[0]) then TrimLeftSpace(s[1..]) else s
  }

  function TrimRightSpace(s: string): string {
    if s != "" && IsSpace(s[|s| - 1]) then TrimRightSpace(s[..|s| - 1]) else s
  }

  function TrimSpace(s: string): string {
    TrimRightSpace(TrimLeftSpace(s))
  }

  /** Exactly the repetitions of `c` at the end are cut off. */
  lemma {:induction false} TrimRightCuts(s: string, c: char) returns (n: nat)
    ensures n <= |s| && TrimRight(s, c) == s[..n]
    ensures (forall k :: n <= k < |s| ==> s[k] == c) && (n > 0 ==> s[n - 1] != c)
  {
    if s != "" && s[|s| - 1] == c {
      n := TrimRightCuts(s[..|s| - 1], c);
    } else {
      n := |s|;
      assert s[..n] == s;
    }
  }

  /** Spaces are no letters, digits or signs, and the usual ones are spaces. */
  lemma UsualSpaces(c: char)
    ensures c in {' ', '\t', '\n', '\r'} ==> IsSpace(c)
    ensures '!' <= c <= '~' ==> !IsSpace(c)
  {
  }

  lemma {:induction false} TrimLeftSpaceCuts(s: string) returns (a: nat)
    ensures a <= |s| && TrimLeftSpace(s) == s[a..]
    ensures (forall k :: 0 <= k < a ==> IsSpace(s[k])) && (a < |s| ==> !IsSpace(s[a]))
  {
    hide IsSpace;
    a := 0;
    if s != "" && IsSpace(s[0]) {
      a := TrimLeftSpaceCuts(s[1..]);
      a := a + 1;
    }
  }

  lemma {:induction false} TrimRightSpaceCuts(s: string) returns (b: nat)
    ensures b <= |s| && TrimRightSpace(s) == s[..b]
    ensures (forall k :: b <= k < |s| ==> IsSpace(s[k])) && (b > 0 ==> !IsSpace(s[b - 1]))
  {
    hide IsSpace;
    if s != "" && IsSpace(s[|s| - 1]) {
      b := TrimRightSpaceCuts(s[..|s| - 1]);
    } else {
      b := |s|;
      assert s[..b] == s;
    }
  }

  /** What is trimmed is a slice of the text; nothing but spaces was cut off, no letter, digit or sign among them; and
      no blank, tab or line end is left at either end. */
  lemma TrimSpaceCuts(s: string) returns (a: nat, b: nat)
    ensures a <= b <= |s| && TrimSpace(s) == s[a..b]
    ensures forall k :: 0 <= k < a || b <= k < |s| ==> IsSpace(s[k]) && !('!' <= s[k] <= '~')
    ensures a < b ==> s[a] !in {' ', '\t', '\n', '\r'} && s[b - 1] !in {' ', '\t', '\n', '\r'}
  {
    hide IsSpace, TrimLeftSpace, TrimRightSpace;
    a := TrimLeftSpaceCuts(s);
    var n := TrimRightSpaceCuts(s[a..]);
    b := a + n;
    forall k | 0 <= k < a || b <= k < |s| ensures IsSpace(s[k]) && !('!' <= s[k] <= '~') {
      UsualSpaces(s[k]);
      if k >= b { assert s[k] == s[a..][k - a]; }
    }
    if a < b {
      UsualSpaces(s[a]);
      UsualSpaces(s[b - 1]);
      assert s[b - 1] == s[a..][n - 1];
    }
  }
}
