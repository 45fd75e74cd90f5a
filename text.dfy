/**
 * The string primitives that the browser script and the flight service rely
 * on: decimal printing, `split`/`join`, `trim`/`strip`, `padStart(2, "0")`,
 * ASCII case mapping and single-character replacement.
 */
module Text {

  // ---------------------------------------------------------------------------
  // Digits and decimal text
  // ---------------------------------------------------------------------------

  /** An ASCII decimal digit: what `\d` matches in a JavaScript pattern. */
  predicate IsDigit(c: char) {
    '0' <= c <= '9'
  }

  predicate AllDigits(s: string) {
    forall i :: 0 <= i < |s| ==> IsDigit(s[i])
  }

  function DigitChar(d: nat): (c: char)
    requires d < 10
    ensures IsDigit(c) && c as int - '0' as int == d
  {
    (d + '0' as int) as char
  }

  function DigitValue(c: char): nat
    requires IsDigit(c)
  {
    c as int - '0' as int
  }

  /** Decimal text of `n`, as `String(n)` or a template literal writes it. */
  function NatToString(n: nat): (s: string)
    ensures |s| >= 1 && AllDigits(s)
    ensures s[0] == '0' <==> n == 0
    decreases n
  {
    if n < 10 then [DigitChar(n)] else NatToString(n / 10) + [DigitChar(n % 10)]
  }

  /** The number a string of decimal digits denotes. */
  function DigitsValue(s: string): nat
    requires AllDigits(s)
    decreases |s|
  {
    if s == [] then 0 else DigitsValue(s[..|s| - 1]) * 10 + DigitValue(s[|s| - 1])
  }

  /** Decimal text of an integer: a minus sign before the magnitude when negative. */
  function IntToString(n: int): (s: string)
    ensures |s| >= 1
    ensures s[0] == '-' <==> n < 0
  {
    if n < 0 then "-" + NatToString(-n) else NatToString(n)
  }

  /** Reading the printed number back gives the number. */
  lemma {:induction false} NatToStringRoundTrip(n: nat)
    ensures DigitsValue(NatToString(n)) == n
    decreases n
  {
    var s := NatToString(n);
    if n >= 10 {
      NatToStringRoundTrip(n / 10);
      assert s[..|s| - 1] == NatToString(n / 10);
    }
  }

  lemma NatToStringInjective(a: nat, b: nat)
    ensures NatToString(a) == NatToString(b) ==> a == b
  {
    NatToStringRoundTrip(a);
    NatToStringRoundTrip(b);
  }

  lemma IntToStringInjective(a: int, b: int)
    ensures IntToString(a) == IntToString(b) ==> a == b
  {
    if IntToString(a) == IntToString(b) && a < 0 && b < 0 {
      assert NatToString(-a) == IntToString(a)[1..];
      assert NatToString(-b) == IntToString(b)[1..];
    }
    NatToStringInjective(if a < 0 then -a else a, if b < 0 then -b else b);
  }

  /** The widths of the numbers a date picker prints: 1 or 2 digits for a day or month, 4 for a year. */
  lemma NatToStringWidth(n: nat)
    ensures n < 10 ==> NatToString(n) == [DigitChar(n)]
    ensures 10 <= n < 100 ==> NatToString(n) == [DigitChar(n / 10), DigitChar(n % 10)]
    ensures 1000 <= n < 10000 ==>
      NatToString(n) == [DigitChar(n / 1000), DigitChar(n / 100 % 10), DigitChar(n / 10 % 10), DigitChar(n % 10)]
  {
    if 1000 <= n < 10000 {
      var q := n / 10;
      assert q / 10 == n / 100 && q % 10 == n / 10 % 10;
      assert q / 100 == n / 1000 && q / 10 % 10 == n / 100 % 10;
      assert NatToString(q / 10) == NatToString(q / 100) + [DigitChar(q / 10 % 10)];
    }
  }

  // ---------------------------------------------------------------------------
  // Whitespace and trimming
  // ---------------------------------------------------------------------------

  /** Whose notion of whitespace: JavaScript's `String.prototype.trim` or Python's `str.strip()`. */
  datatype Runtime = Js | Py

  /**
   * JavaScript: WhiteSpace and LineTerminator code points. Python: characters
   * for which `str.isspace()` holds (which adds the separators U+001C..U+001F
   * and U+0085 and does not include U+FEFF).
   */
  predicate IsSpace(rt: Runtime, c: char) {
    || c == ' ' || c == '\t' || c == '\n' || c == '\r' || c == '\U{0B}' || c == '\U{0C}'
    || c == '\U{A0}' || c == '\U{1680}' || ('\U{2000}' <= c <= '\U{200A}')
    || c == '\U{2028}' || c == '\U{2029}' || c == '\U{202F}' || c == '\U{205F}' || c == '\U{3000}'
    || (rt == Js && c == '\U{FEFF}')
    || (rt == Py && (('\U{1C}' <= c <= '\U{1F}') || c == '\U{85}'))
  }

  /** How many whitespace characters `s` starts with. */
  function LeadingSpaces(rt: Runtime, s: string): (n: nat)
    ensures n <= |s|
    ensures n < |s| ==> !IsSpace(rt, s[n])
    decreases |s|
  {
    if s != [] && IsSpace(rt, s[0]) then 1 + LeadingSpaces(rt, s[1..]) else 0
  }

  /** How many whitespace characters `s` ends with. */
  function TrailingSpaces(rt: Runtime, s: string): (n: nat)
    ensures n <= |s|
    ensures n < |s| ==> !IsSpace(rt, s[|s| - 1 - n])
    decreases |s|
  {
    if s != [] && IsSpace(rt, s[|s| - 1]) then 1 + TrailingSpaces(rt, s[..|s| - 1]) else 0
  }

  function TrimStart(rt: Runtime, s: string): (r: string)
    ensures r != [] ==> !IsSpace(rt, r[0])
  {
    s[LeadingSpaces(rt, s)..]
  }

  function TrimEnd(rt: Runtime, s: string): (r: string)
    ensures r != [] ==> !IsSpace(rt, r[|r| - 1])
  {
    s[..|s| - TrailingSpaces(rt, s)]
  }

  /** What `TrimStart` drops is whitespace. */
  lemma {:induction false} TrimStartDropsSpaces(rt: Runtime, s: string)
    ensures forall i :: 0 <= i < LeadingSpaces(rt, s) ==> IsSpace(rt, s[i])
    decreases |s|
  {
    if s != [] && IsSpace(rt, s[0]) {
      TrimStartDropsSpaces(rt, s[1..]);
      forall i | 1 <= i < LeadingSpaces(rt, s)
        ensures IsSpace(rt, s[i])
      {
        assert s[i] == s[1..][i - 1];
      }
    }
  }

  /** What `TrimEnd` drops is whitespace. */
  lemma {:induction false} TrimEndDropsSpaces(rt: Runtime, s: string)
    ensures forall i :: |s| - TrailingSpaces(rt, s) <= i < |s| ==> IsSpace(rt, s[i])
    decreases |s|
  {
    if s != [] && IsSpace(rt, s[|s| - 1]) {
      TrimEndDropsSpaces(rt, s[..|s| - 1]);
    }
  }

  /** `s.trim()` (JavaScript) or `s.strip()` (Python). */
  function Trim(rt: Runtime, s: string): (r: string)
  {
    TrimEnd(rt, TrimStart(rt, s))
  }

  /** A string with no whitespace at either end is its own trim. */
  lemma TrimUnchanged(rt: Runtime, s: string)
    requires s != [] ==> !IsSpace(rt, s[0]) && !IsSpace(rt, s[|s| - 1])
    ensures Trim(rt, s) == s
  {
    assert LeadingSpaces(rt, s) == 0 && TrailingSpaces(rt, s) == 0;
    assert TrimStart(rt, s) == s;
  }

  /** The trimmed text has no whitespace at either end, so trimming twice changes nothing. */
  lemma TrimIdempotent(rt: Runtime, s: string)
    ensures var t := Trim(rt, s); t != [] ==> !IsSpace(rt, t[0]) && !IsSpace(rt, t[|t| - 1])
    ensures Trim(rt, Trim(rt, s)) == Trim(rt, s)
  {
    var a := TrimStart(rt, s);
    var t := TrimEnd(rt, a);
    if t != [] {
      assert t[0] == a[0];
    }
    TrimUnchanged(rt, t);
  }

  /** A space appended to trimmed text is trimmed away again. */
  lemma TrimSpaceAfter(rt: Runtime, a: string)
    requires Trim(rt, a) == a
    ensures Trim(rt, a + " ") == a
  {
    TrimIdempotent(rt, a);
    var s := a + " ";
    assert s[..|s| - 1] == a;
    if a == [] {
      assert LeadingSpaces(rt, s) == 1;
    } else {
      assert s[0] == a[0];
      assert LeadingSpaces(rt, s) == 0;
      assert TrailingSpaces(rt, a) == 0;
      assert TrailingSpaces(rt, s) == 1;
    }
  }

  /** A space put in front of trimmed text is trimmed away again. */
  lemma TrimSpaceBefore(rt: Runtime, a: string)
    requires Trim(rt, a) == a
    ensures Trim(rt, " " + a) == a
  {
    TrimStartSpace(rt, a);
  }

  lemma TrimStartSpace(rt: Runtime, a: string)
    ensures TrimStart(rt, " " + a) == TrimStart(rt, a)
  {
    var s := " " + a;
    assert s[1..] == a;
    assert LeadingSpaces(rt, s) == 1 + LeadingSpaces(rt, a);
    assert s[1 + LeadingSpaces(rt, a)..] == a[LeadingSpaces(rt, a)..];
  }

  /** Trimming only removes characters, so it cannot introduce one. */
  lemma TrimKeepsAbsent(rt: Runtime, s: string, c: char)
    requires c !in s
    ensures c !in Trim(rt, s)
  {
    var n := LeadingSpaces(rt, s);
    var a := TrimStart(rt, s);
    assert forall i :: 0 <= i < |a| ==> a[i] == s[n + i];
    var b := TrimEnd(rt, a);
    assert forall i :: 0 <= i < |b| ==> b[i] == a[i];
  }

  // ---------------------------------------------------------------------------
  // split / join
  // ---------------------------------------------------------------------------

  /** Position of the first `c` in `s`. */
  function IndexOf(s: string, c: char): (i: nat)
    requires c in s
    ensures i < |s| && s[i] == c && c !in s[..i]
  {
    if s[0] == c then 0 else 1 + IndexOf(s[1..], c)
  }

  /** `s.split(sep)` for a one-character separator: never an empty list. */
  function Split(s: string, sep: char): (parts: seq<string>)
    ensures |parts| >= 1
    decreases |s|
  {
    if sep !in s then [s]
    else
      var i := IndexOf(s, sep);
      [s[..i]] + Split(s[i + 1..], sep)
  }

  /** No part holds the separator. */
  lemma {:induction false} SplitPartsLack(s: string, sep: char)
    ensures forall k :: 0 <= k < |Split(s, sep)| ==> sep !in Split(s, sep)[k]
    decreases |s|
  {
    if sep in s {
      var i := IndexOf(s, sep);
      SplitPartsLack(s[i + 1..], sep);
    }
  }

  /** `parts.join(sep)` (JavaScript) or `sep.join(parts)` (Python). */
  function Join(parts: seq<string>, sep: string): string
  {
    if |parts| == 0 then ""
    else if |parts| == 1 then parts[0]
    else parts[0] + sep + Join(parts[1..], sep)
  }

  /** Joining the parts back with the separator rebuilds the string. */
  lemma {:induction false} SplitJoin(s: string, sep: char)
    ensures Join(Split(s, sep), [sep]) == s
    decreases |s|
  {
    if sep in s {
      var i := IndexOf(s, sep);
      SplitJoin(s[i + 1..], sep);
      assert s == s[..i] + [sep] + s[i + 1..];
    }
  }

  /** A separator-free prefix followed by the separator is the first part. */
  lemma SplitFirst(a: string, sep: char, b: string)
    requires sep !in a
    ensures Split(a + [sep] + b, sep) == [a] + Split(b, sep)
  {
    var s := a + [sep] + b;
    var i := IndexOf(s, sep);
    assert forall j :: 0 <= j < |a| ==> s[j] == a[j] != sep;
    assert s[|a|] == sep;
    assert s[..i] == a && s[i + 1..] == b;
  }

  /** Three separator-free fields joined by the separator split back into the three. */
  lemma SplitThree(a: string, b: string, c: string, sep: char)
    requires sep !in a && sep !in b && sep !in c
    ensures Split(a + [sep] + (b + [sep] + c), sep) == [a, b, c]
  {
    SplitFirst(a, sep, b + [sep] + c);
    SplitFirst(b, sep, c);
    SplitNone(c, sep);
  }

  /** Without the separator there is a single part. */
  lemma SplitNone(s: string, sep: char)
    requires sep !in s
    ensures Split(s, sep) == [s]
  {
  }

  // ---------------------------------------------------------------------------
  // Padding, case mapping and replacement
  // ---------------------------------------------------------------------------

  /**
   * A JavaScript string's `length`: its UTF-16 code units, two for a
   * character above U+FFFF (a surrogate pair) and one for any other.
   */
  function Utf16Length(s: string): (n: nat)
    ensures |s| <= n <= 2 * |s|
  {
    if s == [] then 0 else (if s[0] as int > 0xFFFF then 2 else 1) + Utf16Length(s[1..])
  }

  /**
   * `s.padStart(2, "0")`: zeros in front up to a length of 2 UTF-16 units;
   * longer text, including one character outside the Basic Multilingual
   * Plane, is left alone.
   */
  function PadStart2(s: string): (r: string)
    ensures Utf16Length(s) >= 2 ==> r == s
    ensures Utf16Length(s) < 2 ==>
      Utf16Length(r) == 2 && |r| == 2 && r[2 - |s|..] == s && forall i :: 0 <= i < 2 - |s| ==> r[i] == '0'
  {
    if Utf16Length(s) >= 2 then s else if |s| == 1 then "0" + s else "00"
  }

  /** A lone character outside the Basic Multilingual Plane is already two units wide and gets no zero; any other gets one. */
  lemma PadStart2OneChar(c: char)
    ensures PadStart2([c]) == (if c as int > 0xFFFF then [c] else ['0', c])
  {
  }

  function UpperChar(c: char): char {
    if 'a' <= c <= 'z' then (c as int - 32) as char else c
  }

  function LowerChar(c: char): char {
    if 'A' <= c <= 'Z' then (c as int + 32) as char else c
  }

  /** `s.upper()` on the ASCII letters. */
  function Upper(s: string): (r: string)
    ensures |r| == |s| && forall i :: 0 <= i < |s| ==> r[i] == UpperChar(s[i])
  {
    seq(|s|, i requires 0 <= i < |s| => UpperChar(s[i]))
  }

  /** `s.lower()` on the ASCII letters. */
  function Lower(s: string): (r: string)
    ensures |r| == |s| && forall i :: 0 <= i < |s| ==> r[i] == LowerChar(s[i])
  {
    seq(|s|, i requires 0 <= i < |s| => LowerChar(s[i]))
  }

  /** `s.replace(/c/g, rep)`: every occurrence of the character `c` becomes `rep`. */
  function ReplaceAll(s: string, c: char, rep: string): (r: string)
    ensures c !in rep ==> c !in r
    decreases |s|
  {
    if s == [] then [] else (if s[0] == c then rep else [s[0]]) + ReplaceAll(s[1..], c, rep)
  }

  lemma {:induction false} ReplaceAllAppend(a: string, b: string, c: char, rep: string)
    ensures ReplaceAll(a + b, c, rep) == ReplaceAll(a, c, rep) + ReplaceAll(b, c, rep)
    decreases |a|
  {
    if a == [] {
      assert a + b == b;
    } else {
      ReplaceAllAppend(a[1..], b, c, rep);
      assert (a + b)[1..] == a[1..] + b;
    }
  }

  /** Replacing a character that does not occur changes nothing. */
  lemma {:induction false} ReplaceAllAbsent(s: string, c: char, rep: string)
    requires c !in s
    ensures ReplaceAll(s, c, rep) == s
    decreases |s|
  {
    if s != [] {
      ReplaceAllAbsent(s[1..], c, rep);
    }
  }

  /** No value occurs twice. */
  predicate Distinct<T(==)>(s: seq<T>) {
    forall i, j :: 0 <= i < j < |s| ==> s[i] != s[j]
  }
}
