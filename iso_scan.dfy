/**
 * The pattern `\d{4}-\d{2}-\d{2}` that both sides use to recognise an ISO
 * date: the browser asks whether it matches anywhere (`RegExp.test`), the
 * service collects the leftmost non-overlapping matches (`re.findall`).
 */
module IsoScan {
  import opened Text

  /** A ten-character window of the shape `\d{4}-\d{2}-\d{2}`. */
  predicate IsIsoShape(w: string) {
    && |w| == 10
    && IsDigit(w[0]) && IsDigit(w[1]) && IsDigit(w[2]) && IsDigit(w[3])
    && w[4] == '-'
    && IsDigit(w[5]) && IsDigit(w[6])
    && w[7] == '-'
    && IsDigit(w[8]) && IsDigit(w[9])
  }

  /** The pattern matches the ten characters of `s` that start at `i`. */
  predicate IsoAt(s: string, i: int) {
    0 <= i <= |s| - 10 && IsIsoShape(s[i..i + 10])
  }

  /** `/\d{4}-\d{2}-\d{2}/.test(s)`: the pattern matches somewhere in `s`. */
  predicate ContainsIso(s: string) {
    exists i :: 0 <= i <= |s| - 10 && IsoAt(s, i)
  }

  /** `re.findall(r"\d{4}-\d{2}-\d{2}", s)`: scanning resumes after each match. */
  function FindAll(s: string): (found: seq<string>)
    ensures forall k :: 0 <= k < |found| ==> IsIsoShape(found[k])
    ensures |found| <= |s| / 10
    decreases |s|
  {
    if |s| < 10 then []
    else if IsIsoShape(s[..10]) then [s[..10]] + FindAll(s[10..])
    else FindAll(s[1..])
  }

  /** The text `YYYY-MM-DD` of a date, each field written with a fixed number of digits. */
  function IsoText(year: nat, month: nat, day: nat): (w: string)
    requires year < 10000 && month < 100 && day < 100
    ensures IsIsoShape(w)
  {
    [DigitChar(year / 1000), DigitChar(year / 100 % 10), DigitChar(year / 10 % 10), DigitChar(year % 10), '-',
     DigitChar(month / 10), DigitChar(month % 10), '-',
     DigitChar(day / 10), DigitChar(day % 10)]
  }

  /** The service finds nothing exactly when the browser's test fails: the two readings of the pattern agree. */
  lemma {:induction false} FindAllEmptyIff(s: string)
    ensures FindAll(s) == [] <==> !ContainsIso(s)
    decreases |s|
  {
    if |s| < 10 {
      assert forall i :: !IsoAt(s, i);
    } else if IsIsoShape(s[..10]) {
      assert s[0..0 + 10] == s[..10];
      assert IsoAt(s, 0);
    } else {
      var t := s[1..];
      FindAllEmptyIff(t);
      assert !IsoAt(s, 0) by { assert s[0..10] == s[..10]; }
      forall i | 1 <= i
        ensures IsoAt(s, i) <==> IsoAt(t, i - 1)
      {
        if i <= |s| - 10 {
          assert t[i - 1..i - 1 + 10] == s[i..i + 10];
        }
      }
      if ContainsIso(s) {
        var i :| 0 <= i <= |s| - 10 && IsoAt(s, i);
        assert IsoAt(t, i - 1);
      }
      if ContainsIso(t) {
        var i :| 0 <= i <= |t| - 10 && IsoAt(t, i);
        assert s[i + 1..i + 1 + 10] == t[i..i + 10];
        assert IsoAt(s, i + 1);
      }
    }
  }

  /** A match at the front is reported first, and scanning continues after it. */
  lemma FindAllFront(w: string, rest: string)
    requires IsIsoShape(w)
    ensures FindAll(w + rest) == [w] + FindAll(rest)
  {
    var s := w + rest;
    assert s[..10] == w && s[10..] == rest;
  }

  /** Leading characters that are not digits are skipped over. */
  lemma {:induction false} FindAllSkip(p: string, rest: string)
    requires forall i :: 0 <= i < |p| ==> !IsDigit(p[i])
    ensures FindAll(p + rest) == FindAll(rest)
    decreases |p|
  {
    if p == [] {
      assert p + rest == rest;
    } else {
      var s := p + rest;
      FindAllSkip(p[1..], rest);
      assert s[1..] == p[1..] + rest;
      if |s| >= 10 {
        assert !IsIsoShape(s[..10]) by { assert s[..10][0] == p[0]; }
      }
    }
  }

  /**
   * Text in which every `-` follows a non-digit holds no ISO date: a match
   * needs a digit right before its first `-`.
   */
  lemma NoIsoWithoutDigitDash(s: string)
    requires forall k :: 0 < k < |s| && s[k] == '-' ==> !IsDigit(s[k - 1])
    ensures !ContainsIso(s)
  {
    forall i | 0 <= i <= |s| - 10
      ensures !IsoAt(s, i)
    {
      var w := s[i..i + 10];
      assert w[4] == s[i + 4] && w[3] == s[i + 3];
    }
  }
}
