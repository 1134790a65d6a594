/** The conventional Some/None datatype, standing for Python's `X | None`. */
module Wrappers {

  datatype Option<+T> = None | Some(value: T) {

    /** The wrapped value, or `default` when there is none (Python's `d.get(k, default)`). */
    function GetOr(default: T): T {
      match this
      case Some(v) => v
      case None => default
    }
  }
}

/**
 * The small part of Python's `str` that the summary generator uses:
 * prefix/suffix/substring tests, `lower`, `split` on one character,
 * `strip`, `", ".join`, and decimal digits (`\d`, `int()`, `str()` of an int).
 * Characters are Unicode scalar values; `lower`, `strip` and `\d` are modelled
 * on their ASCII part only.
 */
module Text {

  // ---------------------------------------------------------------- prefixes

  /** Python's `s.startswith(prefix)`, compared character by character. */
  predicate StartsWith(s: string, prefix: string)
    ensures StartsWith(s, prefix) <==> prefix <= s
    decreases |prefix|
  {
    prefix == [] || (s != [] && s[0] == prefix[0] && StartsWith(s[1..], prefix[1..]))
  }

  predicate EndsWith(s: string, suffix: string) {
    |suffix| <= |s| && s[|s| - |suffix|..] == suffix
  }

  /** Python's `sub in s`, by scanning every start position. */
  predicate Contains(s: string, sub: string)
    decreases |s|
  {
    StartsWith(s, sub) || (s != [] && Contains(s[1..], sub))
  }

  /** Whatever surrounds it, an infix is found by the scan. */
  lemma {:induction false} ContainsInfix(before: string, sub: string, after: string)
    ensures Contains(before + sub + after, sub)
    decreases |before|
  {
    if before == [] {
      assert before + sub + after == sub + after;
    } else {
      assert (before + sub + after)[1..] == before[1..] + sub + after;
      ContainsInfix(before[1..], sub, after);
    }
  }

  /** The scan only finds what is there: a hit is an infix at some position. */
  lemma {:induction false} ContainsWitness(s: string, sub: string) returns (i: nat)
    requires Contains(s, sub)
    ensures i + |sub| <= |s| && s[i..i + |sub|] == sub
    decreases |s|
  {
    if StartsWith(s, sub) {
      i := 0;
    } else {
      var j := ContainsWitness(s[1..], sub);
      i := j + 1;
      assert s[i..i + |sub|] == s[1..][j..j + |sub|];
    }
  }

  /** A text lacking one of the characters of `sub` does not contain `sub`. */
  lemma MissingCharNotContained(s: string, sub: string, c: char)
    requires c in sub && c !in s
    ensures !Contains(s, sub)
  {
    if Contains(s, sub) {
      ContainedCharsPresent(s, sub, c);
    }
  }

  /** Every character of a contained text occurs in the containing one. */
  lemma ContainedCharsPresent(s: string, sub: string, c: char)
    requires Contains(s, sub) && c in sub
    ensures c in s
  {
    var i := ContainsWitness(s, sub);
    var k :| 0 <= k < |sub| && sub[k] == c;
    assert s[i..i + |sub|][k] == c;
  }

  // ---------------------------------------------------------------- case

  function LowerChar(c: char): char {
    if 'A' <= c <= 'Z' then (c as int + 32) as char else c
  }

  /** Python's `s.lower()` on ASCII letters; every other character is kept. */
  function Lower(s: string): (r: string)
    ensures |r| == |s|
    ensures forall i :: 0 <= i < |s| ==> r[i] == LowerChar(s[i])
    ensures forall i :: 0 <= i < |r| ==> !('A' <= r[i] <= 'Z')
    decreases |s|
  {
    if s == [] then [] else [LowerChar(s[0])] + Lower(s[1..])
  }

  // ---------------------------------------------------------------- split / join

  /** Index of the first occurrence of `c` in `s`. */
  function IndexOf(s: string, c: char): (i: nat)
    requires c in s
    ensures i < |s| && s[i] == c && c !in s[..i]
  {
    if s[0] == c then 0 else
      assert c in s[1..];
      var j := IndexOf(s[1..], c);
      assert s[1..][..j] == s[1..j + 1];
      j + 1
  }

  /** Python's `sep.join(parts)`. */
  function Join(parts: seq<string>, sep: string): string
    decreases |parts|
  {
    if parts == [] then ""
    else if |parts| == 1 then parts[0]
    else parts[0] + sep + Join(parts[1..], sep)
  }

  /**
   * Python's `s.split(sep)` for a one-character separator: the pieces between
   * the separators, at least one, none holding the separator; joining them
   * back with the separator gives `s` again.
   */
  function Split(s: string, sep: char): (parts: seq<string>)
    ensures |parts| >= 1
    ensures forall i :: 0 <= i < |parts| ==> sep !in parts[i]
    ensures Join(parts, [sep]) == s
    decreases |s|
  {
    if sep !in s then [s]
    else
      var i := IndexOf(s, sep);
      var tail := Split(s[i + 1..], sep);
      assert s == s[..i] + [sep] + s[i + 1..];
      [s[..i]] + tail
  }

  /** The first separator of `a + [sep] + rest` is the one after `a`, when `a` has none. */
  lemma {:induction false} IndexOfAfter(a: string, sep: char, rest: string)
    requires sep !in a
    ensures IndexOf(a + [sep] + rest, sep) == |a|
    decreases |a|
  {
    if a != [] {
      assert (a + [sep] + rest)[1..] == a[1..] + [sep] + rest;
      IndexOfAfter(a[1..], sep, rest);
    }
  }

  /** Splitting at the first separator peels off the text before it. */
  lemma SplitAfter(a: string, sep: char, rest: string)
    requires sep !in a
    ensures Split(a + [sep] + rest, sep) == [a] + Split(rest, sep)
  {
    var s := a + [sep] + rest;
    assert s[|a|] == sep;
    IndexOfAfter(a, sep, rest);
    assert s[..|a|] == a;
    assert s[|a| + 1..] == rest;
  }

  /** Splitting undoes joining when no piece holds the separator. */
  lemma {:induction false} SplitJoin(parts: seq<string>, sep: char)
    requires |parts| >= 1
    requires forall i :: 0 <= i < |parts| ==> sep !in parts[i]
    ensures Split(Join(parts, [sep]), sep) == parts
    decreases |parts|
  {
    if |parts| > 1 {
      var rest := Join(parts[1..], [sep]);
      assert Join(parts, [sep]) == parts[0] + [sep] + rest;
      SplitAfter(parts[0], sep, rest);
      SplitJoin(parts[1..], sep);
      assert parts == [parts[0]] + parts[1..];
    } else {
      assert sep !in parts[0];
    }
  }

  /** Python's `s.split(sep, 1)` when `sep in s`: the text before and after its first occurrence. */
  function SplitOnce(s: string, sep: char): (r: (string, string))
    requires sep in s
    ensures s == r.0 + [sep] + r.1 && sep !in r.0
  {
    var i := IndexOf(s, sep);
    assert s == s[..i] + [sep] + s[i + 1..];
    (s[..i], s[i + 1..])
  }

  /** Python's `s.count(c)` for one character. */
  /** `split(sep, 1)` cuts at the first separator, whatever follows it. */
  lemma SplitOnceAt(a: string, sep: char, rest: string)
    requires sep !in a
    ensures SplitOnce(a + [sep] + rest, sep) == (a, rest)
  {
    var s := a + [sep] + rest;
    IndexOfAfter(a, sep, rest);
    assert s[..|a|] == a && s[|a| + 1..] == rest;
  }

  function Count(s: string, c: char): nat {
    multiset(s)[c]
  }

  // ---------------------------------------------------------------- strip

  /** The ASCII characters for which Python's `str.isspace()` holds. */
  predicate IsSpace(c: char) {
    c == ' ' || 9 <= c as int <= 13 || 28 <= c as int <= 31
  }

  predicate AllSpace(s: string) {
    forall i :: 0 <= i < |s| ==> IsSpace(s[i])
  }

  /**
   * Python's `s.strip()`: white space is dropped from the front, then from the
   * back; the result neither starts nor ends with white space.
   */
  function Strip(s: string): (r: string)
    ensures Unpadded(r)
    decreases |s|
  {
    if s != [] && IsSpace(s[0]) then Strip(s[1..])
    else if s != [] && IsSpace(s[|s| - 1]) then Strip(s[..|s| - 1])
    else s
  }

  /** Neither the first nor the last character is white space. */
  predicate Unpadded(r: string) {
    r == [] || (!IsSpace(r[0]) && !IsSpace(r[|r| - 1]))
  }

  /** `r` sits at position `i` of `s` with nothing but white space before and after it. */
  ghost predicate SurroundedAt(s: string, r: string, i: nat) {
    i + |r| <= |s| && s[i..i + |r|] == r && AllSpace(s[..i]) && AllSpace(s[i + |r|..])
  }

  /** Stripping only removes white space from the two ends. */
  lemma {:induction false} StripSurrounded(s: string) returns (i: nat)
    ensures SurroundedAt(s, Strip(s), i)
    decreases |s|
  {
    if s != [] && IsSpace(s[0]) {
      var k := StripSurrounded(s[1..]);
      SurroundedFront(s, Strip(s), k);
      i := k + 1;
    } else if s != [] && IsSpace(s[|s| - 1]) {
      i := StripSurrounded(s[..|s| - 1]);
      SurroundedBack(s, Strip(s), i);
    } else {
      i := 0;
      assert s[0..|s|] == s && s[..0] == [] && s[|s|..] == [];
    }
  }

  lemma SurroundedFront(s: string, r: string, k: nat)
    requires s != [] && IsSpace(s[0]) && SurroundedAt(s[1..], r, k)
    ensures SurroundedAt(s, r, k + 1)
  {
    var tail := s[1..];
    assert s[k + 1..k + 1 + |r|] == tail[k..k + |r|];
    assert s[..k + 1] == [s[0]] + tail[..k];
    AllSpaceConcat([s[0]], tail[..k]);
    assert s[k + 1 + |r|..] == tail[k + |r|..];
  }

  lemma SurroundedBack(s: string, r: string, i: nat)
    requires s != [] && SurroundedAt(s[..|s| - 1], r, i) && IsSpace(s[|s| - 1])
    ensures SurroundedAt(s, r, i)
  {
    var init := s[..|s| - 1];
    assert s[i..i + |r|] == init[i..i + |r|];
    assert s[..i] == init[..i];
    assert s[i + |r|..] == init[i + |r|..] + [s[|s| - 1]];
    AllSpaceConcat(init[i + |r|..], [s[|s| - 1]]);
  }

  lemma AllSpaceConcat(a: string, b: string)
    requires AllSpace(a) && AllSpace(b)
    ensures AllSpace(a + b)
  {
  }

  /** Text without white space at either end is left as it is. */
  lemma StripUnpadded(s: string)
    requires Unpadded(s)
    ensures Strip(s) == s
  {
  }

  // ---------------------------------------------------------------- digits

  /** ASCII decimal digit (the model's reading of the regular-expression class `\d`). */
  predicate IsDigit(c: char) {
    '0' <= c <= '9'
  }

  predicate AllDigits(s: string) {
    forall i :: 0 <= i < |s| ==> IsDigit(s[i])
  }

  /** Length of the run of digits that `s` starts with (greedy `\d*`). */
  function DigitRun(s: string): (n: nat)
    ensures n <= |s| && AllDigits(s[..n])
    ensures n == |s| || !IsDigit(s[n])
    decreases |s|
  {
    if s != [] && IsDigit(s[0]) then
      var k := DigitRun(s[1..]);
      assert s[..k + 1] == [s[0]] + s[1..][..k];
      k + 1
    else 0
  }

  /** A run of digits followed by a non-digit (or the end) is exactly what the scan takes. */
  lemma DigitRunOf(digits: string, rest: string)
    requires AllDigits(digits)
    requires rest == [] || !IsDigit(rest[0])
    ensures DigitRun(digits + rest) == |digits|
  {
    var s := digits + rest;
    assert s[..|digits|] == digits;
    DigitRunAt(s, |digits|);
  }

  /** The scan stops exactly where the digits stop. */
  lemma {:induction false} DigitRunAt(s: string, k: nat)
    requires k <= |s| && AllDigits(s[..k])
    requires k == |s| || !IsDigit(s[k])
    ensures DigitRun(s) == k
    decreases k
  {
    if k > 0 {
      assert s[0] == s[..k][0];
      assert s[1..][..k - 1] == s[1..k];
      DigitRunAt(s[1..], k - 1);
    }
  }

  function DigitChar(d: nat): (c: char)
    requires d < 10
    ensures IsDigit(c)
  {
    ('0' as int + d) as char
  }

  function DigitValue(c: char): (d: nat)
    requires IsDigit(c)
    ensures d < 10
  {
    c as int - '0' as int
  }

  /** Python's `int(s)` for a string of ASCII digits: leading zeros do not count. */
  function DigitsValue(s: string): nat
    requires AllDigits(s)
    decreases |s|
  {
    if s == [] then 0 else DigitsValue(s[..|s| - 1]) * 10 + DigitValue(s[|s| - 1])
  }

  /** Python's `str(n)`: decimal digits, no leading zero, reading back as `n`. */
  function NatToString(n: nat): (r: string)
    ensures r != [] && AllDigits(r)
    ensures |r| > 1 ==> r[0] != '0'
    ensures DigitsValue(r) == n
    decreases n
  {
    if n < 10 then [DigitChar(n)]
    else
      var r := NatToString(n / 10) + [DigitChar(n % 10)];
      assert r[..|r| - 1] == NatToString(n / 10);
      r
  }

  /** A digit string whose first digit is not zero denotes a positive number. */
  lemma {:induction false} LeadingDigitPositive(s: string)
    requires s != [] && AllDigits(s) && s[0] != '0'
    ensures DigitsValue(s) > 0
    decreases |s|
  {
    if |s| > 1 {
      LeadingDigitPositive(s[..|s| - 1]);
    }
  }

  /** `str(int(s)) == s` for a canonical digit string (no leading zero unless it is "0"). */
  lemma {:induction false} NatToStringOfDigits(s: string)
    requires s != [] && AllDigits(s)
    requires |s| > 1 ==> s[0] != '0'
    ensures NatToString(DigitsValue(s)) == s
    decreases |s|
  {
    if |s| > 1 {
      var init := s[..|s| - 1];
      LeadingDigitPositive(init);
      NatToStringOfDigits(init);
      assert s == init + [s[|s| - 1]];
    }
  }

  /** Distinct numbers are spelled differently. */
  lemma NatToStringInjective(m: nat, n: nat)
    requires NatToString(m) == NatToString(n)
    ensures m == n
  {
  }
}
