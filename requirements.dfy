/**
 * `parse_version_requirement`: one item of a version requirement (`3.12`,
 * `3.10-3.13`, `3.10+`, `PyPy3.9`, `PyPy3.9-3.11`, `PyPy3.9+`) expanded into
 * the list of version labels it requires. An open-ended item runs up to one
 * minor version past the highest one of its major version among the
 * available labels.
 */
module Requirements {
  import opened Wrappers
  import opened Text
  import opened Ordering

  /** CPython labels are `M.m`, PyPy labels `PyPyM.m`. */
  datatype Family = CPython | PyPy

  function FamilyPrefix(f: Family): string {
    if f == PyPy then "PyPy" else ""
  }

  /**
   * `re.match(r"(\d+)\.(\d+)", s)`, or with `PyPy` in front for PyPy: the two
   * groups read as integers. Only the start of `s` has to match.
   */
  function MatchVersion(f: Family, s: string): (m: Option<(nat, nat)>)
    ensures m.Some? ==> StartsWith(s, FamilyPrefix(f))
  {
    var prefix := FamilyPrefix(f);
    if !StartsWith(s, prefix) then None
    else match NumberPair(s[|prefix|..])
      case None => None
      case Some((major, minor, _)) => Some((DigitsValue(major), DigitsValue(minor)))
  }

  /** The label `f"{major}.{minor}"`, or `f"PyPy{major}.{minor}"`. */
  function Label(f: Family, major: nat, minor: nat): string {
    FamilyPrefix(f) + NatToString(major) + "." + NatToString(minor)
  }

  /** `[label(major, m) for m in range(lo, hi)]`. */
  function Minors(f: Family, major: nat, lo: nat, hi: int): (r: seq<string>)
    ensures |r| == if hi > lo then hi - lo else 0
    ensures forall i :: 0 <= i < |r| ==> r[i] == Label(f, major, lo + i)
  {
    if hi <= lo then [] else seq(hi - lo, i requires 0 <= i < hi - lo => Label(f, major, lo + i))
  }

  /** What a requirement item says, once its shape is recognised. */
  datatype Requirement =
    | OpenEnded(family: Family, major: nat, lo: nat)
    | Closed(family: Family, major: nat, lo: nat, hi: nat)
    | Exact(text: string)

  /**
   * The branches of `parse_version_requirement`, in their order. A PyPy item is
   * read as a range only when it holds exactly one `-`, after index 4; the end
   * of a range must itself start with `M.m`, of which only `m` is used. An item
   * no branch recognises is required as written, stripped.
   */
  function Classify(requirement: string): (q: Requirement)
    ensures q.Exact? ==> q.text == Strip(requirement)
    ensures !q.Exact? ==> (q.family == PyPy <==> StartsWith(Strip(requirement), "PyPy"))
  {
    ClassifyStripped(Strip(requirement))
  }

  /** `Classify` once the item is stripped. */
  function ClassifyStripped(r: string): (q: Requirement)
    ensures q.Exact? ==> q.text == r
    ensures !q.Exact? ==> (q.family == PyPy <==> StartsWith(r, "PyPy"))
  {
    var f := FamilyOf(r);
    var open := OpenStart(f, r);
    if open.Some? then OpenEnded(f, open.value.0, open.value.1)
    else if RangeShaped(f, r) then ReadRange(f, r)
    else Exact(r)
  }

  function FamilyOf(r: string): Family {
    if StartsWith(r, "PyPy") then PyPy else CPython
  }

  /** The start of an open-ended item: `M.m` before its trailing `+`. */
  function OpenStart(f: Family, r: string): Option<(nat, nat)> {
    if EndsWith(r, "+") then MatchVersion(f, Strip(r[..|r| - 1])) else None
  }

  /** A PyPy range holds exactly one `-`, after index 4; a CPython range any `-`. */
  predicate RangeShaped(f: Family, r: string) {
    if f == PyPy then '-' in r && Count(r, '-') == 1 && IndexOf(r, '-') > 4 else '-' in r
  }

  /** A range split at its first `-`: both ends must match, and only the end's minor is used. */
  function ReadRange(f: Family, r: string): (q: Requirement)
    requires '-' in r
    ensures q.Exact? ==> q.text == r
    ensures !q.Exact? ==> q.Closed? && q.family == f
  {
    var (start, end) := SplitOnce(r, '-');
    var first := MatchVersion(f, Strip(start));
    var last := MatchVersion(CPython, Strip(end));
    if first.Some? && last.Some? then Closed(f, first.value.0, first.value.1, last.value.1) else Exact(r)
  }

  /** How the loop reads an available label: `MatchVersion` for the item's family. */
  type VersionMatcher = string -> Option<(nat, nat)>

  function Matcher(f: Family): VersionMatcher {
    s => MatchVersion(f, s)
  }

  /**
   * The highest minor version of `major` among the `available` labels as
   * `matches` reads them, and at least `lo`: the value of `max_minor` after
   * the loop over the available labels.
   */
  function HighestMinor(matches: VersionMatcher, major: nat, lo: nat, available: seq<string>): nat
    decreases |available|
  {
    if available == [] then lo
    else
      var highest := HighestMinor(matches, major, lo, available[..|available| - 1]);
      var m := matches(available[|available| - 1]);
      if m.Some? && m.value.0 == major && m.value.1 > highest then m.value.1 else highest
  }

  /** The labels a recognised item requires. */
  function Resolution(q: Requirement, available: seq<string>): seq<string> {
    match q
    case OpenEnded(f, major, lo) => Minors(f, major, lo, HighestMinor(Matcher(f), major, lo, available) + 2)
    case Closed(f, major, lo, hi) => Minors(f, major, lo, hi + 1)
    case Exact(text) => [text]
  }

  /**
   * The loop of `parse_version_requirement` that finds `max_minor`: the
   * highest minor version of `major` among the available labels of family
   * `f`, starting from `lo`.
   */
  method FindHighestMinor(f: Family, major: nat, lo: nat, available: seq<string>) returns (highest: nat)
    ensures highest == HighestMinor(Matcher(f), major, lo, available)
  {
    highest := lo;
    for i := 0 to |available|
      invariant highest == HighestMinor(Matcher(f), major, lo, available[..i])
    {
      assert available[..i + 1][..i] == available[..i];
      var m := MatchVersion(f, available[i]);
      if m.Some? && m.value.0 == major && m.value.1 > highest {
        highest := m.value.1;
      }
    }
    assert available[..|available|] == available;
  }

  /** The list comprehensions of `parse_version_requirement`, once the item's shape is known. */
  method Expand(q: Requirement, available: seq<string>) returns (versions: seq<string>)
    ensures versions == Resolution(q, available)
  {
    match q {
      case OpenEnded(f, major, lo) =>
        var highest := FindHighestMinor(f, major, lo, available);
        versions := Minors(f, major, lo, highest + 2);
      case Closed(f, major, lo, hi) =>
        versions := Minors(f, major, lo, hi + 1);
      case Exact(text) =>
        versions := [text];
    }
  }

  /**
   * `parse_version_requirement`; `available` lists the available labels in
   * the order the loop visits them.
   */
  method ParseVersionRequirement(requirement: string, available: seq<string>) returns (versions: seq<string>)
    ensures versions == Resolution(Classify(requirement), available)
  {
    var q := Classify(requirement);
    versions := Expand(q, available);
  }

  // ---------------------------------------------------------------- properties

  /**
   * `HighestMinor` is a maximum: at least `lo`, at least every minor version
   * of `major` found among the labels, and either `lo` or one of those.
   */
  lemma {:induction false} HighestMinorIsMax(matches: VersionMatcher, major: nat, lo: nat, available: seq<string>)
    ensures HighestMinor(matches, major, lo, available) >= lo
    ensures forall v, minor :: v in available && matches(v) == Some((major, minor)) ==>
      minor <= HighestMinor(matches, major, lo, available)
    ensures var h := HighestMinor(matches, major, lo, available);
      h == lo || exists v :: v in available && matches(v) == Some((major, h))
    decreases |available|
  {
    if available != [] {
      var init := available[..|available| - 1];
      HighestMinorIsMax(matches, major, lo, init);
      assert available == init + [available[|available| - 1]];
      var h := HighestMinor(matches, major, lo, available);
      if h != lo && h == HighestMinor(matches, major, lo, init) {
        var v :| v in init && matches(v) == Some((major, h));
        assert v in available;
      }
    }
  }

  /** The loop's result does not depend on the order it visits the labels in. */
  lemma HighestMinorOrderFree(matches: VersionMatcher, major: nat, lo: nat, xs: seq<string>, ys: seq<string>)
    requires multiset(xs) == multiset(ys)
    ensures HighestMinor(matches, major, lo, xs) == HighestMinor(matches, major, lo, ys)
  {
    HighestMinorIsMax(matches, major, lo, xs);
    HighestMinorIsMax(matches, major, lo, ys);
    var hx := HighestMinor(matches, major, lo, xs);
    var hy := HighestMinor(matches, major, lo, ys);
    if hx != lo {
      var v :| v in xs && matches(v) == Some((major, hx));
      assert v in multiset(ys);
    }
    if hy != lo {
      var v :| v in ys && matches(v) == Some((major, hy));
      assert v in multiset(xs);
    }
  }

  /**
   * `M.m+` requires every minor version from `m` to one past the highest
   * available one of major `M` (see `HighestMinorIsMax`): at least two labels.
   */
  lemma OpenEndedResolution(f: Family, major: nat, lo: nat, available: seq<string>)
    ensures var r := Resolution(OpenEnded(f, major, lo), available);
      var h := HighestMinor(Matcher(f), major, lo, available);
      && |r| == h - lo + 2 >= 2
      && r[0] == Label(f, major, lo)
      && r[|r| - 1] == Label(f, major, h + 1)
  {
    HighestMinorIsMax(Matcher(f), major, lo, available);
    var h := HighestMinor(Matcher(f), major, lo, available);
    var r := Resolution(OpenEnded(f, major, lo), available);
    assert r[h - lo + 1] == Label(f, major, lo + (h - lo + 1));
  }

  /** Every available label of major `M` from `m` on is required by `M.m+`. */
  lemma OpenEndedCoversAvailable(f: Family, major: nat, lo: nat, available: seq<string>, v: string, minor: nat)
    requires v in available && MatchVersion(f, v) == Some((major, minor)) && minor >= lo
    ensures Label(f, major, minor) in Resolution(OpenEnded(f, major, lo), available)
  {
    assert Matcher(f)(v) == Some((major, minor));
    HighestMinorIsMax(Matcher(f), major, lo, available);
    var r := Resolution(OpenEnded(f, major, lo), available);
    assert r[minor - lo] == Label(f, major, minor);
  }

  /** `M.a-b` requires `M.a` up to `M.b`, one label each; nothing when `b < a`. */
  lemma ClosedResolution(f: Family, major: nat, lo: nat, hi: nat, available: seq<string>)
    ensures var r := Resolution(Closed(f, major, lo, hi), available);
      && (r == [] <==> hi < lo)
      && (lo <= hi ==> (|r| == hi - lo + 1 && r[0] == Label(f, major, lo) && r[|r| - 1] == Label(f, major, hi)))
      && forall i :: 0 <= i < |r| ==> r[i] == Label(f, major, lo + i)
  {
    var r := Minors(f, major, lo, hi + 1);
    assert Resolution(Closed(f, major, lo, hi), available) == r;
    if lo <= hi {
      assert r[hi - lo] == Label(f, major, lo + (hi - lo));
    }
  }

  /** Any other item is required as written, stripped, whatever is available. */
  lemma ExactResolution(requirement: string, available: seq<string>)
    requires Classify(requirement).Exact?
    ensures Resolution(Classify(requirement), available) == [Strip(requirement)]
  {
  }

  /** A PyPy item that is not open-ended and lacks exactly one `-` after index 4 is taken as written. */
  lemma PyPyRangeNeedsOneDash(requirement: string)
    requires var r := Strip(requirement);
      && StartsWith(r, "PyPy") && !EndsWith(r, "+")
      && (Count(r, '-') != 1 || ('-' in r && IndexOf(r, '-') <= 4))
    ensures Classify(requirement) == Exact(Strip(requirement))
  {
  }

  // ---------------------------------------------------------------- labels

  /** Digits and the dot never hold a separator, a sign or white space. */
  lemma LabelShape(f: Family, major: nat, minor: nat)
    ensures var s := Label(f, major, minor);
      && |s| >= |FamilyPrefix(f)| + 3
      && '-' !in s && '+' !in s && ',' !in s
      && IsDigit(s[|s| - 1])
      && Unpadded(s)
      && (StartsWith(s, "PyPy") <==> f == PyPy)
  {
    DottedChars(f, NatToString(major), NatToString(minor));
    DottedEnds(f, NatToString(major), NatToString(minor));
  }

  lemma DottedChars(f: Family, a: string, b: string)
    requires AllDigits(a) && AllDigits(b)
    ensures var s := FamilyPrefix(f) + a + "." + b;
      '-' !in s && '+' !in s && ',' !in s
  {
    var prefix := FamilyPrefix(f);
    var s := prefix + a + "." + b;
    forall i | 0 <= i < |s|
      ensures s[i] != '-' && s[i] != '+' && s[i] != ','
    {
      if i < |prefix| {
        assert s[i] == prefix[i];
      } else if i < |prefix| + |a| {
        assert s[i] == a[i - |prefix|];
      } else if i > |prefix| + |a| {
        assert s[i] == b[i - |prefix| - |a| - 1];
      }
    }
  }

  lemma DottedEnds(f: Family, a: string, b: string)
    requires a != [] && b != [] && AllDigits(a) && AllDigits(b)
    ensures var s := FamilyPrefix(f) + a + "." + b;
      && |s| >= |FamilyPrefix(f)| + 3
      && IsDigit(s[|s| - 1])
      && Unpadded(s)
      && (StartsWith(s, "PyPy") <==> f == PyPy)
  {
    var s := FamilyPrefix(f) + a + "." + b;
    assert s[|s| - 1] == b[|b| - 1];
    if f == CPython {
      assert s[0] == a[0];
    } else {
      assert s[..4] == "PyPy";
    }
  }

  /** A label matches as its own family with its own numbers, whatever non-digit follows it. */
  lemma MatchLabel(f: Family, major: nat, minor: nat, rest: string)
    requires rest == [] || !IsDigit(rest[0])
    ensures MatchVersion(f, Label(f, major, minor) + rest) == Some((major, minor))
  {
    MatchDotted(f, NatToString(major), NatToString(minor), rest);
  }

  lemma MatchDotted(f: Family, a: string, b: string, rest: string)
    requires a != [] && b != [] && AllDigits(a) && AllDigits(b)
    requires rest == [] || !IsDigit(rest[0])
    ensures MatchVersion(f, FamilyPrefix(f) + a + "." + b + rest) == Some((DigitsValue(a), DigitsValue(b)))
  {
    var prefix := FamilyPrefix(f);
    var s := prefix + a + "." + b + rest;
    var tail := a + "." + b + rest;
    assert s == prefix + tail;
    assert s[|prefix|..] == tail;
    assert StartsWith(s, prefix) by {
      assert s[..|prefix|] == prefix;
    }
    NumberPairComplete(tail, a, b, rest);
  }

  /**
   * The labels of free-threaded builds count as their minor version in the
   * search for the highest one: `3.14t` counts like `3.14`.
   */
  lemma FreeThreadedLabelCounts(major: nat, minor: nat)
    ensures MatchVersion(CPython, Label(CPython, major, minor) + "t") == Some((major, minor))
  {
    MatchLabel(CPython, major, minor, "t");
  }

  /** A PyPy label never counts for a CPython item. */
  lemma PyPyLabelNotCPython(major: nat, minor: nat)
    ensures MatchVersion(CPython, Label(PyPy, major, minor)) == None
  {
    var s := Label(PyPy, major, minor);
    assert s[0] == 'P';
    assert NumberPair(s) == None;
  }

  // ---------------------------------------------------------------- round trip

  /** The canonical spelling of a range item: `M.m+`, `M.a-M.b`, `PyPyM.m+`, `PyPyM.a-M.b`. */
  function Render(q: Requirement): (s: string)
    requires !q.Exact?
  {
    match q
    case OpenEnded(f, major, lo) => Label(f, major, lo) + "+"
    case Closed(f, major, lo, hi) => Label(f, major, lo) + "-" + Label(CPython, major, hi)
  }

  /** Every open-ended item and every range is read back from its canonical spelling. */
  lemma ClassifyRender(q: Requirement)
    requires !q.Exact?
    ensures Classify(Render(q)) == q
  {
    if q.OpenEnded? {
      OpenEndedRendered(q.family, q.major, q.lo);
    } else {
      ClosedRendered(q.family, q.major, q.lo, q.hi);
    }
  }

  /** The open-ended branch, for an unpadded item ending in `+` whose start matches. */
  lemma ClassifyOpen(r: string, f: Family, major: nat, lo: nat)
    requires EndsWith(r, "+")
    requires StartsWith(r, "PyPy") <==> f == PyPy
    requires MatchVersion(f, Strip(r[..|r| - 1])) == Some((major, lo))
    ensures ClassifyStripped(r) == OpenEnded(f, major, lo)
  {
  }

  /**
   * The range branch, for an unpadded item split at its first `-` into two
   * ends that match; only the minor number of the end is used, whatever its
   * major. A PyPy item needs its only `-` after index 4; a CPython item may
   * hold more `-` after the first.
   */
  lemma ClassifyClosed(r: string, f: Family, major: nat, lo: nat, endMajor: nat, hi: nat, start: string, end: string)
    requires OpenStart(f, r).None?
    requires StartsWith(r, "PyPy") <==> f == PyPy
    requires r == start + "-" + end && '-' !in start
    requires f == PyPy ==> '-' !in end && |start| > 4
    requires MatchVersion(f, Strip(start)) == Some((major, lo))
    requires MatchVersion(CPython, Strip(end)) == Some((endMajor, hi))
    ensures ClassifyStripped(r) == Closed(f, major, lo, hi)
  {
    RangeSplit(r, f, start, end);
    ReadRangeAt(r, f, start, end);
    assert FamilyOf(r) == f;
  }

  /** A range whose two ends match reads as `Closed`, with the end's minor as the upper bound. */
  lemma ReadRangeAt(r: string, f: Family, start: string, end: string)
    requires '-' in r && SplitOnce(r, '-') == (start, end)
    requires MatchVersion(f, Strip(start)).Some? && MatchVersion(CPython, Strip(end)).Some?
    ensures ReadRange(f, r)
         == Closed(f, MatchVersion(f, Strip(start)).value.0, MatchVersion(f, Strip(start)).value.1,
                   MatchVersion(CPython, Strip(end)).value.1)
  {
  }

  /** The item is range-shaped for its family, and splits into `start` and `end`. */
  lemma RangeSplit(r: string, f: Family, start: string, end: string)
    requires r == start + "-" + end && '-' !in start
    requires f == PyPy ==> '-' !in end && |start| > 4
    ensures RangeShaped(f, r) && SplitOnce(r, '-') == (start, end)
  {
    assert r == start + ['-'] + end;
    SplitOnceAt(start, '-', end);
    if f == PyPy {
      IndexOfAfter(start, '-', end);
      DashCount(start, end);
    }
  }

  /** One `-` between two parts without any: exactly one `-`. */
  lemma DashCount(start: string, end: string)
    requires '-' !in start && '-' !in end
    ensures Count(start + "-" + end, '-') == 1
  {
    assert multiset(start + "-" + end) == multiset(start) + multiset{'-'} + multiset(end);
  }

  /** Conversely, an item read as open-ended ends in `+` and its start matches. */
  lemma OpenEndedShape(r: string)
    requires ClassifyStripped(r).OpenEnded?
    ensures var q := ClassifyStripped(r);
      EndsWith(r, "+") && MatchVersion(q.family, Strip(r[..|r| - 1])) == Some((q.major, q.lo))
  {
  }

  /**
   * Conversely, an item read as a range is not open-ended, and splits at its
   * first `-` into a start that matches and an end whose minor is the upper bound.
   */
  lemma ClosedShape(r: string) returns (start: string, end: string, endMajor: nat)
    requires ClassifyStripped(r).Closed?
    ensures var q := ClassifyStripped(r);
      && OpenStart(q.family, r).None?
      && r == start + "-" + end && '-' !in start
      && (q.family == PyPy ==> '-' !in end && |start| > 4)
      && MatchVersion(q.family, Strip(start)) == Some((q.major, q.lo))
      && MatchVersion(CPython, Strip(end)) == Some((endMajor, q.hi))
  {
    var q := ClassifyStripped(r);
    assert '-' in r;
    var pair := SplitOnce(r, '-');
    start, end := pair.0, pair.1;
    endMajor := MatchVersion(CPython, Strip(end)).value.0;
    if q.family == PyPy {
      IndexOfAfter(start, '-', end);
      assert multiset(r) == multiset(start) + multiset{'-'} + multiset(end);
    }
  }

  /** A CPython item without `+` at its end and without `-` is required as written: `3.12` gives `3.12`. */
  lemma PlainItemExact(requirement: string, available: seq<string>)
    requires var r := Strip(requirement); !StartsWith(r, "PyPy") && !EndsWith(r, "+") && '-' !in r
    ensures Classify(requirement) == Exact(Strip(requirement))
    ensures Resolution(Classify(requirement), available) == [Strip(requirement)]
  {
  }

  lemma OpenEndedRendered(f: Family, major: nat, lo: nat)
    ensures Classify(Label(f, major, lo) + "+") == OpenEnded(f, major, lo)
  {
    var first := Label(f, major, lo);
    var s := first + "+";
    LabelShape(f, major, lo);
    assert Unpadded(s);
    StripUnpadded(s);
    StripUnpadded(first);
    assert s[..|s| - 1] == first;
    assert StartsWith(s, "PyPy") <==> StartsWith(first, "PyPy");
    MatchLabel(f, major, lo, []);
    assert first + [] == first;
    ClassifyOpen(s, f, major, lo);
  }

  lemma ClosedRendered(f: Family, major: nat, lo: nat, hi: nat)
    ensures Classify(Label(f, major, lo) + "-" + Label(CPython, major, hi)) == Closed(f, major, lo, hi)
  {
    var first := Label(f, major, lo);
    var last := Label(CPython, major, hi);
    var s := first + "-" + last;
    LabelShape(f, major, lo);
    LabelShape(CPython, major, hi);
    assert Unpadded(s);
    StripUnpadded(s);
    StripUnpadded(first);
    StripUnpadded(last);
    assert StartsWith(s, "PyPy") <==> StartsWith(first, "PyPy");
    assert !EndsWith(s, "+");
    MatchLabel(f, major, lo, []);
    MatchLabel(CPython, major, hi, []);
    assert first + [] == first && last + [] == last;
    ClassifyClosed(s, f, major, lo, major, hi, first, last);
  }
}
