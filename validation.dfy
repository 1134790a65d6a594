/**
 * `validate_requirements`: checks the coverage matrix against what the
 * workflow requires, and returns whether every requirement is met together
 * with one message per failure. A per-platform requirement matrix, when
 * given, replaces the three global requirements (platforms, Python versions,
 * free-threaded builds).
 *
 * The platform and version sets are passed as sequences listing each set in
 * the order Python iterates it, since the order of the messages follows it.
 * The requirement matrix arrives already decoded from JSON, or as `None`
 * when it is not valid JSON.
 */
module Validation {
  import opened Wrappers
  import opened Text
  import opened Glob
  import opened Coverage
  import opened Requirements

  /** One entry of the requirement matrix; a missing key reads as the empty string. */
  datatype Record = Record(platform: Option<string>, versions: Option<string>)

  /** Every way a requirement can fail, with what its message names. */
  datatype Error =
    | InvalidJson(raw: string)
    | NoMatchingPlatform(pattern: string)
    | PlatformMissingVersions(platform: string, missing: seq<string>)
    | MissingPlatforms(platforms: seq<string>)
    | MissingVersions(versions: seq<string>)
    | MissingFreeThreaded314
    | MissingFreeThreadedBuild(version: string)

  /** The message the action prints for each failure. */
  function Message(e: Error): (m: string)
    ensures e.InvalidJson? ==> EndsWith(m, e.raw)
    ensures e.NoMatchingPlatform? ==> EndsWith(m, e.pattern)
    ensures e.PlatformMissingVersions? ==> EndsWith(m, Join(e.missing, ", "))
    ensures e.MissingPlatforms? ==> EndsWith(m, Join(e.platforms, ", "))
    ensures e.MissingVersions? ==> EndsWith(m, Join(e.versions, ", "))
    ensures e.MissingFreeThreadedBuild? ==> EndsWith(m, e.version + "t)")
  {
    match e
    case InvalidJson(raw) => "Invalid JSON in require-matrix: " + raw
    case NoMatchingPlatform(pattern) => "No platforms found matching pattern: " + pattern
    case PlatformMissingVersions(platform, missing) =>
      "Platform '" + platform + "' missing required versions: " + Join(missing, ", ")
    case MissingPlatforms(platforms) => "Missing required platforms: " + Join(platforms, ", ")
    case MissingVersions(versions) => "Missing required Python versions: " + Join(versions, ", ")
    case MissingFreeThreaded314 => "Missing required free-threaded Python 3.14t"
    case MissingFreeThreadedBuild(version) =>
      "Missing free-threaded build for Python " + version + " (expected " + version + "t)"
  }

  function Messages(errors: seq<Error>): (messages: seq<string>)
    ensures |messages| == |errors|
    ensures forall i :: 0 <= i < |errors| ==> messages[i] == Message(errors[i])
  {
    seq(|errors|, i requires 0 <= i < |errors| => Message(errors[i]))
  }

  // ---------------------------------------------------------------- list comprehensions

  /** `[x for x in s if keep(x)]`: each kept element as often as `s` holds it. */
  function Filter<T(!new)>(s: seq<T>, keep: T -> bool): (r: seq<T>)
    ensures |r| <= |s|
    ensures forall x :: x in r <==> x in s && keep(x)
    decreases |s|
  {
    if s == [] then []
    else
      assert forall x :: x in s <==> x == s[0] || x in s[1..];
      (if keep(s[0]) then [s[0]] else []) + Filter(s[1..], keep)
  }

  /** The comprehension keeps each kept element as often as `s` holds it, and no other. */
  lemma {:induction false} FilterCount<T(!new)>(s: seq<T>, keep: T -> bool)
    ensures forall x :: multiset(Filter(s, keep))[x] == if keep(x) then multiset(s)[x] else 0
    decreases |s|
  {
    if s != [] {
      FilterCount(s[1..], keep);
      assert s == [s[0]] + s[1..];
      assert Filter(s, keep) == (if keep(s[0]) then [s[0]] else []) + Filter(s[1..], keep);
    }
  }

  /** The comprehension keeps the order: filtering a concatenation filters each part. */
  lemma {:induction false} FilterAppend<T(!new)>(a: seq<T>, b: seq<T>, keep: T -> bool)
    ensures Filter(a + b, keep) == Filter(a, keep) + Filter(b, keep)
    decreases |a|
  {
    if a != [] {
      var head := if keep(a[0]) then [a[0]] else [];
      var ab := a + b;
      assert ab != [] && ab[0] == a[0];
      assert ab[1..] == a[1..] + b;
      assert Filter(ab, keep) == head + Filter(a[1..] + b, keep);
      assert Filter(a, keep) == head + Filter(a[1..], keep);
      FilterAppend(a[1..], b, keep);
    } else {
      assert a + b == b;
      assert Filter(a, keep) == [];
    }
  }

  /** `[v.strip() for v in parts if v.strip()]`. */
  function StrippedItems(parts: seq<string>): (items: seq<string>)
    ensures |items| <= |parts|
    ensures forall i :: 0 <= i < |items| ==> items[i] != [] && Unpadded(items[i])
    ensures forall x :: x in items <==> x != [] && exists i :: 0 <= i < |parts| && x == Strip(parts[i])
    decreases |parts|
  {
    if parts == [] then []
    else
      var rest := StrippedItems(parts[1..]);
      assert forall i :: 0 <= i < |parts[1..]| ==> parts[1..][i] == parts[i + 1];
      (if Strip(parts[0]) != [] then [Strip(parts[0])] else []) + rest
  }

  /** Every part stripped, empty ones included. */
  function StrippedAll(parts: seq<string>): (r: seq<string>)
    ensures |r| == |parts|
    ensures forall i :: 0 <= i < |parts| ==> r[i] == Strip(parts[i])
  {
    seq(|parts|, i requires 0 <= i < |parts| => Strip(parts[i]))
  }

  predicate NonEmpty(x: string) {
    x != []
  }

  /**
   * The items are the stripped parts, in order, with the empty ones dropped:
   * so each non-empty stripped value appears as often as parts strip to it.
   */
  lemma {:induction false} StrippedItemsFilter(parts: seq<string>)
    ensures StrippedItems(parts) == Filter(StrippedAll(parts), NonEmpty)
    decreases |parts|
  {
    if parts != [] {
      StrippedItemsFilter(parts[1..]);
      assert StrippedAll(parts) == [Strip(parts[0])] + StrippedAll(parts[1..]);
    }
  }

  /** The items of a comma-separated requirement: `[v.strip() for v in text.split(",") if v.strip()]`. */
  function Items(text: string): seq<string> {
    StrippedItems(Split(text, ','))
  }

  /** The version set of a platform, empty for a platform the matrix does not hold. */
  function Built(matrix: Matrix, platform: string): set<string> {
    if platform in matrix then matrix[platform] else {}
  }

  /** The platforms whose label matches the pattern, in iteration order. */
  function MatchingPlatforms(platforms: seq<string>, pattern: string): seq<string> {
    Filter(platforms, p => Matches(p, pattern))
  }

  /** The required versions a platform lacks, in the order they were required. */
  function MissingFor(matrix: Matrix, platform: string, required: seq<string>): seq<string> {
    Filter(required, v => v !in Built(matrix, platform))
  }

  // ---------------------------------------------------------------- specification

  /** `required_versions` after the loop that extends it by each item's versions. */
  function RequiredVersions(items: seq<string>, available: seq<string>): seq<string> {
    ConcatMap(items, Resolver(available))
  }

  /** `parse_version_requirement` as a function of the item. */
  function Resolver(available: seq<string>): string -> seq<string> {
    item => Resolution(Classify(item), available)
  }

  /** One message per matching platform that lacks some required version. */
  function PlatformErrors(matrix: Matrix, matching: seq<string>, required: seq<string>): seq<Error>
    decreases |matching|
  {
    if matching == [] then []
    else
      var platform := matching[|matching| - 1];
      var missing := MissingFor(matrix, platform, required);
      PlatformErrors(matrix, matching[..|matching| - 1], required)
        + (if missing != [] then [PlatformMissingVersions(platform, missing)] else [])
  }

  /** The messages for one entry of the requirement matrix. */
  function RecordErrors(record: Record, matrix: Matrix, platforms: seq<string>, versions: seq<string>): seq<Error> {
    var pattern := record.platform.GetOr("");
    if pattern == [] then []
    else
      var matching := MatchingPlatforms(platforms, pattern);
      if matching == [] then [NoMatchingPlatform(pattern)]
      else PlatformErrors(matrix, matching, RequiredVersions(Items(record.versions.GetOr("")), versions))
  }

  /** `f(x)` for each `x` of `xs` in turn, concatenated. */
  function ConcatMap<T, U>(xs: seq<T>, f: T -> seq<U>): seq<U>
    decreases |xs|
  {
    if xs == [] then [] else ConcatMap(xs[..|xs| - 1], f) + f(xs[|xs| - 1])
  }

  /** The check of one entry, as a function of the entry. */
  function EntryCheck(matrix: Matrix, platforms: seq<string>, versions: seq<string>): Record -> seq<Error> {
    record => RecordErrors(record, matrix, platforms, versions)
  }

  /** The messages for the entries of the requirement matrix, entry by entry. */
  function MatrixErrors(records: seq<Record>, matrix: Matrix, platforms: seq<string>, versions: seq<string>): seq<Error> {
    ConcatMap(records, EntryCheck(matrix, platforms, versions))
  }

  /** Required platforms that were not built, in the order they were required. */
  function MissingRequiredPlatforms(required: seq<string>, platforms: seq<string>): seq<string> {
    Filter(required, p => p !in platforms)
  }

  function PlatformRequirementErrors(requirePlatforms: string, platforms: seq<string>): seq<Error> {
    if requirePlatforms == [] then []
    else
      var missing := MissingRequiredPlatforms(Items(requirePlatforms), platforms);
      if missing != [] then [MissingPlatforms(missing)] else []
  }

  /** Required versions that no platform has, leaving out the free-threaded labels. */
  function MissingRequiredVersions(required: seq<string>, versions: seq<string>): seq<string> {
    Filter(required, v => v !in versions && !EndsWith(v, "t"))
  }

  function VersionRequirementErrors(requireVersions: string, versions: seq<string>): seq<Error> {
    if requireVersions == [] then []
    else MissingVersionErrors(RequiredVersions(Items(requireVersions), versions), versions)
  }

  /** The one message listing the required versions nobody built, if there are any. */
  function MissingVersionErrors(required: seq<string>, versions: seq<string>): seq<Error> {
    var missing := MissingRequiredVersions(required, versions);
    if missing != [] then [MissingVersions(missing)] else []
  }

  /** A regular CPython label: neither free-threaded nor PyPy. */
  predicate Regular(v: string) {
    !EndsWith(v, "t") && !StartsWith(v, "PyPy")
  }

  /** One message per regular label, in order, whose free-threaded twin `v + "t"` is not built. */
  function TwinErrors(regular: seq<string>, versions: seq<string>): seq<Error>
    decreases |regular|
  {
    if regular == [] then []
    else
      var version := regular[|regular| - 1];
      TwinErrors(regular[..|regular| - 1], versions)
        + (if version + "t" !in versions then [MissingFreeThreadedBuild(version)] else [])
  }

  /** The free-threaded policy: `3.14` and `3.14+` need `3.14t`, `all` needs every twin, anything else nothing. */
  function FreeThreadedErrors(policy: string, versions: seq<string>): seq<Error> {
    if policy == [] || policy == "none" then []
    else if policy == "3.14" || policy == "3.14+" then
      if "3.14t" !in versions then [MissingFreeThreaded314] else []
    else if policy == "all" then TwinErrors(Filter(versions, Regular), versions)
    else []
  }

  /** Everything `validate_requirements` reports, in order. */
  function ValidationErrors(matrix: Matrix, platforms: seq<string>, versions: seq<string>,
                            requirePlatforms: string, requireVersions: string, requireFreeThreaded: string,
                            requireMatrix: string, parsed: Option<seq<Record>>): seq<Error> {
    if requireMatrix != [] then
      match parsed
      case None => [InvalidJson(requireMatrix)]
      case Some(records) => MatrixErrors(records, matrix, platforms, versions)
    else
      PlatformRequirementErrors(requirePlatforms, platforms)
        + VersionRequirementErrors(requireVersions, versions)
        + FreeThreadedErrors(requireFreeThreaded, versions)
  }

  // ---------------------------------------------------------------- the loops

  /** The loop extending `required_versions` by each item's versions. */
  method ResolveAll(items: seq<string>, available: seq<string>) returns (required: seq<string>)
    ensures required == RequiredVersions(items, available)
  {
    required := [];
    for i := 0 to |items|
      invariant required == RequiredVersions(items[..i], available)
    {
      var versions := ParseVersionRequirement(items[i], available);
      ConcatMapStep(items, Resolver(available), i);
      required := required + versions;
    }
    assert items[..|items|] == items;
  }

  /** The loop over the matching platforms of one entry. */
  method CheckPlatforms(matrix: Matrix, matching: seq<string>, required: seq<string>) returns (errors: seq<Error>)
    ensures errors == PlatformErrors(matrix, matching, required)
  {
    errors := [];
    for i := 0 to |matching|
      invariant errors == PlatformErrors(matrix, matching[..i], required)
    {
      var platform := matching[i];
      var missing := MissingFor(matrix, platform, required);
      assert matching[..i + 1][..i] == matching[..i];
      if missing != [] {
        errors := errors + [PlatformMissingVersions(platform, missing)];
      }
    }
    assert matching[..|matching|] == matching;
  }

  /** The loop over the entries of the requirement matrix. */
  method CheckMatrix(records: seq<Record>, matrix: Matrix, platforms: seq<string>, versions: seq<string>)
    returns (errors: seq<Error>)
    ensures errors == MatrixErrors(records, matrix, platforms, versions)
  {
    errors := [];
    for i := 0 to |records|
      invariant errors == MatrixErrors(records[..i], matrix, platforms, versions)
    {
      ConcatMapStep(records, EntryCheck(matrix, platforms, versions), i);
      var record := records[i];
      var pattern := record.platform.GetOr("");
      if pattern == [] {
        continue;
      }
      var matching := MatchingPlatforms(platforms, pattern);
      if matching == [] {
        errors := errors + [NoMatchingPlatform(pattern)];
        continue;
      }
      var required := ResolveAll(Items(record.versions.GetOr("")), versions);
      var found := CheckPlatforms(matrix, matching, required);
      errors := errors + found;
    }
    assert records[..|records|] == records;
  }

  /** The loop over the regular labels under the `all` policy. */
  method CheckTwins(regular: seq<string>, versions: seq<string>) returns (errors: seq<Error>)
    ensures errors == TwinErrors(regular, versions)
  {
    errors := [];
    for i := 0 to |regular|
      invariant errors == TwinErrors(regular[..i], versions)
    {
      var version := regular[i];
      assert regular[..i + 1][..i] == regular[..i];
      if version + "t" !in versions {
        errors := errors + [MissingFreeThreadedBuild(version)];
      }
    }
    assert regular[..|regular|] == regular;
  }

  /** The check of the required platforms. */
  method CheckRequiredPlatforms(requirePlatforms: string, platforms: seq<string>) returns (errors: seq<Error>)
    ensures errors == PlatformRequirementErrors(requirePlatforms, platforms)
  {
    errors := [];
    if requirePlatforms != [] {
      var missing := MissingRequiredPlatforms(Items(requirePlatforms), platforms);
      if missing != [] {
        errors := errors + [MissingPlatforms(missing)];
      }
    }
  }

  /** The check of the required Python versions, across all platforms. */
  method CheckRequiredVersions(requireVersions: string, versions: seq<string>) returns (errors: seq<Error>)
    ensures errors == VersionRequirementErrors(requireVersions, versions)
  {
    errors := [];
    if requireVersions != [] {
      var required := ResolveAll(Items(requireVersions), versions);
      var missing := MissingRequiredVersions(required, versions);
      if missing != [] {
        errors := errors + [MissingVersions(missing)];
      }
      assert errors == MissingVersionErrors(required, versions);
    }
  }

  /** The check of the free-threaded policy. */
  method CheckFreeThreaded(policy: string, versions: seq<string>) returns (errors: seq<Error>)
    ensures errors == FreeThreadedErrors(policy, versions)
  {
    errors := [];
    if policy != [] && policy != "none" {
      if policy == "3.14" {
        if "3.14t" !in versions {
          errors := errors + [MissingFreeThreaded314];
        }
      } else if policy == "3.14+" {
        if "3.14t" !in versions {
          errors := errors + [MissingFreeThreaded314];
        }
      } else if policy == "all" {
        errors := CheckTwins(Filter(versions, Regular), versions);
      }
    }
  }

  /**
   * `validate_requirements`: whether every requirement is met, and the
   * message of each failure in the order they are found.
   */
  method ValidateRequirements(matrix: Matrix, platforms: seq<string>, versions: seq<string>,
                              requirePlatforms: string, requireVersions: string, requireFreeThreaded: string,
                              requireMatrix: string, parsed: Option<seq<Record>>)
    returns (ok: bool, messages: seq<string>)
    ensures messages == Messages(ValidationErrors(matrix, platforms, versions, requirePlatforms, requireVersions,
                                                  requireFreeThreaded, requireMatrix, parsed))
    ensures ok <==> messages == []
  {
    var errors: seq<Error> := [];
    if requireMatrix != [] {
      if parsed.None? {
        errors := errors + [InvalidJson(requireMatrix)];
        return false, Messages(errors);
      }
      errors := CheckMatrix(parsed.value, matrix, platforms, versions);
      return |errors| == 0, Messages(errors);
    }
    var platformErrors := CheckRequiredPlatforms(requirePlatforms, platforms);
    var versionErrors := CheckRequiredVersions(requireVersions, versions);
    var freeThreadedErrors := CheckFreeThreaded(requireFreeThreaded, versions);
    errors := platformErrors + versionErrors + freeThreadedErrors;
    ok := |errors| == 0;
    messages := Messages(errors);
  }

  // ---------------------------------------------------------------- properties

  /** With a requirement matrix given, the three global requirements are never looked at. */
  lemma MatrixModeExcludesGlobal(matrix: Matrix, platforms: seq<string>, versions: seq<string>,
                                 requirePlatforms: string, requireVersions: string, requireFreeThreaded: string,
                                 otherPlatforms: string, otherVersions: string, otherFreeThreaded: string,
                                 requireMatrix: string, parsed: Option<seq<Record>>)
    requires requireMatrix != []
    ensures ValidationErrors(matrix, platforms, versions, requirePlatforms, requireVersions, requireFreeThreaded,
                             requireMatrix, parsed)
         == ValidationErrors(matrix, platforms, versions, otherPlatforms, otherVersions, otherFreeThreaded,
                             requireMatrix, parsed)
  {
  }

  /** A requirement matrix that is not valid JSON gives exactly one failure, and nothing else is checked. */
  lemma InvalidJsonAlone(matrix: Matrix, platforms: seq<string>, versions: seq<string>,
                         requirePlatforms: string, requireVersions: string, requireFreeThreaded: string,
                         requireMatrix: string)
    requires requireMatrix != []
    ensures ValidationErrors(matrix, platforms, versions, requirePlatforms, requireVersions, requireFreeThreaded,
                             requireMatrix, None) == [InvalidJson(requireMatrix)]
  {
  }

  /**
   * The entries are checked one after the other: the failures of a list of
   * entries are those of its first part followed by those of the rest, so a
   * failing entry never stops the entries after it.
   */
  lemma MatrixErrorsConcat(first: seq<Record>, rest: seq<Record>,
                            matrix: Matrix, platforms: seq<string>, versions: seq<string>)
    ensures MatrixErrors(first + rest, matrix, platforms, versions)
         == MatrixErrors(first, matrix, platforms, versions) + MatrixErrors(rest, matrix, platforms, versions)
  {
    ConcatMapAppend(first, rest, EntryCheck(matrix, platforms, versions));
  }

  lemma {:induction false} ConcatMapAppend<T, U>(xs: seq<T>, ys: seq<T>, f: T -> seq<U>)
    ensures ConcatMap(xs + ys, f) == ConcatMap(xs, f) + ConcatMap(ys, f)
    decreases |ys|
  {
    if ys == [] {
      assert xs + ys == xs;
    } else {
      var init := ys[..|ys| - 1];
      ConcatMapAppend(xs, init, f);
      assert (xs + ys)[..|xs + ys| - 1] == xs + init;
      assert (xs + ys)[|xs + ys| - 1] == ys[|ys| - 1];
    }
  }

  /** A filter that keeps nothing gives the empty list. */
  lemma {:induction false} FilterNone<T(!new)>(s: seq<T>, keep: T -> bool)
    requires forall x :: x in s ==> !keep(x)
    ensures Filter(s, keep) == []
    decreases |s|
  {
    if s != [] {
      assert forall x :: x in s[1..] ==> x in s;
      FilterNone(s[1..], keep);
    }
  }

  /** Every version any one item resolves to is required, and only those are. */
  lemma RequiredVersionsCover(items: seq<string>, available: seq<string>, v: string)
    ensures v in RequiredVersions(items, available)
        <==> exists k :: 0 <= k < |items| && v in Resolution(Classify(items[k]), available)
  {
    ConcatMapMember(items, Resolver(available), v);
  }

  /** One more step of the loop that concatenates the parts. */
  lemma ConcatMapStep<T, U>(xs: seq<T>, f: T -> seq<U>, i: nat)
    requires i < |xs|
    ensures ConcatMap(xs[..i + 1], f) == ConcatMap(xs[..i], f) + f(xs[i])
  {
    assert xs[..i + 1][..i] == xs[..i];
  }

  /** Something is in the concatenation exactly when one of the parts holds it. */
  lemma {:induction false} ConcatMapMember<T, U>(xs: seq<T>, f: T -> seq<U>, u: U)
    ensures u in ConcatMap(xs, f) <==> exists k :: 0 <= k < |xs| && u in f(xs[k])
    decreases |xs|
  {
    if xs != [] {
      var n := |xs| - 1;
      ConcatMapMember(xs[..n], f, u);
      if u in ConcatMap(xs[..n], f) {
        var k :| 0 <= k < n && u in f(xs[..n][k]);
        assert xs[..n][k] == xs[k];
      } else if u !in f(xs[n]) {
        forall k | 0 <= k < |xs|
          ensures u !in f(xs[k])
        {
          if k < n {
            assert xs[..n][k] == xs[k];
          }
        }
      }
    }
  }

  /** Items already stripped and non-empty pass through unchanged. */
  lemma {:induction false} StrippedItemsKeep(items: seq<string>)
    requires forall i :: 0 <= i < |items| ==> items[i] != [] && Unpadded(items[i])
    ensures StrippedItems(items) == items
    decreases |items|
  {
    if items != [] {
      StripUnpadded(items[0]);
      StrippedItemsKeep(items[1..]);
    }
  }

  /**
   * Writing non-empty, unpadded items without commas as a comma-separated
   * list and reading it back gives the same items.
   */
  lemma ItemsOfJoin(items: seq<string>)
    requires forall i :: 0 <= i < |items| ==> items[i] != [] && Unpadded(items[i]) && ',' !in items[i]
    ensures Items(Join(items, ",")) == items
  {
    if items == [] {
      assert Split("", ',') == [""] by {
        SplitJoin([""], ',');
      }
      assert Strip("") == "";
    } else {
      SplitJoin(items, ',');
      StrippedItemsKeep(items);
    }
  }

  /** An entry without a platform pattern is skipped. */
  lemma EmptyPatternSkipped(record: Record, matrix: Matrix, platforms: seq<string>, versions: seq<string>)
    requires record.platform.GetOr("") == []
    ensures RecordErrors(record, matrix, platforms, versions) == []
  {
  }

  /** A pattern that matches no platform gives one failure naming it, whatever versions the entry lists. */
  lemma NoMatchReported(record: Record, matrix: Matrix, platforms: seq<string>, versions: seq<string>)
    requires record.platform.GetOr("") != []
    requires forall p :: p in platforms ==> !Matches(p, record.platform.GetOr(""))
    ensures RecordErrors(record, matrix, platforms, versions) == [NoMatchingPlatform(record.platform.GetOr(""))]
  {
    var pattern := record.platform.GetOr("");
    FilterNone(platforms, p => Matches(p, pattern));
  }

  /**
   * The failures for the matching platforms of an entry: at most one per
   * platform; each names a matching platform and exactly the required versions
   * it lacks (in the order they were required, never none); and every
   * matching platform that lacks a required version has its failure.
   */
  lemma {:induction false} PlatformErrorsSpec(matrix: Matrix, matching: seq<string>, required: seq<string>)
    ensures var errors := PlatformErrors(matrix, matching, required);
      && |errors| <= |matching|
      && (forall e :: e in errors ==>
            && e.PlatformMissingVersions?
            && e.platform in matching
            && e.missing == MissingFor(matrix, e.platform, required)
            && e.missing != []
            && forall v :: v in e.missing <==> v in required && v !in Built(matrix, e.platform))
      && forall p, v :: p in matching && v in required && v !in Built(matrix, p) ==>
           PlatformMissingVersions(p, MissingFor(matrix, p, required)) in errors
    decreases |matching|
  {
    if matching != [] {
      var init := matching[..|matching| - 1];
      var platform := matching[|matching| - 1];
      PlatformErrorsSpec(matrix, init, required);
      assert forall p :: p in matching <==> p in init || p == platform;
      var missing := MissingFor(matrix, platform, required);
      forall p, v | p in matching && v in required && v !in Built(matrix, p)
        ensures PlatformMissingVersions(p, MissingFor(matrix, p, required)) in PlatformErrors(matrix, matching, required)
      {
        if p == platform {
          assert v in missing;
        }
      }
    }
  }

  /**
   * A matching platform that lacks some required version has its failure once
   * for each time it is listed, and one that lacks none has no failure.
   */
  lemma {:induction false} PlatformErrorsCount(matrix: Matrix, matching: seq<string>, required: seq<string>)
    ensures forall p ::
      multiset(PlatformErrors(matrix, matching, required))[PlatformMissingVersions(p, MissingFor(matrix, p, required))]
        == if MissingFor(matrix, p, required) != [] then multiset(matching)[p] else 0
    decreases |matching|
  {
    if matching != [] {
      var init := matching[..|matching| - 1];
      var platform := matching[|matching| - 1];
      PlatformErrorsCount(matrix, init, required);
      assert matching == init + [platform];
    }
  }

  /** No platform is listed twice. */
  predicate Distinct(s: seq<string>) {
    forall i, j :: 0 <= i < j < |s| ==> s[i] != s[j]
  }

  /**
   * The matching platforms come from iterating a set, so none is listed twice:
   * then no two failures name the same platform.
   */
  lemma {:induction false} PlatformErrorsDistinct(matrix: Matrix, matching: seq<string>, required: seq<string>)
    requires Distinct(matching)
    ensures var errors := PlatformErrors(matrix, matching, required);
      && (forall i :: 0 <= i < |errors| ==> errors[i].PlatformMissingVersions? && errors[i].platform in matching)
      && forall i, j :: 0 <= i < j < |errors| ==> errors[i].platform != errors[j].platform
    decreases |matching|
  {
    if matching != [] {
      var init := matching[..|matching| - 1];
      var platform := matching[|matching| - 1];
      assert Distinct(init);
      PlatformErrorsDistinct(matrix, init, required);
      assert var errors := PlatformErrors(matrix, init, required);
        && (forall i :: 0 <= i < |errors| ==> errors[i].PlatformMissingVersions? && errors[i].platform in init)
        && forall i, j :: 0 <= i < j < |errors| ==> errors[i].platform != errors[j].platform;
      assert platform !in init;
      var prev := PlatformErrors(matrix, init, required);
      var missing := MissingFor(matrix, platform, required);
      var errors := prev + (if missing != [] then [PlatformMissingVersions(platform, missing)] else []);
      assert PlatformErrors(matrix, matching, required) == errors;
      forall i | 0 <= i < |errors|
        ensures errors[i].PlatformMissingVersions? && errors[i].platform in matching
      {
        if i < |prev| {
          assert errors[i] == prev[i];
          assert prev[i].platform in init;
        }
      }
      forall i, j | 0 <= i < j < |errors|
        ensures errors[i].platform != errors[j].platform
      {
        assert errors[i] == prev[i];
        if j == |prev| {
          assert errors[j].platform == platform;
          assert prev[i].platform in init;
        } else {
          assert errors[j] == prev[j];
        }
      }
    }
  }

  /**
   * The global platform check gives at most one failure; it lists exactly the
   * required platforms that were not built, and it is there whenever one was not.
   */
  lemma PlatformRequirementSpec(requirePlatforms: string, platforms: seq<string>)
    ensures var errors := PlatformRequirementErrors(requirePlatforms, platforms);
      var required := Items(requirePlatforms);
      && |errors| <= 1
      && (forall e :: e in errors ==>
            && e.MissingPlatforms?
            && e.platforms != []
            && forall p :: p in e.platforms <==> p in required && p !in platforms)
      && (requirePlatforms != [] && (exists p :: p in required && p !in platforms) ==> errors != [])
  {
    var required := Items(requirePlatforms);
    if requirePlatforms != [] && (exists p :: p in required && p !in platforms) {
      var p :| p in required && p !in platforms;
      assert p in MissingRequiredPlatforms(required, platforms);
    }
  }

  /**
   * The global version check gives at most one failure; it lists exactly the
   * required versions that no platform has, never a free-threaded label, and
   * it is there whenever some such version exists.
   */
  lemma VersionErrorsSpec(requireVersions: string, versions: seq<string>)
    ensures var errors := VersionRequirementErrors(requireVersions, versions);
      var required := RequiredVersions(Items(requireVersions), versions);
      && |errors| <= 1
      && (forall e :: e in errors ==>
            && e.MissingVersions?
            && e.versions != []
            && forall v :: v in e.versions <==> v in required && v !in versions && !EndsWith(v, "t"))
      && (requireVersions != [] && (exists v :: v in required && v !in versions && !EndsWith(v, "t")) ==> errors != [])
  {
    MissingVersionErrorsSpec(RequiredVersions(Items(requireVersions), versions), versions);
  }

  lemma MissingVersionErrorsSpec(required: seq<string>, versions: seq<string>)
    ensures var errors := MissingVersionErrors(required, versions);
      && |errors| <= 1
      && (forall e :: e in errors ==>
            && e.MissingVersions?
            && e.versions != []
            && forall v :: v in e.versions <==> v in required && v !in versions && !EndsWith(v, "t"))
      && ((exists v :: v in required && v !in versions && !EndsWith(v, "t")) ==> errors != [])
  {
    if exists v :: v in required && v !in versions && !EndsWith(v, "t") {
      var v :| v in required && v !in versions && !EndsWith(v, "t");
      assert v in MissingRequiredVersions(required, versions);
    }
  }

  /** The policies `3.14` and `3.14+` only ask for `3.14t`. */
  lemma FreeThreaded314(policy: string, versions: seq<string>)
    requires policy == "3.14" || policy == "3.14+"
    ensures FreeThreadedErrors(policy, versions) == if "3.14t" in versions then [] else [MissingFreeThreaded314]
  {
  }

  /** Any policy other than `3.14`, `3.14+` and `all` asks for nothing. */
  lemma FreeThreadedOtherPolicies(policy: string, versions: seq<string>)
    requires policy != "3.14" && policy != "3.14+" && policy != "all"
    ensures FreeThreadedErrors(policy, versions) == []
  {
  }

  /** One failure per label, in order, whose twin is missing, and no other. */
  lemma {:induction false} TwinErrorsSpec(regular: seq<string>, versions: seq<string>)
    ensures |TwinErrors(regular, versions)| <= |regular|
    ensures forall e :: e in TwinErrors(regular, versions) <==>
      exists v :: v in regular && v + "t" !in versions && e == MissingFreeThreadedBuild(v)
    decreases |regular|
  {
    if regular != [] {
      var init := regular[..|regular| - 1];
      TwinErrorsSpec(init, versions);
      assert forall v :: v in regular <==> v in init || v == regular[|regular| - 1];
    }
  }

  /** The failure for a label comes once per time the label is listed, unless its twin was built. */
  lemma {:induction false} TwinErrorsCount(regular: seq<string>, versions: seq<string>)
    ensures forall v ::
      multiset(TwinErrors(regular, versions))[MissingFreeThreadedBuild(v)]
        == if v + "t" in versions then 0 else multiset(regular)[v]
    decreases |regular|
  {
    if regular != [] {
      var init := regular[..|regular| - 1];
      TwinErrorsCount(init, versions);
      assert regular == init + [regular[|regular| - 1]];
    }
  }

  /**
   * The policy `all`: one failure for each regular CPython label (neither
   * free-threaded nor PyPy) whose free-threaded twin was not built, and no other.
   */
  lemma FreeThreadedAll(versions: seq<string>)
    ensures forall e :: e in FreeThreadedErrors("all", versions) <==>
      exists v :: v in versions && Regular(v) && v + "t" !in versions && e == MissingFreeThreadedBuild(v)
    ensures forall v ::
      multiset(FreeThreadedErrors("all", versions))[MissingFreeThreadedBuild(v)]
        == if Regular(v) && v + "t" !in versions then multiset(versions)[v] else 0
  {
    var regular := Filter(versions, Regular);
    assert FreeThreadedErrors("all", versions) == TwinErrors(regular, versions);
    TwinErrorsSpec(regular, versions);
    TwinErrorsCount(regular, versions);
    FilterCount(versions, Regular);
  }
}
