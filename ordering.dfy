/**
 * The display order of the summary table: platforms by operating system, then
 * architecture, then label (`sort_platforms`); Python versions by family, then
 * major and minor number, regular builds before free-threaded ones
 * (`sort_versions`).
 */
module Ordering {
  import opened Wrappers
  import opened Text
  import opened Sorting
  import opened WheelTags

  // ================================================================ strings

  /** Python's `<` on strings: code point by code point, a proper prefix first. */
  predicate StrLess(a: string, b: string)
    decreases |a|
  {
    if a == [] then b != []
    else b != [] && (a[0] < b[0] || (a[0] == b[0] && StrLess(a[1..], b[1..])))
  }

  lemma {:induction false} StrLessIrreflexive(a: string)
    ensures !StrLess(a, a)
    decreases |a|
  {
    if a != [] {
      StrLessIrreflexive(a[1..]);
    }
  }

  lemma {:induction false} StrLessTransitive(a: string, b: string, c: string)
    requires StrLess(a, b) && StrLess(b, c)
    ensures StrLess(a, c)
    decreases |a|
  {
    if a != [] && a[0] == b[0] && b[0] == c[0] {
      StrLessTransitive(a[1..], b[1..], c[1..]);
    }
  }

  /** Two different strings are always ordered one way or the other, and only one way. */
  lemma {:induction false} StrLessTotal(a: string, b: string)
    ensures a == b || StrLess(a, b) || StrLess(b, a)
    ensures !(StrLess(a, b) && StrLess(b, a))
    decreases |a|
  {
    if a != [] && b != [] && a[0] == b[0] {
      StrLessTotal(a[1..], b[1..]);
      if a[1..] == b[1..] {
        assert a == [a[0]] + a[1..] && b == [b[0]] + b[1..];
      }
    }
  }

  // ================================================================ platforms

  /** The rank of each operating-system word; any other word ranks 99. */
  const OsOrder: map<string, int> := map["Linux" := 0, "musllinux" := 1, "Windows" := 2, "macOS" := 3]

  /** The rank of each architecture word; any other word ranks 99. */
  const ArchOrder: map<string, int> := map[
    "x86_64" := 0, "x86" := 1, "ARM64" := 2, "aarch64" := 3,
    "armv7" := 4, "s390x" := 5, "ppc64le" := 6, "Universal2" := 7]

  /** `order.get(name, 99)`. */
  function Rank(order: map<string, int>, name: string): int {
    if name in order then order[name] else 99
  }

  /** `platform.split(" ", 1)`: the OS word and the rest, which is empty when there is no space. */
  function SplitLabel(platform: string): (r: (string, string))
    ensures ' ' !in r.0
    ensures ' ' in platform ==> platform == r.0 + " " + r.1
    ensures ' ' !in platform ==> r == (platform, "")
  {
    if ' ' in platform then SplitOnce(platform, ' ') else (platform, "")
  }

  /** A label built as `<os> <arch>` splits back into its two words. */
  lemma SplitLabelOf(os: string, arch: string)
    requires ' ' !in os
    ensures SplitLabel(os + " " + arch) == (os, arch)
  {
    var platform := os + " " + arch;
    assert platform == os + [' '] + arch;
    assert platform[|os|] == ' ';
    IndexOfAfter(os, ' ', arch);
    assert platform[..|os|] == os;
    assert platform[|os| + 1..] == arch;
  }

  datatype PlatformKey = PlatformKey(os: int, arch: int, name: string)

  /** `platform_sort_key`. */
  function PlatformSortKey(platform: string): (k: PlatformKey)
    ensures k.name == platform
    ensures (0 <= k.os <= 3 || k.os == 99) && (0 <= k.arch <= 7 || k.arch == 99)
  {
    var (os, arch) := SplitLabel(platform);
    PlatformKey(Rank(OsOrder, os), Rank(ArchOrder, arch), platform)
  }

  /** Python's `<=` on the key tuples. */
  predicate PlatformKeyLe(a: PlatformKey, b: PlatformKey) {
    a.os < b.os || (a.os == b.os && (a.arch < b.arch || (a.arch == b.arch && !StrLess(b.name, a.name))))
  }

  predicate PlatformLe(a: string, b: string) {
    PlatformKeyLe(PlatformSortKey(a), PlatformSortKey(b))
  }

  /** Python's `<=` on the key tuples is a total order. */
  lemma PlatformKeyLeOrder(a: PlatformKey, b: PlatformKey, c: PlatformKey)
    ensures PlatformKeyLe(a, b) || PlatformKeyLe(b, a)
    ensures PlatformKeyLe(a, b) && PlatformKeyLe(b, c) ==> PlatformKeyLe(a, c)
    ensures PlatformKeyLe(a, b) && PlatformKeyLe(b, a) ==> a == b
  {
    StrLessTotal(a.name, b.name);
    StrLessTotal(b.name, c.name);
    StrLessTotal(a.name, c.name);
    if StrLess(c.name, a.name) && StrLess(a.name, b.name) {
      StrLessTransitive(c.name, a.name, b.name);
    }
    if StrLess(b.name, c.name) && StrLess(c.name, a.name) {
      StrLessTransitive(b.name, c.name, a.name);
    }
  }

  /** The platform order is a total preorder, and two labels tie only when they are equal. */
  lemma PlatformLeOrder()
    ensures TotalPreorder(PlatformLe)
    ensures forall a, b :: PlatformLe(a, b) && PlatformLe(b, a) ==> a == b
  {
    forall a, b, c
      ensures PlatformLe(a, b) || PlatformLe(b, a)
      ensures PlatformLe(a, b) && PlatformLe(b, c) ==> PlatformLe(a, c)
      ensures PlatformLe(a, b) && PlatformLe(b, a) ==> a == b
    {
      PlatformKeyLeOrder(PlatformSortKey(a), PlatformSortKey(b), PlatformSortKey(c));
    }
  }

  /** `sort_platforms` on the set's elements in their iteration order. */
  function SortPlatforms(platforms: seq<string>): (r: seq<string>)
    ensures multiset(r) == multiset(platforms)
    ensures SortedBy(r, PlatformLe)
  {
    PlatformLeOrder();
    SortBySorted(platforms, PlatformLe);
    SortBy(platforms, PlatformLe)
  }

  /** The platform order does not depend on the iteration order of the set. */
  lemma SortPlatformsUnique(xs: seq<string>, ys: seq<string>)
    requires multiset(xs) == multiset(ys)
    ensures SortPlatforms(xs) == SortPlatforms(ys)
  {
    PlatformLeOrder();
    SortedUnique(SortPlatforms(xs), SortPlatforms(ys), PlatformLe);
  }

  /** The key of a label spelled `<os> <arch>`. */
  lemma PlatformKeyOf(os: string, arch: string)
    requires ' ' !in os
    ensures PlatformSortKey(os + " " + arch) == PlatformKey(Rank(OsOrder, os), Rank(ArchOrder, arch), os + " " + arch)
  {
    SplitLabelOf(os, arch);
  }

  /** The key of a label spelled `<os> <arch>`, with the OS word and the space written together. */
  lemma PlatformKeyOfPrefix(os: string, arch: string)
    requires ' ' !in os
    ensures PlatformSortKey(os + " " + arch).os == Rank(OsOrder, os)
    ensures PlatformSortKey(os + " " + arch).arch == Rank(ArchOrder, arch)
  {
    PlatformKeyOf(os, arch);
  }

  /*
   * Every label `platform_name` produces falls in its family's rank: Linux
   * first, then musllinux, Windows and macOS; a tag no rule recognises ranks
   * last. One lemma per branch of `platform_name`, in its order.
   */

  lemma MacPlatformRank(platformTag: string)
    requires StartsWith(Lower(platformTag), "macosx")
    ensures PlatformSortKey(PlatformName(platformTag)).os == 3
  {
    MacNameRank(Lower(platformTag));
  }

  lemma WindowsPlatformRank(platformTag: string)
    requires var p := Lower(platformTag); !StartsWith(p, "macosx") && StartsWith(p, "win")
    ensures PlatformSortKey(PlatformName(platformTag)).os == 2
  {
    WindowsNameRank(Lower(platformTag));
  }

  lemma ManylinuxPlatformRank(platformTag: string)
    requires var p := Lower(platformTag);
      !StartsWith(p, "macosx") && !StartsWith(p, "win") && Contains(p, "manylinux")
    ensures PlatformSortKey(PlatformName(platformTag)).os == 0
  {
    LinuxKey(ExtractArch(Lower(platformTag)));
  }

  lemma MusllinuxPlatformRank(platformTag: string)
    requires var p := Lower(platformTag);
      !StartsWith(p, "macosx") && !StartsWith(p, "win") && !Contains(p, "manylinux") && Contains(p, "musllinux")
    ensures PlatformSortKey(PlatformName(platformTag)).os == 1
  {
    MuslKey(ExtractArch(Lower(platformTag)));
  }

  lemma LinuxPlatformRank(platformTag: string)
    requires var p := Lower(platformTag);
      && !StartsWith(p, "macosx") && !StartsWith(p, "win") && !Contains(p, "manylinux")
      && !Contains(p, "musllinux") && Contains(p, "linux")
    ensures PlatformSortKey(PlatformName(platformTag)).os == 0
  {
    LinuxKey(ExtractArch(Lower(platformTag)));
  }

  lemma UnknownPlatformRank(platformTag: string)
    requires var p := Lower(platformTag);
      !StartsWith(p, "macosx") && !StartsWith(p, "win") && !Contains(p, "linux")
    ensures PlatformSortKey(PlatformName(platformTag)).os == 99
  {
    var p := Lower(platformTag);
    UnknownPlatformName(p);
    RawTagRank(p);
  }

  /** Outside every family, `platform_name` gives the lower-cased tag. */
  lemma UnknownPlatformName(p: string)
    requires !StartsWith(p, "macosx") && !StartsWith(p, "win") && !Contains(p, "linux")
    ensures LoweredPlatformName(p) == p
  {
    assert "many" + "linux" == "manylinux" && "musl" + "linux" == "musllinux";
    if Contains(p, "manylinux") {
      LinuxInFamily(p, "many");
    }
    if Contains(p, "musllinux") {
      LinuxInFamily(p, "musl");
    }
  }

  /** A tag holding `manylinux` or `musllinux` holds `linux`. */
  lemma LinuxInFamily(p: string, stem: string)
    requires Contains(p, stem + "linux")
    ensures Contains(p, "linux")
  {
    var i := ContainsWitness(p, stem + "linux");
    var j := i + |stem| + 5;
    assert p[i..j] == stem + "linux";
    assert p == p[..i] + p[i..j] + p[j..];
    assert p == (p[..i] + stem) + "linux" + p[j..];
    ContainsInfix(p[..i] + stem, "linux", p[j..]);
  }

  /** A label that is an OS word, or starts with that word and a space, has that word's rank. */
  lemma OsRankByPrefix(platform: string, os: string)
    requires ' ' !in os
    requires platform == os || StartsWith(platform, os + " ")
    ensures PlatformSortKey(platform).os == Rank(OsOrder, os)
  {
    if platform != os {
      assert platform == os + " " + platform[|os| + 1..];
      PlatformKeyOf(os, platform[|os| + 1..]);
    }
  }

  lemma MacNameShape(p: string)
    ensures MacName(p) == "macOS" || StartsWith(MacName(p), "macOS ")
  {
  }

  lemma WindowsNameShape(p: string)
    ensures WindowsName(p) == "Windows" || StartsWith(WindowsName(p), "Windows ")
  {
  }

  lemma MacNameRank(p: string)
    ensures PlatformSortKey(MacName(p)).os == 3
  {
    MacNameShape(p);
    OsRankByPrefix(MacName(p), "macOS");
  }

  lemma WindowsNameRank(p: string)
    ensures PlatformSortKey(WindowsName(p)).os == 2
  {
    WindowsNameShape(p);
    OsRankByPrefix(WindowsName(p), "Windows");
  }

  /** The OS rank of a Linux label. */
  lemma LinuxKey(arch: string)
    ensures PlatformSortKey("Linux " + arch).os == 0
  {
    assert "Linux" + " " + arch == "Linux " + arch;
    PlatformKeyOf("Linux", arch);
  }

  /** The OS rank of a musllinux label. */
  lemma MuslKey(arch: string)
    ensures PlatformSortKey("musllinux " + arch).os == 1
  {
    assert "musllinux" + " " + arch == "musllinux " + arch;
    PlatformKeyOf("musllinux", arch);
  }

  /** The key of a Windows label. */
  lemma WindowsKey(arch: string)
    ensures PlatformSortKey("Windows " + arch) == PlatformKey(2, Rank(ArchOrder, arch), "Windows " + arch)
  {
    assert "Windows" + " " + arch == "Windows " + arch;
    PlatformKeyOf("Windows", arch);
  }

  /** The OS word of a label is where the label starts. */
  lemma OsWordPrefix(p: string)
    ensures StartsWith(p, SplitLabel(p).0)
  {
    if ' ' in p {
      assert p == SplitLabel(p).0 + (" " + SplitLabel(p).1);
    }
  }

  /** Every ranked OS word but `musllinux` holds a capital letter, so any other word ranks 99. */
  lemma OsWords(os: string)
    requires os != "musllinux"
    requires forall i :: 0 <= i < |os| ==> !('A' <= os[i] <= 'Z')
    ensures Rank(OsOrder, os) == 99
  {
    assert "Linux"[0] == 'L' && "Windows"[0] == 'W' && "macOS"[3] == 'O';
    assert os != "Linux" && os != "Windows" && os != "macOS";
  }

  /** A label starting with `musllinux` contains `linux`. */
  lemma MuslContainsLinux(p: string)
    requires StartsWith(p, "musllinux")
    ensures Contains(p, "linux")
  {
    assert p[..9] == "musllinux";
    assert "musl" + "linux" == "musllinux";
    assert p == "musl" + "linux" + p[9..];
    ContainsInfix("musl", "linux", p[9..]);
  }


  /** A lower-cased tag outside every family never starts with a ranked OS word. */
  lemma RawTagRank(p: string)
    requires forall i :: 0 <= i < |p| ==> !('A' <= p[i] <= 'Z')
    requires !Contains(p, "linux")
    ensures PlatformSortKey(p).os == 99
  {
    UnrankedWord(p);
  }

  /** The first word of such a tag is not a ranked OS word. */
  lemma UnrankedWord(p: string)
    requires forall i :: 0 <= i < |p| ==> !('A' <= p[i] <= 'Z')
    requires !Contains(p, "linux")
    ensures Rank(OsOrder, SplitLabel(p).0) == 99
  {
    var os := SplitLabel(p).0;
    OsWordPrefix(p);
    NotMuslWord(p, os);
    NotCapitalisedWord(p, os);
    OsWords(os);
  }

  /** A label without `linux` does not start with `musllinux`. */
  lemma NotMuslWord(p: string, os: string)
    requires !Contains(p, "linux") && StartsWith(p, os)
    ensures os != "musllinux"
  {
    if os == "musllinux" {
      MuslContainsLinux(p);
    }
  }

  /** A label without capital letters does not start with a word that has one. */
  lemma NotCapitalisedWord(p: string, os: string)
    requires forall i :: 0 <= i < |p| ==> !('A' <= p[i] <= 'Z')
    requires StartsWith(p, os)
    ensures forall i :: 0 <= i < |os| ==> !('A' <= os[i] <= 'Z')
  {
    forall i | 0 <= i < |os|
      ensures !('A' <= os[i] <= 'Z')
    {
      assert p[i] == os[i];
    }
  }

  /** The ranks of the three Windows architecture words. */
  lemma WindowsArchRanks()
    ensures Rank(ArchOrder, "x64") == 99
    ensures Rank(ArchOrder, "ARM64") == 2
    ensures Rank(ArchOrder, "x86") == 1
  {
  }

  lemma WindowsLabels()
    ensures "Windows " + "x64" == "Windows x64"
    ensures "Windows " + "ARM64" == "Windows ARM64"
    ensures "Windows " + "x86" == "Windows x86"
  {
  }

  /**
   * The architecture table has no entry for `x64`, the word `platform_name` uses
   * for 64-bit Windows, so `Windows x64` ranks 99 and sorts after the other
   * Windows builds.
   */
  lemma WindowsX64SortsLast()
    ensures PlatformLe("Windows ARM64", "Windows x64") && !PlatformLe("Windows x64", "Windows ARM64")
    ensures PlatformLe("Windows x86", "Windows x64") && !PlatformLe("Windows x64", "Windows x86")
  {
    WindowsKey("x64");
    WindowsKey("ARM64");
    WindowsKey("x86");
    WindowsArchRanks();
    WindowsLabels();
  }

  // ================================================================ versions

  /**
   * Reference reading of a match of `(\d+)\.(\d+)` at the start of `s`: both
   * groups are whole (greedy) runs of digits.
   */
  ghost predicate PairMatches(s: string, major: string, minor: string, rest: string) {
    && s == major + "." + minor + rest
    && major != [] && AllDigits(major)
    && minor != [] && AllDigits(minor)
    && (rest == [] || !IsDigit(rest[0]))
  }

  /** Scanner for `re.match(r"(\d+)\.(\d+)", s)`: the two groups and the text after the match. */
  function NumberPair(s: string): (m: Option<(string, string, string)>)
    ensures m.Some? ==> PairMatches(s, m.value.0, m.value.1, m.value.2)
  {
    var a := DigitRun(s);
    if a == 0 || a == |s| || s[a] != '.' then None
    else
      var after := s[a + 1..];
      var b := DigitRun(after);
      if b == 0 then None
      else
        assert s == s[..a] + "." + after[..b] + after[b..];
        Some((s[..a], after[..b], after[b..]))
  }

  /** The scanner finds every match of the reference reading, with the same groups. */
  lemma NumberPairComplete(s: string, major: string, minor: string, rest: string)
    requires PairMatches(s, major, minor, rest)
    ensures NumberPair(s) == Some((major, minor, rest))
  {
    var after := minor + rest;
    assert s == major + ['.'] + after;
    DigitRunOf(major, ['.'] + after);
    assert major + ['.'] + after == major + (['.'] + after);
    SliceAround(major, '.', after);
    DigitRunOf(minor, rest);
    SliceAround(minor, ' ', rest);
  }

  /** The pieces of `a + [c] + b`, and of `a + b`, taken back apart. */
  lemma SliceAround(a: string, c: char, b: string)
    ensures var s := a + [c] + b; s[|a|] == c && s[..|a|] == a && s[|a| + 1..] == b
    ensures (a + b)[..|a|] == a && (a + b)[|a|..] == b
  {
  }

  /** `(family, major, minor, free-threaded)`: 0 for CPython, 1 for PyPy, 99 for anything else. */
  datatype VersionKey = VersionKey(family: int, major: int, minor: int, freeThreaded: int)

  /**
   * `version_sort_key`: a PyPy label, then a free-threaded label, then a
   * regular `major.minor` label; any other label sorts last.
   */
  function VersionSortKey(version: string): (k: VersionKey)
    ensures k.family in {0, 1, 99} && k.freeThreaded in {0, 1}
    ensures k.family == 1 ==> StartsWith(version, "PyPy") && k.freeThreaded == 0
    ensures k.freeThreaded == 1 ==> k.family == 0 && EndsWith(version, "t")
    ensures k.family == 99 <==> NumberPair(version).None? && !(StartsWith(version, "PyPy") && NumberPair(version[4..]).Some?)
    ensures k.family == 99 ==> k == VersionKey(99, 0, 0, 0)
  {
    var pypy := if StartsWith(version, "PyPy") then NumberPair(version[4..]) else None;
    if pypy.Some? then VersionKey(1, DigitsValue(pypy.value.0), DigitsValue(pypy.value.1), 0)
    else
      var m := NumberPair(version);
      if EndsWith(version, "t") && m.Some? && m.value.2 != [] && m.value.2[0] == 't' then
        VersionKey(0, DigitsValue(m.value.0), DigitsValue(m.value.1), 1)
      else if m.Some? then VersionKey(0, DigitsValue(m.value.0), DigitsValue(m.value.1), 0)
      else VersionKey(99, 0, 0, 0)
  }

  /** Python's `<=` on the key tuples. */
  predicate VersionKeyLe(a: VersionKey, b: VersionKey) {
    || a.family < b.family
    || (a.family == b.family && a.major < b.major)
    || (a.family == b.family && a.major == b.major && a.minor < b.minor)
    || (a.family == b.family && a.major == b.major && a.minor == b.minor && a.freeThreaded <= b.freeThreaded)
  }

  predicate VersionLe(a: string, b: string) {
    VersionKeyLe(VersionSortKey(a), VersionSortKey(b))
  }

  lemma VersionLeOrder()
    ensures TotalPreorder(VersionLe)
  {
  }

  /** `sort_versions` on the set's elements in their iteration order. */
  function SortVersions(versions: seq<string>): (r: seq<string>)
    ensures multiset(r) == multiset(versions)
    ensures SortedBy(r, VersionLe)
  {
    VersionLeOrder();
    SortBySorted(versions, VersionLe);
    SortBy(versions, VersionLe)
  }

  /**
   * The keys of the labels `python_version` produces: `M.m` is `(0, M, m, 0)`,
   * `M.mt` is `(0, M, m, 1)` and `PyPyM.m` is `(1, M, m, 0)`, the numbers read
   * as integers.
   */
  lemma VersionKeyOfLabels(major: char, minor: string)
    requires IsDigit(major) && minor != [] && AllDigits(minor)
    ensures VersionSortKey(DottedLabel(major, minor)) == VersionKey(0, DigitValue(major), DigitsValue(minor), 0)
    ensures VersionSortKey(DottedLabel(major, minor) + "t") == VersionKey(0, DigitValue(major), DigitsValue(minor), 1)
    ensures VersionSortKey("PyPy" + DottedLabel(major, minor)) == VersionKey(1, DigitValue(major), DigitsValue(minor), 0)
  {
    var text := DottedLabel(major, minor);
    assert [major][..0] == [];
    assert DigitsValue([major]) == DigitValue(major);
    assert text == [major] + "." + minor + "";
    assert !StartsWith(text, "PyPy") && !StartsWith(text + "t", "PyPy");
    RegularLabelKey(text, [major], minor);
    FreeThreadedLabelKey(text, [major], minor);
    PyPyLabelKey(text, [major], minor);
  }

  /** A regular `M.m` label: CPython, not free-threaded. */
  lemma RegularLabelKey(text: string, major: string, minor: string)
    requires PairMatches(text, major, minor, "") && !StartsWith(text, "PyPy")
    ensures VersionSortKey(text) == VersionKey(0, DigitsValue(major), DigitsValue(minor), 0)
  {
    NumberPairComplete(text, major, minor, "");
    assert !EndsWith(text, "t") by {
      assert text[|text| - 1] == minor[|minor| - 1];
    }
  }

  /** The same label with `t` after it: CPython, free-threaded. */
  lemma FreeThreadedLabelKey(text: string, major: string, minor: string)
    requires PairMatches(text, major, minor, "") && !StartsWith(text + "t", "PyPy")
    ensures VersionSortKey(text + "t") == VersionKey(0, DigitsValue(major), DigitsValue(minor), 1)
  {
    assert text + "t" == major + "." + minor + "t";
    NumberPairComplete(text + "t", major, minor, "t");
  }

  /** The same label with `PyPy` before it: the PyPy family. */
  lemma PyPyLabelKey(text: string, major: string, minor: string)
    requires PairMatches(text, major, minor, "")
    ensures VersionSortKey("PyPy" + text) == VersionKey(1, DigitsValue(major), DigitsValue(minor), 0)
  {
    var pp := "PyPy" + text;
    assert pp[4..] == text;
    NumberPairComplete(text, major, minor, "");
  }

  /** Within one CPython major version, minors are compared as numbers: `3.9` before `3.10`. */
  lemma NumericMinorOrder(major: char, minor1: string, minor2: string)
    requires IsDigit(major) && minor1 != [] && AllDigits(minor1) && minor2 != [] && AllDigits(minor2)
    requires DigitsValue(minor1) < DigitsValue(minor2)
    ensures VersionLe(DottedLabel(major, minor1), DottedLabel(major, minor2))
    ensures !VersionLe(DottedLabel(major, minor2), DottedLabel(major, minor1))
  {
    VersionKeyOfLabels(major, minor1);
    VersionKeyOfLabels(major, minor2);
  }

  /**
   * A free-threaded build sorts right after the regular build of the same
   * version: after it, and nothing sorts strictly between the two.
   */
  lemma FreeThreadedFollowsRegular(major: char, minor: string, other: string)
    requires IsDigit(major) && minor != [] && AllDigits(minor)
    ensures VersionLe(DottedLabel(major, minor), DottedLabel(major, minor) + "t")
    ensures !VersionLe(DottedLabel(major, minor) + "t", DottedLabel(major, minor))
    ensures VersionLe(DottedLabel(major, minor), other) && VersionLe(other, DottedLabel(major, minor) + "t") ==>
      VersionSortKey(other) == VersionSortKey(DottedLabel(major, minor))
      || VersionSortKey(other) == VersionSortKey(DottedLabel(major, minor) + "t")
  {
    VersionKeyOfLabels(major, minor);
  }

  /** Every PyPy label sorts after every CPython label, regular or free-threaded. */
  lemma PyPyAfterCPython(major: char, minor: string, cpMajor: char, cpMinor: string, ft: bool)
    requires IsDigit(major) && minor != [] && AllDigits(minor)
    requires IsDigit(cpMajor) && cpMinor != [] && AllDigits(cpMinor)
    ensures var cp := DottedLabel(cpMajor, cpMinor) + (if ft then "t" else "");
      VersionLe(cp, "PyPy" + DottedLabel(major, minor)) && !VersionLe("PyPy" + DottedLabel(major, minor), cp)
  {
    VersionKeyOfLabels(major, minor);
    VersionKeyOfLabels(cpMajor, cpMinor);
    assert DottedLabel(cpMajor, cpMinor) + "" == DottedLabel(cpMajor, cpMinor);
  }

  /** A label that is neither `M.m`-shaped nor a PyPy label sorts after all of them. */
  lemma UnknownVersionsLast(version: string, major: char, minor: string)
    requires NumberPair(version).None?
    requires !StartsWith(version, "PyPy") || NumberPair(version[4..]).None?
    requires IsDigit(major) && minor != [] && AllDigits(minor)
    ensures VersionSortKey(version) == VersionKey(99, 0, 0, 0)
    ensures !VersionLe(version, "PyPy" + DottedLabel(major, minor))
  {
    VersionKeyOfLabels(major, minor);
  }
}
