/**
 * Decoding of wheel file names (the file name convention of PEP 427:
 * `{distribution}-{version}(-{build})?-{python}-{abi}-{platform}.whl`)
 * into a human-readable Python version label and platform label.
 * Models `WheelInfo`, `parse_wheel_filename` and the tag-decoding properties
 * of generate_summary.py.
 */
module WheelTags {
  import opened Wrappers
  import opened Text

  /** The three trailing tags of a wheel file name, verbatim. */
  datatype WheelInfo = WheelInfo(pythonTag: string, abiTag: string, platformTag: string)

  // ================================================================ version tags

  /** The groups of `<prefix>(\d)(\d+)` matched at the start of a tag, and the text after them. */
  datatype TagDigits = TagDigits(major: char, minor: string, rest: string)

  /**
   * Reference reading of `re.match(prefix + r"(\d)(\d+)", tag)` yielding these groups:
   * one digit for the major version, then the whole (greedy) run of digits for the minor.
   */
  ghost predicate TagMatches(tag: string, prefix: string, major: char, minor: string, rest: string) {
    && tag == prefix + [major] + minor + rest
    && IsDigit(major)
    && minor != [] && AllDigits(minor)
    && (rest == [] || !IsDigit(rest[0]))
  }

  ghost predicate IsTag(tag: string, prefix: string) {
    exists major, minor, rest :: TagMatches(tag, prefix, major, minor, rest)
  }

  /** Reference reading of a match of `cp(\d)(\d+)t`: the digit run is followed by `t`. */
  ghost predicate FreeThreadedMatches(tag: string, major: char, minor: string, rest: string) {
    TagMatches(tag, "cp", major, minor, rest) && rest != [] && rest[0] == 't'
  }

  ghost predicate IsFreeThreadedTag(tag: string) {
    exists major, minor, rest :: FreeThreadedMatches(tag, major, minor, rest)
  }

  /** Hand-written scanner for `re.match(prefix + r"(\d)(\d+)", tag)`. */
  function ScanTag(tag: string, prefix: string): (m: Option<TagDigits>)
    ensures m.Some? ==> TagMatches(tag, prefix, m.value.major, m.value.minor, m.value.rest)
  {
    if StartsWith(tag, prefix) && |tag| > |prefix| + 1 && IsDigit(tag[|prefix|]) then
      var after := tag[|prefix| + 1..];
      var n := DigitRun(after);
      if n == 0 then None
      else
        assert tag == prefix + [tag[|prefix|]] + after[..n] + after[n..];
        Some(TagDigits(tag[|prefix|], after[..n], after[n..]))
    else None
  }

  /** Scanner for `re.match(r"cp(\d)(\d+)t", tag)`. */
  function ScanFreeThreaded(tag: string): (m: Option<TagDigits>)
    ensures m.Some? ==> FreeThreadedMatches(tag, m.value.major, m.value.minor, m.value.rest)
  {
    var m := ScanTag(tag, "cp");
    if m.Some? && m.value.rest != [] && m.value.rest[0] == 't' then m else None
  }

  /** The scanner finds every match of the reference reading, with the same groups. */
  lemma ScanTagComplete(tag: string, prefix: string, major: char, minor: string, rest: string)
    requires TagMatches(tag, prefix, major, minor, rest)
    ensures ScanTag(tag, prefix) == Some(TagDigits(major, minor, rest))
  {
    var after := tag[|prefix| + 1..];
    assert after == minor + rest;
    DigitRunOf(minor, rest);
    assert after[..|minor|] == minor;
    assert after[|minor|..] == rest;
  }

  /** The tag scanner succeeds exactly on the tags the pattern matches. */
  lemma ScanTagExact(tag: string, prefix: string)
    ensures ScanTag(tag, prefix).Some? <==> IsTag(tag, prefix)
  {
    var m := ScanTag(tag, prefix);
    if m.Some? {
      assert TagMatches(tag, prefix, m.value.major, m.value.minor, m.value.rest);
    }
    if IsTag(tag, prefix) {
      var major, minor, rest :| TagMatches(tag, prefix, major, minor, rest);
      ScanTagComplete(tag, prefix, major, minor, rest);
    }
  }

  /** The free-threaded scanner succeeds exactly on the tags `cp(\d)(\d+)t` matches. */
  lemma ScanFreeThreadedExact(tag: string)
    ensures ScanFreeThreaded(tag).Some? <==> IsFreeThreadedTag(tag)
  {
    var m := ScanFreeThreaded(tag);
    if m.Some? {
      assert FreeThreadedMatches(tag, m.value.major, m.value.minor, m.value.rest);
    }
    if IsFreeThreadedTag(tag) {
      var major, minor, rest :| FreeThreadedMatches(tag, major, minor, rest);
      ScanTagComplete(tag, "cp", major, minor, rest);
    }
  }

  /** `<major>.<minor>`, the groups copied verbatim. */
  function DottedLabel(major: char, minor: string): string {
    [major] + "." + minor
  }

  /**
   * `WheelInfo.python_version`: rules tried in a fixed order, the first match wins —
   * free-threaded marker in the python tag, then in the ABI tag, then a CPython
   * tag, then a PyPy tag; otherwise the python tag verbatim.
   */
  function PythonVersion(w: WheelInfo): (r: string)
    ensures r == w.pythonTag || EndsWith(r, "t") || StartsWith(r, "PyPy") || (|r| >= 3 && IsDigit(r[0]) && r[1] == '.')
  {
    var ftPython := ScanFreeThreaded(w.pythonTag);
    if ftPython.Some? then DottedLabel(ftPython.value.major, ftPython.value.minor) + "t"
    else
      var ftAbi := ScanFreeThreaded(w.abiTag);
      if ftAbi.Some? then DottedLabel(ftAbi.value.major, ftAbi.value.minor) + "t"
      else
        var cp := ScanTag(w.pythonTag, "cp");
        if cp.Some? then DottedLabel(cp.value.major, cp.value.minor)
        else
          var pp := ScanTag(w.pythonTag, "pp");
          if pp.Some? then "PyPy" + DottedLabel(pp.value.major, pp.value.minor)
          else w.pythonTag
  }

  /** Rule 1: a free-threaded python tag (`cp314t`) gives `3.14t`, whatever the ABI tag. */
  lemma FreeThreadedPythonTag(w: WheelInfo, major: char, minor: string, rest: string)
    requires FreeThreadedMatches(w.pythonTag, major, minor, rest)
    ensures PythonVersion(w) == DottedLabel(major, minor) + "t"
  {
    ScanTagComplete(w.pythonTag, "cp", major, minor, rest);
  }

  /** Rule 2: otherwise a free-threaded ABI tag (`cp314-cp314t`) gives `3.14t`. */
  lemma FreeThreadedAbiTag(w: WheelInfo, major: char, minor: string, rest: string)
    requires !IsFreeThreadedTag(w.pythonTag)
    requires FreeThreadedMatches(w.abiTag, major, minor, rest)
    ensures PythonVersion(w) == DottedLabel(major, minor) + "t"
  {
    ScanFreeThreadedExact(w.pythonTag);
    ScanTagComplete(w.abiTag, "cp", major, minor, rest);
  }

  /** Rule 3: otherwise a CPython tag (`cp312`, `cp38`) gives `3.12`, `3.8`. */
  lemma CPythonTag(w: WheelInfo, major: char, minor: string, rest: string)
    requires !IsFreeThreadedTag(w.pythonTag) && !IsFreeThreadedTag(w.abiTag)
    requires TagMatches(w.pythonTag, "cp", major, minor, rest)
    ensures PythonVersion(w) == DottedLabel(major, minor)
  {
    ScanFreeThreadedExact(w.pythonTag);
    ScanFreeThreadedExact(w.abiTag);
    ScanTagComplete(w.pythonTag, "cp", major, minor, rest);
  }

  /** Rule 4: otherwise a PyPy tag (`pp39`, `pp310`) gives `PyPy3.9`, `PyPy3.10`. */
  lemma PyPyTag(w: WheelInfo, major: char, minor: string, rest: string)
    requires !IsFreeThreadedTag(w.abiTag)
    requires TagMatches(w.pythonTag, "pp", major, minor, rest)
    ensures PythonVersion(w) == "PyPy" + DottedLabel(major, minor)
  {
    assert w.pythonTag[0] == 'p';
    ScanTagExact(w.pythonTag, "cp");
    ScanFreeThreadedExact(w.abiTag);
    ScanTagComplete(w.pythonTag, "pp", major, minor, rest);
  }

  /** Rule 5: a tag no rule recognises is reported under its own name. */
  lemma UnknownPythonTag(w: WheelInfo)
    requires !IsFreeThreadedTag(w.pythonTag) && !IsFreeThreadedTag(w.abiTag)
    requires !IsTag(w.pythonTag, "cp") && !IsTag(w.pythonTag, "pp")
    ensures PythonVersion(w) == w.pythonTag
  {
    ScanFreeThreadedExact(w.pythonTag);
    ScanFreeThreadedExact(w.abiTag);
    ScanTagExact(w.pythonTag, "cp");
    ScanTagExact(w.pythonTag, "pp");
  }

  /** The cases the tests name: `cp312` gives `3.12`. */
  lemma PythonVersionCPythonExample()
    ensures PythonVersion(WheelInfo("cp312", "cp312", "linux_x86_64")) == "3.12"
  {
    assert TagMatches("cp312", "cp", '3', "12", "");
    ScanTagComplete("cp312", "cp", '3', "12", "");
  }

  /** `cp314` with ABI tag `cp314t` gives `3.14t` (the ABI-tag rule fires). */
  lemma PythonVersionAbiExample()
    ensures PythonVersion(WheelInfo("cp314", "cp314t", "linux_x86_64")) == "3.14t"
  {
    assert TagMatches("cp314t", "cp", '3', "14", "t");
    assert TagMatches("cp314", "cp", '3', "14", "");
    ScanTagComplete("cp314", "cp", '3', "14", "");
    ScanTagComplete("cp314t", "cp", '3', "14", "t");
  }

  /** `pp39` gives `PyPy3.9`. */
  lemma PythonVersionPyPyExample()
    ensures PythonVersion(WheelInfo("pp39", "pypy39_pp73", "linux_x86_64")) == "PyPy3.9"
  {
    assert TagMatches("pp39", "pp", '3', "9", "");
    ScanTagComplete("pp39", "pp", '3', "9", "");
    assert !StartsWith("pypy39_pp73", "cp");
  }

  // ================================================================ platform tags

  /** `WheelInfo._extract_arch`: the first architecture word found, or `unknown`. */
  function ExtractArch(platform: string): (arch: string)
    ensures arch in {"x86_64", "aarch64", "armv7", "ppc64le", "s390x", "x86", "unknown"}
    ensures arch == "unknown" <==>
      !(Contains(platform, "x86_64") || Contains(platform, "amd64") || Contains(platform, "aarch64")
        || Contains(platform, "arm64") || Contains(platform, "armv7") || Contains(platform, "armv7l")
        || Contains(platform, "ppc64le")
        || Contains(platform, "s390x") || Contains(platform, "i686") || Contains(platform, "x86")
        || Contains(platform, "i386"))
  {
    if Contains(platform, "x86_64") || Contains(platform, "amd64") then "x86_64"
    else if Contains(platform, "aarch64") || Contains(platform, "arm64") then "aarch64"
    else if Contains(platform, "armv7") || Contains(platform, "armv7l") then "armv7"
    else if Contains(platform, "ppc64le") then "ppc64le"
    else if Contains(platform, "s390x") then "s390x"
    else if Contains(platform, "i686") || Contains(platform, "x86") || Contains(platform, "i386") then "x86"
    else "unknown"
  }

  /** The macOS branch of `platform_name`: ARM first, then Intel, then universal2. */
  function MacName(p: string): string {
    if Contains(p, "arm64") || Contains(p, "aarch64") then "macOS ARM64"
    else if Contains(p, "x86_64") || Contains(p, "intel") then "macOS x86_64"
    else if Contains(p, "universal2") then "macOS Universal2"
    else "macOS"
  }

  /** The Windows branch of `platform_name`: x64 first, then ARM, then 32-bit. */
  function WindowsName(p: string): string {
    if Contains(p, "amd64") || Contains(p, "x64") then "Windows x64"
    else if Contains(p, "arm64") || Contains(p, "aarch64") then "Windows ARM64"
    else if Contains(p, "32") || Contains(p, "x86") then "Windows x86"
    else "Windows"
  }

  /** `platform_name` on a tag that is already lower-cased. */
  function LoweredPlatformName(p: string): string {
    if StartsWith(p, "macosx") then MacName(p)
    else if StartsWith(p, "win") then WindowsName(p)
    else if Contains(p, "manylinux") then "Linux " + ExtractArch(p)
    else if Contains(p, "musllinux") then "musllinux " + ExtractArch(p)
    else if Contains(p, "linux") then "Linux " + ExtractArch(p)
    else p
  }

  /**
   * `WheelInfo.platform_name`, on the lower-cased tag: macOS, then Windows,
   * then manylinux, musllinux and generic Linux; otherwise the lower-cased tag.
   */
  function PlatformName(platformTag: string): (name: string)
    ensures var p := Lower(platformTag);
      && (StartsWith(p, "macosx") ==> name in {"macOS ARM64", "macOS x86_64", "macOS Universal2", "macOS"})
      && (!StartsWith(p, "macosx") && StartsWith(p, "win") ==>
            name in {"Windows x64", "Windows ARM64", "Windows x86", "Windows"})
      && ((!StartsWith(p, "macosx") && !StartsWith(p, "win")
           && (Contains(p, "manylinux") || Contains(p, "musllinux") || Contains(p, "linux"))) ==>
            name == "Linux " + ExtractArch(p) || name == "musllinux " + ExtractArch(p))
      && ((!StartsWith(p, "macosx") && !StartsWith(p, "win")
           && !Contains(p, "manylinux") && !Contains(p, "musllinux") && !Contains(p, "linux")) ==>
            name == p)
  {
    LoweredPlatformName(Lower(platformTag))
  }

  /**
   * The ARM spelling asymmetry: one physical architecture is `ARM64` on macOS and
   * Windows but `aarch64` on Linux and musllinux.
   */
  lemma ArmSpelling(platformTag: string)
    requires var p := Lower(platformTag);
      && (Contains(p, "arm64") || Contains(p, "aarch64"))
      && !Contains(p, "x86_64") && !Contains(p, "amd64") && !Contains(p, "x64")
    ensures var p := Lower(platformTag);
      && (StartsWith(p, "macosx") ==> PlatformName(platformTag) == "macOS ARM64")
      && (!StartsWith(p, "macosx") && StartsWith(p, "win") ==> PlatformName(platformTag) == "Windows ARM64")
      && (!StartsWith(p, "macosx") && !StartsWith(p, "win") && Contains(p, "manylinux") ==>
            PlatformName(platformTag) == "Linux aarch64")
      && (!StartsWith(p, "macosx") && !StartsWith(p, "win") && !Contains(p, "manylinux") && Contains(p, "musllinux") ==>
            PlatformName(platformTag) == "musllinux aarch64")
  {
    var p := Lower(platformTag);
    assert ExtractArch(p) == "aarch64";
    assert "Linux " + "aarch64" == "Linux aarch64";
    assert "musllinux " + "aarch64" == "musllinux aarch64";
  }

  /** First match: a tag starting with `win` (and not `macosx`) takes the Windows branch. */
  lemma WindowsBranch(platformTag: string)
    requires StartsWith(Lower(platformTag), "win") && !StartsWith(Lower(platformTag), "macosx")
    ensures PlatformName(platformTag) == WindowsName(Lower(platformTag))
  {
  }

  /** First match: a manylinux tag that is neither macOS nor Windows is `Linux <arch>`. */
  lemma ManylinuxBranch(platformTag: string)
    requires var p := Lower(platformTag);
      !StartsWith(p, "macosx") && !StartsWith(p, "win") && Contains(p, "manylinux")
    ensures PlatformName(platformTag) == "Linux " + ExtractArch(Lower(platformTag))
  {
  }

  // ================================================================ file names

  /** `parse_wheel_filename`: the last three `-`-separated fields before `.whl`. */
  function ParseWheelFilename(filename: string): (r: Option<WheelInfo>)
    ensures r.Some? ==> EndsWith(filename, ".whl")
    ensures r.Some? ==> '-' !in r.value.pythonTag && '-' !in r.value.abiTag && '-' !in r.value.platformTag
  {
    if !EndsWith(filename, ".whl") then None
    else
      var parts := Split(filename[..|filename| - 4], '-');
      if |parts| < 5 then None
      else Some(WheelInfo(parts[|parts| - 3], parts[|parts| - 2], parts[|parts| - 1]))
  }

  /** The name of a wheel built from its fields, joined by `-` and ending in `.whl`. */
  function WheelFilename(leading: seq<string>, w: WheelInfo): string {
    Join(leading + [w.pythonTag, w.abiTag, w.platformTag], "-") + ".whl"
  }

  /**
   * Right-anchored extraction: a name built from at least two leading fields
   * (distribution, version, optional build) and three tags, none holding `-`,
   * parses back to exactly those tags.
   */
  lemma {:induction false} ParseWheelFilenameOfBuilt(leading: seq<string>, w: WheelInfo)
    requires |leading| >= 2
    requires forall i :: 0 <= i < |leading| ==> '-' !in leading[i]
    requires '-' !in w.pythonTag && '-' !in w.abiTag && '-' !in w.platformTag
    ensures ParseWheelFilename(WheelFilename(leading, w)) == Some(w)
  {
    var fields := leading + [w.pythonTag, w.abiTag, w.platformTag];
    var stem := Join(fields, "-");
    var name := stem + ".whl";
    assert name[..|name| - 4] == stem;
    assert name[|name| - 4..] == ".whl";
    SplitJoin(fields, '-');
  }

  /**
   * Conversely, every accepted name is such a build: at least two leading fields,
   * and the three tags as its last fields.
   */
  lemma ParseWheelFilenameShape(filename: string)
    requires ParseWheelFilename(filename).Some?
    ensures var w := ParseWheelFilename(filename).value;
      exists leading: seq<string> :: |leading| >= 2 && filename == WheelFilename(leading, w)
  {
    var w := ParseWheelFilename(filename).value;
    var stem := filename[..|filename| - 4];
    var parts := Split(stem, '-');
    var leading := parts[..|parts| - 3];
    assert parts == leading + [w.pythonTag, w.abiTag, w.platformTag];
    assert filename == stem + ".whl";
    assert filename == WheelFilename(leading, w);
  }

  /** Names the parser turns away: the wrong extension, or too few fields. */
  lemma ParseWheelFilenameRejects()
    ensures ParseWheelFilename("notawheel.tar.gz") == None
    ensures ParseWheelFilename("invalid.whl") == None
  {
    assert "invalid.whl"[..7] == "invalid";
    assert '-' !in "invalid";
  }
}
