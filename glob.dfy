/**
 * Shell-style matching of platform labels against `require-matrix` patterns,
 * as Python's `fnmatch.fnmatch` does it on a POSIX host: the whole label must
 * match, `*` stands for any run of characters, `?` for any one character,
 * and every other pattern character for itself (case-sensitive).
 */
module Glob {
  import opened Text

  predicate IsWildcard(c: char) {
    c == '*' || c == '?'
  }

  predicate NoWildcards(p: string) {
    forall i :: 0 <= i < |p| ==> !IsWildcard(p[i])
  }

  /** Does the whole of `name` match the pattern `pat`? */
  predicate Matches(name: string, pat: string)
    decreases |pat| + |name|
  {
    if pat == [] then name == []
    else if pat[0] == '*' then
      Matches(name, pat[1..]) || (name != [] && Matches(name[1..], pat))
    else
      name != [] && (pat[0] == '?' || pat[0] == name[0]) && Matches(name[1..], pat[1..])
  }

  /** A lone `*` matches every label. */
  lemma {:induction false} StarMatchesAll(name: string)
    ensures Matches(name, "*")
    decreases |name|
  {
    if name != [] {
      StarMatchesAll(name[1..]);
    }
  }

  /** A pattern without wildcards matches exactly the label spelled the same. */
  lemma {:induction false} LiteralPattern(name: string, pat: string)
    requires NoWildcards(pat)
    ensures Matches(name, pat) <==> name == pat
    decreases |pat|
  {
    if pat != [] && name != [] {
      LiteralPattern(name[1..], pat[1..]);
      if name[0] == pat[0] && name[1..] == pat[1..] {
        assert name == [name[0]] + name[1..] && pat == [pat[0]] + pat[1..];
      }
    }
  }

  /**
   * A literal prefix followed by `*` matches exactly the labels that start with
   * that prefix: `Linux*` takes every `Linux ...` label and no `musllinux ...` one.
   */
  lemma {:induction false} PrefixPattern(name: string, prefix: string)
    requires NoWildcards(prefix)
    ensures Matches(name, prefix + "*") <==> StartsWith(name, prefix)
    decreases |prefix|
  {
    if prefix == [] {
      assert prefix + "*" == "*";
      StarMatchesAll(name);
    } else {
      assert (prefix + "*")[1..] == prefix[1..] + "*";
      if name != [] {
        PrefixPattern(name[1..], prefix[1..]);
      }
    }
  }

  /** The wildcard family: `Linux*` does not take a `musllinux` label. */
  lemma LinuxStarSkipsMusl(arch: string)
    ensures Matches("Linux " + arch, "Linux*")
    ensures !Matches("musllinux " + arch, "Linux*")
  {
    assert "Linux" + "*" == "Linux*";
    PrefixPattern("Linux " + arch, "Linux");
    PrefixPattern("musllinux " + arch, "Linux");
    assert ("musllinux " + arch)[0] == 'm';
  }
}
