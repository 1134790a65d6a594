/**
 * The scan of a directory of built wheels into the coverage matrix: which
 * Python versions were built for which platform (`scan_wheels`).
 * The directory walk itself is replaced by the sequence of file names it finds.
 */
module Coverage {
  import opened Wrappers
  import opened Text
  import opened WheelTags

  /** The matrix: platform label to the set of version labels built for it. */
  type Matrix = map<string, set<string>>

  /** The (platform label, version label) pair a file contributes, if it is a wheel name. */
  function Decode(filename: string): (r: Option<(string, string)>)
    ensures r.Some? <==> EndsWith(filename, ".whl") && |Split(filename[..|filename| - 4], '-')| >= 5
  {
    match ParseWheelFilename(filename)
    case None => None
    case Some(w) => Some((PlatformName(w.platformTag), PythonVersion(w)))
  }

  /**
   * A wheel name built from at least two leading fields and three tags, none
   * holding `-`, decodes to the display name of its platform tag and the label
   * of its Python tag.
   */
  lemma DecodeBuilt(leading: seq<string>, w: WheelInfo)
    requires |leading| >= 2
    requires forall i :: 0 <= i < |leading| ==> '-' !in leading[i]
    requires '-' !in w.pythonTag && '-' !in w.abiTag && '-' !in w.platformTag
    ensures Decode(WheelFilename(leading, w)) == Some((PlatformName(w.platformTag), PythonVersion(w)))
  {
    ParseWheelFilenameOfBuilt(leading, w);
  }

  /**
   * How the scan reads one file name. The loop below is stated for any such
   * reading; `ScanWheels` instantiates it with `Decode`.
   */
  type Decoder = string -> Option<(string, string)>

  /** The decoded pair of every file, in the order the walk yields them. */
  function DecodeAll(files: seq<string>, decode: Decoder): (ds: seq<Option<(string, string)>>)
    ensures |ds| == |files|
    ensures forall i :: 0 <= i < |files| ==> ds[i] == decode(files[i])
  {
    seq(|files|, i requires 0 <= i < |files| => decode(files[i]))
  }

  /** Some file among `files` decodes to platform `p` and version `v`. */
  ghost predicate Observed(files: seq<string>, decode: Decoder, p: string, v: string) {
    Some((p, v)) in DecodeAll(files, decode)
  }

  predicate Has(matrix: Matrix, p: string, v: string) {
    p in matrix && v in matrix[p]
  }

  /**
   * The shape the scan's three results always have: the platforms are the matrix
   * keys, no platform has an empty set, and the versions are all the sets' union.
   */
  ghost predicate WellFormed(matrix: Matrix, platforms: set<string>, versions: set<string>) {
    && platforms == matrix.Keys
    && (forall p :: p in matrix ==> matrix[p] != {})
    && (forall v :: v in versions <==> exists p :: p in matrix && v in matrix[p])
  }

  /** Adding one pair keeps the shape and adds exactly that pair. */
  lemma AddPair(matrix: Matrix, platforms: set<string>, versions: set<string>, p: string, v: string)
    requires WellFormed(matrix, platforms, versions)
    ensures var m := matrix[p := (if p in matrix then matrix[p] else {}) + {v}];
      && WellFormed(m, platforms + {p}, versions + {v})
      && forall q, u :: Has(m, q, u) <==> Has(matrix, q, u) || (q == p && u == v)
  {
    var m := matrix[p := (if p in matrix then matrix[p] else {}) + {v}];
    forall u | u in versions + {v}
      ensures exists q :: q in m && u in m[q]
    {
      if u == v {
        assert p in m && v in m[p];
      } else {
        var q :| q in matrix && u in matrix[q];
        assert q in m && u in m[q];
      }
    }
  }

  /** One more file adds its decoded pair, if any, to those observed. */
  lemma ObservedSnoc(files: seq<string>, decode: Decoder, n: nat)
    requires n < |files|
    ensures DecodeAll(files[..n + 1], decode) == DecodeAll(files[..n], decode) + [decode(files[n])]
  {
    var prefix := files[..n + 1];
    assert forall i :: 0 <= i < n ==> prefix[i] == files[..n][i];
  }

  /** What the scan has built after the first `n` files. */
  ghost predicate ScannedUpTo(files: seq<string>, decode: Decoder, n: nat,
                              matrix: Matrix, platforms: set<string>, versions: set<string>)
    requires n <= |files|
  {
    && WellFormed(matrix, platforms, versions)
    && forall p, v :: Has(matrix, p, v) <==> Observed(files[..n], decode, p, v)
  }

  /** One loop step of the scan: a decoded file adds its pair, any other file changes nothing. */
  lemma ScanStep(files: seq<string>, decode: Decoder, n: nat,
                 matrix: Matrix, platforms: set<string>, versions: set<string>)
    requires n < |files| && ScannedUpTo(files, decode, n, matrix, platforms, versions)
    ensures decode(files[n]).None? ==> ScannedUpTo(files, decode, n + 1, matrix, platforms, versions)
    ensures decode(files[n]).Some? ==>
      var (p, v) := decode(files[n]).value;
      ScannedUpTo(files, decode, n + 1, matrix[p := (if p in matrix then matrix[p] else {}) + {v}],
                  platforms + {p}, versions + {v})
  {
    var decoded := decode(files[n]);
    ObservedSnoc(files, decode, n);
    if decoded.Some? {
      var (p, v) := decoded.value;
      AddPair(matrix, platforms, versions, p, v);
      var m := matrix[p := (if p in matrix then matrix[p] else {}) + {v}];
      forall q, u
        ensures Has(m, q, u) <==> Observed(files[..n + 1], decode, q, u)
      {
        assert Observed(files[..n + 1], decode, q, u) <==> Observed(files[..n], decode, q, u) || decoded == Some((q, u));
      }
    } else {
      forall q, u
        ensures Has(matrix, q, u) <==> Observed(files[..n + 1], decode, q, u)
      {
        assert Observed(files[..n + 1], decode, q, u) <==> Observed(files[..n], decode, q, u);
      }
    }
  }

  /** After the last file the scan has observed all of them. */
  lemma ScanDone(files: seq<string>, decode: Decoder, matrix: Matrix, platforms: set<string>, versions: set<string>)
    requires ScannedUpTo(files, decode, |files|, matrix, platforms, versions)
    ensures WellFormed(matrix, platforms, versions)
    ensures forall p, v :: Has(matrix, p, v) <==> Observed(files, decode, p, v)
  {
    assert files[..|files|] == files;
  }

  /**
   * The loop of `scan_wheels`: one pass over the file names; names that do not
   * decode are skipped, every other one adds its platform, its version and the
   * pair. Afterwards the matrix holds exactly the observed pairs.
   */
  method Scan(files: seq<string>, decode: Decoder) returns (matrix: Matrix, platforms: set<string>, versions: set<string>)
    ensures WellFormed(matrix, platforms, versions)
    ensures forall p, v :: Has(matrix, p, v) <==> Observed(files, decode, p, v)
  {
    matrix := map[];
    platforms := {};
    versions := {};
    var n := 0;
    while n < |files|
      invariant 0 <= n <= |files|
      invariant ScannedUpTo(files, decode, n, matrix, platforms, versions)
    {
      ScanStep(files, decode, n, matrix, platforms, versions);
      var decoded := decode(files[n]);
      if decoded.Some? {
        var (platform, version) := decoded.value;
        platforms := platforms + {platform};
        versions := versions + {version};
        var built := if platform in matrix then matrix[platform] else {};
        matrix := matrix[platform := built + {version}];
      }
      n := n + 1;
    }
    ScanDone(files, decode, matrix, platforms, versions);
  }

  /**
   * `scan_wheels`: every wheel name contributes the pair (platform label,
   * version label) of its tags; the matrix holds exactly those pairs.
   */
  method ScanWheels(files: seq<string>) returns (matrix: Matrix, platforms: set<string>, versions: set<string>)
    ensures WellFormed(matrix, platforms, versions)
    ensures forall p, v :: Has(matrix, p, v) <==> Observed(files, Decode, p, v)
  {
    matrix, platforms, versions := Scan(files, Decode);
  }

  /**
   * The three results are fixed by the observed pairs alone: two well-formed
   * results holding the same pairs are equal. In particular the order in which
   * the directory walk yields the files does not matter.
   */
  lemma ScanDetermined(m1: Matrix, ps1: set<string>, vs1: set<string>,
                       m2: Matrix, ps2: set<string>, vs2: set<string>)
    requires WellFormed(m1, ps1, vs1) && WellFormed(m2, ps2, vs2)
    requires forall p, v :: Has(m1, p, v) <==> Has(m2, p, v)
    ensures m1 == m2 && ps1 == ps2 && vs1 == vs2
  {
    forall p | p in m1
      ensures p in m2
    {
      var v :| v in m1[p];
      assert Has(m1, p, v);
    }
    forall p | p in m2
      ensures p in m1
    {
      var v :| v in m2[p];
      assert Has(m2, p, v);
    }
    forall p | p in m1
      ensures m1[p] == m2[p]
    {
      forall v ensures v in m1[p] <==> v in m2[p] {
        assert Has(m1, p, v) <==> Has(m2, p, v);
      }
    }
    assert m1.Keys == m2.Keys;
    forall v ensures v in vs1 <==> v in vs2 {
      if v in vs1 {
        var p :| p in m1 && v in m1[p];
        assert Has(m2, p, v);
      }
      if v in vs2 {
        var p :| p in m2 && v in m2[p];
        assert Has(m1, p, v);
      }
    }
  }

  /** A file is observed through its own decoded pair. */
  lemma ObservedAt(files: seq<string>, decode: Decoder, i: nat)
    requires i < |files| && decode(files[i]).Some?
    ensures Observed(files, decode, decode(files[i]).value.0, decode(files[i]).value.1)
  {
  }

  /** Every observed pair comes from some file. */
  lemma ObservedWitness(files: seq<string>, decode: Decoder, p: string, v: string) returns (i: nat)
    requires Observed(files, decode, p, v)
    ensures i < |files| && decode(files[i]) == Some((p, v))
  {
    var ds := DecodeAll(files, decode);
    i :| 0 <= i < |ds| && ds[i] == Some((p, v));
  }

  /** The order of the files does not matter: a reordering observes the same pairs. */
  lemma ObservedPermutation(files1: seq<string>, files2: seq<string>, decode: Decoder, p: string, v: string)
    requires multiset(files1) == multiset(files2)
    ensures Observed(files1, decode, p, v) <==> Observed(files2, decode, p, v)
  {
    if Observed(files1, decode, p, v) {
      var i := ObservedWitness(files1, decode, p, v);
      assert files1[i] in multiset(files2);
      var j :| 0 <= j < |files2| && files2[j] == files1[i];
      ObservedAt(files2, decode, j);
    }
    if Observed(files2, decode, p, v) {
      var i := ObservedWitness(files2, decode, p, v);
      assert files2[i] in multiset(files1);
      var j :| 0 <= j < |files1| && files1[j] == files2[i];
      ObservedAt(files1, decode, j);
    }
  }

  /** Every wheel name among the files is counted: its platform, its version and the pair. */
  lemma EveryWheelCounted(files: seq<string>, i: nat,
                          matrix: Matrix, platforms: set<string>, versions: set<string>)
    requires i < |files| && ParseWheelFilename(files[i]).Some?
    requires forall p, v :: Has(matrix, p, v) <==> Observed(files, Decode, p, v)
    requires WellFormed(matrix, platforms, versions)
    ensures var w := ParseWheelFilename(files[i]).value;
      PlatformName(w.platformTag) in platforms && PythonVersion(w) in versions
      && PythonVersion(w) in matrix[PlatformName(w.platformTag)]
  {
    var w := ParseWheelFilename(files[i]).value;
    assert Decode(files[i]) == Some((PlatformName(w.platformTag), PythonVersion(w)));
    ObservedAt(files, Decode, i);
  }
}
