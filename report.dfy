/**
 * The markdown build summary (`generate_table`): a title, a header row naming
 * the sorted versions, and one row per sorted platform whose cells say which
 * versions were built for it.
 */
module Report {
  import opened Wrappers
  import opened Text
  import opened Coverage
  import opened Ordering

  const Title := "# Build Summary - All Platforms and Architectures"
  const Built := " ✅ |"
  const NotBuilt := " - |"

  /** The cell for one version: a check mark when that version was built. */
  function Mark(built: bool): (cell: string)
    ensures |cell| == 4 && cell[3] == '|'
  {
    if built then Built else NotBuilt
  }

  /** The cells of a platform's row, one per version, left to right. */
  function Cells(matrix: Matrix, platform: string, versions: seq<string>): string
    decreases |versions|
  {
    if versions == [] then ""
    else Cells(matrix, platform, versions[..|versions| - 1]) + Mark(Has(matrix, platform, versions[|versions| - 1]))
  }

  function RowStart(platform: string): string {
    "| **" + platform + "** |"
  }

  function Row(matrix: Matrix, platform: string, versions: seq<string>): string {
    RowStart(platform) + Cells(matrix, platform, versions)
  }

  function Header(versions: seq<string>): string {
    "| Platform | " + Join(versions, " | ") + " |"
  }

  function Separator(columns: nat): string {
    "|----------|" + Join(seq(columns, _ => "-----"), "|") + "|"
  }

  /** The lines before the platform rows. */
  function Preamble(versions: seq<string>): (lines: seq<string>)
    ensures |lines| == 4
  {
    [Title, "", Header(versions), Separator(|versions|)]
  }

  function Rows(matrix: Matrix, platforms: seq<string>, versions: seq<string>): (rows: seq<string>)
    ensures |rows| == |platforms|
  {
    seq(|platforms|, i requires 0 <= i < |platforms| => Row(matrix, platforms[i], versions))
  }

  /** The table's lines for platforms and versions already in display order. */
  function TableLines(matrix: Matrix, platforms: seq<string>, versions: seq<string>): seq<string> {
    Preamble(versions) + Rows(matrix, platforms, versions)
  }

  /** Whether each version, in order, was built for the platform. */
  function BuiltFlags(matrix: Matrix, platform: string, versions: seq<string>): (flags: seq<bool>)
    ensures |flags| == |versions|
    ensures forall i :: 0 <= i < |versions| ==> (flags[i] <==> Has(matrix, platform, versions[i]))
  {
    seq(|versions|, i requires 0 <= i < |versions| => Has(matrix, platform, versions[i]))
  }

  /**
   * Reads a run of cells back: `Some` of the built flags, left to right, or
   * `None` if the text is not a run of cells.
   */
  function ReadCells(s: string): (flags: Option<seq<bool>>)
    decreases |s|
  {
    if s == [] then Some([])
    else if |s| < 4 then None
    else if s[|s| - 4..] == Built || s[|s| - 4..] == NotBuilt then
      match ReadCells(s[..|s| - 4])
      case None => None
      case Some(init) => Some(init + [s[|s| - 4..] == Built])
    else None
  }

  /**
   * A platform's cells say, version by version and with nothing else, whether
   * that version was built for the platform: one cell per version, a check mark
   * exactly when the matrix holds the pair.
   */
  lemma {:induction false} CellsReadBack(matrix: Matrix, platform: string, versions: seq<string>)
    ensures ReadCells(Cells(matrix, platform, versions)) == Some(BuiltFlags(matrix, platform, versions))
    decreases |versions|
  {
    if versions != [] {
      var n := |versions| - 1;
      var init := versions[..n];
      var built := Has(matrix, platform, versions[n]);
      var cells := Cells(matrix, platform, init);
      var flags := BuiltFlags(matrix, platform, init);
      assert Cells(matrix, platform, versions) == cells + Mark(built);
      assert BuiltFlags(matrix, platform, versions) == flags + [built];
      assert ReadCells(cells) == Some(flags) by {
        CellsReadBack(matrix, platform, init);
      }
      ReadCellsSnoc(cells, built);
    }
  }

  /** Reading back one more cell adds its flag. */
  lemma ReadCellsSnoc(s: string, built: bool)
    ensures ReadCells(s + Mark(built))
         == if ReadCells(s).Some? then Some(ReadCells(s).value + [built]) else None
  {
    var t := s + Mark(built);
    assert t[|t| - 4..] == Mark(built);
    assert t[..|t| - 4] == s;
    assert Built[1] != NotBuilt[1];
  }

  /** The cells have four characters each. */
  lemma {:induction false} CellsLength(matrix: Matrix, platform: string, versions: seq<string>)
    ensures |Cells(matrix, platform, versions)| == 4 * |versions|
    decreases |versions|
  {
    if versions != [] {
      CellsLength(matrix, platform, versions[..|versions| - 1]);
    }
  }

  /**
   * The table for platforms and versions already in display order: four lines
   * before the rows, then row `i` for platform `i`, whose cells after the
   * platform's name read back as the built flags of the versions in order.
   */
  lemma TableRows(matrix: Matrix, platforms: seq<string>, versions: seq<string>, i: nat)
    requires i < |platforms|
    ensures |TableLines(matrix, platforms, versions)| == 4 + |platforms|
    ensures TableLines(matrix, platforms, versions)[4 + i]
         == RowStart(platforms[i]) + Cells(matrix, platforms[i], versions)
    ensures ReadCells(Cells(matrix, platforms[i], versions)) == Some(BuiltFlags(matrix, platforms[i], versions))
  {
    CellsReadBack(matrix, platforms[i], versions);
  }

  /** The row for one platform, built cell by cell. */
  method BuildRow(matrix: Matrix, platform: string, versions: seq<string>) returns (row: string)
    ensures row == Row(matrix, platform, versions)
    ensures |row| == |RowStart(platform)| + 4 * |versions|
  {
    row := RowStart(platform);
    for j := 0 to |versions|
      invariant row == RowStart(platform) + Cells(matrix, platform, versions[..j])
    {
      assert versions[..j + 1][..j] == versions[..j];
      if Has(matrix, platform, versions[j]) {
        row := row + Built;
      } else {
        row := row + NotBuilt;
      }
    }
    assert versions[..|versions|] == versions;
    CellsLength(matrix, platform, versions);
  }

  /** The table's lines for platforms and versions already in display order. */
  method BuildLines(matrix: Matrix, platforms: seq<string>, versions: seq<string>) returns (lines: seq<string>)
    ensures lines == TableLines(matrix, platforms, versions)
  {
    lines := [Title, ""];
    var header := "| Platform | " + Join(versions, " | ") + " |";
    var separator := "|----------|" + Join(seq(|versions|, _ => "-----"), "|") + "|";
    lines := lines + [header, separator];
    for i := 0 to |platforms|
      invariant lines == Preamble(versions) + Rows(matrix, platforms[..i], versions)
    {
      var row := BuildRow(matrix, platforms[i], versions);
      lines := lines + [row];
    }
    assert platforms[..|platforms|] == platforms;
  }

  /**
   * `generate_table`: the lines of the summary, joined by newlines, with the
   * platforms and versions sorted for display.
   */
  method GenerateTable(matrix: Matrix, platforms: seq<string>, versions: seq<string>) returns (table: string)
    ensures table == Join(TableLines(matrix, SortPlatforms(platforms), SortVersions(versions)), "\n")
  {
    var sortedPlatforms := SortPlatforms(platforms);
    var sortedVersions := SortVersions(versions);
    var lines := BuildLines(matrix, sortedPlatforms, sortedVersions);
    table := Join(lines, "\n");
  }
}
