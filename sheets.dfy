/**
 * The part of ExcelJS the handler drives: a workbook holding worksheets and
 * image media, and a worksheet whose column definitions, widths, rows, row
 * heights, merged ranges and image placements are updated in place.
 */
module Sheets {

  newtype byte = x: int | 0 <= x < 256

  /** One entry of `worksheet.columns`: header text, row-object key and width. */
  datatype ColumnDef = ColumnDef(header: string, key: string, width: int)

  /** The cell texts of one row, column 1 first; a row created empty has none. */
  type Row = seq<string>

  /** A rectangle of cells, 1-based and inclusive. */
  datatype Range = Range(top: nat, left: nat, bottom: nat, right: nat)

  /**
   * Where an image is drawn: top-left corner in tenths of a cell (column then
   * row, 0-based) and display size in pixels.
   */
  datatype Anchor = Anchor(colTenths: nat, rowTenths: nat, width: nat, height: nat)

  datatype Placement = Placement(imageId: nat, anchor: Anchor)

  /** An image registered with `workbook.addImage`. */
  datatype Media = Media(buffer: seq<byte>, extension: string)

  /** Everything a worksheet holds, as a value. */
  datatype SheetState = SheetState(
    name: string,
    columns: seq<ColumnDef>,
    colWidths: map<nat, int>,
    rows: seq<Row>,
    rowHeights: map<nat, int>,
    merges: seq<Range>,
    images: seq<Placement>)

  /** The workbook as it is handed to the serialiser: its one sheet and its media. */
  datatype Book = Book(sheet: SheetState, media: seq<Media>)

  function EmptySheet(name: string): SheetState
  {
    SheetState(name, [], map[], [], map[], [], [])
  }

  /** A range whose corners are in order and whose first row and column are 1 or more. */
  predicate WellFormed(r: Range)
  {
    1 <= r.top <= r.bottom && 1 <= r.left <= r.right
  }

  predicate Covers(r: Range, row: nat, col: nat)
  {
    r.top <= row <= r.bottom && r.left <= col <= r.right
  }

  predicate Overlaps(a: Range, b: Range)
  {
    a.top <= b.bottom && b.top <= a.bottom && a.left <= b.right && b.left <= a.right
  }

  /** Two ranges overlap exactly when some cell lies in both. */
  lemma OverlapsIffSharedCell(a: Range, b: Range)
    requires WellFormed(a) && WellFormed(b)
    ensures Overlaps(a, b) <==> exists row: nat, col: nat :: Covers(a, row, col) && Covers(b, row, col)
  {
    if Overlaps(a, b) {
      var row := if a.top < b.top then b.top else a.top;
      var col := if a.left < b.left then b.left else a.left;
      assert Covers(a, row, col) && Covers(b, row, col);
    }
  }

  /** The column letters, column 1 first. */
  const ColumnLetters := "ABCDEFGHIJKLMNOPQRSTUVWXYZ"

  /** The column number of a single-letter column name, `A` being 1. */
  function ColumnNumber(letter: char): (n: nat)
    requires 'A' <= letter <= 'Z'
    ensures 1 <= n <= 26
    ensures ColumnLetters[n - 1] == letter
  {
    letter as int - 'A' as int + 1
  }

  /** The widths that a list of column definitions gives columns 1, 2, .... */
  function DefinedWidths(defs: seq<ColumnDef>): (w: map<nat, int>)
    ensures forall c: nat :: c in w <==> 1 <= c <= |defs|
    ensures forall c: nat :: 1 <= c <= |defs| ==> w[c] == defs[c - 1].width
  {
    if defs == [] then map[]
    else DefinedWidths(defs[..|defs| - 1])[|defs| := defs[|defs| - 1].width]
  }

  /** The header row that column definitions write into row 1. */
  function HeaderRow(defs: seq<ColumnDef>): (r: Row)
    ensures |r| == |defs| && forall c :: 0 <= c < |defs| ==> r[c] == defs[c].header
  {
    seq(|defs|, c requires 0 <= c < |defs| => defs[c].header)
  }

  /** `addRow(values)` with an object: each column takes the value under its key. */
  function KeyedRow(defs: seq<ColumnDef>, values: map<string, string>): (r: Row)
    ensures |r| == |defs|
    ensures forall c :: 0 <= c < |defs| && defs[c].key in values ==> r[c] == values[defs[c].key]
    ensures forall c :: 0 <= c < |defs| && defs[c].key !in values ==> r[c] == ""
  {
    seq(|defs|, c requires 0 <= c < |defs| => if defs[c].key in values then values[defs[c].key] else "")
  }

  /** The rows after `getRow(n)`: rows up to number `n` exist, created empty. */
  function PadRows(rows: seq<Row>, n: nat): (r: seq<Row>)
    ensures |r| == if |rows| < n then n else |rows|
    ensures r[..|rows|] == rows
    ensures forall k :: |rows| <= k < |r| ==> r[k] == []
  {
    if |rows| < n then rows + seq(n - |rows|, _ => []) else rows
  }

  class Worksheet {
    var name: string
    var columns: seq<ColumnDef>
    var colWidths: map<nat, int>
    var rows: seq<Row>
    var rowHeights: map<nat, int>
    var merges: seq<Range>
    var images: seq<Placement>

    function State(): SheetState
      reads this
    {
      SheetState(name, columns, colWidths, rows, rowHeights, merges, images)
    }

    constructor (name: string)
      ensures State() == EmptySheet(name)
    {
      this.name := name;
      columns, colWidths, rows := [], map[], [];
      rowHeights, merges, images := map[], [], [];
    }

    /**
     * `worksheet.columns = defs`: the definitions replace the old ones, give
     * columns 1..|defs| their widths and write the headers into row 1.
     */
    method SetColumns(defs: seq<ColumnDef>)
      modifies this
      ensures State() == old(State()).(columns := defs, colWidths := DefinedWidths(defs),
                                       rows := [HeaderRow(defs)] + if old(rows) == [] then [] else old(rows)[1..])
    {
      columns := defs;
      colWidths := DefinedWidths(defs);
      rows := [HeaderRow(defs)] + if rows == [] then [] else rows[1..];
    }

    /** `worksheet.getColumn(col).width = width`. */
    method SetColumnWidth(col: nat, width: int)
      requires 1 <= col
      modifies this
      ensures State() == old(State()).(colWidths := old(colWidths)[col := width])
    {
      colWidths := colWidths[col := width];
    }

    /** `worksheet.getRow(row).height = height`; `getRow` creates the missing rows. */
    method SetRowHeight(row: nat, height: int)
      requires 1 <= row
      modifies this
      ensures State() == old(State()).(rows := PadRows(old(rows), row), rowHeights := old(rowHeights)[row := height])
    {
      rows := PadRows(rows, row);
      rowHeights := rowHeights[row := height];
    }

    /** `worksheet.addRow(values)`: a new last row, filled through the column keys. */
    method AddRow(values: map<string, string>)
      modifies this
      ensures State() == old(State()).(rows := old(rows) + [KeyedRow(columns, values)])
    {
      rows := rows + [KeyedRow(columns, values)];
    }

    /** `worksheet.mergeCells(range)`; ExcelJS refuses a range that overlaps an earlier merge. */
    method MergeCells(range: Range)
      requires WellFormed(range)
      requires forall m :: m in merges ==> !Overlaps(m, range)
      modifies this
      ensures State() == old(State()).(merges := old(merges) + [range])
    {
      merges := merges + [range];
    }

    /** `worksheet.addImage(imageId, anchor)`. */
    method AddImage(imageId: nat, anchor: Anchor)
      modifies this
      ensures State() == old(State()).(images := old(images) + [Placement(imageId, anchor)])
    {
      images := images + [Placement(imageId, anchor)];
    }
  }

  class Workbook {
    var sheets: seq<Worksheet>
    var media: seq<Media>

    constructor ()
      ensures sheets == [] && media == []
    {
      sheets, media := [], [];
    }

    /** `workbook.addWorksheet(name)`: a new, empty sheet. */
    method AddWorksheet(name: string) returns (sheet: Worksheet)
      modifies this
      ensures fresh(sheet) && sheet.State() == EmptySheet(name)
      ensures sheets == old(sheets) + [sheet] && media == old(media)
    {
      sheet := new Worksheet(name);
      sheets := sheets + [sheet];
    }

    /** `workbook.addImage(media)`: the id is the image's position in the media list. */
    method AddImage(m: Media) returns (imageId: nat)
      modifies this
      ensures imageId == |old(media)| && media == old(media) + [m] && sheets == old(sheets)
    {
      imageId := |media|;
      media := media + [m];
    }
  }
}
