/**
 * The fixed layout of the PanelBoard sheet: the four table columns, the data
 * rows, and the space reserved on the right for the uploaded image.
 */
module Layout {
  import opened Wrappers
  import opened PanelRows
  import opened Sheets

  const SheetName := "PanelBoard"

  /** The four column definitions of app.js:52-57. */
  const Columns: seq<ColumnDef> := [
    ColumnDef("Panel No (Odd)", OddNoKey, 18),
    ColumnDef("Panel Name (Odd)", OddNameKey, 40),
    ColumnDef("Panel No (Even)", EvenNoKey, 18),
    ColumnDef("Panel Name (Even)", EvenNameKey, 40)
  ]

  /** Column 5 is widened to 50 (app.js:81). */
  const ImageColumn: nat := 5
  const ImageColumnWidth := 50

  /** Rows 1 to 25 get height 25 (app.js:84-86). */
  const ReservedRows: nat := 25
  const ReservedRowHeight := 25

  /** The merged range `E1:H25` (app.js:94). */
  const ImageRange := Range(1, ColumnNumber('E'), 25, ColumnNumber('H'))

  /** `tl: { col: 4.5, row: 0.5 }`, `ext: { width: 400, height: 300 }` (app.js:95-98). */
  const ImageAnchor := Anchor(45, 5, 400, 300)

  /** The rows added by the loop of app.js:59-69, in increasing `i`. */
  function DataRows(odd: seq<Item>, even: seq<Item>): (rows: seq<Row>)
    ensures |rows| == MaxLen(odd, even)
    ensures forall i :: 0 <= i < |rows| ==>
      rows[i] == [NoOf(odd, i), NameOf(odd, i), NoOf(even, i), NameOf(even, i)]
  {
    var n := MaxLen(odd, even);
    assert forall i: nat :: i < n ==>
      KeyedRow(Columns, RowObject(odd, even, i)) == [NoOf(odd, i), NameOf(odd, i), NoOf(even, i), NameOf(even, i)] by {
      forall i: nat | i < n
        ensures KeyedRow(Columns, RowObject(odd, even, i)) == [NoOf(odd, i), NameOf(odd, i), NoOf(even, i), NameOf(even, i)]
      {
        var row := KeyedRow(Columns, RowObject(odd, even, i));
        var values := RowObject(odd, even, i);
        assert row[0] == values[OddNoKey] && row[1] == values[OddNameKey];
        assert row[2] == values[EvenNoKey] && row[3] == values[EvenNameKey];
      }
    }
    seq(n, i requires 0 <= i < n => KeyedRow(Columns, RowObject(odd, even, i)))
  }

  /** The sheet once the table is written (app.js:49-69). */
  function TableSheet(odd: seq<Item>, even: seq<Item>): SheetState
  {
    EmptySheet(SheetName).(columns := Columns, colWidths := DefinedWidths(Columns),
                           rows := [HeaderRow(Columns)] + DataRows(odd, even))
  }

  /** `heights` with rows 1..n set to `h`. */
  function WithHeights(heights: map<nat, int>, n: nat, h: int): (r: map<nat, int>)
    ensures forall k: nat :: k in r <==> k in heights || 1 <= k <= n
    ensures forall k: nat :: 1 <= k <= n ==> r[k] == h
    ensures forall k: nat :: k in heights && !(1 <= k <= n) ==> r[k] == heights[k]
  {
    if n == 0 then heights else WithHeights(heights, n - 1, h)[n := h]
  }

  /** app.js:81-98 applied to sheet `s`, placing image `imageId`. */
  function LaidOut(s: SheetState, imageId: nat): SheetState
  {
    s.(colWidths := s.colWidths[ImageColumn := ImageColumnWidth],
       rows := PadRows(s.rows, ReservedRows),
       rowHeights := WithHeights(s.rowHeights, ReservedRows, ReservedRowHeight),
       merges := s.merges + [ImageRange],
       images := s.images + [Placement(imageId, ImageAnchor)])
  }

  /**
   * The table: one header row, then exactly `max(|odd|, |even|)` data rows;
   * the four named columns with widths 18, 40, 18, 40; nothing else set yet.
   */
  lemma TableShape(odd: seq<Item>, even: seq<Item>)
    ensures var s := TableSheet(odd, even);
      && s.name == "PanelBoard"
      && |s.rows| == 1 + MaxLen(odd, even)
      && s.rows[0] == ["Panel No (Odd)", "Panel Name (Odd)", "Panel No (Even)", "Panel Name (Even)"]
      && s.colWidths == map[1 := 18, 2 := 40, 3 := 18, 4 := 40]
      && s.rowHeights == map[] && s.merges == [] && s.images == []
  {
    var s := TableSheet(odd, even);
    assert s.rows[0] == HeaderRow(Columns);
    assert s.colWidths == map[1 := 18, 2 := 40, 3 := 18, 4 := 40];
  }

  /**
   * Data row `i` (sheet row `i + 2`) pairs `odd[i]` with `even[i]`: panel
   * number and name of each side, `""` where that side has no element, the
   * element is falsy or the field is absent.
   */
  lemma TableRowAt(odd: seq<Item>, even: seq<Item>, i: nat)
    requires i < MaxLen(odd, even)
    ensures TableSheet(odd, even).rows[i + 1] == [NoOf(odd, i), NameOf(odd, i), NoOf(even, i), NameOf(even, i)]
  {
    var row := TableSheet(odd, even).rows[i + 1];
    assert row == KeyedRow(Columns, RowObject(odd, even, i));
    var values := RowObject(odd, even, i);
    assert row[0] == values[OddNoKey] && row[1] == values[OddNameKey];
    assert row[2] == values[EvenNoKey] && row[3] == values[EvenNameKey];
  }

  /** With both keys absent the table is the header row alone. */
  lemma NoListsNoRows()
    ensures TableSheet(ListOrEmpty(None), ListOrEmpty(None)).rows == [HeaderRow(Columns)]
  {
    assert DataRows([], []) == [];
  }

  /**
   * The image layout: rows 1-25 have height 25 and other rows keep theirs;
   * column 5 has width 50 and other columns keep theirs; rows up to 25 exist,
   * the old ones unchanged and the new ones empty; one merge and one image
   * are added.
   */
  lemma LayoutEffect(s: SheetState, imageId: nat)
    ensures var r := LaidOut(s, imageId);
      && (forall k: nat :: 1 <= k <= 25 ==> k in r.rowHeights && r.rowHeights[k] == 25)
      && (forall k: nat :: 25 < k ==> (k in r.rowHeights <==> k in s.rowHeights))
      && (forall k: nat :: 25 < k && k in s.rowHeights ==> r.rowHeights[k] == s.rowHeights[k])
      && 5 in r.colWidths && r.colWidths[5] == 50
      && (forall c: nat :: c != 5 ==> (c in r.colWidths <==> c in s.colWidths))
      && (forall c: nat :: c != 5 && c in s.colWidths ==> r.colWidths[c] == s.colWidths[c])
      && |r.rows| == (if |s.rows| < 25 then 25 else |s.rows|)
      && r.rows[..|s.rows|] == s.rows
      && (forall k :: |s.rows| <= k < |r.rows| ==> r.rows[k] == [])
      && r.merges == s.merges + [Range(1, 5, 25, 8)]
      && r.images == s.images + [Placement(imageId, Anchor(45, 5, 400, 300))]
      && r.name == s.name && r.columns == s.columns
  {
  }

  /**
   * The table laid out for its image: the table rows first, at least 25 rows,
   * column 5 of width 50, heights on rows 1-25 only, all 25, the one merge
   * `E1:H25` and the one image at the fixed anchor.
   */
  lemma TableLaidOut(odd: seq<Item>, even: seq<Item>, imageId: nat)
    ensures var table := TableSheet(odd, even);
      var sheet := LaidOut(table, imageId);
      && sheet.rows[..|table.rows|] == table.rows
      && |sheet.rows| == (if |table.rows| < 25 then 25 else |table.rows|)
      && 5 in sheet.colWidths && sheet.colWidths[5] == 50
      && (forall k: nat :: 1 <= k <= 25 ==> k in sheet.rowHeights && sheet.rowHeights[k] == 25)
      && (forall k: nat :: 25 < k ==> k !in sheet.rowHeights)
      && sheet.merges == [Range(1, 5, 25, 8)]
      && sheet.images == [Placement(imageId, Anchor(45, 5, 400, 300))]
  {
    var table := TableSheet(odd, even);
    TableShape(odd, even);
    LayoutEffect(table, imageId);
  }

  /**
   * `E1:H25` is columns 5-8, rows 1-25; every row of the table has exactly
   * four cells, in columns 1-4, so the merge covers none of them.
   */
  lemma ImageRangeClearOfTable(odd: seq<Item>, even: seq<Item>)
    ensures ImageRange == Range(1, 5, 25, 8) && WellFormed(ImageRange)
    ensures forall k :: 0 <= k < |TableSheet(odd, even).rows| ==> |TableSheet(odd, even).rows[k]| == 4
    ensures forall row: nat, col: nat :: 1 <= col <= 4 ==> !Covers(ImageRange, row, col)
  {
  }

  /**
   * One entry on each side, the even one without a name: one header row and
   * one data row, the missing name written as `""`.
   */
  lemma OneEntryEachSide()
    ensures TableSheet([Some(Entry(Some("1"), Some("Lighting")))], [Some(Entry(Some("2"), None))]).rows
            == [["Panel No (Odd)", "Panel Name (Odd)", "Panel No (Even)", "Panel Name (Even)"],
                ["1", "Lighting", "2", ""]]
  {
    var odd: seq<Item> := [Some(Entry(Some("1"), Some("Lighting")))];
    var even: seq<Item> := [Some(Entry(Some("2"), None))];
    TableShape(odd, even);
    TableRowAt(odd, even, 0);
  }
}
