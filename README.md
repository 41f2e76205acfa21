# Panel schedule upload handler, modelled in Dafny

The server of this repository has one endpoint, `POST /upload`. It takes an
image of an electrical panel schedule and sends it to an extraction service.
The service replies with text that has a JSON object somewhere inside it. The
handler finds that object and reads two entry lists from it: `odd` and `even`.
It writes a spreadsheet sheet named "PanelBoard". Rows pair `odd[i]` with
`even[i]`, and the uploaded image is placed to the right of the table. The
workbook is sent back as `Panel_Board_Listing.xlsx`. Each failure maps to a
status and a text body, and each path either deletes the stored upload or
leaves it in place.

The model is split into these modules:

- `JsText` (`js_text.dfy`): the JavaScript string built-ins the handler uses:
  `indexOf`, `lastIndexOf`, `substring` with its clamping and argument swap,
  `replace(".", "")`, and `toLowerCase`.
- `JsonLocator` (`json_locator.dfy`): finds the embedded JSON, from the first
  `{` to the last `}`.
- `PanelRows` (`panel_rows.dfy`): the entries, the `|| {}` and `|| ""`
  defaults, and the object passed to `addRow` for each pair.
- `ImageFormat` (`image_format.dfy`): `path.extname`, the `.png`/`.jpg`/`.jpeg`
  whitelist, and the extension handed to the workbook.
- `Sheets` (`sheets.dfy`): the parts of ExcelJS the handler calls. `Workbook`
  and `Worksheet` are classes whose methods update their fields in place.
  `SheetState` and `Book` are the same data as values.
- `Layout` (`layout.dfy`): the fixed column definitions and the image region.
  `TableSheet` is the sheet once the table is written. `LaidOut` is the sheet
  once space is reserved for the image and the image is placed.
- `UploadHandler` (`upload_handler.dfy`): `Respond` says what one request
  does, in the order the handler's steps run. `HandleUpload` is the handler
  itself: it builds the workbook step by step, with the two loops of the
  source, and is proved to produce exactly `Respond`. The lemmas state the
  status, body, deletion and workbook of every path.

Everything outside the handler is a parameter (`Env`):

- the bytes read from the stored file, or the read error;
- the extraction service's reply text, or the failed call's message;
- `JSON.parse` followed by the `{ odd = [], even = [] }` destructuring, as an
  arbitrary function from text to entry lists or an error message;
- the serialiser `writeBuffer`, as an arbitrary function from the finished
  workbook to bytes or an error message.

On three points the handler does not do what one might expect, and the model follows the code:

- A request without a file reaches `req.file.path`. That throws, and the
  `catch` answers 500, not a 400.
- The `catch` never deletes the stored file. A failure in the read, the
  service call or `JSON.parse` therefore leaves the file in place.
- The table rows are written before the image extension is checked. A refused
  image therefore leaves a workbook that already holds the table.

## Model

| member | source | states |
|---|---|---|
| `JsText.IndexOf` | server/app.js:38 | The result is -1 exactly when the character is absent. Otherwise it is a position holding the character, with no earlier occurrence. |
| `JsText.LastIndexOf` | server/app.js:39 | The result is -1 exactly when the character is absent. Otherwise it is a position holding the character, with no later occurrence. |
| `JsText.Substring` | server/app.js:45 | With in-range arguments it is the slice between them. When the start exceeds the end, the arguments are swapped. |
| `JsText.RemoveFirst` | server/app.js:91 | `replace(".", "")` leaves a string without the character unchanged. Otherwise it removes the first occurrence and keeps the order of the rest: the result is the text before that occurrence followed by the text after it. |
| `JsText.ToLower` | server/app.js:73 | Same length, each character lower-cased, and no upper-case ASCII letter left. |
| `JsonLocator.Locate` | server/app.js:38-45 | Nothing is located exactly when the reply lacks a `{` or lacks a `}`. |
| `JsonLocator.LocateOrdered` | server/app.js:38-45 | If the first `{` precedes the last `}`, the located text is the slice from one to the other, inclusive. It opens with `{` and closes with `}`. No `{` comes before it and no `}` comes after it. |
| `JsonLocator.LocateSwapped` | server/app.js:45 | If the last `}` precedes the first `{`, `substring` swaps its arguments. The located text is what lies strictly between the two braces, and it holds no brace. |
| `JsonLocator.LocateExample` | server/app.js:38-45 | `garbage {"odd":[],"even":[]} trailing` yields exactly `{"odd":[],"even":[]}`. |
| `PanelRows.EntryAt` | server/app.js:61-62 | The `{}` default of `odd[i]`/`even[i]`: an index out of range and a falsy element both give the empty entry. A present element gives itself. |
| `PanelRows.Cell` | server/app.js:64-67 | The `""` default on a string field is the field's text when present and `""` when absent. |
| `PanelRows.MaxLen` | server/app.js:59 | `Math.max` of the two lengths: at least each length, and equal to one of them. |
| `PanelRows.RowObject` | server/app.js:61-68 | The row object has exactly the four column keys. Under them are the panel number and name of `odd[i]` and of `even[i]`, each `""` when the index is past that list, the element is falsy or the field is absent. |
| `ImageFormat.Basename` | server/app.js:73 | The last path component: a suffix of the path with no `/`, which is either the whole path or preceded by a `/`. |
| `ImageFormat.Extname` | server/app.js:73 | `path.extname` is the extension of the path's last component: empty, or else a suffix of the path that starts with its only dot and has no `/`. |
| `ImageFormat.ComponentExtension` | server/app.js:73 | The extension of one path component is a suffix of it that is empty or starts with its only dot. It is empty exactly when the component has no dot, is `..`, or has a single dot and that dot leads. |
| `ImageFormat.ExtensionAfterStem` | server/app.js:19 | A non-empty stem without dots, followed by an extension, has exactly that extension. |
| `ImageFormat.ExtnameOfStored` | server/app.js:19 | A stored path `dir/<timestamp><ext>` has as its extension the `ext` taken from the original name. |
| `ImageFormat.AllowedIgnoresCase` | server/app.js:73-75 | The lower-cased extension passes the whitelist exactly when it spells `.png`, `.jpg` or `.jpeg` in any mix of cases. |
| `ImageFormat.UpperCasePngAllowed` | server/app.js:73-75 | `.PNG` passes the whitelist. |
| `ImageFormat.GifRefused` | server/app.js:73-78 | `.gif` and the empty extension are refused. |
| `ImageFormat.MediaExtensionOfAllowed` | server/app.js:89-92 | For a whitelisted extension, the value passed to `addImage` is it without its leading dot: `png`, `jpg` or `jpeg`. |
| `Sheets.OverlapsIffSharedCell` | server/app.js:94 | Two well-formed ranges overlap exactly when some cell lies in both. |
| `Sheets.ColumnNumber` | server/app.js:94 | A column letter names a column from 1 to 26, the one at that letter's place in the alphabet. |
| `Sheets.DefinedWidths` | server/app.js:52-57 | The column definitions give widths to columns 1..n and to no others. Column c gets the width of definition c. |
| `Sheets.HeaderRow` | server/app.js:52-57 | Row 1 holds the header of each column definition, in column order. |
| `Sheets.KeyedRow` | server/app.js:63-68 | `addRow` with an object fills each column with the value under its key, or `""` when the key is missing. |
| `Sheets.PadRows` | server/app.js:84-86 | `getRow(n)` makes rows 1..n exist. The old rows are unchanged and the new ones are empty. |
| `Sheets.Worksheet.constructor` | server/app.js:50 | A new worksheet is empty and carries its name. |
| `Sheets.Worksheet.SetColumns` | server/app.js:52-57 | Assigning `columns` replaces the definitions and the widths, and writes the headers into row 1. Nothing else changes. |
| `Sheets.Worksheet.SetColumnWidth` | server/app.js:81 | Only that column's width changes. |
| `Sheets.Worksheet.SetRowHeight` | server/app.js:85 | The row is created if missing and gets the height. Nothing else changes. |
| `Sheets.Worksheet.AddRow` | server/app.js:63-68 | One row is appended, filled through the column keys. Nothing else changes. |
| `Sheets.Worksheet.MergeCells` | server/app.js:94 | The range is appended to the merges. Nothing else changes. |
| `Sheets.Worksheet.AddImage` | server/app.js:95-98 | One placement is appended. Nothing else changes. |
| `Sheets.Workbook.constructor` | server/app.js:49 | A new workbook has no sheets and no media. |
| `Sheets.Workbook.AddWorksheet` | server/app.js:50 | A fresh, empty sheet is added. The media are unchanged. |
| `Sheets.Workbook.AddImage` | server/app.js:89-92 | The image is appended to the media. Its id is its position in the list. |
| `Layout.DataRows` | server/app.js:59-69 | The loop adds as many rows as the longer of `odd` and `even` has entries. Row i holds the number and name of `odd[i]`, then those of `even[i]`, with `""` for each missing index, falsy element or absent field. |
| `Layout.WithHeights` | server/app.js:84-86 | Rows 1..n get the height, and every other row keeps its own. |
| `Layout.TableShape` | server/app.js:49-69 | The sheet is named PanelBoard. It has one header row with the four headers, then exactly as many rows as the longer of `odd` and `even` has entries. The widths are 18, 40, 18, 40. There are no heights, merges or images yet. |
| `Layout.TableRowAt` | server/app.js:59-69 | Data row i holds the number and name of `odd[i]`, then those of `even[i]`. A cell is `""` when the index is past that side's list, the element is falsy, or the field is absent. |
| `Layout.NoListsNoRows` | server/app.js:46 | With both keys absent, the table is the header row alone. |
| `Layout.OneEntryEachSide` | server/app.js:52-69 | One entry on each side gives the header and one data row. The missing name is `""`. |
| `Layout.LayoutEffect` | server/app.js:81-98 | Rows 1-25 get height 25, and later rows keep their heights. Column 5 gets width 50, and other columns keep theirs. Rows up to 25 exist, the old ones unchanged. Merge `E1:H25` and image placement `(4.5, 0.5)`, 400x300, are appended. |
| `Layout.TableLaidOut` | server/app.js:81-98 | The laid-out table keeps its rows first and has at least 25 rows. Column 5 has width 50. Rows 1-25, and no others, have height 25. The one merge is `E1:H25`, and the one image sits at the fixed anchor. |
| `Layout.ImageRangeClearOfTable` | server/app.js:94 | `E1:H25` is rows 1-25 of columns 5-8. Every table row has four cells. The merge covers no cell of columns 1-4. |
| `UploadHandler.WriteTable` | server/app.js:52-69 | On the fresh sheet, the column assignment and the row loop leave exactly the table sheet. |
| `UploadHandler.ReserveImageSpace` | server/app.js:81-86 | Column 5 gets width 50 and rows 1-25 get height 25. Nothing else changes. |
| `UploadHandler.HandleUpload` | server/app.js:23-111 | The handler's outcome is exactly what `Respond` prescribes: response, deletion and workbook. |
| `UploadHandler.Stages` | server/app.js:24-46 | Before the entries are parsed, the only outcomes are two. One is 400 "JSON not found in response.", with the file deleted. The other is 500 "Server error: ..." with the file kept. Neither has a workbook. After parsing, the outcome is `Build`'s. |
| `UploadHandler.BuildOutcome` | server/app.js:48-106 | The file is always deleted. A refused extension gives 400 "Unsupported image format." with the bare table. Otherwise the image is placed in the laid-out table. Then the result is 200 with the serialised bytes, or 500 with the serialiser's message. |
| `UploadHandler.MissingUploadIsServerError` | server/app.js:25 | Without an uploaded file the answer is 500 "Server error: ..." and nothing is deleted. |
| `UploadHandler.JsonNotFoundExactly` | server/app.js:38-43 | The answer is 400 "JSON not found in response." exactly when the request got as far as the reply and the reply lacks a `{` or a `}`. In that case the file is deleted and no workbook exists. |
| `UploadHandler.UnsupportedFormatExactly` | server/app.js:73-78 | The answer is 400 "Unsupported image format." exactly when the entries parsed and the extension is refused. The file is then deleted, and the workbook holds the finished table with no merge, image or heights. |
| `UploadHandler.SuccessNeedsEveryStep` | server/app.js:24-106 | A 200 happens only when every step succeeded and the extension was accepted. |
| `UploadHandler.SuccessfulBuild` | server/app.js:89-106 | On a 200 the file was deleted, and the headers are the spreadsheet ones. The body is what the serialiser made of the workbook. The only medium is the uploaded bytes with extension `png`, `jpg` or `jpeg`. |
| `UploadHandler.SuccessfulLayout` | server/app.js:81-101 | On a 200 the sheet keeps the table rows and has at least 25 rows. Column 5 has width 50. Rows 1-25 have height 25 and no other row has a height. The one merge is `E1:H25`, and image 0 sits at the fixed anchor. |
| `UploadHandler.StatusAndDeletion` | server/app.js:40-110 | The status is 200, 400 or 500. On 200 and 400 the file is deleted. A 500 that keeps the file has no workbook. A 500 after deletion comes only from a failed serialisation and carries its message. |

## Left out

- HTTP and multipart plumbing (Express, multer's storage, cors, `app.listen`, the port): framework wiring around the handler. multer enters only through the stored path it produces.
- The request to the extraction service and the base64 encoding: network I/O and a library encoding. The reply, or the call's failure, is a parameter.
- File reading and `unlinkSync`: real I/O. Reading is a parameter. Deletion is the `fileDeleted` flag, and a failing `unlinkSync` is not modelled.
- `JSON.parse` and the destructuring: a parameter returning entry lists or an error message. JSON grammar is not modelled. A non-array `odd` or `even` does not throw, and the parameter stands for it through the entry lists that give the same rows. A value with no `length`, such as `{"odd": 5}`, makes `Math.max` NaN, so no data row is written and the answer can still be 200; that is both lists empty. A string such as `"ab"` gives one row of `""` cells per character, and a 200; that is one empty entry per character. Only a `null` list throws, at app.js:59, which is a 500 with the file kept: the parameter's error. The workbook already created before that throw is not represented, since it is never sent.
- `UploadHandler.MissingUploadIsServerError`: proves the exact message of the `TypeError` raised by `req.file.path`, as V8 words it from Node 16.9 on ("Cannot read properties of undefined (reading 'path')"). Older engines say "Cannot read property 'path' of undefined", so the body of that 500 depends on the engine.
- `PanelRows.Cell`: field values are strings or absent. A truthy non-string value, such as a number, would pass through `|| ""` unchanged in JavaScript, and the model does not represent it.
- `writeBuffer`: library serialisation, a parameter from the finished workbook to bytes or an error message.
- The image anchor's fractional position: kept as constants in tenths of a cell, `Anchor(45, 5, 400, 300)`.
- `JsText.ToLower`: lower-cases ASCII letters only. Full Unicode lower-casing changes other characters too, but no non-ASCII character lower-cases to any character of `.png`, `.jpg` or `.jpeg`, so whitelist decisions are the same.
- `ImageFormat.Extname`: follows POSIX `path.extname` for paths without a trailing `/`. It does not handle trailing slashes or Windows separators. multer's stored paths have neither.
- `Sheets.Worksheet.MergeCells`: ExcelJS throws when a new merge overlaps an earlier one. That is a precondition here, because the handler merges once, into a sheet with no merges.
- `Sheets.Worksheet.SetColumns`: ExcelJS writes headers cell by cell into row 1. The model replaces row 1 with the header row. The two agree on the fresh sheet the handler uses.
- Cells that ExcelJS leaves empty are the empty string in the model.
- Headers that Express adds by itself, such as the content type of text bodies: the response lists only the headers the handler sets.
- `console.error` logging and the asynchronous suspension points: no effect on the outcome.
- The client (`client/src/App.jsx`): user-interface state and a browser download, with no logic to model.
