/**
 * The `/upload` request handler: read the stored image, obtain the extraction
 * service's reply, locate and parse the JSON in it, build the PanelBoard
 * sheet, check the image format, lay out and place the image, delete the
 * stored file and serialise the workbook. Every step that can fail decides the
 * response status, its body and whether the stored file was deleted.
 */
module UploadHandler {
  import opened Wrappers
  import opened JsText
  import JsonLocator
  import opened PanelRows
  import opened ImageFormat
  import opened Sheets
  import opened Layout

  /** What multer stored for the `image` field: the file's path. */
  datatype StoredFile = StoredFile(path: string)

  /**
   * The outside world of one request, as given values: the bytes read from the
   * stored file or the read error's message, the service's reply text or the
   * message of the failed call, `JSON.parse` with its destructuring, and the
   * serialiser.
   */
  datatype Env = Env(
    readFile: Result<seq<byte>, string>,
    replyText: Result<string, string>,
    parse: string -> Result<Extraction, string>,
    writeBuffer: Book -> Result<seq<byte>, string>)

  datatype Body = Text(text: string) | Binary(bytes: seq<byte>)

  /** A response: status, the headers the handler sets itself, and the body. */
  datatype Response = Response(status: nat, headers: seq<(string, string)>, body: Body)

  /**
   * The result of one request: the response, whether the stored file was
   * deleted, and the workbook as it stood when the handler finished with it
   * (`None` when none was created).
   */
  datatype Outcome = Outcome(response: Response, fileDeleted: bool, book: Option<Book>)

  const JsonNotFound := "JSON not found in response."
  const UnsupportedFormat := "Unsupported image format."
  const ServerErrorPrefix := "Server error: "

  /** The message of the `TypeError` raised by `req.file.path` when no file was uploaded. */
  const NoFileMessage := "Cannot read properties of undefined (reading 'path')"

  const SpreadsheetHeaders: seq<(string, string)> := [
    ("Content-Type", "application/vnd.openxmlformats-officedocument.spreadsheetml.sheet"),
    ("Content-Disposition", "attachment; filename=Panel_Board_Listing.xlsx")
  ]

  function ClientError(text: string): Response
  {
    Response(400, [], Text(text))
  }

  /** The `catch` of app.js:108-110. */
  function ServerError(message: string): Response
  {
    Response(500, [], Text(ServerErrorPrefix + message))
  }

  /** The extension of the stored file, lower-cased (app.js:73). */
  function UploadExtension(file: StoredFile): string
  {
    ToLower(Extname(file.path))
  }

  /** What one request to `/upload` does, step by step as the handler at app.js:24-110 takes them. */
  function Respond(upload: Option<StoredFile>, env: Env): Outcome
  {
    if upload.None? then Outcome(ServerError(NoFileMessage), false, None)
    else if env.readFile.Failure? then Outcome(ServerError(env.readFile.error), false, None)
    else if env.replyText.Failure? then Outcome(ServerError(env.replyText.error), false, None)
    else match JsonLocator.Locate(env.replyText.value)
      case None => Outcome(ClientError(JsonNotFound), true, None)
      case Some(json) =>
        match env.parse(json)
        case Failure(message) => Outcome(ServerError(message), false, None)
        case Success(extraction) => Build(upload.value, env.readFile.value, extraction, env.writeBuffer)
  }

  /** app.js:48-106, once the entries are parsed: table, image check, layout, deletion, serialisation. */
  function Build(file: StoredFile, imageData: seq<byte>, extraction: Extraction,
                 writeBuffer: Book -> Result<seq<byte>, string>): Outcome
  {
    var table := TableSheet(ListOrEmpty(extraction.odd), ListOrEmpty(extraction.even));
    var ext := UploadExtension(file);
    if !IsAllowed(ext) then Outcome(ClientError(UnsupportedFormat), true, Some(Book(table, [])))
    else
      var book := Book(LaidOut(table, 0), [Media(imageData, MediaExtension(ext))]);
      match writeBuffer(book)
      case Failure(message) => Outcome(ServerError(message), true, Some(book))
      case Success(bytes) => Outcome(Response(200, SpreadsheetHeaders, Binary(bytes)), true, Some(book))
  }

  /** app.js:52-69: the column definitions, then one row per pair, in increasing `i`. */
  method WriteTable(worksheet: Worksheet, odd: seq<Item>, even: seq<Item>)
    requires worksheet.State() == EmptySheet(SheetName)
    modifies worksheet
    ensures worksheet.State() == TableSheet(odd, even)
  {
    worksheet.SetColumns(Columns);
    var maxLen := MaxLen(odd, even);
    var i := 0;
    while i < maxLen
      invariant 0 <= i <= maxLen
      invariant worksheet.State() == TableSheet(odd, even).(rows := [HeaderRow(Columns)] + DataRows(odd, even)[..i])
    {
      worksheet.AddRow(RowObject(odd, even, i));
      i := i + 1;
    }
    assert DataRows(odd, even)[..maxLen] == DataRows(odd, even);
  }

  /** app.js:81-86: column 5 widened to 50, rows 1 to 25 given height 25. */
  method ReserveImageSpace(worksheet: Worksheet)
    modifies worksheet
    ensures worksheet.State() == old(worksheet.State()).(
              colWidths := old(worksheet.colWidths)[ImageColumn := ImageColumnWidth],
              rows := PadRows(old(worksheet.rows), ReservedRows),
              rowHeights := WithHeights(old(worksheet.rowHeights), ReservedRows, ReservedRowHeight))
  {
    worksheet.SetColumnWidth(ImageColumn, ImageColumnWidth);
    var row := 1;
    while row <= ReservedRows
      invariant 1 <= row <= ReservedRows + 1
      invariant worksheet.State() == old(worksheet.State()).(
                  colWidths := old(worksheet.colWidths)[ImageColumn := ImageColumnWidth],
                  rows := PadRows(old(worksheet.rows), row - 1),
                  rowHeights := WithHeights(old(worksheet.rowHeights), row - 1, ReservedRowHeight))
    {
      worksheet.SetRowHeight(row, ReservedRowHeight);
      row := row + 1;
    }
  }

  /** The handler of app.js:23-112, one step after the other on a workbook built in place. */
  method HandleUpload(upload: Option<StoredFile>, env: Env) returns (outcome: Outcome)
    ensures outcome == Respond(upload, env)
  {
    if upload.None? {
      return Outcome(ServerError(NoFileMessage), false, None);
    }
    var imagePath := upload.value.path;
    if env.readFile.Failure? {
      return Outcome(ServerError(env.readFile.error), false, None);
    }
    var imageData := env.readFile.value;
    if env.replyText.Failure? {
      return Outcome(ServerError(env.replyText.error), false, None);
    }
    var rawText := env.replyText.value;

    var located := JsonLocator.Locate(rawText);
    if located.None? {
      return Outcome(ClientError(JsonNotFound), true, None);
    }
    var parsed := env.parse(located.value);
    if parsed.Failure? {
      return Outcome(ServerError(parsed.error), false, None);
    }
    var odd := ListOrEmpty(parsed.value.odd);
    var even := ListOrEmpty(parsed.value.even);

    var workbook := new Workbook();
    var worksheet := workbook.AddWorksheet(SheetName);
    WriteTable(worksheet, odd, even);
    ghost var table := worksheet.State();
    assert table == TableSheet(odd, even);
    assert workbook.media == [];

    var ext := ToLower(Extname(imagePath));
    if !IsAllowed(ext) {
      return Outcome(ClientError(UnsupportedFormat), true, Some(Book(worksheet.State(), workbook.media)));
    }

    ReserveImageSpace(worksheet);
    var imageId := workbook.AddImage(Media(imageData, MediaExtension(ext)));
    worksheet.MergeCells(ImageRange);
    worksheet.AddImage(imageId, ImageAnchor);

    var book := Book(worksheet.State(), workbook.media);
    assert book == Book(LaidOut(table, 0), [Media(imageData, MediaExtension(ext))]);
    match env.writeBuffer(book)
    case Failure(message) =>
      outcome := Outcome(ServerError(message), true, Some(book));
    case Success(bytes) =>
      outcome := Outcome(Response(200, SpreadsheetHeaders, Binary(bytes)), true, Some(book));
  }

  /** The entry lists `JSON.parse` gave, when the request got that far. */
  ghost function Extracted(upload: Option<StoredFile>, env: Env): Option<Extraction>
  {
    if upload.Some? && env.readFile.Success? && env.replyText.Success?
       && JsonLocator.Locate(env.replyText.value).Some?
       && env.parse(JsonLocator.Locate(env.replyText.value).value).Success?
    then Some(env.parse(JsonLocator.Locate(env.replyText.value).value).value)
    else None
  }

  /**
   * Until the entries are parsed, a request ends in a 400 "JSON not found in
   * response." that deletes the file or in a 500 that does not, with no
   * workbook either way; afterwards it is what `Build` does.
   */
  lemma Stages(upload: Option<StoredFile>, env: Env)
    ensures var r := Respond(upload, env);
      Extracted(upload, env).None? ==>
        && r.book.None?
        && (r.response == ClientError(JsonNotFound) <==>
              upload.Some? && env.readFile.Success? && env.replyText.Success?
              && ('{' !in env.replyText.value || '}' !in env.replyText.value))
        && (r.response != ClientError(JsonNotFound) ==>
              r.response.status == 500 && !r.fileDeleted && r.response.body.Text?
              && r.response.body.text[..|ServerErrorPrefix|] == ServerErrorPrefix)
        && (r.response == ClientError(JsonNotFound) ==> r.fileDeleted)
    ensures Extracted(upload, env).Some? ==>
      Respond(upload, env) == Build(upload.value, env.readFile.value, Extracted(upload, env).value, env.writeBuffer)
  {
    var r := Respond(upload, env);
    if Extracted(upload, env).None? && r.response != ClientError(JsonNotFound) {
      var message :| r.response == ServerError(message);
      assert (ServerErrorPrefix + message)[..|ServerErrorPrefix|] == ServerErrorPrefix;
    }
  }

  /**
   * After parsing: 400 "Unsupported image format." with the file deleted and
   * the bare table when the extension is refused; otherwise the laid-out
   * workbook with its one image, the file deleted, and 200 or 500 as the
   * serialiser succeeds or fails.
   */
  lemma BuildOutcome(file: StoredFile, imageData: seq<byte>, x: Extraction,
                     writeBuffer: Book -> Result<seq<byte>, string>)
    ensures var r := Build(file, imageData, x, writeBuffer);
      var table := TableSheet(ListOrEmpty(x.odd), ListOrEmpty(x.even));
      && r.fileDeleted && r.book.Some?
      && (r.response == ClientError(UnsupportedFormat) <==> !IsAllowed(UploadExtension(file)))
      && (!IsAllowed(UploadExtension(file)) ==> r.book.value == Book(table, []))
      && (IsAllowed(UploadExtension(file)) ==>
            && r.book.value.sheet == LaidOut(table, 0)
            && |r.book.value.media| == 1
            && r.book.value.media[0].buffer == imageData
            && r.book.value.media[0].extension in ["png", "jpg", "jpeg"]
            && (writeBuffer(r.book.value).Success? ==>
                  r.response == Response(200, SpreadsheetHeaders, Binary(writeBuffer(r.book.value).value)))
            && (writeBuffer(r.book.value).Failure? ==>
                  r.response == ServerError(writeBuffer(r.book.value).error)))
  {
    var r := Build(file, imageData, x, writeBuffer);
    var table := TableSheet(ListOrEmpty(x.odd), ListOrEmpty(x.even));
    var ext := UploadExtension(file);
    if IsAllowed(ext) {
      MediaExtensionOfAllowed(ext);
      var book := Book(LaidOut(table, 0), [Media(imageData, MediaExtension(ext))]);
      assert r.book == Some(book);
      assert r.response != ClientError(UnsupportedFormat);
    } else {
      assert r == Outcome(ClientError(UnsupportedFormat), true, Some(Book(table, [])));
    }
  }

  /**
   * A request without an uploaded file fails in the `catch` with status 500,
   * not 400, and deletes nothing.
   */
  lemma MissingUploadIsServerError(env: Env)
    ensures Respond(None, env) == Outcome(Response(500, [], Text("Server error: " + NoFileMessage)), false, None)
  {
  }

  /**
   * The reply is refused with 400 "JSON not found in response." exactly when
   * the request got as far as the reply and it lacks a `{` or a `}`; then the
   * stored file is deleted and no workbook exists.
   */
  lemma JsonNotFoundExactly(upload: Option<StoredFile>, env: Env)
    ensures var r := Respond(upload, env);
      r.response == Response(400, [], Text("JSON not found in response."))
      <==> upload.Some? && env.readFile.Success? && env.replyText.Success?
           && ('{' !in env.replyText.value || '}' !in env.replyText.value)
    ensures var r := Respond(upload, env);
      r.response == Response(400, [], Text("JSON not found in response.")) ==> r.fileDeleted && r.book.None?
  {
    Stages(upload, env);
    if Extracted(upload, env).Some? {
      var x := Extracted(upload, env).value;
      BuildOutcome(upload.value, env.readFile.value, x, env.writeBuffer);
      assert JsonNotFound != UnsupportedFormat by { assert UnsupportedFormat[0] != JsonNotFound[0]; }
      var r := Respond(upload, env);
      if r.response.status == 400 {
        assert r.response == ClientError(UnsupportedFormat);
      }
    }
  }

  /**
   * Once the entries are parsed, the image is refused with 400 "Unsupported
   * image format." exactly when its lower-cased extension is not `.png`,
   * `.jpg` or `.jpeg`; then the file is deleted and the workbook holds the
   * finished table but no image, no merge and no reserved space.
   */
  lemma UnsupportedFormatExactly(upload: Option<StoredFile>, env: Env)
    ensures var r := Respond(upload, env);
      r.response == Response(400, [], Text("Unsupported image format."))
      <==> Extracted(upload, env).Some? && !IsAllowed(UploadExtension(upload.value))
    ensures var r := Respond(upload, env);
      r.response == Response(400, [], Text("Unsupported image format.")) ==>
        var x := Extracted(upload, env).value;
        && r.fileDeleted
        && r.book == Some(Book(TableSheet(ListOrEmpty(x.odd), ListOrEmpty(x.even)), []))
        && r.book.value.sheet.merges == [] && r.book.value.sheet.images == []
        && r.book.value.sheet.rowHeights == map[]
  {
    Stages(upload, env);
    assert JsonNotFound != UnsupportedFormat by { assert UnsupportedFormat[0] != JsonNotFound[0]; }
    if Extracted(upload, env).Some? {
      var x := Extracted(upload, env).value;
      BuildOutcome(upload.value, env.readFile.value, x, env.writeBuffer);
      TableShape(ListOrEmpty(x.odd), ListOrEmpty(x.even));
    }
  }

  /**
   * A spreadsheet is sent (status 200) only when every step up to the image
   * check succeeded and the extension was accepted.
   */
  lemma SuccessNeedsEveryStep(upload: Option<StoredFile>, env: Env)
    requires Respond(upload, env).response.status == 200
    ensures Extracted(upload, env).Some? && IsAllowed(UploadExtension(upload.value))
    ensures Respond(upload, env) == Build(upload.value, env.readFile.value, Extracted(upload, env).value, env.writeBuffer)
  {
    Stages(upload, env);
    BuildOutcome(upload.value, env.readFile.value, Extracted(upload, env).value, env.writeBuffer);
  }

  /**
   * When a spreadsheet is sent, the file was deleted first, the body is what
   * the serialiser produced from the workbook, and the workbook has one
   * medium: the uploaded bytes with extension `png`, `jpg` or `jpeg`.
   */
  lemma SuccessfulBuild(file: StoredFile, imageData: seq<byte>, x: Extraction,
                        writeBuffer: Book -> Result<seq<byte>, string>)
    requires Build(file, imageData, x, writeBuffer).response.status == 200
    ensures var r := Build(file, imageData, x, writeBuffer);
      && r.fileDeleted && r.book.Some?
      && r.response.headers == SpreadsheetHeaders
      && writeBuffer(r.book.value) == Success(r.response.body.bytes)
      && |r.book.value.media| == 1
      && r.book.value.media[0].buffer == imageData
      && r.book.value.media[0].extension in ["png", "jpg", "jpeg"]
  {
    BuildOutcome(file, imageData, x, writeBuffer);
  }

  /**
   * When a spreadsheet is sent, its sheet is the table laid out for the image:
   * the table rows unchanged and at least 25 rows; column 5 of width 50; rows
   * 1-25 of height 25 and no other heights; the one merge `E1:H25`; image 0
   * at the fixed anchor.
   */
  lemma SuccessfulLayout(file: StoredFile, imageData: seq<byte>, x: Extraction,
                         writeBuffer: Book -> Result<seq<byte>, string>)
    requires Build(file, imageData, x, writeBuffer).response.status == 200
    ensures var r := Build(file, imageData, x, writeBuffer);
      var table := TableSheet(ListOrEmpty(x.odd), ListOrEmpty(x.even));
      var sheet := r.book.value.sheet;
      && r.book.Some?
      && sheet.rows[..|table.rows|] == table.rows
      && |sheet.rows| == (if |table.rows| < 25 then 25 else |table.rows|)
      && 5 in sheet.colWidths && sheet.colWidths[5] == 50
      && (forall k: nat :: 1 <= k <= 25 ==> k in sheet.rowHeights && sheet.rowHeights[k] == 25)
      && (forall k: nat :: 25 < k ==> k !in sheet.rowHeights)
      && sheet.merges == [Range(1, 5, 25, 8)]
      && sheet.images == [Placement(0, Anchor(45, 5, 400, 300))]
  {
    BuildOutcome(file, imageData, x, writeBuffer);
    TableLaidOut(ListOrEmpty(x.odd), ListOrEmpty(x.even), 0);
  }

  /**
   * The status is always 200, 400 or 500. A 200 or a 400 deletes the stored
   * file. A 500 before the file was deleted leaves no workbook; a 500 after
   * deleting it comes only from a failed serialisation of the finished
   * workbook, and carries the serialiser's message.
   */
  lemma StatusAndDeletion(upload: Option<StoredFile>, env: Env)
    ensures var r := Respond(upload, env);
      && r.response.status in {200, 400, 500}
      && (r.response.status != 500 ==> r.fileDeleted)
      && (r.response.status == 500 && !r.fileDeleted ==> r.book.None?)
      && (r.response.status == 500 && r.fileDeleted ==>
            r.book.Some? && |r.book.value.media| == 1 && env.writeBuffer(r.book.value).Failure?
            && r.response == ServerError(env.writeBuffer(r.book.value).error))
  {
    Stages(upload, env);
    if Extracted(upload, env).Some? {
      BuildOutcome(upload.value, env.readFile.value, Extracted(upload, env).value, env.writeBuffer);
    }
  }
}
