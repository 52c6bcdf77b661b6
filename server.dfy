/** The two request handlers and the in-memory file store they share. */
module Server {
  import opened Wrappers
  import opened Formats
  import opened Content
  import opened Completion

  const UnsupportedFormat: string := "Unsupported file format."
  const ProcessingFailed: string := "Failed to process file."
  const FileNotFound: string := "File not found."
  const RequestFailedMessage: string := "Groq API request failed."

  /** The bytes of a PDF upload and the text the PDF extractor finds in them. */
  datatype PdfReading = PdfReading(bytes: seq<byte>, text: string)

  /** What the file readers and parsers make of the uploaded file, one entry
      per reader; None where that reader throws. The handler consults only
      the entry of the file's class: the CSV parser with a header row, the
      first sheet of the workbook, the file decoded as UTF-8, or the PDF
      reader. */
  datatype FileReadings = FileReadings(
    csvRows: Option<seq<Record>>,
    sheetRows: Option<seq<Record>>,
    text: Option<string>,
    pdf: Option<PdfReading>)

  /** An upload's response: the identifier, the preview and the base64 copy,
      or an HTTP error status with its message. */
  datatype UploadReply = Uploaded(fileId: string, preview: string, base64: string)
                       | UploadFailed(status: nat, error: string)

  /** A query's response: the answer, or an HTTP error status with its message. */
  datatype QueryReply = Answered(response: string) | QueryFailed(status: nat, error: string)

  /** What one supported upload stores, and the base64 copy it returns. */
  datatype Extraction = Extraction(stored: Stored, base64: string)

  datatype UploadResult = UploadResult(reply: UploadReply, fileStore: map<string, Stored>)

  /** The reply of a query and the prompt it sent to the completion service,
      if it sent one. */
  datatype QueryResult = QueryResult(reply: QueryReply, sent: Option<string>)

  /** The per-class extraction: rows for the two tabular classes, text for
      the other two, a base64 copy of the bytes for PDF alone; None when the
      class's reader throws. */
  function Extract(kind: Kind, files: FileReadings, enc: Encoders): (r: Option<Extraction>)
    requires kind != Unsupported
    ensures r.Some? ==> (r.value.stored.Records? <==> kind == Csv || kind == Xlsx)
    ensures r.Some? ==> (r.value.stored.Text? <==> kind == Txt || kind == Pdf)
    ensures r.Some? && r.value.base64 != "" ==> kind == Pdf
    ensures kind == Csv ==> (r.Some? <==> files.csvRows.Some?)
    ensures kind == Xlsx ==> (r.Some? <==> files.sheetRows.Some?)
    ensures kind == Txt ==> (r.Some? <==> files.text.Some?)
    ensures kind == Pdf ==> (r.Some? <==> files.pdf.Some?)
    ensures kind == Csv && r.Some? ==> r.value == Extraction(Records(files.csvRows.value), "")
    ensures kind == Xlsx && r.Some? ==> r.value == Extraction(Records(files.sheetRows.value), "")
    ensures kind == Txt && r.Some? ==> r.value == Extraction(Text(files.text.value), "")
    ensures kind == Pdf && r.Some? ==>
      r.value == Extraction(Text(files.pdf.value.text), enc.base64(files.pdf.value.bytes))
  {
    match kind
    case Csv =>
      if files.csvRows.None? then None else Some(Extraction(Records(files.csvRows.value), ""))
    case Xlsx =>
      if files.sheetRows.None? then None else Some(Extraction(Records(files.sheetRows.value), ""))
    case Txt =>
      if files.text.None? then None else Some(Extraction(Text(files.text.value), ""))
    case Pdf =>
      if files.pdf.None? then None
      else Some(Extraction(Text(files.pdf.value.text), enc.base64(files.pdf.value.bytes)))
  }

  /** The upload handler on values: classify, extract, store under the
      identifier, preview. */
  function UploadStep(fileStore: map<string, Stored>, fileId: string, originalName: string,
                      files: FileReadings, enc: Encoders): (r: UploadResult)
    ensures Classify(originalName) == Unsupported ==>
      r == UploadResult(UploadFailed(400, UnsupportedFormat), fileStore)
    ensures r.reply.UploadFailed? ==> r.fileStore == fileStore
    ensures Classify(originalName) != Unsupported ==>
      (r.reply.Uploaded? <==> Extract(Classify(originalName), files, enc).Some?)
    ensures Classify(originalName) != Unsupported && r.reply.UploadFailed? ==>
      r.reply == UploadFailed(500, ProcessingFailed)
    ensures r.reply.UploadFailed? ==>
      r.reply == UploadFailed(400, UnsupportedFormat) || r.reply == UploadFailed(500, ProcessingFailed)
    ensures r.reply.Uploaded? ==>
      && r.reply.fileId == fileId
      && Classify(originalName) != Unsupported
      && Extract(Classify(originalName), files, enc).Some?
      && var x := Extract(Classify(originalName), files, enc).value;
      && r.fileStore == fileStore[fileId := x.stored]
      && r.reply.preview == Preview(x.stored, enc)
      && r.reply.base64 == x.base64
    ensures r.reply.Uploaded? && r.reply.base64 != "" ==> Classify(originalName) == Pdf
  {
    var kind := Classify(originalName);
    if kind == Unsupported then UploadResult(UploadFailed(400, UnsupportedFormat), fileStore)
    else match Extract(kind, files, enc)
      case None => UploadResult(UploadFailed(500, ProcessingFailed), fileStore)
      case Some(x) =>
        UploadResult(Uploaded(fileId, Preview(x.stored, enc), x.base64), fileStore[fileId := x.stored])
  }

  /** Every value in the map is one an upload can write: rows or text. */
  predicate OnlyUploads(fileStore: map<string, Stored>) {
    forall id :: id in fileStore ==> !fileStore[id].Other?
  }

  lemma WriteKeepsOnlyUploads(fileStore: map<string, Stored>, fileId: string, v: Stored)
    requires OnlyUploads(fileStore) && !v.Other?
    ensures OnlyUploads(fileStore[fileId := v])
  {
  }

  /** An upload leaves every other identifier's entry as it was, and writes
      only rows or text. */
  lemma UploadKeepsOtherKeys(fileStore: map<string, Stored>, fileId: string, originalName: string,
                             files: FileReadings, enc: Encoders)
    ensures var after := UploadStep(fileStore, fileId, originalName, files, enc).fileStore;
      && (forall id :: id != fileId ==>
            (id in after <==> id in fileStore) && (id in after ==> after[id] == fileStore[id]))
      && (OnlyUploads(fileStore) ==> OnlyUploads(after))
  {
    var r := UploadStep(fileStore, fileId, originalName, files, enc);
    if r.reply.Uploaded? {
      var x := Extract(Classify(originalName), files, enc).value;
      assert r.fileStore == fileStore[fileId := x.stored];
    }
  }

  /** A query finds its file when the key is present and its value truthy. */
  predicate Found(fileStore: map<string, Stored>, fileId: string): (b: bool)
    ensures fileId !in fileStore ==> !b
    ensures fileId in fileStore && fileStore[fileId].Records? ==> b
    ensures fileId in fileStore && fileStore[fileId].Text? ==> (b <==> fileStore[fileId].body != "")
  {
    fileId in fileStore && Truthy(fileStore[fileId])
  }

  /** The query handler on values: look up, build the context and the prompt,
      send it, shape the answer. */
  function QueryStep(fileStore: map<string, Stored>, fileId: string, question: string,
                     groq: string -> Reply, enc: Encoders): (r: QueryResult)
    ensures r.sent.None? <==> !Found(fileStore, fileId)
    ensures r.sent.None? ==> r.reply == QueryFailed(404, FileNotFound)
    ensures r.sent.Some? ==> r.sent.value == Prompt(question, Context(fileStore[fileId], enc))
    ensures r.sent.Some? ==>
      r.reply == (match groq(r.sent.value)
                  case RequestFailed => QueryFailed(500, RequestFailedMessage)
                  case Responded(body) => Answered(Answer(body)))
    ensures r.reply.Answered? ==> r.reply.response != ""
  {
    if !Found(fileStore, fileId) then QueryResult(QueryFailed(404, FileNotFound), None)
    else
      var prompt := Prompt(question, Context(fileStore[fileId], enc));
      match groq(prompt)
      case RequestFailed => QueryResult(QueryFailed(500, RequestFailedMessage), Some(prompt))
      case Responded(body) => QueryResult(Answered(Answer(body)), Some(prompt))
  }

  /** Read after write: once an upload succeeds, a query for its identifier
      sends the prompt built from exactly what was stored, unless the stored
      value is falsy, which only an empty text is. */
  lemma UploadThenQuery(fileStore: map<string, Stored>, fileId: string, originalName: string,
                        files: FileReadings, question: string, groq: string -> Reply, enc: Encoders)
    requires UploadStep(fileStore, fileId, originalName, files, enc).reply.Uploaded?
    ensures var after := UploadStep(fileStore, fileId, originalName, files, enc).fileStore;
      var stored := Extract(Classify(originalName), files, enc).value.stored;
      var q := QueryStep(after, fileId, question, groq, enc);
      && (q.sent.None? <==> stored == Text(""))
      && (q.sent.Some? ==> q.sent.value == Prompt(question, Context(stored, enc)))
  {
  }

  /** An empty TXT file uploads successfully, yet a query for it answers
      "File not found.": the empty text stored under its identifier is falsy. */
  lemma EmptyTextIsNotFound(fileStore: map<string, Stored>, fileId: string, base: string,
                            question: string, groq: string -> Reply, enc: Encoders)
    ensures var files := FileReadings(None, None, Some(""), None);
      var up := UploadStep(fileStore, fileId, base + TxtSuffix, files, enc);
      && up.reply == Uploaded(fileId, "", "")
      && up.fileStore[fileId] == Text("")
      && QueryStep(up.fileStore, fileId, question, groq, enc) == QueryResult(QueryFailed(404, FileNotFound), None)
  {
    LowerCaseExtensions(base);
  }

  /** A query depends on its own identifier's entry alone. */
  lemma QueryReadsOneEntry(m1: map<string, Stored>, m2: map<string, Stored>, fileId: string,
                           question: string, groq: string -> Reply, enc: Encoders)
    requires fileId in m1 <==> fileId in m2
    requires fileId in m1 ==> m1[fileId] == m2[fileId]
    ensures QueryStep(m1, fileId, question, groq, enc) == QueryStep(m2, fileId, question, groq, enc)
  {
  }

  /** An upload changes no query about any other identifier. */
  lemma UploadKeepsOtherQueries(fileStore: map<string, Stored>, fileId: string, originalName: string,
                                files: FileReadings, other: string, question: string,
                                groq: string -> Reply, enc: Encoders)
    requires other != fileId
    ensures var after := UploadStep(fileStore, fileId, originalName, files, enc).fileStore;
      QueryStep(after, other, question, groq, enc) == QueryStep(fileStore, other, question, groq, enc)
  {
    var after := UploadStep(fileStore, fileId, originalName, files, enc).fileStore;
    UploadKeepsOtherKeys(fileStore, fileId, originalName, files, enc);
    QueryReadsOneEntry(after, fileStore, other, question, groq, enc);
  }

  /** A refused upload (unsupported name or a reader that throws) changes
      the answer to no query at all. */
  lemma FailedUploadKeepsQueries(fileStore: map<string, Stored>, fileId: string, originalName: string,
                                 files: FileReadings, id: string, question: string,
                                 groq: string -> Reply, enc: Encoders)
    requires UploadStep(fileStore, fileId, originalName, files, enc).reply.UploadFailed?
    ensures var after := UploadStep(fileStore, fileId, originalName, files, enc).fileStore;
      QueryStep(after, id, question, groq, enc) == QueryStep(fileStore, id, question, groq, enc)
  {
  }

  /** In a store that only uploads wrote, a found value is never answered
      with the unsupported-content notice's branch: its context is a prefix
      of its text or the JSON of its first rows. */
  lemma StoredContextIsTextOrRows(fileStore: map<string, Stored>, fileId: string, enc: Encoders)
    requires OnlyUploads(fileStore) && Found(fileStore, fileId)
    ensures var v := fileStore[fileId];
      || (v.Text? && Context(v, enc) <= v.body && |Context(v, enc)| == Min(ContextChars, |v.body|))
      || (v.Records? && Context(v, enc) == enc.json(Take(v.rows, ContextRows)))
  {
    assert !fileStore[fileId].Other?;
  }

  /** A three-row CSV: its preview shows all three rows, and a query sends
      all three rows as the context. */
  lemma ThreeRowCsv(fileStore: map<string, Stored>, fileId: string, base: string,
                    r1: Record, r2: Record, r3: Record,
                    question: string, groq: string -> Reply, enc: Encoders)
    ensures var rows := [r1, r2, r3];
      var files := FileReadings(Some(rows), None, None, None);
      var up := UploadStep(fileStore, fileId, base + CsvSuffix, files, enc);
      && up.reply == Uploaded(fileId, enc.indentedJson(rows), "")
      && QueryStep(up.fileStore, fileId, question, groq, enc).sent == Some(Prompt(question, enc.json(rows)))
  {
    LowerCaseExtensions(base);
  }

  /** The same file uploaded twice under two identifiers gives two entries
      holding the same content; neither upload overwrites the other. */
  lemma TwoUploadsTwoEntries(fileStore: map<string, Stored>, id1: string, id2: string,
                             originalName: string, files: FileReadings, enc: Encoders)
    requires id1 != id2
    requires UploadStep(fileStore, id1, originalName, files, enc).reply.Uploaded?
    ensures var first := UploadStep(fileStore, id1, originalName, files, enc);
      var second := UploadStep(first.fileStore, id2, originalName, files, enc);
      var stored := Extract(Classify(originalName), files, enc).value.stored;
      && second.reply.Uploaded?
      && id1 in second.fileStore && id2 in second.fileStore
      && second.fileStore[id1] == stored && second.fileStore[id2] == stored
  {
  }

  /** The server's state: the serialisers it was started with and the
      process-lifetime map from upload identifier to stored content. */
  class FileServer {
    const enc: Encoders
    var fileStore: map<string, Stored>

    /** Every stored value came from an upload: rows or text. */
    ghost predicate Valid()
      reads this
    {
      OnlyUploads(fileStore)
    }

    constructor (enc: Encoders)
      ensures Valid()
      ensures this.enc == enc && fileStore == map[]
    {
      this.enc := enc;
      fileStore := map[];
    }

    /** The upload handler. The identifier is the name the upload middleware
        gave the temporary file; a repeated identifier overwrites. */
    method Upload(fileId: string, originalName: string, files: FileReadings) returns (reply: UploadReply)
      requires Valid()
      modifies this
      ensures Valid()
      ensures var r := UploadStep(old(fileStore), fileId, originalName, files, enc);
        reply == r.reply && fileStore == r.fileStore
    {
      var preview := "";
      var base64 := "";
      var ext := Lower(originalName);
      ghost var kind := Classify(originalName);
      ghost var expected := UploadStep(fileStore, fileId, originalName, files, enc);
      if EndsWith(ext, CsvSuffix) {
        assert kind == Csv;
        if files.csvRows.None? {
          return UploadFailed(500, ProcessingFailed);
        }
        var rows := files.csvRows.value;
        WriteKeepsOnlyUploads(fileStore, fileId, Records(rows));
        fileStore := fileStore[fileId := Records(rows)];
        preview := enc.indentedJson(Take(rows, PreviewRows));
      } else if EndsWith(ext, XlsxSuffix) {
        assert kind == Xlsx;
        if files.sheetRows.None? {
          return UploadFailed(500, ProcessingFailed);
        }
        var rows := files.sheetRows.value;
        WriteKeepsOnlyUploads(fileStore, fileId, Records(rows));
        fileStore := fileStore[fileId := Records(rows)];
        preview := enc.indentedJson(Take(rows, PreviewRows));
      } else if EndsWith(ext, TxtSuffix) {
        assert kind == Txt;
        if files.text.None? {
          return UploadFailed(500, ProcessingFailed);
        }
        var content := files.text.value;
        WriteKeepsOnlyUploads(fileStore, fileId, Text(content));
        fileStore := fileStore[fileId := Text(content)];
        preview := Take(content, PreviewChars);
      } else if EndsWith(ext, PdfSuffix) {
        assert kind == Pdf;
        if files.pdf.None? {
          return UploadFailed(500, ProcessingFailed);
        }
        var pdfData := files.pdf.value;
        WriteKeepsOnlyUploads(fileStore, fileId, Text(pdfData.text));
        fileStore := fileStore[fileId := Text(pdfData.text)];
        preview := Take(pdfData.text, PreviewChars);
        base64 := enc.base64(pdfData.bytes);
      } else {
        assert kind == Unsupported;
        return UploadFailed(400, UnsupportedFormat);
      }
      reply := Uploaded(fileId, preview, base64);
    }

    /** The query handler; the completion service is the function groq from
        prompt to reply. Returns the prompt it sent, if any. */
    method Query(fileId: string, question: string, groq: string -> Reply)
      returns (reply: QueryReply, sent: Option<string>)
      ensures QueryResult(reply, sent) == QueryStep(fileStore, fileId, question, groq, enc)
    {
      if fileId !in fileStore || !Truthy(fileStore[fileId]) {
        return QueryFailed(404, FileNotFound), None;
      }
      var fileData := fileStore[fileId];
      var content := "";
      if fileData.Text? {
        content := Take(fileData.body, ContextChars);
      } else if fileData.Records? {
        content := enc.json(Take(fileData.rows, ContextRows));
      } else {
        content := UnsupportedContent;
      }
      var prompt := Prompt(question, content);
      sent := Some(prompt);
      match groq(prompt)
      case RequestFailed =>
        reply := QueryFailed(500, RequestFailedMessage);
      case Responded(body) =>
        reply := Answered(Answer(body));
    }
  }
}
