# Document chat server: upload and query handlers

This project models the server core of a small document question-answering
service (`frontend/index.js`). An upload is classified by the suffix of its
lower-cased original name (`.csv`, `.xlsx`, `.txt`, `.pdf`, tested in that
order). Its parsed content (the rows of a CSV or of a workbook's first sheet,
or the text of a TXT or PDF file) is written under the upload's identifier
into a process-lifetime in-memory map. The upload answers with a preview:
indented JSON of the first 5 rows, or the first 500 characters. A PDF upload
also returns a base64 copy of its bytes. A query looks its identifier up and
treats a falsy value as missing. It bounds the content to the first 5000
characters or the compact JSON of the first 20 rows, and embeds the content
after the question in a fixed prompt. The answer is the first choice's
message content from the completion service, or "No response from Groq."
when that content is absent or empty.

Layout:

- `wrappers.dfy`: `Option`.
- `formats.dfy` (module `Formats`): ASCII lower-casing, suffix test, `Classify`, and the case-insensitivity lemmas.
- `content.dfy` (module `Content`): the stored value `Stored`, `Take`, `Preview`, `Context`, `Truthy`, and the serialisers as parameters (`Encoders`).
- `completion.dfy` (module `Completion`): the prompt template and the answer chosen from the service's reply.
- `server.dfy` (module `Server`): the two handlers as pure step functions (`UploadStep`, `QueryStep`), the class `FileServer` holding the store with the imperative `Upload` and `Query` methods, and lemmas relating uploads and queries.

Foreign pieces are inputs:

- A `FileReadings` value gives what each file reader or parser returns for the uploaded file, or `None` where it throws.
- The completion service is a function `groq` from prompt to reply.
- `Encoders` holds compact JSON, indented JSON and base64 as function values with no definition in the model.

Strings are `seq<char>`. The source slices JavaScript strings in UTF-16 code units, so the 500 and 5000 bounds count code units there and characters here.

Two behaviours of the code differ from what one would expect of such a service; the model follows the code:

- One would expect a query to find whatever an upload stored. In the code an uploaded empty text (an empty `.txt`, or a PDF with no extractable text) is stored as `""`. That value is falsy, so a query for it answers "File not found." (`Server.EmptyTextIsNotFound`).
- One would expect a non-2xx reply from the completion service to count as a failed request. The code never looks at the status. An error body has no choice list, so the query answers with the default string (`Completion.Answer` on `ResponseBody(None)`).

## Model

| member | source | states |
|---|---|---|
| `Formats.Lower` | frontend/index.js:32 | lower-casing keeps the length and lower-cases every character in place |
| `Formats.Classify` | frontend/index.js:32-57 | each class holds exactly when the lower-cased name ends with its suffix; unsupported exactly when it ends with none of the four |
| `Formats.SuffixesExclusive` | frontend/index.js:34-49 | no name ends with two of `.csv`, `.xlsx`, `.txt`, `.pdf`, so the order of the tests never decides a class |
| `Formats.ClassifyIgnoresCase` | frontend/index.js:32 | two names that differ only in letter case fall into the same class |
| `Formats.ClassifyLower` | frontend/index.js:32 | a name and its lower-cased form fall into the same class |
| `Formats.LowerIdempotent` | frontend/index.js:32 | lower-casing twice is lower-casing once |
| `Formats.LowerAppend` | frontend/index.js:32 | lower-casing distributes over concatenation |
| `Formats.ExtensionDecides` | frontend/index.js:32-56 | with an extension of at least five characters, the rest of the name does not affect the class |
| `Formats.DocxIsUnsupported` | frontend/index.js:55-56 | any name ending in `.docx` is unsupported |
| `Formats.LowerCaseExtensions` | frontend/index.js:34-49 | a name ending in `.csv`, `.xlsx`, `.txt` or `.pdf` is in that suffix's class, whatever comes before |
| `Formats.UpperCaseExtensions` | frontend/index.js:32-49 | `.CSV`, `.XLSX`, `.TXT`, `.PDF` select the same classes as their lower-case forms |
| `Content.Take` | frontend/index.js:38 | the result is a prefix of the input, of length min(n, its length), and the whole input when it is no longer than n |
| `Content.Truthy` | frontend/index.js:73 | a stored value is falsy exactly when it is the empty text; every row list, even an empty one, is truthy |
| `Content.Preview` | frontend/index.js:38-53 | a text preview is a prefix of the text of length min(500, its length); a tabular preview is the indented JSON of the first min(5, n) rows |
| `Content.Context` | frontend/index.js:77-88 | a text context is a prefix of length min(5000, its length); a tabular one is the JSON of the first min(20, n) rows; any other value gives "Unsupported file content." |
| `Content.TakeTake` | frontend/index.js:38 | taking n then m elements is taking min(n, m) |
| `Content.TabularPreviewRows` | frontend/index.js:38 | the preview serialises exactly the first min(5, n) rows in their original order, all of them when n is at most 5 |
| `Content.PreviewWithinContext` | frontend/index.js:48 | the text preview is a prefix of the query context, and the preview rows are the first rows of the context rows |
| `Completion.Prompt` | frontend/index.js:91-99 | the prompt is the fixed preamble, the question, the content heading, the content and a closing line break, each at its stated offset |
| `Completion.PromptDetermines` | frontend/index.js:91-99 | given the question's length, a prompt determines its question and its content |
| `Completion.QuestionBeforeContent` | frontend/index.js:94-98 | every character of the question precedes every character of the content in the prompt |
| `Completion.FirstContent` | frontend/index.js:118 | the optional chain yields a value exactly when there is a first choice with content, and that content |
| `Completion.Answer` | frontend/index.js:118 | the answer is never empty: the first choice's content when present and non-empty, otherwise "No response from Groq." |
| `Completion.EmptyChoicesGiveDefault` | frontend/index.js:118 | an empty choice list gives the default string, not an error |
| `Server.Extract` | frontend/index.js:34-54 | CSV and XLSX store the parser's rows, TXT stores the decoded text, PDF stores the extracted text with the base64 of its bytes (every other class gives an empty base64); the result is missing exactly when that class's reader throws |
| `Server.UploadStep` | frontend/index.js:25-65 | an unsupported name is refused with 400 and the store unchanged; for a supported name the upload succeeds exactly when its reader does not throw, and otherwise fails with 500 and the store unchanged; success overwrites the identifier's entry with the extracted content and returns its preview and its base64 copy, which is non-empty only for PDF |
| `Server.UploadKeepsOtherKeys` | frontend/index.js:37-52 | an upload leaves every other identifier's entry (present or absent) as it was, and writes only rows or text |
| `Server.Found` | frontend/index.js:72-75 | an absent identifier is not found; a row list is found, even an empty one; a text is found exactly when it is non-empty |
| `Server.QueryStep` | frontend/index.js:69-125 | a missing or falsy entry gives 404 "File not found." and sends no prompt; otherwise it sends the prompt for the question and the entry's context and answers with the service's answer, or 500 when the request fails |
| `Server.WriteKeepsOnlyUploads` | frontend/index.js:37 | writing rows or text into a store holding only rows and text keeps that property |
| `Server.UploadThenQuery` | frontend/index.js:37-82 | after a successful upload, a query for its identifier sends the prompt built from the stored content, and sends none exactly when that content is the empty text |
| `Server.EmptyTextIsNotFound` | frontend/index.js:45-48 | an empty TXT upload succeeds with an empty preview, yet a query for it answers "File not found." |
| `Server.QueryReadsOneEntry` | frontend/index.js:72-88 | a query's reply and prompt depend only on its own identifier's entry |
| `Server.UploadKeepsOtherQueries` | frontend/index.js:37 | an upload changes no query about another identifier |
| `Server.FailedUploadKeepsQueries` | frontend/index.js:55-63 | a refused upload changes no query at all |
| `Server.StoredContextIsTextOrRows` | frontend/index.js:80-85 | in a store written only by uploads, a found entry's context is a text prefix or the JSON of its first rows |
| `Server.ThreeRowCsv` | frontend/index.js:34-38 | a three-row CSV previews all three rows and a later query sends all three as context |
| `Server.TwoUploadsTwoEntries` | frontend/index.js:27-52 | the same file uploaded under two identifiers gives two entries holding the same content |
| `Server.FileServer.constructor` | frontend/index.js:21 | the store starts empty |
| `Server.FileServer.Upload` | frontend/index.js:25-65 | the reply and the new store are those of `UploadStep` on the old store; the store keeps holding only rows and text |
| `Server.FileServer.Query` | frontend/index.js:69-125 | the reply and the sent prompt are those of `QueryStep` on the current store, which it does not change |

## Left out

- HTTP routing, CORS, body parsing, the upload middleware and the listening socket. They are transport. The identifier is an input; its uniqueness comes from the middleware's random temporary names and is not assumed (a repeated identifier overwrites).
- Reading the temporary file and the CSV, workbook and PDF parsers. Their results are the `FileReadings` input. Rows are sequences of (column, text) cells, so spreadsheet cells with numeric or date types are not distinguished.
- JSON serialisation and base64 encoding. They are function values in `Encoders` with no definition, so nothing is proved about their output beyond which rows they receive.
- The outbound request to the completion service, its bearer token from the environment, its JSON body and its temperature. The service is the function `groq`. A reply body is abstracted to its optional choice list, and a choice to its optional string content; non-string content is not modelled.
- Logging to the console. It has no behaviour.
- An exception thrown after the store write (the base64 encoding of a very large PDF) would give 500 with the entry kept. The model assumes that encoding does not throw.
- The crash when no file is attached, and keys inherited by a plain JavaScript object (such as `constructor`). These are runtime artefacts.
- Stored values other than rows and text are the single variant `Other`, which stands for a truthy non-string, non-array value. No upload writes one.
- Formats.Lower: lower-cases ASCII letters only. Full Unicode lower-casing can change other characters, and even the length (U+0130). The only non-ASCII characters that lower-case to ASCII at all are the Kelvin sign (to `k`) and U+0130 (to `i` followed by a combining dot). No non-ASCII character lower-cases to any of c, s, v, x, l, t, p, d or f, the letters of the four suffixes, so the classes agree with the source.
- The client-side page (upload form, PDF viewer, chat transcript).
