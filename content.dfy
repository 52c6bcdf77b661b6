/** What the in-memory store holds per upload, and the two positional
    truncations applied to it: the preview returned by an upload and the
    context embedded in a query's prompt. */
module Content {

  newtype byte = b: int | 0 <= b < 256

  /** One column of a parsed row: its header name and the cell's text. */
  datatype Cell = Cell(column: string, value: string)

  /** One parsed row, cells in column order. */
  type Record = seq<Cell>

  /** A stored value: the rows of a CSV or spreadsheet upload, the text of a
      TXT or PDF upload, or any other (truthy) value, which no upload writes
      but which the query handler still distinguishes. */
  datatype Stored = Records(rows: seq<Record>) | Text(body: string) | Other

  /** The serialisers the handlers call but whose definitions lie in the
      runtime: compact JSON of a row list, JSON of a row list indented by two
      spaces, and base64 of a byte buffer. */
  datatype Encoders = Encoders(
    json: seq<Record> -> string,
    indentedJson: seq<Record> -> string,
    base64: seq<byte> -> string)

  const PreviewRows: nat := 5
  const PreviewChars: nat := 500
  const ContextRows: nat := 20
  const ContextChars: nat := 5000
  const UnsupportedContent: string := "Unsupported file content."

  function Min(a: nat, b: nat): nat {
    if a <= b then a else b
  }

  /** The leading part of a sequence, at most n elements long (slice(0, n)). */
  function Take<T>(s: seq<T>, n: nat): (r: seq<T>)
    ensures |r| == Min(n, |s|)
    ensures r <= s
    ensures |s| <= n ==> r == s
  {
    s[..Min(n, |s|)]
  }

  /** Truthiness of a stored value: an empty string is falsy, every array
      (even an empty one) and every other value present is truthy. */
  predicate Truthy(v: Stored): (b: bool)
    ensures v.Records? ==> b
    ensures v.Text? ==> (b <==> v.body != "")
    ensures v.Other? ==> b
  {
    !(v.Text? && v.body == "")
  }

  /** The preview an upload returns: indented JSON of the first five rows,
      or the first 500 characters of the text. */
  function Preview(v: Stored, enc: Encoders): (r: string)
    requires !v.Other?
    ensures v.Text? ==> r <= v.body && |r| == Min(PreviewChars, |v.body|)
    ensures v.Records? ==> r == enc.indentedJson(Take(v.rows, PreviewRows))
  {
    match v
    case Records(rows) => enc.indentedJson(Take(rows, PreviewRows))
    case Text(body) => Take(body, PreviewChars)
  }

  /** The context a query embeds: the first 5000 characters of a text,
      compact JSON of the first twenty rows, or a fixed notice otherwise. */
  function Context(v: Stored, enc: Encoders): (r: string)
    ensures v.Text? ==> r <= v.body && |r| == Min(ContextChars, |v.body|)
    ensures v.Records? ==> r == enc.json(Take(v.rows, ContextRows))
    ensures v.Other? ==> r == UnsupportedContent
  {
    match v
    case Text(body) => Take(body, ContextChars)
    case Records(rows) => enc.json(Take(rows, ContextRows))
    case Other => UnsupportedContent
  }

  /** Taking twice is taking the smaller bound. */
  lemma TakeTake<T>(s: seq<T>, n: nat, m: nat)
    ensures Take(Take(s, n), m) == Take(s, Min(n, m))
  {
  }

  /** The rows serialised for a tabular preview are exactly the first
      min(5, n) rows, in order; with at most five rows they are all rows. */
  lemma TabularPreviewRows(rows: seq<Record>, enc: Encoders)
    ensures var shown := Take(rows, PreviewRows);
      && Preview(Records(rows), enc) == enc.indentedJson(shown)
      && |shown| == Min(5, |rows|)
      && (forall i :: 0 <= i < |shown| ==> shown[i] == rows[i])
      && (|rows| <= 5 ==> shown == rows)
  {
  }

  /** What an upload previews is the start of what a later query sends:
      the preview text is a prefix of the context text, and the preview rows
      are the first rows of the context rows. */
  lemma PreviewWithinContext(v: Stored, enc: Encoders)
    requires !v.Other?
    ensures v.Text? ==> Preview(v, enc) <= Context(v, enc)
    ensures v.Records? ==> Take(Take(v.rows, ContextRows), PreviewRows) == Take(v.rows, PreviewRows)
  {
    if v.Records? {
      TakeTake(v.rows, ContextRows, PreviewRows);
    }
  }
}
