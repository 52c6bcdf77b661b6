/** The prompt a query sends to the completion service and the way the
    service's reply is turned into the answer string. */
module Completion {
  import opened Wrappers

  /** The template text before the question (it starts with a line break). */
  const Preamble: string :=
    "\nYou are an AI assistant helping analyze uploaded documents. Use the provided content to answer the user's question.\n\nQuestion:\n"
  /** The template text between the question and the document content. */
  const ContentHeading: string := "\n\nDocument Content:\n"
  /** The template text after the document content. */
  const Closing: string := "\n"

  const NoResponse: string := "No response from Groq."

  /** The prompt: the fixed preamble, the question, then the content. */
  function Prompt(question: string, content: string): (p: string)
    ensures |p| == |Preamble| + |question| + |ContentHeading| + |content| + |Closing|
    ensures p[..|Preamble|] == Preamble
    ensures p[|Preamble|..|Preamble| + |question|] == question
    ensures p[|Preamble| + |question|..|Preamble| + |question| + |ContentHeading|] == ContentHeading
    ensures p[|Preamble| + |question| + |ContentHeading|..|p| - |Closing|] == content
    ensures p[|p| - |Closing|..] == Closing
  {
    var p := Preamble + question + ContentHeading + content + Closing;
    assert p[..|Preamble|] == Preamble;
    assert p[|Preamble|..|Preamble| + |question|] == question;
    assert p[|Preamble| + |question|..|Preamble| + |question| + |ContentHeading|] == ContentHeading;
    assert p[|Preamble| + |question| + |ContentHeading|..|p| - |Closing|] == content;
    p
  }

  /** Knowing the question's length, the question and the content can be read
      back out of a prompt: two prompts with equally long questions are equal
      only when their questions and their contents are. */
  lemma PromptDetermines(q1: string, c1: string, q2: string, c2: string)
    requires |q1| == |q2|
    requires Prompt(q1, c1) == Prompt(q2, c2)
    ensures q1 == q2 && c1 == c2
  {
    var p := Prompt(q1, c1);
    assert q1 == p[|Preamble|..|Preamble| + |q1|];
    assert c1 == p[|Preamble| + |q1| + |ContentHeading|..|p| - |Closing|];
  }

  /** The question is placed before the content: every character of the
      question precedes every character of the content. */
  lemma QuestionBeforeContent(question: string, content: string, i: nat, j: nat)
    requires i < |question| && j < |content|
    ensures var p := Prompt(question, content);
      var qi := |Preamble| + i;
      var cj := |Preamble| + |question| + |ContentHeading| + j;
      && qi < cj && cj < |p|
      && p[qi] == question[i]
      && p[cj] == content[j]
  {
    var p := Prompt(question, content);
    var qs := p[|Preamble|..|Preamble| + |question|];
    assert qs[i] == p[|Preamble| + i];
    var cs := p[|Preamble| + |question| + |ContentHeading|..|p| - |Closing|];
    assert cs[j] == p[|Preamble| + |question| + |ContentHeading| + j];
  }

  /** One entry of the reply's choice list; its message content, when the
      message and its content are there and the content is a string. */
  datatype Choice = Choice(content: Option<string>)

  /** The parsed reply body; its choice list when the body is an object with
      a choice array (None for any other body, an error object included). */
  datatype ResponseBody = ResponseBody(choices: Option<seq<Choice>>)

  /** What the completion request comes back with: a thrown fetch or body
      parse, or a parsed body. */
  datatype Reply = RequestFailed | Responded(body: ResponseBody)

  /** The optional chain to the first choice's message content. */
  function FirstContent(body: ResponseBody): (r: Option<string>)
    ensures r.Some? <==> body.choices.Some? && |body.choices.value| > 0 && body.choices.value[0].content.Some?
    ensures r.Some? ==> r.value == body.choices.value[0].content.value
  {
    match body.choices
    case None => None
    case Some(cs) => if |cs| == 0 then None else cs[0].content
  }

  /** The answer: the first choice's content when present and non-empty,
      otherwise the fixed default; never empty. */
  function Answer(body: ResponseBody): (r: string)
    ensures r != ""
    ensures r == NoResponse || (FirstContent(body).Some? && r == FirstContent(body).value)
    ensures (FirstContent(body).Some? && FirstContent(body).value != "") ==> r == FirstContent(body).value
    ensures (FirstContent(body).None? || FirstContent(body).value == "") ==> r == NoResponse
  {
    match FirstContent(body)
    case Some(text) => if text != "" then text else NoResponse
    case None => NoResponse
  }

  /** An empty choice list yields the default string, not an error. */
  lemma EmptyChoicesGiveDefault()
    ensures Answer(ResponseBody(Some([]))) == NoResponse
  {
  }
}
