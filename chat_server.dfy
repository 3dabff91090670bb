/** The chat server's own logic: stripping reasoning spans from the model's
    answer, turning the generation call into a string, and shaping the reply
    of the chat endpoint. */
module ChatServer {
  import opened Common
  import opened Documents
  import QaConsole

  const Open: string := "<think>"
  const Close: string := "</think>"

  /** A reasoning span: an opening tag and a closing tag that starts at or
      after the end of it. */
  ghost predicate HasSpan(text: string)
  {
    exists i: nat, j: nat :: i + |Open| <= j && OccursAt(text, Open, i) && OccursAt(text, Close, j)
  }

  /** Removes every span from an opening tag to the nearest closing tag after
      it, scanning left to right; newlines inside a span are removed like any
      other character, and text without a closed span is kept as it is. */
  function RemoveThinking(text: string): (r: string)
    ensures |r| <= |text|
    decreases |text|
  {
    match Find(text, Open, 0)
    case None => text
    case Some(i) =>
      match Find(text, Close, i + |Open|)
      case None => text
      case Some(j) => text[..i] + RemoveThinking(text[j + |Close|..])
  }

  /** Neither tag overlaps a copy of itself. */
  lemma TagsDoNotOverlap()
    ensures forall k :: 1 <= k < |Open| ==> Open[k] != Open[0]
    ensures forall k :: 1 <= k < |Close| ==> Close[k] != Close[0]
  {
  }

  /** Text without an opening tag comes back unchanged. */
  lemma RemoveThinkingNoOpen(a: string)
    requires Free(a, Open)
    ensures RemoveThinking(a) == a
  {
    FindSpec(a, Open, 0);
  }

  /** The first span goes: what precedes its opening tag is kept, and the rest
      after its closing tag is processed in turn. The span `b` may contain
      further opening tags and newlines; it ends at the first closing tag. */
  lemma RemoveThinkingSpan(a: string, b: string, c: string)
    requires Free(a, Open)
    requires Free(b, Close)
    ensures RemoveThinking(a + Open + b + Close + c) == a + RemoveThinking(c)
  {
    var text := a + Open + b + Close + c;
    TagsDoNotOverlap();
    assert text == [] + a + Open + (b + Close + c);
    FindAfterFree([], a, Open, b + Close + c);
    assert text == (a + Open) + b + Close + c;
    FindAfterFree(a + Open, b, Close, c);
    assert text[..|a|] == a;
    assert text[|a| + |Open| + |b| + |Close|..] == c;
  }

  /** An opening tag with no closing tag after it leaves the text unchanged. */
  lemma RemoveThinkingUnclosed(a: string, b: string)
    requires Free(a, Open)
    requires Free(b, Close)
    ensures RemoveThinking(a + Open + b) == a + Open + b
  {
    var text := a + Open + b;
    TagsDoNotOverlap();
    assert text == [] + a + Open + b;
    FindAfterFree([], a, Open, b);
    var r := Find(text, Close, |a| + |Open|);
    FindSpec(text, Close, |a| + |Open|);
    if r.Some? {
      OccursInSuffix(a + Open, b, Close, r.value);
    }
  }

  /** The text comes back unchanged exactly when it holds no span; otherwise
      at least the two tags are gone. */
  lemma RemoveThinkingUnchangedIff(text: string)
    ensures RemoveThinking(text) == text <==> !HasSpan(text)
    ensures HasSpan(text) ==> |RemoveThinking(text)| <= |text| - |Open| - |Close|
  {
    FindSpec(text, Open, 0);
    match Find(text, Open, 0)
    case None =>
    case Some(i0) =>
      FindSpec(text, Close, i0 + |Open|);
      match Find(text, Close, i0 + |Open|)
      case None =>
      case Some(j0) =>
        assert HasSpan(text);
  }

  /** A closed span in the middle goes, with its tags. */
  lemma RemoveThinkingExampleSimple()
    ensures RemoveThinking("A<think>B</think>C") == "AC"
  {
    assert "A" + Open + "B" + Close + "C" == "A<think>B</think>C";
    FreeOfMissingChar("A", Open, 0);
    FreeOfMissingChar("B", Close, 0);
    FreeOfMissingChar("C", Open, 0);
    RemoveThinkingNoOpen("C");
    RemoveThinkingSpan("A", "B", "C");
  }

  /** An empty span leaves nothing. */
  lemma RemoveThinkingExampleEmpty()
    ensures RemoveThinking("<think></think>") == ""
  {
    assert "" + Open + "" + Close + "" == "<think></think>";
    FreeOfMissingChar("", Open, 0);
    FreeOfMissingChar("", Close, 0);
    RemoveThinkingNoOpen("");
    RemoveThinkingSpan("", "", "");
  }

  /** A span across lines goes too. */
  lemma RemoveThinkingExampleMultiline()
    ensures RemoveThinking("A<think>x\ny</think>B") == "AB"
  {
    assert "A" + Open + "x\ny" + Close + "B" == "A<think>x\ny</think>B";
    FreeOfMissingChar("A", Open, 0);
    FreeOfMissingChar("x\ny", Close, 0);
    FreeOfMissingChar("B", Open, 0);
    RemoveThinkingNoOpen("B");
    RemoveThinkingSpan("A", "x\ny", "B");
  }

  /** Unmatched tags are kept. */
  lemma RemoveThinkingExampleUnmatched()
    ensures RemoveThinking("A<think>B") == "A<think>B"
    ensures RemoveThinking("</think>") == "</think>"
  {
    FreeOfMissingChar("A", Open, 0);
    FreeOfMissingChar("B", Close, 0);
    RemoveThinkingUnclosed("A", "B");
    assert "A" + Open + "B" == "A<think>B";
    NoOpenInClosingTag("");
    assert "" + Close == "</think>";
    RemoveThinkingNoOpen("</think>");
  }

  /** A closing tag, with text before it lacking the tag's first character, holds no opening tag. */
  lemma NoOpenInClosingTag(pre: string)
    requires forall j :: 0 <= j < |pre| ==> pre[j] != '<'
    ensures Free(pre + Close, Open)
  {
    var s := pre + Close;
    forall i: nat | OccursAt(s, Open, i)
      ensures false
    {
      OccursAtChars(s, Open, i, 0);
      if i == |pre| {
        OccursAtChars(s, Open, i, 1);
      }
    }
  }

  /** Tags do not nest: the inner opening tag is swallowed by the outer span,
      and the outer closing tag is left behind. */
  lemma RemoveThinkingExampleNested()
    ensures RemoveThinking("<think>a<think>b</think>c</think>") == "c</think>"
  {
    assert "c" + Close == "c</think>";
    assert "" + Open + "a<think>b" + Close + "c</think>" == "<think>a<think>b</think>c</think>";
    FreeOfMissingChar("", Open, 0);
    FreeOfMissingChar("a<think>b", Close, 1);
    NoOpenInClosingTag("c");
    RemoveThinkingNoOpen("c</think>");
    RemoveThinkingSpan("", "a<think>b", "c</think>");
  }

  /** The server's generation call: the stripped `"response"` field when the
      request succeeds, otherwise `"Error: "` and the exception's text. It
      never raises. */
  function Generate(reply: Result<string, string>): (r: string)
    ensures reply.Err? ==> r == "Error: " + reply.error
    ensures reply.Ok? ==> r == RemoveThinking(reply.value)
    ensures reply.Ok? ==> |r| <= |reply.value|
    ensures reply.Ok? ==> (r == reply.value <==> !HasSpan(reply.value))
  {
    match reply
    case Ok(raw) =>
      RemoveThinkingUnchangedIff(raw);
      RemoveThinking(raw)
    case Err(message) => "Error: " + message
  }

  /** The server differs from the console client only in stripping a
      successful response. */
  lemma GenerateStripsConsoleAnswer(reply: Result<string, string>)
    ensures Generate(reply) ==
      if reply.Ok? then RemoveThinking(QaConsole.Generate(reply)) else QaConsole.Generate(reply)
  {
  }

  /** The reply of the chat endpoint: an HTTP status and the `"response"` field. */
  datatype Reply = Reply(status: nat, response: string)

  const ErrorPrefix: string := "Sorry, an error occurred: "

  /** The question of a request: its `"message"` field, or the empty string. */
  function Query(data: map<string, string>): (q: string)
    ensures "message" in data ==> q == data["message"]
    ensures "message" !in data ==> q == ""
  {
    if "message" in data then data["message"] else ""
  }

  /** The chat endpoint. `body` is the parsed JSON request, or the text of the
      exception raised while reading it; `search` is the vector store's
      similarity search, which may raise; `render` fills the prompt template;
      `complete` is the outcome of posting a prompt to the model server. Every
      failure before generation becomes a 500 reply, and generation itself
      never fails. */
  function Chat(body: Result<map<string, string>, string>,
                search: (string, nat) -> Result<seq<Document>, string>,
                render: (string, string) -> string,
                complete: string -> Result<string, string>): (r: Reply)
    ensures r.status == 200 || r.status == 500
    ensures r.status == 500 <==> body.Err? || search(Query(body.value), DefaultK).Err?
    ensures body.Err? ==> r.response == ErrorPrefix + body.error
    ensures body.Ok? && search(Query(body.value), DefaultK).Err? ==>
      r.response == ErrorPrefix + search(Query(body.value), DefaultK).error
    ensures r.status == 200 ==>
      var query := Query(body.value);
      var docs := search(query, DefaultK).value;
      r.response == Generate(complete(render(FormatDocs(docs), query)))
  {
    match body
    case Err(e) => Reply(500, ErrorPrefix + e)
    case Ok(data) =>
      var query := Query(data);
      match GetRelevantDocuments(query, search)
      case Err(e) => Reply(500, ErrorPrefix + e)
      case Ok(docs) =>
        var context := FormatDocs(docs);
        Reply(200, Generate(complete(render(context, query))))
  }

  /** A request without a `"message"` field is answered as the empty question. */
  lemma ChatMissingMessage(data: map<string, string>,
                           search: (string, nat) -> Result<seq<Document>, string>,
                           render: (string, string) -> string,
                           complete: string -> Result<string, string>)
    requires "message" !in data
    ensures Chat(Ok(data), search, render, complete) ==
            Chat(Ok(map["message" := ""]), search, render, complete)
  {
    assert Query(data) == Query(map["message" := ""]);
  }

  /** When the store finds nothing, the model is still asked, with an empty context. */
  lemma ChatEmptyContext(data: map<string, string>,
                         search: (string, nat) -> Result<seq<Document>, string>,
                         render: (string, string) -> string,
                         complete: string -> Result<string, string>)
    requires search(Query(data), DefaultK) == Ok([])
    ensures Chat(Ok(data), search, render, complete) ==
            Reply(200, Generate(complete(render("", Query(data)))))
  {
  }
}
