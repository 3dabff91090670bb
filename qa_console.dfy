/** The console question-and-answer client: its generation call, its exit
    test, and its read-answer loop. */
module QaConsole {
  import opened Common
  import opened Documents

  /** The console's generation call: the raw `"response"` field when the
      request succeeds, unstripped, otherwise `"Error: "` and the exception's
      text. It never raises. */
  function Generate(reply: Result<string, string>): (r: string)
    ensures reply.Ok? ==> r == reply.value
    ensures reply.Err? ==> r == "Error: " + reply.error
  {
    match reply
    case Ok(raw) => raw
    case Err(message) => "Error: " + message
  }

  /** `c` lowered when it is an ASCII capital letter. */
  function LowerChar(c: char): (r: char)
    ensures 'A' <= c <= 'Z' ==> r as int == c as int + 32
    ensures !('A' <= c <= 'Z') ==> r == c
  {
    if 'A' <= c <= 'Z' then (c as int + 32) as char else c
  }

  /** `s` with every ASCII capital lowered. */
  function Lower(s: string): (r: string)
    ensures |r| == |s|
    ensures forall i :: 0 <= i < |s| ==> r[i] == LowerChar(s[i])
  {
    seq(|s|, i requires 0 <= i < |s| => LowerChar(s[i]))
  }

  const ExitWord: string := "exit"

  /** The loop ends when the line, lowered, is `exit`. */
  predicate IsExit(query: string)
    ensures IsExit(query) ==> |query| == 4
  {
    Lower(query) == ExitWord
  }

  /** The exit test ignores case and nothing else: no trimming. */
  lemma IsExitIff(query: string)
    ensures IsExit(query) <==>
      |query| == 4 &&
      (query[0] == 'e' || query[0] == 'E') &&
      (query[1] == 'x' || query[1] == 'X') &&
      (query[2] == 'i' || query[2] == 'I') &&
      (query[3] == 't' || query[3] == 'T')
  {
    if |query| == 4 {
      var l := Lower(query);
      assert l[0] == LowerChar(query[0]) && l[1] == LowerChar(query[1]);
      assert l[2] == LowerChar(query[2]) && l[3] == LowerChar(query[3]);
      if l == ExitWord {
        assert l[0] == 'e' && l[1] == 'x' && l[2] == 'i' && l[3] == 't';
      }
    }
  }

  /** Worked cases of the exit test. */
  lemma IsExitExamples()
    ensures IsExit("exit") && IsExit("EXIT") && IsExit("eXiT")
    ensures !IsExit(" exit") && !IsExit("exit ") && !IsExit("") && !IsExit("quit")
  {
    IsExitIff("exit");
    IsExitIff("EXIT");
    IsExitIff("eXiT");
    IsExitIff(" exit");
    IsExitIff("exit ");
    IsExitIff("");
    IsExitIff("quit");
  }

  /** One answered question: retrieve, format, fill the template, generate.
      A failing search is not caught and ends the session. */
  function Answer(query: string,
                  search: (string, nat) -> Result<seq<Document>, string>,
                  render: (string, string) -> string,
                  complete: string -> Result<string, string>): (r: Result<string, string>)
    ensures r.Err? <==> search(query, DefaultK).Err?
    ensures r.Err? ==> r.error == search(query, DefaultK).error
    ensures r.Ok? ==>
      r.value == Generate(complete(render(FormatDocs(search(query, DefaultK).value), query)))
  {
    match GetRelevantDocuments(query, search)
    case Err(e) => Err(e)
    case Ok(docs) =>
      var context := FormatDocs(docs);
      Ok(Generate(complete(render(context, query))))
  }

  /** How a session ends: the exit word, the end of input (`input` raises),
      or an uncaught exception from the search. */
  datatype SessionEnd = Quit | InputExhausted | Crashed(detail: string)

  /** The answers printed for `inputs`, and how the session ends. */
  function Session(inputs: seq<string>,
                   search: (string, nat) -> Result<seq<Document>, string>,
                   render: (string, string) -> string,
                   complete: string -> Result<string, string>): (r: (seq<string>, SessionEnd))
    ensures |r.0| <= |inputs|
  {
    if inputs == [] then ([], InputExhausted)
    else if IsExit(inputs[0]) then ([], Quit)
    else match Answer(inputs[0], search, render, complete)
      case Err(e) => ([], Crashed(e))
      case Ok(a) =>
        var rest := Session(inputs[1..], search, render, complete);
        ([a] + rest.0, rest.1)
  }

  /** The interactive loop, reading `inputs` one line at a time. */
  method RunSession(inputs: seq<string>,
                    search: (string, nat) -> Result<seq<Document>, string>,
                    render: (string, string) -> string,
                    complete: string -> Result<string, string>)
    returns (answers: seq<string>, end: SessionEnd)
    ensures (answers, end) == Session(inputs, search, render, complete)
  {
    answers := [];
    var i := 0;
    assert inputs[0..] == inputs;
    while true
      invariant 0 <= i <= |inputs|
      invariant Session(inputs, search, render, complete).0 ==
        answers + Session(inputs[i..], search, render, complete).0
      invariant Session(inputs, search, render, complete).1 ==
        Session(inputs[i..], search, render, complete).1
      decreases |inputs| - i
    {
      if i == |inputs| {
        end := InputExhausted;
        assert answers + [] == answers;
        return;
      }
      var query := inputs[i];
      assert inputs[i..][0] == query;
      if IsExit(query) {
        end := Quit;
        assert answers + [] == answers;
        return;
      }
      var docs := GetRelevantDocuments(query, search);
      if docs.Err? {
        end := Crashed(docs.error);
        assert answers + [] == answers;
        return;
      }
      var context := FormatDocs(docs.value);
      var response := Generate(complete(render(context, query)));
      assert inputs[i..][1..] == inputs[i + 1..];
      answers := answers + [response];
      i := i + 1;
    }
  }

  /** Lines after the exit word are never read. */
  lemma {:induction false} SessionIgnoresAfterExit(
    pre: seq<string>, exit: string, post: seq<string>,
    search: (string, nat) -> Result<seq<Document>, string>,
    render: (string, string) -> string,
    complete: string -> Result<string, string>)
    requires IsExit(exit)
    ensures Session(pre + [exit] + post, search, render, complete) ==
            Session(pre + [exit], search, render, complete)
  {
    if pre != [] {
      assert (pre + [exit] + post)[1..] == pre[1..] + [exit] + post;
      assert (pre + [exit])[1..] == pre[1..] + [exit];
      SessionIgnoresAfterExit(pre[1..], exit, post, search, render, complete);
    }
  }

  /** Every line before the first exit word, the empty line included, is
      answered in order, one answer per line, when no search fails. */
  lemma {:induction false} SessionAnswersEachLine(
    inputs: seq<string>, n: nat,
    search: (string, nat) -> Result<seq<Document>, string>,
    render: (string, string) -> string,
    complete: string -> Result<string, string>)
    requires n <= |inputs|
    requires forall i :: 0 <= i < n ==> !IsExit(inputs[i])
    requires forall i :: 0 <= i < n ==> search(inputs[i], DefaultK).Ok?
    ensures n <= |Session(inputs, search, render, complete).0|
    ensures forall i :: 0 <= i < n ==>
      Session(inputs, search, render, complete).0[i] == Answer(inputs[i], search, render, complete).value
    ensures n < |inputs| && IsExit(inputs[n]) ==>
      Session(inputs, search, render, complete) == (Session(inputs, search, render, complete).0, Quit) &&
      |Session(inputs, search, render, complete).0| == n
    ensures n == |inputs| ==>
      Session(inputs, search, render, complete).1 == InputExhausted &&
      |Session(inputs, search, render, complete).0| == n
  {
    if n > 0 {
      SessionAnswersEachLine(inputs[1..], n - 1, search, render, complete);
    }
  }
}
