/** Documents as the retrieval path sees them, and the two steps shared by the
    chat server and the console: similarity search and context assembly. */
module Documents {
  import opened Common

  /** A langchain document: its text and its string-valued metadata. */
  datatype Document = Document(pageContent: string, metadata: map<string, string>)

  /** Separator placed between the texts of retrieved documents. */
  const Separator: string := "\n\n"

  /** Number of documents retrieved when the caller does not say. */
  const DefaultK: nat := 3

  /** The texts of `docs`, in order. */
  function Contents(docs: seq<Document>): (r: seq<string>)
    ensures |r| == |docs|
    ensures forall i :: 0 <= i < |docs| ==> r[i] == docs[i].pageContent
  {
    seq(|docs|, i requires 0 <= i < |docs| => docs[i].pageContent)
  }

  /** The context handed to the prompt: the documents' texts joined by a blank line. */
  function FormatDocs(docs: seq<Document>): (r: string)
    ensures docs == [] ==> r == ""
    ensures |docs| == 1 ==> r == docs[0].pageContent
    ensures docs != [] ==>
      |r| == TotalLength(Contents(docs)) + |Separator| * (|docs| - 1)
  {
    JoinLength(Contents(docs), Separator);
    Join(Contents(docs), Separator)
  }

  /** Formatting keeps the retrieval order: the context of `a + b` is the
      context of `a`, a blank line, then the context of `b`. */
  lemma FormatDocsAppend(a: seq<Document>, b: seq<Document>)
    requires a != [] && b != []
    ensures FormatDocs(a + b) == FormatDocs(a) + Separator + FormatDocs(b)
  {
    assert Contents(a + b) == Contents(a) + Contents(b);
    JoinAppend(Contents(a), Contents(b), Separator);
  }

  /** The text of the `i`-th document stands at its offset in the context and,
      unless it is the last, is followed by a blank line. */
  lemma FormatDocsAt(docs: seq<Document>, i: nat)
    requires i < |docs|
    ensures var o := Offset(Contents(docs), Separator, i);
      var n := |docs[i].pageContent|;
      o + n <= |FormatDocs(docs)| &&
      FormatDocs(docs)[o..o + n] == docs[i].pageContent &&
      (i + 1 < |docs| ==> o + n + 2 <= |FormatDocs(docs)| && FormatDocs(docs)[o + n..o + n + 2] == Separator)
  {
    JoinAt(Contents(docs), Separator, i);
  }

  /** The vector store's similarity search, passed through unchanged; `k` is
      `DefaultK` unless the caller gives another. */
  function GetRelevantDocuments<T>(query: string, search: (string, nat) -> T, k: nat := DefaultK): (r: T)
    ensures r == search(query, k)
  {
    search(query, k)
  }
}
