/** Document loading: three sources concatenated in a fixed order. The
    directory scans and the SQL loader are external; each is given here as
    the outcome of its `load()` call. */
module Loaders {
  import opened Common
  import opened Documents

  /** The query used for the relational source unless the caller gives another. */
  const DefaultSqlQuery: string := "SELECT id, title, content FROM documents"

  /** The relational source: nothing, without connecting, when no database URL
      is configured; otherwise the rows `sqlLoad` returns for the URL and the query. */
  function LoadSqlDocuments(databaseUrl: Option<string>,
                            sqlLoad: (string, string) -> Result<seq<Document>, string>,
                            query: string := DefaultSqlQuery): (r: Result<seq<Document>, string>)
    ensures databaseUrl.None? ==> r == Ok([])
    ensures databaseUrl.Some? ==> r == sqlLoad(databaseUrl.value, query)
  {
    match databaseUrl
    case None => Ok([])
    case Some(url) => sqlLoad(url, query)
  }

  /** Without a database URL the SQL loader is never consulted: any two
      loaders give the same, empty, result. */
  lemma SqlUnconfiguredIgnoresLoader(sqlLoad1: (string, string) -> Result<seq<Document>, string>,
                                     sqlLoad2: (string, string) -> Result<seq<Document>, string>,
                                     query: string)
    ensures LoadSqlDocuments(None, sqlLoad1, query) == LoadSqlDocuments(None, sqlLoad2, query) == Ok([])
  {
  }

  /** The PDFs, then the text files, then the SQL rows. The loaders run in that
      order and the first one that raises ends the load with its error; no
      failure is caught. */
  function LoadAllDocuments(pdfs: Result<seq<Document>, string>,
                            texts: Result<seq<Document>, string>,
                            rows: Result<seq<Document>, string>): (r: Result<seq<Document>, string>)
    ensures r.Ok? <==> pdfs.Ok? && texts.Ok? && rows.Ok?
    ensures pdfs.Err? ==> r == pdfs
    ensures pdfs.Ok? && texts.Err? ==> r == texts
    ensures pdfs.Ok? && texts.Ok? && rows.Err? ==> r == rows
    ensures r.Ok? ==> |r.value| == |pdfs.value| + |texts.value| + |rows.value|
  {
    match pdfs
    case Err(e) => Err(e)
    case Ok(p) =>
      match texts
      case Err(e) => Err(e)
      case Ok(t) =>
        match rows
        case Err(e) => Err(e)
        case Ok(s) => Ok(p + t + s)
  }

  /** Each source's documents appear as one block, in source order. */
  lemma LoadAllDocumentsBlocks(p: seq<Document>, t: seq<Document>, s: seq<Document>)
    ensures var all := LoadAllDocuments(Ok(p), Ok(t), Ok(s)).value;
      all[..|p|] == p && all[|p|..|p| + |t|] == t && all[|p| + |t|..] == s
  {
    var all := LoadAllDocuments(Ok(p), Ok(t), Ok(s)).value;
    assert all == p + t + s;
    assert all[..|p|] == p;
    assert all[|p|..|p| + |t|] == t;
  }
}
