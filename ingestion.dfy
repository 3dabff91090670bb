/** One ingestion run: read the ledger once, then for each loaded document
    decide whether to skip it, record its digest, and chunk it; finally add
    all chunks to the vector store in one call. */
module Ingestion {
  import opened Common
  import opened Documents
  import opened HashLedger

  /** The source of a document that has none. */
  const Unknown: string := "unknown"

  /** The metadata key holding a document's source path. */
  const SourceKey: string := "source"

  /** The run's collaborators, as deterministic functions: whether a path
      exists on disk, the digest of the file at a path, and the text
      splitter applied to one document. */
  datatype Env = Env(onDisk: string -> bool, fileHash: string -> string, split: Document -> seq<Document>)

  /** `doc.metadata.get("source", "unknown")`. */
  function SourceOf(doc: Document): (s: string)
    ensures SourceKey in doc.metadata ==> s == doc.metadata[SourceKey]
    ensures SourceKey !in doc.metadata ==> s == Unknown
  {
    if SourceKey in doc.metadata then doc.metadata[SourceKey] else Unknown
  }

  /** Deduplication applies to a document whose source is known and exists on disk. */
  predicate Tracked(doc: Document, env: Env)
  {
    SourceOf(doc) != Unknown && env.onDisk(SourceOf(doc))
  }

  /** What the run does with one document. */
  datatype Decision =
    | Skip                // digest already in the snapshot: nothing is done
    | Record(hash: string) // new digest: saved to the ledger, then chunked
    | Pass                // not tracked: chunked without hashing

  function Decide(doc: Document, snapshot: set<string>, env: Env): (d: Decision)
    ensures d.Pass? <==> !Tracked(doc, env)
    ensures d.Record? ==> d.hash == env.fileHash(SourceOf(doc)) && d.hash !in snapshot
    ensures d.Skip? ==> env.fileHash(SourceOf(doc)) in snapshot
  {
    if !Tracked(doc, env) then Pass
    else if env.fileHash(SourceOf(doc)) in snapshot then Skip
    else Record(env.fileHash(SourceOf(doc)))
  }

  /** A document is skipped exactly when it is tracked and its digest is in
      the snapshot, recorded with its digest exactly when it is tracked and
      the digest is new, and passed through exactly when it is not tracked. */
  lemma DecideSpec(doc: Document, snapshot: set<string>, env: Env)
    ensures var d := Decide(doc, snapshot, env);
      (d.Skip? <==> Tracked(doc, env) && env.fileHash(SourceOf(doc)) in snapshot) &&
      (d.Record? <==> Tracked(doc, env) && env.fileHash(SourceOf(doc)) !in snapshot) &&
      (d.Pass? <==> !Tracked(doc, env)) &&
      (d.Record? ==> d.hash == env.fileHash(SourceOf(doc)))
  {
  }

  /** The chunks with their source written into their metadata, unless the
      source is unknown. */
  function Stamp(chunks: seq<Document>, source: string): (r: seq<Document>)
    ensures |r| == |chunks|
    ensures source == Unknown ==> r == chunks
  {
    if source == Unknown then chunks
    else seq(|chunks|, i requires 0 <= i < |chunks| => StampOne(chunks[i], source))
  }

  function StampOne(chunk: Document, source: string): Document
  {
    chunk.(metadata := chunk.metadata[SourceKey := source])
  }

  /** Stamping keeps the number and the text of the chunks, and changes only
      the `source` entry of their metadata; an unknown source is not written. */
  lemma StampSpec(chunks: seq<Document>, source: string)
    ensures |Stamp(chunks, source)| == |chunks|
    ensures forall i :: 0 <= i < |chunks| ==> Stamp(chunks, source)[i].pageContent == chunks[i].pageContent
    ensures source != Unknown ==> forall i :: 0 <= i < |chunks| ==>
      Stamp(chunks, source)[i].metadata == chunks[i].metadata[SourceKey := source]
    ensures source == Unknown ==> Stamp(chunks, source) == chunks
  {
  }

  /** The chunks one document contributes when it is not skipped. */
  function DocChunks(doc: Document, env: Env): seq<Document>
  {
    Stamp(env.split(doc), SourceOf(doc))
  }

  /** The digest one document appends to the ledger: its own when it is recorded. */
  function RecordOf(doc: Document, snapshot: set<string>, env: Env): seq<string>
  {
    match Decide(doc, snapshot, env)
    case Record(h) => [h]
    case _ => []
  }

  /** The chunks one document hands to the store: none when it is skipped. */
  function ChunksOf(doc: Document, snapshot: set<string>, env: Env): seq<Document>
  {
    if Decide(doc, snapshot, env).Skip? then [] else DocChunks(doc, env)
  }

  /** The digests a run over `docs` appends to the ledger, in order. */
  function Recorded(docs: seq<Document>, snapshot: set<string>, env: Env): seq<string>
  {
    FlatMap(docs, doc => RecordOf(doc, snapshot, env))
  }

  /** The chunks a run over `docs` hands to the store, in document order. */
  function NewChunks(docs: seq<Document>, snapshot: set<string>, env: Env): seq<Document>
  {
    FlatMap(docs, doc => ChunksOf(doc, snapshot, env))
  }

  /** The vector store, as the sequence of batches handed to `add_documents`. */
  class VectorStore {
    var batches: seq<seq<Document>>

    constructor (batches: seq<seq<Document>>)
      ensures this.batches == batches
    {
      this.batches := batches;
    }

    /** `add_documents(chunks)`: one more batch. */
    method AddDocuments(chunks: seq<Document>)
      modifies this
      ensures batches == old(batches) + [chunks]
    {
      batches := batches + [chunks];
    }
  }

  /** The body of the loop in `ingest()` for one document, against the
      snapshot `existing`: skip it, or record its digest if it is new, then
      split it and stamp its chunks with its source. */
  method IngestDocument(ledger: LedgerFile, doc: Document, existing: set<string>, env: Env)
    returns (chunks: seq<Document>)
    modifies ledger
    ensures ledger.file == AfterSaves(old(ledger.file), RecordOf(doc, existing, env))
    ensures chunks == ChunksOf(doc, existing, env)
  {
    var source := SourceOf(doc);
    if source != Unknown && env.onDisk(source) {
      var hash := env.fileHash(source);
      if hash in existing {
        return [];
      }
      ledger.SaveHash(hash);
    }
    chunks := env.split(doc);
    ghost var split := chunks;
    StampSpec(split, source);
    var k := 0;
    while k < |chunks|
      invariant 0 <= k <= |chunks| == |split|
      invariant forall j :: 0 <= j < k ==> chunks[j] == Stamp(split, source)[j]
      invariant forall j :: k <= j < |chunks| ==> chunks[j] == split[j]
    {
      if source != Unknown {
        chunks := chunks[k := chunks[k].(metadata := chunks[k].metadata[SourceKey := source])];
      }
      k := k + 1;
    }
  }

  /** The loop of `ingest()` over the loaded documents, against the snapshot
      `existing`: the ledger gains the digests the run records, and the
      chunks it produces are returned. */
  method IngestDocuments(ledger: LedgerFile, docs: seq<Document>, existing: set<string>, env: Env)
    returns (newChunks: seq<Document>)
    modifies ledger
    ensures ledger.file == AfterSaves(old(ledger.file), Recorded(docs, existing, env))
    ensures newChunks == NewChunks(docs, existing, env)
  {
    newChunks := [];
    var i := 0;
    while i < |docs|
      invariant 0 <= i <= |docs|
      invariant ledger.file == AfterSaves(old(ledger.file), Recorded(docs[..i], existing, env))
      invariant newChunks == NewChunks(docs[..i], existing, env)
    {
      DropLastOfPrefix(docs, i);
      RecordedStep(docs[..i + 1], existing, env);
      NewChunksStep(docs[..i + 1], existing, env);
      AfterSavesConcat(old(ledger.file), Recorded(docs[..i], existing, env), RecordOf(docs[i], existing, env));
      var chunks := IngestDocument(ledger, docs[i], existing, env);
      newChunks := newChunks + chunks;
      i := i + 1;
    }
    assert docs[..|docs|] == docs;
  }

  /** `ingest()`. `loaded` is the outcome of loading the documents;
      `addFailure` is the exception `add_documents` raises, if it does. The
      ledger is read once, before loading. A failure to load changes nothing;
      a failed add leaves the new digests recorded and nothing stored. */
  method Ingest(ledger: LedgerFile, store: VectorStore, loaded: Result<seq<Document>, string>,
                env: Env, addFailure: Option<string>)
    returns (outcome: Result<nat, string>)
    modifies ledger, store
    ensures loaded.Err? ==>
      outcome == Err(loaded.error) && ledger.file == old(ledger.file) && store.batches == old(store.batches)
    ensures loaded.Ok? ==>
      ledger.file == AfterSaves(old(ledger.file), Recorded(loaded.value, Hashes(old(ledger.file)), env))
    ensures loaded.Ok? && addFailure.None? ==>
      var chunks := NewChunks(loaded.value, Hashes(old(ledger.file)), env);
      store.batches == old(store.batches) + [chunks] && outcome == Ok(|chunks|)
    ensures loaded.Ok? && addFailure.Some? ==>
      store.batches == old(store.batches) && outcome == Err(addFailure.value)
  {
    var existing := ledger.GetExistingHashes();
    if loaded.Err? {
      return Err(loaded.error);
    }
    var newChunks := IngestDocuments(ledger, loaded.value, existing, env);
    if addFailure.Some? {
      return Err(addFailure.value);
    }
    store.AddDocuments(newChunks);
    outcome := Ok(|newChunks|);
  }

  /** A run over `docs` records last what its last document records. */
  lemma RecordedStep(docs: seq<Document>, snapshot: set<string>, env: Env)
    requires docs != []
    ensures Recorded(docs, snapshot, env) ==
      Recorded(docs[..|docs| - 1], snapshot, env) + RecordOf(docs[|docs| - 1], snapshot, env)
  {
  }

  /** A run over `docs` ends with the chunks of its last document. */
  lemma NewChunksStep(docs: seq<Document>, snapshot: set<string>, env: Env)
    requires docs != []
    ensures NewChunks(docs, snapshot, env) ==
      NewChunks(docs[..|docs| - 1], snapshot, env) + ChunksOf(docs[|docs| - 1], snapshot, env)
  {
  }

  /** A run records at most one digest per document. */
  lemma {:induction false} RecordedLength(docs: seq<Document>, snapshot: set<string>, env: Env)
    ensures |Recorded(docs, snapshot, env)| <= |docs|
  {
    if docs != [] {
      RecordedLength(docs[..|docs| - 1], snapshot, env);
      RecordedStep(docs, snapshot, env);
    }
  }

  /** Runs compose: ingesting `a + b` against one snapshot records what `a`
      records, then what `b` records. */
  lemma RecordedAppend(a: seq<Document>, b: seq<Document>, snapshot: set<string>, env: Env)
    ensures Recorded(a + b, snapshot, env) == Recorded(a, snapshot, env) + Recorded(b, snapshot, env)
  {
    FlatMapAppend(a, b, doc => RecordOf(doc, snapshot, env));
  }

  /** Runs compose: ingesting `a + b` against one snapshot hands over the
      chunks of `a`, then those of `b`. */
  lemma NewChunksAppend(a: seq<Document>, b: seq<Document>, snapshot: set<string>, env: Env)
    ensures NewChunks(a + b, snapshot, env) == NewChunks(a, snapshot, env) + NewChunks(b, snapshot, env)
  {
    FlatMapAppend(a, b, doc => ChunksOf(doc, snapshot, env));
  }

  /** One document, by its decision: a skipped one contributes nothing and
      leaves the ledger alone; a new digest is recorded and the document
      chunked; an untracked document is chunked without hashing. */
  lemma IngestOne(doc: Document, snapshot: set<string>, env: Env)
    ensures Decide(doc, snapshot, env).Skip? ==>
      Recorded([doc], snapshot, env) == [] && NewChunks([doc], snapshot, env) == []
    ensures Decide(doc, snapshot, env).Record? ==>
      Recorded([doc], snapshot, env) == [env.fileHash(SourceOf(doc))] &&
      NewChunks([doc], snapshot, env) == DocChunks(doc, env)
    ensures Decide(doc, snapshot, env).Pass? ==>
      Recorded([doc], snapshot, env) == [] && NewChunks([doc], snapshot, env) == DocChunks(doc, env)
  {
    DecideSpec(doc, snapshot, env);
    assert [doc][..0] == [];
    RecordedStep([doc], snapshot, env);
    NewChunksStep([doc], snapshot, env);
  }

  /** The snapshot is not refreshed during a run: two documents whose
      digests are both new are both recorded and both chunked, even when the
      digests are equal. */
  lemma SnapshotNotRefreshed(d1: Document, d2: Document, snapshot: set<string>, env: Env)
    requires Decide(d1, snapshot, env).Record? && Decide(d2, snapshot, env).Record?
    ensures Recorded([d1, d2], snapshot, env) ==
      [env.fileHash(SourceOf(d1)), env.fileHash(SourceOf(d2))]
    ensures NewChunks([d1, d2], snapshot, env) == DocChunks(d1, env) + DocChunks(d2, env)
  {
    IngestOne(d1, snapshot, env);
    IngestOne(d2, snapshot, env);
    RecordedAppend([d1], [d2], snapshot, env);
    NewChunksAppend([d1], [d2], snapshot, env);
    assert [d1] + [d2] == [d1, d2];
  }

  /** Documents sharing a new source, such as the pages of one PDF, each
      record the file's digest again and are each chunked. */
  lemma SharedSourceRecordedTwice(d1: Document, d2: Document, snapshot: set<string>, env: Env)
    requires Decide(d1, snapshot, env).Record?
    requires SourceOf(d2) == SourceOf(d1)
    ensures var h := env.fileHash(SourceOf(d1));
      Recorded([d1, d2], snapshot, env) == [h, h]
    ensures NewChunks([d1, d2], snapshot, env) == DocChunks(d1, env) + DocChunks(d2, env)
  {
    DecideSpec(d1, snapshot, env);
    DecideSpec(d2, snapshot, env);
    SnapshotNotRefreshed(d1, d2, snapshot, env);
  }

  /** After a run, the digest of every tracked document is either in the
      snapshot or among those the run recorded. */
  lemma {:induction false} TrackedDigestsAccounted(docs: seq<Document>, snapshot: set<string>, env: Env, i: nat)
    requires i < |docs| && Tracked(docs[i], env)
    ensures var h := env.fileHash(SourceOf(docs[i]));
      h in snapshot || h in Recorded(docs, snapshot, env)
  {
    var init := docs[..|docs| - 1];
    var last := docs[|docs| - 1];
    assert Recorded(docs, snapshot, env) == Recorded(init, snapshot, env) + RecordOf(last, snapshot, env);
    if i < |docs| - 1 {
      assert init[i] == docs[i];
      TrackedDigestsAccounted(init, snapshot, env, i);
    } else {
      var h := env.fileHash(SourceOf(last));
      DecideSpec(last, snapshot, env);
      if h !in snapshot {
        assert RecordOf(last, snapshot, env) == [h];
      }
    }
  }

  /** A run in which every document is skipped adds nothing and records nothing. */
  lemma {:induction false} AllSkipped(docs: seq<Document>, snapshot: set<string>, env: Env)
    requires forall i :: 0 <= i < |docs| ==> Decide(docs[i], snapshot, env).Skip?
    ensures Recorded(docs, snapshot, env) == [] && NewChunks(docs, snapshot, env) == []
  {
    if docs != [] {
      var init := docs[..|docs| - 1];
      assert forall i :: 0 <= i < |init| ==> init[i] == docs[i];
      AllSkipped(init, snapshot, env);
    }
  }

  /** Every digest a run records is one the hashing function returned. */
  lemma {:induction false} RecordedAreDigests(docs: seq<Document>, snapshot: set<string>, env: Env)
    requires forall p :: IsDigest(env.fileHash(p))
    ensures forall k :: 0 <= k < |Recorded(docs, snapshot, env)| ==> IsDigest(Recorded(docs, snapshot, env)[k])
  {
    if docs != [] {
      RecordedStep(docs, snapshot, env);
      RecordedAreDigests(docs[..|docs| - 1], snapshot, env);
    }
  }

  /** Against a snapshot that holds the earlier snapshot and every digest a
      run recorded, the same tracked documents are all skipped. */
  lemma AccountedAreSkipped(docs: seq<Document>, snapshot: set<string>, again: set<string>, env: Env)
    requires forall i :: 0 <= i < |docs| ==> Tracked(docs[i], env)
    requires snapshot + Elements(Recorded(docs, snapshot, env)) <= again
    ensures Recorded(docs, again, env) == [] && NewChunks(docs, again, env) == []
  {
    var first := Recorded(docs, snapshot, env);
    forall i | 0 <= i < |docs|
      ensures Decide(docs[i], again, env).Skip?
    {
      TrackedDigestsAccounted(docs, snapshot, env, i);
      DecideSpec(docs[i], again, env);
      var h := env.fileHash(SourceOf(docs[i]));
      if h !in snapshot {
        ElementsMembers(first);
        var k :| 0 <= k < |first| && first[k] == h;
      }
    }
    AllSkipped(docs, again, env);
  }

  /** Running again over the same tracked files, against the ledger the first
      run left behind, adds no chunk and records no digest, whether or not
      the first run's chunks reached the store. */
  lemma RerunAddsNothing(file: Option<string>, docs: seq<Document>, env: Env)
    requires Terminated(Content(file))
    requires forall p :: IsDigest(env.fileHash(p))
    requires forall i :: 0 <= i < |docs| ==> Tracked(docs[i], env)
    ensures var again := Hashes(AfterSaves(file, Recorded(docs, Hashes(file), env)));
      NewChunks(docs, again, env) == [] && Recorded(docs, again, env) == []
  {
    var snapshot := Hashes(file);
    var first := Recorded(docs, snapshot, env);
    RecordedAreDigests(docs, snapshot, env);
    HashesAfterSaves(file, first);
    AccountedAreSkipped(docs, snapshot, Hashes(AfterSaves(file, first)), env);
  }
}
