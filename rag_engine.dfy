/**
 * `ScienceRAG`: the engine object that owns the vector-store handle. Its
 * methods ingest papers, retrieve context, list the indexed titles and
 * reset the database. The on-disk directory is modelled as a boolean field
 * (`os.path.exists(persist_directory)`); the paper loader, the store write,
 * the MMR search, the store read and the directory removal are oracles
 * passed in as parameters, since they are library and disk calls.
 */
module RagEngine {
  import opened Options
  import opened TextUtil
  import opened RagSources

  const PersistDirectory := "./chroma_db"
  const CollectionName := "science_rag"

  /** A Chroma handle, identified by the directory and collection it was opened on. */
  datatype VectorStore = VectorStore(persistDirectory: string, collectionName: string)

  const OpenedStore := VectorStore(PersistDirectory, CollectionName)

  /** A paper document as the arXiv loader returns it. */
  datatype Paper = Paper(pageContent: string, metadata: Metadata)

  /** What `ArxivLoader(query, load_max_docs=max_results).load()` did. */
  datatype LoadOutcome = Loaded(docs: seq<Paper>) | LoadFailed(error: string)

  /**
   * What splitting, metadata filtering, `Chroma.from_documents` and
   * `persist()` did: all succeeded, an exception before the store handle was
   * assigned, or an exception from `persist()` after it was.
   */
  datatype WriteOutcome = Written | FailedBeforeStore(error: string) | FailedAfterStore(error: string)

  /** What the MMR retriever's `invoke(user_query)` did. */
  datatype SearchOutcome = Found(chunks: seq<Chunk>) | SearchFailed(error: string)

  /**
   * What `vector_store.get()` did: the value of its `metadatas` key (absent
   * or null reads as `None`; an entry is `None` when a chunk has no
   * metadata), or an exception.
   */
  datatype ReadOutcome = Read(metadatas: Option<seq<Option<Metadata>>>) | ReadFailed(error: string)

  /** What `shutil.rmtree(persist_directory)` did. */
  datatype RemoveOutcome = Removed | PermissionDenied | RemoveFailed(error: string)

  // ---------------------------------------------------------------------
  // ingest_papers: status strings
  // ---------------------------------------------------------------------

  const NoPapersStatus := "No se han encontrado papers para la b\U{00C3}\U{00BA}squeda."
  const ErrorPrefix := "Error al indexar"

  function SuccessStatus(count: nat, query: string): string
  {
    Decimal(count) + " paper(s) sobre '" + query + "' han sido indexados."
  }

  function ErrorStatus(error: string): string
  {
    ErrorPrefix + ": " + error
  }

  /** The status `ingest_papers` returns for a loader result and a write result. */
  function IngestStatus(query: string, load: LoadOutcome, write: WriteOutcome): string
  {
    match load
    case LoadFailed(e) => ErrorStatus(e)
    case Loaded(docs) =>
      if |docs| == 0 then NoPapersStatus
      else match write
        case Written => SuccessStatus(|docs|, query)
        case FailedBeforeStore(e) => ErrorStatus(e)
        case FailedAfterStore(e) => ErrorStatus(e)
  }

  /** Whether ingestion got as far as assigning a new store handle. */
  predicate StoreAssigned(load: LoadOutcome, write: WriteOutcome)
  {
    load.Loaded? && |load.docs| > 0 && !write.FailedBeforeStore?
  }

  /** Whether ingestion failed, whatever the status text says. */
  predicate IngestFailed(load: LoadOutcome, write: WriteOutcome)
  {
    load.LoadFailed? || (|load.docs| > 0 && !write.Written?)
  }

  /** With no documents loaded the status is the "No se han encontrado papers" message. */
  lemma NoPapersStatusCase(query: string, docs: seq<Paper>, write: WriteOutcome)
    requires |docs| == 0
    ensures IngestStatus(query, Loaded(docs), write) == NoPapersStatus
    ensures StartsWith(IngestStatus(query, Loaded(docs), write), "No se han encontrado papers")
  {
    assert NoPapersStatus == "No se han encontrado papers" + " para la b\U{00C3}\U{00BA}squeda.";
  }

  /** A successful ingestion reports how many documents were indexed and for which query. */
  lemma SuccessStatusCase(query: string, docs: seq<Paper>)
    requires |docs| > 0
    ensures var s := IngestStatus(query, Loaded(docs), Written);
      && StartsWith(s, Decimal(|docs|) + " paper(s) sobre '" + query + "' han sido indexados")
      && DecimalValue(s[..|Decimal(|docs|)|]) == |docs|
  {
    var d := Decimal(|docs|);
    var s := IngestStatus(query, Loaded(docs), Written);
    var p := d + " paper(s) sobre '" + query + "' han sido indexados";
    assert s == p + ".";
    assert s[..|p|] == p;
    assert s[..|d|] == d;
    DecimalRoundTrip(|docs|);
  }

  /** A failed ingestion's status starts with "Error al indexar". */
  lemma FailureStatusCase(query: string, load: LoadOutcome, write: WriteOutcome)
    requires IngestFailed(load, write)
    ensures StartsWith(IngestStatus(query, load, write), ErrorPrefix)
  {
    var s := IngestStatus(query, load, write);
    assert s[..|ErrorPrefix|] == ErrorPrefix;
  }

  /**
   * The caller's test `"Error" in status`: a success status quotes the
   * query, so a query that mentions "Error" makes a successful ingestion
   * read as a failure.
   */
  predicate CallerSeesError(status: string)
  {
    Contains(status, "Error")
  }

  lemma QueryNamingErrorReadsAsFailure(docs: seq<Paper>)
    requires |docs| > 0
    ensures !IngestFailed(Loaded(docs), Written)
    ensures CallerSeesError(IngestStatus("Error", Loaded(docs), Written))
  {
    assert StartsWith("Error", "Error");
    ContainsInside(Decimal(|docs|) + " paper(s) sobre '", "Error", "' han sido indexados.", "Error");
  }

  /** The corrected test: a status reports a failure exactly when it starts with "Error al indexar". */
  predicate StatusIsFailure(status: string)
  {
    StartsWith(status, ErrorPrefix)
  }

  lemma StatusIsFailureExact(query: string, load: LoadOutcome, write: WriteOutcome)
    ensures StatusIsFailure(IngestStatus(query, load, write)) <==> IngestFailed(load, write)
  {
    var s := IngestStatus(query, load, write);
    if IngestFailed(load, write) {
      FailureStatusCase(query, load, write);
    } else {
      if |load.docs| == 0 {
        NoPapersStatusCase(query, load.docs, write);
        assert s[0] == s[..27][0] == 'N';
      } else {
        var d := Decimal(|load.docs|);
        assert s[0] == d[0] && IsDigit(d[0]);
      }
    }
  }

  // ---------------------------------------------------------------------
  // get_context and list_indexed_papers as values
  // ---------------------------------------------------------------------

  /** The result `get_context` returns once the store is open, for what the search did. */
  function RetrievalFor(outcome: SearchOutcome): RetrievalResult
  {
    match outcome
    case SearchFailed(_) => EmptyResult
    case Found(chunks) => Shape(chunks)
  }

  /**
   * `get_context` answers with the empty result exactly when the store
   * cannot be used (no handle and no directory, or opening fails), the
   * search fails, or it finds nothing.
   */
  lemma RetrievalEmptyIff(outcome: SearchOutcome)
    ensures RetrievalFor(outcome) == EmptyResult <==>
      outcome.SearchFailed? || |outcome.chunks| == 0
    ensures outcome.Found? && |outcome.chunks| > 0 ==>
      RetrievalFor(outcome).coverage >= 20 && |RetrievalFor(outcome).sources| > 0
  {
    if outcome.Found? && |outcome.chunks| > 0 {
      SourcesCoverEveryChunk(outcome.chunks, 0);
    }
  }

  /** The titles `list_indexed_papers` returns for what `vector_store.get()` did. */
  function IndexedPapersFor(outcome: ReadOutcome): seq<string>
  {
    match outcome
    case ReadFailed(_) => []
    case Read(metadatas) =>
      if metadatas.None? || |metadatas.value| == 0 then []
      else if exists k :: 0 <= k < |metadatas.value| && metadatas.value[k].None? then []
      else SortedTitles(TitleSet(Present(metadatas.value)))
  }

  /** The metadata maps of a read in which every chunk has one. */
  function Present(metas: seq<Option<Metadata>>): (r: seq<Metadata>)
    requires forall k :: 0 <= k < |metas| ==> metas[k].Some?
    ensures |r| == |metas|
    ensures forall k :: 0 <= k < |metas| ==> r[k] == metas[k].value
  {
    seq(|metas|, k requires 0 <= k < |metas| => metas[k].value)
  }

  // ---------------------------------------------------------------------
  // The loops of get_context and list_indexed_papers
  // ---------------------------------------------------------------------

  /**
   * The state of the `sources` loop after the chunks `cs`: the insertion
   * order of the dict is the first-seen title order and each entry is the
   * reference entry for its title.
   */
  ghost predicate SourcesState(cs: seq<Chunk>, byTitle: map<string, Source>, order: seq<string>)
  {
    && order == Distinct(ChunkTitles(cs))
    && (forall t :: t in byTitle <==> t in order)
    && (forall t :: t in byTitle ==> byTitle[t] == SourceFor(cs, t))
  }

  /** One iteration of the `sources` loop keeps its state in step with the chunks seen. */
  lemma SourcesStep(cs: seq<Chunk>, c: Chunk, byTitle: map<string, Source>, order: seq<string>,
                    byTitle': map<string, Source>, order': seq<string>)
    requires SourcesState(cs, byTitle, order)
    requires var title := ChunkTitle(c);
      if title !in byTitle then
        byTitle' == byTitle[title := Source(title, ResolveUrl(c.metadata), 1)] && order' == order + [title]
      else
        byTitle' == byTitle[title := byTitle[title].(chunks := byTitle[title].chunks + 1)] && order' == order
    ensures SourcesState(cs + [c], byTitle', order')
  {
    ChunkTitlesStep(cs, c);
    DistinctStep(ChunkTitles(cs), ChunkTitle(c));
    DistinctMembership(ChunkTitles(cs));
    forall t | t in byTitle'
      ensures byTitle'[t] == SourceFor(cs + [c], t)
    {
      SourceForStep(cs, c, t);
    }
  }

  /**
   * The `sources` loop of `get_context`: a dict keyed by title, kept in
   * insertion order, whose entry is created at a title's first chunk and
   * whose count grows at every later one.
   */
  method BuildSources(chunks: seq<Chunk>) returns (sources: seq<Source>)
    ensures sources == Sources(chunks)
  {
    var byTitle: map<string, Source> := map[];
    var order: seq<string> := [];
    var i := 0;
    while i < |chunks|
      invariant 0 <= i <= |chunks|
      invariant SourcesState(chunks[..i], byTitle, order)
    {
      var chunk := chunks[i];
      var title := ResolveTitle(chunk.metadata, UnknownChunkTitle);
      var url := ResolveUrl(chunk.metadata);
      ghost var before, orderBefore := byTitle, order;
      if title !in byTitle {
        byTitle := byTitle[title := Source(title, url, 1)];
        order := order + [title];
      } else {
        byTitle := byTitle[title := byTitle[title].(chunks := byTitle[title].chunks + 1)];
      }
      SourcesStep(chunks[..i], chunk, before, orderBefore, byTitle, order);
      assert chunks[..i + 1] == chunks[..i] + [chunk];
      i := i + 1;
    }
    assert chunks[..i] == chunks;
    sources := seq(|order|, k requires 0 <= k < |order| => byTitle[order[k]]);
  }

  /**
   * The title loop of `list_indexed_papers`: one resolved title per
   * metadata entry added to a set; a chunk without metadata raises, which
   * the method turns into `None`.
   */
  method CollectTitles(metas: seq<Option<Metadata>>) returns (titles: Option<set<string>>)
    ensures titles.None? <==> exists k :: 0 <= k < |metas| && metas[k].None?
    ensures titles.Some? ==> titles.value == TitleSet(Present(metas))
  {
    var found: set<string> := {};
    var i := 0;
    while i < |metas|
      invariant 0 <= i <= |metas|
      invariant forall k :: 0 <= k < i ==> metas[k].Some?
      invariant found == set k | 0 <= k < i :: IndexedTitle(metas[k].value)
    {
      if metas[i].None? {
        return None;
      }
      found := found + {ResolveTitle(metas[i].value, UnknownIndexedTitle)};
      i := i + 1;
    }
    titles := Some(found);
  }

  // ---------------------------------------------------------------------
  // The engine object
  // ---------------------------------------------------------------------

  class ScienceRAG {
    var topic: string
    var persistDirectory: string
    var collectionName: string
    /** `self.vector_store`: `None` until opened or written. */
    var vectorStore: Option<VectorStore>
    /** Whether the persist directory exists on disk. */
    var directoryExists: bool

    constructor (topic: string, directoryExists: bool)
      ensures this.topic == topic && this.directoryExists == directoryExists
      ensures persistDirectory == PersistDirectory && collectionName == CollectionName
      ensures vectorStore == None
    {
      this.topic := topic;
      this.directoryExists := directoryExists;
      persistDirectory := PersistDirectory;
      collectionName := CollectionName;
      vectorStore := None;
    }

    /**
     * `ingest_papers`: load, then (for a non-empty load) split, filter and
     * write into the store. The handle and the directory change only once
     * the store write has happened.
     */
    method IngestPapers(query: string, maxResults: int,
                        load: (string, int) -> LoadOutcome,
                        write: seq<Paper> -> WriteOutcome) returns (status: string)
      modifies this
      ensures var l := load(query, maxResults);
        var w := if l.Loaded? then write(l.docs) else Written;
        && status == IngestStatus(query, l, w)
        && vectorStore == (if StoreAssigned(l, w) then Some(OpenedStore) else old(vectorStore))
        && directoryExists == (old(directoryExists) || StoreAssigned(l, w))
      ensures topic == old(topic) && persistDirectory == old(persistDirectory) && collectionName == old(collectionName)
    {
      var loaded := load(query, maxResults);
      if loaded.LoadFailed? {
        return ErrorStatus(loaded.error);
      }
      var docs := loaded.docs;
      if |docs| == 0 {
        return NoPapersStatus;
      }
      var written := write(docs);
      if written.FailedBeforeStore? {
        return ErrorStatus(written.error);
      }
      vectorStore := Some(OpenedStore);
      directoryExists := true;
      if written.FailedAfterStore? {
        return ErrorStatus(written.error);
      }
      status := SuccessStatus(|docs|, query);
    }

    /**
     * `get_context`: open the store lazily when its directory exists, run
     * the search, and shape what it found; every failure gives the empty
     * result.
     */
    method GetContext(userQuery: string, kChunks: int, openSucceeds: bool,
                      search: (string, int) -> SearchOutcome) returns (r: RetrievalResult)
      modifies this
      ensures old(vectorStore).None? && !directoryExists ==> r == EmptyResult && vectorStore == None
      ensures old(vectorStore).None? && directoryExists && !openSucceeds ==> r == EmptyResult && vectorStore == None
      ensures old(vectorStore).None? && directoryExists && openSucceeds ==>
        r == RetrievalFor(search(userQuery, kChunks)) && vectorStore == Some(OpenedStore)
      ensures old(vectorStore).Some? ==> r == RetrievalFor(search(userQuery, kChunks)) && vectorStore == old(vectorStore)
      ensures directoryExists == old(directoryExists) && topic == old(topic)
      ensures persistDirectory == old(persistDirectory) && collectionName == old(collectionName)
    {
      if vectorStore.None? {
        if !directoryExists {
          return EmptyResult;
        }
        if !openSucceeds {
          return EmptyResult;
        }
        vectorStore := Some(OpenedStore);
      }
      var outcome := search(userQuery, kChunks);
      if outcome.SearchFailed? {
        return EmptyResult;
      }
      var chunks := outcome.chunks;
      if |chunks| == 0 {
        return EmptyResult;
      }
      var context := Join(ContextSeparator, Contents(chunks));
      var sources := BuildSources(chunks);
      var coverage := Coverage(|chunks|);
      r := RetrievalResult(context, sources, coverage);
    }

    /**
     * `list_indexed_papers`: nothing when the directory is missing;
     * otherwise open the store lazily, read every chunk's metadata and
     * return the sorted set of titles; any failure gives `[]`.
     */
    method ListIndexedPapers(openSucceeds: bool, read: () -> ReadOutcome) returns (titles: seq<string>)
      modifies this
      ensures !directoryExists ==> titles == [] && vectorStore == old(vectorStore)
      ensures directoryExists && old(vectorStore).None? && !openSucceeds ==> titles == [] && vectorStore == None
      ensures directoryExists && (old(vectorStore).Some? || openSucceeds) ==>
        titles == IndexedPapersFor(read()) &&
        vectorStore == (if old(vectorStore).Some? then old(vectorStore) else Some(OpenedStore))
      ensures directoryExists == old(directoryExists) && topic == old(topic)
      ensures persistDirectory == old(persistDirectory) && collectionName == old(collectionName)
    {
      if !directoryExists {
        return [];
      }
      if vectorStore.None? {
        if !openSucceeds {
          return [];
        }
        vectorStore := Some(OpenedStore);
      }
      var data := read();
      if data.ReadFailed? {
        return [];
      }
      var metadatas := data.metadatas;
      if metadatas.None? || |metadatas.value| == 0 {
        return [];
      }
      var found := CollectTitles(metadatas.value);
      if found.None? {
        return [];
      }
      titles := SortedTitles(found.value);
    }

    /**
     * `reset_database`: drop the handle and delete the directory if it
     * exists; a refused or failed deletion is swallowed and leaves the
     * directory in place.
     */
    method ResetDatabase(removal: RemoveOutcome)
      modifies this
      ensures vectorStore == None
      ensures directoryExists == (old(directoryExists) && !removal.Removed?)
      ensures topic == old(topic) && persistDirectory == old(persistDirectory) && collectionName == old(collectionName)
    {
      if vectorStore.Some? {
        vectorStore := None;
      }
      if directoryExists {
        if removal.Removed? {
          directoryExists := false;
        }
      }
    }
  }
}
