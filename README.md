# Grounding engine core: a verified Dafny model

This project models the deterministic core of a retrieval-augmented content
generator. The generator indexes arXiv papers in a Chroma vector store,
retrieves context for a query, fetches financial news from Alpha Vantage, and
generates a cover image with a hosted text-to-image model. Three pieces are
modelled and proved:

- `ScienceRAG` (`src/core/rag_engine.py`): the engine object. It keeps a
  lazily opened vector-store handle. Around it sit the status strings of
  `ingest_papers`, the shaping of what `get_context` retrieves, the sorted
  title list of `list_indexed_papers`, and `reset_database`.
  - Files: `rag_sources.dfy` holds the value-level specification.
    `rag_engine.dfy` holds the class and the two loops.
- `load_financial_news` and `build_finance_context`
  (`src/models/financial_news.py`): normalising a provider response into
  five-field articles, and rendering articles as a labelled text block.
  - File: `financial_news.dfy`.
- `generate_image_from_prompt` and `create_placeholder_image`
  (`src/models/image_generator.py`): a retry loop of at most two attempts
  with a solid-colour fallback.
  - File: `image_generator.dfy`.

`text_util.dfy` writes out the Python string operations the core relies on:
`join`, `startswith`, substring `in`, ASCII `lower()`, slices, `str(n)` and
string ordering. `options.dfy` holds the `Option` type.

Library and outside-world calls become parameters:

- Chroma's MMR search, `vector_store.get()`, the arXiv loader, the store
  write, `shutil.rmtree` and `text_to_image` are oracles. Each is either a
  function argument or an outcome datatype, and its exceptions are
  constructors.
- The on-disk persist directory is the boolean field
  `ScienceRAG.directoryExists`.
- Two methods return one extra result that the Python does not, so the
  contract can speak about the call:
  - `LoadFinancialNews` also returns the HTTP request it sent, if any.
  - `GenerateImageFromPrompt` also returns the number of `text_to_image`
    calls it made.

### Points where the code is easy to misread

- The title placeholder of `list_indexed_papers` is "Unknown Title", with a
  capital T (`rag_engine.py:201`). `get_context` uses "Unknown title"
  (`rag_engine.py:149`).
- Coverage is `min(100, int((n / 5) * 100))` (`rag_engine.py:163`). For 1 to
  4 chunks the truncated floating-point product is exactly `20 * n`, and from
  five chunks on both are 100. Coverage therefore equals `min(100, 20 * n)`.
  Without the cap the two would differ: `int((23 / 5) * 100)` is 459.
- The news loader asks a single provider, Alpha Vantage's NEWS_SENTIMENT
  endpoint (`financial_news.py:45-54`). The code does no merging and no URL
  deduplication.
- `self.vector_store` is assigned before `persist()` is called
  (`rag_engine.py:85-92`), so a failing `persist()` comes after the assignment.
  Ingestion can therefore fail and still leave a new handle behind
  (`WriteOutcome.FailedAfterStore`).

## Model

| member | source | states |
|---|---|---|
| `RagSources.ResolveTitle` | src/core/rag_engine.py:149 | the title is `Title`, else `title`, else the placeholder; a missing key and an empty string both fall through, so with a non-empty placeholder the title is never empty |
| `RagSources.ResolveUrl` | src/core/rag_engine.py:150-151 | a URL is present exactly when `entry_id` exists and starts with "http", and it is then `entry_id` itself |
| `RagSources.SourcesDistinctFirstSeen` | src/core/rag_engine.py:146-160 | `sources` (the reference `RagSources.Sources`) has one entry per distinct resolved title, ordered by where each title first appears in the retrieval |
| `RagSources.SourcesCoverEveryChunk` | src/core/rag_engine.py:146-160 | every retrieved chunk's resolved title has an entry in `sources` |
| `RagSources.SourceEntry` | src/core/rag_engine.py:153-160 | each entry's count is the number of chunks with that title (at least 1), and its URL is resolved from the first such chunk |
| `RagSources.SourcesTotal` | src/core/rag_engine.py:146-167 | the counts of all `sources` entries add up to the number of retrieved chunks |
| `RagSources.Coverage` | src/core/rag_engine.py:163 | coverage lies in [0, 100], is 20 per chunk below five chunks and 100 from five chunks on |
| `RagSources.CoverageMonotone` | src/core/rag_engine.py:163 | more retrieved chunks never give lower coverage |
| `RagSources.ContextHoldsChunks` | src/core/rag_engine.py:143 | the context of the shaped result (`RagSources.Shape`, the `TextUtil.Join` of the chunk texts) holds each chunk text at its offset, in retrieval order, with exactly "\n\n" between neighbours; the context ends with the last chunk |
| `RagSources.SortedTitles` | src/core/rag_engine.py:204 | `sorted(titles)` is strictly increasing in Python's string order and holds exactly the set's elements |
| `RagSources.IndexedTitlesProperties` | src/core/rag_engine.py:199-204 | the listed titles are sorted and duplicate-free; each is the resolved title (placeholder "Unknown Title") of some chunk; every chunk's title is listed |
| `RagEngine.BuildSources` | src/core/rag_engine.py:146-160 | the in-place dict loop over chunks produces exactly the reference `RagSources.Sources` |
| `RagEngine.CollectTitles` | src/core/rag_engine.py:199-202 | the set loop yields the set of resolved titles; a chunk without metadata makes it fail, which the caller turns into `[]` |
| `RagEngine.NoPapersStatusCase` | src/core/rag_engine.py:70-72 | with zero loaded documents the status (`RagEngine.IngestStatus`) is the "No se han encontrado papers" message |
| `RagEngine.SuccessStatusCase` | src/core/rag_engine.py:95 | a successful ingestion's status starts with the document count in decimal (which reads back as that count), then the quoted query |
| `RagEngine.FailureStatusCase` | src/core/rag_engine.py:97-99 | a failed load or a failed write gives a status that starts with "Error al indexar" |
| `RagEngine.QueryNamingErrorReadsAsFailure` | app.py:514 | the caller's `"Error" in status` test reads a successful ingestion for the query "Error" as a failure |
| `RagEngine.StatusIsFailureExact` | app.py:514 | testing the prefix "Error al indexar" reports a failure exactly when ingestion failed |
| `RagEngine.RetrievalEmptyIff` | src/core/rag_engine.py:137-173 | once the store is open, the result (`RagEngine.RetrievalFor`) is empty exactly when the search raises or finds nothing; otherwise coverage is at least 20 and `sources` is non-empty |
| `RagEngine.ScienceRAG.constructor` | src/core/rag_engine.py:28-46 | a new engine has no handle, the "./chroma_db" directory and the "science_rag" collection |
| `RagEngine.ScienceRAG.IngestPapers` | src/core/rag_engine.py:48-99 | the status for the load and write outcomes; the handle and the directory change only once the store write happened; zero documents or a failed load leave both unchanged |
| `RagEngine.ScienceRAG.GetContext` | src/core/rag_engine.py:101-173 | with no handle and no directory, or when opening fails, the result is empty and the handle unchanged; otherwise the handle is opened lazily and the result is the shaped retrieval `RagEngine.RetrievalFor` |
| `RagEngine.ScienceRAG.ListIndexedPapers` | src/core/rag_engine.py:175-208 | `[]` when the directory is missing, when opening or reading fails, or when there is no metadata; otherwise the sorted title list; the result is `RagEngine.IndexedPapersFor` of the read; the handle is opened lazily |
| `RagEngine.ScienceRAG.ResetDatabase` | src/core/rag_engine.py:210-225 | the handle is always cleared; the directory is gone exactly when it existed and its removal succeeded; a refused removal is swallowed |
| `FinancialNews.LoadFinancialNews` | src/models/financial_news.py:20-94 | without a key nothing is requested and the result is empty; otherwise exactly one NEWS_SENTIMENT request with the query and limit is sent, and the loop's result is the normalised response defined by `FinancialNews.NewsFor` |
| `FinancialNews.ProviderRefusalGivesNothing` | src/models/financial_news.py:61-67 | a response carrying "Error Message" or "Note" gives no articles |
| `FinancialNews.FailuresGiveNothing` | src/models/financial_news.py:71-94 | a timeout, a request error, any other exception, a non-object body, a missing feed or a feed that is not a list gives no articles |
| `FinancialNews.NewsArePrefixOfFeed` | src/models/financial_news.py:70-81 | the articles are the first `max_articles` feed items in feed order, never more than `max_articles`; a non-object item among them empties the result |
| `FinancialNews.ArticleRecord` | src/models/financial_news.py:74-80 | an article record (`FinancialNews.ToArticle`) has exactly the keys title, summary, url, source and published_at, holding the article's fields |
| `FinancialNews.ArticleDefaults` | src/models/financial_news.py:74-80 | a missing item key takes the loader's default: "No title", "No summary available", "", "Unknown source", "" (from `time_published`) |
| `FinancialNews.SummaryFragment` | src/models/financial_news.py:114 | the rendered summary is the whole summary when it has at most 150 characters, and exactly its first 150 characters otherwise |
| `FinancialNews.NumberedLineStart` | src/models/financial_news.py:118 | each numbered line starts with its number in decimal followed by ". " |
| `FinancialNews.NumberedLines` | src/models/financial_news.py:112-119 | line `i` is the formatted line `FinancialNews.NumberedLine` of article `i`, numbered from 1 in input order |
| `FinancialNews.BuildFinanceContext` | src/models/financial_news.py:97-123 | the output is `FinancialNews.FinanceContext`: "" for empty input, otherwise the header, the numbered lines and the trailer joined by "\n" |
| `FinancialNews.EmptyNewsRendersNothing` | src/models/financial_news.py:107-108 | no news renders as the empty string, with no header |
| `FinancialNews.FinanceContextShape` | src/models/financial_news.py:110-123 | a non-empty block is `len(news) + 2` segments; it is the header, "\n", the joined lines, "\n" and the trailer, so it starts with the header |
| `FinancialNews.FinanceLineIs` | src/models/financial_news.py:112-119 | segment `i` of the block (from 1) is the numbered line of article `i` |
| `FinancialNews.FinanceLineAt` | src/models/financial_news.py:123 | every segment can be read back from the block at its offset |
| `FinancialNews.LoadedArticlesRenderOwnFields` | src/models/financial_news.py:113-115 | rendering the loader's records uses their own title, summary and source, never the renderer's defaults |
| `ImageGenerator.CreatePlaceholderImage` | src/models/image_generator.py:20-34 | the placeholder is a 640x480 RGB image in which every pixel is (73, 109, 137) |
| `ImageGenerator.PlaceholderIgnoresText` | src/models/image_generator.py:20-34 | the placeholder does not depend on the text |
| `ImageGenerator.Classify` | src/models/image_generator.py:71-88 | a missing repository is its own kind; otherwise "not ready"/"loading" in the lower-cased message means retry, and only failing that does "rate limit"/"limit exceeded" mean rate limited |
| `ImageGenerator.ClassifyIgnoresCase` | src/models/image_generator.py:75 | lower-casing the message first does not change its classification |
| `ImageGenerator.LoadingCheckedBeforeRateLimit` | src/models/image_generator.py:77-85 | a message mentioning loading is retried even if it also mentions a rate limit |
| `ImageGenerator.GenerateImageFromPrompt` | src/models/image_generator.py:36-91 | the bounded loop with `continue`/`break` returns the image and call count of the reference retry definition `ImageGenerator.Run` |
| `ImageGenerator.RunOutcome` | src/models/image_generator.py:53-91 | one or two calls; every call before the last failed with a loading error; the last call's image is returned if it made one, else the placeholder; a first-call stop means a non-loading error |
| `ImageGenerator.FirstSuccessReturned` | src/models/image_generator.py:58-68 | a first call that succeeds returns its image unchanged after exactly one call |
| `ImageGenerator.HardErrorStops` | src/models/image_generator.py:71-88 | a missing model, a rate limit or an unknown error on the first call stops after that call with the placeholder |
| `ImageGenerator.NoImageGivesPlaceholder` | src/models/image_generator.py:90-91 | when no call generates an image, the result is the solid placeholder |
| `TextUtil.ContainsIff` | src/models/image_generator.py:77 | the substring test `sub in s` holds exactly when `sub` occurs at some position of `s` |
| `TextUtil.PrefixSlice` | src/models/financial_news.py:73 | `xs[:n]` keeps the first `n` elements, all if fewer; a negative `n` drops `-n` from the end |
| `TextUtil.DecimalRoundTrip` | src/core/rag_engine.py:95 | the decimal rendering of a count reads back as that count |

## Findings

| source | as written | input that shows it | evidently intended | confidence | as-written member | corrected member |
|---|---|---|---|---|---|---|
| app.py:514 | the caller decides that ingestion failed when `"Error" in status`, but the success status quotes the user's query | the topic "Error" with at least one paper found and indexed: the success message "1 paper(s) sobre 'Error' han sido indexados." is shown as an error and the cache is not cleared | treat only statuses from the failure path (prefix "Error al indexar") as errors | not executed | `RagEngine.QueryNamingErrorReadsAsFailure` | `RagEngine.StatusIsFailureExact` |

## Left out

- The Streamlit front end (`app.py`) is not modelled, apart from the status test at `app.py:514`.
  - This includes `app.py:698`, which unpacks the three-key dict of `get_context` into two names.
- Default arguments (`max_results=2`, `k_chunks=5`, `max_articles=5`, the default `topic` "Artificial Intelligence", which the engine stores but never reads) are explicit parameters of the model; a caller passes them.
- Chunking with `RecursiveCharacterTextSplitter` (900/120) is an oracle. So are `filter_complex_metadata`, the HuggingFace embeddings, Chroma's persistence and its MMR search with `lambda_mult` 0.7. `ingest_papers` sees only whether the write succeeded, failed before the handle was assigned, or failed in `persist()`.
- `RagEngine.ScienceRAG.IngestPapers`: a write that fails inside `Chroma.from_documents` is modelled as leaving the directory as it was, though Chroma may already have created it.
- Metadata values and feed item values are modelled as strings only. A non-string `entry_id` raises in `get_context`; a non-string title is returned as is. Neither is modelled.
- `ImageGenerator.Classify`: `str(e).lower()` is modelled as ASCII lower-casing, so non-ASCII case mapping is not modelled.
- The `time.sleep(15)` wait, logging, the waiting for the HTTP timeout and the `text_to_image` call itself are not modelled. The 10-second timeout is modelled only as the `timeoutSeconds` field of the request sent and as the `TimedOut` response. The model, step count and size arguments sent with each attempt are not modelled either; each attempt's outcome is an input.
- `RagSources.Coverage`: the floating-point expression `min(100, int((n / 5) * 100))` is modelled as the exact `min(100, 20 * n)`. The cap is what makes the two agree for every chunk count: below five chunks the float product is exact, and from five on both are 100.
- The mis-decoded literals ("bÃºsqueda" and the header's emoji) are kept as their code points and treated as opaque constants.
- Some members of the wider repository are not part of this model: `src/models/llm_factory.py`, `src/core/content_chains.py`, `config/*` and the logger. This repository has no grounding-context assembler and no multi-provider news merge, so the model has neither.
- Several tests describe functions that this repository does not define or a plain-string `get_context`. They are not modelled: `tests/test_image_generator.py` and `tests/test_rag_engine.py:37-57`.
