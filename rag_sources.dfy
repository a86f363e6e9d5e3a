/**
 * What `ScienceRAG` does with retrieved chunks once the vector store has
 * answered: title and URL resolution from chunk metadata, grouping chunks
 * into per-paper sources in first-seen order, the coverage heuristic, the
 * blank-line-joined context, and the sorted title list of the index.
 * Everything here is a value; the class that owns the store handle is in
 * module RagEngine.
 */
module RagSources {
  import opened Options
  import opened TextUtil

  /** Chunk metadata as Chroma returns it; only string values are modelled. */
  type Metadata = map<string, string>

  /** One retrieved chunk: its `page_content` and its `metadata`. */
  datatype Chunk = Chunk(pageContent: string, metadata: Metadata)

  /** One entry of `sources`: a paper title, its URL or `None`, and how many chunks came from it. */
  datatype Source = Source(title: string, url: Option<string>, chunks: nat)

  /** The dict `get_context` returns: `context`, `sources` and `coverage`. */
  datatype RetrievalResult = RetrievalResult(context: string, sources: seq<Source>, coverage: nat)

  /** `{"context": "", "sources": [], "coverage": 0}`. */
  const EmptyResult := RetrievalResult("", [], 0)

  /** Placeholder title used when a retrieved chunk has no title. */
  const UnknownChunkTitle := "Unknown title"

  /** Placeholder title used when listing the index (note the capital T). */
  const UnknownIndexedTitle := "Unknown Title"

  /** Separator between chunk texts in the context. */
  const ContextSeparator := "\n\n"

  /** Number of chunks that counts as full coverage. */
  const CoverageBaseline := 5

  // ---------------------------------------------------------------------
  // Title and URL resolution
  // ---------------------------------------------------------------------

  /** A metadata value is truthy in Python when the key is present and the string is non-empty. */
  predicate Truthy(m: Metadata, key: string)
  {
    key in m && m[key] != ""
  }

  /**
   * `m.get("Title") or m.get("title") or placeholder`: a missing key and an
   * empty string both fall through to the next choice.
   */
  function ResolveTitle(m: Metadata, placeholder: string): (r: string)
    ensures placeholder != "" ==> r != ""
    ensures Truthy(m, "Title") ==> r == m["Title"]
    ensures !Truthy(m, "Title") && Truthy(m, "title") ==> r == m["title"]
    ensures !Truthy(m, "Title") && !Truthy(m, "title") ==> r == placeholder
  {
    if Truthy(m, "Title") then m["Title"]
    else if Truthy(m, "title") then m["title"]
    else placeholder
  }

  /** `entry_id` when it starts with "http", otherwise `None`; a missing `entry_id` reads as "". */
  function ResolveUrl(m: Metadata): (r: Option<string>)
    ensures r.Some? <==> "entry_id" in m && StartsWith(m["entry_id"], "http")
    ensures r.Some? ==> r.value == m["entry_id"] && |r.value| >= 4
  {
    var entryId := if "entry_id" in m then m["entry_id"] else "";
    if StartsWith(entryId, "http") then Some(entryId) else None
  }

  function ChunkTitle(c: Chunk): string
  {
    ResolveTitle(c.metadata, UnknownChunkTitle)
  }

  /** The resolved title of every chunk, in retrieval order. */
  function ChunkTitles(chunks: seq<Chunk>): (r: seq<string>)
    ensures |r| == |chunks|
    ensures forall i :: 0 <= i < |chunks| ==> r[i] == ChunkTitle(chunks[i])
  {
    seq(|chunks|, i requires 0 <= i < |chunks| => ChunkTitle(chunks[i]))
  }

  // ---------------------------------------------------------------------
  // First-seen order, counts, first occurrence
  // ---------------------------------------------------------------------

  /** The elements of `s` without repeats, each where it first occurs. */
  function Distinct(s: seq<string>): seq<string>
  {
    if |s| == 0 then []
    else
      var d := Distinct(s[..|s| - 1]);
      if s[|s| - 1] in d then d else d + [s[|s| - 1]]
  }

  /** How often `t` occurs in `s`. */
  function CountOf(s: seq<string>, t: string): nat
  {
    if |s| == 0 then 0
    else CountOf(s[..|s| - 1], t) + (if s[|s| - 1] == t then 1 else 0)
  }

  /** Index of the first occurrence of `t` in `s`. */
  function FirstIndex(s: seq<string>, t: string): (r: nat)
    requires t in s
    ensures r < |s| && s[r] == t
    ensures forall j :: 0 <= j < r ==> s[j] != t
  {
    if s[0] == t then 0 else 1 + FirstIndex(s[1..], t)
  }

  lemma {:induction false} DistinctMembership(s: seq<string>)
    ensures forall t :: t in Distinct(s) <==> t in s
  {
    if |s| > 0 {
      DistinctMembership(s[..|s| - 1]);
      assert s == s[..|s| - 1] + [s[|s| - 1]];
    }
  }

  lemma {:induction false} DistinctNoRepeats(s: seq<string>)
    ensures forall i, j :: 0 <= i < j < |Distinct(s)| ==> Distinct(s)[i] != Distinct(s)[j]
  {
    if |s| > 0 {
      DistinctNoRepeats(s[..|s| - 1]);
    }
  }

  lemma FirstIndexOfPrefix(s: seq<string>, x: string, t: string)
    requires t in s
    ensures t in s + [x] && FirstIndex(s + [x], t) == FirstIndex(s, t)
  {
    assert (s + [x])[FirstIndex(s, t)] == t;
  }

  /** The distinct titles appear in the order of their first occurrences. */
  lemma {:induction false} DistinctFirstSeenOrder(s: seq<string>)
    ensures forall t :: t in Distinct(s) ==> t in s
    ensures forall i, j :: 0 <= i < j < |Distinct(s)| ==>
      FirstIndex(s, Distinct(s)[i]) < FirstIndex(s, Distinct(s)[j])
  {
    DistinctMembership(s);
    if |s| > 0 {
      var p := s[..|s| - 1];
      var x := s[|s| - 1];
      assert s == p + [x];
      DistinctFirstSeenOrder(p);
      DistinctMembership(p);
      var d := Distinct(p);
      forall i, j | 0 <= i < j < |Distinct(s)|
        ensures FirstIndex(s, Distinct(s)[i]) < FirstIndex(s, Distinct(s)[j])
      {
        FirstIndexOfPrefix(p, x, d[i]);
        if j < |d| {
          FirstIndexOfPrefix(p, x, d[j]);
        } else {
          assert Distinct(s)[j] == x && x !in p;
          assert FirstIndex(s, x) == |p|;
        }
      }
    }
  }

  lemma {:induction false} CountPositive(s: seq<string>, t: string)
    requires t in s
    ensures CountOf(s, t) >= 1
  {
    if s[|s| - 1] != t {
      assert s == s[..|s| - 1] + [s[|s| - 1]];
      CountPositive(s[..|s| - 1], t);
    }
  }

  lemma {:induction false} CountAbsent(s: seq<string>, t: string)
    requires t !in s
    ensures CountOf(s, t) == 0
  {
    if |s| > 0 {
      assert s[..|s| - 1] <= s;
      CountAbsent(s[..|s| - 1], t);
    }
  }

  /** Sum of `CountOf(s, t)` over the titles `ts`. */
  function SumCounts(s: seq<string>, ts: seq<string>): nat
  {
    if |ts| == 0 then 0 else SumCounts(s, ts[..|ts| - 1]) + CountOf(s, ts[|ts| - 1])
  }

  /** Appending `x` to `s` adds one to the sum over any repeat-free `ts` that holds `x`. */
  lemma {:induction false} SumCountsAppend(s: seq<string>, x: string, ts: seq<string>)
    requires forall i, j :: 0 <= i < j < |ts| ==> ts[i] != ts[j]
    ensures SumCounts(s + [x], ts) == SumCounts(s, ts) + (if x in ts then 1 else 0)
  {
    if |ts| > 0 {
      var ts' := ts[..|ts| - 1];
      SumCountsAppend(s, x, ts');
      assert (s + [x])[..|s|] == s;
      assert x in ts <==> x in ts' || x == ts[|ts| - 1];
      if x == ts[|ts| - 1] {
        assert x !in ts';
      }
    }
  }

  /** Every chunk is counted under exactly one distinct title. */
  lemma {:induction false} CountsSumToLength(s: seq<string>)
    ensures SumCounts(s, Distinct(s)) == |s|
  {
    if |s| > 0 {
      var p := s[..|s| - 1];
      var x := s[|s| - 1];
      assert s == p + [x];
      CountsSumToLength(p);
      DistinctNoRepeats(p);
      DistinctMembership(p);
      var d := Distinct(p);
      SumCountsAppend(p, x, d);
      if x !in d {
        CountAbsent(p, x);
        assert (d + [x])[..|d|] == d;
      }
    }
  }

  // ---------------------------------------------------------------------
  // sources, context and coverage
  // ---------------------------------------------------------------------

  /** The source entry for title `t`: the URL of its first chunk and its chunk count. */
  function SourceFor(chunks: seq<Chunk>, t: string): Source
  {
    var titles := ChunkTitles(chunks);
    var url := if t in titles then ResolveUrl(chunks[FirstIndex(titles, t)].metadata) else None;
    Source(t, url, CountOf(titles, t))
  }

  /** Titles of a retrieval extended by one chunk. */
  lemma ChunkTitlesStep(cs: seq<Chunk>, c: Chunk)
    ensures ChunkTitles(cs + [c]) == ChunkTitles(cs) + [ChunkTitle(c)]
  {
  }

  /** Extending a retrieval by one chunk adds its title to the first-seen list if it is new. */
  lemma DistinctStep(s: seq<string>, x: string)
    ensures Distinct(s + [x]) == if x in Distinct(s) then Distinct(s) else Distinct(s) + [x]
  {
    assert (s + [x])[..|s|] == s;
  }

  /**
   * Extending a retrieval by one chunk bumps the count of that chunk's
   * title, or opens a new entry with that chunk's URL; other entries stay.
   */
  lemma SourceForStep(cs: seq<Chunk>, c: Chunk, t: string)
    ensures SourceFor(cs + [c], t) ==
      if t != ChunkTitle(c) then SourceFor(cs, t)
      else if t in ChunkTitles(cs) then SourceFor(cs, t).(chunks := SourceFor(cs, t).chunks + 1)
      else Source(t, ResolveUrl(c.metadata), 1)
  {
    var ts := ChunkTitles(cs);
    ChunkTitlesStep(cs, c);
    assert (ts + [ChunkTitle(c)])[..|ts|] == ts;
    if t in ts {
      FirstIndexOfPrefix(ts, ChunkTitle(c), t);
      assert (cs + [c])[FirstIndex(ts, t)] == cs[FirstIndex(ts, t)];
    } else if t == ChunkTitle(c) {
      CountAbsent(ts, t);
      assert FirstIndex(ts + [t], t) == |ts|;
    }
  }

  /**
   * Reference definition of `sources`: one entry per distinct resolved
   * title, in first-seen order.
   */
  function Sources(chunks: seq<Chunk>): seq<Source>
  {
    var d := Distinct(ChunkTitles(chunks));
    seq(|d|, i requires 0 <= i < |d| => SourceFor(chunks, d[i]))
  }

  /** Total number of chunks that the sources account for. */
  function TotalChunks(sources: seq<Source>): nat
  {
    if |sources| == 0 then 0 else TotalChunks(sources[..|sources| - 1]) + sources[|sources| - 1].chunks
  }

  lemma {:induction false} TotalIsSumCounts(chunks: seq<Chunk>, ts: seq<string>)
    ensures TotalChunks(seq(|ts|, i requires 0 <= i < |ts| => SourceFor(chunks, ts[i])))
         == SumCounts(ChunkTitles(chunks), ts)
  {
    if |ts| > 0 {
      var ss := seq(|ts|, i requires 0 <= i < |ts| => SourceFor(chunks, ts[i]));
      var ts' := ts[..|ts| - 1];
      TotalIsSumCounts(chunks, ts');
      assert ss[..|ss| - 1] == seq(|ts'|, i requires 0 <= i < |ts'| => SourceFor(chunks, ts'[i]));
    }
  }

  /** Sources are keyed by distinct titles, listed in the order their first chunks were retrieved. */
  lemma SourcesDistinctFirstSeen(chunks: seq<Chunk>)
    ensures var ss := Sources(chunks);
      && (forall i, j :: 0 <= i < j < |ss| ==> ss[i].title != ss[j].title)
      && (forall i :: 0 <= i < |ss| ==> ss[i].title in ChunkTitles(chunks))
      && (forall i, j :: 0 <= i < j < |ss| ==>
            FirstIndex(ChunkTitles(chunks), ss[i].title) < FirstIndex(ChunkTitles(chunks), ss[j].title))
  {
    var titles := ChunkTitles(chunks);
    DistinctNoRepeats(titles);
    DistinctFirstSeenOrder(titles);
  }

  /** Every retrieved chunk's title has an entry in the sources. */
  lemma SourcesCoverEveryChunk(chunks: seq<Chunk>, k: nat)
    requires k < |chunks|
    ensures exists i :: 0 <= i < |Sources(chunks)| && Sources(chunks)[i].title == ChunkTitle(chunks[k])
  {
    var titles := ChunkTitles(chunks);
    var d := Distinct(titles);
    DistinctMembership(titles);
    assert titles[k] in d;
    var i :| 0 <= i < |d| && d[i] == titles[k];
    assert Sources(chunks)[i].title == ChunkTitle(chunks[k]);
  }

  /**
   * Each entry counts the chunks with its title (at least one) and takes the
   * URL resolved from the first of them.
   */
  lemma SourceEntry(chunks: seq<Chunk>, i: nat)
    requires i < |Sources(chunks)|
    ensures var s := Sources(chunks)[i];
      var titles := ChunkTitles(chunks);
      && s.title in titles
      && s.chunks == CountOf(titles, s.title)
      && s.chunks >= 1
      && s.url == ResolveUrl(chunks[FirstIndex(titles, s.title)].metadata)
  {
    var titles := ChunkTitles(chunks);
    DistinctMembership(titles);
    CountPositive(titles, Distinct(titles)[i]);
  }

  /** The chunk counts of all sources add up to the number of retrieved chunks. */
  lemma SourcesTotal(chunks: seq<Chunk>)
    ensures TotalChunks(Sources(chunks)) == |chunks|
  {
    var titles := ChunkTitles(chunks);
    TotalIsSumCounts(chunks, Distinct(titles));
    CountsSumToLength(titles);
  }

  /**
   * The coverage heuristic `min(100, int((n / 5) * 100))`; `n / 5 * 100`
   * is computed here as the exact quotient `(100 * n) / 5`.
   */
  function Coverage(n: nat): (c: nat)
    ensures c <= 100
    ensures n >= CoverageBaseline ==> c == 100
    ensures n < CoverageBaseline ==> c == 20 * n
  {
    var percent := (100 * n) / CoverageBaseline;
    if percent < 100 then percent else 100
  }

  /** Retrieving more chunks never lowers coverage. */
  lemma CoverageMonotone(m: nat, n: nat)
    requires m <= n
    ensures Coverage(m) <= Coverage(n)
  {
  }

  /** The chunk texts in retrieval order. */
  function Contents(chunks: seq<Chunk>): (r: seq<string>)
    ensures |r| == |chunks|
    ensures forall i :: 0 <= i < |chunks| ==> r[i] == chunks[i].pageContent
  {
    seq(|chunks|, i requires 0 <= i < |chunks| => chunks[i].pageContent)
  }

  /**
   * The result shaped from a retrieval: empty for no chunks, otherwise the
   * joined texts, the grouped sources and the coverage.
   */
  function Shape(chunks: seq<Chunk>): RetrievalResult
  {
    if |chunks| == 0 then EmptyResult
    else RetrievalResult(Join(ContextSeparator, Contents(chunks)), Sources(chunks), Coverage(|chunks|))
  }

  /**
   * The context holds each retrieved text, in retrieval order, with a blank
   * line between neighbours.
   */
  lemma ContextHoldsChunks(chunks: seq<Chunk>, i: nat)
    requires i < |chunks|
    ensures var ctx := Shape(chunks).context;
      var o := PartOffset(ContextSeparator, Contents(chunks), i);
      && o + |chunks[i].pageContent| <= |ctx|
      && ctx[o..o + |chunks[i].pageContent|] == chunks[i].pageContent
      && (i + 1 < |chunks| ==>
            PartOffset(ContextSeparator, Contents(chunks), i + 1) <= |ctx| &&
            ctx[o + |chunks[i].pageContent|..PartOffset(ContextSeparator, Contents(chunks), i + 1)] == "\n\n")
    ensures |Shape(chunks).context|
      == PartOffset(ContextSeparator, Contents(chunks), |chunks| - 1) + |chunks[|chunks| - 1].pageContent|
  {
    JoinLength(ContextSeparator, Contents(chunks));
    JoinPartAt(ContextSeparator, Contents(chunks), i);
    if i + 1 < |chunks| {
      JoinSeparatorAt(ContextSeparator, Contents(chunks), i);
    }
  }

  // ---------------------------------------------------------------------
  // list_indexed_papers
  // ---------------------------------------------------------------------

  function IndexedTitle(m: Metadata): string
  {
    ResolveTitle(m, UnknownIndexedTitle)
  }

  /** The set of resolved titles over the stored metadata. */
  function TitleSet(metas: seq<Metadata>): set<string>
  {
    set i | 0 <= i < |metas| :: IndexedTitle(metas[i])
  }

  lemma LexAsymmetric()
    ensures forall a, b :: LexLess(a, b) ==> !LexLess(b, a)
  {
    forall a, b | LexLess(a, b)
      ensures !LexLess(b, a)
    {
      if LexLess(b, a) {
        LexLessTransitive(a, b, a);
        LexLessIrreflexive(a);
      }
    }
  }

  /** `m` is the least element of `s` under Python's string order. */
  predicate IsLeast(m: string, s: set<string>)
  {
    m in s && forall y :: y in s && y != m ==> LexLess(m, y)
  }

  /** A non-empty finite set of strings has a least element. */
  lemma {:induction false} MinimumExists(s: set<string>) returns (m: string)
    requires s != {}
    ensures IsLeast(m, s)
    decreases |s|
  {
    var x :| x in s;
    if s == {x} {
      m := x;
    } else {
      var m' := MinimumExists(s - {x});
      if LexLess(m', x) {
        m := m';
      } else {
        LexLessTotal(m', x);
        m := x;
        forall y | y in s && y != x
          ensures LexLess(x, y)
        {
          if y != m' {
            LexLessTransitive(x, m', y);
          }
        }
      }
    }
  }

  lemma HasLeast(s: set<string>)
    requires s != {}
    ensures exists m :: IsLeast(m, s)
  {
    var m := MinimumExists(s);
  }

  /** Python's `sorted(titles)` for a set of strings. */
  function SortedTitles(titles: set<string>): (r: seq<string>)
    ensures StrictlySorted(r)
    ensures forall t :: t in r <==> t in titles
    decreases |titles|
  {
    if titles == {} then []
    else
      HasLeast(titles);
      LexAsymmetric();
      var m :| IsLeast(m, titles);
      var rest := SortedTitles(titles - {m});
      assert forall t :: t in rest ==> LexLess(m, t);
      [m] + rest
  }

  /**
   * What `list_indexed_papers` returns for the stored metadata: sorted and
   * duplicate free, each entry the resolved title of some chunk, and every
   * chunk's resolved title present.
   */
  lemma IndexedTitlesProperties(metas: seq<Metadata>)
    ensures var r := SortedTitles(TitleSet(metas));
      && StrictlySorted(r)
      && (forall i, j :: 0 <= i < j < |r| ==> r[i] != r[j])
      && (forall t :: t in r ==> exists k :: 0 <= k < |metas| && IndexedTitle(metas[k]) == t)
      && (forall k :: 0 <= k < |metas| ==> IndexedTitle(metas[k]) in r)
      && (|metas| > 0 ==> |r| > 0)
  {
    var r := SortedTitles(TitleSet(metas));
    forall i, j | 0 <= i < j < |r|
      ensures r[i] != r[j]
    {
      LexLessIrreflexive(r[i]);
    }
    if |metas| > 0 {
      assert IndexedTitle(metas[0]) in r;
    }
  }
}
