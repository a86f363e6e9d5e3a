/**
 * The financial-news adapter: normalising an Alpha Vantage NEWS_SENTIMENT
 * response into five-field article records, and rendering a list of
 * articles as the labelled text block handed to the generation step. The
 * HTTP call is an oracle from the request to its response.
 */
module FinancialNews {
  import opened Options
  import opened TextUtil

  // ---------------------------------------------------------------------
  // The provider's response
  // ---------------------------------------------------------------------

  /** One element of the `feed` list: a JSON object with string values, or anything else. */
  datatype FeedEntry = Entry(fields: map<string, string>) | NotAnObject

  /** The value under a top-level key of the response: a string, the feed list, or anything else. */
  datatype JsonValue = JString(text: string) | JList(entries: seq<FeedEntry>) | JOther

  /** The decoded body: a JSON object, or any other JSON value. */
  datatype Body = Object(fields: map<string, JsonValue>) | NotAnObjectBody

  /**
   * What `requests.get(...)`, `raise_for_status()` and `json()` produced: a
   * decoded body, or one of the exceptions the function catches.
   */
  datatype Response = Payload(body: Body) | TimedOut | RequestFailed(error: string) | UnexpectedError(error: string)

  /** The request the function sends. */
  datatype Request = Request(url: string, apiFunction: string, tickers: string, apiKey: string, limit: int, timeoutSeconds: nat)

  const Endpoint := "https://www.alphavantage.co/query"

  /** The normalised article. */
  datatype Article = Article(title: string, summary: string, url: string, source: string, publishedAt: string)

  /** `d.get(key, default)`. */
  function Get(d: map<string, string>, key: string, default: string): (r: string)
    ensures key in d ==> r == d[key]
    ensures key !in d ==> r == default
  {
    if key in d then d[key] else default
  }

  /** One feed item as an article, with the loader's defaults. */
  function ToArticle(item: map<string, string>): Article
  {
    Article(Get(item, "title", "No title"),
            Get(item, "summary", "No summary available"),
            Get(item, "url", ""),
            Get(item, "source", "Unknown source"),
            Get(item, "time_published", ""))
  }

  /** The article as the dict the function returns. */
  function ArticleRecord(a: Article): (r: map<string, string>)
    ensures r.Keys == {"title", "summary", "url", "source", "published_at"}
    ensures r["title"] == a.title && r["summary"] == a.summary && r["url"] == a.url
    ensures r["source"] == a.source && r["published_at"] == a.publishedAt
  {
    map["title" := a.title, "summary" := a.summary, "url" := a.url,
        "source" := a.source, "published_at" := a.publishedAt]
  }

  /** Every slot of a feed prefix holds an object, so reading it does not raise. */
  predicate AllObjects(entries: seq<FeedEntry>)
  {
    forall k :: 0 <= k < |entries| ==> entries[k].Entry?
  }

  /** The articles of a feed prefix in which every slot holds an object. */
  function Articles(entries: seq<FeedEntry>): (r: seq<Article>)
    requires AllObjects(entries)
    ensures |r| == |entries|
    ensures forall k :: 0 <= k < |entries| ==> r[k] == ToArticle(entries[k].fields)
  {
    seq(|entries|, k requires 0 <= k < |entries| => ToArticle(entries[k].fields))
  }

  /** The articles the function returns for a response. */
  function NewsFor(response: Response, maxArticles: int): seq<Article>
  {
    if !response.Payload? || !response.body.Object? then []
    else
      var fields := response.body.fields;
      if "Error Message" in fields then []
      else if "Note" in fields then []
      else if "feed" !in fields || !fields["feed"].JList? then []
      else
        var items := PrefixSlice(fields["feed"].entries, maxArticles);
        if AllObjects(items) then Articles(items) else []
  }

  // ---------------------------------------------------------------------
  // load_financial_news
  // ---------------------------------------------------------------------

  /** Whether an API key is configured: Python treats `None` and "" as missing. */
  predicate HasKey(apiKey: Option<string>)
  {
    apiKey.Some? && apiKey.value != ""
  }

  function RequestFor(apiKey: string, query: string, maxArticles: int): Request
  {
    Request(Endpoint, "NEWS_SENTIMENT", query, apiKey, maxArticles, 10)
  }

  /**
   * `load_financial_news`: without a key, nothing is requested and the
   * result is empty; otherwise one request is sent and the response is
   * normalised by a loop over the first `max_articles` feed items. The
   * second result records the request sent, if any.
   */
  method LoadFinancialNews(apiKey: Option<string>, query: string, maxArticles: int,
                           send: Request -> Response) returns (articles: seq<Article>, sent: Option<Request>)
    ensures !HasKey(apiKey) ==> articles == [] && sent == None
    ensures HasKey(apiKey) ==>
      sent == Some(RequestFor(apiKey.value, query, maxArticles)) &&
      articles == NewsFor(send(sent.value), maxArticles)
  {
    if apiKey.None? || apiKey.value == "" {
      return [], None;
    }
    var request := RequestFor(apiKey.value, query, maxArticles);
    sent := Some(request);
    var response := send(request);
    if !response.Payload? || !response.body.Object? {
      return [], sent;
    }
    var data := response.body.fields;
    if "Error Message" in data {
      return [], sent;
    }
    if "Note" in data {
      return [], sent;
    }
    if "feed" !in data || !data["feed"].JList? {
      return [], sent;
    }
    var items := PrefixSlice(data["feed"].entries, maxArticles);
    articles := [];
    var i := 0;
    while i < |items|
      invariant 0 <= i <= |items|
      invariant AllObjects(items[..i])
      invariant articles == Articles(items[..i])
    {
      if items[i].NotAnObject? {
        return [], sent;
      }
      var item := items[i].fields;
      var article := Article(Get(item, "title", "No title"),
                             Get(item, "summary", "No summary available"),
                             Get(item, "url", ""),
                             Get(item, "source", "Unknown source"),
                             Get(item, "time_published", ""));
      articles := articles + [article];
      assert items[..i + 1] == items[..i] + [items[i]];
      i := i + 1;
    }
    assert items[..i] == items;
  }

  /** An error message or a rate-limit note in the response gives no articles. */
  lemma ProviderRefusalGivesNothing(fields: map<string, JsonValue>, maxArticles: int)
    requires "Error Message" in fields || "Note" in fields
    ensures NewsFor(Payload(Object(fields)), maxArticles) == []
  {
  }

  /**
   * A timeout, a request error, an unexpected exception, a body that is not
   * an object, a missing feed or a feed that is not a list gives no
   * articles.
   */
  lemma FailuresGiveNothing(response: Response, maxArticles: int)
    requires !response.Payload? || !response.body.Object? ||
             "feed" !in response.body.fields || !response.body.fields["feed"].JList?
    ensures NewsFor(response, maxArticles) == []
  {
  }

  /**
   * A successful normalisation keeps the first `max_articles` feed items in
   * feed order, so it never holds more than `max_articles` articles; a
   * non-object item among them empties the whole result.
   */
  lemma NewsArePrefixOfFeed(fields: map<string, JsonValue>, entries: seq<FeedEntry>, maxArticles: int)
    requires "Error Message" !in fields && "Note" !in fields
    requires "feed" in fields && fields["feed"] == JList(entries)
    ensures var r := NewsFor(Payload(Object(fields)), maxArticles);
      && (maxArticles >= 0 ==> |r| <= maxArticles)
      && (AllObjects(PrefixSlice(entries, maxArticles)) ==>
            |r| == |PrefixSlice(entries, maxArticles)| &&
            forall k :: 0 <= k < |r| ==> entries[k].Entry? && r[k] == ToArticle(entries[k].fields))
      && (!AllObjects(PrefixSlice(entries, maxArticles)) ==> r == [])
  {
    var items := PrefixSlice(entries, maxArticles);
    assert forall k :: 0 <= k < |items| ==> items[k] == entries[k];
  }

  /**
   * Each article record has exactly the five keys, and a key the item lacks
   * takes the loader's default.
   */
  lemma ArticleDefaults(item: map<string, string>)
    ensures ArticleRecord(ToArticle(item)).Keys == {"title", "summary", "url", "source", "published_at"}
    ensures ToArticle(item).title == (if "title" in item then item["title"] else "No title")
    ensures ToArticle(item).summary == (if "summary" in item then item["summary"] else "No summary available")
    ensures ToArticle(item).url == (if "url" in item then item["url"] else "")
    ensures ToArticle(item).source == (if "source" in item then item["source"] else "Unknown source")
    ensures ToArticle(item).publishedAt == (if "time_published" in item then item["time_published"] else "")
  {
  }

  // ---------------------------------------------------------------------
  // build_finance_context
  // ---------------------------------------------------------------------

  /** The header line (its emoji appears in the source as mis-decoded UTF-8, kept verbatim). */
  const Header := "\U{00F0}\U{0178}\U{201C}\U{02C6} FINANCIAL MARKET CONTEXT (real-time news):\n"
  const Trailer := "\nUse this information as factual grounding for financial content.\n"
  const SummaryBudget := 150

  /** The summary as the renderer shows it: at most 150 characters of it. */
  function SummaryFragment(article: map<string, string>): (r: string)
    ensures |r| <= SummaryBudget
    ensures StartsWith(Get(article, "summary", ""), r)
    ensures |Get(article, "summary", "")| <= SummaryBudget ==> r == Get(article, "summary", "")
    ensures |Get(article, "summary", "")| > SummaryBudget ==> r == Get(article, "summary", "")[..SummaryBudget]
  {
    PrefixSlice(Get(article, "summary", ""), SummaryBudget)
  }

  /** `f"{idx}. {title} - {summary[:150]}... ({source})"` with the renderer's defaults. */
  function NumberedLine(idx: nat, article: map<string, string>): string
  {
    Decimal(idx) + ". " + Get(article, "title", "No title") + " - " + SummaryFragment(article)
      + "... (" + Get(article, "source", "Unknown") + ")"
  }

  /** The numbered lines, counted from 1 in input order. */
  function NumberedLines(news: seq<map<string, string>>): (r: seq<string>)
    ensures |r| == |news|
    ensures forall i :: 0 <= i < |news| ==> r[i] == NumberedLine(i + 1, news[i])
  {
    seq(|news|, i requires 0 <= i < |news| => NumberedLine(i + 1, news[i]))
  }

  /**
   * `build_finance_context`: nothing for no news; otherwise the header, one
   * numbered line per article and the trailer, joined by newlines.
   */
  method BuildFinanceContext(news: seq<map<string, string>>) returns (context: string)
    ensures context == FinanceContext(news)
  {
    if |news| == 0 {
      return "";
    }
    var contextLines := [Header];
    var idx := 0;
    while idx < |news|
      invariant 0 <= idx <= |news|
      invariant contextLines == [Header] + NumberedLines(news[..idx])
    {
      var article := news[idx];
      var title := Get(article, "title", "No title");
      var summary := PrefixSlice(Get(article, "summary", ""), SummaryBudget);
      var source := Get(article, "source", "Unknown");
      var line := Decimal(idx + 1) + ". " + title + " - " + summary + "... (" + source + ")";
      contextLines := contextLines + [line];
      assert NumberedLines(news[..idx + 1]) == NumberedLines(news[..idx]) + [line];
      idx := idx + 1;
    }
    assert news[..idx] == news;
    contextLines := contextLines + [Trailer];
    context := Join("\n", contextLines);
  }

  /** The spec of the rendered block, for lemmas about it. */
  function FinanceContext(news: seq<map<string, string>>): string
  {
    if |news| == 0 then "" else Join("\n", [Header] + NumberedLines(news) + [Trailer])
  }

  /** Joining a first line, some middle lines and a last line by `sep`. */
  lemma JoinFramed(sep: string, first: string, middle: seq<string>, last: string)
    requires |middle| > 0
    ensures Join(sep, [first] + middle + [last]) == first + sep + Join(sep, middle) + sep + last
  {
    JoinAppend(sep, [first], middle);
    JoinAppend(sep, [first] + middle, [last]);
  }

  /** A string that is `first` followed by anything starts with `first`. */
  lemma StartsWithConcat(first: string, rest: string)
    ensures StartsWith(first + rest, first)
  {
    assert (first + rest)[..|first|] == first;
  }

  /**
   * A non-empty block starts with the header and a newline, then the
   * numbered lines joined by newlines, then a newline and the trailer: that
   * is `len(news) + 2` segments.
   */
  lemma FinanceContextShape(news: seq<map<string, string>>)
    requires |news| > 0
    ensures |[Header] + NumberedLines(news) + [Trailer]| == |news| + 2
    ensures FinanceContext(news) == Header + "\n" + Join("\n", NumberedLines(news)) + "\n" + Trailer
    ensures StartsWith(FinanceContext(news), Header)
  {
    JoinFramed("\n", Header, NumberedLines(news), Trailer);
    StartsWithConcat(Header, "\n" + Join("\n", NumberedLines(news)) + "\n" + Trailer);
  }

  /** The empty list renders as the empty string, with no header. */
  lemma EmptyNewsRendersNothing()
    ensures FinanceContext([]) == ""
  {
  }

  /** A numbered line starts with its number in decimal and ". ". */
  lemma NumberedLineStart(idx: nat, article: map<string, string>)
    ensures StartsWith(NumberedLine(idx, article), Decimal(idx) + ". ")
  {
    var p := Decimal(idx) + ". ";
    var l := NumberedLine(idx, article);
    assert l == p + (Get(article, "title", "No title") + " - " + SummaryFragment(article)
      + "... (" + Get(article, "source", "Unknown") + ")");
    assert l[..|p|] == p;
  }

  /** Segment `i` of the block (counted from 1) is the numbered line of article `i`. */
  lemma FinanceLineIs(news: seq<map<string, string>>, i: nat)
    requires i < |news|
    ensures ([Header] + NumberedLines(news) + [Trailer])[i + 1] == NumberedLine(i + 1, news[i])
  {
  }

  /** Every segment can be read back from the block at its position. */
  lemma FinanceLineAt(news: seq<map<string, string>>, i: nat)
    requires 0 < |news| && i < |news| + 2
    ensures FinanceContext(news) == Join("\n", [Header] + NumberedLines(news) + [Trailer])
    ensures var lines := [Header] + NumberedLines(news) + [Trailer];
      var o := PartOffset("\n", lines, i);
      o + |lines[i]| <= |Join("\n", lines)| && Join("\n", lines)[o..o + |lines[i]|] == lines[i]
  {
    JoinPartAt("\n", [Header] + NumberedLines(news) + [Trailer], i);
  }

  /**
   * Rendering the loader's own records never falls back to the renderer's
   * defaults: each line shows the article's title, summary and source.
   */
  lemma LoadedArticlesRenderOwnFields(a: Article, idx: nat)
    ensures NumberedLine(idx, ArticleRecord(a)) ==
      Decimal(idx) + ". " + a.title + " - " + PrefixSlice(a.summary, SummaryBudget) + "... (" + a.source + ")"
  {
  }
}
