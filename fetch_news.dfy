/** The on-demand ingestion function: it needs an authorization header,
    reads the newest NewsAPI articles about Donald Trump, and stores each
    new, complete one with a neutral rewrite, marked as completed. */
module FetchNews {
  import opened Wrappers
  import opened Text
  import opened Sequences
  import opened NewsTable
  import opened Headlines

  const MissingHeaderError: string := "Missing authorization header"
  const NoArticlesError: string := "No articles returned from NewsAPI"
  const InsertErrorPrefix: string := "Error inserting article: "
  const InternalError: string := "Internal server error"

  /** The language model, given whether the text is a headline (the two
      requests use different instructions). */
  type Llm = (bool, string) -> LlmReply

  /** `neutralizeText(text, isTitle)`. */
  function NeutralizeText(text: string, isTitle: bool, llm: Llm): (r: string)
    ensures text == [] ==> r == []
    ensures text != [] && (llm(isTitle, text).Failed? || !Truthy(llm(isTitle, text).content)) ==> r == text
    ensures text != [] ==> r != []
  {
    if text == [] then [] else ApplyReply(text, llm(isTitle, text))
  }

  datatype Outcome = Skipped | Inserted(row: Row) | Rejected(message: string)

  /** The row stored for a complete article. */
  function RowFor(a: Article, llm: Llm): Row
    requires !Incomplete(a)
  {
    Row(a.title.value,
        NeutralizeText(a.title.value, true, llm),
        if Truthy(a.description) then a.description else None,
        if Truthy(a.description) then Some(NeutralizeText(a.description.value, false, llm)) else None,
        a.url.value,
        a.publishedAt,
        a.sourceName,
        Some(CompletedStatus))
  }

  /** One iteration of the loop; `rejects` stands for the insert's error. */
  function Step(rows: seq<Row>, a: Article, llm: Llm, rejects: Row -> Option<string>): Outcome {
    if Incomplete(a) || Exists(rows, a.url.value) then Skipped
    else
      var row := RowFor(a, llm);
      match rejects(row)
      case Some(message) => Rejected(InsertErrorPrefix + message)
      case None => Inserted(row)
  }

  /** An inserted row is marked completed, has a non-empty rewritten title
      written with the headline instructions, and a description (original
      and rewritten) exactly when the article has a non-empty one. */
  lemma InsertedRow(rows: seq<Row>, a: Article, llm: Llm, rejects: Row -> Option<string>)
    requires Step(rows, a, llm, rejects).Inserted?
    ensures var r := Step(rows, a, llm, rejects).row;
      && r.status == Some(CompletedStatus)
      && a.title == Some(r.originalTitle) && a.url == Some(r.url) && r.url != []
      && r.neutralTitle == NeutralizeText(r.originalTitle, true, llm) && r.neutralTitle != []
      && (r.neutralDescription.Some? <==> Truthy(a.description))
      && (r.originalDescription.Some? <==> Truthy(a.description))
      && (Truthy(a.description) ==> r.neutralDescription == Some(NeutralizeText(a.description.value, false, llm)))
      && !Exists(rows, r.url) && rejects(r).None?
  {
  }

  /** Incomplete articles and stored URLs are passed over without a trace. */
  lemma SkippedExactly(rows: seq<Row>, a: Article, llm: Llm, rejects: Row -> Option<string>)
    ensures Step(rows, a, llm, rejects).Skipped? <==> Incomplete(a) || Exists(rows, a.url.value)
  {
  }

  // --------------------------------------------------------------- the loop

  datatype Tally = Tally(processedCount: nat, errors: seq<string>)

  function Run(rows: seq<Row>, articles: seq<Article>, llm: Llm, rejects: Row -> Option<string>, acc: Tally): (seq<Row>, Tally)
    decreases |articles|
  {
    if articles == [] then (rows, acc)
    else
      match Step(rows, articles[0], llm, rejects)
      case Skipped => Run(rows, articles[1..], llm, rejects, acc)
      case Inserted(row) => Run(rows + [row], articles[1..], llm, rejects, acc.(processedCount := acc.processedCount + 1))
      case Rejected(m) => Run(rows, articles[1..], llm, rejects, acc.(errors := acc.errors + [m]))
  }

  /** At most one tally per article; the count is the number of rows added,
      all marked completed, with the stored rows kept in front. */
  lemma {:induction false} RunTallies(rows: seq<Row>, articles: seq<Article>, llm: Llm,
                                      rejects: Row -> Option<string>, acc: Tally)
    ensures var (out, t) := Run(rows, articles, llm, rejects, acc);
      && t.processedCount + |t.errors| <= acc.processedCount + |acc.errors| + |articles|
      && t.processedCount >= acc.processedCount
      && IsPrefix(rows, out) && |out| == |rows| + t.processedCount - acc.processedCount
      && forall i :: |rows| <= i < |out| ==> out[i].status == Some(CompletedStatus)
    decreases |articles|
  {
    if articles != [] {
      match Step(rows, articles[0], llm, rejects)
      case Skipped => RunTallies(rows, articles[1..], llm, rejects, acc);
      case Rejected(m) => RunTallies(rows, articles[1..], llm, rejects, acc.(errors := acc.errors + [m]));
      case Inserted(row) =>
        var next := rows + [row];
        RunTallies(next, articles[1..], llm, rejects, acc.(processedCount := acc.processedCount + 1));
        PrefixOfExtended(rows, row, Run(next, articles[1..], llm, rejects, acc.(processedCount := acc.processedCount + 1)).0);
    }
  }

  /** Stored URLs stay unique. */
  lemma {:induction false} RunKeepsUnique(rows: seq<Row>, articles: seq<Article>, llm: Llm,
                                          rejects: Row -> Option<string>, acc: Tally)
    requires UniqueUrls(rows)
    ensures UniqueUrls(Run(rows, articles, llm, rejects, acc).0)
    decreases |articles|
  {
    if articles != [] {
      match Step(rows, articles[0], llm, rejects)
      case Skipped => RunKeepsUnique(rows, articles[1..], llm, rejects, acc);
      case Rejected(m) => RunKeepsUnique(rows, articles[1..], llm, rejects, acc.(errors := acc.errors + [m]));
      case Inserted(row) =>
        ExistsIffStored(rows, row.url);
        AppendKeepsUnique(rows, row);
        RunKeepsUnique(rows + [row], articles[1..], llm, rejects, acc.(processedCount := acc.processedCount + 1));
    }
  }

  /** The `for` loop of `fetchAndProcessNews`. */
  method ProcessLoop(db: HeadlineTable, articles: seq<Article>, llm: Llm, rejects: Row -> Option<string>)
    returns (processedCount: nat, errors: seq<string>)
    modifies db
    ensures (db.rows, Tally(processedCount, errors)) == Run(old(db.rows), articles, llm, rejects, Tally(0, []))
  {
    processedCount := 0;
    errors := [];
    for i := 0 to |articles|
      invariant Run(db.rows, articles[i..], llm, rejects, Tally(processedCount, errors))
             == Run(old(db.rows), articles, llm, rejects, Tally(0, []))
    {
      var article := articles[i];
      assert articles[i..][1..] == articles[i + 1..];
      if !Truthy(article.title) || !Truthy(article.url) {
        continue;
      }
      if CountUrl(db.rows, article.url.value) == 1 {
        continue;
      }
      var neutralTitle := NeutralizeText(article.title.value, true, llm);
      var neutralDescription := if Truthy(article.description) then Some(NeutralizeText(article.description.value, false, llm)) else None;
      var row := Row(article.title.value, neutralTitle,
                     if Truthy(article.description) then article.description else None,
                     neutralDescription, article.url.value, article.publishedAt, article.sourceName,
                     Some(CompletedStatus));
      assert row == RowFor(article, llm);
      var insertError := rejects(row);
      if insertError.Some? {
        errors := errors + [InsertErrorPrefix + insertError.value];
        continue;
      }
      db.Insert(row);
      processedCount := processedCount + 1;
    }
  }

  // ----------------------------------------------------- fetch and process

  datatype NewsApiResponse = NewsApiResponse(ok: bool, status: nat, statusText: string, articles: Option<seq<Article>>)

  /** The success value: `errors` is left out when there are none. */
  datatype Summary = Summary(message: string, processedCount: nat, errors: Option<seq<string>>)

  function SummaryOf(processedCount: nat, errors: seq<string>): (s: Summary)
    ensures s.processedCount == processedCount
    ensures s.errors.None? <==> errors == []
    ensures s.errors.Some? ==> s.errors.value == errors
    ensures s.message == "Successfully processed " + NatToString(processedCount) + " new articles"
  {
    Summary("Successfully processed " + NatToString(processedCount) + " new articles",
            processedCount, if |errors| > 0 then Some(errors) else None)
  }

  function NewsApiError(status: nat, statusText: string): string {
    "NewsAPI error: " + NatToString(status) + " - " + statusText
  }

  /** `fetchAndProcessNews`; `response` is what the NewsAPI request gave. */
  method FetchAndProcess(db: HeadlineTable, response: Result<NewsApiResponse>, llm: Llm,
                         rejects: Row -> Option<string>) returns (r: Result<Summary>)
    modifies db
    ensures response.Err? ==> r == Err(response.message) && db.rows == old(db.rows)
    ensures response.Ok? && !response.value.ok ==>
      r == Err(NewsApiError(response.value.status, response.value.statusText)) && db.rows == old(db.rows)
    ensures response.Ok? && response.value.ok && response.value.articles.GetOr([]) == [] ==>
      r == Err(NoArticlesError) && db.rows == old(db.rows)
    ensures response.Ok? && response.value.ok && response.value.articles.GetOr([]) != [] ==>
      var (out, t) := Run(old(db.rows), response.value.articles.value, llm, rejects, Tally(0, []));
      r == Ok(SummaryOf(t.processedCount, t.errors)) && db.rows == out
  {
    if response.Err? {
      return Err(response.message);
    }
    if !response.value.ok {
      return Err(NewsApiError(response.value.status, response.value.statusText));
    }
    if response.value.articles.None? || |response.value.articles.value| == 0 {
      return Err(NoArticlesError);
    }
    var processedCount, errors := ProcessLoop(db, response.value.articles.value, llm, rejects);
    return Ok(SummaryOf(processedCount, errors));
  }

  // ---------------------------------------------------------------- handler

  datatype Body = ErrorBody(error: string) | SummaryBody(summary: Summary)

  datatype Response = Response(status: nat, body: Body)

  /** `error.message || "Internal server error"`. */
  function ErrorMessage(message: string): (r: string)
    ensures r != []
    ensures message != [] ==> r == message
  {
    if message != [] then message else InternalError
  }

  /** The request handler: without an authorization header nothing is
      fetched; any other header is accepted as it is. */
  method Handle(db: HeadlineTable, authorization: Option<string>, response: Result<NewsApiResponse>, llm: Llm,
                rejects: Row -> Option<string>) returns (reply: Response)
    modifies db
    ensures !Truthy(authorization) ==> reply == Response(401, ErrorBody(MissingHeaderError)) && db.rows == old(db.rows)
    ensures Truthy(authorization) ==> reply.status == 200 || reply.status == 500
    ensures Truthy(authorization) && reply.status == 500 ==> db.rows == old(db.rows) && reply.body.ErrorBody?
    ensures Truthy(authorization) && response.Err? ==> reply == Response(500, ErrorBody(ErrorMessage(response.message)))
    ensures Truthy(authorization) && response.Ok? && !response.value.ok ==>
      reply == Response(500, ErrorBody(NewsApiError(response.value.status, response.value.statusText)))
    ensures Truthy(authorization) && response.Ok? && response.value.ok && response.value.articles.GetOr([]) == [] ==>
      reply == Response(500, ErrorBody(NoArticlesError))
    ensures Truthy(authorization) && response.Ok? && response.value.ok && response.value.articles.GetOr([]) != [] ==>
      var (out, t) := Run(old(db.rows), response.value.articles.value, llm, rejects, Tally(0, []));
      reply == Response(200, SummaryBody(SummaryOf(t.processedCount, t.errors))) && db.rows == out
  {
    if !Truthy(authorization) {
      return Response(401, ErrorBody(MissingHeaderError));
    }
    var result := FetchAndProcess(db, response, llm, rejects);
    match result {
      case Ok(summary) => reply := Response(200, SummaryBody(summary));
      case Err(message) => reply := Response(500, ErrorBody(ErrorMessage(message)));
    }
  }
}
