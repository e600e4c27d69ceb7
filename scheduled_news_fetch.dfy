/** The scheduled ingestion function: it checks the bearer key, asks NewsAPI
    for articles newer than the latest stored one, and stores each new,
    complete article with a neutral rewrite of its title and description,
    counting what it processed, skipped and failed on. */
module ScheduledNewsFetch {
  import opened Wrappers
  import opened Text
  import opened Sequences
  import opened NewsTable

  const MsPerDay: int := 24 * 60 * 60 * 1000
  const UnauthorizedError: string := "Unauthorized"
  const ArticleErrorPrefix: string := "Error processing article: "

  /** `neutralizeText`; `llm` stands for the chat-completion request. */
  function NeutralizeText(text: string, llm: string -> LlmReply): (r: string)
    ensures text == [] ==> r == []
    ensures text != [] && (llm(text).Failed? || !Truthy(llm(text).content)) ==> r == text
    ensures text != [] ==> r != []
  {
    if text == [] then [] else ApplyReply(text, llm(text))
  }

  // --------------------------------------------------------------- from date

  /** The newest stored publication time, when there is a stored row. */
  function Latest(rows: seq<Row>): (r: Option<int>)
    ensures r.None? <==> rows == []
    ensures r.Some? ==> (exists i :: 0 <= i < |rows| && rows[i].publishedAt == r.value)
                        && forall i :: 0 <= i < |rows| ==> rows[i].publishedAt <= r.value
  {
    if rows == [] then None
    else
      var rest := Latest(rows[1..]);
      if rest.None? || rows[0].publishedAt >= rest.value then Some(rows[0].publishedAt)
      else
        assert forall i :: 1 <= i < |rows| ==> rows[i] == rows[1..][i - 1];
        rest
  }

  /** The `from` parameter of the NewsAPI request. */
  function FromDate(rows: seq<Row>, now: int): (from: int)
    ensures rows == [] ==> from == now - MsPerDay
    ensures rows != [] ==> Latest(rows) == Some(from)
  {
    match Latest(rows)
    case Some(t) => t
    case None => now - MsPerDay
  }

  // ---------------------------------------------------------------- one step

  datatype Outcome = Skipped | Inserted(row: Row) | Rejected(message: string)

  /** The row stored for a complete article. */
  function RowFor(a: Article, llm: string -> LlmReply): Row
    requires !Incomplete(a)
  {
    Row(a.title.value,
        NeutralizeText(a.title.value, llm),
        if Truthy(a.description) then a.description else None,
        if Truthy(a.description) then Some(NeutralizeText(a.description.value, llm)) else None,
        a.url.value,
        a.publishedAt,
        a.sourceName,
        None)
  }

  /** One iteration of the loop; `rejects` stands for the insert's error. */
  function Step(rows: seq<Row>, a: Article, llm: string -> LlmReply, rejects: Row -> Option<string>): Outcome {
    if Incomplete(a) || Exists(rows, a.url.value) then Skipped
    else
      var row := RowFor(a, llm);
      match rejects(row)
      case Some(message) => Rejected(ArticleErrorPrefix + message)
      case None => Inserted(row)
  }

  /** An inserted row keeps the article's title, URL, time and source, has
      the title rewritten by the model (never empty), a description, and its
      rewrite, exactly when the article has a non-empty one, and leaves the
      status to the column default. */
  lemma InsertedRow(rows: seq<Row>, a: Article, llm: string -> LlmReply, rejects: Row -> Option<string>)
    requires Step(rows, a, llm, rejects).Inserted?
    ensures var r := Step(rows, a, llm, rejects).row;
      && a.title == Some(r.originalTitle) && a.url == Some(r.url) && r.url != []
      && r.publishedAt == a.publishedAt && r.sourceName == a.sourceName
      && r.neutralTitle == NeutralizeText(r.originalTitle, llm) && r.neutralTitle != [] && r.status.None?
      && (r.originalDescription.Some? <==> Truthy(a.description))
      && (r.neutralDescription.Some? <==> Truthy(a.description))
      && (Truthy(a.description) ==> r.originalDescription == a.description)
      && (Truthy(a.description) ==> r.neutralDescription == Some(NeutralizeText(a.description.value, llm)))
      && (Truthy(a.description) ==> r.neutralDescription.value != [])
      && !Exists(rows, r.url) && rejects(r).None?
  {
  }

  /** Every article either is skipped, or gets inserted, or gets an error. */
  lemma SkippedExactly(rows: seq<Row>, a: Article, llm: string -> LlmReply, rejects: Row -> Option<string>)
    ensures Step(rows, a, llm, rejects).Skipped? <==> Incomplete(a) || Exists(rows, a.url.value)
    ensures Step(rows, a, llm, rejects).Rejected? <==>
      !Incomplete(a) && !Exists(rows, a.url.value) && rejects(RowFor(a, llm)).Some?
  {
  }

  /** A second article with the URL of one just inserted is skipped. */
  lemma BatchDuplicateSkipped(rows: seq<Row>, a: Article, b: Article, llm: string -> LlmReply, rejects: Row -> Option<string>)
    requires UniqueUrls(rows)
    requires Step(rows, a, llm, rejects).Inserted? && b.url == a.url && Truthy(b.title)
    ensures Step(rows + [Step(rows, a, llm, rejects).row], b, llm, rejects) == Skipped
  {
    var r := Step(rows, a, llm, rejects).row;
    ExistsIffStored(rows, r.url);
    CountUrlAppend(rows, r, r.url);
  }

  // --------------------------------------------------------------- the loop

  datatype Results = Results(processed: nat, skipped: nat, errors: seq<string>)

  /** The loop from a given table and tallies to the end of the list. */
  function Run(rows: seq<Row>, articles: seq<Article>, llm: string -> LlmReply, rejects: Row -> Option<string>,
               acc: Results): (seq<Row>, Results)
    decreases |articles|
  {
    if articles == [] then (rows, acc)
    else
      match Step(rows, articles[0], llm, rejects)
      case Skipped => Run(rows, articles[1..], llm, rejects, acc.(skipped := acc.skipped + 1))
      case Inserted(row) => Run(rows + [row], articles[1..], llm, rejects, acc.(processed := acc.processed + 1))
      case Rejected(m) => Run(rows, articles[1..], llm, rejects, acc.(errors := acc.errors + [m]))
  }

  function Total(r: Results): nat { r.processed + r.skipped + |r.errors| }

  /** Each article adds to exactly one tally. */
  lemma {:induction false} RunCounts(rows: seq<Row>, articles: seq<Article>, llm: string -> LlmReply,
                                     rejects: Row -> Option<string>, acc: Results)
    ensures Total(Run(rows, articles, llm, rejects, acc).1) == Total(acc) + |articles|
    ensures Run(rows, articles, llm, rejects, acc).1.processed >= acc.processed
    decreases |articles|
  {
    if articles != [] {
      match Step(rows, articles[0], llm, rejects)
      case Skipped => RunCounts(rows, articles[1..], llm, rejects, acc.(skipped := acc.skipped + 1));
      case Inserted(row) => RunCounts(rows + [row], articles[1..], llm, rejects, acc.(processed := acc.processed + 1));
      case Rejected(m) => RunCounts(rows, articles[1..], llm, rejects, acc.(errors := acc.errors + [m]));
    }
  }

  /** A row is appended for each processed article and for nothing else;
      the stored rows stay in front. */
  lemma {:induction false} RunAppends(rows: seq<Row>, articles: seq<Article>, llm: string -> LlmReply,
                                      rejects: Row -> Option<string>, acc: Results)
    ensures var (out, res) := Run(rows, articles, llm, rejects, acc);
      IsPrefix(rows, out) && |out| == |rows| + res.processed - acc.processed
      && forall i :: |rows| <= i < |out| ==> out[i].url != [] && out[i].neutralTitle != [] && out[i].status.None?
    decreases |articles|
  {
    if articles != [] {
      RunCounts(rows, articles, llm, rejects, acc);
      match Step(rows, articles[0], llm, rejects)
      case Skipped => RunAppends(rows, articles[1..], llm, rejects, acc.(skipped := acc.skipped + 1));
      case Rejected(m) => RunAppends(rows, articles[1..], llm, rejects, acc.(errors := acc.errors + [m]));
      case Inserted(row) =>
        InsertedRow(rows, articles[0], llm, rejects);
        var next := rows + [row];
        RunAppends(next, articles[1..], llm, rejects, acc.(processed := acc.processed + 1));
        PrefixOfExtended(rows, row, Run(next, articles[1..], llm, rejects, acc.(processed := acc.processed + 1)).0);
    }
  }

  /** Stored URLs stay unique, whatever the articles repeat. */
  lemma {:induction false} RunKeepsUnique(rows: seq<Row>, articles: seq<Article>, llm: string -> LlmReply,
                                          rejects: Row -> Option<string>, acc: Results)
    requires UniqueUrls(rows)
    ensures UniqueUrls(Run(rows, articles, llm, rejects, acc).0)
    decreases |articles|
  {
    if articles != [] {
      match Step(rows, articles[0], llm, rejects)
      case Skipped => RunKeepsUnique(rows, articles[1..], llm, rejects, acc.(skipped := acc.skipped + 1));
      case Rejected(m) => RunKeepsUnique(rows, articles[1..], llm, rejects, acc.(errors := acc.errors + [m]));
      case Inserted(row) =>
        ExistsIffStored(rows, row.url);
        AppendKeepsUnique(rows, row);
        RunKeepsUnique(rows + [row], articles[1..], llm, rejects, acc.(processed := acc.processed + 1));
    }
  }

  /** `processArticles` over the table. */
  method ProcessArticles(db: HeadlineTable, articles: seq<Article>, llm: string -> LlmReply,
                         rejects: Row -> Option<string>) returns (results: Results)
    modifies db
    ensures (db.rows, results) == Run(old(db.rows), articles, llm, rejects, Results(0, 0, []))
  {
    results := Results(0, 0, []);
    for i := 0 to |articles|
      invariant Run(db.rows, articles[i..], llm, rejects, results) == Run(old(db.rows), articles, llm, rejects, Results(0, 0, []))
    {
      var article := articles[i];
      assert articles[i..][1..] == articles[i + 1..];
      if !Truthy(article.title) || !Truthy(article.url) {
        results := results.(skipped := results.skipped + 1);
        continue;
      }
      var existing := CountUrl(db.rows, article.url.value) == 1;
      if existing {
        results := results.(skipped := results.skipped + 1);
        continue;
      }
      var neutralTitle := NeutralizeText(article.title.value, llm);
      var neutralDescription := if Truthy(article.description) then Some(NeutralizeText(article.description.value, llm)) else None;
      var row := Row(article.title.value, neutralTitle,
                     if Truthy(article.description) then article.description else None,
                     neutralDescription, article.url.value, article.publishedAt, article.sourceName, None);
      assert row == RowFor(article, llm);
      var insertError := rejects(row);
      if insertError.Some? {
        results := results.(errors := results.errors + [ArticleErrorPrefix + insertError.value]);
        continue;
      }
      db.Insert(row);
      results := results.(processed := results.processed + 1);
    }
  }

  // ---------------------------------------------------------------- handler

  /** The NewsAPI answer: the HTTP status, and the `articles` field when the
      body has one. */
  datatype NewsApiResponse = NewsApiResponse(ok: bool, status: nat, statusText: string, articles: Option<seq<Article>>)

  datatype Body =
    | ErrorBody(error: string)
    | SuccessBody(processed: nat, skipped: nat, errors: seq<string>)
    | FailureBody(error: string)

  datatype Response = Response(status: nat, body: Body)

  /** The request is let through only with the exact bearer key. */
  predicate Authorized(authorization: Option<string>, apiKey: string) {
    Truthy(authorization) && authorization.value == "Bearer " + apiKey
  }

  lemma AuthorizedExactly(authorization: Option<string>, apiKey: string)
    ensures Authorized(authorization, apiKey) <==> authorization == Some("Bearer " + apiKey)
  {
  }

  function NewsApiError(status: nat, statusText: string): string {
    "NewsAPI error: " + NatToString(status) + " " + statusText
  }

  /** The request handler. `newsApi` answers the request made with a given
      `from` time, or fails with a message. */
  method Handle(db: HeadlineTable, authorization: Option<string>, apiKey: string, now: int,
                newsApi: int -> Result<NewsApiResponse>, llm: string -> LlmReply,
                rejects: Row -> Option<string>) returns (response: Response)
    modifies db
    ensures !Authorized(authorization, apiKey) ==>
      response == Response(401, ErrorBody(UnauthorizedError)) && db.rows == old(db.rows)
    ensures Authorized(authorization, apiKey) ==>
      var reply := newsApi(FromDate(old(db.rows), now));
      && (reply.Err? ==> response == Response(500, FailureBody(reply.message)) && db.rows == old(db.rows))
      && (reply.Ok? && !reply.value.ok ==>
            response == Response(500, FailureBody(NewsApiError(reply.value.status, reply.value.statusText)))
            && db.rows == old(db.rows))
      && (reply.Ok? && reply.value.ok ==>
            var (out, res) := Run(old(db.rows), reply.value.articles.GetOr([]), llm, rejects, Results(0, 0, []));
            response == Response(200, SuccessBody(res.processed, res.skipped, res.errors)) && db.rows == out)
  {
    if !Truthy(authorization) || authorization.value != "Bearer " + apiKey {
      return Response(401, ErrorBody(UnauthorizedError));
    }
    var from := FromDate(db.rows, now);
    var reply := newsApi(from);
    if reply.Err? {
      return Response(500, FailureBody(reply.message));
    }
    if !reply.value.ok {
      return Response(500, FailureBody(NewsApiError(reply.value.status, reply.value.statusText)));
    }
    var articles := reply.value.articles.GetOr([]);
    var results := ProcessArticles(db, articles, llm, rejects);
    return Response(200, SuccessBody(results.processed, results.skipped, results.errors));
  }
}
