# Trump Tracker, modelled in Dafny

Trump Tracker is a news site. Server functions fetch Trump-related articles
from NewsAPI and have a language model rewrite each title and description in
neutral wording. The rows are stored in a `news_headlines` table. The web
application shows the rewrites next to the originals:

- a landing page with one spotlight article;
- a subscriber dashboard with search, date and source filters and an
  infinitely scrolling feed;
- a public page for a shared article;
- a comment thread under each article;
- a sign-up form and the page that waits for a new subscription to
  activate;
- a chat function that ranks stored articles, X posts and NewsAPI results
  as context for the model's answer.

Each text carries a heuristic "neutrality score".

This project models the logic of those parts and proves properties of it:

- the two neutrality scores (the pattern and sentence score of the utility
  module, and the word-overlap score of the landing and share pages);
- relative publication times;
- the dashboard's filters and source list;
- the paging state of the feed and its real-time insert handler;
- the four-tier spotlight query;
- comment loading and posting;
- the two ingestion functions and their duplicate checks;
- the X token cache;
- the chat function's term extraction, scoring and top-five ranking;
- sign-up validation;
- the subscription poll;
- the application's routes and page chrome.

How the model is shaped:

- **Time.** Times are integers in milliseconds, and the current time is a
  parameter.
- **The database.** A table is a sequence of rows. A table the code writes
  to is a class with a `rows` field.
- **Outside services.**
  - The language model and NewsAPI are function parameters.
  - Query and insert failures are function parameters or `Result` values.
- **Asynchronous handlers.** A hook whose guard depends on an in-flight
  request is split into the part before the `await` and the part after it:
  - `InfiniteNews.NewsFeed.StartFetch` / `FinishFetch`;
  - `Comments.CommentsState.BeginAddComment` / `FinishAddComment`.
- **Scores.** Scores are real numbers, and `Math.round` of a non-negative
  number is `(x + 0.5).Floor`.

Shared modules:

- `Wrappers`: `Option` and `Result`.
- `Text`: the JavaScript string primitives the code relies on (`\s`, `\w`,
  `split`, `includes`, `trim`, non-overlapping match counts, `new Set`
  de-duplication).
- `Sequences`: filtering, a stable descending sort and prefixes.
- `Headlines`: the stored headline record.
- `NewsTable`: what the two ingestion functions share.
- `TimeAgo`: the relative time used by the dashboard and by the share page.
- `WordOverlap`: the score the landing and share pages share.

## Model

| member | source | states |
|---|---|---|
| NeutralityScore.PatternScore | src/utils/neutralityScore.ts:37-46 | ten points per whole-word match of any pattern group: a multiple of ten, positive exactly when some group matches |
| NeutralityScore.PatternScorePositive | src/utils/neutralityScore.ts:4-17 | a pattern score is positive exactly when some word of some group occurs in the lower-cased text between word boundaries (the `\b(..)\b/gi` patterns) |
| NeutralityScore.Sentences | src/utils/neutralityScore.ts:49-50 | every sentence is non-empty and contains none of `.`, `!`, `?` |
| NeutralityScore.SentencesKeepText | src/utils/neutralityScore.ts:49-50 | the sentences, joined, are exactly the text with its terminators removed: nothing else is lost or reordered |
| NeutralityScore.SentencesOfClean | src/utils/neutralityScore.ts:49-50 | non-empty text without `.`, `!` or `?` is a single sentence |
| NeutralityScore.SentencesAppend | src/utils/neutralityScore.ts:49-50 | a terminator between two texts separates their sentences: the sentences of `a + [t] + b` are those of `a` followed by those of `b` |
| NeutralityScore.QuotePairsHalf | src/utils/neutralityScore.ts:60-61 | the number of `"..."` matches is half the number of quote characters, rounded down |
| NeutralityScore.LengthScore | src/utils/neutralityScore.ts:56-57 | the length penalty lies in 0..20 and is 0 for sentences of equal length |
| NeutralityScore.QuoteScore | src/utils/neutralityScore.ts:60-62 | a multiple of fifteen, and 0 when both sentences hold the same number of quote characters |
| NeutralityScore.BiasScore | src/utils/neutralityScore.ts:52-65 | the bias over the sentence pairs is never negative |
| NeutralityScore.BiasOfSelf | src/utils/neutralityScore.ts:52-65 | identical sentence lists carry no bias |
| NeutralityScore.BiasOfNothing | src/utils/neutralityScore.ts:53 | original sentences without a counterpart add nothing, so with either side empty the bias is 0 |
| NeutralityScore.Clamp | src/utils/neutralityScore.ts:68-69 | the clamped score lies in 0..100 and equals its input when that already lies there |
| NeutralityScore.CalculateNeutralityScore | src/utils/neutralityScore.ts:26-77 | all metrics are 0 when either text is missing or empty; the final score is an integer in 0..100; both pattern scores are multiples of ten; the bias is never negative |
| NeutralityScore.FinalScoreFormula | src/utils/neutralityScore.ts:68-75 | the final score is the rounded clamp of 100 minus emotional plus neutral minus bias |
| NeutralityScore.UnchangedCalmTextScoresFull | src/utils/neutralityScore.ts:26-77 | a text without emotional words, compared with itself, scores 100 |
| NeutralityScore.EmotionOnlyAgainstBareRewrite | src/utils/neutralityScore.ts:37-75 | against a rewrite with no neutral word and no sentence, the score is 100 minus ten per emotional match, floored at 0 |
| NeutralityScore.Tier | src/utils/neutralityScore.ts:79-92 | the five tiers are numbered 0..4 |
| NeutralityScore.NeutralityLabel | src/utils/neutralityScore.ts:79-85 | the label is the one of the score's tier |
| NeutralityScore.NeutralityColor | src/utils/neutralityScore.ts:87-92 | the colour is the one of the score's tier |
| NeutralityScore.TierMonotone | src/utils/neutralityScore.ts:79-92 | a higher score never gets a lower tier |
| NeutralityScore.LabelMatchesColor | src/utils/neutralityScore.ts:79-92 | two scores share a label exactly when they share a colour, exactly when they share a tier |
| WordOverlap.WordsOf | src/components/Home.tsx:11-12 | splitting on white space always yields at least one token |
| WordOverlap.CommonWords | src/components/Home.tsx:13 | each original token is kept, with all its repeats, exactly when it occurs among the rewrite's tokens |
| WordOverlap.OverlapScore | src/components/Home.tsx:6-17 | 0 when either text is empty or missing, otherwise a whole percentage in 0..100 |
| WordOverlap.Percent | src/components/Home.tsx:14-16 | the rounded percentage of tokens not shared lies in 0..100: 100 with nothing shared, 0 with everything shared |
| WordOverlap.SameTextScoresZero | src/components/Home.tsx:6-17 | a text compared with itself scores 0 |
| WordOverlap.DisjointTextsScoreFull | src/components/Home.tsx:6-17 | texts without a common lower-cased token score 100 |
| Home.TitleScore | src/components/Home.tsx:23-25 | 85 without a spotlight, otherwise the overlap score of the two titles; always 0..100 |
| Home.DescriptionScore | src/components/Home.tsx:27-29 | 0 unless both descriptions are present and non-empty; always 0..100 |
| Home.AverageScore | src/components/Home.tsx:31 | the average is always a percentage 0..100 |
| Home.RoundPercent | src/components/Home.tsx:31 | rounding keeps a percentage within 0..100 |
| Home.AverageScoreCases | src/components/Home.tsx:31 | with an original description the sum is halved even when the rewrite has no description; otherwise the title score is shown |
| Home.FirstParagraph | src/components/Home.tsx:116-117 | the collapsed card shows the first paragraph of the rewritten description when it is non-empty, else the original description |
| Home.RemainingParagraphs | src/components/Home.tsx:137-140 | nothing is listed while the card is collapsed |
| Home.ParagraphsReassemble | src/components/Home.tsx:116-140 | when the rewrite's first `\n\n` paragraph is not empty (otherwise the card falls back to the original description), the collapsed paragraph and the expanded ones are exactly the paragraphs of the rewrite, and joining them gives it back |
| Home.DisplayTitle | src/components/Home.tsx:104 | the title shown is the rewrite when non-empty, otherwise the original |
| Share.Matching | src/components/Share.tsx:58-62 | the rows selected are exactly the completed rows with the id |
| Share.FetchHeadline | src/components/Share.tsx:56-90 | loading ends; no id gives "No article ID provided"; a headline is set exactly when the query succeeds with one matching row, and then it has the id and is completed; otherwise "Article not found" |
| Share.ShareView | src/components/Share.tsx:92-120 | the render branches in order: spinner, then not-found, then the preview for visitors who are signed out or not subscribed, then the dashboard redirect |
| Share.LoadedView | src/components/Share.tsx:56-120 | after loading, a subscriber is redirected exactly when the article was found, and a missing id always shows not-found |
| Share.PreviewParagraphs | src/components/Share.tsx:154 | at most the first two paragraphs of the rewritten description, none without one |
| Share.TitleScore | src/components/Share.tsx:121 | the title score is a percentage |
| Share.DescriptionScore | src/components/Share.tsx:122-124 | 0 unless both descriptions are present, otherwise a percentage |
| Share.AverageScore | src/components/Share.tsx:125 | the rounded half-sum when the original description is present, else the title score; a percentage |
| Share.AverageMatchesHome | src/components/Share.tsx:121-125 | the share page and the landing page give the same article the same average |
| TimeAgo.FormatTimeAgo | src/components/Dashboard.tsx:41-60 | "Just now" under a minute, minutes 1..59 under an hour, hours 1..23 under a day, the locale text beyond |
| TimeAgo.FormatTimeAgoFloors | src/components/Share.tsx:25-46 | the minutes and hours shown are the elapsed time rounded down |
| TimeAgo.LaterNeverYounger | src/components/Dashboard.tsx:41-60 | as the clock advances a headline never looks younger |
| TimeAgo.RenderInjective | src/components/Dashboard.tsx:47-55 | distinct buckets render as distinct texts |
| Dashboard.FormatDescription | src/components/Dashboard.tsx:37-39 | every kept line is a non-blank, untrimmed `\n`-separated line of the description, and every non-blank line is kept |
| Dashboard.FormatDescriptionKeepsLines | src/components/Dashboard.tsx:37-39 | without blank lines, joining the kept lines gives the description back |
| Dashboard.FormatDescriptionLine | src/components/Dashboard.tsx:37-39 | a single line comes back as itself when it is not blank and is dropped when it is |
| Dashboard.FormatDescriptionAppend | src/components/Dashboard.tsx:37-39 | the lines of `a + "\n" + b` are the lines of `a` followed by those of `b`, so order and repeated lines are kept |
| Dashboard.FilterInTurn | src/components/Dashboard.tsx:126-151 | applying the search, start, end and source filters in turn keeps exactly the headlines that pass all of them |
| Dashboard.ShownMatchesFilters | src/components/Dashboard.tsx:123-157 | with a filter active, a headline is shown exactly when it is loaded and matches every active filter |
| Dashboard.ClearedFiltersShowAll | src/components/Dashboard.tsx:153-156 | with no filter active, everything loaded is shown, or the examples when nothing is loaded |
| Dashboard.Narrow | src/components/Dashboard.tsx:124-151 | the copy-and-narrow steps yield the loaded headlines that match the filters, in loaded order |
| Dashboard.ToggleExpanded | src/components/Dashboard.tsx:166-174 | cards with the id have their flag flipped and nothing else changed; the others stay |
| Dashboard.ToggleTwice | src/components/Dashboard.tsx:166-174 | toggling the same card twice restores the list |
| Dashboard.LexTotal | src/components/Dashboard.tsx:105 | the default string order compares any two strings |
| Dashboard.LexAntisymmetric | src/components/Dashboard.tsx:105 | strings ordered both ways are equal |
| Dashboard.LexTransitive | src/components/Dashboard.tsx:105 | the default string order is transitive |
| Dashboard.InsertSourceAscending | src/components/Dashboard.tsx:105 | inserting into an ascending list keeps it ascending |
| Dashboard.SortSources | src/components/Dashboard.tsx:105 | the sort is an ascending permutation of its input |
| Dashboard.UniqueSources | src/components/Dashboard.tsx:102-107 | each loaded source name exactly once, in ascending order, and no other |
| Dashboard.DashboardView | src/components/Dashboard.tsx:260-274 | spinner while loading, then login without a user, then pricing without an active subscription, else the feed |
| Dashboard.DashboardState.FilterHeadlines | src/components/Dashboard.tsx:123-157 | the list on screen becomes the shown headlines for the current filters |
| Dashboard.DashboardState.ClearFilters | src/components/Dashboard.tsx:159-164 | all filter fields are reset and no filter is active |
| Dashboard.DashboardState.ToggleExpand | src/components/Dashboard.tsx:166-174 | the list on screen is the toggled list |
| Dashboard.DashboardState.UpdateSources | src/components/Dashboard.tsx:102-107 | the sources are replaced by the unique sorted names only when headlines are loaded |
| InfiniteNews.Collapsed | src/hooks/useInfiniteNews.ts:92 | every fetched row is kept in order with its expanded flag cleared |
| InfiniteNews.SelectPage | src/hooks/useInfiniteNews.ts:69-81 | the rows read are the window of at most ten rows starting at `from`, or at the top for a refresh |
| InfiniteNews.MergeKeepsPrefix | src/hooks/useInfiniteNews.ts:94-105 | the list already shown stays in front, unchanged |
| InfiniteNews.MergeKeepsDistinct | src/hooks/useInfiniteNews.ts:94-105 | a list without repeated ids stays without repeated ids |
| InfiniteNews.MergeCovers | src/hooks/useInfiniteNews.ts:94-105 | every fetched and every listed id is listed afterwards |
| InfiniteNews.MergeFrom | src/hooks/useInfiniteNews.ts:94-105 | nothing is listed that was neither listed nor fetched |
| InfiniteNews.MergeAppendsNew | src/hooks/useInfiniteNews.ts:94-105 | fetched rows with new, distinct ids are appended as they are |
| InfiniteNews.MergeNew | src/hooks/useInfiniteNews.ts:96-104 | the copy-and-push loop computes the merge |
| InfiniteNews.NewsFeed.StartFetch | src/hooks/useInfiniteNews.ts:62-81 | nothing is requested while a fetch is in flight; otherwise loading starts, the error is cleared and the page or the top is requested |
| InfiniteNews.NewsFeed.FinishFetch | src/hooks/useInfiniteNews.ts:87-121 | a failure sets the error and stops paging; rows replace the list on a refresh or merge into it and advance the page; a count sets the total and `hasMore`; a refresh reopens the channel |
| InfiniteNews.NewsFeed.OnInsert | src/hooks/useInfiniteNews.ts:43-55 | ignored while refreshing; otherwise a new id is listed first and the total grows by one |
| InfiniteNews.NewsFeed.Reset | src/hooks/useInfiniteNews.ts:130-138 | back to an empty first page with `hasMore`, no error, no total, refreshing, channel closed |
| InfiniteNews.InsertKeepsDistinct | src/hooks/useInfiniteNews.ts:47-50 | the insert handler keeps ids distinct and lists the inserted id |
| InfiniteNews.PagingCoversTable | src/hooks/useInfiniteNews.ts:77-90 | the k-th fetch reads rows from k times the page size, and `hasMore` says exactly whether rows lie beyond that page |
| InfiniteNews.FailedFetchMessage | src/hooks/useInfiniteNews.ts:110-113 | a failed fetch shows the error's own message when it has one, else the fixed text |
| Spotlight.Newest | src/hooks/useSpotlightNews.ts:46-47 | a row exactly when there are rows, and no row is newer |
| Spotlight.FirstTier | src/hooks/useSpotlightNews.ts:39-106 | the first of the four queries, in order, that finds a row, every earlier one finding none |
| Spotlight.TiersNest | src/hooks/useSpotlightNews.ts:39-100 | every tier's rows also pass the last query, and the first two tiers' rows pass the third |
| Spotlight.NoTierIffNoTitledRow | src/hooks/useSpotlightNews.ts:94-106 | no query finds a row exactly when no completed row has a rewritten title |
| Spotlight.SpotlightState.TryTier | src/hooks/useSpotlightNews.ts:49-54 | a failing query sets the error; one with rows sets its newest row; either ends the fetch |
| Spotlight.SpotlightState.FetchSpotlight | src/hooks/useSpotlightNews.ts:39-112 | a failing query reached before a hit sets the error; otherwise the newest row of the first tier that finds one; loading ends |
| Spotlight.ChosenIsNewestOfTier | src/hooks/useSpotlightNews.ts:39-106 | the chosen row is stored, completed, has a rewritten title and no row of its tier is newer |
| Comments.BuildComment | src/hooks/useComments.ts:65-70 | trimmed text, trimmed name or "Anonymous" when blank, status visible |
| Comments.BuiltCommentNotBlank | src/hooks/useComments.ts:59-70 | a comment offered with non-blank text never has blank text or name |
| Comments.VisibleFor | src/hooks/useComments.ts:33-38 | newest first, and a permutation of the headline's visible rows |
| Comments.VisibleForExactly | src/hooks/useComments.ts:33-38 | a comment is loaded exactly when it is stored for the headline and visible |
| Comments.CommentTable.Insert | src/hooks/useComments.ts:65-70 | the stored row is appended |
| Comments.CommentsState.FetchComments | src/hooks/useComments.ts:28-48 | the headline's visible comments, or the load error with the list kept; loading ends |
| Comments.CommentsState.BeginAddComment | src/hooks/useComments.ts:58-63 | refused for blank text or while posting; otherwise marks posting, clears the error and returns the record |
| Comments.CommentsState.FinishAddComment | src/hooks/useComments.ts:72-89 | a failed insert shows the post error, stores nothing and leaves the thread, loading flag and success message; otherwise the row is stored, success shown and the thread reloaded; posting ends |
| Comments.PostedCommentShown | src/hooks/useComments.ts:65-83 | a posted comment appears in the reloaded thread |
| NewsTable.CountUrl | supabase/functions/scheduled-news-fetch/index.ts:109-113 | no more matches than rows, and none exactly when no row has the URL |
| NewsTable.CountUrlAppend | supabase/functions/scheduled-news-fetch/index.ts:109-113 | appending a row adds one match exactly when it has the URL |
| NewsTable.ExistsIffStored | supabase/functions/scheduled-news-fetch/index.ts:109-118 | with unique URLs the `.single()` duplicate check is plain membership |
| NewsTable.AppendKeepsUnique | supabase/functions/scheduled-news-fetch/index.ts:115-137 | appending a row with a new URL keeps URLs unique |
| NewsTable.HeadlineTable.Insert | supabase/functions/scheduled-news-fetch/index.ts:127-137 | the row is appended |
| NewsTable.ApplyReply | supabase/functions/scheduled-news-fetch/index.ts:46-50 | an empty or failed completion gives back the input; a non-empty input never becomes empty |
| ScheduledNewsFetch.NeutralizeText | supabase/functions/scheduled-news-fetch/index.ts:26-51 | empty stays empty; a failed or empty completion returns the input; non-empty stays non-empty |
| ScheduledNewsFetch.Latest | supabase/functions/scheduled-news-fetch/index.ts:55-65 | a stored time, none exactly without rows |
| ScheduledNewsFetch.FromDate | supabase/functions/scheduled-news-fetch/index.ts:55-65 | the newest stored time, or a day before now when nothing is stored |
| ScheduledNewsFetch.InsertedRow | supabase/functions/scheduled-news-fetch/index.ts:121-137 | an inserted row keeps title, URL, time and source, has the title as rewritten by `NeutralizeText` (never empty), the description and its `NeutralizeText` rewrite exactly when the article has a non-empty description, and no status |
| ScheduledNewsFetch.SkippedExactly | supabase/functions/scheduled-news-fetch/index.ts:103-146 | skipped exactly when incomplete or already stored; an error exactly when the insert is rejected |
| ScheduledNewsFetch.BatchDuplicateSkipped | supabase/functions/scheduled-news-fetch/index.ts:109-118 | a second article with a just-inserted URL is skipped |
| ScheduledNewsFetch.RunCounts | supabase/functions/scheduled-news-fetch/index.ts:101-147 | each article adds to exactly one of processed, skipped and errors |
| ScheduledNewsFetch.RunAppends | supabase/functions/scheduled-news-fetch/index.ts:101-147 | one row is appended per processed article and none otherwise; stored rows stay in front |
| ScheduledNewsFetch.RunKeepsUnique | supabase/functions/scheduled-news-fetch/index.ts:101-147 | stored URLs stay unique whatever the batch repeats |
| ScheduledNewsFetch.ProcessArticles | supabase/functions/scheduled-news-fetch/index.ts:94-150 | the loop's table and tallies are those of the run from empty tallies |
| ScheduledNewsFetch.AuthorizedExactly | supabase/functions/scheduled-news-fetch/index.ts:160-161 | let through exactly with the header `Bearer <key>` |
| ScheduledNewsFetch.Handle | supabase/functions/scheduled-news-fetch/index.ts:152-196 | 401 without the key; 500 with the error when NewsAPI fails, table unchanged; else 200 with the run's tallies and table |
| FetchNews.NeutralizeText | supabase/functions/fetch-news/index.ts:25-71 | empty stays empty; a failed or empty completion returns the input; non-empty stays non-empty |
| FetchNews.InsertedRow | supabase/functions/fetch-news/index.ts:114-143 | an inserted row is completed, with the title rewritten as a headline, and a description exactly when the article has one |
| FetchNews.SkippedExactly | supabase/functions/fetch-news/index.ts:108-129 | skipped exactly when incomplete or already stored |
| FetchNews.RunTallies | supabase/functions/fetch-news/index.ts:106-156 | at most one tally per article; the count is the number of rows appended, all completed, stored rows in front |
| FetchNews.RunKeepsUnique | supabase/functions/fetch-news/index.ts:106-156 | stored URLs stay unique |
| FetchNews.ProcessLoop | supabase/functions/fetch-news/index.ts:103-156 | the loop's table and tallies are those of the run |
| FetchNews.SummaryOf | supabase/functions/fetch-news/index.ts:158-163 | the count, the message with the count, and errors left out exactly when there are none |
| FetchNews.FetchAndProcess | supabase/functions/fetch-news/index.ts:73-168 | transport, status and no-articles errors leave the table unchanged; otherwise the run's summary and table |
| FetchNews.ErrorMessage | supabase/functions/fetch-news/index.ts:212 | never empty, the error's own message when it has one |
| FetchNews.Handle | supabase/functions/fetch-news/index.ts:170-221 | 401 without a header and nothing fetched; every failure a 500 with its message and the table unchanged; else 200 with the run's summary |
| XAuth.ExpiryFor | supabase/functions/x-auth/index.ts:43-48 | the recorded lifetime is the grant less an hour, in milliseconds |
| XAuth.ShortTokenNeverReused | supabase/functions/x-auth/index.ts:21-23 | a token granted for at most an hour is never reused |
| XAuth.LongTokenReused | supabase/functions/x-auth/index.ts:21-23 | a longer grant is reused until an hour before it lapses |
| XAuth.TokenCache.GetToken | supabase/functions/x-auth/index.ts:17-49 | a fresh cached token is returned untouched; otherwise an error leaves the cache, and a success caches and returns the new token |
| XAuth.Respond | supabase/functions/x-auth/index.ts:57-75 | 200 with the token exactly on success, else 500 with the message |
| XAuth.Handle | supabase/functions/x-auth/index.ts:51-77 | a fresh cached token is answered 200 and the cache kept; a transport error is answered 500 with its message and a refused request 500 with the fixed message, the cache kept; a new token is answered 200 and cached until an hour before it lapses |
| ChatRanker.NormalizeChar | supabase/functions/chat/index.ts:62 | every character becomes a lower-case word character or white space |
| ChatRanker.Normalize | supabase/functions/chat/index.ts:62 | length kept, character by character |
| ChatRanker.EntityMatches | supabase/functions/chat/index.ts:68 | every match is `EntityShaped`: letters and white space only, starting upper-case and ending lower-case, an upper-case letter only after white space and always followed by a lower-case one, a non-space after white space always upper-case; every match occurs in the question at a place where the pattern cannot extend it (`OccursWhole`: no lower-case letter and no further `\s+[A-Z][a-z]+` follows); and every upper-case letter followed by a lower-case one, from the start index on, lies inside some match |
| ChatRanker.EntityAt | supabase/functions/chat/index.ts:68 | a match starts exactly at an upper-case letter followed by a lower-case one, is at least two characters long, keeps the entity shape, and is as long as it can be: neither a lower-case letter nor a further white-space-and-capitalised-word follows it |
| ChatRanker.MoreWords | supabase/functions/chat/index.ts:68 | the greedy `(?:\s+[A-Z][a-z]+)*` group: starts with white space when not empty, keeps the entity shape, and no further `\s+[A-Z][a-z]+` follows it |
| ChatRanker.NextWord | supabase/functions/chat/index.ts:68 | one `\s+[A-Z][a-z]+`: present exactly when white space is followed by an upper-case and a lower-case letter, and its lower-case run is not cut short |
| ChatRanker.CapWord | supabase/functions/chat/index.ts:68 | one `[A-Z][a-z]+`: present exactly at an upper-case letter followed by a lower-case one, and no lower-case letter follows it |
| ChatRanker.ShapedExtends | supabase/functions/chat/index.ts:68 | inside an entity-shaped string, a stretch from the start that ends early can always be extended |
| ChatRanker.EntityAtWhole | supabase/functions/chat/index.ts:68 | the pattern matches an entity-shaped string whole |
| ChatRanker.EntityMatchesWhole | supabase/functions/chat/index.ts:68 | an entity-shaped string is its own single match |
| ChatRanker.JoeNotWhole | supabase/functions/chat/index.ts:68 | "Joe" does not occur whole in "Joe Biden", so `["Joe", "Biden"]` cannot be the matches of "Joe Biden" |
| ChatRanker.EntityCovers | supabase/functions/chat/index.ts:68 | completeness of the scan: every upper-case letter followed by a lower-case one, at or after the start, lies inside some match |
| ChatRanker.EntityShapeExamples | supabase/functions/chat/index.ts:68 | the entity shape admits "Joe Biden" and refuses "Ab cD e", "Joe biden" and " Joe" |
| ChatRanker.TermsWellFormed | supabase/functions/chat/index.ts:60-80 | terms are distinct lower-case words longer than two characters and not stop words |
| ChatRanker.TermsComplete | supabase/functions/chat/index.ts:62-74 | a token is a term exactly when it is longer than two characters and no stop word |
| ChatRanker.EntitiesWellFormed | supabase/functions/chat/index.ts:68-78 | entities are distinct, are `EntityShaped` (capitalised words separated by white space) and occur in the original question where the pattern cannot extend them |
| ChatRanker.ShapedQuestionEntity | supabase/functions/chat/index.ts:68-78 | a question that is one entity-shaped phrase has exactly that phrase as its only entity |
| ChatRanker.JoeBidenEntity | supabase/functions/chat/index.ts:68-78 | "Joe Biden" yields the single entity "Joe Biden" |
| ChatRanker.EntitiesCoverQuestion | supabase/functions/chat/index.ts:68-78 | every capitalised word of the question (an upper-case letter followed by a lower-case one) lies inside some entity, after de-duplication too |
| ChatRanker.TermScore | supabase/functions/chat/index.ts:87-90 | never negative |
| ChatRanker.EntityScore | supabase/functions/chat/index.ts:93-96 | never negative |
| ChatRanker.RelevanceScore | supabase/functions/chat/index.ts:83-99 | never negative, 0 without terms and entities |
| ChatRanker.TermScorePositive | supabase/functions/chat/index.ts:87-90 | positive exactly when some term occurs in the text |
| ChatRanker.EntityScorePositive | supabase/functions/chat/index.ts:93-96 | positive exactly when some entity occurs case-insensitively |
| ChatRanker.RelevancePositive | supabase/functions/chat/index.ts:83-99 | positive exactly when a term or an entity occurs |
| ChatRanker.EntityScoreAppend | supabase/functions/chat/index.ts:93-96 | one more entity adds two points per case-insensitive occurrence |
| ChatRanker.RelevanceAddEntity | supabase/functions/chat/index.ts:83-99 | one more entity adds two points per occurrence to the relevance |
| ChatRanker.RecentQualifies | supabase/functions/chat/index.ts:148-163 | a recent article scores at least 5 and always passes the filter |
| ChatRanker.HistoricalQualifies | supabase/functions/chat/index.ts:166-182 | a historical article passes exactly when relevance exceeds a fifth of its age in days less one |
| ChatRanker.TenDayOldUnmatchedDropped | supabase/functions/chat/index.ts:169-181 | an unmatched article ten days old scores 1 and is dropped |
| ChatRanker.PostQualifies | supabase/functions/chat/index.ts:185-205 | an X post with text and non-negative counts scores at least 4 and passes |
| ChatRanker.NewsApiQualifies | supabase/functions/chat/index.ts:209-223 | a NewsAPI article passes exactly when a term or entity occurs in it, else scores 2 |
| ChatRanker.ScorePosts | supabase/functions/chat/index.ts:185-206 | one item per post, and a failure exactly when some post has no text |
| ChatRanker.Rank | supabase/functions/chat/index.ts:228-231 | at most five, as many as qualify up to five, all above 2, descending, drawn from the qualifying items |
| ChatRanker.WithKeyQualified | supabase/functions/chat/index.ts:229 | filtering keeps all items of a score above 2 and none of a lower one |
| ChatRanker.RankStable | supabase/functions/chat/index.ts:229-231 | items of equal score keep their input order |
| ChatRanker.RankKeepsTheBest | supabase/functions/chat/index.ts:229-231 | a qualifying item cut off scores no higher than any kept |
| ChatRanker.FindRelevantContent | supabase/functions/chat/index.ts:102-238 | a scoring exception yields nothing; at most five items, all above 2 |
| ChatRanker.PostWithoutTextEmptiesRanking | supabase/functions/chat/index.ts:186-187 | one X post without text empties the whole ranking |
| ChatRanker.FailedSourcesAreEmpty | supabase/functions/chat/index.ts:139-148 | a source that returned no data counts as empty |
| ChatRanker.NoSourcesNoContent | supabase/functions/chat/index.ts:147-231 | with all sources empty the ranking is empty |
| ChatRanker.Links | supabase/functions/chat/index.ts:306-311 | one link per ranked item with its title and URL |
| ChatRanker.HandleChat | supabase/functions/chat/index.ts:241-333 | 400 exactly without a question; the completion and the ranked links on success; 500 with the message when the completion throws |
| SignUp.Validate | src/components/SignUp.tsx:22-30 | the mismatch is reported first, then a password under six characters; no message exactly when both pass |
| SignUp.ThrownMessage | src/components/SignUp.tsx:48-50 | an `Error`'s own message, otherwise the generic text |
| SignUp.AttemptError | src/components/SignUp.tsx:35-50 | the sign-up error's message or the generic text, "No user data returned" without a user, and an empty error once the checkout is attempted, since the checkout hook (src/hooks/useStripeCheckout.ts:10-60) catches its own failures |
| SignUp.FailedAttemptReported | src/components/SignUp.tsx:35-50 | an attempt that fails before the checkout leaves a message, unless the sign-up `Error` had an empty one |
| SignUp.SignUpForm.Submit | src/components/SignUp.tsx:18-32 | the account is requested exactly when the checks pass; the error is the first failing check's message |
| SignUp.SignUpForm.Settle | src/components/SignUp.tsx:48-53 | a failed sign-up sets its message; an attempted checkout leaves the cleared error; loading ends |
| SignUp.HandleSignUp | src/components/SignUp.tsx:18-54 | a failed check shows its message and requests nothing; otherwise loading ends with the sign-up's message, or with an empty error once the checkout is attempted, whether or not it succeeds |
| SubscriptionSuccess.PollFrom | src/components/SubscriptionSuccess.tsx:54-74 | at most ten checks, and never both active and timed out |
| SubscriptionSuccess.ActiveIffFrom | src/components/SubscriptionSuccess.tsx:23-74 | the status becomes active exactly when some check answers active after only inactive ones, while still mounted |
| SubscriptionSuccess.TimedOutIffFrom | src/components/SubscriptionSuccess.tsx:59-70 | the poll gives up exactly when the ten answers are all inactive and the page is still mounted at the tenth |
| SubscriptionSuccess.StopsAtFirstActive | src/components/SubscriptionSuccess.tsx:59-70 | the poll stops right after the first active answer |
| SubscriptionSuccess.UnmountedPollsNothing | src/components/SubscriptionSuccess.tsx:59-81 | once unmounted no check is made and nothing is set |
| SubscriptionSuccess.SubscriptionPage.Poll | src/components/SubscriptionSuccess.tsx:54-74 | the loop makes the checks and sets the status, error and redirect the poll specification gives |
| SubscriptionSuccess.Mount | src/components/SubscriptionSuccess.tsx:14-81 | without a user, to the login page with no check and the page untouched; otherwise the checks, status, error and redirect the poll gives |
| AppRoutes.ChromeFor | src/App.tsx:21-49 | the footer always; the header exactly off the dashboard, the chat and paths starting with `/share/` |
| AppRoutes.BareShareShowsHeader | src/App.tsx:22 | the bare `/share` keeps the header, `/share/` loses it |
| AppRoutes.Route | src/App.tsx:34-45 | a fixed path gives its page, `/share/<id>` the shared page, anything else not-found |
| AppRoutes.HeaderFollowsPage | src/App.tsx:21-45 | the header is hidden on the dashboard, chat and shared pages and shown on every other named page |
| AppRoutes.ShareRoute | src/App.tsx:22-42 | a share link routes to the id and hides the header |
| AppRoutes.NestedShareHidesHeader | src/App.tsx:22-45 | a nested share path routes to not-found yet hides the header |

## Left out

- Network requests, database queries, timers and logging. Their outcomes
  are parameters: query replies, insert rejections, the model's
  completion, NewsAPI replies and the current time.
- The two ingestion functions' query text, the language-model prompts and
  the request parameters. The model is given whether a text is a title.
- Unicode: `toLowerCase` is modelled on ASCII letters only. Lengths are
  counted in characters, not UTF-16 code units.
- Locale-dependent formatting (`toLocaleDateString`, `toLocaleString`). The
  time bucket is modelled; its text is not.
- Floating point: scores are exact reals, so rounding differences in e.g.
  `daysOld * 0.2` are not modelled.
- Identifiers and timestamps the database assigns. They are parameters.
  Ties in `order` fall back to table order.
- ChatRanker.ScoreNewsApi, FetchNews and ScheduledNewsFetch: a NewsAPI
  article with no `source` object is not modelled; every article is given a
  source name. Reading `article.source.name` would throw:
  - in the chat function (supabase/functions/chat/index.ts:218), the catch
    at lines 235-237 would then return an empty ranking for the whole request;
  - in the two fetch functions (fetch-news/index.ts:141,
    scheduled-news-fetch/index.ts:136), while the row is being built.
- `error.toString()` details in the 500 bodies. So is the non-`Error`
  branch of the X token function, whose message is a parameter.
- Concurrency between handlers:
  - The real-time insert handler reads the `isRefreshing` value it
    captured. It is modelled as reading the current one.
  - Two concurrent fetches are not modelled, beyond the `loading` guard.
- ChatRanker.FindRelevantContent: the token request and the four queries
  are not modelled.
- XAuth: `Date.now()` is read twice in the code. One `now` is used here.
- The X token's use inside the chat function is left out, since the token
  is fetched there but not used.
- The spotlight's 15-minute refresh interval and the comments' success
  message timeout are left out.
- The subscription page's 1500 ms redirect timer and one-second pause are
  counted as instants. The redirect is recorded as `redirectScheduled`.
- Stripe checkout internals are left out. Checkout is an outcome of the
  sign-up attempt. A checkout failure is caught inside the checkout hook
  (src/hooks/useStripeCheckout.ts:53-56) and shown only through the hook's
  own error state, which the sign-up form does not model.
- React Router's case-insensitive and trailing-slash matching. Paths are
  compared exactly.
- JSX layout, styling and the components outside the routes above.
- FetchNews.Handle, ScheduledNewsFetch.Handle, XAuth.Handle and
  ChatRanker.HandleChat do not model the CORS preflight (`OPTIONS`) answer.
