/** The public page of a shared article: loading the article by id, choosing
    what to render, and the preview offered to visitors without a subscription
    (the first two paragraphs and the word-overlap score). */
module Share {
  import opened Wrappers
  import opened Text
  import opened Sequences
  import opened Headlines
  import opened WordOverlap
  import Home

  const NoIdError: string := "No article ID provided"
  const NotFoundError: string := "Article not found"
  const ParagraphBreak: string := "\n\n"
  const PreviewParagraphCount: nat := 2

  // ---------------------------------------------------------------- loading

  datatype FetchState = FetchState(headline: Option<Headline>, error: Option<string>, loading: bool)

  /** The rows that `.eq('id', id).eq('neutralization_status', 'completed')` selects. */
  function Matching(table: seq<Headline>, id: string): (r: seq<Headline>)
    ensures forall i :: 0 <= i < |r| ==> r[i].id == id && IsCompleted(r[i])
    ensures forall i :: 0 <= i < |table| && table[i].id == id && IsCompleted(table[i]) ==> table[i] in r
  {
    Filter(table, (h: Headline) => h.id == id && IsCompleted(h))
  }

  /** The `fetchHeadline` effect. Without an id nothing is queried; `.single()`
      delivers a row only when exactly one matches, and every failure
      (`queryFails` standing for a transport error) becomes "Article not found". */
  function FetchHeadline(id: Option<string>, table: seq<Headline>, queryFails: bool): (s: FetchState)
    ensures !s.loading
    ensures !Truthy(id) ==> s == FetchState(None, Some(NoIdError), false)
    ensures s.headline.Some? <==> Truthy(id) && !queryFails && |Matching(table, id.value)| == 1
    ensures s.headline.Some? ==> s.error.None? && s.headline.value.id == id.value && IsCompleted(s.headline.value)
    ensures Truthy(id) && s.headline.None? ==> s.error == Some(NotFoundError)
  {
    if !Truthy(id) then FetchState(None, Some(NoIdError), false)
    else
      var rows := Matching(table, id.value);
      if queryFails || |rows| != 1 then FetchState(None, Some(NotFoundError), false)
      else FetchState(Some(rows[0]), None, false)
  }

  // ---------------------------------------------------------------- render

  datatype View = Spinner | NotFound | Preview | ToDashboard

  /** The render branches, in their order: any pending load shows a spinner,
      then an error or a missing article shows "not found", then visitors who
      are signed out or not subscribed see the preview, and subscribers are
      sent to the dashboard. */
  function ShareView(loading: bool, authLoading: bool, subscriptionLoading: bool,
                     error: Option<string>, headline: Option<Headline>,
                     signedIn: bool, subscriptionActive: bool): (v: View)
    ensures v == Spinner <==> loading || authLoading || subscriptionLoading
    ensures v == NotFound <==>
      !(loading || authLoading || subscriptionLoading) && (Truthy(error) || headline.None?)
    ensures v == Preview <==>
      !(loading || authLoading || subscriptionLoading) && !Truthy(error) && headline.Some?
      && (!signedIn || !subscriptionActive)
    ensures v == ToDashboard <==>
      !(loading || authLoading || subscriptionLoading) && !Truthy(error) && headline.Some?
      && signedIn && subscriptionActive
  {
    if loading || authLoading || subscriptionLoading then Spinner
    else if Truthy(error) || headline.None? then NotFound
    else if !signedIn || !subscriptionActive then Preview
    else ToDashboard
  }

  /** After the load has finished, a subscriber is sent to the dashboard exactly
      when the article was found, and a missing id always shows "not found". */
  lemma LoadedView(id: Option<string>, table: seq<Headline>, queryFails: bool)
    ensures var s := FetchHeadline(id, table, queryFails);
      && (ShareView(s.loading, false, false, s.error, s.headline, true, true) == ToDashboard
          <==> Truthy(id) && !queryFails && |Matching(table, id.value)| == 1)
      && (!Truthy(id) ==> ShareView(s.loading, false, false, s.error, s.headline, true, true) == NotFound)
  {
  }

  // ---------------------------------------------------------------- preview

  /** `neutral_description?.split('\n\n').slice(0, 2)`. */
  function PreviewParagraphs(h: Headline): (r: seq<string>)
    ensures |r| <= PreviewParagraphCount
    ensures h.neutralDescription.None? ==> r == []
    ensures h.neutralDescription.Some? ==>
      var parts := Split(h.neutralDescription.value, ParagraphBreak);
      IsPrefix(r, parts) && |r| == if |parts| < PreviewParagraphCount then |parts| else PreviewParagraphCount
  {
    match h.neutralDescription
    case None => []
    case Some(d) =>
      var parts := Split(d, ParagraphBreak);
      parts[..if |parts| < PreviewParagraphCount then |parts| else PreviewParagraphCount]
  }

  function TitleScore(h: Headline): (r: int)
    ensures 0 <= r <= 100
  {
    OverlapScore(h.originalTitle, h.neutralTitle)
  }

  function DescriptionScore(h: Headline): (r: int)
    ensures 0 <= r <= 100
    ensures !Truthy(h.originalDescription) || !Truthy(h.neutralDescription) ==> r == 0
  {
    if Truthy(h.originalDescription) && Truthy(h.neutralDescription)
    then OverlapScore(h.originalDescription.value, h.neutralDescription)
    else 0
  }

  /** The preview's `averageScore`: a percentage; the rounded half-sum when
      the original description is present, else the title score. */
  function AverageScore(h: Headline): (r: int)
    ensures 0 <= r <= 100
    ensures Truthy(h.originalDescription) ==> r == Round((TitleScore(h) + DescriptionScore(h)) as real / 2.0)
    ensures !Truthy(h.originalDescription) ==> r == TitleScore(h)
  {
    var t, d := TitleScore(h), DescriptionScore(h);
    var x := if Truthy(h.originalDescription) then (t + d) as real / 2.0 else (t + d) as real;
    Home.RoundPercent(x);
    Round(x)
  }

  /** The shared page and the landing page score the same article alike. */
  lemma AverageMatchesHome(h: Headline)
    ensures AverageScore(h) == Home.AverageScore(Some(h))
  {
  }
}
