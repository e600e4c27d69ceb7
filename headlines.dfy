/** The `news_headlines` record as the application code reads and writes it. */
module Headlines {
  import opened Wrappers

  const CompletedStatus: string := "completed"

  /** A stored headline. Times are milliseconds since the epoch. `status` is
      `None` when the inserting code left `neutralization_status` to the
      column's default. `isExpanded` is the client-side flag the feed adds. */
  datatype Headline = Headline(
    id: string,
    originalTitle: string,
    neutralTitle: Option<string>,
    originalDescription: Option<string>,
    neutralDescription: Option<string>,
    neutralSummary: Option<string>,
    url: string,
    publishedAt: int,
    sourceName: string,
    status: Option<string>,
    isExpanded: bool)

  predicate IsCompleted(h: Headline) {
    h.status == Some(CompletedStatus)
  }

  // The sample article the feed and the spotlight show before real data arrives.
  const ExampleOriginalTitle: string := "Trump Announced 104% Tariffs on Chinese Imports in Campaign Speech"
  const ExampleNeutralTitle: string := "Trump Detailed Trade Policy with Proposed 104% China Tariffs"
  const ExampleOriginalDescription: string := "In a major campaign announcement that impacted global markets, Trump declared he would impose massive 104% tariffs on Chinese goods if he wins the upcoming election."
  const ExampleNeutralDescription: string := "Former President Trump outlined a trade policy proposal regarding China.\n\nCampaign announcement detailed proposed 104% tariff on Chinese imports.\nPolicy implementation contingent on election victory.\nMarkets responded to the announcement.\nInternational trade implications discussed."
  const ExampleUrl: string := "https://example.com/news/1"
}
