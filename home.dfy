/** The landing page's spotlight card: its neutrality score, the average of the
    title and description scores, and the split of the rewritten description
    into a first paragraph and the paragraphs shown when expanded. */
module Home {
  import opened Wrappers
  import opened Text
  import opened Headlines
  import opened WordOverlap

  const ScoreWithoutSpotlight: int := 85
  const ParagraphBreak: string := "\n\n"

  /** `titleScore`. */
  function TitleScore(spot: Option<Headline>): (r: int)
    ensures 0 <= r <= 100
    ensures spot.None? ==> r == ScoreWithoutSpotlight
    ensures spot.Some? ==> r == OverlapScore(spot.value.originalTitle, spot.value.neutralTitle)
  {
    match spot
    case None => ScoreWithoutSpotlight
    case Some(h) => OverlapScore(h.originalTitle, h.neutralTitle)
  }

  /** `descriptionScore`: scored only when both descriptions are present and non-empty. */
  function DescriptionScore(spot: Option<Headline>): (r: int)
    ensures 0 <= r <= 100
    ensures spot.None? || !Truthy(spot.value.originalDescription) || !Truthy(spot.value.neutralDescription) ==> r == 0
  {
    match spot
    case None => 0
    case Some(h) =>
      if Truthy(h.originalDescription) && Truthy(h.neutralDescription)
      then OverlapScore(h.originalDescription.value, h.neutralDescription)
      else 0
  }

  predicate HasOriginalDescription(spot: Option<Headline>) {
    spot.Some? && Truthy(spot.value.originalDescription)
  }

  /** `averageScore`: always a percentage, because a description score is only
      added when the original description is there to double the divisor. */
  function AverageScore(spot: Option<Headline>): (r: int)
    ensures 0 <= r <= 100
  {
    var t, d := TitleScore(spot), DescriptionScore(spot);
    var x := if HasOriginalDescription(spot) then (t + d) as real / 2.0 else (t + d) as real;
    RoundPercent(x);
    Round(x)
  }

  lemma RoundPercent(x: real)
    requires 0.0 <= x <= 100.0
    ensures 0 <= Round(x) <= 100
  {
  }

  /** The average halves the sum whenever the original description is
      present, even when the rewrite has none and the description scores 0;
      otherwise it is the title score. */
  lemma AverageScoreCases(spot: Option<Headline>)
    ensures HasOriginalDescription(spot) ==>
      AverageScore(spot) == Round((TitleScore(spot) + DescriptionScore(spot)) as real / 2.0)
    ensures HasOriginalDescription(spot) && !Truthy(spot.value.neutralDescription) ==>
      AverageScore(spot) == Round(TitleScore(spot) as real / 2.0)
    ensures !HasOriginalDescription(spot) ==> AverageScore(spot) == TitleScore(spot)
  {
  }

  /** `neutral_description?.split('\n\n')[0] || original_description`. */
  function FirstParagraph(spot: Option<Headline>): (r: Option<string>)
    ensures spot.None? ==> r.None?
    ensures spot.Some? && spot.value.neutralDescription.Some?
            && Split(spot.value.neutralDescription.value, ParagraphBreak)[0] != [] ==>
      r == Some(Split(spot.value.neutralDescription.value, ParagraphBreak)[0])
    ensures spot.Some? && (spot.value.neutralDescription.None?
            || Split(spot.value.neutralDescription.value, ParagraphBreak)[0] == []) ==>
      r == spot.value.originalDescription
  {
    match spot
    case None => None
    case Some(h) =>
      var first := if h.neutralDescription.Some? then Some(Split(h.neutralDescription.value, ParagraphBreak)[0]) else None;
      Or(first, h.originalDescription)
  }

  /** The paragraphs listed when the card is expanded: all but the first. */
  function RemainingParagraphs(spot: Option<Headline>, expanded: bool): (r: seq<string>)
    ensures !expanded ==> r == []
  {
    if expanded && spot.Some? && Truthy(spot.value.neutralDescription)
    then Split(spot.value.neutralDescription.value, ParagraphBreak)[1..]
    else []
  }

  /** When the rewritten description starts with text, the collapsed paragraph
      and the expanded ones are exactly its paragraphs, and joining them back
      gives the description. */
  lemma ParagraphsReassemble(spot: Option<Headline>)
    requires spot.Some? && Truthy(spot.value.neutralDescription)
    requires Split(spot.value.neutralDescription.value, ParagraphBreak)[0] != []
    ensures [FirstParagraph(spot).value] + RemainingParagraphs(spot, true)
         == Split(spot.value.neutralDescription.value, ParagraphBreak)
    ensures Join([FirstParagraph(spot).value] + RemainingParagraphs(spot, true), ParagraphBreak)
         == spot.value.neutralDescription.value
  {
    var parts := Split(spot.value.neutralDescription.value, ParagraphBreak);
    assert parts == [parts[0]] + parts[1..];
    JoinSplit(spot.value.neutralDescription.value, ParagraphBreak);
  }

  /** The title shown: the rewrite when it is non-empty, otherwise the original. */
  function DisplayTitle(spot: Option<Headline>): (r: Option<string>)
    ensures spot.None? ==> r.None?
    ensures spot.Some? && Truthy(spot.value.neutralTitle) ==> r == spot.value.neutralTitle
    ensures spot.Some? && !Truthy(spot.value.neutralTitle) ==> r == Some(spot.value.originalTitle)
  {
    match spot
    case None => None
    case Some(h) => Or(h.neutralTitle, Some(h.originalTitle))
  }
}
