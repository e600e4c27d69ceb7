/** The landing page's spotlight article: four queries of decreasing
    strictness are tried in turn, and the newest row of the first one that
    finds anything replaces the spotlight. */
module Spotlight {
  import opened Wrappers
  import opened Sequences
  import opened Headlines

  const MsPerHour: int := 60 * 60 * 1000
  const PrioritySources: seq<string> := ["Reuters", "Associated Press", "Bloomberg", "The Wall Street Journal"]
  const FetchFailedError: string := "Failed to fetch spotlight news"
  const Tiers: nat := 4

  /** `exampleHeadline`, stamped with the time the module was loaded. */
  function ExampleHeadline(loadedAt: int): Headline {
    Headline("example-1", ExampleOriginalTitle, Some(ExampleNeutralTitle), Some(ExampleOriginalDescription),
             Some(ExampleNeutralDescription), None, ExampleUrl, loadedAt, "Reuters", Some(CompletedStatus), false)
  }

  /** The filters of query `k` (1 to 4). */
  predicate InTier(k: nat, h: Headline, now: int) {
    IsCompleted(h) && h.neutralTitle.Some?
    && match k
       case 1 => h.publishedAt >= now - 6 * MsPerHour && h.neutralDescription.Some?
       case 2 => h.publishedAt >= now - 24 * MsPerHour && h.neutralDescription.Some? && h.sourceName in PrioritySources
       case 3 => h.publishedAt >= now - 24 * MsPerHour
       case _ => true
  }

  function TierTest(k: nat, now: int): Headline -> bool {
    (h: Headline) => InTier(k, h, now)
  }

  function Candidates(table: seq<Headline>, k: nat, now: int): seq<Headline> {
    Filter(table, TierTest(k, now))
  }

  /** `.order('published_at', { ascending: false }).limit(1)`: the newest
      row; among rows published at the same instant, the first in table order. */
  function Newest(rows: seq<Headline>): (r: Option<Headline>)
    ensures r.Some? <==> rows != []
    ensures r.Some? ==> r.value in rows && forall i :: 0 <= i < |rows| ==> rows[i].publishedAt <= r.value.publishedAt
  {
    if rows == [] then None
    else
      var rest := Newest(rows[1..]);
      if rest.None? || rows[0].publishedAt >= rest.value.publishedAt then Some(rows[0]) else rest
  }

  /** The first query, in order, that finds a row. */
  function FirstTier(table: seq<Headline>, now: int): (k: Option<nat>)
    ensures k.Some? ==> 1 <= k.value <= Tiers && Candidates(table, k.value, now) != []
    ensures k.Some? ==> forall j :: 1 <= j < k.value ==> Candidates(table, j, now) == []
    ensures k.None? ==> forall j :: 1 <= j <= Tiers ==> Candidates(table, j, now) == []
  {
    if Candidates(table, 1, now) != [] then Some(1)
    else if Candidates(table, 2, now) != [] then Some(2)
    else if Candidates(table, 3, now) != [] then Some(3)
    else if Candidates(table, 4, now) != [] then Some(4)
    else None
  }

  /** Every tier's rows also pass the last query. */
  lemma TiersNest(k: nat, h: Headline, now: int)
    requires 1 <= k <= Tiers && InTier(k, h, now)
    ensures InTier(Tiers, h, now)
    ensures k <= 2 ==> InTier(3, h, now)
  {
  }

  /** The spotlight stays as it is exactly when no completed row has a
      rewritten title. */
  lemma NoTierIffNoTitledRow(table: seq<Headline>, now: int)
    ensures FirstTier(table, now).None? <==>
      forall i :: 0 <= i < |table| ==> !(IsCompleted(table[i]) && table[i].neutralTitle.Some?)
  {
    if FirstTier(table, now).None? {
      forall i | 0 <= i < |table| ensures !(IsCompleted(table[i]) && table[i].neutralTitle.Some?) {
        assert !TierTest(4, now)(table[i]);
      }
    }
    if forall i :: 0 <= i < |table| ==> !(IsCompleted(table[i]) && table[i].neutralTitle.Some?) {
      forall j | 1 <= j <= Tiers ensures Candidates(table, j, now) == [] {
        assert forall i :: 0 <= i < |table| ==> !TierTest(j, now)(table[i]);
        FilterNone(table, TierTest(j, now));
      }
    }
  }

  /** An injected query error: which query fails, and the error's message
      when it is an `Error` instance. */
  datatype Failure = Failure(tier: nat, message: Option<string>)

  /** The hook's state. */
  class SpotlightState {
    var spotlightNews: Headline
    var loading: bool
    var error: Option<string>

    constructor (loadedAt: int)
      ensures spotlightNews == ExampleHeadline(loadedAt) && loading && error.None?
    {
      spotlightNews := ExampleHeadline(loadedAt);
      loading := true;
      error := None;
    }

    /** One of the four tries: a failing query sets the error, a query with
        rows sets the spotlight; either ends the fetch. */
    method TryTier(table: seq<Headline>, now: int, k: nat, failure: Option<Failure>) returns (done: bool)
      modifies this`spotlightNews, this`error
      ensures failure.Some? && failure.value.tier == k ==>
        done && error == Some(failure.value.message.GetOr(FetchFailedError)) && spotlightNews == old(spotlightNews)
      ensures !(failure.Some? && failure.value.tier == k) ==>
        error == old(error)
        && done == (Candidates(table, k, now) != [])
        && spotlightNews == (if done then Newest(Candidates(table, k, now)).value else old(spotlightNews))
    {
      if failure.Some? && failure.value.tier == k {
        error := Some(failure.value.message.GetOr(FetchFailedError));
        return true;
      }
      var data := Candidates(table, k, now);
      var newest := Newest(data);
      if newest.Some? {
        spotlightNews := newest.value;
        return true;
      }
      return false;
    }

    /** `fetchSpotlightNews` over an in-memory table, with at most one
        failing query. */
    method FetchSpotlight(table: seq<Headline>, now: int, failure: Option<Failure>)
      modifies this`spotlightNews, this`error, this`loading
      ensures !loading
      ensures var first := FirstTier(table, now);
        var failsFirst := failure.Some? && 1 <= failure.value.tier <= Tiers
                          && (first.None? || failure.value.tier <= first.value);
        && (failsFirst ==> spotlightNews == old(spotlightNews) && error == Some(failure.value.message.GetOr(FetchFailedError)))
        && (!failsFirst && first.Some? ==> spotlightNews == Newest(Candidates(table, first.value, now)).value && error == old(error))
        && (!failsFirst && first.None? ==> spotlightNews == old(spotlightNews) && error == old(error))
    {
      ghost var has := [Candidates(table, 1, now) != [], Candidates(table, 2, now) != [],
                        Candidates(table, 3, now) != [], Candidates(table, 4, now) != []];
      assert FirstTier(table, now) == if has[0] then Some(1) else if has[1] then Some(2)
                                      else if has[2] then Some(3) else if has[3] then Some(4) else None;
      var done := TryTier(table, now, 1, failure);
      if !done {
        done := TryTier(table, now, 2, failure);
        if !done {
          done := TryTier(table, now, 3, failure);
          if !done {
            done := TryTier(table, now, 4, failure);
          }
        }
      }
      loading := false;
    }
  }

  /** Whatever the spotlight becomes is completed and has a rewritten
      title, and no row of its tier is newer. */
  lemma ChosenIsNewestOfTier(table: seq<Headline>, now: int)
    requires FirstTier(table, now).Some?
    ensures var k := FirstTier(table, now).value;
      var h := Newest(Candidates(table, k, now)).value;
      && IsCompleted(h) && h.neutralTitle.Some? && h in table
      && forall i :: 0 <= i < |table| && InTier(k, table[i], now) ==> table[i].publishedAt <= h.publishedAt
  {
    var k := FirstTier(table, now).value;
    var c := Candidates(table, k, now);
    var h := Newest(c).value;
    assert TierTest(k, now)(h);
    forall i | 0 <= i < |table| && InTier(k, table[i], now) ensures table[i].publishedAt <= h.publishedAt {
      assert TierTest(k, now)(table[i]);
      assert table[i] in c;
    }
  }
}
