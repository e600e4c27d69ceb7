/** The subscriber feed's paging state: page offsets, the "more to load"
    flag, the merge of a fetched page that skips ids already listed, the
    real-time prepend of newly completed headlines, and the reset before a
    refresh. */
module InfiniteNews {
  import opened Wrappers
  import opened Sequences
  import opened Headlines

  const PageSize: nat := 10
  const FetchFailedError: string := "Failed to fetch headlines"

  /** What a fetch asked for, fixed when it started: a refresh reads the
      newest `PageSize` rows, any other fetch the rows `from .. from + PageSize - 1`. */
  datatype Request = Request(refreshing: bool, from: nat)

  /** The query's outcome: an error (its message when it is an `Error`
      instance), or the rows with the total count when one came back. */
  datatype Reply = Failed(message: Option<string>) | Rows(data: seq<Headline>, count: Option<nat>)

  predicate HasId(hs: seq<Headline>, id: string) {
    exists i :: 0 <= i < |hs| && hs[i].id == id
  }

  predicate DistinctIds(hs: seq<Headline>) {
    forall i, j :: 0 <= i < j < |hs| ==> hs[i].id != hs[j].id
  }

  /** `(data || []).map(h => ({ ...h, isExpanded: false }))`. */
  function Collapsed(data: seq<Headline>): (r: seq<Headline>)
    ensures |r| == |data|
    ensures forall i :: 0 <= i < |data| ==> r[i] == data[i].(isExpanded := false)
  {
    seq(|data|, i requires 0 <= i < |data| => data[i].(isExpanded := false))
  }

  // ------------------------------------------------------------------ query

  /** The rows a request reads from the completed headlines in the order the
      database returns them (newest first): a window of at most `PageSize`
      rows starting at `from`, or at the top for a refresh. */
  function SelectPage(ordered: seq<Headline>, req: Request): (rows: seq<Headline>)
    ensures |rows| <= PageSize
    ensures var start := if req.refreshing then 0 else req.from;
      |rows| == if start + PageSize <= |ordered| then PageSize else if start <= |ordered| then |ordered| - start else 0
    ensures var start := if req.refreshing then 0 else req.from;
      start <= |ordered| ==> rows == ordered[start..start + |rows|]
  {
    var start := if req.refreshing then 0 else req.from;
    if start >= |ordered| then []
    else if start + PageSize <= |ordered| then ordered[start..start + PageSize]
    else ordered[start..]
  }

  /** The reply of a query that succeeds and reports the exact count. */
  function QueryReply(ordered: seq<Headline>, req: Request): Reply {
    Rows(SelectPage(ordered, req), Some(|ordered|))
  }

  // ------------------------------------------------------------------ merge

  /** The merge of a non-refresh fetch: each fetched headline is appended
      unless a headline with its id is already listed, counting those
      appended earlier from the same page. */
  function Merge(acc: seq<Headline>, data: seq<Headline>): seq<Headline>
    decreases |data|
  {
    if data == [] then acc
    else Merge(if HasId(acc, data[0].id) then acc else acc + [data[0]], data[1..])
  }

  /** The list already shown stays in front, unchanged. */
  lemma {:induction false} MergeKeepsPrefix(acc: seq<Headline>, data: seq<Headline>)
    ensures IsPrefix(acc, Merge(acc, data))
    decreases |data|
  {
    if data != [] {
      var next := if HasId(acc, data[0].id) then acc else acc + [data[0]];
      MergeKeepsPrefix(next, data[1..]);
      assert IsPrefix(acc, next);
      var m := Merge(next, data[1..]);
      assert m[..|next|] == next;
      assert m[..|acc|] == m[..|next|][..|acc|];
    }
  }

  /** A list without repeated ids stays without repeated ids. */
  lemma {:induction false} MergeKeepsDistinct(acc: seq<Headline>, data: seq<Headline>)
    requires DistinctIds(acc)
    ensures DistinctIds(Merge(acc, data))
    decreases |data|
  {
    if data != [] {
      var next := if HasId(acc, data[0].id) then acc else acc + [data[0]];
      if !HasId(acc, data[0].id) {
        forall i, j | 0 <= i < j < |next| ensures next[i].id != next[j].id {
          if j == |acc| {
            assert next[j] == data[0] && next[i] == acc[i];
          } else {
            assert next[i] == acc[i] && next[j] == acc[j];
          }
        }
      }
      MergeKeepsDistinct(next, data[1..]);
    }
  }

  /** Every fetched id is listed afterwards. */
  lemma {:induction false} MergeCovers(acc: seq<Headline>, data: seq<Headline>)
    ensures forall k :: 0 <= k < |data| ==> HasId(Merge(acc, data), data[k].id)
    ensures forall i :: 0 <= i < |acc| ==> HasId(Merge(acc, data), acc[i].id)
    decreases |data|
  {
    if data != [] {
      var next := if HasId(acc, data[0].id) then acc else acc + [data[0]];
      MergeCovers(next, data[1..]);
      var m := Merge(next, data[1..]);
      assert HasId(next, data[0].id) by {
        if !HasId(acc, data[0].id) {
          assert next[|acc|] == data[0];
        }
      }
      forall i | 0 <= i < |acc| ensures HasId(m, acc[i].id) {
        assert next[i] == acc[i];
      }
      forall k | 0 <= k < |data| ensures HasId(m, data[k].id) {
        if k == 0 {
          var j :| 0 <= j < |next| && next[j].id == data[0].id;
          assert HasId(m, next[j].id);
        } else {
          assert data[k] == data[1..][k - 1];
        }
      }
    }
  }

  /** Nothing is listed afterwards that was neither listed nor fetched. */
  lemma {:induction false} MergeFrom(acc: seq<Headline>, data: seq<Headline>)
    ensures forall x :: x in Merge(acc, data) ==> x in acc || x in data
    decreases |data|
  {
    if data != [] {
      var next := if HasId(acc, data[0].id) then acc else acc + [data[0]];
      MergeFrom(next, data[1..]);
      assert forall x :: x in next ==> x in acc || x == data[0];
      assert forall x :: x in data[1..] ==> x in data;
    }
  }

  /** Against a list without repeated ids, the merge appends exactly the
      fetched headlines whose ids are new, in fetched order. */
  lemma {:induction false} MergeAppendsNew(acc: seq<Headline>, data: seq<Headline>)
    requires forall k :: 0 <= k < |data| ==> !HasId(acc, data[k].id)
    requires DistinctIds(data)
    ensures Merge(acc, data) == acc + data
    decreases |data|
  {
    if data != [] {
      var next := acc + [data[0]];
      forall k | 0 <= k < |data[1..]| ensures !HasId(next, data[1..][k].id) {
        assert data[1..][k] == data[k + 1];
        assert data[0].id != data[k + 1].id;
        assert forall j :: 0 <= j < |acc| ==> acc[j].id != data[k + 1].id;
        assert forall j :: 0 <= j < |next| ==> next[j] == if j < |acc| then acc[j] else data[0];
      }
      MergeAppendsNew(next, data[1..]);
      assert next + data[1..] == acc + data;
    }
  }

  // ------------------------------------------------------------------- state

  /** The hook's state. `subscribed` says whether the real-time channel is open. */
  class NewsFeed {
    var headlines: seq<Headline>
    var loading: bool
    var error: Option<string>
    var hasMore: bool
    var page: nat
    var totalCount: Option<nat>
    var isRefreshing: bool
    var subscribed: bool

    constructor ()
      ensures headlines == [] && !loading && error.None? && hasMore && page == 0
      ensures totalCount.None? && !isRefreshing && subscribed
    {
      headlines := [];
      loading := false;
      error := None;
      hasMore := true;
      page := 0;
      totalCount := None;
      isRefreshing := false;
      subscribed := true;
    }

    /** The first half of `fetchHeadlines`: nothing while a fetch is in
        flight; otherwise marks the feed loading, clears the error and
        returns what to query. */
    method StartFetch() returns (req: Option<Request>)
      modifies this`loading, this`error
      ensures old(loading) ==> req.None? && loading && error == old(error)
      ensures !old(loading) ==> req == Some(Request(isRefreshing, if isRefreshing then 0 else page * PageSize))
      ensures !old(loading) ==> loading && error.None?
    {
      if loading {
        return None;
      }
      loading := true;
      error := None;
      var from := if isRefreshing then 0 else page * PageSize;
      req := Some(Request(isRefreshing, from));
    }

    /** The second half of `fetchHeadlines`, once the query has answered. */
    method FinishFetch(req: Request, reply: Reply)
      modifies this
      ensures !loading
      ensures reply.Failed? ==>
        error == Some(reply.message.GetOr(FetchFailedError)) && !hasMore
        && headlines == old(headlines) && page == old(page) && totalCount == old(totalCount)
      ensures reply.Rows? ==> error == old(error)
      ensures reply.Rows? && reply.count.Some? ==>
        totalCount == reply.count && hasMore == (req.from + PageSize < reply.count.value)
      ensures reply.Rows? && reply.count.None? ==> totalCount == old(totalCount) && hasMore == old(hasMore)
      ensures reply.Rows? && req.refreshing ==> headlines == Collapsed(reply.data) && page == old(page)
      ensures reply.Rows? && !req.refreshing ==>
        headlines == Merge(old(headlines), Collapsed(reply.data)) && page == old(page) + 1
      ensures req.refreshing ==> !isRefreshing && subscribed
      ensures !req.refreshing ==> isRefreshing == old(isRefreshing) && subscribed == old(subscribed)
    {
      match reply {
        case Failed(message) =>
          error := Some(message.GetOr(FetchFailedError));
          hasMore := false;
        case Rows(data, count) =>
          if count.Some? {
            totalCount := count;
            hasMore := req.from + PageSize < count.value;
          }
          var fetched := Collapsed(data);
          if req.refreshing {
            headlines := fetched;
          } else {
            headlines := MergeNew(headlines, fetched);
            page := page + 1;
          }
      }
      loading := false;
      if req.refreshing {
        isRefreshing := false;
        subscribed := true;
      }
    }

    /** The handler for a completed headline inserted elsewhere. */
    method OnInsert(h: Headline)
      modifies this`headlines, this`totalCount
      ensures old(isRefreshing) ==> headlines == old(headlines) && totalCount == old(totalCount)
      ensures !old(isRefreshing) ==>
        headlines == (if HasId(old(headlines), h.id) then old(headlines) else [h.(isExpanded := false)] + old(headlines))
        && totalCount == (if old(totalCount).Some? then Some(old(totalCount).value + 1) else None)
    {
      if isRefreshing {
        return;
      }
      if !HasId(headlines, h.id) {
        headlines := [h.(isExpanded := false)] + headlines;
      }
      totalCount := if totalCount.Some? then Some(totalCount.value + 1) else None;
    }

    /** `reset`: closes the channel and returns to an empty feed awaiting a refresh. */
    method Reset()
      modifies this
      ensures headlines == [] && page == 0 && hasMore && error.None? && totalCount.None?
      ensures isRefreshing && !subscribed && loading == old(loading)
    {
      subscribed := false;
      headlines := [];
      page := 0;
      hasMore := true;
      error := None;
      totalCount := None;
      isRefreshing := true;
    }
  }

  /** The copy-and-push loop inside the non-refresh merge. */
  method MergeNew(prev: seq<Headline>, data: seq<Headline>) returns (merged: seq<Headline>)
    ensures merged == Merge(prev, data)
  {
    merged := prev;
    for i := 0 to |data|
      invariant Merge(merged, data[i..]) == Merge(prev, data)
    {
      assert data[i..][1..] == data[i + 1..];
      if !HasId(merged, data[i].id) {
        merged := merged + [data[i]];
      }
    }
  }

  /** The inserted headline is listed first, unless its id was listed already. */
  lemma InsertKeepsDistinct(hs: seq<Headline>, h: Headline)
    requires DistinctIds(hs)
    ensures var r := if HasId(hs, h.id) then hs else [h.(isExpanded := false)] + hs;
      DistinctIds(r) && HasId(r, h.id)
  {
    var r := if HasId(hs, h.id) then hs else [h.(isExpanded := false)] + hs;
    if !HasId(hs, h.id) {
      forall i, j | 0 <= i < j < |r| ensures r[i].id != r[j].id {
        assert r[j] == hs[j - 1];
        if i > 0 {
          assert r[i] == hs[i - 1];
        }
      }
      assert r[0].id == h.id;
    }
  }

  /** Paging through the completed headlines: the `k`-th non-refresh fetch
      reads rows `k·PageSize ..`, and afterwards `hasMore` says exactly
      whether rows beyond that page exist. */
  lemma PagingCoversTable(ordered: seq<Headline>, k: nat)
    ensures var req := Request(false, k * PageSize);
      var reply := QueryReply(ordered, req);
      && reply.count == Some(|ordered|)
      && (reply.count.value > req.from + PageSize <==> |ordered| > (k + 1) * PageSize)
      && (k * PageSize <= |ordered| ==> reply.data == ordered[k * PageSize .. k * PageSize + |reply.data|])
  {
  }

  /** A failed fetch reports the error's own message when it has one. */
  lemma FailedFetchMessage(message: Option<string>)
    ensures Failed(message).message.GetOr(FetchFailedError) == if message.Some? then message.value else FetchFailedError
  {
  }
}
