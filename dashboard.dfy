/** The subscriber dashboard: the description lines of a card, the search,
    date and source filters with their example-headline fallback, the
    per-card expand flag, the list of sources offered by the filter bar, and
    the order in which loading, sign-in and subscription are checked. */
module Dashboard {
  import opened Wrappers
  import opened Text
  import opened Sequences
  import opened Headlines

  const AllSources: string := "all"
  const InitialSources: seq<string> := ["Associated Press", "Reuters", "Bloomberg"]

  const ExampleId: string := "123e4567-e89b-12d3-a456-426614174000"

  /** `exampleHeadlines`, stamped with the time the module was loaded. */
  function ExampleHeadlines(loadedAt: int): seq<Headline> {
    [Headline(ExampleId, ExampleOriginalTitle, Some(ExampleNeutralTitle), Some(ExampleOriginalDescription),
              Some(ExampleNeutralDescription), None, ExampleUrl, loadedAt, "Reuters", Some(CompletedStatus), false)]
  }

  // ------------------------------------------------------------ description

  predicate NotBlank(line: string) { !IsBlank(line) }

  /** `formatDescription`: the `\n`-separated lines that are not blank, in order and untrimmed. */
  function FormatDescription(description: string): (lines: seq<string>)
    ensures forall i :: 0 <= i < |lines| ==> !IsBlank(lines[i]) && !Includes(lines[i], "\n")
    ensures forall i :: 0 <= i < |lines| ==> lines[i] in Split(description, "\n")
    ensures forall i :: 0 <= i < |Split(description, "\n")| && !IsBlank(Split(description, "\n")[i])
              ==> Split(description, "\n")[i] in lines
  {
    Filter(Split(description, "\n"), NotBlank)
  }

  /** Blank lines are the only thing dropped: a description without blank
      lines comes back as all its lines. */
  lemma FormatDescriptionKeepsLines(description: string)
    requires forall i :: 0 <= i < |Split(description, "\n")| ==> !IsBlank(Split(description, "\n")[i])
    ensures Join(FormatDescription(description), "\n") == description
  {
    FilterAll(Split(description, "\n"), NotBlank);
    JoinSplit(description, "\n");
  }

  /** A single line is kept exactly when it is not blank. */
  lemma FormatDescriptionLine(line: string)
    requires !Includes(line, "\n")
    ensures FormatDescription(line) == if IsBlank(line) then [] else [line]
  {
    assert Split(line, "\n") == [line];
    assert [line][1..] == [];
  }

  /** The lines of two pieces joined by a line break are the lines of the
      first followed by those of the second: order and repetitions are kept. */
  lemma FormatDescriptionAppend(a: string, b: string)
    ensures FormatDescription(a + "\n" + b) == FormatDescription(a) + FormatDescription(b)
  {
    SplitAppend(a, '\n', b);
    FilterAppend(Split(a, "\n"), Split(b, "\n"), NotBlank);
  }

  // ---------------------------------------------------------------- filters

  /** The filter bar's state; a date filter is `None` while its field is empty. */
  datatype Filters = Filters(searchTerm: string, startDate: Option<int>, endDate: Option<int>, selectedSource: string)

  /** `field?.toLowerCase().includes(searchLower)` on a nullable field. */
  predicate FieldContains(field: Option<string>, searchLower: string) {
    field.Some? && Includes(Lower(field.value), searchLower)
  }

  predicate MatchesSearch(h: Headline, searchLower: string) {
    FieldContains(h.neutralTitle, searchLower)
    || Includes(Lower(h.originalTitle), searchLower)
    || FieldContains(h.neutralDescription, searchLower)
    || FieldContains(h.originalDescription, searchLower)
  }

  function SearchTest(term: string): Headline -> bool {
    (h: Headline) => MatchesSearch(h, Lower(term))
  }

  function StartTest(start: int): Headline -> bool {
    (h: Headline) => h.publishedAt >= start
  }

  function EndTest(end: int): Headline -> bool {
    (h: Headline) => h.publishedAt <= end
  }

  function SourceTest(source: string): Headline -> bool {
    (h: Headline) => h.sourceName == source
  }

  /** Each filter as a test that passes everything while the filter is off. */
  function SearchPart(f: Filters): Headline -> bool {
    (h: Headline) => f.searchTerm != [] ==> MatchesSearch(h, Lower(f.searchTerm))
  }

  function StartPart(f: Filters): Headline -> bool {
    (h: Headline) => f.startDate.Some? ==> h.publishedAt >= f.startDate.value
  }

  function EndPart(f: Filters): Headline -> bool {
    (h: Headline) => f.endDate.Some? ==> h.publishedAt <= f.endDate.value
  }

  function SourcePart(f: Filters): Headline -> bool {
    (h: Headline) => f.selectedSource != AllSources ==> h.sourceName == f.selectedSource
  }

  /** The conjunction of the active filters. */
  predicate Matches(f: Filters, h: Headline) {
    SearchPart(f)(h) && StartPart(f)(h) && EndPart(f)(h) && SourcePart(f)(h)
  }

  function MatchTest(f: Filters): Headline -> bool {
    (h: Headline) => Matches(f, h)
  }

  function SearchAndStart(f: Filters): Headline -> bool {
    (h: Headline) => SearchPart(f)(h) && StartPart(f)(h)
  }

  function SearchToEnd(f: Filters): Headline -> bool {
    (h: Headline) => SearchAndStart(f)(h) && EndPart(f)(h)
  }

  /** Narrowing by the four filters in turn keeps the headlines matching all of them. */
  lemma FilterInTurn(hs: seq<Headline>, f: Filters)
    ensures Filter(Filter(Filter(Filter(hs, SearchPart(f)), StartPart(f)), EndPart(f)), SourcePart(f))
         == Filter(hs, MatchTest(f))
  {
    FilterFilter(hs, SearchPart(f), StartPart(f), SearchAndStart(f));
    FilterFilter(hs, SearchAndStart(f), EndPart(f), SearchToEnd(f));
    FilterFilter(hs, SearchToEnd(f), SourcePart(f), MatchTest(f));
  }

  /** `hasActiveFilters`. */
  predicate Active(f: Filters) {
    f.searchTerm != [] || f.startDate.Some? || f.endDate.Some? || f.selectedSource != AllSources
  }

  const NoFilters: Filters := Filters([], None, None, AllSources)

  /** What the feed shows: the matching headlines in their loaded order, or
      the examples when nothing matches and no filter is active. */
  function Shown(headlines: seq<Headline>, f: Filters, examples: seq<Headline>): seq<Headline> {
    var kept := Filter(headlines, MatchTest(f));
    if |kept| > 0 || Active(f) then kept else examples
  }

  /** Whenever a filter is active, every headline shown matches all active
      filters, and every loaded headline that matches them is shown. */
  lemma ShownMatchesFilters(headlines: seq<Headline>, f: Filters, examples: seq<Headline>, h: Headline)
    requires Active(f)
    ensures h in Shown(headlines, f, examples) <==> h in headlines && Matches(f, h)
  {
    var kept := Filter(headlines, MatchTest(f));
    if h in kept {
      var i :| 0 <= i < |kept| && kept[i] == h;
      assert MatchTest(f)(kept[i]);
    }
    if h in headlines && Matches(f, h) {
      var i :| 0 <= i < |headlines| && headlines[i] == h;
      assert MatchTest(f)(headlines[i]);
    }
  }

  /** With no filter active the feed is everything loaded, or the examples
      when nothing is loaded. */
  lemma ClearedFiltersShowAll(headlines: seq<Headline>, examples: seq<Headline>)
    ensures Shown(headlines, NoFilters, examples) == if headlines == [] then examples else headlines
  {
    FilterAll(headlines, MatchTest(NoFilters));
  }

  /** Each filter step of `filterHeadlines` narrows by its part. */
  lemma SearchStep(s: seq<Headline>, f: Filters)
    ensures Filter(s, SearchPart(f)) == if f.searchTerm != [] then Filter(s, SearchTest(f.searchTerm)) else s
  {
    FilterWhen(s, f.searchTerm != [], SearchPart(f), SearchTest(f.searchTerm));
  }

  lemma StartStep(s: seq<Headline>, f: Filters)
    ensures Filter(s, StartPart(f)) == if f.startDate.Some? then Filter(s, StartTest(f.startDate.value)) else s
  {
    FilterWhen(s, f.startDate.Some?, StartPart(f), StartTest(f.startDate.GetOr(0)));
  }

  lemma EndStep(s: seq<Headline>, f: Filters)
    ensures Filter(s, EndPart(f)) == if f.endDate.Some? then Filter(s, EndTest(f.endDate.value)) else s
  {
    FilterWhen(s, f.endDate.Some?, EndPart(f), EndTest(f.endDate.GetOr(0)));
  }

  lemma SourceStep(s: seq<Headline>, f: Filters)
    ensures Filter(s, SourcePart(f)) == if f.selectedSource != AllSources then Filter(s, SourceTest(f.selectedSource)) else s
  {
    FilterWhen(s, f.selectedSource != AllSources, SourcePart(f), SourceTest(f.selectedSource));
  }

  /** The narrowing inside `filterHeadlines`: a copy of the headlines is
      filtered by each active filter in turn. */
  method Narrow(headlines: seq<Headline>, f: Filters) returns (filtered: seq<Headline>)
    ensures filtered == Filter(headlines, MatchTest(f))
  {
    FilterInTurn(headlines, f);
    filtered := headlines;
    SearchStep(filtered, f);
    if f.searchTerm != [] {
      filtered := Filter(filtered, SearchTest(f.searchTerm));
    }
    StartStep(filtered, f);
    if f.startDate.Some? {
      filtered := Filter(filtered, StartTest(f.startDate.value));
    }
    EndStep(filtered, f);
    if f.endDate.Some? {
      filtered := Filter(filtered, EndTest(f.endDate.value));
    }
    SourceStep(filtered, f);
    if f.selectedSource != AllSources {
      filtered := Filter(filtered, SourceTest(f.selectedSource));
    }
  }

  // ------------------------------------------------------------------ toggle

  /** `toggleExpand`'s mapping: the headlines with the given id have their
      flag flipped and nothing else changed; the others stay as they are. */
  function ToggleExpanded(hs: seq<Headline>, id: string): (r: seq<Headline>)
    ensures |r| == |hs|
    ensures forall i :: 0 <= i < |hs| ==>
      r[i].(isExpanded := hs[i].isExpanded) == hs[i]
      && r[i].isExpanded == (hs[i].isExpanded != (hs[i].id == id))
  {
    seq(|hs|, i requires 0 <= i < |hs| =>
      if hs[i].id == id then hs[i].(isExpanded := !hs[i].isExpanded) else hs[i])
  }

  /** Toggling the same card twice restores the list. */
  lemma ToggleTwice(hs: seq<Headline>, id: string)
    ensures ToggleExpanded(ToggleExpanded(hs, id), id) == hs
  {
    var r := ToggleExpanded(ToggleExpanded(hs, id), id);
    assert forall i :: 0 <= i < |hs| ==> r[i] == hs[i];
  }

  // ---------------------------------------------------------------- sources

  /** `Array.prototype.sort`'s default order on strings: lexicographic by character. */
  predicate LexLe(a: string, b: string)
    decreases |a|
  {
    a == [] || (b != [] && (a[0] < b[0] || (a[0] == b[0] && LexLe(a[1..], b[1..]))))
  }

  lemma {:induction false} LexTotal(a: string, b: string)
    ensures LexLe(a, b) || LexLe(b, a)
    decreases |a|
  {
    if a != [] && b != [] && a[0] == b[0] {
      LexTotal(a[1..], b[1..]);
    }
  }

  lemma {:induction false} LexAntisymmetric(a: string, b: string)
    requires LexLe(a, b) && LexLe(b, a)
    ensures a == b
    decreases |a|
  {
    if a != [] {
      LexAntisymmetric(a[1..], b[1..]);
      assert a == [a[0]] + a[1..] && b == [b[0]] + b[1..];
    }
  }

  lemma {:induction false} LexTransitive(a: string, b: string, c: string)
    requires LexLe(a, b) && LexLe(b, c)
    ensures LexLe(a, c)
    decreases |a|
  {
    if a != [] && a[0] == b[0] && b[0] == c[0] {
      LexTransitive(a[1..], b[1..], c[1..]);
    }
  }

  predicate Ascending(s: seq<string>) {
    forall i, j :: 0 <= i < j < |s| ==> LexLe(s[i], s[j])
  }

  function InsertSource(x: string, s: seq<string>): (r: seq<string>)
    ensures |r| == |s| + 1
    ensures multiset(r) == multiset(s) + multiset{x}
  {
    if s == [] then [x]
    else if LexLe(x, s[0]) then [x] + s
    else
      assert s == [s[0]] + s[1..];
      [s[0]] + InsertSource(x, s[1..])
  }

  lemma {:induction false} InsertSourceAscending(x: string, s: seq<string>)
    requires Ascending(s)
    ensures Ascending(InsertSource(x, s))
  {
    if s == [] {
    } else if LexLe(x, s[0]) {
      forall j | 1 <= j < |s| ensures LexLe(x, s[j]) {
        LexTransitive(x, s[0], s[j]);
      }
      var r := [x] + s;
      forall i, j | 0 <= i < j < |r| ensures LexLe(r[i], r[j]) {
        if i > 0 {
          assert r[i] == s[i - 1] && r[j] == s[j - 1];
        }
      }
    } else {
      LexTotal(x, s[0]);
      var t := InsertSource(x, s[1..]);
      InsertSourceAscending(x, s[1..]);
      forall j | 0 <= j < |t| ensures LexLe(s[0], t[j]) {
        assert t[j] in multiset(t);
        assert s == [s[0]] + s[1..];
        if t[j] != x {
          assert t[j] in multiset(s[1..]);
          var k :| 0 <= k < |s[1..]| && s[1..][k] == t[j];
          assert s[k + 1] == t[j];
        }
      }
      var r := [s[0]] + t;
      assert InsertSource(x, s) == r;
      forall i, j | 0 <= i < j < |r| ensures LexLe(r[i], r[j]) {
        if i > 0 {
          assert r[i] == t[i - 1] && r[j] == t[j - 1];
        }
      }
    }
  }

  function SortSources(s: seq<string>): (r: seq<string>)
    ensures multiset(r) == multiset(s)
    ensures Ascending(r)
  {
    if s == [] then []
    else
      var t := SortSources(s[1..]);
      assert s == [s[0]] + s[1..];
      InsertSourceAscending(s[0], t);
      InsertSource(s[0], t)
  }

  function SourceNames(hs: seq<Headline>): (r: seq<string>)
    ensures |r| == |hs| && forall i :: 0 <= i < |hs| ==> r[i] == hs[i].sourceName
  {
    seq(|hs|, i requires 0 <= i < |hs| => hs[i].sourceName)
  }

  /** `Array.from(new Set(headlines.map(h => h.source_name))).sort()`: each
      loaded source once, in ascending order. */
  function UniqueSources(hs: seq<Headline>): (r: seq<string>)
    ensures Ascending(r) && Distinct(r)
    ensures forall s :: s in r <==> exists i :: 0 <= i < |hs| && hs[i].sourceName == s
  {
    var names := Dedup(SourceNames(hs));
    SortSameMembers(names);
    SortKeepsDistinct(names);
    SourceNamesMembers(hs);
    SortSources(names)
  }

  lemma SourceNamesMembers(hs: seq<Headline>)
    ensures forall s :: s in Dedup(SourceNames(hs)) <==> exists i :: 0 <= i < |hs| && hs[i].sourceName == s
  {
    var names := SourceNames(hs);
    forall s | s in Dedup(names) ensures exists i :: 0 <= i < |hs| && hs[i].sourceName == s {
      var k :| 0 <= k < |names| && names[k] == s;
    }
    forall i | 0 <= i < |hs| ensures hs[i].sourceName in Dedup(names) {
      assert names[i] == hs[i].sourceName;
    }
  }

  lemma SortSameMembers(s: seq<string>)
    ensures forall x :: x in SortSources(s) <==> x in s
  {
    forall x ensures x in SortSources(s) <==> x in s {
      assert x in multiset(SortSources(s)) <==> x in multiset(s);
    }
  }

  lemma SortKeepsDistinct(s: seq<string>)
    requires Distinct(s)
    ensures Distinct(SortSources(s))
  {
    var r := SortSources(s);
    forall i, j | 0 <= i < j < |r| ensures r[i] != r[j] {
      if r[i] == r[j] {
        TwoCopies(r, i, j);
        DistinctCount(s, r[i]);
      }
    }
  }

  lemma TwoCopies(r: seq<string>, i: nat, j: nat)
    requires i < j < |r| && r[i] == r[j]
    ensures multiset(r)[r[i]] >= 2
  {
    assert r == r[..i] + [r[i]] + r[i + 1..j] + [r[j]] + r[j + 1..];
  }

  lemma {:induction false} DistinctCount(s: seq<string>, x: string)
    requires Distinct(s)
    ensures multiset(s)[x] <= 1
  {
    if s != [] {
      var t := s[..|s| - 1];
      assert Distinct(t);
      DistinctCount(t, x);
      assert s == t + [s[|s| - 1]];
      if s[|s| - 1] == x {
        assert x !in t;
      }
    }
  }

  // ------------------------------------------------------------------ gating

  datatype View = Spinner | ToLogin | ToPricing | Feed

  /** The checks before the feed renders, in their order. */
  function DashboardView(authLoading: bool, subscriptionLoading: bool, signedIn: bool, subscriptionActive: bool): (v: View)
    ensures v == Spinner <==> authLoading || subscriptionLoading
    ensures v == ToLogin <==> !authLoading && !subscriptionLoading && !signedIn
    ensures v == ToPricing <==> !authLoading && !subscriptionLoading && signedIn && !subscriptionActive
    ensures v == Feed <==> !authLoading && !subscriptionLoading && signedIn && subscriptionActive
  {
    if authLoading || subscriptionLoading then Spinner
    else if !signedIn then ToLogin
    else if !subscriptionActive then ToPricing
    else Feed
  }

  // ------------------------------------------------------------------- state

  /** The component's state: the headlines the feed hook delivers, the filter
      fields, the list on screen and the sources offered by the filter bar. */
  class DashboardState {
    var headlines: seq<Headline>
    var searchTerm: string
    var startDate: Option<int>
    var endDate: Option<int>
    var selectedSource: string
    var sources: seq<string>
    var filteredHeadlines: seq<Headline>
    const examples: seq<Headline>

    constructor (loadedAt: int)
      ensures examples == ExampleHeadlines(loadedAt)
      ensures headlines == [] && filteredHeadlines == []
      ensures searchTerm == [] && startDate.None? && endDate.None? && selectedSource == AllSources
      ensures sources == InitialSources
    {
      examples := ExampleHeadlines(loadedAt);
      headlines := [];
      searchTerm := [];
      startDate := None;
      endDate := None;
      selectedSource := AllSources;
      sources := InitialSources;
      filteredHeadlines := [];
    }

    function CurrentFilters(): Filters
      reads this`searchTerm, this`startDate, this`endDate, this`selectedSource
    {
      Filters(searchTerm, startDate, endDate, selectedSource)
    }

    /** `filterHeadlines`: the headlines narrowed by the active filters, or
        the examples when none is left and no filter is set. */
    method FilterHeadlines()
      modifies this`filteredHeadlines
      ensures filteredHeadlines == Shown(headlines, CurrentFilters(), examples)
    {
      var filtered := Narrow(headlines, CurrentFilters());
      var hasActiveFilters := searchTerm != [] || startDate.Some? || endDate.Some? || selectedSource != AllSources;
      filteredHeadlines := if |filtered| > 0 || hasActiveFilters then filtered else examples;
    }

    /** `clearFilters`. */
    method ClearFilters()
      modifies this`searchTerm, this`startDate, this`endDate, this`selectedSource
      ensures CurrentFilters() == NoFilters && !Active(CurrentFilters())
    {
      searchTerm := [];
      startDate := None;
      endDate := None;
      selectedSource := AllSources;
    }

    /** `toggleExpand`. */
    method ToggleExpand(id: string)
      modifies this`filteredHeadlines
      ensures filteredHeadlines == ToggleExpanded(old(filteredHeadlines), id)
    {
      filteredHeadlines := ToggleExpanded(filteredHeadlines, id);
    }

    /** The source-list effect: replaced only when some headline is loaded. */
    method UpdateSources()
      modifies this`sources
      ensures |headlines| > 0 ==> sources == UniqueSources(headlines)
      ensures |headlines| == 0 ==> sources == old(sources)
    {
      if |headlines| > 0 {
        sources := UniqueSources(headlines);
      }
    }
  }
}
