/** The retrieval step of the chat function: key terms and entities are taken
    from the question, candidate items from four sources are scored by term and
    entity occurrences plus a source-specific bonus or penalty, and the best
    five items that score above 2 are kept in descending score order. */
module ChatRanker {
  import opened Wrappers
  import opened Text
  import opened Sequences
  import opened Headlines

  const StopWords: seq<string> := ["the", "and", "or", "but", "in", "on", "at", "to", "for", "with", "about"]
  const MinScore: real := 2.0
  const TopN: nat := 5
  const MsPerDay: int := 1000 * 60 * 60 * 24

  // ---------------------------------------------------------------- key terms

  /** A character after `toLowerCase()` and `replace(/[^\w\s]/g, ' ')`. */
  predicate NormalChar(c: char) {
    (IsWordChar(c) && !IsUpper(c)) || IsSpace(c)
  }

  function NormalizeChar(c: char): (r: char)
    ensures NormalChar(r)
  {
    var l := LowerChar(c);
    if IsWordChar(l) || IsSpace(l) then l else ' '
  }

  /** `question.toLowerCase().replace(/[^\w\s]/g, ' ')`. */
  function Normalize(q: string): (r: string)
    ensures |r| == |q|
    ensures forall i :: 0 <= i < |r| ==> r[i] == NormalizeChar(q[i])
    ensures forall c :: c in r ==> NormalChar(c)
  {
    if q == [] then [] else [NormalizeChar(q[0])] + Normalize(q[1..])
  }

  /** The tokens of the normalized question. */
  function Words(question: string): seq<string> {
    SplitSpaces(Normalize(question))
  }

  predicate LongWord(w: string) { |w| > 2 }

  predicate NotStopWord(w: string) { w !in StopWords }

  /** What every extracted term is: longer than two characters, not a stop
      word, and made of lower-case word characters only. */
  predicate IsTerm(t: string) {
    |t| > 2 && t !in StopWords && forall i :: 0 <= i < |t| ==> IsWordChar(t[i]) && !IsUpper(t[i])
  }

  // ----------------------------------------------------------------- entities

  function LowerRun(s: string, i: nat): (n: nat)
    ensures n > 0 ==> i + n <= |s|
    ensures forall k {:trigger IsLower(s[k])} :: i <= k < i + n ==> IsLower(s[k])
    ensures NoLowerAfter(s, i, n)
    decreases |s| - i
  {
    if i < |s| && IsLower(s[i]) then 1 + LowerRun(s, i + 1) else 0
  }

  function SpaceRun(s: string, i: nat): (n: nat)
    ensures n > 0 ==> i + n <= |s|
    ensures forall k {:trigger IsSpace(s[k])} :: i <= k < i + n ==> IsSpace(s[k])
    decreases |s| - i
  {
    if i < |s| && IsSpace(s[i]) then 1 + SpaceRun(s, i + 1) else 0
  }

  /** The white-space run stops at a character that is not white space. */
  lemma {:induction false} SpaceRunStops(s: string, i: nat)
    ensures i + SpaceRun(s, i) < |s| ==> !IsSpace(s[i + SpaceRun(s, i)])
    decreases |s| - i
  {
    if i < |s| && IsSpace(s[i]) {
      SpaceRunStops(s, i + 1);
    }
  }

  /** Letters and white space, the only characters an entity can hold. */
  predicate EntityChar(c: char) { IsUpper(c) || IsLower(c) || IsSpace(c) }

  /** Two neighbouring characters of an entity: an upper-case letter comes
      only after white space, a non-space after white space is upper-case,
      and an upper-case letter is followed by a lower-case one. */
  predicate CapsAdjacent(x: char, y: char) {
    && (IsUpper(y) ==> IsSpace(x))
    && (IsSpace(x) && !IsSpace(y) ==> IsUpper(y))
    && (IsUpper(x) ==> IsLower(y))
  }

  /** Every neighbouring pair in `s[a..b]` is `CapsAdjacent`, and the stretch does
      not end in an upper-case letter. */
  predicate CapsLocal(s: string, a: nat, b: nat)
    requires a <= b <= |s|
  {
    && (forall k {:trigger IsUpper(s[k])} :: a <= k < b && IsUpper(s[k]) ==> k + 1 < b)
    && (forall k, l {:trigger CapsAdjacent(s[k], s[l])} ::
          a <= k < b && a <= l < b && l == k + 1 ==> CapsAdjacent(s[k], s[l]))
  }

  /** Two adjacent stretches read as one when they meet well. */
  lemma CapsLocalJoin(s: string, a: nat, b: nat, c: nat)
    requires a <= b <= c <= |s| && CapsLocal(s, a, b) && CapsLocal(s, b, c)
    requires a < b < c ==> !IsUpper(s[b - 1]) && CapsAdjacent(s[b - 1], s[b])
    ensures CapsLocal(s, a, c)
  {
  }

  /** A capitalised word and then white space read as one stretch. */
  lemma CapsLocalWordThenSpace(s: string, i: nat, c: nat, m: nat)
    requires i + c + m <= |s| && c > 0 && m > 0 && CapsLocal(s, i, i + c) && CapsLocal(s, i + c, i + c + m)
    requires IsLower(s[i + c - 1]) && IsSpace(s[i + c])
    ensures CapsLocal(s, i, i + c + m)
  {
    CapsLocalJoin(s, i, i + c, i + c + m);
  }

  /** `s[i..i + n]`, when not empty, is made of letters and white space,
      keeps the neighbour rules of `CapsLocal`, and ends in a lower-case letter. */
  predicate WordsRun(s: string, i: nat, n: nat) {
    n > 0 ==>
      && i + n <= |s| && IsLower(s[i + n - 1]) && CapsLocal(s, i, i + n)
      && forall k {:trigger EntityChar(s[k])} :: i <= k < i + n ==> EntityChar(s[k])
  }

  /** White space, a capitalised word and then (when `m > 0`) a further
      continuation read as one run of `n` characters. */
  lemma SpaceThenWord(s: string, j: nat, w: nat, c: nat, m: nat, n: nat)
    requires n == w + c + m && j + w <= |s| && w > 0 && c > 0
    requires forall k :: j <= k < j + w ==> IsSpace(s[k])
    requires WordsRun(s, j + w, c) && IsUpper(s[j + w])
    requires WordsRun(s, j + w + c, m) && (m > 0 ==> IsSpace(s[j + w + c]))
    ensures j < |s| && IsSpace(s[j]) && WordsRun(s, j, n)
  {
    assert CapsLocal(s, j, j + w);
    CapsLocalJoin(s, j, j + w, j + w + c);
    if m > 0 {
      CapsLocalWordThenSpace(s, j, w + c, m);
    }
  }

  /** A capitalised word and then (when `m > 0`) a continuation read as one
      run of `n` characters. */
  lemma WordThenMore(s: string, i: nat, c: nat, m: nat, n: nat)
    requires n == c + m && c > 0 && WordsRun(s, i, c)
    requires WordsRun(s, i + c, m) && (m > 0 ==> IsSpace(s[i + c]))
    ensures WordsRun(s, i, n)
  {
    if m > 0 {
      CapsLocalWordThenSpace(s, i, c, m);
    }
  }

  /** An upper-case letter and then `m` lower-case ones read as a word. */
  lemma WordOfLowerRun(s: string, i: nat, m: nat)
    requires m > 0 && i + 1 + m <= |s| && IsUpper(s[i])
    requires forall k :: i + 1 <= k < i + 1 + m ==> IsLower(s[k])
    ensures WordsRun(s, i, 1 + m)
  {
  }

  /** Length of a `[A-Z][a-z]+` match starting at `i`, or 0 when there is none. */
  function CapWord(s: string, i: nat): (n: nat)
    ensures n > 0 <==> i + 1 < |s| && IsUpper(s[i]) && IsLower(s[i + 1])
    ensures n > 0 ==> n >= 2
    ensures WordsRun(s, i, n)
    ensures n > 0 ==> NoLowerAfter(s, i, n)
  {
    if i < |s| && IsUpper(s[i]) then
      var m := LowerRun(s, i + 1);
      if m > 0 then WordOfLowerRun(s, i, m); 1 + m else 0
    else 0
  }

  /** No lower-case letter follows `s[i..i + n]`. */
  predicate NoLowerAfter(s: string, i: nat, n: nat) {
    i + n < |s| ==> !IsLower(s[i + n])
  }

  /** Length of a `\s+[A-Z][a-z]+` match starting at `j`, or 0 when there is none. */
  function NextWord(s: string, j: nat): (n: nat)
    ensures n > 0 <==> SpaceRun(s, j) > 0 && CapWord(s, j + SpaceRun(s, j)) > 0
    ensures n > 0 ==> j < |s| && IsSpace(s[j])
    ensures WordsRun(s, j, n)
    ensures n > 0 ==> NoLowerAfter(s, j, n)
  {
    var w := SpaceRun(s, j);
    if w == 0 then 0
    else
      var c := CapWord(s, j + w);
      if c == 0 then 0
      else
        SpaceThenWord(s, j, w, c, 0, w + c);
        w + c
  }

  /** No further `\s+[A-Z][a-z]+` follows `s[i..i + n]`. */
  predicate NoWordAfter(s: string, i: nat, n: nat) {
    NextWord(s, i + n) == 0
  }

  /** A match of the entity pattern covering `s[i..i + n]` cannot be made
      longer: neither a lower-case letter nor a further word follows it. */
  predicate CannotExtend(s: string, i: nat, n: nat) {
    NoLowerAfter(s, i, n) && NoWordAfter(s, i, n)
  }

  /** A further word and then the continuation after it read as one
      continuation that nothing extends. */
  lemma WordThenMoreWords(s: string, j: nat, d: nat, m: nat, n: nat)
    requires n == d + m && d > 0
    requires j < |s| && IsSpace(s[j]) && WordsRun(s, j, d) && NoLowerAfter(s, j, d)
    requires WordsRun(s, j + d, m) && NoWordAfter(s, j + d, m)
    requires m > 0 ==> IsSpace(s[j + d]) && NoLowerAfter(s, j + d, m)
    ensures j < |s| && IsSpace(s[j]) && WordsRun(s, j, n)
    ensures NoWordAfter(s, j, n) && NoLowerAfter(s, j, n)
  {
    WordThenMore(s, j, d, m, n);
  }

  /** Length of the greedy `(?:\s+[A-Z][a-z]+)*` continuation starting at `j`. */
  function MoreWords(s: string, j: nat): (n: nat)
    ensures n > 0 ==> j < |s| && IsSpace(s[j])
    ensures WordsRun(s, j, n)
    ensures NoWordAfter(s, j, n)
    ensures n > 0 ==> NoLowerAfter(s, j, n)
    decreases |s| - j
  {
    var d := NextWord(s, j);
    if d == 0 then 0
    else
      var m := MoreWords(s, j + d);
      WordThenMoreWords(s, j, d, m, d + m);
      d + m
  }

  /** A capitalised word of `c` characters, and then a continuation of `m`
      characters that nothing extends, read as one run that cannot be extended. */
  lemma WordThenContinuation(s: string, i: nat, c: nat, m: nat, n: nat)
    requires n == c + m && c > 0 && WordsRun(s, i, c) && NoLowerAfter(s, i, c)
    requires WordsRun(s, i + c, m) && NoWordAfter(s, i + c, m)
    requires m > 0 ==> IsSpace(s[i + c]) && NoLowerAfter(s, i + c, m)
    ensures WordsRun(s, i, n) && CannotExtend(s, i, n)
  {
    WordThenMore(s, i, c, m, n);
  }

  /** Length of the match of `[A-Z][a-z]+(?:\s+[A-Z][a-z]+)*` at `i`, or 0. */
  function EntityAt(s: string, i: nat): (n: nat)
    ensures n > 0 <==> i + 1 < |s| && IsUpper(s[i]) && IsLower(s[i + 1])
    ensures n > 0 ==> n >= 2
    ensures WordsRun(s, i, n)
    ensures n > 0 ==> CannotExtend(s, i, n)
  {
    var c := CapWord(s, i);
    if c == 0 then 0
    else
      var m := MoreWords(s, i + c);
      WordThenContinuation(s, i, c, m, c + m);
      c + m
  }

  /** What every entity is: capitalised words (an upper-case letter followed
      by lower-case ones) separated by white space, with nothing before the
      first word or after the last. */
  predicate EntityShaped(e: string) {
    && |e| >= 2 && IsUpper(e[0]) && IsLower(e[|e| - 1])
    && (forall k :: 0 <= k < |e| ==> EntityChar(e[k]))
    && CapsLocal(e, 0, |e|)
  }

  /** A stretch of `s` that reads as an entity is one once cut out. */
  lemma EntityShapedSlice(s: string, i: nat, n: nat)
    requires n >= 2 && i < |s| && IsUpper(s[i]) && WordsRun(s, i, n)
    ensures EntityShaped(s[i..i + n])
  {
    var e := s[i..i + n];
    assert forall k :: 0 <= k < n ==> e[k] == s[i + k];
    forall k | 0 <= k < n && IsUpper(e[k]) ensures k + 1 < n {
      assert IsUpper(s[i + k]);
    }
    forall k, l | 0 <= k < n && 0 <= l < n && l == k + 1 ensures CapsAdjacent(e[k], e[l]) {
      assert CapsAdjacent(s[i + k], s[i + l]);
    }
  }

  /** The shape admits "Joe Biden" and refuses a lower-case word, an inner
      capital and white space at either end. */
  lemma EntityShapeExamples()
    ensures EntityShaped("Joe Biden")
    ensures !EntityShaped("Ab cD e") && !EntityShaped("Joe biden") && !EntityShaped(" Joe")
  {
    var e := "Joe Biden";
    forall k, l | 0 <= k < |e| && 0 <= l < |e| && l == k + 1 ensures CapsAdjacent(e[k], e[l]) {
      assert k == 0 || k == 1 || k == 2 || k == 3 || k == 4 || k == 5 || k == 6 || k == 7;
    }
    assert !CapsAdjacent("Ab cD e"[3], "Ab cD e"[4]);
    assert !CapsAdjacent("Joe biden"[3], "Joe biden"[4]);
  }

  /** Some string of `ms` includes `p`. */
  predicate SomeIncludes(ms: seq<string>, p: string) {
    ms != [] && (Includes(ms[0], p) || SomeIncludes(ms[1..], p))
  }

  lemma {:induction false} SomeIncludesWitness(ms: seq<string>, p: string)
    requires SomeIncludes(ms, p)
    ensures exists e :: e in ms && Includes(e, p)
  {
    if !Includes(ms[0], p) {
      SomeIncludesWitness(ms[1..], p);
      var e :| e in ms[1..] && Includes(e, p);
      assert e in ms;
    } else {
      assert ms[0] in ms;
    }
  }

  /** Every upper-case letter followed by a lower-case one, at or after `i`,
      lies inside some string of `ms`. */
  predicate CoversPairs(s: string, i: nat, ms: seq<string>) {
    forall k {:trigger IsUpper(s[k])} ::
      i <= k && k + 1 < |s| && IsUpper(s[k]) && IsLower(s[k + 1]) ==> SomeIncludes(ms, s[k..k + 2])
  }

  /** A cut-out run holds every two-character stretch of `s` inside it. */
  lemma SliceIncludes(s: string, i: nat, n: nat, k: nat)
    requires i <= k && k + 2 <= i + n <= |s|
    ensures Includes(s[i..i + n], s[k..k + 2])
  {
    var e := s[i..i + n];
    var j := k - i;
    assert e[j..j + 2] == [s[k], s[k + 1]] == s[k..k + 2];
    assert MatchAt(e, s[k..k + 2], j);
  }

  /** A match at `i` followed by the matches after it covers every pair from `i` on. */
  lemma CoversAfterMatch(s: string, i: nat, n: nat, rest: seq<string>)
    requires n > 0 && WordsRun(s, i, n) && CoversPairs(s, i + n, rest)
    ensures CoversPairs(s, i, [s[i..i + n]] + rest)
  {
    var ms := [s[i..i + n]] + rest;
    assert ms[0] == s[i..i + n] && ms[1..] == rest;
    forall k | i <= k && k + 1 < |s| && IsUpper(s[k]) && IsLower(s[k + 1])
      ensures SomeIncludes(ms, s[k..k + 2])
    {
      if k < i + n {
        assert k + 1 < i + n;
        SliceIncludes(s, i, n, k);
      }
    }
  }

  /** Where nothing matches at `i`, the matches from `i + 1` cover every pair from `i` on. */
  lemma CoversAfterSkip(s: string, i: nat, rest: seq<string>)
    requires i < |s| && EntityAt(s, i) == 0 && CoversPairs(s, i + 1, rest)
    ensures CoversPairs(s, i, rest)
  {
  }

  /** `e` occurs in `s` at a place where the entity pattern cannot extend it. */
  predicate OccursWhole(s: string, e: string) {
    exists p: nat :: p <= |s| && MatchAt(s, e, p) && CannotExtend(s, p, |e|)
  }

  /** A stretch that the pattern cannot extend occurs whole once cut out. */
  lemma OccursWholeAt(s: string, i: nat, n: nat)
    requires i + n <= |s| && CannotExtend(s, i, n)
    ensures OccursWhole(s, s[i..i + n])
  {
    assert MatchAt(s, s[i..i + n], i);
  }

  /** The matches of the global entity pattern from index `i` on, left to
      right: each is entity-shaped and occurs in `s` where it cannot be
      extended, and together they cover every capitalised word from `i` on. */
  function EntityMatches(s: string, i: nat): (r: seq<string>)
    ensures forall k {:trigger EntityShaped(r[k])} :: 0 <= k < |r| ==> EntityShaped(r[k])
    ensures forall k {:trigger OccursWhole(s, r[k])} :: 0 <= k < |r| ==> OccursWhole(s, r[k])
    ensures CoversPairs(s, i, r)
    decreases |s| - i
  {
    if i >= |s| then []
    else
      var n := EntityAt(s, i);
      if n > 0 then
        var e := s[i..i + n];
        OccursWholeAt(s, i, n);
        EntityShapedSlice(s, i, n);
        CoversAfterMatch(s, i, n, EntityMatches(s, i + n));
        [e] + EntityMatches(s, i + n)
      else
        CoversAfterSkip(s, i, EntityMatches(s, i + 1));
        EntityMatches(s, i + 1)
  }

  /** Completeness: every upper-case letter followed by a lower-case one at
      or after `i` lies inside some match. */
  lemma EntityCovers(s: string, i: nat, k: nat)
    requires i <= k && k + 1 < |s| && IsUpper(s[k]) && IsLower(s[k + 1])
    ensures exists e :: e in EntityMatches(s, i) && Includes(e, s[k..k + 2])
  {
    SomeIncludesWitness(EntityMatches(s, i), s[k..k + 2]);
  }

  /** In an entity-shaped string, a stretch from the start that ends in a
      lower-case letter before the end can be extended. */
  lemma ShapedExtends(e: string, n: nat)
    requires EntityShaped(e) && 0 < n < |e| && IsLower(e[n - 1])
    ensures !CannotExtend(e, 0, n)
  {
    if !IsLower(e[n]) {
      assert CapsAdjacent(e[n - 1], e[n]);
      assert EntityChar(e[n]);
      assert IsSpace(e[n]);
      var w := SpaceRun(e, n);
      SpaceRunStops(e, n);
      assert w > 0;
      var f := n + w;
      assert IsSpace(e[f - 1]);
      assert f < |e|;
      assert CapsAdjacent(e[f - 1], e[f]);
      assert IsUpper(e[f]);
      assert CapsAdjacent(e[f], e[f + 1]);
      assert CapWord(e, f) > 0;
    }
  }

  /** The pattern matches an entity-shaped string whole. */
  lemma EntityAtWhole(e: string)
    requires EntityShaped(e)
    ensures EntityAt(e, 0) == |e|
  {
    assert CapsAdjacent(e[0], e[1]);
    var n := EntityAt(e, 0);
    assert n > 0 && WordsRun(e, 0, n);
    if n < |e| {
      ShapedExtends(e, n);
    }
  }

  /** An entity-shaped string is its own single entity. */
  lemma EntityMatchesWhole(e: string)
    requires EntityShaped(e)
    ensures EntityMatches(e, 0) == [e]
  {
    EntityAtWhole(e);
    assert e[0..|e|] == e;
  }

  datatype KeyTerms = KeyTerms(terms: seq<string>, entities: seq<string>)

  /** `extractKeyTerms`. */
  function ExtractKeyTerms(question: string): KeyTerms {
    var long := Filter(Words(question), LongWord);
    KeyTerms(Dedup(Filter(long, NotStopWord)), Dedup(EntityMatches(question, 0)))
  }

  /** Every character of a token is a lower-case word character. */
  lemma WordCharsNormal(question: string, i: nat, j: nat)
    requires i < |Words(question)| && j < |Words(question)[i]|
    ensures IsWordChar(Words(question)[i][j]) && !IsUpper(Words(question)[i][j])
  {
    SplitSpacesChars(Normalize(question), i, j);
    assert !IsSpace(Words(question)[i][j]);
  }

  /** Every term is a lower-case word of more than two characters that is not
      a stop word; the terms are duplicate-free. */
  lemma TermsWellFormed(question: string)
    ensures Distinct(ExtractKeyTerms(question).terms)
    ensures forall t :: t in ExtractKeyTerms(question).terms ==> IsTerm(t)
  {
    var words := Words(question);
    var long := Filter(words, LongWord);
    var kept := Filter(long, NotStopWord);
    forall t | t in ExtractKeyTerms(question).terms ensures IsTerm(t) {
      assert t in kept;
      var a :| 0 <= a < |kept| && kept[a] == t;
      assert t in long;
      var b :| 0 <= b < |long| && long[b] == t;
      var i :| 0 <= i < |words| && words[i] == t;
      forall j | 0 <= j < |t| ensures IsWordChar(t[j]) && !IsUpper(t[j]) {
        WordCharsNormal(question, i, j);
      }
    }
  }

  /** A token of the normalized question is a term exactly when it is longer
      than two characters and not a stop word. */
  lemma TermsComplete(question: string, w: string)
    ensures w in ExtractKeyTerms(question).terms
        <==> w in Words(question) && |w| > 2 && w !in StopWords
  {
    var words := Words(question);
    var long := Filter(words, LongWord);
    var kept := Filter(long, NotStopWord);
    if w in words && |w| > 2 && w !in StopWords {
      var i :| 0 <= i < |words| && words[i] == w;
      var j :| 0 <= j < |long| && long[j] == w;
      var k :| 0 <= k < |kept| && kept[k] == w;
    }
    if w in kept {
      var k :| 0 <= k < |kept| && kept[k] == w;
      var j :| 0 <= j < |long| && long[j] == w;
    }
  }

  /** Every entity is a capitalised-word run that occurs in the original-case
      question where the pattern cannot extend it; the entities are
      duplicate-free. */
  lemma EntitiesWellFormed(question: string)
    ensures Distinct(ExtractKeyTerms(question).entities)
    ensures forall e :: e in ExtractKeyTerms(question).entities ==>
      EntityShaped(e) && OccursWhole(question, e) && Includes(question, e)
  {
    var matches := EntityMatches(question, 0);
    forall e | e in ExtractKeyTerms(question).entities
      ensures EntityShaped(e) && OccursWhole(question, e) && Includes(question, e)
    {
      var k :| 0 <= k < |matches| && matches[k] == e;
      assert OccursWhole(question, matches[k]);
      var p: nat :| p <= |question| && MatchAt(question, e, p) && CannotExtend(question, p, |e|);
    }
  }

  /** Every capitalised word of the question, an upper-case letter followed by
      a lower-case one, shows up inside some entity. */
  lemma EntitiesCoverQuestion(question: string, k: nat)
    requires k + 1 < |question| && IsUpper(question[k]) && IsLower(question[k + 1])
    ensures exists e :: e in ExtractKeyTerms(question).entities && Includes(e, question[k..k + 2])
  {
    EntityCovers(question, 0, k);
    var e :| e in EntityMatches(question, 0) && Includes(e, question[k..k + 2]);
    assert e in ExtractKeyTerms(question).entities;
  }

  /** A question that is a single entity-shaped phrase has exactly that
      phrase as its one entity: the match is not cut short. */
  lemma ShapedQuestionEntity(question: string)
    requires EntityShaped(question)
    ensures ExtractKeyTerms(question).entities == [question]
  {
    EntityMatchesWhole(question);
    assert Distinct([question]);
  }

  /** "Joe Biden" is one entity, not "Joe" and "Biden". */
  lemma JoeBidenEntity()
    ensures ExtractKeyTerms("Joe Biden").entities == ["Joe Biden"]
  {
    EntityShapeExamples();
    ShapedQuestionEntity("Joe Biden");
  }

  /** "Joe" does not occur whole in "Joe Biden": the pattern extends it. */
  lemma JoeNotWhole()
    ensures !OccursWhole("Joe Biden", "Joe")
  {
    var s := "Joe Biden";
    forall p: nat | p <= |s| && MatchAt(s, "Joe", p)
      ensures !CannotExtend(s, p, 3)
    {
      JoeOnlyAtStart(p);
      JoeExtends();
    }
  }

  /** "Joe" occurs in "Joe Biden" only at the start. */
  lemma JoeOnlyAtStart(p: nat)
    requires MatchAt("Joe Biden", "Joe", p)
    ensures p == 0
  {
    assert "Joe Biden"[p..p + 3][0] == "Joe Biden"[p];
  }

  /** The word "Biden" after "Joe " extends the match of "Joe". */
  lemma JoeExtends()
    ensures !CannotExtend("Joe Biden", 0, 3)
  {
    var s := "Joe Biden";
    assert SpaceRun(s, 4) == 0;
    assert CapWord(s, 3 + SpaceRun(s, 3)) > 0;
  }

  // ---------------------------------------------------------- relevance score

  /** `terms.reduce`: half a point per occurrence of each term in `text`. */
  function TermScore(text: string, terms: seq<string>): (r: real)
    ensures r >= 0.0
  {
    if terms == [] then 0.0 else 0.5 * Count(text, terms[0]) as real + TermScore(text, terms[1..])
  }

  /** `entities.reduce`: two points per case-insensitive occurrence of each entity. */
  function EntityScore(content: string, entities: seq<string>): (r: real)
    ensures r >= 0.0
  {
    if entities == [] then 0.0
    else 2.0 * Count(Lower(content), Lower(entities[0])) as real + EntityScore(content, entities[1..])
  }

  /** `calculateRelevanceScore`: never negative, and 0 without terms and entities. */
  function RelevanceScore(content: string, terms: seq<string>, entities: seq<string>): (r: real)
    ensures r >= 0.0
    ensures terms == [] && entities == [] ==> r == 0.0
  {
    TermScore(Lower(content), terms) + EntityScore(content, entities)
  }

  lemma {:induction false} TermScorePositive(text: string, terms: seq<string>)
    ensures TermScore(text, terms) > 0.0 <==> exists t :: t in terms && Includes(text, t)
  {
    if terms != [] {
      TermScorePositive(text, terms[1..]);
      assert forall t :: t in terms <==> t == terms[0] || t in terms[1..];
    }
  }

  /** `content` contains `e` when both are lower-cased: the test of the `gi` regex. */
  predicate Mentions(content: string, e: string) {
    Includes(Lower(content), Lower(e))
  }

  lemma {:induction false} EntityScorePositive(content: string, entities: seq<string>)
    ensures EntityScore(content, entities) > 0.0 <==> exists e :: e in entities && Mentions(content, e)
  {
    if entities != [] {
      var e0, tl := entities[0], entities[1..];
      EntityScorePositive(content, tl);
      assert Count(Lower(content), Lower(e0)) > 0 <==> Mentions(content, e0);
      assert EntityScore(content, entities) == 2.0 * Count(Lower(content), Lower(e0)) as real + EntityScore(content, tl);
      if EntityScore(content, entities) > 0.0 {
        if !Mentions(content, e0) {
          var e :| e in tl && Mentions(content, e);
          assert e in entities;
        }
      } else {
        forall e | e in entities ensures !Mentions(content, e) {
          assert e == e0 || e in tl;
        }
      }
    }
  }

  /** The relevance score is positive exactly when some term occurs in the
      lower-cased content or some entity occurs in it case-insensitively. */
  lemma RelevancePositive(content: string, terms: seq<string>, entities: seq<string>)
    ensures RelevanceScore(content, terms, entities) > 0.0 <==>
      (exists t :: t in terms && Includes(Lower(content), t))
      || (exists e :: e in entities && Mentions(content, e))
  {
    TermScorePositive(Lower(content), terms);
    EntityScorePositive(content, entities);
  }

  lemma {:induction false} EntityScoreAppend(content: string, entities: seq<string>, e: string)
    ensures EntityScore(content, entities + [e])
         == EntityScore(content, entities) + 2.0 * Count(Lower(content), Lower(e)) as real
  {
    if entities == [] {
      assert entities + [e] == [e];
    } else {
      assert (entities + [e])[1..] == entities[1..] + [e];
      EntityScoreAppend(content, entities[1..], e);
    }
  }

  /** One more entity adds exactly two points per case-insensitive occurrence. */
  lemma RelevanceAddEntity(content: string, terms: seq<string>, entities: seq<string>, e: string)
    ensures RelevanceScore(content, terms, entities + [e])
         == RelevanceScore(content, terms, entities) + 2.0 * Count(Lower(content), Lower(e)) as real
  {
    EntityScoreAppend(content, entities, e);
  }

  // ------------------------------------------------------------ scored items

  datatype SourceKind = RecentNews | HistoricalNews | XPostItem | NewsApiItem

  datatype Engagement = Engagement(likes: int, retweets: int, replies: int)

  /** One entry of `scoredContent`. */
  datatype ScoredItem = ScoredItem(
    kind: SourceKind,
    title: Option<string>,
    content: Option<string>,
    summary: Option<string>,
    url: string,
    source: string,
    date: int,
    metrics: Option<Engagement>,
    baseScore: real,
    relevanceScore: real,
    finalScore: real)

  /** A row of `x_posts`. */
  datatype XPost = XPost(
    postId: string,
    authorUsername: string,
    content: Option<string>,
    neutralContent: Option<string>,
    postedAt: int,
    likes: int,
    retweets: int,
    replies: int)

  /** An article of the NewsAPI search reply. */
  datatype NewsApiArticle = NewsApiArticle(
    title: Option<string>,
    description: Option<string>,
    url: string,
    sourceName: string,
    publishedAt: int)

  /** A value interpolated into a template literal: `null` prints as "null". */
  function Show(o: Option<string>): string {
    match o
    case None => "null"
    case Some(v) => v
  }

  /** `${x || ''}`. */
  function OrEmpty(o: Option<string>): string {
    if Truthy(o) then o.value else ""
  }

  function ArticleText(a: Headline): string {
    Show(a.neutralTitle) + " " + OrEmpty(a.neutralDescription) + " " + OrEmpty(a.neutralSummary)
  }

  function DaysOld(now: int, publishedAt: int): real {
    (now - publishedAt) as real / MsPerDay as real
  }

  function ScoreRecent(a: Headline, k: KeyTerms): ScoredItem {
    var r := RelevanceScore(ArticleText(a), k.terms, k.entities);
    ScoredItem(RecentNews, Or(a.neutralTitle, Some(a.originalTitle)),
      Or(a.neutralDescription, a.originalDescription), a.neutralSummary,
      a.url, a.sourceName, a.publishedAt, None, 5.0, r, 5.0 + r)
  }

  function ScoreHistorical(a: Headline, k: KeyTerms, now: int): ScoredItem {
    var r := RelevanceScore(ArticleText(a), k.terms, k.entities);
    ScoredItem(HistoricalNews, Or(a.neutralTitle, Some(a.originalTitle)),
      Or(a.neutralDescription, a.originalDescription), a.neutralSummary,
      a.url, a.sourceName, a.publishedAt, None, 3.0, r, 3.0 + r - DaysOld(now, a.publishedAt) * 0.2)
  }

  /** `post.neutral_content || post.content`; `None` when that is `null`, for
      which `calculateRelevanceScore` throws. */
  function PostText(p: XPost): Option<string> {
    Or(p.neutralContent, p.content)
  }

  function ScorePost(p: XPost, k: KeyTerms): Option<ScoredItem> {
    match PostText(p)
    case None => None
    case Some(text) =>
      var r := RelevanceScore(text, k.terms, k.entities);
      Some(ScoredItem(XPostItem, Some("X Post from " + p.authorUsername), Some(text), None,
        "https://twitter.com/i/web/status/" + p.postId, "X (Twitter)", p.postedAt,
        Some(Engagement(p.likes, p.retweets, p.replies)), 4.0, r,
        4.0 + r + (p.likes + p.retweets) as real / 1000.0))
  }

  function ScoreNewsApi(a: NewsApiArticle, k: KeyTerms): ScoredItem {
    var r := RelevanceScore(Show(a.title) + " " + OrEmpty(a.description), k.terms, k.entities);
    ScoredItem(NewsApiItem, a.title, a.description, None, a.url, a.sourceName, a.publishedAt,
      None, 2.0, r, 2.0 + r)
  }

  predicate Qualifies(item: ScoredItem) { item.finalScore > MinScore }

  function FinalScore(item: ScoredItem): real { item.finalScore }

  /** A recent article always passes the `> 2` filter. */
  lemma RecentQualifies(a: Headline, k: KeyTerms)
    ensures ScoreRecent(a, k).finalScore >= 5.0 && Qualifies(ScoreRecent(a, k))
  {
  }

  /** A historical article passes the filter exactly when its relevance
      outweighs the age penalty: r > 0.2 * daysOld - 1. */
  lemma HistoricalQualifies(a: Headline, k: KeyTerms, now: int)
    ensures Qualifies(ScoreHistorical(a, k, now))
        <==> ScoreHistorical(a, k, now).relevanceScore > DaysOld(now, a.publishedAt) * 0.2 - 1.0
  {
  }

  /** A historical article ten days old with no matches scores exactly 1 and is dropped. */
  lemma TenDayOldUnmatchedDropped(a: Headline, now: int)
    requires now - a.publishedAt == 10 * MsPerDay
    ensures ScoreHistorical(a, KeyTerms([], []), now).finalScore == 1.0
    ensures !Qualifies(ScoreHistorical(a, KeyTerms([], []), now))
  {
  }

  /** An X post with non-negative engagement counts always passes the filter. */
  lemma PostQualifies(p: XPost, k: KeyTerms)
    requires PostText(p).Some? && p.likes >= 0 && p.retweets >= 0
    ensures ScorePost(p, k).Some? && ScorePost(p, k).value.finalScore >= 4.0
    ensures Qualifies(ScorePost(p, k).value)
  {
  }

  /** A NewsAPI article passes the filter exactly when a term or an entity
      occurs in its title and description; otherwise it scores exactly 2. */
  lemma NewsApiQualifies(a: NewsApiArticle, k: KeyTerms)
    ensures var text := Show(a.title) + " " + OrEmpty(a.description);
      Qualifies(ScoreNewsApi(a, k)) <==>
        (exists t :: t in k.terms && Includes(Lower(text), t))
        || (exists e :: e in k.entities && Mentions(text, e))
    ensures !Qualifies(ScoreNewsApi(a, k)) ==> ScoreNewsApi(a, k).finalScore == 2.0
  {
    RelevancePositive(Show(a.title) + " " + OrEmpty(a.description), k.terms, k.entities);
  }

  // ------------------------------------------------------------------ ranking

  /** The four candidate lists; `None` stands for a query that returned no
      data (`recentArticles.data || []`) or a NewsAPI request that failed. */
  datatype Sources = Sources(
    recent: Option<seq<Headline>>,
    historical: Option<seq<Headline>>,
    posts: Option<seq<XPost>>,
    newsApi: Option<seq<NewsApiArticle>>)

  /** Scores the posts in order; `None` when one of them throws. */
  function ScorePosts(ps: seq<XPost>, k: KeyTerms): (r: Option<seq<ScoredItem>>)
    ensures r.Some? ==> |r.value| == |ps|
    ensures r.None? <==> exists i :: 0 <= i < |ps| && PostText(ps[i]).None?
  {
    if ps == [] then Some([])
    else
      match (ScorePost(ps[0], k), ScorePosts(ps[1..], k))
      case (Some(item), Some(rest)) => Some([item] + rest)
      case (_, _) =>
        assert forall i :: 1 <= i < |ps| ==> ps[i] == ps[1..][i - 1];
        None
  }

  /** The concatenation recent, historical, X, NewsAPI; `None` when scoring throws. */
  function ScoreAll(src: Sources, k: KeyTerms, now: int): Option<seq<ScoredItem>> {
    var recent := src.recent.GetOr([]);
    var historical := src.historical.GetOr([]);
    var news := src.newsApi.GetOr([]);
    match ScorePosts(src.posts.GetOr([]), k)
    case None => None
    case Some(posts) =>
      Some(seq(|recent|, i requires 0 <= i < |recent| => ScoreRecent(recent[i], k))
        + seq(|historical|, i requires 0 <= i < |historical| => ScoreHistorical(historical[i], k, now))
        + posts
        + seq(|news|, i requires 0 <= i < |news| => ScoreNewsApi(news[i], k)))
  }

  function Min(a: nat, b: nat): nat { if a <= b then a else b }

  /** `filter(finalScore > 2).sort(descending).slice(0, 5)`: at most five items,
      all above 2, in non-increasing score order, drawn from the filtered list,
      and as many as the filtered list can supply. */
  function Rank(items: seq<ScoredItem>): (r: seq<ScoredItem>)
    ensures |r| == Min(TopN, |Filter(items, Qualifies)|) && |r| <= TopN
    ensures forall i :: 0 <= i < |r| ==> r[i].finalScore > MinScore
    ensures SortedDesc(r, FinalScore)
    ensures multiset(r) <= multiset(Filter(items, Qualifies))
  {
    var sorted := SortDesc(Filter(items, Qualifies), FinalScore);
    TakeSorted(sorted, Min(TopN, |sorted|), FinalScore);
    FilteredSubset(sorted[..Min(TopN, |sorted|)], items, Qualifies);
    sorted[..Min(TopN, |sorted|)]
  }

  lemma {:induction false} WithKeyQualified(s: seq<ScoredItem>, v: real)
    ensures WithKey(Filter(s, Qualifies), FinalScore, v) == if v > MinScore then WithKey(s, FinalScore, v) else []
  {
    if s != [] {
      WithKeyQualified(s[1..], v);
      var rest := Filter(s[1..], Qualifies);
      if Qualifies(s[0]) {
        var f := [s[0]] + rest;
        assert Filter(s, Qualifies) == f;
        assert f[0] == s[0] && f[1..] == rest;
        assert WithKey(f, FinalScore, v) == (if FinalScore(s[0]) == v then [s[0]] else []) + WithKey(rest, FinalScore, v);
      } else {
        assert Filter(s, Qualifies) == rest;
      }
    }
  }

  /** Equal scores keep the order of the concatenation: for every score, the
      ranked items with that score are the first ones of the input with that score. */
  lemma RankStable(items: seq<ScoredItem>, v: real)
    ensures IsPrefix(WithKey(Rank(items), FinalScore, v), WithKey(items, FinalScore, v))
  {
    var filtered := Filter(items, Qualifies);
    var sorted := SortDesc(filtered, FinalScore);
    SortDescStable(filtered, FinalScore, v);
    WithKeyQualified(items, v);
    WithKeyOfPrefix(sorted, Min(TopN, |sorted|), FinalScore, v);
  }

  /** A qualifying item that was cut scores no higher than any item kept. */
  lemma RankKeepsTheBest(items: seq<ScoredItem>, dropped: ScoredItem, kept: ScoredItem)
    requires dropped in multiset(Filter(items, Qualifies)) - multiset(Rank(items))
    requires kept in Rank(items)
    ensures dropped.finalScore <= kept.finalScore
  {
    var sorted := SortDesc(Filter(items, Qualifies), FinalScore);
    TakeDominates(sorted, Min(TopN, |sorted|), FinalScore, dropped, kept);
  }

  /** `findRelevantContent` after the fetches: an exception while scoring yields []. */
  function FindRelevantContent(question: string, src: Sources, now: int): (r: seq<ScoredItem>)
    ensures ScoreAll(src, ExtractKeyTerms(question), now).None? ==> r == []
    ensures |r| <= TopN && forall i :: 0 <= i < |r| ==> r[i].finalScore > MinScore
  {
    match ScoreAll(src, ExtractKeyTerms(question), now)
    case None => []
    case Some(items) => Rank(items)
  }

  /** One X post without any text makes the whole ranking empty. */
  lemma PostWithoutTextEmptiesRanking(question: string, src: Sources, now: int, i: nat)
    requires src.posts.Some? && i < |src.posts.value| && PostText(src.posts.value[i]).None?
    ensures FindRelevantContent(question, src, now) == []
  {
  }

  /** A source whose query failed counts as an empty list. */
  lemma FailedSourcesAreEmpty(question: string, src: Sources, now: int)
    ensures FindRelevantContent(question, src, now)
         == FindRelevantContent(question,
              Sources(Some(src.recent.GetOr([])), Some(src.historical.GetOr([])),
                      Some(src.posts.GetOr([])), Some(src.newsApi.GetOr([]))), now)
  {
  }

  /** With all four sources empty the ranking is empty. */
  lemma NoSourcesNoContent(question: string, now: int)
    ensures FindRelevantContent(question, Sources(None, None, None, None), now) == []
  {
    var k := ExtractKeyTerms(question);
    assert ScorePosts([], k) == Some([]);
    var none: seq<Headline> := [];
    var news: seq<NewsApiArticle> := [];
    assert seq(0, i requires 0 <= i < |none| => ScoreRecent(none[i], k)) == [];
    assert seq(0, i requires 0 <= i < |none| => ScoreHistorical(none[i], k, now)) == [];
    assert seq(0, i requires 0 <= i < |news| => ScoreNewsApi(news[i], k)) == [];
    assert Filter([], Qualifies) == [];
  }

  // ------------------------------------------------------------------ handler

  /** What the frontend receives per source. */
  datatype SourceLink = SourceLink(title: Option<string>, url: string, source: string, date: int)

  datatype ChatReply =
    | BadRequest(status: nat, error: string)
    | Answered(status: nat, answer: string, articles: seq<SourceLink>)
    | ServerError(status: nat, error: string)

  const QuestionRequired: string := "Question is required"

  /** The `sources` list of the answer, one link per ranked item. */
  function Links(ranked: seq<ScoredItem>): (links: seq<SourceLink>)
    ensures |links| == |ranked|
    ensures forall i :: 0 <= i < |links| ==> links[i].url == ranked[i].url && links[i].title == ranked[i].title
  {
    if ranked == [] then []
    else [SourceLink(ranked[0].title, ranked[0].url, ranked[0].source, ranked[0].date)] + Links(ranked[1..])
  }

  /** The request handler: a missing or empty question is answered 400 before
      anything is fetched; otherwise the ranked items are the cited sources and
      the language model's completion (`Err` when it throws) the answer. */
  function HandleChat(question: Option<string>, src: Sources, now: int, completion: Result<string>): (reply: ChatReply)
    ensures !Truthy(question) <==> reply == BadRequest(400, QuestionRequired)
    ensures Truthy(question) && completion.Ok? ==>
      reply == Answered(200, completion.value, Links(FindRelevantContent(question.value, src, now)))
    ensures Truthy(question) && completion.Err? ==> reply == ServerError(500, completion.message)
  {
    if !Truthy(question) then BadRequest(400, QuestionRequired)
    else
      match completion
      case Err(m) => ServerError(500, m)
      case Ok(answer) => Answered(200, answer, Links(FindRelevantContent(question.value, src, now)))
  }
}
