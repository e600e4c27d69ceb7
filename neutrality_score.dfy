/** The heuristic neutrality score of a rewritten text against its original:
    emotional words in the original cost ten points each, neutral words in the
    rewrite earn ten points each, and sentence pairs whose lengths or quotations
    differ add a bias penalty; the result is rounded and clamped to 0..100 and
    named by one of five tiers. */
module NeutralityScore {
  import opened Wrappers
  import opened Text

  const EmotionalPatterns: seq<seq<string>> := [
    ["very", "extremely", "incredibly", "absolutely", "totally"],
    ["best", "worst", "most", "least", "greatest", "tiniest"],
    ["slammed", "blasted", "ripped", "destroyed", "dominated"],
    ["terrible", "amazing", "awesome", "horrible", "perfect"],
    ["radical", "socialist", "communist", "fascist", "leftist", "rightist"]
  ]

  const NeutralPatterns: seq<seq<string>> := [
    ["stated", "reported", "announced", "explained", "described"],
    ["approximately", "estimated", "about", "roughly", "nearly"],
    ["potentially", "possibly", "likely", "according to", "suggests"]
  ]

  const PointsPerWord: nat := 10
  const PointsPerQuote: nat := 15
  const MaxLengthScore: real := 20.0

  // -------------------------------------------------------- word patterns

  /** `\b` at index `i`: a word character on exactly one side. */
  predicate Boundary(t: string, i: nat) {
    (0 < i <= |t| && IsWordChar(t[i - 1])) != (i < |t| && IsWordChar(t[i]))
  }

  /** Lower-casing does not move word boundaries, so the `i` flag can be
      modelled by lower-casing the text and matching lower-case words. */
  lemma BoundaryLower(s: string, i: nat)
    ensures Boundary(Lower(s), i) == Boundary(s, i)
  {
  }

  /** `\b(a)\b` matches at index `j`. */
  predicate WordAt(t: string, a: string, j: nat) {
    Boundary(t, j) && MatchAt(t, a, j) && Boundary(t, j + |a|)
  }

  /** The length of the first alternative, from the `k`-th on, that matches at
      `i` between word boundaries, as the regex engine tries them in order. */
  function FirstAlt(t: string, alts: seq<string>, i: nat, k: nat): (r: Option<nat>)
    ensures r.Some? ==> exists m :: k <= m < |alts| && WordAt(t, alts[m], i) && r.value == |alts[m]|
    ensures r.None? ==> forall m :: k <= m < |alts| ==> !WordAt(t, alts[m], i)
    decreases |alts| - k
  {
    if k >= |alts| then None
    else if WordAt(t, alts[k], i) then Some(|alts[k]|)
    else FirstAlt(t, alts, i, k + 1)
  }

  /** The number of matches of `\b(alts)\b` with the global flag from index `i`
      on; a match resumes after its end (one step further after an empty one). */
  function MatchesFrom(t: string, alts: seq<string>, i: nat): (n: nat)
    decreases |t| + 1 - i
  {
    if i > |t| then 0
    else
      match FirstAlt(t, alts, i, 0)
      case None => MatchesFrom(t, alts, i + 1)
      case Some(len) =>
        var next := if len == 0 then i + 1 else i + len;
        assert next <= |t| + 1 by {
          var m :| 0 <= m < |alts| && WordAt(t, alts[m], i) && len == |alts[m]|;
        }
        1 + MatchesFrom(t, alts, next)
  }

  /** A pattern group matches somewhere from `i` on exactly when one of its
      words occurs there as a whole word. */
  lemma {:induction false} MatchesFromPositive(t: string, alts: seq<string>, i: nat)
    ensures MatchesFrom(t, alts, i) > 0
        <==> exists j, m :: i <= j && 0 <= m < |alts| && WordAt(t, alts[m], j)
    decreases |t| + 1 - i
  {
    if i > |t| {
      forall j, m | i <= j && 0 <= m < |alts| ensures !WordAt(t, alts[m], j) { }
    } else {
      match FirstAlt(t, alts, i, 0)
      case Some(len) =>
        var m :| 0 <= m < |alts| && WordAt(t, alts[m], i) && len == |alts[m]|;
      case None =>
        MatchesFromPositive(t, alts, i + 1);
        if MatchesFrom(t, alts, i) == 0 {
          forall j, m | i <= j && 0 <= m < |alts| ensures !WordAt(t, alts[m], j) {
            if j == i {
              assert !WordAt(t, alts[m], i);
            }
          }
        }
    }
  }

  /** `s.match(/\b(...)\b/gi) || []` has this many entries. */
  function WordMatches(s: string, alts: seq<string>): nat {
    MatchesFrom(Lower(s), alts, 0)
  }

  /** The number of matches over all groups. */
  function GroupMatches(s: string, groups: seq<seq<string>>): nat {
    if groups == [] then 0 else WordMatches(s, groups[0]) + GroupMatches(s, groups[1..])
  }

  /** `Object.values(patterns).reduce(...)`: ten points per match of every group. */
  function PatternScore(s: string, groups: seq<seq<string>>): (n: nat)
    ensures n % PointsPerWord == 0
    ensures n > 0 <==> GroupMatches(s, groups) > 0
  {
    PointsPerWord * GroupMatches(s, groups)
  }

  lemma {:induction false} GroupMatchesPositive(s: string, groups: seq<seq<string>>)
    ensures GroupMatches(s, groups) > 0
        <==> exists g, j, m :: 0 <= g < |groups| && 0 <= m < |groups[g]| && WordAt(Lower(s), groups[g][m], j)
  {
    if groups != [] {
      GroupMatchesPositive(s, groups[1..]);
      MatchesFromPositive(Lower(s), groups[0], 0);
      if GroupMatches(s, groups) > 0 && WordMatches(s, groups[0]) == 0 {
        var g, j, m :| 0 <= g < |groups[1..]| && 0 <= m < |groups[1..][g]| && WordAt(Lower(s), groups[1..][g][m], j);
        assert groups[1..][g] == groups[g + 1];
      }
      if GroupMatches(s, groups) == 0 {
        forall g, j, m | 0 <= g < |groups| && 0 <= m < |groups[g]| ensures !WordAt(Lower(s), groups[g][m], j) {
          if g > 0 {
            assert groups[1..][g - 1] == groups[g];
          }
        }
      }
    }
  }

  /** A pattern score is positive exactly when a word of some group occurs in
      the (lower-cased) text as a whole word. */
  lemma PatternScorePositive(s: string, groups: seq<seq<string>>)
    ensures PatternScore(s, groups) > 0
        <==> exists g, j, m :: 0 <= g < |groups| && 0 <= m < |groups[g]| && WordAt(Lower(s), groups[g][m], j)
  {
    GroupMatchesPositive(s, groups);
  }

  // -------------------------------------------------------------- sentences

  predicate IsTerminator(c: char) { c == '.' || c == '!' || c == '?' }

  predicate NoTerminator(s: string) { forall i :: 0 <= i < |s| ==> !IsTerminator(s[i]) }

  function RunLen(s: string): (n: nat)
    ensures n <= |s| && NoTerminator(s[..n])
    ensures n < |s| ==> IsTerminator(s[n])
  {
    if s == [] || IsTerminator(s[0]) then 0
    else
      var n := 1 + RunLen(s[1..]);
      assert forall i :: 1 <= i < n ==> s[..n][i] == s[1..][..n - 1][i - 1];
      n
  }

  /** `s.split(/[.!?]+/).filter(Boolean)`: the maximal non-empty runs of
      characters other than `.`, `!` and `?`. */
  function Sentences(s: string): (r: seq<string>)
    ensures forall k :: 0 <= k < |r| ==> |r[k]| > 0 && NoTerminator(r[k])
    decreases |s|
  {
    if s == [] then []
    else if IsTerminator(s[0]) then Sentences(s[1..])
    else
      var n := RunLen(s);
      [s[..n]] + Sentences(s[n..])
  }

  /** The run before a terminator that follows `a` stops inside `a` or at its end. */
  lemma {:induction false} RunLenAppend(a: string, t: char, b: string)
    requires IsTerminator(t)
    ensures RunLen(a + [t] + b) == RunLen(a)
    decreases |a|
  {
    if a != [] && !IsTerminator(a[0]) {
      assert (a + [t] + b)[1..] == a[1..] + [t] + b;
      RunLenAppend(a[1..], t, b);
    }
  }

  /** Text with no terminator is one sentence. */
  lemma SentencesOfClean(a: string)
    requires a != [] && NoTerminator(a)
    ensures Sentences(a) == [a]
  {
    assert !IsTerminator(a[0]);
    assert RunLen(a) == |a|;
    assert a[..|a|] == a && a[|a|..] == [];
    assert Sentences(a) == [a] + Sentences([]);
  }

  /** Sentences are cut exactly at terminators: a terminator between two
      pieces of text separates their sentences. */
  lemma {:induction false} SentencesAppend(a: string, t: char, b: string)
    requires IsTerminator(t)
    ensures Sentences(a + [t] + b) == Sentences(a) + Sentences(b)
    decreases |a|
  {
    var s := a + [t] + b;
    if a == [] {
      assert s == [t] + b && s[1..] == b;
    } else if IsTerminator(a[0]) {
      assert s[1..] == a[1..] + [t] + b;
      SentencesAppend(a[1..], t, b);
    } else {
      RunLenAppend(a, t, b);
      var n := RunLen(a);
      assert s[..n] == a[..n] && s[n..] == a[n..] + [t] + b;
      if n < |a| {
        SentencesAppend(a[n..], t, b);
      } else {
        assert a[n..] == [] && s[n..] == [t] + b && s[n..][1..] == b;
      }
    }
  }

  function Flatten(parts: seq<string>): string {
    if parts == [] then [] else parts[0] + Flatten(parts[1..])
  }

  function DropTerminators(s: string): (r: string)
    ensures NoTerminator(r)
  {
    if s == [] then []
    else (if IsTerminator(s[0]) then [] else [s[0]]) + DropTerminators(s[1..])
  }

  lemma DropTerminatorsAppend(a: string, b: string)
    ensures DropTerminators(a + b) == DropTerminators(a) + DropTerminators(b)
  {
    if a == [] {
      assert a + b == b;
    } else {
      assert (a + b)[0] == a[0] && (a + b)[1..] == a[1..] + b;
      DropTerminatorsAppend(a[1..], b);
    }
  }

  lemma DropTerminatorsOfClean(s: string)
    requires NoTerminator(s)
    ensures DropTerminators(s) == s
  {
    if s != [] {
      assert NoTerminator(s[1..]) by { assert forall i :: 0 <= i < |s| - 1 ==> s[1..][i] == s[i + 1]; }
      DropTerminatorsOfClean(s[1..]);
    }
  }

  /** The sentences are the text without its `.`, `!` and `?` characters, cut apart. */
  lemma {:induction false} SentencesKeepText(s: string)
    ensures Flatten(Sentences(s)) == DropTerminators(s)
    decreases |s|
  {
    if s != [] {
      if IsTerminator(s[0]) {
        SentencesKeepText(s[1..]);
      } else {
        var n := RunLen(s);
        SentencesKeepText(s[n..]);
        assert s == s[..n] + s[n..];
        DropTerminatorsAppend(s[..n], s[n..]);
        DropTerminatorsOfClean(s[..n]);
        assert ([s[..n]] + Sentences(s[n..]))[1..] == Sentences(s[n..]);
      }
    }
  }

  // ----------------------------------------------------------------- quotes

  /** The number of `"` characters from index `i` on. */
  function QuoteChars(s: string, i: nat): nat
    decreases |s| - i
  {
    if i >= |s| then 0 else (if s[i] == '"' then 1 else 0) + QuoteChars(s, i + 1)
  }

  /** The first `"` at or after index `i`. */
  function NextQuote(s: string, i: nat): (r: Option<nat>)
    ensures r.Some? ==> i <= r.value < |s| && s[r.value] == '"'
    ensures r.Some? ==> forall j :: i <= j < r.value ==> s[j] != '"'
    ensures r.None? ==> forall j :: i <= j < |s| ==> s[j] != '"'
    decreases |s| - i
  {
    if i >= |s| then None else if s[i] == '"' then Some(i) else NextQuote(s, i + 1)
  }

  /** The number of matches of `/"([^"]*)"/g` from index `i` on: an opening
      quote and the next quote after it, again and again. */
  function QuotePairs(s: string, i: nat): nat
    decreases |s| - i
  {
    match NextQuote(s, i)
    case None => 0
    case Some(a) =>
      match NextQuote(s, a + 1)
      case None => 0
      case Some(b) => 1 + QuotePairs(s, b + 1)
  }

  lemma {:induction false} QuoteCharsSkip(s: string, i: nat, a: nat)
    requires i <= a
    requires forall j :: i <= j < a && j < |s| ==> s[j] != '"'
    ensures QuoteChars(s, i) == QuoteChars(s, a)
    decreases a - i
  {
    if i < a {
      QuoteCharsSkip(s, i + 1, a);
    }
  }

  /** Without a quote from `i` on there are no quote characters there. */
  lemma QuoteCharsNone(s: string, i: nat)
    requires NextQuote(s, i).None?
    ensures QuoteChars(s, i) == 0
  {
    if i < |s| {
      QuoteCharsSkip(s, i, |s|);
    }
  }

  /** The quote characters from `i` are the first quote and those after it. */
  lemma QuoteCharsFirst(s: string, i: nat, a: nat)
    requires NextQuote(s, i) == Some(a)
    ensures QuoteChars(s, i) == 1 + QuoteChars(s, a + 1)
  {
    QuoteCharsSkip(s, i, a);
  }

  /** One matched quotation: its two quotes and what follows them. */
  lemma QuotePairStep(s: string, i: nat, a: nat, b: nat)
    requires NextQuote(s, i) == Some(a) && NextQuote(s, a + 1) == Some(b)
    ensures QuotePairs(s, i) == 1 + QuotePairs(s, b + 1)
    ensures QuoteChars(s, i) == 2 + QuoteChars(s, b + 1)
  {
    QuoteCharsFirst(s, i, a);
    QuoteCharsFirst(s, a + 1, b);
  }

  /** The quotations matched in a text are half its quote characters, rounded down. */
  lemma {:induction false} QuotePairsHalf(s: string, i: nat)
    ensures QuoteChars(s, i) == 2 * QuotePairs(s, i) || QuoteChars(s, i) == 2 * QuotePairs(s, i) + 1
    decreases |s| - i
  {
    var first := NextQuote(s, i);
    if first.None? {
      QuoteCharsNone(s, i);
    } else {
      var second := NextQuote(s, first.value + 1);
      if second.None? {
        QuoteCharsFirst(s, i, first.value);
        QuoteCharsNone(s, first.value + 1);
      } else {
        QuotePairStep(s, i, first.value, second.value);
        QuotePairsHalf(s, second.value + 1);
      }
    }
  }

  // ------------------------------------------------------------------- bias

  function Abs(x: int): nat { if x < 0 then -x else x }

  /** `Math.min(lengthDiff / sentence.length * 50, 20)`. */
  function LengthScore(o: string, n: string): (r: real)
    requires |o| > 0
    ensures 0.0 <= r <= MaxLengthScore
    ensures |o| == |n| ==> r == 0.0
  {
    var v := Abs(|o| - |n|) as real / |o| as real * 50.0;
    if v < MaxLengthScore then v else MaxLengthScore
  }

  /** Fifteen points per quotation gained or lost in a sentence. */
  function QuoteScore(o: string, n: string): (r: nat)
    ensures r % PointsPerQuote == 0
    ensures QuoteChars(o, 0) == QuoteChars(n, 0) ==> r == 0
  {
    QuotePairsHalf(o, 0);
    QuotePairsHalf(n, 0);
    Abs(QuotePairs(o, 0) - QuotePairs(n, 0)) * PointsPerQuote
  }

  /** The bias penalty over the sentence pairs of equal index; sentences of
      the original without a counterpart add nothing. */
  function BiasScore(os: seq<string>, ns: seq<string>): (r: real)
    requires forall k :: 0 <= k < |os| ==> |os[k]| > 0
    ensures r >= 0.0
  {
    if os == [] || ns == [] then 0.0
    else LengthScore(os[0], ns[0]) + QuoteScore(os[0], ns[0]) as real + BiasScore(os[1..], ns[1..])
  }

  /** Identical sentence lists carry no bias. */
  lemma {:induction false} BiasOfSelf(ss: seq<string>)
    requires forall k :: 0 <= k < |ss| ==> |ss[k]| > 0
    ensures BiasScore(ss, ss) == 0.0
  {
    if ss != [] {
      BiasOfSelf(ss[1..]);
    }
  }

  /** Sentences without a counterpart add nothing: with one side empty the bias is zero. */
  lemma {:induction false} BiasOfNothing(os: seq<string>)
    requires forall k :: 0 <= k < |os| ==> |os[k]| > 0
    ensures BiasScore(os, []) == 0.0 && BiasScore([], os) == 0.0
  {
  }

  // ------------------------------------------------------------ final score

  datatype Metrics = Metrics(emotionalScore: nat, neutralScore: nat, biasScore: real, finalScore: int)

  /** `Math.round` of a non-negative number. */
  function Round(x: real): int { (x + 0.5).Floor }

  function Clamp(x: real): (r: real)
    ensures 0.0 <= r <= 100.0
    ensures 0.0 <= x <= 100.0 ==> r == x
  {
    if x < 0.0 then 0.0 else if x > 100.0 then 100.0 else x
  }

  /** `calculateNeutralityScore`: all zero when either text is missing or
      empty; otherwise the final score is an integer in 0..100. */
  function CalculateNeutralityScore(original: string, neutral: Option<string>): (m: Metrics)
    ensures original == [] || !Truthy(neutral) ==> m == Metrics(0, 0, 0.0, 0)
    ensures 0 <= m.finalScore <= 100
    ensures m.emotionalScore % PointsPerWord == 0 && m.neutralScore % PointsPerWord == 0
    ensures m.biasScore >= 0.0
  {
    if original == [] || !Truthy(neutral) then Metrics(0, 0, 0.0, 0)
    else
      var e := PatternScore(original, EmotionalPatterns);
      var n := PatternScore(neutral.value, NeutralPatterns);
      var b := BiasScore(Sentences(original), Sentences(neutral.value));
      var raw := 100.0 - ((e - n) as real + b);
      var raw := if raw < 0.0 then 0.0 else raw;
      Metrics(e, n, b, Round(Clamp(raw)))
  }

  /** The final score is exactly 100 minus the emotional score, plus the
      neutral score, minus the bias, clamped to 0..100 and rounded. */
  lemma FinalScoreFormula(original: string, neutral: string)
    requires original != [] && neutral != []
    ensures var m := CalculateNeutralityScore(original, Some(neutral));
      m.finalScore == Round(Clamp(100.0 - m.emotionalScore as real + m.neutralScore as real - m.biasScore))
  {
  }

  /** A text compared with itself and free of emotional words scores 100. */
  lemma UnchangedCalmTextScoresFull(s: string)
    requires s != [] && PatternScore(s, EmotionalPatterns) == 0
    ensures CalculateNeutralityScore(s, Some(s)).finalScore == 100
  {
    BiasOfSelf(Sentences(s));
  }

  /** Against a rewrite with no neutral word and no sentence, each emotional
      word of the original costs ten points and nothing else counts. */
  lemma EmotionOnlyAgainstBareRewrite(original: string, neutral: string)
    requires original != [] && neutral != []
    requires PatternScore(neutral, NeutralPatterns) == 0
    requires Sentences(neutral) == []
    ensures CalculateNeutralityScore(original, Some(neutral)).finalScore
         == Round(Clamp(100.0 - PatternScore(original, EmotionalPatterns) as real))
  {
    BiasOfNothing(Sentences(original));
  }

  // ----------------------------------------------------------- label, colour

  /** The five tiers, 4 (at least 90) down to 0 (below 60). */
  function Tier(score: real): (t: nat)
    ensures t <= 4
  {
    if score >= 90.0 then 4 else if score >= 80.0 then 3 else if score >= 70.0 then 2
    else if score >= 60.0 then 1 else 0
  }

  const Labels: seq<string> := ["Minimally Neutral", "Somewhat Neutral", "Moderately Neutral", "Very Neutral", "Highly Neutral"]

  const Colors: seq<string> := ["text-red-500", "text-yellow-600", "text-yellow-500", "text-green-500", "text-green-600"]

  function NeutralityLabel(score: real): (r: string)
    ensures r == Labels[Tier(score)]
  {
    if score >= 90.0 then "Highly Neutral"
    else if score >= 80.0 then "Very Neutral"
    else if score >= 70.0 then "Moderately Neutral"
    else if score >= 60.0 then "Somewhat Neutral"
    else "Minimally Neutral"
  }

  function NeutralityColor(score: real): (r: string)
    ensures r == Colors[Tier(score)]
  {
    if score >= 90.0 then "text-green-600"
    else if score >= 80.0 then "text-green-500"
    else if score >= 70.0 then "text-yellow-500"
    else if score >= 60.0 then "text-yellow-600"
    else "text-red-500"
  }

  /** A higher score never falls into a lower tier. */
  lemma TierMonotone(a: real, b: real)
    requires a <= b
    ensures Tier(a) <= Tier(b)
  {
  }

  /** Two scores get the same label exactly when they get the same colour. */
  lemma LabelMatchesColor(a: real, b: real)
    ensures NeutralityLabel(a) == NeutralityLabel(b) <==> NeutralityColor(a) == NeutralityColor(b)
    ensures NeutralityLabel(a) == NeutralityLabel(b) <==> Tier(a) == Tier(b)
  {
  }
}
