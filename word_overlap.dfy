/** The word-overlap neutrality score shown on the landing page and on shared
    articles: the share of original words that the rewrite no longer uses,
    as a whole percentage. */
module WordOverlap {
  import opened Wrappers
  import opened Text

  /** `s.toLowerCase().split(/\s+/)`. */
  function WordsOf(s: string): (ws: seq<string>)
    ensures |ws| >= 1
  {
    SplitSpaces(Lower(s))
  }

  /** `originalWords.filter(word => neutralWords.includes(word))`: the original
      tokens, repeats included, that also occur among the rewrite's tokens. */
  function CommonWords(ow: seq<string>, nw: seq<string>): (c: seq<string>)
    ensures |c| <= |ow|
    ensures forall w :: multiset(c)[w] == if w in nw then multiset(ow)[w] else 0
  {
    if ow == [] then []
    else
      assert ow == [ow[0]] + ow[1..];
      (if ow[0] in nw then [ow[0]] else []) + CommonWords(ow[1..], nw)
  }

  function Max(a: nat, b: nat): nat { if a >= b then a else b }

  /** `Math.round`. */
  function Round(x: real): int { (x + 0.5).Floor }

  /** `calculateNeutralityScore` of the landing and share pages: 0 when either
      text is empty or missing, otherwise a whole percentage in 0..100. */
  function OverlapScore(original: string, neutral: Option<string>): (r: int)
    ensures original == [] || !Truthy(neutral) ==> r == 0
    ensures 0 <= r <= 100
  {
    if original == [] || !Truthy(neutral) then 0
    else
      var ow := WordsOf(original);
      var nw := WordsOf(neutral.value);
      Percent(|CommonWords(ow, nw)|, Max(|ow|, |nw|))
  }

  /** `Math.round((1 - c / m) * 100)`. */
  function Percent(c: nat, m: nat): (r: int)
    requires 0 < m && c <= m
    ensures 0 <= r <= 100
    ensures c == 0 ==> r == 100
    ensures c == m ==> r == 0
  {
    RatioBounds(c, m);
    Round((1.0 - c as real / m as real) * 100.0)
  }

  lemma RatioBounds(c: nat, m: nat)
    requires 0 < m && c <= m
    ensures 0.0 <= c as real / m as real <= 1.0
    ensures c == m ==> c as real / m as real == 1.0
  {
    assert c as real <= m as real;
    if c == m {
      var x := m as real;
      assert x > 0.0;
      assert x / x == 1.0;
    }
  }

  /** A text compared with itself scores 0. */
  lemma SameTextScoresZero(s: string)
    requires s != []
    ensures OverlapScore(s, Some(s)) == 0
  {
    var ws := WordsOf(s);
    CommonAll(ws, ws);
  }

  lemma {:induction false} CommonAll(ow: seq<string>, nw: seq<string>)
    requires forall i :: 0 <= i < |ow| ==> ow[i] in nw
    ensures CommonWords(ow, nw) == ow
  {
    if ow != [] {
      CommonAll(ow[1..], nw);
    }
  }

  lemma {:induction false} CommonNone(ow: seq<string>, nw: seq<string>)
    requires forall i :: 0 <= i < |ow| ==> ow[i] !in nw
    ensures CommonWords(ow, nw) == []
  {
    if ow != [] {
      CommonNone(ow[1..], nw);
    }
  }

  /** Texts without a shared lower-cased token score 100. */
  lemma DisjointTextsScoreFull(original: string, neutral: string)
    requires original != [] && neutral != []
    requires forall i :: 0 <= i < |WordsOf(original)| ==> WordsOf(original)[i] !in WordsOf(neutral)
    ensures OverlapScore(original, Some(neutral)) == 100
  {
    var ow, nw := WordsOf(original), WordsOf(neutral);
    CommonNone(ow, nw);
  }
}
