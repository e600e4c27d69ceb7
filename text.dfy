/** String primitives of the JavaScript runtime that the application relies on:
    the `\s` and `\w` character classes, ASCII case mapping, `split`, `includes`,
    `trim`, non-overlapping literal matching, number-to-decimal conversion and
    the `[...new Set(xs)]` de-duplication idiom. */
module Text {
  import opened Wrappers

  /** JavaScript truthiness of a `string | null` value: present and non-empty. */
  predicate Truthy(o: Option<string>) {
    o.Some? && o.value != []
  }

  /** `a || b` on two `string | null` values. */
  function Or(a: Option<string>, b: Option<string>): (r: Option<string>)
    ensures Truthy(a) ==> r == a
    ensures !Truthy(a) ==> r == b
  {
    if Truthy(a) then a else b
  }

  /** The characters matched by JavaScript's `\s` and removed by `String.prototype.trim`. */
  predicate IsSpace(c: char) {
    c == '\t' || c == '\n' || c == '\U{000B}' || c == '\U{000C}' || c == '\r' || c == ' '
    || c == '\U{00A0}' || c == '\U{1680}' || ('\U{2000}' <= c <= '\U{200A}')
    || c == '\U{2028}' || c == '\U{2029}' || c == '\U{202F}' || c == '\U{205F}'
    || c == '\U{3000}' || c == '\U{FEFF}'
  }

  /** JavaScript's `\w`: ASCII letters, digits and the underscore. */
  predicate IsWordChar(c: char) {
    ('a' <= c <= 'z') || ('A' <= c <= 'Z') || ('0' <= c <= '9') || c == '_'
  }

  predicate IsUpper(c: char) { 'A' <= c <= 'Z' }

  predicate IsLower(c: char) { 'a' <= c <= 'z' }

  predicate NoSpace(s: string) { forall i :: 0 <= i < |s| ==> !IsSpace(s[i]) }

  /** `trim()` of the string is empty. */
  predicate IsBlank(s: string) { forall i :: 0 <= i < |s| ==> IsSpace(s[i]) }

  predicate Distinct<T(==)>(s: seq<T>) {
    forall i, j :: 0 <= i < j < |s| ==> s[i] != s[j]
  }

  function LowerChar(c: char): char {
    if IsUpper(c) then (c as int + 32) as char else c
  }

  /** Lower-casing; only the ASCII letters change. */
  function Lower(s: string): (r: string)
    ensures |r| == |s|
    ensures forall i :: 0 <= i < |s| ==> r[i] == LowerChar(s[i])
  {
    if s == [] then [] else [LowerChar(s[0])] + Lower(s[1..])
  }

  /** `p` occurs in `s` starting at index `j`. */
  predicate MatchAt(s: string, p: string, j: nat) {
    j + |p| <= |s| && s[j..j + |p|] == p
  }

  /** The first index at or after `i` at which `p` occurs in `s`. */
  function IndexFrom(s: string, p: string, i: nat): (r: Option<nat>)
    ensures r.Some? ==> i <= r.value && MatchAt(s, p, r.value)
    ensures r.Some? ==> forall j :: i <= j < r.value ==> !MatchAt(s, p, j)
    ensures r.None? ==> forall j :: i <= j ==> !MatchAt(s, p, j)
    decreases |s| - i
  {
    if i + |p| > |s| then None
    else if s[i..i + |p|] == p then Some(i)
    else IndexFrom(s, p, i + 1)
  }

  /** The first index at which `p` occurs in `s` (`indexOf`, `RegExp.exec` for a literal). */
  function IndexOf(s: string, p: string): (r: Option<nat>)
    ensures r.Some? ==> MatchAt(s, p, r.value)
    ensures r.Some? ==> forall j :: 0 <= j < r.value ==> !MatchAt(s, p, j)
    ensures r.None? ==> forall j :: 0 <= j ==> !MatchAt(s, p, j)
  {
    IndexFrom(s, p, 0)
  }

  /** `s.includes(p)`. */
  function Includes(s: string, p: string): (b: bool)
    ensures b <==> exists j: nat :: MatchAt(s, p, j)
  {
    IndexOf(s, p).Some?
  }

  function StartsWith(s: string, p: string): bool {
    |p| <= |s| && s[..|p|] == p
  }

  /** The number of matches of the literal pattern `p` with the global flag:
      matches are found left to right and do not overlap. */
  function Count(s: string, p: string): (n: nat)
    ensures |p| > 0 ==> n <= |s|
    ensures n > 0 <==> Includes(s, p)
    decreases |s|
  {
    if |p| == 0 then
      assert MatchAt(s, p, 0);
      |s| + 1
    else
      match IndexOf(s, p)
      case None => 0
      case Some(i) =>
        1 + Count(s[i + |p|..], p)
  }

  /** Length of the leading run of non-space characters. */
  function TokenLen(s: string): (k: nat)
    ensures k <= |s| && NoSpace(s[..k]) && (k < |s| ==> IsSpace(s[k]))
  {
    if s == [] || IsSpace(s[0]) then 0 else 1 + TokenLen(s[1..])
  }

  /** Length of the leading run of space characters. */
  function SpaceLen(s: string): (k: nat)
    ensures k <= |s| && IsBlank(s[..k]) && (k < |s| ==> !IsSpace(s[k]))
  {
    if s == [] || !IsSpace(s[0]) then 0 else 1 + SpaceLen(s[1..])
  }

  /** `s.split(/\s+/)`: the pieces between maximal runs of white space, with an
      empty piece where the string starts or ends with white space. */
  function SplitSpaces(s: string): (parts: seq<string>)
    ensures |parts| >= 1
    ensures forall i :: 0 <= i < |parts| ==> NoSpace(parts[i])
    decreases |s|
  {
    var k := TokenLen(s);
    if k == |s| then assert s[..k] == s; [s]
    else
      var w := SpaceLen(s[k..]);
      [s[..k]] + SplitSpaces(s[k + w..])
  }

  function Concat(parts: seq<string>): string {
    if parts == [] then [] else parts[0] + Concat(parts[1..])
  }

  function RemoveSpaces(s: string): (r: string)
    ensures NoSpace(r)
  {
    if s == [] then [] else (if IsSpace(s[0]) then [] else [s[0]]) + RemoveSpaces(s[1..])
  }

  lemma RemoveSpacesAppend(a: string, b: string)
    ensures RemoveSpaces(a + b) == RemoveSpaces(a) + RemoveSpaces(b)
  {
    if a == [] {
      assert a + b == b;
    } else {
      assert (a + b)[0] == a[0] && (a + b)[1..] == a[1..] + b;
      RemoveSpacesAppend(a[1..], b);
    }
  }

  lemma RemoveSpacesOfBlank(s: string)
    requires IsBlank(s)
    ensures RemoveSpaces(s) == []
  {
    if s != [] { RemoveSpacesOfBlank(s[1..]); }
  }

  lemma RemoveSpacesNoSpace(s: string)
    requires NoSpace(s)
    ensures RemoveSpaces(s) == s
  {
    if s != [] { RemoveSpacesNoSpace(s[1..]); }
  }

  lemma ConcatCons(x: string, t: seq<string>)
    ensures Concat([x] + t) == x + Concat(t)
  {
    assert ([x] + t)[0] == x && ([x] + t)[1..] == t;
  }

  /** Removing the spaces of a token, a run of white space and a rest. */
  lemma RemoveSpacesStep(s: string, k: nat, w: nat)
    requires k + w <= |s| && NoSpace(s[..k]) && IsBlank(s[k..][..w])
    ensures RemoveSpaces(s) == s[..k] + RemoveSpaces(s[k + w..])
  {
    assert s == s[..k] + s[k..][..w] + s[k + w..];
    RemoveSpacesAppend(s[..k] + s[k..][..w], s[k + w..]);
    RemoveSpacesAppend(s[..k], s[k..][..w]);
    RemoveSpacesNoSpace(s[..k]);
    RemoveSpacesOfBlank(s[k..][..w]);
  }

  /** The pieces of `split(/\s+/)` hold exactly the non-space characters of the string, in order. */
  lemma {:induction false} SplitSpacesKeepsText(s: string)
    ensures Concat(SplitSpaces(s)) == RemoveSpaces(s)
    decreases |s|
  {
    var k := TokenLen(s);
    if k == |s| {
      assert s[..k] == s;
      RemoveSpacesNoSpace(s);
    } else {
      var w := SpaceLen(s[k..]);
      var rest := s[k + w..];
      SplitSpacesKeepsText(rest);
      ConcatCons(s[..k], SplitSpaces(rest));
      RemoveSpacesStep(s, k, w);
    }
  }

  lemma {:induction false} ConcatHas(parts: seq<string>, i: nat, j: nat)
    requires i < |parts| && j < |parts[i]|
    ensures parts[i][j] in Concat(parts)
  {
    if i == 0 {
      assert Concat(parts)[j] == parts[0][j];
    } else {
      ConcatHas(parts[1..], i - 1, j);
      assert parts[1..][i - 1] == parts[i];
    }
  }

  lemma {:induction false} RemoveSpacesFrom(s: string, c: char)
    requires c in RemoveSpaces(s)
    ensures c in s
  {
    if s != [] {
      if c != s[0] {
        RemoveSpacesFrom(s[1..], c);
      }
    }
  }

  /** Every character of a piece of `split(/\s+/)` comes from the string. */
  lemma SplitSpacesChars(s: string, i: nat, j: nat)
    requires i < |SplitSpaces(s)| && j < |SplitSpaces(s)[i]|
    ensures SplitSpaces(s)[i][j] in s
  {
    ConcatHas(SplitSpaces(s), i, j);
    SplitSpacesKeepsText(s);
    RemoveSpacesFrom(s, SplitSpaces(s)[i][j]);
  }

  /** `s.split(sep)` for a non-empty literal separator. */
  function Split(s: string, sep: string): (parts: seq<string>)
    requires |sep| > 0
    ensures |parts| >= 1
    ensures forall i :: 0 <= i < |parts| ==> !Includes(parts[i], sep)
    decreases |s|
  {
    match IndexOf(s, sep)
    case None => [s]
    case Some(i) =>
      assert forall j: nat :: MatchAt(s[..i], sep, j) ==> MatchAt(s, sep, j);
      [s[..i]] + Split(s[i + |sep|..], sep)
  }

  /** `parts.join(sep)`. */
  function Join(parts: seq<string>, sep: string): string {
    if parts == [] then []
    else if |parts| == 1 then parts[0]
    else parts[0] + sep + Join(parts[1..], sep)
  }

  /** Joining the pieces of a split with the separator gives back the string. */
  lemma {:induction false} JoinSplit(s: string, sep: string)
    requires |sep| > 0
    ensures Join(Split(s, sep), sep) == s
    decreases |s|
  {
    match IndexOf(s, sep)
    case None =>
    case Some(i) =>
      var rest := s[i + |sep|..];
      var tail := Split(rest, sep);
      assert Split(s, sep) == [s[..i]] + tail;
      assert ([s[..i]] + tail)[1..] == tail;
      JoinSplit(rest, sep);
      assert Join(Split(s, sep), sep) == s[..i] + sep + rest;
      assert s == s[..i] + sep + rest;
  }

  /** Before the end of `a`, the separator matches in `a + [c] + b` where it matches in `a`. */
  lemma MatchAtPrefix(a: string, c: char, b: string)
    ensures forall j: nat :: j < |a| ==> (MatchAt(a + [c] + b, [c], j) <==> MatchAt(a, [c], j))
  {
    var s := a + [c] + b;
    forall j: nat | j < |a| ensures MatchAt(s, [c], j) <==> MatchAt(a, [c], j) {
      assert s[j..j + 1] == [s[j]] && s[j] == a[j];
      if j + 1 <= |a| { assert a[j..j + 1] == [a[j]]; }
    }
  }

  /** The first separator of `a + [c] + b` is the first one in `a`, or the added one. */
  lemma IndexOfAppend(a: string, c: char, b: string)
    ensures IndexOf(a + [c] + b, [c]) == Some(if IndexOf(a, [c]).Some? then IndexOf(a, [c]).value else |a|)
  {
    var s := a + [c] + b;
    MatchAtPrefix(a, c, b);
    match IndexOf(a, [c])
    case None =>
      assert s[|a|..|a| + 1] == [c];
      assert MatchAt(s, [c], |a|);
    case Some(i) =>
      assert MatchAt(s, [c], i);
  }

  /** One step of `Split`: the piece before the first separator, then the rest split. */
  lemma SplitAt(s: string, sep: string, i: nat)
    requires |sep| > 0 && IndexOf(s, sep) == Some(i)
    ensures Split(s, sep) == [s[..i]] + Split(s[i + |sep|..], sep)
  {
  }

  /** When `a` holds no separator, the added one is the first cut. */
  lemma SplitAppendFirst(a: string, c: char, b: string)
    requires IndexOf(a, [c]).None?
    ensures Split(a + [c] + b, [c]) == [a] + Split(b, [c])
  {
    var s := a + [c] + b;
    IndexOfAppend(a, c, b);
    SplitAt(s, [c], |a|);
    assert s[..|a|] == a && s[|a| + 1..] == b;
  }

  /** Splitting at a one-character separator: the pieces of `a`, then those of `b`. */
  lemma {:induction false} SplitAppend(a: string, c: char, b: string)
    ensures Split(a + [c] + b, [c]) == Split(a, [c]) + Split(b, [c])
    decreases |a|
  {
    match IndexOf(a, [c])
    case None =>
      SplitAppendFirst(a, c, b);
    case Some(i) =>
      var s := a + [c] + b;
      var rest := a[i + 1..];
      IndexOfAppend(a, c, b);
      assert s[..i] == a[..i];
      assert s[i + 1..] == rest + [c] + b;
      calc {
        Split(s, [c]);
        { SplitAt(s, [c], i); }
        [a[..i]] + Split(rest + [c] + b, [c]);
        { SplitAppend(rest, c, b); }
        [a[..i]] + (Split(rest, [c]) + Split(b, [c]));
        ([a[..i]] + Split(rest, [c])) + Split(b, [c]);
        { SplitAt(a, [c], i); }
        Split(a, [c]) + Split(b, [c]);
      }
  }

  /** `s.trim()`. */
  function Trim(s: string): (r: string)
    ensures |r| <= |s|
    ensures r == [] <==> IsBlank(s)
    ensures r != [] ==> !IsSpace(r[0]) && !IsSpace(r[|r| - 1])
    ensures s != [] && !IsSpace(s[0]) && !IsSpace(s[|s| - 1]) ==> r == s
    decreases |s|
  {
    if s == [] then []
    else if IsSpace(s[0]) then
      var r := Trim(s[1..]);
      assert IsBlank(s[1..]) ==> IsBlank(s) by {
        if IsBlank(s[1..]) { assert forall i :: 1 <= i < |s| ==> s[i] == s[1..][i - 1]; }
      }
      r
    else if IsSpace(s[|s| - 1]) then
      var r := Trim(s[..|s| - 1]);
      assert !IsBlank(s[..|s| - 1]) by { assert s[..|s| - 1][0] == s[0]; }
      r
    else s
  }

  function DigitChar(d: nat): (c: char)
    requires d < 10
    ensures '0' <= c <= '9'
  {
    ('0' as int + d) as char
  }

  predicate AllDigits(s: string) { forall i :: 0 <= i < |s| ==> '0' <= s[i] <= '9' }

  /** The number a string of decimal digits denotes. */
  function DigitsValue(s: string): nat
    requires AllDigits(s)
  {
    if s == [] then 0 else DigitsValue(s[..|s| - 1]) * 10 + (s[|s| - 1] as int - '0' as int)
  }

  /** Decimal rendering of a non-negative integer, as a template literal prints it. */
  function NatToString(n: nat): (r: string)
    ensures |r| >= 1 && AllDigits(r)
    ensures DigitsValue(r) == n
    ensures |r| > 1 ==> r[0] != '0'
    decreases n
  {
    if n < 10 then [DigitChar(n)]
    else
      var prefix := NatToString(n / 10);
      var r := prefix + [DigitChar(n % 10)];
      assert r[..|r| - 1] == prefix;
      r
  }

  /** `[...new Set(xs)]`: first occurrences, in order. */
  function Dedup<T(==)>(s: seq<T>): (r: seq<T>)
    ensures forall i :: 0 <= i < |r| ==> r[i] in s
    ensures forall i :: 0 <= i < |s| ==> s[i] in r
    ensures Distinct(r)
    ensures Distinct(s) ==> r == s
  {
    if s == [] then []
    else
      var init, last := s[..|s| - 1], s[|s| - 1];
      var r := Dedup(init);
      assert s == init + [last];
      if last in r then r else r + [last]
  }
}
