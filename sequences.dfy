/** `Array.prototype.filter` and the stable `Array.prototype.sort` with a
    descending numeric comparator (`(a, b) => key(b) - key(a)`), stated over
    sequences, with the facts the rest of the model uses about them. */
module Sequences {

  function Filter<T>(s: seq<T>, f: T -> bool): (r: seq<T>)
    ensures |r| <= |s|
    ensures forall i :: 0 <= i < |r| ==> f(r[i])
    ensures forall i :: 0 <= i < |r| ==> r[i] in s
    ensures forall i :: 0 <= i < |s| && f(s[i]) ==> s[i] in r
  {
    if s == [] then [] else (if f(s[0]) then [s[0]] else []) + Filter(s[1..], f)
  }

  lemma FilterAppend<T>(a: seq<T>, b: seq<T>, f: T -> bool)
    ensures Filter(a + b, f) == Filter(a, f) + Filter(b, f)
  {
    if a == [] {
      assert a + b == b;
    } else {
      assert (a + b)[0] == a[0] && (a + b)[1..] == a[1..] + b;
      FilterAppend(a[1..], b, f);
    }
  }

  /** Two filters applied one after the other are the filter by their conjunction. */
  lemma {:induction false} FilterFilter<T>(s: seq<T>, f: T -> bool, g: T -> bool, h: T -> bool)
    requires forall x :: h(x) == (f(x) && g(x))
    ensures Filter(Filter(s, f), g) == Filter(s, h)
  {
    if s != [] {
      FilterFilter(s[1..], f, g, h);
      assert h(s[0]) == (f(s[0]) && g(s[0]));
      var rest := Filter(s[1..], f);
      if f(s[0]) {
        assert Filter(s, f) == [s[0]] + rest;
        assert ([s[0]] + rest)[0] == s[0] && ([s[0]] + rest)[1..] == rest;
      } else {
        assert Filter(s, f) == rest;
      }
    }
  }

  /** Filtering with a predicate that holds everywhere changes nothing. */
  lemma {:induction false} FilterAll<T>(s: seq<T>, f: T -> bool)
    requires forall i :: 0 <= i < |s| ==> f(s[i])
    ensures Filter(s, f) == s
  {
    if s != [] {
      FilterAll(s[1..], f);
    }
  }

  /** Filtering keeps an element as often as it occurs, and drops it when it fails the predicate. */
  lemma {:induction false} FilterMultiset<T>(s: seq<T>, f: T -> bool, x: T)
    ensures multiset(Filter(s, f))[x] == if f(x) then multiset(s)[x] else 0
  {
    if s != [] {
      var head := if f(s[0]) then [s[0]] else [];
      var rest := Filter(s[1..], f);
      assert Filter(s, f) == head + rest;
      assert multiset(Filter(s, f)) == multiset(head) + multiset(rest);
      FilterMultiset(s[1..], f, x);
      assert s == [s[0]] + s[1..];
      assert multiset(s) == multiset([s[0]]) + multiset(s[1..]);
    }
  }

  /** Non-increasing by `key`. */
  predicate SortedDesc<T>(s: seq<T>, key: T -> real) {
    forall i, j :: 0 <= i < j < |s| ==> key(s[i]) >= key(s[j])
  }

  /** The elements whose key is exactly `v`, in their order of appearance. */
  function WithKey<T>(s: seq<T>, key: T -> real, v: real): seq<T> {
    if s == [] then [] else (if key(s[0]) == v then [s[0]] else []) + WithKey(s[1..], key, v)
  }

  predicate IsPrefix<T(==)>(a: seq<T>, b: seq<T>) {
    |a| <= |b| && a == b[..|a|]
  }

  /** What begins with `a + [x]` begins with `a`, followed by `x`. */
  lemma PrefixOfExtended<T>(a: seq<T>, x: T, b: seq<T>)
    requires IsPrefix(a + [x], b)
    ensures IsPrefix(a, b) && b[|a|] == x
  {
    assert b[..|a|] == b[..|a| + 1][..|a|];
    assert b[|a|] == (a + [x])[|a|];
  }

  /** Puts `x` in front of the first element whose key is not larger than its own. */
  function Insert<T>(x: T, s: seq<T>, key: T -> real): (r: seq<T>)
    ensures |r| == |s| + 1
  {
    if s == [] then [x]
    else if key(x) >= key(s[0]) then [x] + s
    else [s[0]] + Insert(x, s[1..], key)
  }

  /** Insertion adds `x` and keeps everything else. */
  lemma {:induction false} InsertMultiset<T>(x: T, s: seq<T>, key: T -> real)
    ensures multiset(Insert(x, s, key)) == multiset(s) + multiset{x}
  {
    if s != [] && key(x) < key(s[0]) {
      InsertMultiset(x, s[1..], key);
      assert s == [s[0]] + s[1..];
      assert multiset(s) == multiset{s[0]} + multiset(s[1..]);
    }
  }

  /** Every element of an insertion is the inserted one or comes from `s`. */
  lemma {:induction false} InsertFrom<T>(x: T, s: seq<T>, key: T -> real, i: nat)
    requires i < |s| + 1
    ensures Insert(x, s, key)[i] == x || exists j :: 0 <= j < |s| && s[j] == Insert(x, s, key)[i]
  {
    if s == [] {
    } else if key(x) >= key(s[0]) {
      if i > 0 {
        assert Insert(x, s, key)[i] == s[i - 1];
      }
    } else if i == 0 {
      assert Insert(x, s, key)[0] == s[0];
    } else {
      var t := Insert(x, s[1..], key);
      assert Insert(x, s, key)[i] == t[i - 1];
      InsertFrom(x, s[1..], key, i - 1);
      if t[i - 1] != x {
        var j :| 0 <= j < |s[1..]| && s[1..][j] == t[i - 1];
        assert s[j + 1] == t[i - 1];
      }
    }
  }

  lemma {:induction false} InsertSorted<T>(x: T, s: seq<T>, key: T -> real)
    requires SortedDesc(s, key)
    ensures SortedDesc(Insert(x, s, key), key)
  {
    if s != [] && key(x) < key(s[0]) {
      var tail := s[1..];
      var t := Insert(x, tail, key);
      assert SortedDesc(tail, key) by {
        forall i, j | 0 <= i < j < |tail| ensures key(tail[i]) >= key(tail[j]) {
          assert tail[i] == s[i + 1] && tail[j] == s[j + 1];
        }
      }
      InsertSorted(x, tail, key);
      var r := [s[0]] + t;
      assert Insert(x, s, key) == r;
      forall i | 0 <= i < |t| ensures key(s[0]) >= key(t[i]) {
        InsertFrom(x, tail, key, i);
        if t[i] != x {
          var j :| 0 <= j < |tail| && tail[j] == t[i];
          assert tail[j] == s[j + 1];
        }
      }
      forall i, j | 0 <= i < j < |r| ensures key(r[i]) >= key(r[j]) {
        assert r[j] == t[j - 1];
        if i > 0 {
          assert r[i] == t[i - 1];
        }
      }
    }
  }

  lemma WithKeyCons<T>(y: T, t: seq<T>, key: T -> real, v: real)
    ensures WithKey([y] + t, key, v) == (if key(y) == v then [y] else []) + WithKey(t, key, v)
  {
    assert ([y] + t)[0] == y && ([y] + t)[1..] == t;
  }

  /** Insertion puts `x` ahead of the elements of `s` that have its key. */
  lemma {:induction false} InsertWithKey<T>(x: T, s: seq<T>, key: T -> real, v: real)
    ensures WithKey(Insert(x, s, key), key, v) == (if key(x) == v then [x] else []) + WithKey(s, key, v)
  {
    if s == [] {
      WithKeyCons(x, s, key, v);
      assert [x] == [x] + s;
    } else if key(x) >= key(s[0]) {
      WithKeyCons(x, s, key, v);
    } else {
      var t := Insert(x, s[1..], key);
      WithKeyCons(s[0], t, key, v);
      InsertWithKey(x, s[1..], key, v);
      WithKeyCons(s[0], s[1..], key, v);
      assert s == [s[0]] + s[1..];
      var rest := WithKey(s[1..], key, v);
      if key(x) == v {
        assert WithKey(Insert(x, s, key), key, v) == [x] + rest;
        assert WithKey(s, key, v) == rest;
      } else {
        assert WithKey(Insert(x, s, key), key, v) == WithKey(s, key, v);
      }
    }
  }

  /** Insertion sort into non-increasing key order. */
  function SortDesc<T>(s: seq<T>, key: T -> real): (r: seq<T>)
    ensures |r| == |s|
    ensures multiset(r) == multiset(s)
    ensures SortedDesc(r, key)
  {
    if s == [] then []
    else
      var t := SortDesc(s[1..], key);
      assert s == [s[0]] + s[1..];
      InsertSorted(s[0], t, key);
      InsertMultiset(s[0], t, key);
      Insert(s[0], t, key)
  }

  /** The sort is stable: the elements that share a key keep their input order,
      as with the stable `Array.prototype.sort`. */
  lemma {:induction false} SortDescStable<T>(s: seq<T>, key: T -> real, v: real)
    ensures WithKey(SortDesc(s, key), key, v) == WithKey(s, key, v)
  {
    if s != [] {
      SortDescStable(s[1..], key, v);
      InsertWithKey(s[0], SortDesc(s[1..], key), key, v);
    }
  }

  /** Cutting a sequence keeps, for every key, a prefix of the elements with that key. */
  lemma {:induction false} WithKeyOfPrefix<T>(s: seq<T>, n: nat, key: T -> real, v: real)
    requires n <= |s|
    ensures IsPrefix(WithKey(s[..n], key, v), WithKey(s, key, v))
  {
    if n > 0 {
      assert s[..n][1..] == s[1..][..n - 1];
      assert s[..n][0] == s[0];
      WithKeyOfPrefix(s[1..], n - 1, key, v);
    }
  }

  /** The first `n` elements of a sorted sequence are sorted and drawn from it. */
  lemma TakeSorted<T>(s: seq<T>, n: nat, key: T -> real)
    requires n <= |s| && SortedDesc(s, key)
    ensures SortedDesc(s[..n], key)
    ensures multiset(s[..n]) <= multiset(s)
  {
    assert s == s[..n] + s[n..];
    assert multiset(s) == multiset(s[..n]) + multiset(s[n..]);
  }

  /** An element cut from a sorted sequence has a key no larger than any element kept. */
  lemma TakeDominates<T>(s: seq<T>, n: nat, key: T -> real, dropped: T, kept: T)
    requires n <= |s| && SortedDesc(s, key)
    requires dropped in multiset(s) - multiset(s[..n])
    requires kept in s[..n]
    ensures key(dropped) <= key(kept)
  {
    assert s == s[..n] + s[n..];
    assert multiset(s) == multiset(s[..n]) + multiset(s[n..]);
    assert dropped in s[n..];
    var j :| 0 <= j < |s[n..]| && s[n..][j] == dropped;
    assert s[n + j] == dropped;
    var i :| 0 <= i < n && s[..n][i] == kept;
    assert s[i] == kept;
  }

  /** Whatever is drawn from a filtered sequence satisfies the filter. */
  lemma FilteredSubset<T>(r: seq<T>, s: seq<T>, f: T -> bool)
    requires multiset(r) <= multiset(Filter(s, f))
    ensures forall i :: 0 <= i < |r| ==> f(r[i])
  {
    var t := Filter(s, f);
    forall i | 0 <= i < |r| ensures f(r[i]) {
      assert r[i] in multiset(t);
      var j :| 0 <= j < |t| && t[j] == r[i];
    }
  }

  /** Filtering depends only on the values of the predicate. */
  lemma {:induction false} FilterExt<T>(s: seq<T>, f: T -> bool, g: T -> bool)
    requires forall x :: f(x) == g(x)
    ensures Filter(s, f) == Filter(s, g)
  {
    if s != [] {
      FilterExt(s[1..], f, g);
    }
  }

  /** A filter step that applies only when its switch is on. */
  lemma FilterWhen<T>(s: seq<T>, active: bool, part: T -> bool, g: T -> bool)
    requires forall x :: part(x) == (!active || g(x))
    ensures Filter(s, part) == if active then Filter(s, g) else s
  {
    if active {
      FilterExt(s, part, g);
    } else {
      FilterAll(s, part);
    }
  }

  lemma {:induction false} FilterNone<T>(s: seq<T>, f: T -> bool)
    requires forall i :: 0 <= i < |s| ==> !f(s[i])
    ensures Filter(s, f) == []
  {
    if s != [] {
      FilterNone(s[1..], f);
    }
  }
}
