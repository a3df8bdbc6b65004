/**
  The array idioms the application uses on its lists: `findIndex`, `find`,
  `map`, `filter(y => y !== x)`, `slice(-n)`, and `sort` with a numeric
  comparator, over immutable sequences.
 */
module Seqs {
  import opened Base

  /** No element occurs twice. */
  predicate NoDup<T(==)>(s: seq<T>)
  {
    forall i, j :: 0 <= i < j < |s| ==> s[i] != s[j]
  }

  /** `s.filter(y => y !== x)`: every copy of `x` goes, the rest stay in order. */
  function Without<T(==, !new)>(s: seq<T>, x: T): (r: seq<T>)
    ensures x !in r
    ensures forall y :: y in r <==> y in s && y != x
    ensures forall y :: y != x ==> multiset(r)[y] == multiset(s)[y]
    ensures |r| <= |s|
    ensures x !in s ==> r == s
    ensures NoDup(s) ==> NoDup(r)
    decreases |s|
  {
    if s == [] then []
    else
      var rest := Without(s[1..], x);
      assert s == [s[0]] + s[1..];
      if s[0] == x then rest
      else
        assert NoDup(s) ==> s[0] !in s[1..];
        [s[0]] + rest
  }

  /** Removing `x` after appending it to a list without `x` gives the list back. */
  lemma {:induction false} WithoutAppended<T(!new)>(s: seq<T>, x: T)
    requires x !in s
    ensures Without(s + [x], x) == s
    decreases |s|
  {
    if s == [] {
      assert Without([x], x) == [] + Without([x][1..], x);
    } else {
      assert (s + [x])[1..] == s[1..] + [x];
      WithoutAppended(s[1..], x);
    }
  }

  /** Filtering distributes over concatenation. */
  lemma {:induction false} WithoutConcat<T(!new)>(a: seq<T>, b: seq<T>, x: T)
    ensures Without(a + b, x) == Without(a, x) + Without(b, x)
    decreases |a|
  {
    if a != [] {
      assert (a + b)[1..] == a[1..] + b;
      WithoutConcat(a[1..], b, x);
    } else {
      assert a + b == b;
    }
  }

  /** Appending a fresh element keeps a list duplicate-free. */
  lemma AppendFresh<T>(s: seq<T>, x: T)
    requires NoDup(s) && x !in s
    ensures NoDup(s + [x])
  {
    forall i, j | 0 <= i < j < |s| + 1 ensures (s + [x])[i] != (s + [x])[j] {
      if j == |s| {
        assert s[i] in s;
      }
    }
  }

  /** `s.slice(-n)` for `n > 0`: the last `n` elements, or all of them when there are fewer. */
  function TakeLast<T>(s: seq<T>, n: nat): (r: seq<T>)
    requires n > 0
    ensures |r| == if |s| < n then |s| else n
    ensures r == s[|s| - |r|..]
    ensures |s| > 0 ==> r[|r| - 1] == s[|s| - 1]
  {
    if |s| <= n then s else s[|s| - n..]
  }

  /** `s.findIndex(p)`: the first index whose element satisfies `p`, or -1 when none does. */
  function FirstIndex<T>(s: seq<T>, p: T -> bool): (k: int)
    ensures -1 <= k < |s|
    ensures k >= 0 ==> p(s[k])
    ensures forall j :: 0 <= j < |s| && (k == -1 || j < k) ==> !p(s[j])
    decreases |s|
  {
    if s == [] then -1
    else if p(s[0]) then 0
    else
      var k := FirstIndex(s[1..], p);
      assert forall j :: 1 <= j < |s| ==> s[1..][j - 1] == s[j];
      if k == -1 then -1 else k + 1
  }

  /** `s.find(p)`: the first element satisfying `p`, or None when none does. */
  function Find<T>(s: seq<T>, p: T -> bool): (r: Option<T>)
    ensures r.Some? ==> r.value in s && p(r.value)
    ensures r.Some? ==> exists k :: 0 <= k < |s| && s[k] == r.value && p(s[k]) && forall j :: 0 <= j < k ==> !p(s[j])
    ensures r.None? <==> forall x :: x in s ==> !p(x)
  {
    var k := FirstIndex(s, p);
    if k == -1 then None else Some(s[k])
  }

  /** A search looks at the head first and passes on to the tail. */
  lemma FindCons<T>(x: T, t: seq<T>, p: T -> bool)
    ensures Find([x] + t, p) == if p(x) then Some(x) else Find(t, p)
  {
    assert ([x] + t)[0] == x && ([x] + t)[1..] == t;
  }

  /** Non-increasing by `key`. */
  predicate SortedDesc<T>(s: seq<T>, key: T -> int)
  {
    forall i, j :: 0 <= i < j < |s| ==> key(s[i]) >= key(s[j])
  }

  /**
    Places `x` in front of the first element whose key is smaller, so that it
    stays ahead of the elements with an equal key that come after it.
   */
  function InsertDesc<T(!new)>(x: T, s: seq<T>, key: T -> int): (r: seq<T>)
    requires SortedDesc(s, key)
    ensures SortedDesc(r, key)
    ensures multiset(r) == multiset(s) + multiset{x}
    ensures |r| == |s| + 1
    ensures r[0] == x || (|s| > 0 && r[0] == s[0])
    decreases |s|
  {
    if s == [] || key(x) >= key(s[0]) then
      ConsSorted(x, s, key);
      [x] + s
    else
      TailSorted(s, key);
      var rest := InsertDesc(x, s[1..], key);
      InsertBehind(x, s, rest, key);
      [s[0]] + rest
  }

  /** The step of `InsertDesc` that keeps the head in front of the insertion into the tail. */
  lemma InsertBehind<T>(x: T, s: seq<T>, rest: seq<T>, key: T -> int)
    requires |s| > 0 && SortedDesc(s, key) && key(x) < key(s[0])
    requires SortedDesc(rest, key) && |rest| == |s|
    requires multiset(rest) == multiset(s[1..]) + multiset{x}
    requires rest[0] == x || (|s| > 1 && rest[0] == s[1])
    ensures SortedDesc([s[0]] + rest, key)
    ensures multiset([s[0]] + rest) == multiset(s) + multiset{x}
  {
    ConsSorted(s[0], rest, key);
    HeadSplit(s);
    assert multiset([s[0]] + rest) == multiset{s[0]} + multiset(rest);
  }

  /** A non-empty list is its head followed by its tail. */
  lemma HeadSplit<T>(s: seq<T>)
    requires |s| > 0
    ensures s == [s[0]] + s[1..]
    ensures multiset(s) == multiset{s[0]} + multiset(s[1..])
  {
    assert s == [s[0]] + s[1..];
  }

  /** The tail of a sorted list is sorted. */
  lemma TailSorted<T>(s: seq<T>, key: T -> int)
    requires |s| > 0 && SortedDesc(s, key)
    ensures SortedDesc(s[1..], key)
  {
    forall i, j | 0 <= i < j < |s| - 1 ensures key(s[1..][i]) >= key(s[1..][j]) {
      assert s[1..][i] == s[i + 1] && s[1..][j] == s[j + 1];
    }
  }

  /** An element whose key is at least the head's keeps a sorted list sorted in front of it. */
  lemma ConsSorted<T>(h: T, rest: seq<T>, key: T -> int)
    requires SortedDesc(rest, key) && (|rest| > 0 ==> key(h) >= key(rest[0]))
    ensures SortedDesc([h] + rest, key)
  {
    var r := [h] + rest;
    forall i, j | 0 <= i < j < |r| ensures key(r[i]) >= key(r[j]) {
      assert r[j] == rest[j - 1];
      if i > 0 {
        assert r[i] == rest[i - 1];
      }
    }
  }

  /**
    `s.sort((a, b) => key(b) - key(a))`: the same elements, arranged with
    non-increasing keys (JavaScript's sort is stable, and so is this one).
   */
  function SortDesc<T(!new)>(s: seq<T>, key: T -> int): (r: seq<T>)
    ensures SortedDesc(r, key)
    ensures multiset(r) == multiset(s)
    ensures |r| == |s|
    decreases |s|
  {
    if s == [] then []
    else
      assert s == [s[0]] + s[1..];
      InsertDesc(s[0], SortDesc(s[1..], key), key)
  }

  /** The elements whose key is `k`, in their order. */
  function WithKey<T>(s: seq<T>, key: T -> int, k: int): seq<T>
    decreases |s|
  {
    if s == [] then [] else (if key(s[0]) == k then [s[0]] else []) + WithKey(s[1..], key, k)
  }

  lemma WithKeyCons<T>(h: T, t: seq<T>, key: T -> int, k: int)
    ensures WithKey([h] + t, key, k) == (if key(h) == k then [h] else []) + WithKey(t, key, k)
  {
    assert ([h] + t)[0] == h && ([h] + t)[1..] == t;
  }

  /**
    `InsertDesc` puts `x` after the elements with a greater key and before
    those with an equal one, so among the elements with any one key `x`
    comes first and the others keep their order.
   */
  lemma {:induction false} InsertDescStable<T(!new)>(x: T, s: seq<T>, key: T -> int, k: int)
    requires SortedDesc(s, key)
    ensures WithKey(InsertDesc(x, s, key), key, k) == (if key(x) == k then [x] else []) + WithKey(s, key, k)
    decreases |s|
  {
    if s == [] || key(x) >= key(s[0]) {
      WithKeyCons(x, s, key, k);
    } else {
      TailSorted(s, key);
      var rest := InsertDesc(x, s[1..], key);
      InsertDescStable(x, s[1..], key, k);
      WithKeyCons(s[0], rest, key, k);
      HeadSplit(s);
      WithKeyCons(s[0], s[1..], key, k);
      var hx, hs := if key(x) == k then [x] else [], if key(s[0]) == k then [s[0]] else [];
      assert hx == [] || hs == [];
      ConcatAssoc(hs, hx, WithKey(s[1..], key, k));
      ConcatAssoc(hx, hs, WithKey(s[1..], key, k));
    }
  }

  /**
    The sort is stable, as ES2019 requires of `Array.prototype.sort`: the
    elements with any one key appear in the order they had.
   */
  lemma {:induction false} SortDescStable<T(!new)>(s: seq<T>, key: T -> int, k: int)
    ensures WithKey(SortDesc(s, key), key, k) == WithKey(s, key, k)
    decreases |s|
  {
    if s != [] {
      SortDescStable(s[1..], key, k);
      InsertDescStable(s[0], SortDesc(s[1..], key), key, k);
      HeadSplit(s);
      WithKeyCons(s[0], s[1..], key, k);
    }
  }

  /** `s.filter(p)`: the elements satisfying `p`, each as often as in `s`, in order. */
  function Filter<T(==, !new)>(s: seq<T>, p: T -> bool): (r: seq<T>)
    ensures forall x :: x in r <==> x in s && p(x)
    ensures forall x :: multiset(r)[x] == if p(x) then multiset(s)[x] else 0
    ensures |r| <= |s|
    decreases |s|
  {
    if s == [] then []
    else
      assert s == [s[0]] + s[1..];
      (if p(s[0]) then [s[0]] else []) + Filter(s[1..], p)
  }

  /** Nothing passes a filter that no element satisfies. */
  lemma FilterNone<T(!new)>(s: seq<T>, p: T -> bool)
    requires forall i :: 0 <= i < |s| ==> !p(s[i])
    ensures Filter(s, p) == []
  {
  }

  /** Filtering distributes over concatenation, so it keeps the order of what it keeps. */
  lemma {:induction false} FilterConcat<T(!new)>(a: seq<T>, b: seq<T>, p: T -> bool)
    ensures Filter(a + b, p) == Filter(a, p) + Filter(b, p)
    decreases |a|
  {
    if a == [] {
      assert a + b == b;
    } else {
      var h := if p(a[0]) then [a[0]] else [];
      assert a + b == [a[0]] + (a[1..] + b);
      FilterCons(a[0], a[1..] + b, p);
      FilterCons(a[0], a[1..], p);
      FilterConcat(a[1..], b, p);
      ConcatAssoc(h, Filter(a[1..], p), Filter(b, p));
    }
  }

  /** `s.map(f)` */
  function Map<T, U>(s: seq<T>, f: T -> U): (r: seq<U>)
    ensures |r| == |s|
    decreases |s|
  {
    if s == [] then [] else [f(s[0])] + Map(s[1..], f)
  }

  /** The mapped list holds at `i` the image of the element at `i`. */
  lemma {:induction false} MapAt<T, U>(s: seq<T>, f: T -> U, i: nat)
    requires i < |s|
    ensures Map(s, f)[i] == f(s[i])
    decreases i
  {
    if i > 0 {
      MapAt(s[1..], f, i - 1);
    }
  }

  /** Mapping distributes over concatenation. */
  lemma {:induction false} MapConcat<T, U>(a: seq<T>, b: seq<T>, f: T -> U)
    ensures Map(a + b, f) == Map(a, f) + Map(b, f)
    decreases |a|
  {
    if a == [] {
      assert a + b == b;
    } else {
      assert (a + b)[0] == a[0] && (a + b)[1..] == a[1..] + b;
      MapConcat(a[1..], b, f);
      ConcatAssoc([f(a[0])], Map(a[1..], f), Map(b, f));
    }
  }

  /** Mapping a permutation gives a permutation of the mapped list. */
  lemma {:induction false} MapPerm<T, U>(a: seq<T>, b: seq<T>, f: T -> U)
    requires multiset(a) == multiset(b)
    ensures multiset(Map(a, f)) == multiset(Map(b, f))
    decreases |a|
  {
    if a == [] {
      assert |multiset(b)| == 0;
    } else {
      assert a[0] in multiset(b);
      var j :| 0 <= j < |b| && b[j] == a[0];
      var pre, post := b[..j], b[j + 1..];
      PermRemove(a, b, j);
      MapPerm(a[1..], pre + post, f);
      assert b == pre + [a[0]] + post;
      MapAround(pre, a[0], post, f);
      assert multiset(Map(a, f)) == multiset{f(a[0])} + multiset(Map(a[1..], f));
    }
  }

  /** The images of a list split around one element, counted. */
  lemma MapAround<T, U>(pre: seq<T>, x: T, post: seq<T>, f: T -> U)
    ensures multiset(Map(pre + [x] + post, f)) == multiset(Map(pre, f)) + multiset{f(x)} + multiset(Map(post, f))
    ensures multiset(Map(pre + post, f)) == multiset(Map(pre, f)) + multiset(Map(post, f))
  {
    MapConcat(pre + [x], post, f);
    MapConcat(pre, [x], f);
    MapConcat(pre, post, f);
    assert Map([x], f) == [f(x)];
  }

  /** Taking the head of one list out of a permutation of it leaves a permutation of the tail. */
  lemma PermRemove<T>(a: seq<T>, b: seq<T>, j: nat)
    requires |a| > 0 && j < |b| && b[j] == a[0] && multiset(a) == multiset(b)
    ensures multiset(a[1..]) == multiset(b[..j] + b[j + 1..])
  {
    assert a == [a[0]] + a[1..];
    assert b == b[..j] + [b[j]] + b[j + 1..];
    var rest := b[..j] + b[j + 1..];
    assert multiset(rest) == multiset(b[..j]) + multiset(b[j + 1..]);
    forall z ensures multiset(a[1..])[z] == multiset(rest)[z] {
      assert multiset(a)[z] == multiset(b)[z];
    }
  }

  /** Concatenation is associative (stated as a lemma so that callers need not unfold their operands). */
  lemma ConcatAssoc<T>(x: seq<T>, y: seq<T>, z: seq<T>)
    ensures x + (y + z) == (x + y) + z
  {
  }

  /** The filter of a list with a head is the kept head followed by the filtered tail. */
  lemma FilterCons<T(!new)>(x: T, s: seq<T>, p: T -> bool)
    ensures Filter([x] + s, p) == (if p(x) then [x] else []) + Filter(s, p)
  {
    assert ([x] + s)[0] == x && ([x] + s)[1..] == s;
  }

  /**
    Searching a filtered list finds the first element of the whole list that
    passes both tests, so a filter keeps the order a later search depends on.
   */
  lemma {:induction false} FindFilter<T(!new)>(s: seq<T>, p: T -> bool, q: T -> bool)
    ensures var r := Find(Filter(s, p), q);
      (r.Some? ==> FirstPassing(s, p, q, r.value))
      && (r.None? <==> forall x :: x in s ==> !(p(x) && q(x)))
    decreases |s|
  {
    if s != [] {
      var t := s[1..];
      assert s == [s[0]] + t;
      FilterCons(s[0], t, p);
      FindFilter(t, p, q);
      var r := Find(Filter(s, p), q);
      if p(s[0]) {
        FindCons(s[0], Filter(t, p), q);
      } else {
        assert [] + Filter(t, p) == Filter(t, p);
      }
      if p(s[0]) && q(s[0]) {
        assert s[0] == r.value;
      } else {
        assert r == Find(Filter(t, p), q);
        if r.Some? {
          FirstPassingCons(s[0], t, p, q, r.value);
        }
      }
    }
  }

  /** `v` is the first element of `s` that passes both `p` and `q`. */
  ghost predicate FirstPassing<T>(s: seq<T>, p: T -> bool, q: T -> bool, v: T)
  {
    exists k :: 0 <= k < |s| && s[k] == v && p(s[k]) && q(s[k])
      && forall j :: 0 <= j < k ==> !(p(s[j]) && q(s[j]))
  }

  /** The index at which `v` passes first. */
  lemma FirstPassingIndex<T>(s: seq<T>, p: T -> bool, q: T -> bool, v: T) returns (k: nat)
    requires FirstPassing(s, p, q, v)
    ensures k < |s| && s[k] == v && p(s[k]) && q(s[k])
    ensures forall j :: 0 <= j < k ==> !(p(s[j]) && q(s[j]))
  {
    k :| 0 <= k < |s| && s[k] == v && p(s[k]) && q(s[k])
         && forall j :: 0 <= j < k ==> !(p(s[j]) && q(s[j]));
  }

  /** An element that fails the tests in front does not change which one passes first. */
  lemma FirstPassingCons<T>(x: T, t: seq<T>, p: T -> bool, q: T -> bool, v: T)
    requires !(p(x) && q(x)) && FirstPassing(t, p, q, v)
    ensures FirstPassing([x] + t, p, q, v)
  {
    var k :| 0 <= k < |t| && t[k] == v && p(t[k]) && q(t[k])
             && forall j :: 0 <= j < k ==> !(p(t[j]) && q(t[j]));
    var s := [x] + t;
    assert s[k + 1] == v;
    assert forall j :: 1 <= j < k + 1 ==> s[j] == t[j - 1];
  }

  /** A filter that every element passes keeps the list as it is. */
  lemma {:induction false} FilterAll<T(!new)>(s: seq<T>, p: T -> bool)
    requires forall i :: 0 <= i < |s| ==> p(s[i])
    ensures Filter(s, p) == s
    decreases |s|
  {
    if s != [] {
      FilterAll(s[1..], p);
    }
  }
}
