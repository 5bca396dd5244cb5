/** The array operations the components apply to their state lists:
    `filter`, `map` with an index test, `[...new Set(xs)]`, `filter(...).length`. */
module Lists {

  /** `s.filter(p)`. */
  function Filter<T(==,!new)>(s: seq<T>, p: T -> bool): (r: seq<T>)
    ensures |r| <= |s|
    ensures forall x :: x in r <==> x in s && p(x)
    ensures forall i :: 0 <= i < |r| ==> p(r[i])
    decreases |s|
  {
    if |s| == 0 then []
    else (if p(s[0]) then [s[0]] else []) + Filter(s[1..], p)
  }

  /** `a` is `b` with some elements left out, in the same order. */
  predicate IsSubseq<T(==,!new)>(a: seq<T>, b: seq<T>)
    decreases |b|
  {
    if |a| == 0 then true
    else if |b| == 0 then false
    else if a[0] == b[0] then IsSubseq(a[1..], b[1..])
    else IsSubseq(a, b[1..])
  }

  /** `filter` keeps the order of what it keeps. */
  lemma {:induction false} FilterIsSubseq<T(!new)>(s: seq<T>, p: T -> bool)
    ensures IsSubseq(Filter(s, p), s)
    decreases |s|
  {
    if |s| > 0 {
      FilterIsSubseq(s[1..], p);
      var r := Filter(s, p);
      if p(s[0]) {
        assert r[0] == s[0] && r[1..] == Filter(s[1..], p);
      } else {
        assert r == Filter(s[1..], p);
      }
    }
  }

  /** A filter that keeps everything is the identity. */
  lemma {:induction false} FilterAll<T(!new)>(s: seq<T>, p: T -> bool)
    requires forall x :: x in s ==> p(x)
    ensures Filter(s, p) == s
    decreases |s|
  {
    if |s| > 0 {
      FilterAll(s[1..], p);
      assert s == [s[0]] + s[1..];
    }
  }

  /** What a filter keeps and what it drops add up to the whole list. */
  lemma {:induction false} FilterSplitsLength<T(!new)>(s: seq<T>, p: T -> bool, q: T -> bool)
    requires forall x :: q(x) == !p(x)
    ensures |Filter(s, p)| + |Filter(s, q)| == |s|
    decreases |s|
  {
    if |s| > 0 {
      FilterSplitsLength(s[1..], p, q);
    }
  }

  /** Two filters for exclusive conditions keep together at most the whole list. */
  lemma {:induction false} FilterDisjointSum<T(!new)>(s: seq<T>, p: T -> bool, q: T -> bool, pq: T -> bool)
    requires forall x :: !(p(x) && q(x))
    requires forall x :: pq(x) == (p(x) || q(x))
    ensures |Filter(s, p)| + |Filter(s, q)| == |Filter(s, pq)|
    decreases |s|
  {
    if |s| > 0 {
      FilterDisjointSum(s[1..], p, q, pq);
    }
  }

  /** Past its head, a list's elements are those of its tail. */
  lemma ConsIndex<T>(x: T, t: seq<T>, i: nat)
    requires 0 < i <= |t|
    ensures ([x] + t)[i] == t[i - 1]
  {
  }

  /** Where `s` goes on as `a + b` from `p`, it goes on as `b` from `q`,
      right after `a`, and `b` starts with the element at `q`. */
  lemma SuffixAfter<T>(s: seq<T>, p: nat, a: seq<T>, b: seq<T>, q: nat)
    requires p <= |s| && s[p..] == a + b && q == p + |a|
    ensures q <= |s| && s[q..] == b
    ensures |b| > 0 ==> s[q] == b[0]
  {
    assert s[q..] == s[p..][|a|..];
  }

  /** `s.map((item, k) => k === i ? v : item)`. */
  function UpdateAt<T>(s: seq<T>, i: int, v: T): (r: seq<T>)
    ensures 0 <= i < |s| ==> r == s[i := v]
    ensures !(0 <= i < |s|) ==> r == s
  {
    seq(|s|, k requires 0 <= k < |s| => if k == i then v else s[k])
  }

  /** `s.filter((_, k) => k !== i)`. */
  function RemoveAt<T>(s: seq<T>, i: int): (r: seq<T>)
    ensures 0 <= i < |s| ==> |r| == |s| - 1 && multiset(r) + multiset{s[i]} == multiset(s)
    ensures !(0 <= i < |s|) ==> r == s
    ensures 0 <= i < |s| ==> forall k :: 0 <= k < |r| ==> r[k] == s[if k < i then k else k + 1]
  {
    if 0 <= i < |s| then
      assert s == s[..i] + [s[i]] + s[i + 1..];
      s[..i] + s[i + 1..]
    else s
  }

  /** Removing the element just appended gives the list back. */
  lemma RemoveAppended<T>(s: seq<T>, v: T)
    ensures RemoveAt(s + [v], |s|) == s
  {
  }

  /** Position of the first occurrence of `x` in `s`. */
  function FirstIndex<T(==,!new)>(s: seq<T>, x: T): (k: nat)
    requires x in s
    ensures k < |s| && s[k] == x && x !in s[..k]
  {
    if s[0] == x then 0
    else
      var j := FirstIndex(s[1..], x);
      assert s[..j + 1] == [s[0]] + s[1..][..j];
      1 + j
  }

  /** An element's first occurrence does not move when the list grows at its end. */
  lemma {:induction false} FirstIndexOfExtended<T(!new)>(s: seq<T>, y: T, x: T)
    requires x in s
    ensures FirstIndex(s + [y], x) == FirstIndex(s, x)
    decreases |s|
  {
    if s[0] != x {
      assert (s + [y])[1..] == s[1..] + [y];
      FirstIndexOfExtended(s[1..], y, x);
    }
  }

  /** No element occurs twice. */
  ghost predicate NoDuplicates<T(!new)>(s: seq<T>) {
    forall i, j :: 0 <= i < j < |s| ==> s[i] != s[j]
  }

  /** `[...new Set(s)]`: the distinct elements of `s` in the order of their
      first occurrence. */
  function Distinct<T(==,!new)>(s: seq<T>): (r: seq<T>)
    ensures forall x :: x in r <==> x in s
    ensures NoDuplicates(r)
    ensures forall i, j :: 0 <= i < j < |r| ==> FirstIndex(s, r[i]) < FirstIndex(s, r[j])
    decreases |s|
  {
    if |s| == 0 then []
    else
      var init := s[..|s| - 1];
      var last := s[|s| - 1];
      assert s == init + [last];
      var r := Distinct(init);
      forall x | x in init ensures FirstIndex(s, x) == FirstIndex(init, x) {
        FirstIndexOfExtended(init, last, x);
      }
      if last in r then r
      else
        assert FirstIndex(s, last) == |s| - 1;
        r + [last]
  }

  /** `m[d[0]] + m[d[1]] + ...`: how many elements of `m` the elements of `d` account for. */
  function SumCounts<T>(d: seq<T>, m: multiset<T>): nat
    decreases |d|
  {
    if |d| == 0 then 0 else SumCounts(d[..|d| - 1], m) + m[d[|d| - 1]]
  }

  lemma {:induction false} SumCountsAddOne<T(!new)>(d: seq<T>, m: multiset<T>, x: T)
    requires NoDuplicates(d)
    ensures SumCounts(d, m + multiset{x}) == SumCounts(d, m) + (if x in d then 1 else 0)
    decreases |d|
  {
    if |d| > 0 {
      var init := d[..|d| - 1];
      assert NoDuplicates(init);
      SumCountsAddOne(init, m, x);
      assert x in d <==> x in init || x == d[|d| - 1] by {
        assert d == init + [d[|d| - 1]];
      }
      assert x == d[|d| - 1] ==> x !in init;
    }
  }

  /** Counting every distinct element once counts the whole list. */
  lemma {:induction false} SumCountsOfDistinct<T(!new)>(s: seq<T>)
    ensures SumCounts(Distinct(s), multiset(s)) == |s|
    decreases |s|
  {
    if |s| > 0 {
      var init := s[..|s| - 1];
      var last := s[|s| - 1];
      assert s == init + [last];
      assert multiset(s) == multiset(init) + multiset{last};
      SumCountsOfDistinct(init);
      var d := Distinct(init);
      SumCountsAddOne(d, multiset(init), last);
      if last !in d {
        assert Distinct(s) == d + [last];
        assert (d + [last])[..|d|] == d;
        assert multiset(init)[last] == 0;
      }
    }
  }

  /** A filter on one field's value keeps as many elements as that value occurs among the fields. */
  lemma {:induction false} FilterCountsField<T(!new), K>(s: seq<T>, f: T -> K, v: K, p: T -> bool)
    requires forall x :: p(x) == (f(x) == v)
    ensures |Filter(s, p)| == multiset(MapSeq(s, f))[v]
    decreases |s|
  {
    if |s| > 0 {
      FilterCountsField(s[1..], f, v, p);
      assert MapSeq(s, f) == [f(s[0])] + MapSeq(s[1..], f);
    }
  }

  /** A value occurs in `s.map(f)` exactly when some element maps to it. */
  lemma InMapSeq<T, K>(s: seq<T>, f: T -> K, y: K)
    ensures y in MapSeq(s, f) <==> exists x :: x in s && f(x) == y
  {
    var r := MapSeq(s, f);
    if y in r {
      var i :| 0 <= i < |r| && r[i] == y;
      assert s[i] in s && f(s[i]) == y;
    }
    if exists x :: x in s && f(x) == y {
      var x :| x in s && f(x) == y;
      var i :| 0 <= i < |s| && s[i] == x;
      assert r[i] == y;
    }
  }

  /** `s.map(f)`. */
  function MapSeq<T, K>(s: seq<T>, f: T -> K): (r: seq<K>)
    ensures |r| == |s|
    ensures forall i :: 0 <= i < |s| ==> r[i] == f(s[i])
  {
    seq(|s|, i requires 0 <= i < |s| => f(s[i]))
  }

  /** The map built by `for (const x of s) m[key(x)] = val(x)` from an empty
      map. */
  function Table<T, K(==), V>(s: seq<T>, key: T -> K, val: T -> V): map<K, V>
    decreases |s|
  {
    if |s| == 0 then map[]
    else Table(s[..|s| - 1], key, val)[key(s[|s| - 1]) := val(s[|s| - 1])]
  }

  /** The map has one entry per key of the list. */
  lemma {:induction false} TableKeys<T, K, V>(s: seq<T>, key: T -> K, val: T -> V)
    ensures Table(s, key, val).Keys == set i | 0 <= i < |s| :: key(s[i])
    decreases |s|
  {
    if |s| > 0 {
      var n := |s| - 1;
      var init := s[..n];
      TableKeys(init, key, val);
      forall i | 0 <= i < n ensures key(s[i]) == key(init[i]) { assert s[i] == init[i]; }
      assert (set i | 0 <= i < |s| :: key(s[i])) == (set i | 0 <= i < n :: key(init[i])) + {key(s[n])};
    }
  }

  /** A key's entry comes from the last element with that key. */
  lemma {:induction false} TableLastWins<T, K, V>(s: seq<T>, key: T -> K, val: T -> V)
    ensures forall i :: 0 <= i < |s| && (forall j :: i < j < |s| ==> key(s[j]) != key(s[i])) ==>
      key(s[i]) in Table(s, key, val) && Table(s, key, val)[key(s[i])] == val(s[i])
    decreases |s|
  {
    if |s| > 0 {
      var n := |s| - 1;
      var init := s[..n];
      TableLastWins(init, key, val);
      var t := Table(s, key, val);
      forall i | 0 <= i < |s| && (forall j :: i < j < |s| ==> key(s[j]) != key(s[i]))
        ensures key(s[i]) in t && t[key(s[i])] == val(s[i])
      {
        if i < n {
          assert key(s[n]) != key(s[i]);
          assert init[i] == s[i];
          forall j | i < j < n ensures key(init[j]) != key(init[i]) { assert init[j] == s[j]; }
        }
      }
    }
  }
}
