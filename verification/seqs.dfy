/**
 * The list operations the stores and pages build their new lists from:
 * `Array.prototype.filter`, a `map` that rewrites only the matching records,
 * a stable sort by a numeric key (`sort((a, b) => key(a) - key(b))`) and sums.
 */
module Seqs {

  /** `s.filter(p)`: the elements of `s` satisfying `p`, in their original order. */
  function Filter<T>(s: seq<T>, p: T -> bool): (r: seq<T>)
    ensures |r| <= |s|
    ensures forall i :: 0 <= i < |r| ==> p(r[i])
    ensures (forall i :: 0 <= i < |s| ==> p(s[i])) ==> r == s
  {
    if s == [] then []
    else
      var rest := Filter(s[1..], p);
      assert s == [s[0]] + s[1..];
      if p(s[0]) then [s[0]] + rest else rest
  }

  /** What `Filter` keeps: every occurrence of an element satisfying `p`, and nothing else. */
  lemma {:induction false} FilterCount<T>(s: seq<T>, p: T -> bool, x: T)
    ensures multiset(Filter(s, p))[x] == if p(x) then multiset(s)[x] else 0
    ensures x in Filter(s, p) <==> x in s && p(x)
  {
    if s != [] {
      assert s == [s[0]] + s[1..];
      FilterCons(s[0], s[1..], p);
      FilterCount(s[1..], p, x);
    }
  }

  /** One step of `Filter`: the head is kept exactly when it satisfies `p`. */
  lemma {:induction false} FilterCons<T>(x: T, s: seq<T>, p: T -> bool)
    ensures Filter([x] + s, p) == (if p(x) then [x] else []) + Filter(s, p)
  {
    assert ([x] + s)[0] == x && ([x] + s)[1..] == s;
  }

  /** Filtering distributes over concatenation: the kept elements keep their relative order. */
  lemma {:induction false} FilterAppend<T>(a: seq<T>, b: seq<T>, p: T -> bool)
    ensures Filter(a + b, p) == Filter(a, p) + Filter(b, p)
  {
    if a == [] {
      assert a + b == b;
    } else {
      var h, t := a[0], a[1..];
      var e := if p(h) then [h] else [];
      assert a == [h] + t;
      assert a + b == [h] + (t + b);
      FilterCons(h, t + b, p);
      FilterCons(h, t, p);
      FilterAppend(t, b, p);
      assert Filter(a + b, p) == e + (Filter(t, p) + Filter(b, p));
      assert Filter(a, p) == e + Filter(t, p);
    }
  }

  /** Filtering out one element that `p` rejects, between two runs that `p` keeps, removes just that element. */
  lemma {:induction false} FilterDropOne<T>(before: seq<T>, x: T, after: seq<T>, p: T -> bool)
    requires forall i :: 0 <= i < |before| ==> p(before[i])
    requires forall i :: 0 <= i < |after| ==> p(after[i])
    requires !p(x)
    ensures Filter(before + [x] + after, p) == before + after
  {
    var mid := before + [x];
    FilterAppend(mid, after, p);
    FilterAppend(before, [x], p);
    FilterCons(x, [], p);
    assert [x] + [] == [x];
    assert Filter([x], p) == [];
    assert Filter(before, p) == before;
    assert Filter(after, p) == after;
    assert Filter(mid, p) == before;
  }

  /** A filter keeps at least two elements exactly when two positions of `s` satisfy `p`. */
  lemma {:induction false} FilterTwo<T>(s: seq<T>, p: T -> bool)
    ensures |Filter(s, p)| >= 2 <==> exists i, j :: 0 <= i < j < |s| && p(s[i]) && p(s[j])
  {
    if s != [] {
      var t := s[1..];
      assert s == [s[0]] + t;
      FilterCons(s[0], t, p);
      FilterTwo(t, p);
      forall i, j | 0 <= i < j < |s| && p(s[i]) && p(s[j]) ensures |Filter(s, p)| >= 2 {
        assert t[j - 1] == s[j];
        FilterCount(t, p, t[j - 1]);
        if i > 0 {
          assert t[i - 1] == s[i];
        }
      }
      if |Filter(s, p)| >= 2 {
        if p(s[0]) {
          var x := Filter(t, p)[0];
          FilterCount(t, p, x);
          var k := IndexOf(t, x);
          assert s[k + 1] == x && p(s[0]) && p(s[k + 1]);
        } else {
          var i, j :| 0 <= i < j < |t| && p(t[i]) && p(t[j]);
          assert s[i + 1] == t[i] && s[j + 1] == t[j];
        }
      }
    }
  }

  /** A relation that holds between every earlier and later element still holds after filtering. */
  lemma {:induction false} FilterPairwise<T>(s: seq<T>, p: T -> bool, rel: (T, T) -> bool)
    requires forall i, j :: 0 <= i < j < |s| ==> rel(s[i], s[j])
    ensures forall i, j :: 0 <= i < j < |Filter(s, p)| ==> rel(Filter(s, p)[i], Filter(s, p)[j])
  {
    if s != [] {
      var t := s[1..];
      assert forall i, j :: 0 <= i < j < |t| ==> rel(t[i], t[j]) by {
        forall i, j | 0 <= i < j < |t| ensures rel(t[i], t[j]) {
          assert t[i] == s[i + 1] && t[j] == s[j + 1];
        }
      }
      FilterPairwise(t, p, rel);
      assert s == [s[0]] + t;
      FilterCons(s[0], t, p);
      var r := Filter(s, p);
      if p(s[0]) {
        forall j | 1 <= j < |r| ensures rel(s[0], r[j]) {
          FilterCount(t, p, r[j]);
          var k :| 0 <= k < |t| && t[k] == r[j];
          assert s[k + 1] == r[j];
        }
      }
    }
  }

  /** `s.map(x => p(x) ? f(x) : x)`: rewrite the matching elements in place, keep the others. */
  function MapWhere<T>(s: seq<T>, p: T -> bool, f: T -> T): (r: seq<T>)
    ensures |r| == |s|
    ensures forall i :: 0 <= i < |s| ==> r[i] == if p(s[i]) then f(s[i]) else s[i]
  {
    if s == [] then [] else [if p(s[0]) then f(s[0]) else s[0]] + MapWhere(s[1..], p, f)
  }

  /** When nothing matches, the rewrite is the identity. */
  lemma {:induction false} MapWhereNoMatch<T>(s: seq<T>, p: T -> bool, f: T -> T)
    requires forall i :: 0 <= i < |s| ==> !p(s[i])
    ensures MapWhere(s, p, f) == s
  {
  }

  ghost predicate SortedBy<T>(s: seq<T>, key: T -> int) {
    forall i, j :: 0 <= i < j < |s| ==> key(s[i]) <= key(s[j])
  }

  /** Inserts `x` before the first element whose key is at least `key(x)`. */
  function Insert<T>(x: T, s: seq<T>, key: T -> int): (r: seq<T>)
    requires SortedBy(s, key)
    ensures |r| == |s| + 1
    ensures r[0] == x || (s != [] && r[0] == s[0])
    ensures SortedBy(r, key)
    ensures multiset(r) == multiset(s) + multiset{x}
  {
    if s == [] || key(x) <= key(s[0]) then
      SortedCons(x, s, key);
      [x] + s
    else
      SortedTail(s, key);
      var rest := Insert(x, s[1..], key);
      InsertPastHead(x, s, rest, key);
      [s[0]] + rest
  }

  /** The step of `Insert` that keeps the head `s[0]` in front of the insertion into the tail. */
  lemma {:induction false} InsertPastHead<T>(x: T, s: seq<T>, rest: seq<T>, key: T -> int)
    requires s != [] && SortedBy(s, key) && key(s[0]) < key(x)
    requires |rest| == |s| && (rest[0] == x || (|s| > 1 && rest[0] == s[1]))
    requires SortedBy(rest, key) && multiset(rest) == multiset(s[1..]) + multiset{x}
    ensures SortedBy([s[0]] + rest, key)
    ensures multiset([s[0]] + rest) == multiset(s) + multiset{x}
  {
    assert s == [s[0]] + s[1..];
    assert key(s[0]) <= key(rest[0]) by {
      if rest[0] != x {
        assert key(s[0]) <= key(s[1]);
      }
    }
    SortedCons(s[0], rest, key);
  }

  /** Dropping the head of a sorted list leaves it sorted. */
  lemma {:induction false} SortedTail<T>(s: seq<T>, key: T -> int)
    requires s != [] && SortedBy(s, key)
    ensures SortedBy(s[1..], key)
  {
    var t := s[1..];
    forall i, j | 0 <= i < j < |t| ensures key(t[i]) <= key(t[j]) {
      assert t[i] == s[i + 1] && t[j] == s[j + 1];
    }
  }

  /** A head no greater than the first key of a sorted list keeps it sorted. */
  lemma {:induction false} SortedCons<T>(h: T, t: seq<T>, key: T -> int)
    requires SortedBy(t, key) && (t != [] ==> key(h) <= key(t[0]))
    ensures SortedBy([h] + t, key)
  {
    var r := [h] + t;
    forall i, j | 0 <= i < j < |r| ensures key(r[i]) <= key(r[j]) {
      if i == 0 {
        assert r[j] == t[j - 1];
        if j > 1 {
          assert key(t[0]) <= key(t[j - 1]);
        }
      } else {
        assert r[i] == t[i - 1] && r[j] == t[j - 1];
      }
    }
  }

  /**
   * Insertion sort by an integer key. Each element is inserted in front of the
   * equal-keyed elements that followed it, so equal keys keep their original
   * order, as JavaScript's stable `Array.prototype.sort` does (`SortByKeyStable`).
   */
  function SortByKey<T>(s: seq<T>, key: T -> int): (r: seq<T>)
    ensures |r| == |s|
    ensures SortedBy(r, key)
    ensures multiset(r) == multiset(s)
  {
    if s == [] then []
    else
      assert s == [s[0]] + s[1..];
      Insert(s[0], SortByKey(s[1..], key), key)
  }

  /** Each element of the sorted filter is an element of `s` satisfying `p`. */
  lemma {:induction false} SortedFilterMember<T>(s: seq<T>, p: T -> bool, key: T -> int, k: nat)
    requires k < |SortByKey(Filter(s, p), key)|
    ensures SortByKey(Filter(s, p), key)[k] in s && p(SortByKey(Filter(s, p), key)[k])
  {
    var w := SortByKey(Filter(s, p), key);
    assert w[k] in multiset(w);
    FilterCount(s, p, w[k]);
  }

  /** Every element of `s` satisfying `p` lies between the keys of the sorted filter's ends. */
  lemma {:induction false} SortedFilterBounds<T>(s: seq<T>, p: T -> bool, key: T -> int)
    requires SortByKey(Filter(s, p), key) != []
    ensures var w := SortByKey(Filter(s, p), key);
      forall x :: x in s && p(x) ==> key(w[0]) <= key(x) <= key(w[|w| - 1])
  {
    var w := SortByKey(Filter(s, p), key);
    forall x | x in s && p(x) ensures key(w[0]) <= key(x) <= key(w[|w| - 1]) {
      SortedFilterBound(s, p, key, x);
    }
  }

  lemma {:induction false} SortedFilterBound<T>(s: seq<T>, p: T -> bool, key: T -> int, x: T)
    requires x in s && p(x)
    ensures var w := SortByKey(Filter(s, p), key);
      w != [] && key(w[0]) <= key(x) <= key(w[|w| - 1])
  {
    var w := SortByKey(Filter(s, p), key);
    SortedFilterHas(s, p, key, x);
    var k := IndexOf(w, x);
    SortedEnds(w, key, k);
  }

  /** Every element of `s` satisfying `p` is in the sorted filter. */
  lemma {:induction false} SortedFilterHas<T>(s: seq<T>, p: T -> bool, key: T -> int, x: T)
    requires x in s && p(x)
    ensures x in SortByKey(Filter(s, p), key)
  {
    var f := Filter(s, p);
    FilterCount(s, p, x);
    assert x in multiset(f);
    assert x in multiset(SortByKey(f, key));
  }

  /** A position at which `x` occurs in `w`. */
  lemma {:induction false} IndexOf<T>(w: seq<T>, x: T) returns (k: nat)
    requires x in w
    ensures k < |w| && w[k] == x
  {
    k :| 0 <= k < |w| && w[k] == x;
  }

  /** In a sorted list every key lies between the first and the last. */
  lemma {:induction false} SortedEnds<T>(w: seq<T>, key: T -> int, k: nat)
    requires SortedBy(w, key) && k < |w|
    ensures key(w[0]) <= key(w[k]) <= key(w[|w| - 1])
  {
    if 0 < k {
      assert key(w[0]) <= key(w[k]);
    }
    if k < |w| - 1 {
      assert key(w[k]) <= key(w[|w| - 1]);
    }
  }

  /**
   * Inserting `x` keeps the order among the elements of any one key: `x`
   * goes in front of all those sharing its key.
   */
  lemma {:induction false} InsertSameKey<T>(x: T, s: seq<T>, key: T -> int, k: int)
    requires SortedBy(s, key)
    ensures Filter(Insert(x, s, key), (y: T) => key(y) == k)
      == (if key(x) == k then [x] else []) + Filter(s, (y: T) => key(y) == k)
  {
    var q := (y: T) => key(y) == k;
    if s == [] || key(x) <= key(s[0]) {
      FilterCons(x, s, q);
    } else {
      var t := s[1..];
      assert s == [s[0]] + t;
      SortedTail(s, key);
      var rest := Insert(x, t, key);
      InsertSameKey(x, t, key, k);
      assert Insert(x, s, key) == [s[0]] + rest;
      InsertPast(x, s[0], t, rest, q, key(x) == k);
    }
  }

  /** The filtering step when `Insert` passes over the head `h`, which `q` rejects whenever it accepts `x`. */
  lemma {:induction false} InsertPast<T>(x: T, h: T, t: seq<T>, rest: seq<T>, q: T -> bool, keep: bool)
    requires keep == q(x) && (q(x) ==> !q(h))
    requires Filter(rest, q) == (if keep then [x] else []) + Filter(t, q)
    ensures Filter([h] + rest, q) == (if keep then [x] else []) + Filter([h] + t, q)
  {
    FilterCons(h, rest, q);
    FilterCons(h, t, q);
    if q(h) {
      assert !keep;
      assert Filter([h] + rest, q) == [h] + Filter(t, q);
    } else {
      assert Filter([h] + rest, q) == Filter(rest, q);
    }
  }

  /**
   * The sort is stable: the elements of any one key come out in the order
   * they went in.
   */
  lemma {:induction false} SortByKeyStable<T>(s: seq<T>, key: T -> int, k: int)
    ensures Filter(SortByKey(s, key), (y: T) => key(y) == k) == Filter(s, (y: T) => key(y) == k)
  {
    if s != [] {
      var q := (y: T) => key(y) == k;
      var t := s[1..];
      assert s == [s[0]] + t;
      SortByKeyStable(t, key, k);
      InsertSameKey(s[0], SortByKey(t, key), key, k);
      FilterCons(s[0], t, q);
    }
  }

  /** `xs.reduce((a, b) => a + b, 0)`. */
  function Sum(xs: seq<real>): real {
    if xs == [] then 0.0 else xs[0] + Sum(xs[1..])
  }

  lemma {:induction false} SumAppend(a: seq<real>, b: seq<real>)
    ensures Sum(a + b) == Sum(a) + Sum(b)
  {
    if a == [] {
      assert a + b == b;
    } else {
      assert (a + b)[1..] == a[1..] + b;
      SumAppend(a[1..], b);
    }
  }
}
