/** Sequence helpers shared by the tables of the feed store: optional values,
    order-preserving filtering, first-match lookup, key uniqueness and fresh keys. */
module Seqs {

  datatype Option<+T> = None | Some(value: T)

  /** The elements of `s` that satisfy `keep`, in their original order
      (a `select ... where` over one table). */
  function Filter<T(!new)>(s: seq<T>, keep: T -> bool): (r: seq<T>)
    ensures |r| <= |s|
    ensures forall x :: x in r <==> x in s && keep(x)
  {
    if s == [] then []
    else if keep(s[0]) then [s[0]] + Filter(s[1..], keep)
    else Filter(s[1..], keep)
  }

  /** Some element of `s` satisfying `matches`, or None when there is none
      (`result.scalars().first()`). */
  function Find<T(!new)>(s: seq<T>, matches: T -> bool): (r: Option<T>)
    ensures r.None? <==> forall x :: x in s ==> !matches(x)
    ensures r.Some? ==> r.value in s && matches(r.value)
  {
    if s == [] then None
    else if matches(s[0]) then Some(s[0])
    else Find(s[1..], matches)
  }

  /** No two positions of `s` carry the same key (a primary key or a unique constraint). */
  ghost predicate Injective<T, K>(s: seq<T>, key: T -> K) {
    forall i, j :: 0 <= i < |s| && 0 <= j < |s| && key(s[i]) == key(s[j]) ==> i == j
  }

  /** A key larger than every key already in `s`, so an insert with it
      cannot collide with an existing row. */
  function FreshKey<T(!new)>(s: seq<T>, key: T -> nat): (r: nat)
    ensures forall x :: x in s ==> key(x) < r
  {
    if s == [] then 0
    else
      var rest := FreshKey(s[1..], key);
      if key(s[0]) < rest then rest else key(s[0]) + 1
  }

  /** `f` applied to every element of `s`, position by position (the loop
      that turns each row into its response dictionary). */
  function Map<T, U>(s: seq<T>, f: T -> U): (r: seq<U>)
    ensures |r| == |s|
  {
    if s == [] then [] else [f(s[0])] + Map(s[1..], f)
  }

  lemma {:induction false} MapAt<T, U>(s: seq<T>, f: T -> U, i: nat)
    requires i < |s|
    ensures Map(s, f)[i] == f(s[i])
  {
    if i > 0 {
      MapAt(s[1..], f, i - 1);
    }
  }

  /** A sequence that agrees with `f` on `s` position by position is `Map(s, f)`. */
  lemma MapPointwise<T, U>(s: seq<T>, f: T -> U, r: seq<U>)
    requires |r| == |s|
    requires forall k :: 0 <= k < |s| ==> r[k] == f(s[k])
    ensures r == Map(s, f)
  {
    forall k | 0 <= k < |s| ensures r[k] == Map(s, f)[k] {
      MapAt(s, f, k);
    }
  }

  /** `t` without its first occurrence of `x`. */
  function RemoveFirst<T(==)>(t: seq<T>, x: T): seq<T> {
    if t == [] then []
    else if t[0] == x then t[1..]
    else [t[0]] + RemoveFirst(t[1..], x)
  }

  lemma {:induction false} RemoveFirstMultiset<T>(t: seq<T>, x: T)
    requires x in t
    ensures multiset(RemoveFirst(t, x)) == multiset(t) - multiset{x}
  {
    assert t == [t[0]] + t[1..];
    if t[0] != x {
      RemoveFirstMultiset(t[1..], x);
    }
  }

  /** Taking one occurrence of `x` out of the rows takes exactly one `f(x)`
      out of the results. */
  lemma {:induction false} MapRemoveFirst<T, U>(t: seq<T>, x: T, f: T -> U)
    requires x in t
    ensures multiset(Map(t, f)) == multiset(Map(RemoveFirst(t, x), f)) + multiset{f(x)}
  {
    if t[0] != x {
      MapRemoveFirst(t[1..], x, f);
    }
  }

  /** Mapping two rearrangements of the same rows gives two rearrangements
      of the same results: every row yields exactly one result. */
  lemma PermutesTail<T>(s: seq<T>, t: seq<T>)
    requires s != [] && multiset(s) == multiset(t)
    ensures s[0] in t
    ensures multiset(s[1..]) == multiset(RemoveFirst(t, s[0]))
  {
    assert s[0] in multiset(t);
    RemoveFirstMultiset(t, s[0]);
    assert s == [s[0]] + s[1..];
    assert multiset(s[1..]) == multiset(s) - multiset{s[0]};
  }

  lemma {:induction false} MapPermutes<T, U>(s: seq<T>, t: seq<T>, f: T -> U)
    requires multiset(s) == multiset(t)
    ensures multiset(Map(s, f)) == multiset(Map(t, f))
  {
    if s == [] {
      assert |multiset(t)| == 0;
    } else {
      PermutesTail(s, t);
      MapRemoveFirst(t, s[0], f);
      MapPermutes(s[1..], RemoveFirst(t, s[0]), f);
    }
  }

  /** What a response list built from a rearrangement `s` of the rows `t`
      holds: one result per row, the result of every row, and nothing else. */
  lemma MapPermutation<T, U>(s: seq<T>, t: seq<T>, f: T -> U)
    requires multiset(s) == multiset(t)
    ensures |Map(s, f)| == |t|
    ensures multiset(Map(s, f)) == multiset(Map(t, f))
    ensures forall x :: x in t ==> f(x) in Map(s, f)
    ensures forall e :: e in Map(s, f) ==> exists x :: x in t && e == f(x)
  {
    MapPermutes(s, t, f);
    assert |multiset(s)| == |multiset(t)|;
    forall x | x in t ensures f(x) in Map(s, f) {
      assert x in multiset(s);
      var k :| 0 <= k < |s| && s[k] == x;
      MapAt(s, f, k);
    }
    forall e | e in Map(s, f) ensures exists x :: x in t && e == f(x) {
      var k :| 0 <= k < |s| && Map(s, f)[k] == e;
      MapAt(s, f, k);
      assert s[k] in multiset(t);
    }
  }

  lemma {:induction false} FilterAppend<T(!new)>(s: seq<T>, t: seq<T>, keep: T -> bool)
    ensures Filter(s + t, keep) == Filter(s, keep) + Filter(t, keep)
  {
    if s == [] {
      assert s + t == t;
    } else {
      var st := s + t;
      assert st[0] == s[0] && st[1..] == s[1..] + t;
      FilterAppend(s[1..], t, keep);
      if keep(s[0]) {
        calc {
          Filter(st, keep);
          [s[0]] + Filter(s[1..] + t, keep);
          [s[0]] + (Filter(s[1..], keep) + Filter(t, keep));
          ([s[0]] + Filter(s[1..], keep)) + Filter(t, keep);
        }
      }
    }
  }

  lemma {:induction false} FilterKeepsAll<T(!new)>(s: seq<T>, keep: T -> bool)
    requires forall x :: x in s ==> keep(x)
    ensures Filter(s, keep) == s
  {
    if s != [] {
      FilterKeepsAll(s[1..], keep);
    }
  }

  lemma {:induction false} FilterKeepsNone<T(!new)>(s: seq<T>, keep: T -> bool)
    requires forall x :: x in s ==> !keep(x)
    ensures Filter(s, keep) == []
  {
    if s != [] {
      FilterKeepsNone(s[1..], keep);
    }
  }

  /** Filtering twice is filtering once by both conditions, in either order. */
  lemma {:induction false} FilterCommutes<T(!new)>(s: seq<T>, a: T -> bool, b: T -> bool)
    ensures Filter(Filter(s, a), b) == Filter(Filter(s, b), a)
  {
    if s != [] {
      FilterCommutes(s[1..], a, b);
    }
  }

  lemma InjectiveCons<T, K>(x: T, s: seq<T>, key: T -> K)
    ensures Injective([x] + s, key) <==> Injective(s, key) && forall y :: y in s ==> key(y) != key(x)
  {
    var xs := [x] + s;
    if Injective(xs, key) {
      forall i, j | 0 <= i < |s| && 0 <= j < |s| && key(s[i]) == key(s[j]) ensures i == j {
        assert xs[i + 1] == s[i] && xs[j + 1] == s[j];
      }
      forall y | y in s ensures key(y) != key(x) {
        var k :| 0 <= k < |s| && s[k] == y;
        assert xs[k + 1] == y && xs[0] == x;
      }
    }
    if Injective(s, key) && forall y :: y in s ==> key(y) != key(x) {
      forall i, j | 0 <= i < |xs| && 0 <= j < |xs| && key(xs[i]) == key(xs[j]) ensures i == j {
        if i > 0 && j > 0 {
          assert xs[i] == s[i - 1] && xs[j] == s[j - 1];
        }
      }
    }
  }

  /** Deleting rows never breaks a uniqueness constraint. */
  lemma {:induction false} FilterInjective<T(!new), K>(s: seq<T>, keep: T -> bool, key: T -> K)
    requires Injective(s, key)
    ensures Injective(Filter(s, keep), key)
  {
    if s != [] {
      assert s == [s[0]] + s[1..];
      InjectiveCons(s[0], s[1..], key);
      FilterInjective(s[1..], keep, key);
      if keep(s[0]) {
        InjectiveCons(s[0], Filter(s[1..], keep), key);
      }
    }
  }

  /** Inserting a row keeps a uniqueness constraint exactly when its key is new. */
  lemma AppendInjective<T, K>(s: seq<T>, x: T, key: T -> K)
    requires Injective(s, key)
    ensures Injective(s + [x], key) <==> forall y :: y in s ==> key(y) != key(x)
  {
    var xs := s + [x];
    if Injective(xs, key) {
      forall y | y in s ensures key(y) != key(x) {
        var k :| 0 <= k < |s| && s[k] == y;
        assert xs[k] == y && xs[|s|] == x;
      }
    }
  }

  /** Removing the one row whose key is `k` from a table with unique keys
      shortens it by exactly one. */
  lemma {:induction false} FilterRemovesOne<T(!new), K>(s: seq<T>, x: T, key: T -> K, keep: T -> bool)
    requires Injective(s, key)
    requires x in s
    requires forall y :: keep(y) <==> key(y) != key(x)
    ensures |Filter(s, keep)| == |s| - 1
  {
    assert s == [s[0]] + s[1..];
    InjectiveCons(s[0], s[1..], key);
    if s[0] == x {
      FilterKeepsAll(s[1..], keep);
    } else {
      FilterRemovesOne(s[1..], x, key, keep);
    }
  }
}
