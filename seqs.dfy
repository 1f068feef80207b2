/**
 * Models of the two array operations the catalog is built from,
 * `Array.prototype.find` and `Array.prototype.filter`, together with the
 * order-preserving "subsequence" relation that describes what a filter keeps.
 */
module Seqs {
  import opened Optional

  /** `sub` can be obtained from `s` by deleting elements, keeping the order of the rest. */
  ghost predicate IsSubsequence<T>(sub: seq<T>, s: seq<T>)
    decreases |s|
  {
    if sub == [] then true
    else if s == [] then false
    else (sub[0] == s[0] && IsSubsequence(sub[1..], s[1..])) || IsSubsequence(sub, s[1..])
  }

  /** No value occurs twice. */
  ghost predicate NoDuplicates<T>(s: seq<T>)
  {
    forall i, j :: 0 <= i < j < |s| ==> s[i] != s[j]
  }

  /**
   * `s.find(p)`: the first element satisfying `p`, or `None` when there is none
   * (JavaScript's `undefined`, turned into `null` by the callers).
   */
  function Find<T>(s: seq<T>, p: T -> bool): (r: Option<T>)
    ensures r.None? <==> forall i :: 0 <= i < |s| ==> !p(s[i])
    ensures r.Some? ==> p(r.value)
    ensures r.Some? ==> exists k :: 0 <= k < |s| && s[k] == r.value && forall j :: 0 <= j < k ==> !p(s[j])
  {
    if s == [] then None
    else if p(s[0]) then Some(s[0])
    else
      var r := Find(s[1..], p);
      assert forall k :: 0 <= k < |s[1..]| ==> s[1..][k] == s[k + 1];
      r
  }

  /**
   * `s.filter(f)`: the elements satisfying `f`, in their original order. The result
   * is a subsequence of `s` holding exactly the matching elements; FilterCounts adds
   * that each is kept as often as `s` holds it, and FilterIsUnique that this
   * determines the result.
   */
  function Filter<T(!new)>(s: seq<T>, f: T -> bool): (r: seq<T>)
    ensures IsSubsequence(r, s)
    ensures forall x :: x in r <==> x in s && f(x)
  {
    if s == [] then []
    else if f(s[0]) then [s[0]] + Filter(s[1..], f)
    else Filter(s[1..], f)
  }

  /** A filter keeps every matching element as often as the input holds it, and nothing else. */
  lemma {:induction false} FilterCounts<T(!new)>(s: seq<T>, f: T -> bool)
    ensures forall x :: multiset(Filter(s, f))[x] == if f(x) then multiset(s)[x] else 0
  {
    if s != [] {
      assert s == [s[0]] + s[1..];
      FilterCounts(s[1..], f);
    }
  }

  lemma {:induction false} SubsequenceReflexive<T>(s: seq<T>)
    ensures IsSubsequence(s, s)
  {
    if s != [] {
      SubsequenceReflexive(s[1..]);
    }
  }

  /** A subsequence never holds an element more often than the sequence it is taken from. */
  lemma {:induction false} SubsequenceMultiset<T>(sub: seq<T>, s: seq<T>)
    requires IsSubsequence(sub, s)
    ensures multiset(sub) <= multiset(s)
    decreases |s|
  {
    if sub != [] {
      assert s == [s[0]] + s[1..];
      if sub[0] == s[0] && IsSubsequence(sub[1..], s[1..]) {
        SubsequenceMultiset(sub[1..], s[1..]);
        assert sub == [sub[0]] + sub[1..];
      } else {
        SubsequenceMultiset(sub, s[1..]);
      }
    }
  }

  /**
   * The contract of Filter pins its result down: any order-preserving selection
   * of exactly the matching elements is the filter's result.
   */
  lemma {:induction false} FilterIsUnique<T(!new)>(r: seq<T>, s: seq<T>, f: T -> bool)
    requires IsSubsequence(r, s)
    requires forall x :: multiset(r)[x] == if f(x) then multiset(s)[x] else 0
    ensures r == Filter(s, f)
    decreases |s|
  {
    if s == [] {
      assert r == [];
    } else {
      var x, t := s[0], s[1..];
      assert s == [x] + t;
      if f(x) {
        assert multiset(r)[x] == multiset(t)[x] + 1;
        if !(r != [] && r[0] == x && IsSubsequence(r[1..], t)) {
          SubsequenceMultiset(r, t);
          assert false;
        }
        assert r == [x] + r[1..];
        forall y ensures multiset(r[1..])[y] == if f(y) then multiset(t)[y] else 0 {
          assert multiset(r)[y] == multiset(r[1..])[y] + (if y == x then 1 else 0);
        }
        FilterIsUnique(r[1..], t, f);
      } else {
        assert x !in multiset(r);
        if r != [] {
          assert r[0] in multiset(r);
        }
        assert IsSubsequence(r, t);
        forall y ensures multiset(r)[y] == if f(y) then multiset(t)[y] else 0 {
          assert multiset(s)[y] == multiset(t)[y] + (if y == x then 1 else 0);
        }
        FilterIsUnique(r, t, f);
      }
    }
  }

  /** Filtering a sequence whose every element matches gives that sequence back. */
  lemma {:induction false} FilterKeepsAll<T(!new)>(s: seq<T>, f: T -> bool)
    requires forall i :: 0 <= i < |s| ==> f(s[i])
    ensures Filter(s, f) == s
  {
    if s != [] {
      FilterKeepsAll(s[1..], f);
    }
  }

  /** Filtering distributes over concatenation. */
  lemma {:induction false} FilterConcat<T(!new)>(a: seq<T>, b: seq<T>, f: T -> bool)
    ensures Filter(a + b, f) == Filter(a, f) + Filter(b, f)
  {
    if a == [] {
      assert a + b == b;
    } else {
      var x, t := a[0], a[1..];
      var head: seq<T> := if f(x) then [x] else [];
      assert (a + b)[0] == x && (a + b)[1..] == t + b;
      assert Filter(a + b, f) == head + Filter(t + b, f);
      assert Filter(a, f) == head + Filter(t, f);
      FilterConcat(t, b, f);
    }
  }

  /** Two tests that agree on every element of `s` select the same elements. */
  lemma {:induction false} FilterCongruent<T(!new)>(s: seq<T>, f: T -> bool, g: T -> bool)
    requires forall i :: 0 <= i < |s| ==> f(s[i]) == g(s[i])
    ensures Filter(s, f) == Filter(s, g)
  {
    if s != [] {
      FilterCongruent(s[1..], f, g);
    }
  }

  /** A filter of a sequence without duplicates has no duplicates. */
  lemma {:induction false} FilterNoDuplicates<T(!new)>(s: seq<T>, f: T -> bool)
    requires NoDuplicates(s)
    ensures NoDuplicates(Filter(s, f))
  {
    if s != [] {
      FilterNoDuplicates(s[1..], f);
      if f(s[0]) {
        var r := Filter(s, f);
        assert s[0] !in s[1..];
        assert r == [s[0]] + Filter(s[1..], f);
        forall i, j | 0 <= i < j < |r| ensures r[i] != r[j] {
          if i == 0 {
            assert r[j] in Filter(s[1..], f);
          } else {
            assert r[i] == Filter(s[1..], f)[i - 1] && r[j] == Filter(s[1..], f)[j - 1];
          }
        }
      }
    }
  }
}
