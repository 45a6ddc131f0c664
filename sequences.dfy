/** The array operations `searchDataset` applies to its private copy:
    `Array.prototype.filter` and `Array.prototype.slice(0, n)`, and the
    subsequence relation that relates their results to the input. */
module Sequences {

  /** `s.filter(f)`: the elements that pass `f`, in their original order. */
  function Filter<T(!new)>(s: seq<T>, f: T -> bool): (r: seq<T>)
    ensures |r| <= |s|
    ensures forall x :: x in r <==> x in s && f(x)
  {
    if s == [] then []
    else (if f(s[0]) then [s[0]] else []) + Filter(s[1..], f)
  }

  /** Filtering keeps every occurrence of a passing element, so identical
      elements survive together, and drops every occurrence of a failing one. */
  lemma {:induction false} FilterMultiset<T(!new)>(s: seq<T>, f: T -> bool)
    ensures forall x :: multiset(Filter(s, f))[x] == if f(x) then multiset(s)[x] else 0
  {
    if s != [] {
      FilterMultiset(s[1..], f);
      assert s == [s[0]] + s[1..];
    }
  }

  /** `s.slice(0, n)`. A negative end counts from the back of the array, so a
      negative `n` drops the last `-n` elements. */
  function Slice<T>(s: seq<T>, n: int): (r: seq<T>)
    ensures r <= s
    ensures |r| == if 0 <= n then Min(n, |s|) else Max(|s| + n, 0)
  {
    if 0 <= n then s[..Min(n, |s|)] else s[..Max(|s| + n, 0)]
  }

  function Min(a: int, b: int): int { if a <= b then a else b }

  function Max(a: int, b: int): int { if a <= b then b else a }

  /** `r` is obtained from `s` by deleting elements: same elements, same
      relative order. */
  ghost predicate SubseqOf<T>(r: seq<T>, s: seq<T>)
    decreases |s|
  {
    if r == [] then true
    else if s == [] then false
    else (r[0] == s[0] && SubseqOf(r[1..], s[1..])) || SubseqOf(r, s[1..])
  }

  lemma {:induction false} SubseqTrans<T>(a: seq<T>, b: seq<T>, c: seq<T>)
    requires SubseqOf(a, b) && SubseqOf(b, c)
    ensures SubseqOf(a, c)
    decreases |c|
  {
    if a != [] && b != [] && c != [] {
      if b[0] == c[0] && SubseqOf(b[1..], c[1..]) {
        if a[0] == b[0] && SubseqOf(a[1..], b[1..]) {
          SubseqTrans(a[1..], b[1..], c[1..]);
        } else {
          SubseqTrans(a, b[1..], c[1..]);
        }
      } else {
        SubseqTrans(a, b, c[1..]);
      }
    }
  }

  /** A prefix is a subsequence. */
  lemma {:induction false} PrefixSubseq<T>(r: seq<T>, s: seq<T>)
    requires r <= s
    ensures SubseqOf(r, s)
  {
    if r != [] {
      PrefixSubseq(r[1..], s[1..]);
    }
  }

  /** Filtering keeps the relative order of what it keeps. */
  lemma {:induction false} FilterSubseq<T(!new)>(s: seq<T>, f: T -> bool)
    ensures SubseqOf(Filter(s, f), s)
  {
    if s != [] {
      FilterSubseq(s[1..], f);
      var r := Filter(s, f);
      if f(s[0]) {
        assert r[0] == s[0] && r[1..] == Filter(s[1..], f);
      } else if r != [] {
        assert r == Filter(s[1..], f);
        assert SubseqOf(r, s[1..]);
      }
    }
  }

  /** Filtering a sequence whose every element passes changes nothing. */
  lemma {:induction false} FilterAllPass<T(!new)>(s: seq<T>, f: T -> bool)
    requires forall x :: x in s ==> f(x)
    ensures Filter(s, f) == s
  {
    if s != [] {
      FilterAllPass(s[1..], f);
    }
  }

  /** Filtering a sequence none of whose elements passes leaves nothing. */
  lemma FilterNonePass<T(!new)>(s: seq<T>, f: T -> bool)
    requires forall x :: x in s ==> !f(x)
    ensures Filter(s, f) == []
  {
  }

  /** Two filters in a row are one filter on the conjunction of their tests. */
  lemma {:induction false} FilterFuse<T(!new)>(s: seq<T>, f: T -> bool, g: T -> bool, h: T -> bool)
    requires forall x :: h(x) == (f(x) && g(x))
    ensures Filter(Filter(s, f), g) == Filter(s, h)
  {
    if s != [] {
      FilterFuse(s[1..], f, g, h);
      var t := Filter(s, f);
      var x := s[0];
      assert h(x) == (f(x) && g(x));
      if f(x) {
        assert t == [x] + Filter(s[1..], f);
        assert t[0] == x && t[1..] == Filter(s[1..], f);
        calc {
          Filter(t, g);
          (if g(x) then [x] else []) + Filter(Filter(s[1..], f), g);
          (if h(x) then [x] else []) + Filter(s[1..], h);
          Filter(s, h);
        }
      } else {
        assert t == Filter(s[1..], f);
      }
    }
  }

  /** Filters with the same verdict on every element agree. */
  lemma {:induction false} FilterExt<T(!new)>(s: seq<T>, f: T -> bool, g: T -> bool)
    requires forall x :: x in s ==> f(x) == g(x)
    ensures Filter(s, f) == Filter(s, g)
  {
    if s != [] {
      FilterExt(s[1..], f, g);
    }
  }
}
