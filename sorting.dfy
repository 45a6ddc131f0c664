/** `Array.prototype.sort` with a comparator on names, as `searchDataset`
    uses it. The sort of JavaScript is stable, so it is modelled as an
    insertion sort that keeps equal elements in their original order.
    `localeCompare` is a parameter: `le(a, b)` holds when
    `a.localeCompare(b) <= 0`. Locales may call different strings equal, so
    `le` is a total preorder, not an order. */
module Sorting {
  import opened Records

  type Le = (string, string) -> bool

  ghost predicate TotalPreorder(le: Le) {
    && (forall a, b :: le(a, b) || le(b, a))
    && (forall a, b, c :: le(a, b) && le(b, c) ==> le(a, c))
  }

  /** The comparator `(a, b) => b.name.localeCompare(a.name)`. */
  function Flip(le: Le): Le {
    (a, b) => le(b, a)
  }

  /** Two names the comparator does not order apart. */
  predicate Equiv(le: Le, a: string, b: string) {
    le(a, b) && le(b, a)
  }

  predicate Sorted(le: Le, s: seq<Person>) {
    forall i, j :: 0 <= i < j < |s| ==> le(s[i].name, s[j].name)
  }

  /** The records of `s` whose name is equivalent to `k`, in the order of `s`.
      A sort is stable exactly when it keeps every such class in order. */
  function SameKey(le: Le, k: string, s: seq<Person>): (r: seq<Person>)
    ensures forall p :: p in r <==> p in s && Equiv(le, p.name, k)
  {
    if s == [] then []
    else (if Equiv(le, s[0].name, k) then [s[0]] else []) + SameKey(le, k, s[1..])
  }

  /** Inserts `x` before the first record it is not above. */
  function Insert(le: Le, x: Person, s: seq<Person>): (r: seq<Person>)
    ensures multiset(r) == multiset(s) + multiset{x}
  {
    if s == [] then [x]
    else if le(x.name, s[0].name) then [x] + s
    else
      assert s == [s[0]] + s[1..];
      [s[0]] + Insert(le, x, s[1..])
  }

  /** The stable sort of `s` by name under `le`. */
  function Sort(le: Le, s: seq<Person>): (r: seq<Person>)
    ensures multiset(r) == multiset(s)
  {
    if s == [] then []
    else
      assert s == [s[0]] + s[1..];
      Insert(le, s[0], Sort(le, s[1..]))
  }

  lemma {:induction false} InsertSorted(le: Le, x: Person, s: seq<Person>)
    requires TotalPreorder(le)
    requires Sorted(le, s)
    ensures Sorted(le, Insert(le, x, s))
  {
    if s != [] && !le(x.name, s[0].name) {
      var t := Insert(le, x, s[1..]);
      InsertSorted(le, x, s[1..]);
      SortedTail(le, s);
      forall y | y in t ensures le(s[0].name, y.name) {
        assert y in multiset(t);
        if y != x {
          InHeadBelow(le, s, y);
        }
      }
      SortedCons(le, s[0], t);
    } else if s != [] {
      forall y | y in s ensures le(x.name, y.name) {
        InHeadBelow(le, s, y);
      }
      SortedCons(le, x, s);
    }
  }

  /** Every record of a sorted sequence is at or above its head. */
  lemma InHeadBelow(le: Le, s: seq<Person>, y: Person)
    requires Sorted(le, s) && |s| > 0 && y in s
    ensures le(s[0].name, y.name) || y == s[0]
  {
    var k :| 0 <= k < |s| && s[k] == y;
  }

  /** A record at or below every record of a sorted sequence can go in front. */
  lemma SortedCons(le: Le, h: Person, t: seq<Person>)
    requires Sorted(le, t)
    requires forall y :: y in t ==> le(h.name, y.name)
    ensures Sorted(le, [h] + t)
  {
    var r := [h] + t;
    forall i, j | 0 <= i < j < |r| ensures le(r[i].name, r[j].name) {
      assert r[j] == t[j - 1];
      if i > 0 {
        assert r[i] == t[i - 1];
      }
    }
  }

  /** The sort puts records in ascending order of name. */
  lemma {:induction false} SortSorted(le: Le, s: seq<Person>)
    requires TotalPreorder(le)
    ensures Sorted(le, Sort(le, s))
  {
    if s != [] {
      SortSorted(le, s[1..]);
      InsertSorted(le, s[0], Sort(le, s[1..]));
    }
  }

  /** Inserting `x` adds it at the front of its own class and changes no other
      class. */
  lemma {:induction false} InsertSameKey(le: Le, k: string, x: Person, s: seq<Person>)
    requires TotalPreorder(le)
    ensures SameKey(le, k, Insert(le, x, s))
         == (if Equiv(le, x.name, k) then [x] else []) + SameKey(le, k, s)
  {
    if s != [] && !le(x.name, s[0].name) {
      var t := Insert(le, x, s[1..]);
      assert Insert(le, x, s) == [s[0]] + t;
      SameKeyCons(le, k, s[0], t);
      InsertSameKey(le, k, x, s[1..]);
      assert s == [s[0]] + s[1..];
      SameKeyCons(le, k, s[0], s[1..]);
      var rest := SameKey(le, k, s[1..]);
      var head := s[0].name;
      if Equiv(le, x.name, k) {
        if Equiv(le, head, k) {
          Transitive(le, x.name, k, head);
          assert false;
        }
        assert SameKey(le, k, s) == rest;
      } else {
        assert SameKey(le, k, t) == rest;
      }
    } else {
      assert Insert(le, x, s) == [x] + s;
      SameKeyCons(le, k, x, s);
    }
  }

  lemma Transitive(le: Le, a: string, b: string, c: string)
    requires TotalPreorder(le)
    requires le(a, b) && le(b, c)
    ensures le(a, c)
  {
  }

  lemma SameKeyCons(le: Le, k: string, h: Person, t: seq<Person>)
    ensures SameKey(le, k, [h] + t) == (if Equiv(le, h.name, k) then [h] else []) + SameKey(le, k, t)
  {
    assert ([h] + t)[0] == h && ([h] + t)[1..] == t;
  }

  /** Stability: every class of equivalent names keeps its order. */
  lemma {:induction false} SortSameKey(le: Le, k: string, s: seq<Person>)
    requires TotalPreorder(le)
    ensures SameKey(le, k, Sort(le, s)) == SameKey(le, k, s)
  {
    if s != [] {
      SortSameKey(le, k, s[1..]);
      InsertSameKey(le, k, s[0], Sort(le, s[1..]));
    }
  }

  lemma {:induction false} SameKeyFlip(le: Le, k: string, s: seq<Person>)
    ensures SameKey(Flip(le), k, s) == SameKey(le, k, s)
  {
    if s != [] {
      SameKeyFlip(le, k, s[1..]);
    }
  }

  lemma SortedTail(le: Le, s: seq<Person>)
    requires s != [] && Sorted(le, s)
    ensures Sorted(le, s[1..])
  {
    forall i, j | 0 <= i < j < |s[1..]| ensures le(s[1..][i].name, s[1..][j].name) {
      assert s[1..][i] == s[i + 1] && s[1..][j] == s[j + 1];
    }
  }

  /** The first record of a sorted sequence is below every record in it. */
  lemma SortedHead(le: Le, s: seq<Person>, p: Person)
    requires TotalPreorder(le)
    requires Sorted(le, s) && p in s
    ensures le(s[0].name, p.name)
  {
    var m :| 0 <= m < |s| && s[m] == p;
    assert m == 0 || le(s[0].name, s[m].name);
  }

  /** Two sequences sorted under the same total preorder that agree on every
      class of equivalent names start with the same record. */
  lemma SortedSameHead(le: Le, a: seq<Person>, b: seq<Person>)
    requires TotalPreorder(le)
    requires Sorted(le, a) && Sorted(le, b)
    requires forall k :: SameKey(le, k, a) == SameKey(le, k, b)
    ensures a == [] <==> b == []
    ensures a != [] ==> a[0] == b[0]
  {
    if b != [] {
      assert b[0] in SameKey(le, b[0].name, b);
    }
    if a != [] {
      assert a[0] in SameKey(le, a[0].name, a);
      assert a[0] in b;
      if b != [] {
        assert b[0] in SameKey(le, b[0].name, b);
        SortedHead(le, b, a[0]);
        SortedHead(le, a, b[0]);
        var x := a[0];
        assert SameKey(le, x.name, a)[0] == x;
        assert SameKey(le, x.name, b)[0] == b[0];
      }
    }
  }

  /** Two sequences sorted under the same total preorder that agree on every
      class of equivalent names are equal: a stable sort has one outcome. */
  lemma {:induction false} SortedUnique(le: Le, a: seq<Person>, b: seq<Person>)
    requires TotalPreorder(le)
    requires Sorted(le, a) && Sorted(le, b)
    requires forall k :: SameKey(le, k, a) == SameKey(le, k, b)
    ensures a == b
    decreases |a|
  {
    SortedSameHead(le, a, b);
    if a != [] {
      var x := a[0];
      forall k ensures SameKey(le, k, a[1..]) == SameKey(le, k, b[1..]) {
        var h := if Equiv(le, x.name, k) then [x] else [];
        assert SameKey(le, k, a) == h + SameKey(le, k, a[1..]);
        assert SameKey(le, k, b) == h + SameKey(le, k, b[1..]);
        assert SameKey(le, k, a[1..]) == SameKey(le, k, a)[|h|..];
        assert SameKey(le, k, b[1..]) == SameKey(le, k, b)[|h|..];
      }
      SortedTail(le, a);
      SortedTail(le, b);
      SortedUnique(le, a[1..], b[1..]);
      assert a == [x] + a[1..] && b == [x] + b[1..];
    }
  }

  /** Sorting an already sorted sequence changes nothing. */
  lemma SortOfSorted(le: Le, s: seq<Person>)
    requires TotalPreorder(le)
    requires Sorted(le, s)
    ensures Sort(le, s) == s
  {
    SortSorted(le, s);
    forall k ensures SameKey(le, k, Sort(le, s)) == SameKey(le, k, s) {
      SortSameKey(le, k, s);
    }
    SortedUnique(le, Sort(le, s), s);
  }

  /** A descending stable sort followed by an ascending one gives exactly the
      ascending stable sort: the descending pass leaves no trace. */
  lemma DescendingThenAscending(le: Le, s: seq<Person>)
    requires TotalPreorder(le)
    ensures Sort(le, Sort(Flip(le), s)) == Sort(le, s)
  {
    var d := Sort(Flip(le), s);
    assert TotalPreorder(Flip(le));
    SortSorted(le, d);
    SortSorted(le, s);
    forall k ensures SameKey(le, k, Sort(le, d)) == SameKey(le, k, Sort(le, s)) {
      SortSameKey(le, k, d);
      SameKeyFlip(le, k, d);
      SortSameKey(Flip(le), k, s);
      SameKeyFlip(le, k, s);
      SortSameKey(le, k, s);
    }
    SortedUnique(le, Sort(le, d), Sort(le, s));
  }
}
