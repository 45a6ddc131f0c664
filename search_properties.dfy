/** What `searchDataset` guarantees, stated over the whole pipeline, and the
    behaviour of the code as written on a few concrete inputs. */
module SearchProperties {
  import opened Wrappers
  import opened Records
  import opened Sequences
  import opened Sorting
  import opened Text
  import opened QueryEngine

  /** Whatever truthy string `sort_by` holds, "reverse-alphabetical" included,
      the sort stage ends ascending: the descending sort falls through to the
      ascending one, and stability erases it. */
  lemma SortStageAscending(le: Le, sortBy: Option<string>, s: seq<Person>)
    requires TotalPreorder(le)
    requires SortTruthy(sortBy)
    ensures SortStage(le, sortBy, s) == Sort(le, s)
    ensures Sorted(le, SortStage(le, sortBy, s))
  {
    if sortBy.value == "reverse-alphabetical" {
      DescendingThenAscending(le, s);
    }
    SortSorted(le, s);
  }

  /** The result is sort(take(filter(dataset), n)): one filter with every
      enabled test, then the truncation, then (when asked) the ascending sort. */
  lemma SearchIsFilterLimitSort(le: Le, dataset: seq<Person>, q: Query)
    requires TotalPreorder(le)
    requires SearchDataset(le, dataset, q).Success?
    ensures SearchDataset(le, dataset, q).value
         == var limited := Limit(q.options.numResults, Filter(dataset, PassesTest(q)));
            if SortTruthy(q.options.sortBy) then Sort(le, limited) else limited
  {
    if SortTruthy(q.options.sortBy) {
      SortStageAscending(le, q.options.sortBy, Limit(q.options.numResults, Filter(dataset, PassesTest(q))));
    }
  }

  /** With a positive `num_results` n, truncation happens before the sort: the
      result holds exactly the first n filtered records (in some order), so a
      record past them never appears, however it sorts. */
  lemma SearchTruncatesBeforeSorting(le: Le, dataset: seq<Person>, q: Query, n: int)
    requires SearchDataset(le, dataset, q).Success?
    requires q.options.numResults == Some(n) && n > 0
    ensures |SearchDataset(le, dataset, q).value| <= n
    ensures multiset(SearchDataset(le, dataset, q).value)
         == multiset(Filter(dataset, PassesTest(q))[..Min(n, |Filter(dataset, PassesTest(q))|)])
  {
    var r := SearchDataset(le, dataset, q).value;
    var limited := Limit(q.options.numResults, Filter(dataset, PassesTest(q)));
    assert multiset(r) == multiset(limited);
    assert |r| == |multiset(r)| == |limited|;
  }

  /** With any truthy `sort_by` the result is sorted ascending by name and is a
      permutation of the truncated, filtered records. */
  lemma SearchSortsAscending(le: Le, dataset: seq<Person>, q: Query)
    requires TotalPreorder(le)
    requires SearchDataset(le, dataset, q).Success?
    requires SortTruthy(q.options.sortBy)
    ensures Sorted(le, SearchDataset(le, dataset, q).value)
    ensures multiset(SearchDataset(le, dataset, q).value)
         == multiset(Limit(q.options.numResults, Filter(dataset, PassesTest(q))))
  {
    SortStageAscending(le, q.options.sortBy, Limit(q.options.numResults, Filter(dataset, PassesTest(q))));
  }

  /** With a falsy `sort_by` the result is a prefix of the filtered records,
      hence a subsequence of the dataset in its original order. */
  lemma SearchKeepsDatasetOrder(le: Le, dataset: seq<Person>, q: Query)
    requires SearchDataset(le, dataset, q).Success?
    requires !SortTruthy(q.options.sortBy)
    ensures SearchDataset(le, dataset, q).value <= Filter(dataset, PassesTest(q))
    ensures SubseqOf(SearchDataset(le, dataset, q).value, dataset)
  {
    var filtered := Filter(dataset, PassesTest(q));
    var r := SearchDataset(le, dataset, q).value;
    PrefixSubseq(r, filtered);
    FilterSubseq(dataset, PassesTest(q));
    SubseqTrans(r, filtered, dataset);
  }

  /** No enabled filter, no truncation, no sort: the result is the dataset. */
  lemma SearchWithoutQueryIsIdentity(le: Le, dataset: seq<Person>, q: Query)
    requires !AgeEnabled(q) && !NameEnabled(q)
    requires !Truthy(q.options.numResults) && !SortTruthy(q.options.sortBy)
    ensures SearchDataset(le, dataset, q) == Success(dataset)
  {
    FilterAllPass(dataset, PassesTest(q));
  }

  /** When "age" is not enabled, `ageQuery` has no effect at all. */
  lemma SearchIgnoresDisabledAgeQuery(le: Le, dataset: seq<Person>, q: Query, aq: Option<AgeQuery>)
    requires !AgeEnabled(q)
    ensures SearchDataset(le, dataset, q.(ageQuery := aq)) == SearchDataset(le, dataset, q)
  {
    var q' := q.(ageQuery := aq);
    assert forall p :: Passes(q', p) == Passes(q, p);
    FilterExt(dataset, PassesTest(q'), PassesTest(q));
  }

  /** When "name" is not enabled, `nameQuery` has no effect at all. */
  lemma SearchIgnoresDisabledNameQuery(le: Le, dataset: seq<Person>, q: Query, nq: Option<string>)
    requires !NameEnabled(q)
    ensures SearchDataset(le, dataset, q.(nameQuery := nq)) == SearchDataset(le, dataset, q)
  {
    var q' := q.(nameQuery := nq);
    assert forall p :: Passes(q', p) == Passes(q, p);
    FilterExt(dataset, PassesTest(q'), PassesTest(q));
  }

  /** Running a query on its own result gives the same result, unless
      `num_results` is negative (then each run drops more records). */
  lemma SearchIdempotent(le: Le, dataset: seq<Person>, q: Query)
    requires TotalPreorder(le)
    requires SearchDataset(le, dataset, q).Success?
    requires !(q.options.numResults.Some? && q.options.numResults.value < 0)
    ensures SearchDataset(le, SearchDataset(le, dataset, q).value, q) == SearchDataset(le, dataset, q)
  {
    var r := SearchDataset(le, dataset, q).value;
    var limited := Limit(q.options.numResults, Filter(dataset, PassesTest(q)));
    ResultPassesAgain(le, dataset, q);
    LimitKeepsShorter(q.options.numResults, Filter(dataset, PassesTest(q)), r);
    SortStageIdempotent(le, q.options.sortBy, limited);
  }

  /** The result of a search passes its own filters again, unchanged. */
  lemma ResultPassesAgain(le: Le, dataset: seq<Person>, q: Query)
    requires SearchDataset(le, dataset, q).Success?
    ensures FilterStage(SearchDataset(le, dataset, q).value, q) == Success(SearchDataset(le, dataset, q).value)
    ensures SearchDataset(le, dataset, q).value
         == SortStage(le, q.options.sortBy, Limit(q.options.numResults, Filter(dataset, PassesTest(q))))
    ensures |SearchDataset(le, dataset, q).value| == |Limit(q.options.numResults, Filter(dataset, PassesTest(q)))|
  {
    var filtered := Filter(dataset, PassesTest(q));
    var limited := Limit(q.options.numResults, filtered);
    var r := SearchDataset(le, dataset, q).value;
    assert r == SortStage(le, q.options.sortBy, limited);
    forall p | p in r ensures p in dataset && Passes(q, p) {
      assert p in multiset(r);
      assert p in limited;
    }
    FilterAllPass(r, PassesTest(q));
    assert |r| == |multiset(r)| == |multiset(limited)| == |limited|;
  }

  /** A truncation to a non-negative bound leaves alone anything no longer
      than its own result. */
  lemma LimitKeepsShorter(numResults: Option<int>, s: seq<Person>, r: seq<Person>)
    requires !(numResults.Some? && numResults.value < 0)
    requires |r| == |Limit(numResults, s)|
    ensures Limit(numResults, r) == r
  {
  }

  /** Sorting a sorted result again changes nothing. */
  lemma SortStageIdempotent(le: Le, sortBy: Option<string>, s: seq<Person>)
    requires TotalPreorder(le)
    ensures SortStage(le, sortBy, SortStage(le, sortBy, s)) == SortStage(le, sortBy, s)
  {
    if SortTruthy(sortBy) {
      SortStageAscending(le, sortBy, s);
      SortStageAscending(le, sortBy, Sort(le, s));
      SortSorted(le, s);
      SortOfSorted(le, Sort(le, s));
    }
  }

  lemma FilterOfThree(a: Person, b: Person, c: Person, f: Person -> bool)
    ensures Filter([a, b, c], f)
         == (if f(a) then [a] else []) + (if f(b) then [b] else []) + (if f(c) then [c] else [])
  {
    assert [a, b, c] == [a] + [b, c] && [b, c] == [b] + [c] && [c] == [c] + [];
    FilterCons(c, [], f);
    FilterCons(b, [c], f);
    FilterCons(a, [b, c], f);
  }

  lemma FilterCons(h: Person, t: seq<Person>, f: Person -> bool)
    ensures Filter([h] + t, f) == (if f(h) then [h] else []) + Filter(t, f)
  {
    assert ([h] + t)[0] == h && ([h] + t)[1..] == t;
  }

  function NoOptions(): SearchOptions {
    SearchOptions(None, None)
  }

  /** A query that only filters by age is one age filter. */
  lemma AgeOnlySearch(le: Le, dataset: seq<Person>, aq: AgeQuery)
    ensures SearchDataset(le, dataset, Query(["age"], None, Some(aq), NoOptions()))
         == Success(Filter(dataset, AgeTest(aq)))
  {
    var q := Query(["age"], None, Some(aq), NoOptions());
    assert AgeEnabled(q) && !NameEnabled(q);
    assert FilterStage(dataset, q) == Success(Filter(dataset, AgeTest(aq)));
  }

  /** A query that only filters by a name is one name filter. */
  lemma NameOnlySearch(le: Le, dataset: seq<Person>, needle: string)
    ensures SearchDataset(le, dataset, Query(["name"], Some(needle), None, NoOptions()))
         == Success(Filter(dataset, NameTest(needle)))
  {
    var q := Query(["name"], Some(needle), None, NoOptions());
    assert !AgeEnabled(q) && NameEnabled(q);
    assert FilterStage(dataset, q) == Success(Filter(dataset, NameTest(needle)));
  }

  const Bob := Person("Bob", 1, "bob@example.com")
  const Alice := Person("Alice", 2, "alice@example.com")
  const Carl := Person("Carl", 3, "carl@example.com")

  /** Truncate before sort: from [Bob, Alice, Carl] with `num_results` 2 and
      alphabetical order, truncation keeps [Bob, Alice] and the sort gives
      [Alice, Bob]; Carl, although he sorts after both, is never reached. */
  lemma TruncateBeforeSortExample(le: Le)
    requires TotalPreorder(le)
    requires le("Alice", "Bob") && !le("Bob", "Alice")
    ensures SearchDataset(le, [Bob, Alice, Carl], Query([], None, None, SearchOptions(Some(2), Some("alphabetical"))))
         == Success([Alice, Bob])
  {
    UnfilteredSearch(le, [Bob, Alice, Carl], SearchOptions(Some(2), Some("alphabetical")));
    assert Limit(Some(2), [Bob, Alice, Carl]) == [Bob, Alice];
    assert "alphabetical" != "reverse-alphabetical" by {
      assert |"alphabetical"| != |"reverse-alphabetical"|;
    }
    SortBobAlice(le);
  }

  lemma SortBobAlice(le: Le)
    requires le("Alice", "Bob") && !le("Bob", "Alice")
    ensures Sort(le, [Bob, Alice]) == [Alice, Bob]
  {
    assert [Bob, Alice][1..] == [Alice];
    assert Sort(le, [Alice]) == [Alice];
  }

  /** A query with no filter enabled only truncates and sorts. */
  lemma UnfilteredSearch(le: Le, dataset: seq<Person>, options: SearchOptions)
    ensures SearchDataset(le, dataset, Query([], None, None, options))
         == Success(SortStage(le, options.sortBy, Limit(options.numResults, dataset)))
  {
    var q := Query([], None, None, options);
    FilterAllPass(dataset, PassesTest(q));
  }

  const Shouting := Person("ALICE ", 40, "a@example.com")

  /** "ali" matches "Alice" and "ALICE " but not "Bob". */
  lemma NameFilterIgnoresCaseExample(le: Le)
    ensures SearchDataset(le, [Alice, Bob, Shouting], Query(["name"], Some("ali"), None, NoOptions()))
         == Success([Alice, Shouting])
  {
    NameOnlySearch(le, [Alice, Bob, Shouting], "ali");
    FilterAli();
  }

  lemma FilterAli()
    ensures Filter([Alice, Bob, Shouting], NameTest("ali")) == [Alice, Shouting]
  {
    var test := NameTest("ali");
    NameOkExamples();
    assert test(Alice) && !test(Bob) && test(Shouting);
    FilterOfThree(Alice, Bob, Shouting, test);
  }

  lemma NameOkExamples()
    ensures NameOk("ali", Alice) && NameOk("ali", Shouting) && !NameOk("ali", Bob)
  {
    LowerExamples();
    assert "ali" <= "alice" && "ali" <= "alice ";
    assert !Contains("bob", "ali") by {
      assert "bob"[1..] == "ob" && "ob"[1..] == "b" && "b"[1..] == "";
      assert !Contains("", "ali");
      assert !Contains("b", "ali");
      assert !Contains("ob", "ali");
    }
  }

  lemma LowerExamples()
    ensures Lower("ali") == "ali" && Lower("Alice") == "alice"
    ensures Lower("ALICE ") == "alice " && Lower("Bob") == "bob"
  {
    assert LowerChar('A') == 'a' && LowerChar('B') == 'b';
    LowerAlice();
  }

  lemma LowerAlice()
    ensures Lower("ALICE ") == "alice "
  {
    assert LowerChar('A') == 'a' && LowerChar('L') == 'l' && LowerChar('I') == 'i';
    assert LowerChar('C') == 'c' && LowerChar('E') == 'e';
  }

  const Young := Person("Young", 29, "y@example.com")
  const Thirty := Person("Thirty", 30, "t@example.com")
  const Older := Person("Older", 31, "o@example.com")

  /** "less_than_or_equal" keeps ages at most the value, the bound included. */
  lemma AtMostExample(le: Le)
    ensures SearchDataset(le, [Young, Thirty, Older],
                          Query(["age"], None, Some(AgeQuery("less_than_or_equal", 30)), NoOptions()))
         == Success([Young, Thirty])
  {
    var aq := AgeQuery("less_than_or_equal", 30);
    assert AgeTest(aq)(Young) && AgeTest(aq)(Thirty) && !AgeTest(aq)(Older);
    FilterOfThree(Young, Thirty, Older, AgeTest(aq));
    assert Filter([Young, Thirty, Older], AgeTest(aq)) == [Young, Thirty];
    AgeOnlySearch(le, [Young, Thirty, Older], aq);
  }

  /** Every other comparator string, the tool schema's "greater_than_or_equal"
      and the parameter type's "more_than_or_equal" alike, keeps ages at least
      the value, the bound included. */
  lemma DefaultComparatorExample(le: Le, kind: string)
    requires kind != "less_than_or_equal"
    ensures SearchDataset(le, [Young, Thirty, Older],
                          Query(["age"], None, Some(AgeQuery(kind, 30)), NoOptions()))
         == Success([Thirty, Older])
  {
    var aq := AgeQuery(kind, 30);
    assert !AgeTest(aq)(Young) && AgeTest(aq)(Thirty) && AgeTest(aq)(Older);
    FilterOfThree(Young, Thirty, Older, AgeTest(aq));
    assert Filter([Young, Thirty, Older], AgeTest(aq)) == [Thirty, Older];
    AgeOnlySearch(le, [Young, Thirty, Older], aq);
  }

  /** A negative `num_results` is `slice(0, n)` with a negative end: every run
      drops the last record again, so the search is not idempotent there. */
  lemma NegativeLimitExample(le: Le)
    ensures SearchDataset(le, [Bob, Alice], Query([], None, None, SearchOptions(Some(-1), None))) == Success([Bob])
    ensures SearchDataset(le, [Bob], Query([], None, None, SearchOptions(Some(-1), None))) == Success([])
  {
    UnfilteredSearch(le, [Bob, Alice], SearchOptions(Some(-1), None));
    UnfilteredSearch(le, [Bob], SearchOptions(Some(-1), None));
  }
}
