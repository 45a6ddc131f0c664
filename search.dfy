/** `searchDataset` (src/utils.ts): filter by age, filter by name, truncate,
    sort, in that fixed order, on a private copy of the dataset. A Dafny
    sequence is a value, so the copy at line 161 and the in-place sorts at
    lines 192 and 196 can never reach the caller's dataset. */
module QueryEngine {
  import opened Wrappers
  import opened Records
  import opened Sequences
  import opened Sorting
  import opened Text

  predicate AgeEnabled(q: Query) {
    "age" in q.queryType
  }

  predicate NameEnabled(q: Query) {
    "name" in q.queryType
  }

  /** The age test. The `switch` names only "less_than_or_equal"; every other
      comparator string reaches the `default` label, which shares the block
      that keeps ages at or above the value. Both bounds are inclusive. */
  predicate AgeOk(aq: AgeQuery, p: Person) {
    if aq.kind == "less_than_or_equal" then p.age <= aq.value else p.age >= aq.value
  }

  function AgeTest(aq: AgeQuery): Person -> bool {
    p => AgeOk(aq, p)
  }

  /** The name test: the lower-cased name includes the lower-cased query. */
  predicate NameOk(needle: string, p: Person) {
    Contains(Lower(p.name), Lower(needle))
  }

  function NameTest(needle: string): Person -> bool {
    p => NameOk(needle, p)
  }

  predicate PassesAge(q: Query, p: Person) {
    AgeEnabled(q) ==> q.ageQuery.Some? && AgeOk(q.ageQuery.value, p)
  }

  predicate PassesName(q: Query, p: Person) {
    NameEnabled(q) ==> q.nameQuery.Some? && NameOk(q.nameQuery.value, p)
  }

  /** A record is kept by the query when it passes every enabled filter. */
  predicate Passes(q: Query, p: Person) {
    PassesAge(q, p) && PassesName(q, p)
  }

  function PassesTest(q: Query): Person -> bool {
    p => Passes(q, p)
  }

  /** JavaScript truthiness of `num_results` and `sort_by`: null, 0 and the
      empty string are falsy. */
  predicate Truthy(n: Option<int>) {
    n.Some? && n.value != 0
  }

  predicate SortTruthy(s: Option<string>) {
    s.Some? && s.value != ""
  }

  /** Both filters, as written: the age filter runs first; a null `ageQuery`
      throws when `switch` reads its `type`; a null `nameQuery` throws only
      when the filter callback runs, that is, when some record survived the
      age filter. */
  function FilterStage(dataset: seq<Person>, q: Query): (r: Result<seq<Person>, SearchError>)
    ensures r.Failure? <==>
      || (AgeEnabled(q) && q.ageQuery.None?)
      || (NameEnabled(q) && q.nameQuery.None? && exists p :: p in dataset && PassesAge(q, p))
    ensures r.Failure? ==> r.error == if AgeEnabled(q) && q.ageQuery.None? then NullAgeQuery else NullNameQuery
    ensures r.Success? ==> forall p :: p in r.value <==> p in dataset && Passes(q, p)
    ensures r.Success? ==> r.value == Filter(dataset, PassesTest(q))
  {
    if AgeEnabled(q) && q.ageQuery.None? then Failure(NullAgeQuery)
    else
      var afterAge := if AgeEnabled(q) then Filter(dataset, AgeTest(q.ageQuery.value)) else dataset;
      assert forall p :: p in afterAge <==> p in dataset && PassesAge(q, p);
      if !NameEnabled(q) then
        if AgeEnabled(q) then
          FilterExt(dataset, AgeTest(q.ageQuery.value), PassesTest(q));
          Success(afterAge)
        else
          FilterAllPass(dataset, PassesTest(q));
          Success(afterAge)
      else if q.nameQuery.None? then
        if afterAge == [] then
          FilterNonePass(dataset, PassesTest(q));
          Success(afterAge)
        else
          assert afterAge[0] in afterAge;
          Failure(NullNameQuery)
      else
        var nameTest := NameTest(q.nameQuery.value);
        if AgeEnabled(q) then
          FilterFuse(dataset, AgeTest(q.ageQuery.value), nameTest, PassesTest(q));
          Success(Filter(afterAge, nameTest))
        else
          FilterExt(dataset, nameTest, PassesTest(q));
          Success(Filter(afterAge, nameTest))
  }

  /** The truncation: a truthy `num_results` n keeps `slice(0, n)`; a falsy
      one keeps everything. */
  function Limit(numResults: Option<int>, s: seq<Person>): (r: seq<Person>)
    ensures r <= s
    ensures !Truthy(numResults) ==> r == s
    ensures Truthy(numResults) && numResults.value > 0 ==> |r| == Min(numResults.value, |s|)
    ensures Truthy(numResults) && numResults.value < 0 ==> |r| == Max(|s| + numResults.value, 0)
  {
    if Truthy(numResults) then Slice(s, numResults.value) else s
  }

  /** The sort: "reverse-alphabetical" sorts descending and then, lacking a
      `break`, falls through to the ascending sort; "alphabetical" and every
      other truthy string sort ascending; a falsy `sort_by` keeps the order. */
  function SortStage(le: Le, sortBy: Option<string>, s: seq<Person>): (r: seq<Person>)
    ensures multiset(r) == multiset(s)
    ensures !SortTruthy(sortBy) ==> r == s
  {
    if SortTruthy(sortBy) then
      if sortBy.value == "reverse-alphabetical" then Sort(le, Sort(Flip(le), s))
      else Sort(le, s)
    else s
  }

  /** `searchDataset`: filter, then truncate, then sort. `le` is the order
      `localeCompare` puts names in. */
  function SearchDataset(le: Le, dataset: seq<Person>, q: Query): (r: Result<seq<Person>, SearchError>)
    ensures r.Failure? <==>
      || (AgeEnabled(q) && q.ageQuery.None?)
      || (NameEnabled(q) && q.nameQuery.None? && exists p :: p in dataset && PassesAge(q, p))
  {
    match FilterStage(dataset, q)
    case Failure(e) => Failure(e)
    case Success(filtered) =>
      Success(SortStage(le, q.options.sortBy, Limit(q.options.numResults, filtered)))
  }

  /** What a search returns: no more records than the dataset holds, each of
      them taken from the dataset and passing every enabled filter. */
  lemma SearchSound(le: Le, dataset: seq<Person>, q: Query)
    requires SearchDataset(le, dataset, q).Success?
    ensures |SearchDataset(le, dataset, q).value| <= |dataset|
    ensures AgeEnabled(q) ==> forall p :: p in SearchDataset(le, dataset, q).value ==>
      if q.ageQuery.value.kind == "less_than_or_equal" then p.age <= q.ageQuery.value.value
      else p.age >= q.ageQuery.value.value
    ensures NameEnabled(q) ==> forall p :: p in SearchDataset(le, dataset, q).value ==>
      q.nameQuery.Some? && Contains(Lower(p.name), Lower(q.nameQuery.value))
    ensures forall p :: p in SearchDataset(le, dataset, q).value ==> p in dataset
  {
    var filtered := FilterStage(dataset, q).value;
    LimitThenSort(le, q.options.numResults, q.options.sortBy, filtered);
  }

  /** Truncating and sorting only drop and reorder records. */
  lemma LimitThenSort(le: Le, numResults: Option<int>, sortBy: Option<string>, s: seq<Person>)
    ensures |SortStage(le, sortBy, Limit(numResults, s))| <= |s|
    ensures forall p :: p in SortStage(le, sortBy, Limit(numResults, s)) ==> p in s
  {
    var limited := Limit(numResults, s);
    var sorted := SortStage(le, sortBy, limited);
    forall p | p in sorted ensures p in s {
      assert p in multiset(sorted);
      assert p in limited;
    }
    assert |sorted| == |multiset(sorted)| == |multiset(limited)|;
  }
}
