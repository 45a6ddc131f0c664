/** The records that src/utils.ts passes around: `TPerson`, `TToolCall` and
    the argument object of the `search_dataset` tool. */
module Records {
  import opened Wrappers

  /** `TPerson`: one row of the dataset. JavaScript numbers are modelled as
      integers. */
  datatype Person = Person(name: string, age: int, email: string)

  /** `ageQuery`: a comparator string and the age it compares against. The
      comparator is kept as the raw string the tool arguments carry. */
  datatype AgeQuery = AgeQuery(kind: string, value: int)

  /** `options`: `num_results` and `sort_by`, each possibly null. */
  datatype SearchOptions = SearchOptions(numResults: Option<int>, sortBy: Option<string>)

  /** The destructured arguments of one `search_dataset` call. `nameQuery` and
      `ageQuery` may be null; `queryType` may hold any strings, of which only
      "name" and "age" are looked at. */
  datatype Query = Query(
    queryType: seq<string>,
    nameQuery: Option<string>,
    ageQuery: Option<AgeQuery>,
    options: SearchOptions)

  /** `TToolCall`: an invocation id, its `type`, and the `function` part with
      the tool name and the raw, untrusted argument text. */
  datatype ToolCall = ToolCall(id: string, kind: string, name: string, arguments: string)

  /** The exceptions a `searchDataset` call can throw: reading `.type` of a
      null `ageQuery`, or calling `.toLowerCase()` on a null `nameQuery`. */
  datatype SearchError = NullAgeQuery | NullNameQuery
}
