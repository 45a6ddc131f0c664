# Dataset search tool of a command-line chat client

This project models, in Dafny, the core of a small Node.js command-line chat
client that lets a language model call a tool, `search_dataset`, over an
in-memory list of people. The core lives in `src/utils.ts`. Three parts of it
are modelled:

- `searchDataset` filters the records by age and by name, truncates them to
  `num_results`, and sorts them by name.
- `processTools` runs every tool call of one model reply in order. It repairs
  and parses the call's JSON arguments and collects one search result per call.
- `llmParseJson` takes the first fenced block out of a model reply and hands
  it to the JSON repair library.

The modules follow the source:

- `Records`: the record types `TPerson` and `TToolCall`, plus the tool
  arguments. Absent and `null` values are `Option`s.
- `Sequences`: `Array.prototype.filter` and `slice(0, n)`.
- `Text`: `toLowerCase` and `includes`.
- `Sorting`: the stable `Array.prototype.sort`. It is an insertion sort under
  a comparator `le`, which stands for `localeCompare`. `le` is a total
  preorder, because two different names may compare as equal.
- `QueryEngine`: `searchDataset`, stage by stage.
- `SearchProperties`: what a search guarantees as a whole, plus worked
  examples on concrete inputs.
- `Dispatch`: `processTools`.
- `Fence`: `llmParseJson`.

Exceptions the JavaScript throws are the `Failure` case of a `Result`:

- `searchDataset` throws a `TypeError` when a `null` `ageQuery` or `nameQuery`
  is dereferenced.
- `llmParseJson` throws when the regular expression does not match: `match`
  returns `null`, the non-null assertion `!` is only a compile-time
  annotation, and the index `[2]` on `null` throws.

Behaviour of the code as written worth knowing:

- **Age comparator.** Any comparator other than `"less_than_or_equal"`
  reaches the `default` label. That label shares its block with the second
  `case "less_than_or_equal"`, so such a comparator keeps ages at or above
  the value. That includes the tool schema's `"greater_than_or_equal"` and
  the parameter type's `"more_than_or_equal"`. The `>=` filter does run. No
  comparator value is rejected.
- **Reverse sort.** `"reverse-alphabetical"` sorts descending and then, for
  want of a `break`, falls through to the ascending sort. Because the sort is
  stable, the final order is exactly the ascending one
  (`Sorting.DescendingThenAscending`).
- **Tool name.** The tool name is never examined. Any name runs the search.
- **Failing calls.** A call whose arguments cannot be repaired, or whose
  search throws, aborts the whole batch. No partial results are returned.
- **Empty block.** An empty fenced block is still handed to the repair
  library; it does not fail on its own.

The caller's dataset is never changed. `searchDataset` sorts a copy. In the
model, sequences are values, so no aliasing can occur.

## Model

| member | source | states |
|---|---|---|
| Sequences.Filter | src/utils.ts:166 | the result holds exactly the input's records that pass the test, and is no longer than the input |
| Sequences.FilterMultiset | src/utils.ts:166 | every passing record is kept as often as it occurs in the input and every failing one is dropped (multiset), so identical records survive together |
| Sequences.Slice | src/utils.ts:186 | `slice(0, n)` is a prefix of length min(n, len) for n >= 0, and len + n (at least 0) for negative n |
| Sequences.FilterSubseq | src/utils.ts:166-181 | filtering keeps the relative order of the records it keeps |
| Sequences.FilterFuse | src/utils.ts:163-182 | the age filter followed by the name filter is one filter on the conjunction of both tests |
| Sequences.FilterAllPass | src/utils.ts:163-182 | a filter that every record passes returns its input unchanged |
| Sorting.Insert | src/utils.ts:196 | inserting a record adds exactly that record (multiset) |
| Sorting.Sort | src/utils.ts:196 | the sort is a permutation of its input |
| Sorting.Flip | src/utils.ts:192 | the descending comparator `(a, b) => b.name.localeCompare(a.name)`: the same comparator with its arguments swapped; sorting with it and then ascending gives the ascending sort, as Sorting.DescendingThenAscending proves |
| Sorting.SortSorted | src/utils.ts:196 | the sort with `a.name.localeCompare(b.name)` leaves names in ascending order |
| Sorting.SortSameKey | src/utils.ts:196 | the sort is stable: records whose names compare equal keep their relative order |
| Sorting.SortedUnique | src/utils.ts:192-196 | two sorted sequences that agree on every class of equal names are equal, so a stable sort has one possible result |
| Sorting.SortOfSorted | src/utils.ts:196 | sorting an already sorted sequence changes nothing |
| Sorting.DescendingThenAscending | src/utils.ts:191-197 | sorting descending and then ascending gives the ascending sort of the input |
| Text.Lower | src/utils.ts:180 | `toLowerCase` keeps the length and lower-cases each ASCII letter in place |
| Text.LowerIdempotent | src/utils.ts:180 | lower-cased text has no upper-case ASCII letter, and lower-casing it again changes nothing |
| Text.Contains | src/utils.ts:180 | `String.prototype.includes`: holds exactly when the needle occurs as a slice at some offset, as Text.ContainsAt proves in both directions |
| Text.ContainsAt | src/utils.ts:180 | `includes` holds exactly when the needle occurs as a slice at some offset |
| QueryEngine.AgeEnabled | src/utils.ts:163 | `queryType.includes("age")`: the age filter runs exactly when "age" is in the query types; SearchProperties.SearchIgnoresDisabledAgeQuery states that otherwise the result does not depend on `ageQuery`, null included |
| QueryEngine.NameEnabled | src/utils.ts:178 | `queryType.includes("name")`: the name filter runs exactly when "name" is in the query types; SearchProperties.SearchIgnoresDisabledNameQuery states that otherwise the result does not depend on `nameQuery`, null included |
| QueryEngine.AgeOk | src/utils.ts:164-173 | the age `switch`: "less_than_or_equal" keeps ages at or below the value, and every other string reaches the shared `default` block keeping ages at or above it; stated for results by QueryEngine.SearchSound and shown by SearchProperties.AtMostExample and SearchProperties.DefaultComparatorExample |
| QueryEngine.NameOk | src/utils.ts:179-181 | the name test: the lower-cased name includes the lower-cased query; stated for results by QueryEngine.SearchSound and shown by SearchProperties.NameFilterIgnoresCaseExample |
| QueryEngine.Truthy | src/utils.ts:185 | `num_results` is truthy unless null or 0; its effect is stated by QueryEngine.Limit and SearchProperties.NegativeLimitExample |
| QueryEngine.SortTruthy | src/utils.ts:189 | `sort_by` is truthy unless null or empty; its effect is stated by QueryEngine.SortStage and SearchProperties.SortStageAscending |
| QueryEngine.FilterStage | src/utils.ts:161-182 | the filters throw exactly when "age" is enabled with a null `ageQuery`, or "name" is enabled with a null `nameQuery` and some record survives the age filter; otherwise the result is the records passing every enabled test, in dataset order |
| QueryEngine.Limit | src/utils.ts:185-187 | a falsy `num_results` keeps everything; a truthy one keeps a prefix of the `slice(0, n)` length |
| QueryEngine.SortStage | src/utils.ts:189-199 | the sort stage is a permutation, and a falsy `sort_by` keeps the order |
| QueryEngine.SearchDataset | src/utils.ts:141-202 | the search throws exactly on a null query object that is dereferenced |
| QueryEngine.SearchSound | src/utils.ts:141-202 | every record returned comes from the dataset and satisfies the enabled age bound (inclusive) and name match, and there are no more records than in the dataset |
| QueryEngine.LimitThenSort | src/utils.ts:185-199 | truncation and sorting only drop and reorder records |
| SearchProperties.SortStageAscending | src/utils.ts:189-199 | every truthy `sort_by`, "reverse-alphabetical" included, ends in the ascending sort |
| SearchProperties.SearchIsFilterLimitSort | src/utils.ts:161-199 | the result is sort(truncate(filter(dataset))) with one filter on all enabled tests |
| SearchProperties.SearchTruncatesBeforeSorting | src/utils.ts:185-197 | with a positive `num_results` n, the result holds exactly the first n filtered records, in some order |
| SearchProperties.SearchSortsAscending | src/utils.ts:189-199 | with a truthy `sort_by`, the result is sorted ascending and is a permutation of the truncated filtered records |
| SearchProperties.SearchKeepsDatasetOrder | src/utils.ts:161-187 | without sorting, the result is a prefix of the filtered records and a subsequence of the dataset |
| SearchProperties.SearchWithoutQueryIsIdentity | src/utils.ts:161-201 | with no enabled filter, no truncation and no sort, the result is the dataset |
| SearchProperties.SearchIgnoresDisabledAgeQuery | src/utils.ts:163 | `ageQuery` has no effect when "age" is not enabled |
| SearchProperties.SearchIgnoresDisabledNameQuery | src/utils.ts:178 | `nameQuery` has no effect when "name" is not enabled |
| SearchProperties.SearchIdempotent | src/utils.ts:141-202 | searching a search result again with the same query gives the same result, unless `num_results` is negative |
| SearchProperties.ResultPassesAgain | src/utils.ts:161-199 | a search result passes its own filters unchanged, and has the length of the truncated filtered records |
| SearchProperties.LimitKeepsShorter | src/utils.ts:185-187 | truncating to a non-negative bound keeps anything no longer than its own result |
| SearchProperties.SortStageIdempotent | src/utils.ts:189-199 | sorting a sort-stage result again changes nothing |
| SearchProperties.UnfilteredSearch | src/utils.ts:161-199 | with no filter enabled, a search only truncates and sorts |
| SearchProperties.AgeOnlySearch | src/utils.ts:163-175 | an age-only query is one age filter |
| SearchProperties.NameOnlySearch | src/utils.ts:178-182 | a name-only query is one name filter |
| SearchProperties.TruncateBeforeSortExample | src/utils.ts:185-197 | [Bob, Alice, Carl] with `num_results` 2 and alphabetical order gives [Alice, Bob]: Carl is dropped before the sort |
| SearchProperties.NameFilterIgnoresCaseExample | src/utils.ts:178-182 | "ali" matches "Alice" and "ALICE " but not "Bob" |
| SearchProperties.AtMostExample | src/utils.ts:165-167 | "less_than_or_equal" 30 keeps ages 29 and 30 and drops 31 |
| SearchProperties.DefaultComparatorExample | src/utils.ts:169-172 | any other comparator string with 30 keeps ages 30 and 31 and drops 29 |
| SearchProperties.NegativeLimitExample | src/utils.ts:185-187 | `num_results` -1 drops the last record on every run |
| Dispatch.RunCall | src/utils.ts:210-219 | one turn of the loop: repair and parse the arguments, then search, whatever the tool name; its meaning is stated by Dispatch.RunCallIgnoresName and Dispatch.ProcessToolsResult |
| Dispatch.RunAll | src/utils.ts:208-222 | a successful batch has one result per call |
| Dispatch.RunAllSpec | src/utils.ts:208-222 | a batch succeeds exactly when every call does, with call i's result at position i; otherwise it fails as its first failing call |
| Dispatch.FailureStays | src/utils.ts:209-219 | once a call throws, no later call changes the outcome of the batch |
| Dispatch.ProcessTools | src/utils.ts:204-223 | the loop returns what running the calls in order returns |
| Dispatch.ProcessToolsResult | src/utils.ts:204-223 | `processTools` returns the search result of each call at its position, or the failure of the first call that throws |
| Dispatch.RunCallIgnoresName | src/utils.ts:210-213 | renaming a tool call changes nothing: every name runs the search |
| Fence.FindFence | src/utils.ts:31 | finds the first three-backtick fence at or after a position, or none |
| Fence.IsJsSpace | src/utils.ts:31 | the characters JavaScript's `\s` matches; SkipSpaces stops only at a character outside it |
| Fence.SkipSpaces | src/utils.ts:31 | greedy `\s*`: skips JavaScript whitespace and stops at the first non-space |
| Fence.TagEnd | src/utils.ts:31 | the end of the optional group `(json?\s*)`; it never covers a backtick, and Fence.TagEndOf states what it takes |
| Fence.TagEndOf | src/utils.ts:31 | the group takes "jso", an optional "n" and the whole run of JavaScript whitespace after it, when the text after that run starts with no whitespace (and, after a bare "jso", with no "n") |
| Fence.ExtractFenced | src/utils.ts:31-33 | there is no match exactly when the reply holds no two non-overlapping fences; a captured block holds no fence |
| Fence.LlmParseJson | src/utils.ts:29-41 | throws exactly when there is no match; otherwise returns the repair-and-parse result of the captured block |
| Fence.NoFenceBeforeMeans | src/utils.ts:31 | the condition on prose and block holds exactly when the text, followed by a fence, has no fence starting inside it, so inline code spans are allowed |
| Fence.ExtractTaggedBlock | src/utils.ts:31-33 | a block opened with a tag ("jso", an optional "n", then any whitespace) is captured exactly, whatever follows it, when neither the prose before it nor the block holds a fence (inline code spans allowed) and the block does not start with whitespace, or with an "n" right after a bare "jso" |
| Fence.ExtractBareBlock | src/utils.ts:31-33 | an untagged block not starting with "jso" is captured exactly under the same condition |
| Fence.InlineCodeExample | src/utils.ts:31-33 | prose with an inline code span before the fenced block does not change the capture |
| Fence.SpacedTagExample | src/utils.ts:31-33 | a tag "json" followed by the whitespace run " \r\n" is dropped whole, and the block after it is captured |
| Fence.LlmParseJsonFirstBlock | src/utils.ts:29-36 | `llmParseJson` parses the first tagged block of a reply, for every tag the group accepts |
| Fence.LlmParseJsonWithoutFence | src/utils.ts:31-33 | a reply with no backtick makes `llmParseJson` throw |

## Left out

- `fetchJson`, `fsJson` and the session loop in `src/index.ts`: network, file
  system and console I/O. `src/index.ts` is not part of this model.
- `llmParseJsonJM`: it only calls the JSON repair library.
- The `jsonrepair` library and `JSON.parse`: these are the parameters
  `parseArgs` and `repairParse`. Each yields None where the library throws.
  What the repair heuristics accept is not modelled.
- `localeCompare`: this is the parameter `le`, assumed to be a total
  preorder. The locale's actual collation order is not modelled.
- `toLowerCase`: only ASCII letters are mapped. Unicode case mapping (for
  example the German sharp s, or Turkish dotted and dotless i) is not
  modelled.
- Number semantics: ages and `num_results` are integers. NaN, fractions and
  non-number JSON values are not modelled.
- JSON argument values of the wrong type are not modelled. For example, a
  string where an array is expected, or a missing or `null` `options`. The
  model assumes the shape the tool schema declares.
- The `tools` schema constant: it is data sent to the model, not behaviour.
- `console.error` logging in `llmParseJson`.
- The regular expression is modelled for its actual use, the first match.
  JavaScript regular-expression backtracking is not modelled in general.
  The optional tag group can never change where the captured block ends,
  because the tag's characters are never backticks.
