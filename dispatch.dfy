/** `processTools` (src/utils.ts): run every tool call of one model reply, in
    order. `jsonrepair` followed by `JSON.parse` is a library this model does
    not contain; it is the parameter `parseArgs`, which yields None where the
    library throws. */
module Dispatch {
  import opened Wrappers
  import opened Records
  import opened Sorting
  import opened QueryEngine

  /** What aborts the batch: argument text the library cannot turn into an
      argument object, or an exception thrown by `searchDataset`. Neither is
      caught, so either ends `processTools` with no results at all. */
  datatype ToolError = UnparsableArguments | SearchThrew(cause: SearchError)

  /** One turn of the loop. The `switch` on the tool name has a single block,
      shared by "search_dataset" and `default`, so the name is never looked at. */
  function RunCall(le: Le, parseArgs: string -> Option<Query>, dataset: seq<Person>, call: ToolCall)
    : (r: Result<seq<Person>, ToolError>)
  {
    match parseArgs(call.arguments)
    case None => Failure(UnparsableArguments)
    case Some(q) =>
      match SearchDataset(le, dataset, q)
      case Failure(e) => Failure(SearchThrew(e))
      case Success(found) => Success(found)
  }

  /** One turn of the loop for a fixed comparator, library and dataset. */
  function Runner(le: Le, parseArgs: string -> Option<Query>, dataset: seq<Person>): ToolCall -> Result<seq<Person>, ToolError> {
    call => RunCall(le, parseArgs, dataset, call)
  }

  /** The calls of a batch run in order by `run`: the results of all of them,
      or the failure of the first that fails. */
  function RunAll(run: ToolCall -> Result<seq<Person>, ToolError>, calls: seq<ToolCall>)
    : (r: Result<seq<seq<Person>>, ToolError>)
    ensures r.Success? ==> |r.value| == |calls|
    decreases |calls|
  {
    if calls == [] then Success([])
    else
      match RunAll(run, calls[..|calls| - 1])
      case Failure(e) => Failure(e)
      case Success(done) =>
        match run(calls[|calls| - 1])
        case Failure(e) => Failure(e)
        case Success(found) => Success(done + [found])
  }

  /** Call `i` is the first call of the batch that fails, and it fails with
      `e`. */
  predicate FirstFailure(run: ToolCall -> Result<seq<Person>, ToolError>, calls: seq<ToolCall>, i: int, e: ToolError) {
    && 0 <= i < |calls|
    && (forall j :: 0 <= j < i ==> run(calls[j]).Success?)
    && run(calls[i]) == Failure(e)
  }

  /** A batch succeeds exactly when each call does, with the result of call
      `i` at position `i`; otherwise it fails as its first failing call. */
  lemma {:induction false} RunAllSpec(run: ToolCall -> Result<seq<Person>, ToolError>, calls: seq<ToolCall>)
    ensures RunAll(run, calls).Success? <==> forall i :: 0 <= i < |calls| ==> run(calls[i]).Success?
    ensures RunAll(run, calls).Success? ==> forall i :: 0 <= i < |calls| ==> RunAll(run, calls).value[i] == run(calls[i]).value
    ensures RunAll(run, calls).Failure? ==> exists i :: FirstFailure(run, calls, i, RunAll(run, calls).error)
    decreases |calls|
  {
    if calls != [] {
      var n := |calls| - 1;
      var init := calls[..n];
      RunAllSpec(run, init);
      assert forall j :: 0 <= j < n ==> init[j] == calls[j];
      var r := RunAll(run, calls);
      match RunAll(run, init)
      case Failure(e) =>
        var i :| FirstFailure(run, init, i, e);
        assert FirstFailure(run, calls, i, e);
      case Success(done) =>
        match run(calls[n])
        case Failure(e) =>
          assert FirstFailure(run, calls, n, e);
        case Success(found) =>
          assert r.value == done + [found];
    }
  }

  /** Once a prefix of the batch fails, the batch fails the same way. */
  lemma {:induction false} FailureStays(run: ToolCall -> Result<seq<Person>, ToolError>, calls: seq<ToolCall>, k: nat)
    requires k <= |calls| && RunAll(run, calls[..k]).Failure?
    ensures RunAll(run, calls) == RunAll(run, calls[..k])
    decreases |calls| - k
  {
    if k == |calls| {
      assert calls[..k] == calls;
    } else {
      assert calls[..k + 1][..k] == calls[..k];
      FailureStays(run, calls, k + 1);
    }
  }

  /** `processTools`: the loop over the calls, which stops at the first
      exception. */
  method ProcessTools(le: Le, parseArgs: string -> Option<Query>, toolCalls: seq<ToolCall>, dataset: seq<Person>)
    returns (r: Result<seq<seq<Person>>, ToolError>)
    ensures r == RunAll(Runner(le, parseArgs, dataset), toolCalls)
  {
    ghost var run := Runner(le, parseArgs, dataset);
    var toolResults: seq<seq<Person>> := [];
    for i := 0 to |toolCalls|
      invariant RunAll(run, toolCalls[..i]) == Success(toolResults)
    {
      assert toolCalls[..i + 1][..i] == toolCalls[..i];
      var args := parseArgs(toolCalls[i].arguments);
      if args.None? {
        r := Failure(UnparsableArguments);
        FailureStays(run, toolCalls, i + 1);
        return;
      }
      var found := SearchDataset(le, dataset, args.value);
      if found.Failure? {
        r := Failure(SearchThrew(found.error));
        FailureStays(run, toolCalls, i + 1);
        return;
      }
      toolResults := toolResults + [found.value];
    }
    assert toolCalls[..|toolCalls|] == toolCalls;
    r := Success(toolResults);
  }

  /** What `processTools` returns: one search result per call, in call
      order, or the failure of the first call that throws. */
  lemma ProcessToolsResult(le: Le, parseArgs: string -> Option<Query>, toolCalls: seq<ToolCall>, dataset: seq<Person>,
                           r: Result<seq<seq<Person>>, ToolError>)
    requires r == RunAll(Runner(le, parseArgs, dataset), toolCalls)
    ensures r.Success? <==> forall i :: 0 <= i < |toolCalls| ==> RunCall(le, parseArgs, dataset, toolCalls[i]).Success?
    ensures r.Success? ==> |r.value| == |toolCalls| && forall i :: 0 <= i < |toolCalls| ==>
      r.value[i] == SearchDataset(le, dataset, parseArgs(toolCalls[i].arguments).value).value
    ensures r.Failure? ==> exists i :: FirstFailure(Runner(le, parseArgs, dataset), toolCalls, i, r.error)
  {
    RunAllSpec(Runner(le, parseArgs, dataset), toolCalls);
  }

  /** Renaming a call changes nothing: an unknown tool name is searched like
      "search_dataset". */
  lemma RunCallIgnoresName(le: Le, parseArgs: string -> Option<Query>, dataset: seq<Person>, call: ToolCall, name: string)
    ensures RunCall(le, parseArgs, dataset, call.(name := name)) == RunCall(le, parseArgs, dataset, call)
  {
  }
}
