/** Calls, results and turns of a recorded agent session. */
module Transcripts {
  import opened Wrappers

  type Time = int

  /** The part of a result's text that scoring looks at: what each pattern search finds in it. */
  datatype ResultText = ResultText(
    httpStatus: Option<int>,
    errorCode: Option<string>,
    statesRetry: bool,
    mentions: set<string>,
    hostRefusal: bool)

  datatype ToolResult = ToolResult(isError: bool, text: ResultText, at: Time)

  /** Arguments stand for their canonical digest: two digests are equal exactly when the arguments are. */
  datatype ToolCall = ToolCall(
    id: string,
    name: string,
    args: map<string, string>,
    at: Time,
    result: Option<ToolResult>)

  /** Every call carries its result. */
  predicate Answered(calls: seq<ToolCall>) {
    forall i :: 0 <= i < |calls| ==> calls[i].result.Some?
  }

  predicate InIssueOrder(calls: seq<ToolCall>) {
    forall i, j :: 0 <= i < j < |calls| ==> calls[i].at <= calls[j].at
  }

  predicate UniqueIds(calls: seq<ToolCall>) {
    forall i, j :: 0 <= i < j < |calls| ==> calls[i].id != calls[j].id
  }

  /** No result arrives before its call was issued. */
  predicate AnsweredAfterIssue(calls: seq<ToolCall>)
    requires Answered(calls)
  {
    forall i :: 0 <= i < |calls| ==> calls[i].at <= calls[i].result.value.at
  }
}
