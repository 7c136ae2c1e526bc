/**
 Reading one Codex event stream into one complete turn
 (evaluation/agent_tool_recovery/codex.py, read_transcript and _bind_call).
 */
module CodexReader {
  import opened Wrappers
  import opened Transcripts

  datatype Phase = Started | Completed | OtherPhase

  datatype ToolBody =
    | Mcp(server: string, tool: Option<string>, arguments: Option<map<string, string>>, isError: bool, text: ResultText)
    | Command(command: string, failed: bool, output: ResultText)

  datatype Item =
    | Tool(id: Option<string>, body: ToolBody)
    | AgentMessage(text: string)
    | OtherItem

  datatype Event =
    | TurnStarted
    | HostFailure
    | TurnCompleted
    | ItemEvent(phase: Phase, item: Item)
    | OtherEvent

  datatype Line = NotJson | Json(event: Event)

  datatype Problem =
    | ReceiptMismatch(lines: nat)
    | AdditionalTurn(line: nat)
    | TurnFailure(line: nat)
    | DuplicateCall(id: string)
    | MalformedCall(id: string)
    | RefusedCall(id: string)
    | TurnCount(prompts: nat)
    | Unanswered(ids: set<string>)
    | NotCompleted
    | NoTerminalResponse

  datatype Message = Message(text: string, at: Time)

  datatype Turn = Turn(startedAt: Time, calls: seq<ToolCall>, terminal: Option<Message>)

  const SHELL := "shell"

  /** Bind one completed tool item, or say why it does not count as a call of the model. */
  function BindItem(id: string, body: ToolBody, issuedAt: Time, at: Time): Result<ToolCall, Problem> {
    match body
    case Command(command, failed, output) =>
      Ok(ToolCall(id, SHELL, map["command" := command], issuedAt, Some(ToolResult(failed, output, at))))
    case Mcp(server, tool, arguments, isError, text) =>
      if arguments.None? || tool.None? then Err(MalformedCall(id))
      else if text.hostRefusal then Err(RefusedCall(id))
      else Ok(ToolCall(
                id, "mcp__" + server + "__" + tool.value, arguments.value, issuedAt,
                Some(ToolResult(isError, text, at))))
  }

  /** Stable insertion sort by issue time. */
  function Insert(call: ToolCall, sorted: seq<ToolCall>): seq<ToolCall> {
    if sorted == [] then [call]
    else if sorted[|sorted| - 1].at <= call.at then sorted + [call]
    else Insert(call, sorted[..|sorted| - 1]) + [sorted[|sorted| - 1]]
  }

  function SortByIssue(calls: seq<ToolCall>): seq<ToolCall> {
    if calls == [] then [] else Insert(calls[|calls| - 1], SortByIssue(calls[..|calls| - 1]))
  }

  // ----- One line at a time -----

  datatype State = State(
    turn: Option<Time>,
    started: map<string, Time>,
    calls: seq<ToolCall>,
    completed: bool,
    terminal: Option<Message>,
    problems: seq<Problem>)

  const INITIAL := State(None, map[], [], false, None, [])

  predicate HasCall(calls: seq<ToolCall>, id: string) {
    exists i :: 0 <= i < |calls| && calls[i].id == id
  }

  function StepTool(st: State, phase: Phase, id: string, body: ToolBody, at: Time): State {
    match phase
    case Started => st.(started := st.started[id := at])
    case OtherPhase => st
    case Completed =>
      if HasCall(st.calls, id) then st.(problems := st.problems + [DuplicateCall(id)])
      else
        var issuedAt := if id in st.started then st.started[id] else at;
        var rest := st.started - {id};
        match BindItem(id, body, issuedAt, at)
        case Err(problem) => st.(started := rest, problems := st.problems + [problem])
        case Ok(call) => st.(started := rest, calls := st.calls + [call], terminal := None)
  }

  function Step(st: State, line: Line, at: Time, number: nat): State {
    if line.NotJson? then st
    else match line.event
      case TurnStarted =>
        if st.turn.Some? then st.(problems := st.problems + [AdditionalTurn(number)]) else st.(turn := Some(at))
      case HostFailure => st.(problems := st.problems + [TurnFailure(number)])
      case TurnCompleted => if st.turn.None? then st else st.(completed := true)
      case OtherEvent => st
      case ItemEvent(phase, item) =>
        if st.turn.None? then st
        else match item
          case Tool(Some(id), body) => StepTool(st, phase, id, body, at)
          case AgentMessage(text) =>
            if phase == Completed && st.started == map[] && text != "" then st.(terminal := Some(Message(text, at)))
            else st
          case _ => st
  }

  function Scan(lines: seq<Line>, receipts: seq<Time>, k: nat): State
    requires k <= |lines| == |receipts|
  {
    if k == 0 then INITIAL else Step(Scan(lines, receipts, k - 1), lines[k - 1], receipts[k - 1], k)
  }

  function FinalProblems(st: State, prompts: nat): seq<Problem> {
    st.problems +
    (if st.turn.None? || prompts != 1 then [TurnCount(prompts)] else []) +
    (if st.started != map[] then [Unanswered(st.started.Keys)] else []) +
    (if !st.completed then [NotCompleted] else []) +
    if st.turn.Some? && st.terminal.None? then [NoTerminalResponse] else []
  }

  /** The specification of read_transcript. */
  function Read(lines: seq<Line>, receipts: seq<Time>, prompts: nat): Result<Turn, seq<Problem>> {
    if |receipts| != |lines| then Err([ReceiptMismatch(|lines|)])
    else
      var st := Scan(lines, receipts, |lines|);
      var problems := FinalProblems(st, prompts);
      if problems != [] then Err(problems)
      else Ok(Turn(st.turn.value, SortByIssue(st.calls), st.terminal))
  }

  method ReadTranscript(lines: seq<Line>, receipts: seq<Time>, prompts: nat) returns (r: Result<Turn, seq<Problem>>)
    ensures r == Read(lines, receipts, prompts)
  {
    if |receipts| != |lines| {
      return Err([ReceiptMismatch(|lines|)]);
    }
    var problems: seq<Problem> := [];
    var turn: Option<Time> := None;
    var started: map<string, Time> := map[];
    var calls: seq<ToolCall> := [];
    var completed := false;
    var terminal: Option<Message> := None;
    for k := 0 to |lines|
      invariant State(turn, started, calls, completed, terminal, problems) == Scan(lines, receipts, k)
    {
      if lines[k].NotJson? {
        continue;
      }
      var at := receipts[k];
      match lines[k].event {
        case TurnStarted =>
          if turn.Some? {
            problems := problems + [AdditionalTurn(k + 1)];
          } else {
            turn := Some(at);
          }
        case HostFailure =>
          problems := problems + [TurnFailure(k + 1)];
        case TurnCompleted =>
          if turn.Some? {
            completed := true;
          }
        case OtherEvent =>
        case ItemEvent(phase, item) =>
          if turn.Some? {
            match item {
              case Tool(Some(id), body) =>
                if phase == Started {
                  started := started[id := at];
                } else if phase == Completed {
                  if HasCall(calls, id) {
                    problems := problems + [DuplicateCall(id)];
                  } else {
                    var bound := BindItem(id, body, if id in started then started[id] else at, at);
                    started := started - {id};
                    match bound {
                      case Err(problem) =>
                        problems := problems + [problem];
                      case Ok(call) =>
                        calls := calls + [call];
                        terminal := None;
                    }
                  }
                }
              case AgentMessage(text) =>
                if phase == Completed && started == map[] && text != "" {
                  terminal := Some(Message(text, at));
                }
              case _ =>
            }
          }
      }
    }
    ghost var seen := problems;
    if turn.None? || prompts != 1 {
      problems := problems + [TurnCount(prompts)];
    }
    assert problems == seen + if turn.None? || prompts != 1 then [TurnCount(prompts)] else [];
    if started != map[] {
      problems := problems + [Unanswered(started.Keys)];
    }
    if !completed {
      problems := problems + [NotCompleted];
    }
    if turn.Some? && terminal.None? {
      problems := problems + [NoTerminalResponse];
    }
    assert problems == FinalProblems(State(turn, started, calls, completed, terminal, seen), prompts);
    if problems != [] || turn.None? {
      return Err(problems);
    }
    return Ok(Turn(turn.value, SortByIssue(calls), terminal));
  }
}
