/**
 The on-disk journal of a resumable replay (scripts/dashboard_replay.py, call): one file per request name, failed
 attempts moved aside, and one process after another resuming from what the files say.
 */
module RequestJournal {
  import opened Wrappers

  datatype Identity = Identity(verb: string, path: string, payload: string)

  datatype Outcome = Unknown | Replied(status: int, response: string)

  /** What the file of the name holds; a torn file was cut off while it was written and is not readable. */
  datatype Record = Record(identity: Identity, outcome: Outcome) | Torn

  /**
   What becomes of a call that does not answer from its record. The process may die before it sends (a failed record is
   moved aside by then), after it has sent and before it writes (Killed), or in the middle of writing (CutOff).
   */
  datatype Reply = NeverSent | TransportError | NotJson | Killed | CutOff | Json(status: int, body: string)

  datatype Failure =
    | RequestChanged | OutcomeUnknown | Unreadable | Undecodable | Interrupted | HttpError(status: int)

  type Answer = Result<string, Failure>

  /** The files of one name, and every request sent for it. */
  datatype State = State(current: Option<Record>, archived: map<nat, Record>, sent: seq<Identity>)

  datatype Call = Call(identity: Identity, reply: Reply)

  const NOTHING := State(None, map[], [])

  /** The name has a record that a call has to respect. */
  predicate Respected(s: State, id: Identity) {
    id.verb != "GET" && s.current.Some?
  }

  predicate Succeeded(r: Record) {
    r.Record? && r.outcome.Replied? && r.outcome.status < 400
  }

  predicate Failed(r: Record) {
    r.Record? && r.outcome.Replied? && r.outcome.status >= 400
  }

  // ----- One call, as a function of the files -----

  /** The answer that the record alone gives, without sending anything. */
  function FromRecord(s: State, id: Identity): Option<Answer> {
    if !Respected(s, id) then None
    else
      var previous := s.current.value;
      if previous.Torn? then Some(Err(Unreadable))
      else if previous.identity != id then Some(Err(RequestChanged))
      else
        match previous.outcome
        case Unknown => Some(Err(OutcomeUnknown))
        case Replied(status, response) => if status < 400 then Some(Ok(response)) else None
  }

  /** A failed record is renamed to the next attempt. */
  function Archive(s: State, id: Identity): State {
    if Respected(s, id) then State(None, s.archived[|s.archived| + 1 := s.current.value], s.sent) else s
  }

  function Send(s: State, id: Identity, reply: Reply): State {
    var sent := s.sent + [id];
    match reply
    case TransportError => State(Some(Record(id, Unknown)), s.archived, sent)
    case Json(status, body) => State(Some(Record(id, Replied(status, body))), s.archived, sent)
    case CutOff => State(Some(Torn), s.archived, sent)
    case NeverSent => s
    case _ => State(s.current, s.archived, sent)
  }

  /** httpx counts 400 to 599 as errors. */
  function AnswerTo(reply: Reply): Answer {
    match reply
    case TransportError => Err(OutcomeUnknown)
    case NotJson => Err(Undecodable)
    case Json(status, body) => if 400 <= status <= 599 then Err(HttpError(status)) else Ok(body)
    case _ => Err(Interrupted)
  }

  function Step(s: State, call: Call): State {
    if FromRecord(s, call.identity).Some? then s else Send(Archive(s, call.identity), call.identity, call.reply)
  }

  function Answered(s: State, call: Call): Answer {
    match FromRecord(s, call.identity)
    case Some(answer) => answer
    case None => AnswerTo(call.reply)
  }

  /** The files after a whole series of calls, by however many processes. */
  function Run(s: State, calls: seq<Call>): State {
    if calls == [] then s else Step(Run(s, calls[..|calls| - 1]), calls[|calls| - 1])
  }

  class Journal {
    var current: Option<Record>
    var archived: map<nat, Record>
    var sent: seq<Identity>

    ghost function Files(): State
      reads this
    {
      State(current, archived, sent)
    }

    constructor ()
      ensures Files() == NOTHING
    {
      current, archived, sent := None, map[], [];
    }

    method Request(id: Identity, reply: Reply) returns (answer: Answer)
      modifies this
      ensures Files() == Step(old(Files()), Call(id, reply))
      ensures answer == Answered(old(Files()), Call(id, reply))
    {
      if id.verb != "GET" && current.Some? {
        var previous := current.value;
        if previous.Torn? {
          return Err(Unreadable);
        }
        if previous.identity != id {
          return Err(RequestChanged);
        }
        if previous.outcome.Unknown? {
          return Err(OutcomeUnknown);
        }
        if previous.outcome.status < 400 {
          return Ok(previous.outcome.response);
        }
        var attempt := |archived| + 1;
        archived := archived[attempt := previous];
        current := None;
      }
      if reply.NeverSent? {
        return Err(Interrupted);
      }
      sent := sent + [id];
      match reply {
        case TransportError =>
          current := Some(Record(id, Unknown));
          answer := Err(OutcomeUnknown);
        case NotJson =>
          answer := Err(Undecodable);
        case Killed =>
          answer := Err(Interrupted);
        case CutOff =>
          current := Some(Torn);
          answer := Err(Interrupted);
        case Json(status, body) =>
          current := Some(Record(id, Replied(status, body)));
          if 400 <= status <= 599 {
            answer := Err(HttpError(status));
          } else {
            answer := Ok(body);
          }
      }
    }
  }

  // ----- Archived attempts -----

  /** Attempts are numbered 1 to k with none missing, and each holds a recorded failure. */
  ghost predicate Numbered(s: State) {
    && (forall k :: k in s.archived <==> 1 <= k <= |s.archived|)
    && forall k :: k in s.archived ==> Failed(s.archived[k])
  }

  /** Moving a failure aside gives it the next number, and leaves the others alone. */
  lemma ArchiveNumbers(s: State, id: Identity)
    requires Numbered(s) && (Respected(s, id) ==> Failed(s.current.value))
    ensures Numbered(Archive(s, id))
    ensures |Archive(s, id).archived| == if Respected(s, id) then |s.archived| + 1 else |s.archived|
    ensures forall k :: k in s.archived ==> k in Archive(s, id).archived && Archive(s, id).archived[k] == s.archived[k]
  {
    if Respected(s, id) {
      assert Archive(s, id).archived.Keys == s.archived.Keys + {|s.archived| + 1};
    }
  }

  /** A call answers from the record and does nothing, or moves a failure aside and sends, unless it dies first. */
  lemma StepShape(s: State, call: Call)
    ensures FromRecord(s, call.identity).Some? ==> Step(s, call) == s
    ensures FromRecord(s, call.identity).None? ==>
      && (Respected(s, call.identity) ==> Failed(s.current.value) && s.current.value.identity == call.identity)
      && Step(s, call).archived == Archive(s, call.identity).archived
      && Step(s, call).sent == if call.reply.NeverSent? then s.sent else s.sent + [call.identity]
  {
  }

  lemma StepNumbers(s: State, call: Call)
    requires Numbered(s)
    ensures Numbered(Step(s, call))
    ensures forall k :: k in s.archived ==> k in Step(s, call).archived && Step(s, call).archived[k] == s.archived[k]
  {
    hide Archive, FromRecord, Step, Failed, Respected;
    StepShape(s, call);
    if FromRecord(s, call.identity).None? {
      ArchiveNumbers(s, call.identity);
      assert Numbered(Archive(s, call.identity));
    }
  }

  /** Over any run of any calls: the attempts stay gapless failures, and no attempt is ever overwritten or lost. */
  lemma {:induction false} AttemptsKept(s: State, calls: seq<Call>)
    requires Numbered(s)
    ensures Numbered(Run(s, calls))
    ensures forall k :: k in s.archived ==>
      k in Run(s, calls).archived && Run(s, calls).archived[k] == s.archived[k]
  {
    if calls != [] {
      AttemptsKept(s, calls[..|calls| - 1]);
      StepNumbers(Run(s, calls[..|calls| - 1]), calls[|calls| - 1]);
    }
  }

  // ----- Final records -----

  ghost predicate NoneGets(calls: seq<Call>) {
    forall i :: 0 <= i < |calls| ==> calls[i].identity.verb != "GET"
  }

  /** A success, an unknown outcome or a torn file is final: no later call sends anything or changes a file. */
  lemma {:induction false} FinalRecord(s: State, calls: seq<Call>)
    requires s.current.Some? && !Failed(s.current.value) && NoneGets(calls)
    ensures Run(s, calls) == s
  {
    if calls != [] {
      FinalRecord(s, calls[..|calls| - 1]);
    }
  }

  /** What a call answers once a success is on record: the same response, or a refusal of a changed request. */
  lemma {:induction false} SuccessRepeats(s: State, calls: seq<Call>, call: Call)
    requires s.current.Some? && Succeeded(s.current.value) && NoneGets(calls) && call.identity.verb != "GET"
    ensures Answered(Run(s, calls), call) ==
      if call.identity == s.current.value.identity then Ok(s.current.value.outcome.response) else Err(RequestChanged)
  {
    FinalRecord(s, calls);
  }

  /** What a call answers once the outcome is unknown: it never sends the request again. */
  lemma {:induction false} UnknownStays(s: State, calls: seq<Call>, call: Call)
    requires s.current.Some? && s.current.value.Record? && s.current.value.outcome.Unknown?
    requires NoneGets(calls) && call.identity.verb != "GET"
    ensures Answered(Run(s, calls), call) ==
      if call.identity == s.current.value.identity then Err(OutcomeUnknown) else Err(RequestChanged)
  {
    FinalRecord(s, calls);
  }

  /** A file cut off in the middle of writing stops every later call of the name. */
  lemma {:induction false} TornStays(s: State, calls: seq<Call>, call: Call)
    requires s.current == Some(Torn) && NoneGets(calls) && call.identity.verb != "GET"
    ensures Answered(Run(s, calls), call) == Err(Unreadable)
  {
    FinalRecord(s, calls);
  }

  // ----- Every request is on record -----

  /** The call sends a request whose outcome reaches no readable file. */
  predicate LeavesNoRecord(s: State, call: Call) {
    FromRecord(s, call.identity).None? && (call.reply.Killed? || call.reply.NotJson? || call.reply.CutOff?)
  }

  /** The current file is a readable record. */
  predicate Readable(s: State) {
    s.current.Some? && s.current.value.Record?
  }

  function Unrecorded(s: State, calls: seq<Call>): nat {
    if calls == [] then 0
    else
      var before := calls[..|calls| - 1];
      if LeavesNoRecord(Run(s, before), calls[|calls| - 1]) then Unrecorded(s, before) + 1 else Unrecorded(s, before)
  }

  function OnRecord(s: State): nat {
    if Readable(s) then |s.archived| + 1 else |s.archived|
  }

  lemma OneMoreRequest(s: State, call: Call)
    requires Numbered(s) && call.identity.verb != "GET"
    ensures |Step(s, call).sent| - |s.sent| ==
      OnRecord(Step(s, call)) - OnRecord(s) + if LeavesNoRecord(s, call) then 1 else 0
  {
    hide Archive, Numbered;
    StepShape(s, call);
    if FromRecord(s, call.identity).None? {
      ArchiveNumbers(s, call.identity);
      CurrentAfter(s, call);
    }
  }

  lemma CurrentAfter(s: State, call: Call)
    requires call.identity.verb != "GET" && FromRecord(s, call.identity).None?
    ensures Readable(Step(s, call)) <==> !LeavesNoRecord(s, call) && !call.reply.NeverSent?
    ensures Readable(Step(s, call)) ==> Step(s, call).current.value.identity == call.identity
  {
  }

  /**
   Conservation: the requests sent under a name are its attempts, its current record, and those whose reply was lost
   (the process died before it had written the record, or the reply was no JSON).
   */
  lemma {:induction false} RequestsAccountedFor(calls: seq<Call>)
    requires NoneGets(calls)
    ensures |Run(NOTHING, calls).sent| == OnRecord(Run(NOTHING, calls)) + Unrecorded(NOTHING, calls)
  {
    hide Step, LeavesNoRecord, Numbered;
    NothingNumbered();
    if calls != [] {
      var before := calls[..|calls| - 1];
      RequestsAccountedFor(before);
      AttemptsKept(NOTHING, before);
      OneMoreRequest(Run(NOTHING, before), calls[|calls| - 1]);
    }
  }

  lemma NothingNumbered()
    ensures Numbered(NOTHING)
  {
  }

  /** Every request sent is on record exactly when no reply was lost on the way. */
  lemma {:induction false} RecordComplete(calls: seq<Call>)
    requires NoneGets(calls)
    ensures |Run(NOTHING, calls).sent| == OnRecord(Run(NOTHING, calls)) <==>
      forall n :: 0 <= n < |calls| ==> !LeavesNoRecord(Run(NOTHING, calls[..n]), calls[n])
  {
    RequestsAccountedFor(calls);
    NoneLost(NOTHING, calls);
  }

  lemma {:induction false} NoneLost(s: State, calls: seq<Call>)
    ensures Unrecorded(s, calls) == 0 <==>
      forall n :: 0 <= n < |calls| ==> !LeavesNoRecord(Run(s, calls[..n]), calls[n])
  {
    hide LeavesNoRecord, Run;
    if calls != [] {
      var before := calls[..|calls| - 1];
      NoneLost(s, before);
      assert forall n :: 0 <= n < |before| ==> before[..n] == calls[..n] && before[n] == calls[n];
      assert calls[..|before|] == before;
    }
  }

  // ----- One name, one request -----

  /** The call gets as far as sending its request. */
  predicate Sends(s: State, call: Call) {
    FromRecord(s, call.identity).None? && !call.reply.NeverSent?
  }

  /** A request went out under the name already, and no file makes the next one answer to it. */
  predicate Unguarded(s: State, id: Identity) {
    s.sent != [] && !Respected(s, id)
  }

  /** The call sends without a file in its way, and it is not the request that went out first. */
  predicate Strays(s: State, call: Call) {
    Unguarded(s, call.identity) && Sends(s, call) && call.identity != s.sent[0]
  }

  predicate AllTheSame(sent: seq<Identity>) {
    forall i :: 0 <= i < |sent| ==> sent[i] == sent[0]
  }

  /** The file of a name is there for something sent, and if it is readable it is of the last request sent. */
  predicate RecordsLast(s: State) {
    s.current.Some? ==> s.sent != [] && (Readable(s) ==> s.current.value.identity == s.sent[|s.sent| - 1])
  }

  /** As long as only one request went out, the next call sends another one exactly when it strays. */
  lemma StepStrays(s: State, call: Call)
    requires AllTheSame(s.sent) && RecordsLast(s)
    ensures AllTheSame(Step(s, call).sent) <==> !Strays(s, call)
    ensures AllTheSame(Step(s, call).sent) ==> RecordsLast(Step(s, call))
  {
    StepShape(s, call);
    var sent := Step(s, call).sent;
    if Sends(s, call) {
      assert sent[|s.sent|] == call.identity && sent[..|s.sent|] == s.sent;
    }
  }

  /**
   One name, one request, exactly: over any run, GETs included, two different requests go out exactly when some call
   sends a request other than the first one at a time when it finds no file to respect.
   */
  lemma {:induction false} OneRequestExactly(calls: seq<Call>)
    ensures AllTheSame(Run(NOTHING, calls).sent) <==>
      forall n :: 0 <= n < |calls| ==> !Strays(Run(NOTHING, calls[..n]), calls[n])
    ensures AllTheSame(Run(NOTHING, calls).sent) ==> RecordsLast(Run(NOTHING, calls))
  {
    hide Run, Step, Strays, RecordsLast, AllTheSame;
    RunStep(NOTHING, calls);
    if calls == [] {
      NothingSent();
    } else {
      var n := |calls| - 1;
      var before := calls[..n];
      OneRequestExactly(before);
      assert forall k :: 0 <= k < n ==> before[..k] == calls[..k] && before[k] == calls[k];
      if AllTheSame(Run(NOTHING, before).sent) {
        StepStrays(Run(NOTHING, before), calls[n]);
      } else {
        StaysMixed(Run(NOTHING, before), calls[n]);
      }
    }
  }

  lemma {:induction false} RunStep(s: State, calls: seq<Call>)
    ensures Run(s, calls) == if calls == [] then s else Step(Run(s, calls[..|calls| - 1]), calls[|calls| - 1])
  {
  }

  lemma NothingSent()
    ensures AllTheSame(NOTHING.sent) && RecordsLast(NOTHING)
  {
  }

  lemma StaysMixed(s: State, call: Call)
    ensures AllTheSame(Step(s, call).sent) ==> AllTheSame(s.sent)
  {
    StepShape(s, call);
    assert s.sent == Step(s, call).sent[..|s.sent|];
  }

  /** A request went out and no file of the name stands. */
  predicate Exposed(s: State) {
    s.sent != [] && s.current.None?
  }

  /** The call goes past the record and leaves no file: it dies before it writes, or the reply is no JSON. */
  predicate LeavesNoFile(s: State, call: Call) {
    && FromRecord(s, call.identity).None?
    && (call.reply.Killed? || call.reply.NotJson? || call.reply.NeverSent?)
  }

  /** While the file of the name stands, everything sent is one request, and a readable record is of it. */
  lemma {:induction false} OneRequest(calls: seq<Call>)
    requires NoneGets(calls)
    requires forall n :: 0 <= n < |calls| ==> !Exposed(Run(NOTHING, calls[..n]))
    ensures AllTheSame(Run(NOTHING, calls).sent) && RecordsLast(Run(NOTHING, calls))
  {
    hide Run, FromRecord, AllTheSame;
    OneRequestExactly(calls);
  }

  /** A run leaves the name exposed exactly when its last call left no file, and something went out by then. */
  lemma {:induction false} ExposedExactly(calls: seq<Call>)
    requires NoneGets(calls) && calls != []
    ensures Exposed(Run(NOTHING, calls)) <==>
      Run(NOTHING, calls).sent != [] && LeavesNoFile(Run(NOTHING, calls[..|calls| - 1]), calls[|calls| - 1])
  {
  }

  /** The next call of the name, whatever it is, cannot send a second request. */
  ghost predicate GuardsNext(s: State) {
    forall call: Call :: call.identity.verb != "GET" ==> AllTheSame(Step(s, call).sent)
  }

  /** After a run that sent one request, the next call is bound to it exactly when the last one left a file. */
  lemma {:induction false} GuardedExactly(calls: seq<Call>)
    requires NoneGets(calls) && Run(NOTHING, calls).sent != [] && AllTheSame(Run(NOTHING, calls).sent)
    ensures GuardsNext(Run(NOTHING, calls)) <==>
      !LeavesNoFile(Run(NOTHING, calls[..|calls| - 1]), calls[|calls| - 1])
  {
    var s := Run(NOTHING, calls);
    OneRequestExactly(calls);
    ExposedExactly(calls);
    hide Run, LeavesNoFile, FromRecord, Step;
    if Exposed(s) {
      var other := Call(Identity("POST", s.sent[0].path, s.sent[0].payload + "x"), Killed);
      StepStrays(s, other);
      NothingInTheWay(s, other.identity);
      assert !AllTheSame(Step(s, other).sent);
    } else {
      forall call: Call | call.identity.verb != "GET" ensures AllTheSame(Step(s, call).sent) {
        StepStrays(s, call);
      }
    }
  }

  lemma NothingInTheWay(s: State, id: Identity)
    requires s.current.None?
    ensures FromRecord(s, id).None?
  {
  }

  /**
   A request that differs from the readable record of its name is answered with a refusal, and never sent, exactly when
   the last call left a file.
   */
  lemma {:induction false} RefusedExactly(calls: seq<Call>, other: Call)
    requires NoneGets(calls) && calls != [] && other.identity.verb != "GET"
    requires var s := Run(NOTHING, calls); Readable(s) ==> s.current.value.identity != other.identity
    ensures
      var s := Run(NOTHING, calls);
      var refused := Step(s, other) == s && Answered(s, other) in {Err(RequestChanged), Err(Unreadable)};
      refused <==> !LeavesNoFile(Run(NOTHING, calls[..|calls| - 1]), calls[|calls| - 1])
  {
    var before := calls[..|calls| - 1];
    var s := Run(NOTHING, calls);
    assert s.current.None? <==> LeavesNoFile(Run(NOTHING, before), calls[|calls| - 1]);
  }

  // ----- Resuming after an answer -----

  /**
   A call that answers from a fresh reply is answered again from the record, without sending, exactly when the status
   is below 400; 600 and above count as answers but not as recorded successes.
   */
  lemma ResumeExact(s: State, call: Call)
    requires call.identity.verb != "GET" && FromRecord(s, call.identity).None? && Answered(s, call).Ok?
    ensures Step(Step(s, call), call).sent == Step(s, call).sent <==> call.reply.status < 400
    ensures call.reply.status < 400 ==> Answered(Step(s, call), call) == Answered(s, call)
    ensures call.reply.status >= 400 ==> call.reply.status >= 600
  {
    var once := Step(s, call);
    assert once.current == Some(Record(call.identity, Replied(call.reply.status, call.reply.body)));
    if call.reply.status >= 400 {
      assert |Step(once, call).sent| == |once.sent| + 1;
    }
  }

  /** The guarantee needs the write: a process killed after the reply leaves nothing, and the request goes out twice. */
  lemma KilledSendsTwice(id: Identity)
    requires id.verb != "GET"
    ensures Run(NOTHING, [Call(id, Killed), Call(id, Json(200, "done"))]).sent == [id, id]
  {
    var calls := [Call(id, Killed), Call(id, Json(200, "done"))];
    assert calls[..1][..0] == [];
    assert Run(NOTHING, calls[..1]) == Step(NOTHING, Call(id, Killed)) == State(None, map[], [id]);
    assert Run(NOTHING, calls) == Step(State(None, map[], [id]), calls[1]);
  }

  /**
   And it needs the send: a process killed between moving a failure aside and sending again leaves no record of the
   request, so another request goes out under the same name unrefused.
   */
  lemma RenameForgetsRequest(id: Identity, other: Identity)
    requires id.verb != "GET" && other.verb != "GET"
    ensures
      Run(NOTHING, [Call(id, Json(500, "")), Call(id, NeverSent), Call(other, Json(200, "done"))]).sent == [id, other]
  {
    var calls := [Call(id, Json(500, "")), Call(id, NeverSent), Call(other, Json(200, "done"))];
    var failed := State(Some(Record(id, Replied(500, ""))), map[], [id]);
    var moved := State(None, map[1 := Record(id, Replied(500, ""))], [id]);
    assert calls[..2][..1] == calls[..1] && calls[..1][..0] == [];
    assert Run(NOTHING, calls[..1]) == Step(NOTHING, calls[0]) == failed;
    assert Run(NOTHING, calls[..2]) == Step(failed, calls[1]) == moved;
    assert Run(NOTHING, calls) == Step(moved, calls[2]);
  }
}
