/**
 The language-server session: initialise, open the document, then collect one
 diagnostics report, pushed or pulled (JSON-RPC 2.0 section 5; LSP 3.17
 `textDocument/diagnostic` and `textDocument/publishDiagnostics`).

 The server is arbitrary: a session consumes any list of events, each a message
 or a read failure, with the clock reading at which it is handled.
*/
module DiagnosticsExchange {
  import opened Wrappers
  import opened Text
  import opened Json

  const DIAGNOSTIC_LIMIT: nat := 48
  const SETTLE_MILLIS: nat := 5000

  datatype Failure = ReadFailure | WriteFailure | ServerFailure | BadReport

  /** `writeFails` decides any write made while handling the event. */
  datatype Event = Event(at: nat, input: Result<Json, Failure>, writeFails: bool)

  /** A message handed to the server's input, whether or not the write goes through. */
  datatype Sent =
    | Ask(id: nat, request: string)
    | Tell(notification: string)
    | Answer(answered: Json, result: Json)

  datatype Session =
    | Starting(sent: seq<Sent>)
    | Collecting(pull: bool, empty: Option<seq<Json>>, settle: Option<nat>, sent: seq<Sent>)
    | Done(outcome: Result<seq<Json>, Failure>, sent: seq<Sent>)

  const OPENED: Session := Starting([Ask(1, "initialize")])

  // ----- messages ------------------------------------------------------------------

  predicate HasId(m: Json, id: nat) {
    Get(m, "id") == Some(Num(Int(id)))
  }

  predicate HasMethod(m: Json) {
    Get(m, "method").Some?
  }

  /** The server asks something: it names a method and wants a response. */
  predicate IsRequest(m: Json) {
    HasMethod(m) && Get(m, "id").Some?
  }

  predicate IsPush(m: Json) {
    Get(m, "method") == Some(Str("textDocument/publishDiagnostics"))
  }

  predicate IsResponseTo(m: Json, id: nat) {
    HasId(m, id) && !HasMethod(m)
  }

  predicate PushMatches(m: Json, uri: string) {
    Pointer(m, ["params", "uri"]) == Some(Str(uri))
  }

  function PushedItems(m: Json): Option<seq<Json>> {
    AsArray(Pointer(m, ["params", "diagnostics"]))
  }

  function PulledItems(m: Json): Option<seq<Json>> {
    AsArray(Pointer(m, ["result", "items"]))
  }

  /** The diagnostics items a message reports for the document, if it reports any list. */
  function ReportOf(m: Json, uri: string): Option<seq<Json>> {
    if IsPush(m) then (if PushMatches(m, uri) then PushedItems(m) else None)
    else if IsResponseTo(m, 2) && Get(m, "error").None? then PulledItems(m)
    else None
  }

  function Limited(items: seq<Json>): seq<Json> {
    if |items| > DIAGNOSTIC_LIMIT then items[..DIAGNOSTIC_LIMIT] else items
  }

  function AnswerTo(m: Json): Sent
    requires IsRequest(m)
  {
    var name := AsStr(Get(m, "method"));
    var called := if name.Some? then name.value else "";
    var result :=
      if called == "workspace/configuration" then
        var items := AsArray(Pointer(m, ["params", "items"]));
        var count := if items.Some? then |items.value| else 0;
        Arr(seq(if count < 64 then count else 64, _ => Null))
      else if called == "workspace/workspaceFolders" then
        Arr([Obj([Field("name", Str("workspace")), Field("uri", Str("file:///workspace"))])])
      else if called == "workspace/applyEdit" then
        Obj([Field("applied", Bool(false)),
             Field("failureReason", Str("workspace edits require an explicit patch tool call"))])
      else Null;
    Answer(Get(m, "id").value, result)
  }

  // ----- the session ------------------------------------------------------------------

  function Opening(pull: bool): seq<Sent> {
    [Tell("initialized"), Tell("workspace/didChangeConfiguration"), Tell("textDocument/didOpen"),
     Tell("textDocument/didChange"), Tell("textDocument/didSave")]
    + if pull then [Ask(2, "textDocument/diagnostic")] else []
  }

  const CLOSING: seq<Sent> := [Tell("textDocument/didClose"), Ask(3, "shutdown"), Tell("exit")]

  function Finish(diagnostics: seq<Json>, sent: seq<Sent>): Session {
    Done(Ok(diagnostics), sent + CLOSING)
  }

  function Reply(s: Session, m: Json, writeFails: bool): Session
    requires !s.Done? && IsRequest(m)
  {
    var sent := s.sent + [AnswerTo(m)];
    if writeFails then Done(Err(WriteFailure), sent)
    else if s.Starting? then Starting(sent)
    else Collecting(s.pull, s.empty, s.settle, sent)
  }

  function Start(s: Session, m: Json, writeFails: bool): Session
    requires s.Starting?
  {
    if IsResponseTo(m, 1) then
      if Get(m, "error").Some? then Done(Err(ServerFailure), s.sent)
      else
        var provider := Pointer(m, ["result", "capabilities", "diagnosticProvider"]);
        var pull := provider.Some? && provider.value.Obj?;
        if writeFails then Done(Err(WriteFailure), s.sent + Opening(pull))
        else Collecting(pull, None, None, s.sent + Opening(pull))
    else if IsRequest(m) then Reply(s, m, writeFails)
    else s
  }

  predicate RejectsMethod(text: string) {
    text == "" || Contains(text, "Method not found")
  }

  function Collect(s: Session, m: Json, uri: string, at: nat, writeFails: bool): Session
    requires s.Collecting?
  {
    if IsPush(m) then
      if Get(m, "params").None? then Done(Err(BadReport), s.sent)
      else if !PushMatches(m, uri) then s
      else if PushedItems(m).None? then Done(Err(BadReport), s.sent)
      else if PushedItems(m).value != [] then Finish(Limited(PushedItems(m).value), s.sent)
      else if s.pull then s.(empty := Some([]))
      else s.(empty := Some([]), settle := Some(at + SETTLE_MILLIS))
    else if IsResponseTo(m, 2) then
      if Get(m, "error").Some? then
        var message := AsStr(Pointer(m, ["error", "message"]));
        if !RejectsMethod(if message.Some? then message.value else "") then Done(Err(ServerFailure), s.sent)
        else if s.empty.Some? then Finish(s.empty.value, s.sent)
        else s
      else if PulledItems(m).None? then Done(Err(BadReport), s.sent)
      else if PulledItems(m).value != [] then Finish(Limited(PulledItems(m).value), s.sent)
      else s.(empty := Some([]), settle := Some(at + SETTLE_MILLIS))
    else if IsRequest(m) then Reply(s, m, writeFails)
    else s
  }

  function Handle(s: Session, uri: string, e: Event): Session
    requires !s.Done?
  {
    match e.input
    case Ok(m) => if s.Starting? then Start(s, m, e.writeFails) else Collect(s, m, uri, e.at, e.writeFails)
    case Err(error) =>
      if s.Collecting? && s.empty.Some? && s.settle.Some? && e.at >= s.settle.value then Finish(s.empty.value, s.sent)
      else Done(Err(error), s.sent)
  }

  /** The session after a prefix of the events; events after it is done are never read. */
  function Run(uri: string, events: seq<Event>): Session {
    if events == [] then OPENED
    else
      var before := Run(uri, events[..|events| - 1]);
      if before.Done? then before else Handle(before, uri, events[|events| - 1])
  }

  lemma RunNext(uri: string, events: seq<Event>, n: nat)
    requires n < |events|
    ensures
      var before := Run(uri, events[..n]);
      Run(uri, events[..n + 1]) == if before.Done? then before else Handle(before, uri, events[n])
  {
    assert events[..n + 1][..n] == events[..n];
  }

  /** The session after `handled` events, the last of which did not come after its end. */
  predicate ReachedBy(session: Session, uri: string, events: seq<Event>, handled: nat) {
    && handled <= |events| && session == Run(uri, events[..handled])
    && (handled > 0 ==> !Run(uri, events[..handled - 1]).Done?)
  }

  /** Reads events until a report or a failure ends the session. */
  method Diagnose(uri: string, events: seq<Event>) returns (session: Session, handled: nat)
    ensures ReachedBy(session, uri, events, handled)
    ensures session.Done? || handled == |events|
  {
    session, handled := AwaitStart(uri, events);
    while session.Collecting? && handled < |events|
      invariant ReachedBy(session, uri, events, handled)
      invariant session.Starting? ==> handled == |events|
    {
      RunNext(uri, events, handled);
      session := CollectNext(session, uri, events[handled]);
      handled := handled + 1;
    }
  }

  /** One turn of the collecting loop: a message, or the end of the wait for one. */
  method CollectNext(session: Session, uri: string, e: Event) returns (next: Session)
    requires session.Collecting?
    ensures next == Handle(session, uri, e) && !next.Starting?
  {
    if e.input.Ok? {
      next := Collect(session, e.input.value, uri, e.at, e.writeFails);
    } else if session.empty.Some? && session.settle.Some? && e.at >= session.settle.value {
      next := Finish(session.empty.value, session.sent);
    } else {
      next := Done(Err(e.input.error), session.sent);
    }
  }

  /** Up to the response to the first request. */
  method AwaitStart(uri: string, events: seq<Event>) returns (session: Session, handled: nat)
    ensures ReachedBy(session, uri, events, handled)
    ensures session.Starting? ==> handled == |events|
  {
    session, handled := OPENED, 0;
    assert events[..0] == [];
    while session.Starting? && handled < |events|
      invariant ReachedBy(session, uri, events, handled)
    {
      var e := events[handled];
      RunNext(uri, events, handled);
      if e.input.Err? {
        session := Done(Err(e.input.error), session.sent);
      } else {
        session := Start(session, e.input.value, e.writeFails);
      }
      handled := handled + 1;
    }
  }

  // ----- what the session returns --------------------------------------------------------

  /** Event `n` was handled while collecting, and reports `items` for the document. */
  predicate Reports(uri: string, events: seq<Event>, n: nat, items: seq<Json>)
    requires n < |events|
  {
    && Run(uri, events[..n]).Collecting?
    && events[n].input.Ok?
    && ReportOf(events[n].input.value, uri) == Some(items)
  }

  ghost predicate NoReportBefore(uri: string, events: seq<Event>, n: nat)
    requires n <= |events|
  {
    forall k, items :: 0 <= k < n && Reports(uri, events, k, items) ==> items == []
  }

  /** Some handled event reported an empty list. */
  ghost predicate EmptyReportBefore(uri: string, events: seq<Event>, n: nat)
    requires n <= |events|
  {
    exists k :: 0 <= k < n && Reports(uri, events, k, [])
  }

  /** The report an event carries while the session collects. */
  function Carried(e: Event, uri: string): Option<seq<Json>> {
    if e.input.Ok? then ReportOf(e.input.value, uri) else None
  }

  /** One event of a collecting session that keeps collecting. */
  lemma KeepsCollecting(s: Session, uri: string, e: Event)
    requires s.Collecting? && !Handle(s, uri, e).Done?
    ensures
      var s' := Handle(s, uri, e);
      && s'.Collecting?
      && (Carried(e, uri).Some? ==> Carried(e, uri).value == [])
      && (s'.empty == s.empty || (s'.empty == Some([]) && Carried(e, uri) == Some([])))
      && (s'.settle == s.settle || (s'.settle == Some(e.at + SETTLE_MILLIS) && Carried(e, uri) == Some([])))
  {
  }

  /** One event of a collecting session that ends with a result. */
  lemma EndsCollecting(s: Session, uri: string, e: Event)
    requires s.Collecting? && Handle(s, uri, e).Done? && Handle(s, uri, e).outcome.Ok?
    ensures
      var diagnostics := Handle(s, uri, e).outcome.value;
      if Carried(e, uri).Some? && Carried(e, uri).value != [] then diagnostics == Limited(Carried(e, uri).value)
      else
        && s.empty.Some? && diagnostics == s.empty.value
        && (e.input.Err? ==> s.settle.Some? && e.at >= s.settle.value)
  {
  }

  lemma StartingEndsInFailure(s: Session, uri: string, e: Event)
    requires s.Starting?
    ensures
      var s' := Handle(s, uri, e);
      && (s'.Done? ==> s'.outcome.Err?)
      && (s'.Collecting? ==> s'.empty.None? && s'.settle.None?)
  {
  }

  /** What the session's fields say about the events already handled. */
  ghost predicate Remembers(uri: string, events: seq<Event>, n: nat, s: Session)
    requires n <= |events|
  {
    && NoReportBefore(uri, events, n)
    && (s.Collecting? && s.empty.Some? ==> s.empty.value == [] && EmptyReportBefore(uri, events, n))
    && (s.Collecting? && s.settle.Some? ==> SettledBefore(uri, events, n, s.settle.value))
  }

  /** The deadline was set by an empty report, the settle time ahead. */
  ghost predicate SettledBefore(uri: string, events: seq<Event>, n: nat, deadline: nat)
    requires n <= |events|
  {
    exists k :: 0 <= k < n && Reports(uri, events, k, []) && deadline == events[k].at + SETTLE_MILLIS
  }

  lemma RemembersStep(uri: string, events: seq<Event>, n: nat, s: Session, s': Session)
    requires n < |events| && s == Run(uri, events[..n]) && !s.Done?
    requires s' == Handle(s, uri, events[n]) && !s'.Done?
    requires Remembers(uri, events, n, s)
    ensures Remembers(uri, events, n + 1, s')
  {
    if s.Collecting? {
      KeepsCollecting(s, uri, events[n]);
      assert Carried(events[n], uri) == Some([]) ==> Reports(uri, events, n, []);
    } else {
      StartingEndsInFailure(s, uri, events[n]);
    }
  }

  lemma {:induction false} CollectingHistory(uri: string, events: seq<Event>, n: nat)
    requires n <= |events| && !Run(uri, events[..n]).Done?
    ensures Remembers(uri, events, n, Run(uri, events[..n]))
  {
    if n > 0 {
      RunNext(uri, events, n - 1);
      CollectingHistory(uri, events, n - 1);
      RemembersStep(uri, events, n - 1, Run(uri, events[..n - 1]), Run(uri, events[..n]));
    }
  }

  /**
   Over every event list: a non-empty result is the first non-empty report of the
   document, cut to the limit; an empty result needs an empty report and no
   non-empty one; and a result after a read failure comes at least the settle
   time after such an empty report.
  */
  lemma ResultIsFirstReport(uri: string, events: seq<Event>, n: nat)
    requires n < |events| && !Run(uri, events[..n]).Done?
    requires Run(uri, events[..n + 1]).Done? && Run(uri, events[..n + 1]).outcome.Ok?
    ensures NoReportBefore(uri, events, n)
    ensures
      var diagnostics := Run(uri, events[..n + 1]).outcome.value;
      if diagnostics == [] then
        && EmptyReportBefore(uri, events, n)
        && NoReportBefore(uri, events, n + 1)
        && (events[n].input.Err? ==>
              exists settled: nat :: settled <= events[n].at && SettledBefore(uri, events, n, settled))
      else exists items :: Reports(uri, events, n, items) && items != [] && diagnostics == Limited(items)
  {
    var s := Run(uri, events[..n]);
    RunNext(uri, events, n);
    CollectingHistory(uri, events, n);
    if s.Collecting? {
      EndsCollecting(s, uri, events[n]);
      if Carried(events[n], uri).Some? && Carried(events[n], uri).value != [] {
        assert Reports(uri, events, n, Carried(events[n], uri).value);
      }
    } else {
      StartingEndsInFailure(s, uri, events[n]);
    }
  }

  /** Conversely the first non-empty report ends the session with it. */
  lemma FirstReportIsResult(uri: string, events: seq<Event>, n: nat, items: seq<Json>)
    requires n < |events| && Reports(uri, events, n, items) && items != []
    ensures Run(uri, events[..n + 1]).Done? && Run(uri, events[..n + 1]).outcome == Ok(Limited(items))
  {
    RunNext(uri, events, n);
  }

  // ----- requests and answers ---------------------------------------------------------------

  /** The session owes this event an answer. */
  predicate Owed(s: Session, e: Event) {
    !s.Done? && e.input.Ok? && IsRequest(e.input.value) && !(s.Collecting? && IsPush(e.input.value))
  }

  /** A message naming a method is never read as the response to the session's own request 1 or 2. */
  lemma RequestIsNotResponse(s: Session, uri: string, e: Event)
    requires Owed(s, e)
    ensures Handle(s, uri, e) == Reply(s, e.input.value, e.writeFails)
  {
  }

  function Answers(sent: seq<Sent>): seq<Sent> {
    if sent == [] then []
    else
      var last := sent[|sent| - 1];
      Answers(sent[..|sent| - 1]) + if last.Answer? then [last] else []
  }

  /** The answers owed to the handled requests, in order. */
  function OwedAnswers(uri: string, events: seq<Event>): seq<Sent> {
    if events == [] then []
    else
      var before, last := events[..|events| - 1], events[|events| - 1];
      OwedAnswers(uri, before) + if Owed(Run(uri, before), last) then [AnswerTo(last.input.value)] else []
  }

  lemma {:induction false} AnswersOfAppend(sent: seq<Sent>, more: seq<Sent>)
    ensures Answers(sent + more) == Answers(sent) + Answers(more)
  {
    if more == [] {
      assert sent + more == sent;
    } else {
      assert (sent + more)[..|sent + more| - 1] == sent + more[..|more| - 1];
      AnswersOfAppend(sent, more[..|more| - 1]);
    }
  }

  lemma {:induction false} OtherMessagesAreNotAnswers(sent: seq<Sent>)
    requires forall i :: 0 <= i < |sent| ==> !sent[i].Answer?
    ensures Answers(sent) == []
  {
    if sent != [] {
      OtherMessagesAreNotAnswers(sent[..|sent| - 1]);
    }
  }

  /** Messages other than answers leave the answers as they are. */
  lemma SentMore(sent: seq<Sent>, more: seq<Sent>)
    requires forall i :: 0 <= i < |more| ==> !more[i].Answer?
    ensures Answers(sent + more) == Answers(sent)
  {
    AnswersOfAppend(sent, more);
    OtherMessagesAreNotAnswers(more);
  }

  /** An event that owes no answer adds nothing, the opening or the closing messages. */
  lemma HandleWithoutAnswer(s: Session, uri: string, e: Event)
    requires !s.Done? && !Owed(s, e)
    ensures
      var sent := Handle(s, uri, e).sent;
      sent == s.sent || sent == s.sent + Opening(true) || sent == s.sent + Opening(false) || sent == s.sent + CLOSING
  {
  }

  lemma HandleAnswers(s: Session, uri: string, e: Event)
    requires !s.Done?
    ensures Answers(Handle(s, uri, e).sent) ==
      Answers(s.sent) + if Owed(s, e) then [AnswerTo(e.input.value)] else []
  {
    if Owed(s, e) {
      RequestIsNotResponse(s, uri, e);
      AnswersOfAppend(s.sent, [AnswerTo(e.input.value)]);
    } else {
      HandleWithoutAnswer(s, uri, e);
      SentMore(s.sent, Opening(true));
      SentMore(s.sent, Opening(false));
      SentMore(s.sent, CLOSING);
    }
  }

  /** Every handled server request is answered exactly once, in order, under its own id. */
  lemma {:induction false} EveryRequestAnsweredOnce(uri: string, events: seq<Event>)
    ensures Answers(Run(uri, events).sent) == OwedAnswers(uri, events)
  {
    if events != [] {
      var before := events[..|events| - 1];
      EveryRequestAnsweredOnce(uri, before);
      if !Run(uri, before).Done? {
        HandleAnswers(Run(uri, before), uri, events[|events| - 1]);
      }
    }
  }
}
