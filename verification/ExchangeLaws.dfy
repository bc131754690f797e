/**
 What the server is sent over a whole session, and exactly when and how a session ends, told by
 the messages' own members.
*/
module ExchangeLaws {
  import opened Wrappers
  import opened Text
  import opened Json
  import opened DiagnosticsExchange

  // ----- answers -----------------------------------------------------------------------------

  /** A message with a method and an id; a diagnostics push is none while reports are collected. */
  predicate Asks(s: Session, e: Event) {
    && !s.Done? && e.input.Ok?
    && Get(e.input.value, "method").Some? && Get(e.input.value, "id").Some?
    && (s.Collecting? ==> Get(e.input.value, "method") != Some(Str("textDocument/publishDiagnostics")))
  }

  /** The requests the session handled, in order. */
  function Requests(uri: string, events: seq<Event>): seq<Json> {
    if events == [] then []
    else
      var before, last := events[..|events| - 1], events[|events| - 1];
      Requests(uri, before) + if Asks(Run(uri, before), last) then [last.input.value] else []
  }

  predicate Nulls(value: Json, count: nat) {
    value.Arr? && |value.items| == count && forall k :: 0 <= k < count ==> value.items[k] == Null
  }

  /** One null for each configuration item asked for, up to 64; the one folder; no edit; null for anything else. */
  predicate RightResult(request: Json, result: Json) {
    var called, items := Get(request, "method"), Pointer(request, ["params", "items"]);
    if called == Some(Str("workspace/configuration")) then
      if items.Some? && items.value.Arr? then Nulls(result, if |items.value.items| <= 64 then |items.value.items| else 64)
      else Nulls(result, 0)
    else if called == Some(Str("workspace/workspaceFolders")) then
      && result.Arr? && |result.items| == 1
      && Get(result.items[0], "name") == Some(Str("workspace"))
      && Get(result.items[0], "uri") == Some(Str("file:///workspace"))
    else if called == Some(Str("workspace/applyEdit")) then
      && Get(result, "applied") == Some(Bool(false))
      && Get(result, "failureReason") == Some(Str("workspace edits require an explicit patch tool call"))
    else result == Null
  }

  predicate RightAnswer(request: Json, answer: Sent) {
    && answer.Answer?
    && Get(request, "id") == Some(answer.answered)
    && RightResult(request, answer.result)
  }

  predicate RightAnswers(requests: seq<Json>, answers: seq<Sent>) {
    |answers| == |requests| && forall i :: 0 <= i < |requests| ==> RightAnswer(requests[i], answers[i])
  }

  lemma AnswerIsRight(m: Json)
    requires IsRequest(m)
    ensures RightAnswer(m, AnswerTo(m))
  {
    var result := AnswerTo(m).result;
    if Get(m, "method") == Some(Str("workspace/workspaceFolders")) {
      assert result.items[0].fields[1] == Field("uri", Str("file:///workspace"));
      assert result.items[0].fields[1..][0].name == "uri";
    } else if Get(m, "method") == Some(Str("workspace/applyEdit")) {
      assert result.fields[1..][0].name == "failureReason";
    }
  }

  /** The k-th answer sent goes to the k-th request handled, under its id and with the result its method calls for. */
  lemma {:induction false} AnswersMatchRequests(uri: string, events: seq<Event>)
    ensures RightAnswers(Requests(uri, events), Answers(Run(uri, events).sent))
  {
    if events != [] {
      var before, last := events[..|events| - 1], events[|events| - 1];
      AnswersMatchRequests(uri, before);
      if !Run(uri, before).Done? {
        HandleAnswers(Run(uri, before), uri, last);
        if Asks(Run(uri, before), last) {
          AnswerIsRight(last.input.value);
        }
      }
    }
  }

  // ----- the session's own messages -------------------------------------------------------------

  function Others(sent: seq<Sent>): seq<Sent> {
    if sent == [] then []
    else
      var last := sent[|sent| - 1];
      Others(sent[..|sent| - 1]) + if last.Answer? then [] else [last]
  }

  function Greeting(): seq<Sent> {
    [Ask(1, "initialize")]
  }

  /** Up to the request for diagnostics, which is made of a server that offers them. */
  function Introduction(pull: bool): seq<Sent> {
    [Ask(1, "initialize"), Tell("initialized"), Tell("workspace/didChangeConfiguration"), Tell("textDocument/didOpen"),
     Tell("textDocument/didChange"), Tell("textDocument/didSave")]
    + if pull then [Ask(2, "textDocument/diagnostic")] else []
  }

  function Farewell(): seq<Sent> {
    [Tell("textDocument/didClose"), Ask(3, "shutdown"), Tell("exit")]
  }

  /** What has been said, by where the session stands. */
  ghost predicate Spoken(s: Session) {
    match s
    case Starting(sent) => Others(sent) == Greeting()
    case Collecting(pull, _, _, sent) => Others(sent) == Introduction(pull)
    case Done(outcome, sent) =>
      if outcome.Ok? then exists pull :: Others(sent) == Introduction(pull) + Farewell()
      else Others(sent) == Greeting() || exists pull :: Others(sent) == Introduction(pull)
  }

  lemma {:induction false} OthersOfAppend(sent: seq<Sent>, more: seq<Sent>)
    requires forall m <- more :: !m.Answer?
    ensures Others(sent + more) == Others(sent) + more
  {
    if more == [] {
      assert sent + more == sent;
    } else {
      var front := more[..|more| - 1];
      assert (sent + more)[..|sent + more| - 1] == sent + front;
      OthersOfAppend(sent, front);
      assert front + [more[|more| - 1]] == more;
    }
  }

  lemma OthersOfAnswer(sent: seq<Sent>, answer: Sent)
    requires answer.Answer?
    ensures Others(sent + [answer]) == Others(sent)
  {
    assert (sent + [answer])[..|sent|] == sent;
  }

  lemma StartSpeaks(s: Session, m: Json, writeFails: bool)
    requires s.Starting? && Spoken(s)
    ensures Spoken(Start(s, m, writeFails))
  {
    if IsRequest(m) && !IsResponseTo(m, 1) {
      OthersOfAnswer(s.sent, AnswerTo(m));
    } else {
      StartSays(s, m, writeFails);
      Introduced(s.sent, true);
      Introduced(s.sent, false);
    }
  }

  lemma Introduced(sent: seq<Sent>, pull: bool)
    requires Others(sent) == Greeting()
    ensures Others(sent + Opening(pull)) == Introduction(pull)
  {
    OthersOfAppend(sent, Opening(pull));
    assert Greeting() + Opening(pull) == Introduction(pull);
  }

  lemma StartSays(s: Session, m: Json, writeFails: bool)
    requires s.Starting? && !(IsRequest(m) && !IsResponseTo(m, 1))
    ensures
      var s' := Start(s, m, writeFails);
      match s'
      case Starting(sent) => sent == s.sent
      case Collecting(pull, _, _, sent) => sent == s.sent + Opening(pull)
      case Done(outcome, sent) =>
        outcome.Err? && (sent == s.sent || sent == s.sent + Opening(true) || sent == s.sent + Opening(false))
  {
  }

  lemma CollectSpeaks(s: Session, m: Json, uri: string, at: nat, writeFails: bool)
    requires s.Collecting? && Spoken(s)
    ensures Spoken(Collect(s, m, uri, at, writeFails))
  {
    OthersOfAppend(s.sent, CLOSING);
    if IsRequest(m) && !IsPush(m) {
      OthersOfAnswer(s.sent, AnswerTo(m));
      RequestIsNotResponse(s, uri, Event(at, Ok(m), writeFails));
    } else {
      CollectSays(s, m, uri, at, writeFails);
    }
  }

  lemma CollectSays(s: Session, m: Json, uri: string, at: nat, writeFails: bool)
    requires s.Collecting? && !(IsRequest(m) && !IsPush(m))
    ensures
      var s' := Collect(s, m, uri, at, writeFails);
      if s'.Done? then s'.sent == if s'.outcome.Ok? then s.sent + CLOSING else s.sent
      else s'.Collecting? && s'.pull == s.pull && s'.sent == s.sent
  {
  }

  /** The session greets, introduces itself once, and says farewell exactly if it has a result. */
  lemma {:induction false} SpeaksInOrder(uri: string, events: seq<Event>)
    ensures Spoken(Run(uri, events))
  {
    if events == [] {
      assert OPENED.sent[..0] == [];
    } else {
      var before, last := Run(uri, events[..|events| - 1]), events[|events| - 1];
      SpeaksInOrder(uri, events[..|events| - 1]);
      if !before.Done? {
        if last.input.Err? {
          OthersOfAppend(before.sent, CLOSING);
        } else if before.Starting? {
          StartSpeaks(before, last.input.value, last.writeFails);
        } else {
          CollectSpeaks(before, last.input.value, uri, last.at, last.writeFails);
        }
      }
    }
  }

  // ----- when a session ends -----------------------------------------------------------------------

  predicate Pushed(m: Json) {
    Get(m, "method") == Some(Str("textDocument/publishDiagnostics"))
  }

  predicate Responds(m: Json, id: int) {
    Get(m, "id") == Some(Num(Int(id))) && Get(m, "method") == None
  }

  /** The server takes the introduction: its first response is no error, and the messages go out. */
  lemma StartingEnds(s: Session, uri: string, e: Event)
    requires s.Starting?
    ensures
      var s' := Handle(s, uri, e);
      match e.input
      case Err(failure) => s'.Done? && s'.outcome == Err(failure)
      case Ok(m) =>
        if Responds(m, 1) then
          if Get(m, "error").Some? then s'.Done? && s'.outcome == Err(ServerFailure)
          else if e.writeFails then s'.Done? && s'.outcome == Err(WriteFailure)
          else
            var provider := Pointer(m, ["result", "capabilities", "diagnosticProvider"]);
            && s'.Collecting? && s'.empty == None && s'.settle == None
            && (s'.pull <==> provider.Some? && provider.value.Obj?)
        else if Asks(s, e) && e.writeFails then s'.Done? && s'.outcome == Err(WriteFailure)
        else s'.Starting?
  {
  }

  /** The report is of a kind that starts the wait: a response, or a push by a server that is not asked. */
  predicate Settles(uri: string, events: seq<Event>, k: nat)
    requires k < |events|
  {
    && Reports(uri, events, k, [])
    && (Responds(events[k].input.value, 2) || !Run(uri, events[..k]).pull)
  }

  ghost function Settled(uri: string, events: seq<Event>): (places: set<int>)
    ensures forall k :: k in places <==> 0 <= k < |events| && Settles(uri, events, k)
  {
    set k | 0 <= k < |events| && Settles(uri, events, k)
  }

  /** The last of the places before `n`. */
  ghost predicate LastBefore(places: set<int>, n: int, k: int) {
    k in places && k < n && forall j <- places :: j < n ==> j <= k
  }

  /** Five seconds after the last such report before event `n`. */
  ghost predicate WaitsUntil(uri: string, events: seq<Event>, n: nat, deadline: nat)
    requires n <= |events|
  {
    exists k :: LastBefore(Settled(uri, events), n, k) && deadline == events[k].at + 5000
  }

  ghost predicate WaitIsOver(uri: string, events: seq<Event>, n: nat, at: nat)
    requires n <= |events|
  {
    exists deadline: nat :: WaitsUntil(uri, events, n, deadline) && deadline <= at
  }

  ghost predicate NoneBefore(places: set<int>, n: int) {
    forall k <- places :: k >= n
  }

  /** The session's two fields are that history and nothing else. */
  ghost predicate KeepsHistory(uri: string, events: seq<Event>, n: nat, s: Session)
    requires n <= |events|
  {
    s.Collecting? ==>
      && (s.empty.Some? <==> EmptyReportBefore(uri, events, n)) && (s.empty.Some? ==> s.empty.value == [])
      && (s.settle.None? ==> NoneBefore(Settled(uri, events), n))
      && (s.settle.Some? ==> WaitsUntil(uri, events, n, s.settle.value))
  }

  /** One event that leaves a session collecting. */
  lemma StaysCollecting(s: Session, uri: string, e: Event)
    requires s.Collecting? && Handle(s, uri, e).Collecting?
    ensures
      var s' := Handle(s, uri, e);
      && s'.pull == s.pull
      && (if Carried(e, uri).Some? then Carried(e, uri).value == [] && s'.empty == Some([]) else s'.empty == s.empty)
      && s'.settle ==
         if Carried(e, uri).Some? && (Responds(e.input.value, 2) || !s.pull) then Some(e.at + 5000) else s.settle
  {
  }

  lemma NoReportYet(uri: string, events: seq<Event>, n: nat)
    requires n < |events| && Run(uri, events[..n]).Starting?
    ensures forall j, items :: 0 <= j <= n ==> !Reports(uri, events, j, items)
  {
    forall j, items | 0 <= j <= n ensures !Reports(uri, events, j, items) {
      StartingBefore(uri, events, j, n);
    }
  }

  lemma {:induction false} StartingBefore(uri: string, events: seq<Event>, j: nat, n: nat)
    requires j <= n <= |events| && Run(uri, events[..n]).Starting?
    ensures Run(uri, events[..j]).Starting?
    decreases n - j
  {
    if j < n {
      RunNext(uri, events, n - 1);
      StartingBefore(uri, events, j, n - 1);
    }
  }

  lemma HistoryOfEmpty(uri: string, events: seq<Event>, n: nat)
    requires n < |events| && Run(uri, events[..n]).Collecting?
    ensures
      EmptyReportBefore(uri, events, n + 1) <==> EmptyReportBefore(uri, events, n) || Carried(events[n], uri) == Some([])
  {
    assert Carried(events[n], uri) == Some([]) <==> Reports(uri, events, n, []);
  }

  lemma OneMorePlace(places: set<int>, n: nat)
    ensures n in places ==> LastBefore(places, n + 1, n)
    ensures n !in places ==> forall k :: LastBefore(places, n, k) ==> LastBefore(places, n + 1, k)
    ensures n !in places && NoneBefore(places, n) ==> NoneBefore(places, n + 1)
  {
  }

  lemma HistoryStep(uri: string, events: seq<Event>, n: nat)
    requires n < |events| && Run(uri, events[..n]).Collecting? && Run(uri, events[..n + 1]).Collecting?
    requires KeepsHistory(uri, events, n, Run(uri, events[..n]))
    ensures KeepsHistory(uri, events, n + 1, Run(uri, events[..n + 1]))
  {
    var s := Run(uri, events[..n]);
    RunNext(uri, events, n);
    StaysCollecting(s, uri, events[n]);
    HistoryOfEmpty(uri, events, n);
    assert Settles(uri, events, n) <==>
      Carried(events[n], uri).Some? && (Responds(events[n].input.value, 2) || !s.pull);
    OneMorePlace(Settled(uri, events), n);
  }

  lemma {:induction false} History(uri: string, events: seq<Event>, n: nat)
    requires n <= |events| && Run(uri, events[..n]).Collecting?
    ensures KeepsHistory(uri, events, n, Run(uri, events[..n]))
  {
    if n > 0 {
      RunNext(uri, events, n - 1);
      if Run(uri, events[..n - 1]).Starting? {
        StartingEnds(Run(uri, events[..n - 1]), uri, events[n - 1]);
        NoReportYet(uri, events, n - 1);
      } else {
        History(uri, events, n - 1);
        HistoryStep(uri, events, n - 1);
      }
    }
  }

  /** Why a collecting session fails on a message that is no request. */
  predicate Unusable(m: Json, uri: string) {
    || (Pushed(m) && Get(m, "params").None?)
    || (Pushed(m) && Pointer(m, ["params", "uri"]) == Some(Str(uri))
         && !IsArray(Pointer(m, ["params", "diagnostics"])))
    || (Responds(m, 2) && Get(m, "error").None? && !IsArray(Pointer(m, ["result", "items"])))
  }

  predicate IsArray(value: Option<Json>) {
    value.Some? && value.value.Arr?
  }

  /** An error response other than that the method is not known. */
  ghost predicate Refuses(m: Json) {
    && Responds(m, 2) && Get(m, "error").Some?
    && var message := Pointer(m, ["error", "message"]);
       message.Some? && message.value.Str? && message.value.s != "" && !Contains(message.value.s, "Method not found")
  }

  predicate Unknown(m: Json) {
    && Responds(m, 2) && Get(m, "error").Some?
    && var message := Pointer(m, ["error", "message"]);
       !(message.Some? && message.value.Str? && message.value.s != "" && !Contains(message.value.s, "Method not found"))
  }

  function First48(items: seq<Json>): seq<Json> {
    if |items| <= 48 then items else items[..48]
  }

  /**
   How an event ends a session that collects, or that it does not: `reported` if there was an empty report before,
   `waited` if the wait for another one is over.
  */
  ghost predicate EndsAs(s: Session, s': Session, uri: string, e: Event, reported: bool, waited: bool)
    requires s.Collecting?
  {
    match e.input
    case Err(failure) => s'.Done? && s'.outcome == if waited then Ok([]) else Err(failure)
    case Ok(m) =>
      if Unusable(m, uri) then s'.Done? && s'.outcome == Err(BadReport)
      else if Refuses(m) then s'.Done? && s'.outcome == Err(ServerFailure)
      else if Asks(s, e) && e.writeFails then s'.Done? && s'.outcome == Err(WriteFailure)
      else if Carried(e, uri).Some? && Carried(e, uri).value != [] then
        s'.Done? && s'.outcome == Ok(First48(Carried(e, uri).value))
      else if Unknown(m) && reported then s'.Done? && s'.outcome == Ok([])
      else s'.Collecting?
  }

  lemma CollectingEnds(s: Session, uri: string, e: Event)
    requires s.Collecting? && (s.empty.Some? ==> s.empty.value == [])
    ensures
      EndsAs(s, Handle(s, uri, e), uri, e, s.empty.Some?,
             s.empty.Some? && s.settle.Some? && s.settle.value <= e.at)
  {
  }

  /**
   Over every event list: how the next event ends a session that collects reports, or that it does not. The wait for
   more after an empty report is over five seconds after the last one that started it.
  */
  lemma CollectingEndsIff(uri: string, events: seq<Event>, n: nat)
    requires n < |events| && Run(uri, events[..n]).Collecting?
    ensures
      EndsAs(Run(uri, events[..n]), Run(uri, events[..n + 1]), uri, events[n],
             EmptyReportBefore(uri, events, n), WaitIsOver(uri, events, n, events[n].at))
  {
    var s, e := Run(uri, events[..n]), events[n];
    RunNext(uri, events, n);
    History(uri, events, n);
    CollectingEnds(s, uri, e);
    OneDeadline(uri, events, n);
    assert s.settle.Some? ==> s.empty.Some? by {
      if s.settle.Some? {
        var k :| LastBefore(Settled(uri, events), n, k);
        assert Reports(uri, events, k, []);
      }
    }
  }

  /** There is at most one such deadline, and without such a report there is none. */
  lemma OneDeadline(uri: string, events: seq<Event>, n: nat)
    requires n <= |events|
    ensures forall a: nat, b: nat :: WaitsUntil(uri, events, n, a) && WaitsUntil(uri, events, n, b) ==> a == b
    ensures NoneBefore(Settled(uri, events), n) ==> forall a: nat :: !WaitsUntil(uri, events, n, a)
  {
  }
}
