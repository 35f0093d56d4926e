/** The guest runtime state machine (`runtime_service/mod.rs`): identity,
    sequencing, one movable executor, cancellation and bounded replay logs. */
module Service {
  import opened Common
  import opened RequestLog

  /** The guest executor, by identity. */
  datatype Executor = Executor(id: nat)

  /** An executor event; `exitCode` is the field its JSON payload carries, if any. */
  datatype GuestEvent = GuestEvent(kind: string, payload: Bytes, exitCode: Option<int>)

  type TurnResult = Result<seq<GuestEvent>, string>

  datatype Message =
    | Error(requestId: string, message: string)
    | Event(sessionId: string, sequence: nat, event: GuestEvent)
    | HelloAck
    | Capabilities
    | ShutdownAck
    | FileContent(requestId: string, path: string, content: Bytes)
    | WriteAck(requestId: string, path: string)

  datatype Control =
    | Hello(version: nat)
    | AskCapabilities
    | StartTurn(sessionId: string, requestId: string)
    | Cancel(sessionId: string, requestId: string)
    | ReadWorkspaceFile(requestId: string, path: string)
    | ReadHostFile(requestId: string)
    | WriteWorkspaceFile(requestId: string, path: string)
    | Shutdown

  /** What the executor would answer if asked, one field per executor call. */
  datatype Replies = Replies(
    turn: TurnResult, cancel: Option<string>, shutdown: Option<string>,
    read: Result<Bytes, string>, write: Option<string>)

  predicate TerminalKind(kind: string) {
    kind == "turn.completed" || kind == "turn.failed" || kind == "turn.cancelled"
  }

  predicate CompletesTurn(m: Message) {
    m.Event? && TerminalKind(m.event.kind)
  }

  predicate Finished(responses: seq<Message>) {
    exists i :: 0 <= i < |responses| && CompletesTurn(responses[i])
  }

  predicate HasError(responses: seq<Message>) {
    exists i :: 0 <= i < |responses| && responses[i].Error?
  }

  /** The executor's contract: a turn ends in an error or in a terminal event. */
  predicate Answers(result: TurnResult) {
    result.Ok? ==>
      exists i :: 0 <= i < |result.value| && result.value[i].kind in {"turn.completed", "turn.failed", "turn.cancelled"}
  }

  const CANCELLED := GuestEvent("turn.cancelled", [], None)

  function Next(sequence: nat): nat {
    SaturatingAdd(sequence, 1)
  }

  /** Events with service-assigned sequence numbers. */
  function Sequenced(sessionId: string, events: seq<GuestEvent>, sequence: nat): (r: seq<Message>)
    ensures |r| == |events|
    ensures forall i :: 0 <= i < |r| ==> r[i] == Event(sessionId, SaturatingAdd(sequence, i + 1), events[i])
    decreases |events|
  {
    if events == [] then []
    else [Event(sessionId, Next(sequence), events[0])] + Sequenced(sessionId, events[1..], Next(sequence))
  }

  /** The responses that end a turn run on a worker. */
  function TurnResponses(key: Key, result: TurnResult, cancelled: bool, sequence: nat): seq<Message> {
    match result
    case Ok(events) => Sequenced(key.0, events, sequence)
    case Err(message) =>
      if message == "request cancelled" || cancelled then [Event(key.0, Next(sequence), CANCELLED)]
      else [Error(key.1, message)]
  }

  /** How many sequence numbers those responses use. */
  function Numbered(result: TurnResult, cancelled: bool): nat {
    match result
    case Ok(events) => |events|
    case Err(message) => if message == "request cancelled" || cancelled then 1 else 0
  }

  /** A turn that keeps the executor's contract always ends. */
  lemma AnsweredTurnEnds(key: Key, result: TurnResult, cancelled: bool, sequence: nat)
    requires Answers(result)
    ensures var r := TurnResponses(key, result, cancelled, sequence); Finished(r) || HasError(r)
  {
    var r := TurnResponses(key, result, cancelled, sequence);
    if result.Ok? {
      var i :| 0 <= i < |result.value| && result.value[i].kind in {"turn.completed", "turn.failed", "turn.cancelled"};
      assert CompletesTurn(r[i]);
    } else {
      assert CompletesTurn(r[0]) || r[0].Error?;
    }
  }

  /** Which turns succeed: those that return events, and those that end as cancelled though
      no cancel was recorded. Every numbered event uses up one sequence number. */
  lemma TurnSucceeds(key: Key, result: TurnResult, cancelled: bool, sequence: nat)
    requires Answers(result)
    ensures var r := TurnResponses(key, result, cancelled, sequence);
            && (!HasError(r) <==> result.Ok? || cancelled || result.error == "request cancelled")
            && (!HasError(r) ==> Finished(r))
            && (result.Err? && !HasError(r) ==> r == [Event(key.0, Next(sequence), GuestEvent("turn.cancelled", [], None))])
            && (HasError(r) ==> result.Err? && r == [Error(key.1, result.error)])
            && Numbered(result, cancelled) == if HasError(r) then 0 else |r|
  {
    var r := TurnResponses(key, result, cancelled, sequence);
    AnsweredTurnEnds(key, result, cancelled, sequence);
    if result.Ok? {
      assert forall i :: 0 <= i < |r| ==> r[i].Event?;
    } else {
      assert r[0].Error? || CompletesTurn(r[0]);
    }
  }

  /** The responses of a serial StartTurn. */
  function InlineResponses(key: Key, result: TurnResult, sequence: nat): seq<Message> {
    match result
    case Ok(events) => Sequenced(key.0, events, sequence)
    case Err(message) => [Error(key.1, message)]
  }

  lemma InlineSucceeds(key: Key, result: TurnResult, sequence: nat)
    requires Answers(result)
    ensures var r := InlineResponses(key, result, sequence);
            && (!HasError(r) <==> result.Ok?) && (!HasError(r) ==> Finished(r))
            && (result.Err? ==> r == [Error(key.1, result.error)])
  {
    var r := InlineResponses(key, result, sequence);
    InlineTurnEnds(key, result, sequence);
    if result.Ok? {
      assert forall i :: 0 <= i < |r| ==> r[i].Event?;
    } else {
      assert r[0].Error?;
    }
  }

  lemma InlineTurnEnds(key: Key, result: TurnResult, sequence: nat)
    requires Answers(result)
    ensures var r := InlineResponses(key, result, sequence); Finished(r) || HasError(r)
  {
    var r := InlineResponses(key, result, sequence);
    if result.Ok? {
      var i :| 0 <= i < |result.value| && result.value[i].kind in {"turn.completed", "turn.failed", "turn.cancelled"};
      assert CompletesTurn(r[i]);
    } else {
      assert r[0].Error?;
    }
  }

  predicate ValidIdentity(key: Key) {
    !IsBlank(key.0) && !IsBlank(key.1)
  }

  const INVALID_IDENTITY := "session_id and request_id must be non-empty"

  /** A turn handed to the executor, with the lengths of both histories at that moment. */
  datatype Start = Start(key: Key, completed: nat, cancelled: nat)

  /** No start was for a key either log remembered at the time. */
  ghost predicate StartsFresh(starts: seq<Start>, completed: seq<Key>, cancelled: seq<Key>) {
    forall st :: st in starts ==>
      && st.completed <= |completed| && st.key !in Remembered(completed[..st.completed])
      && st.cancelled <= |cancelled| && st.key !in Remembered(cancelled[..st.cancelled])
  }

  lemma StartsFreshGrows(starts: seq<Start>, completed: seq<Key>, cancelled: seq<Key>, more: seq<Key>, more': seq<Key>)
    requires StartsFresh(starts, completed, cancelled)
    ensures StartsFresh(starts, completed + more, cancelled + more')
  {
    forall st | st in starts
      ensures (completed + more)[..st.completed] == completed[..st.completed]
      ensures (cancelled + more')[..st.cancelled] == cancelled[..st.cancelled]
    {
    }
  }

  /** Over a whole run: a request that completed (or was cancelled) is executed
      again only after more than 512 recordings in the same log. */
  lemma ReexecutionIsLate(starts: seq<Start>, completed: seq<Key>, cancelled: seq<Key>, st: Start, i: nat)
    requires StartsFresh(starts, completed, cancelled) && st in starts
    ensures i < st.completed && completed[i] == st.key ==> st.completed - i > 512
    ensures i < st.cancelled && cancelled[i] == st.key ==> st.cancelled - i > 512
  {
    if i < st.completed && completed[i] == st.key {
      ForgottenOnlyAfterMany(completed, i, st.completed);
    }
    if i < st.cancelled && cancelled[i] == st.key {
      ForgottenOnlyAfterMany(cancelled, i, st.cancelled);
    }
  }

  /** The executor is in exactly one place (the service, the turn in flight, or lost
      with a dead worker), and at most its own turn is active. */
  ghost predicate Placed(executor: Option<Executor>, home: Executor, turn: Option<Key>, lost: bool, active: map<string, string>) {
    && (turn.None? ==> executor == Some(home) && !lost)
    && (turn.Some? ==> executor.None?)
    && (forall s :: s in active ==> turn == Some((s, active[s])))
  }

  ghost predicate LogsExact(
    cleared: bool, shutdown: bool, executor: Option<Executor>,
    completed: Log<Message>, completedLog: seq<Key>, cancelled: Log<Message>, cancelledLog: seq<Key>)
  {
    if cleared then shutdown && executor.Some? && completed == Empty() && cancelled == Empty()
    else Reflects(completed, completedLog) && Reflects(cancelled, cancelledLog)
  }

  /** The running turn is in neither log, except as its own cancellation. */
  ghost predicate TurnUnrecorded(turn: Option<Key>, completedLog: seq<Key>, cancelledLog: seq<Key>, cancelled: Log<Message>) {
    turn.Some? ==>
      && ValidIdentity(turn.value)
      && turn.value !in Remembered(completedLog)
      && (turn.value in Remembered(cancelledLog) ==> turn.value in cancelled.results)
  }

  /** Every result on file is what the turn's caller was told when it ended; a cancelled turn
      that has not ended yet is on file without responses. */
  ghost predicate OnFile(
    completed: map<Key, seq<Message>>, cancelled: map<Key, seq<Message>>, delivered: map<Key, seq<Message>>)
  {
    && (forall k :: k in completed ==> k in delivered && completed[k] == delivered[k])
    && (forall k :: k in cancelled ==> cancelled[k] == [] || (k in delivered && cancelled[k] == delivered[k]))
  }

  /** The running turn has a cancellation flag, raised exactly when the turn is on file as
      cancelled or the runtime has shut down. */
  ghost predicate Flagged(
    executor: Option<Executor>, active: map<string, string>, flag: Option<bool>, cancelled: map<Key, seq<Message>>,
    shutdown: bool)
  {
    executor.None? ==>
      forall s :: s in active ==> flag == Some(shutdown || (s, active[s]) in cancelled)
  }

  /** How a message is answered while a turn has the executor. */
  ghost predicate BusyAnswer(
    request: Control, responses: seq<Message>, active: map<string, string>, cancelled: map<Key, seq<Message>>)
  {
    match request
    case Hello(version) => if version == 1 then responses == [HelloAck] else |responses| == 1 && responses[0].Error?
    case AskCapabilities => responses == [Capabilities]
    case Cancel(s, r) =>
      (responses == [] <==> ValidIdentity((s, r)) && ((s, r) in cancelled || (s in active && active[s] == r)))
      && (responses != [] ==> |responses| == 1 && responses[0].Error?)
    case Shutdown => responses == [ShutdownAck]
    case _ => |responses| == 1 && responses[0].Error?
  }

  /** How a message is answered with the executor at home after the handshake. */
  ghost predicate ReadyAnswer(
    request: Control, replies: Replies, responses: seq<Message>, sequence: nat,
    completedLog: seq<Key>, cancelledLog: seq<Key>, cancelled: map<Key, seq<Message>>)
  {
    match request
    case Hello(version) => if version == 1 then responses == [HelloAck] else |responses| == 1 && responses[0].Error?
    case AskCapabilities => responses == [Capabilities]
    case StartTurn(s, r) =>
      ValidIdentity((s, r)) && (s, r) !in Remembered(completedLog) && (s, r) !in Remembered(cancelledLog) ==>
        responses == InlineResponses((s, r), replies.turn, sequence)
    case Cancel(s, r) =>
      if ValidIdentity((s, r)) && (s, r) in cancelled then responses == cancelled[(s, r)]
      else |responses| == 1 && responses[0].Error?
    case ReadWorkspaceFile(r, path) =>
      responses == [if replies.read.Ok? then FileContent(r, path, replies.read.value) else Error(r, replies.read.error)]
    case ReadHostFile(r) => |responses| == 1 && responses[0].Error? && responses[0].requestId == r
    case WriteWorkspaceFile(r, path) =>
      responses == [if replies.write.None? then WriteAck(r, path) else Error(r, replies.write.value)]
    case Shutdown => responses == [if replies.shutdown.None? then ShutdownAck else Error("", replies.shutdown.value)]
  }

  lemma HelloIsReadyAnswer(
    request: Control, replies: Replies, responses: seq<Message>, sequence: nat,
    completedLog: seq<Key>, cancelledLog: seq<Key>, cancelled: map<Key, seq<Message>>)
    requires request.Hello?
    requires if request.version == 1 then responses == [HelloAck] else |responses| == 1 && responses[0].Error?
    ensures ReadyAnswer(request, replies, responses, sequence, completedLog, cancelledLog, cancelled)
  {
    hide Remembered, ValidIdentity, InlineResponses;
  }

  /** Without its turn's session nothing is active. */
  lemma OnlyActive(executor: Option<Executor>, home: Executor, turn: Option<Key>, lost: bool, active: map<string, string>)
    requires Placed(executor, home, turn, lost, active) && turn.Some?
    ensures active - {turn.value.0} == map[]
  {
  }

  lemma HomePlaced(home: Executor, flag: Option<bool>, cancelled: map<Key, seq<Message>>, shutdown: bool)
    ensures Placed(Some(home), home, None, false, map[]) && Flagged(Some(home), map[], flag, cancelled, shutdown)
  {
  }

  /** One error for each active turn, naming its request. */
  method AbandonedErrors(active: map<string, string>) returns (responses: seq<Message>)
    ensures |responses| == |active|
    ensures forall i :: 0 <= i < |responses| ==>
              responses[i].Error? && exists s :: s in active && responses[i].requestId == active[s]
  {
    responses := [];
    var left := active.Keys;
    while left != {}
      invariant left <= active.Keys && |responses| + |left| == |active|
      invariant forall i :: 0 <= i < |responses| ==>
                  responses[i].Error? && exists s :: s in active && responses[i].requestId == active[s]
      decreases left
    {
      var sessionId :| sessionId in left;
      responses := responses
        + [Error(active[sessionId], "turn worker died without a result (session " + sessionId + ")")];
      left := left - {sessionId};
    }
  }

  class RuntimeService {
    var sequence: nat
    var protocolReady: bool
    var completed: Log<Message>
    var cancelled: Log<Message>
    var activeSessions: map<string, string>
    var shutdown: bool
    var executor: Option<Executor>
    /** The shared cancellation flag of the running turn. */
    var turnCancel: Option<bool>

    const home: Executor
    /** The turn that holds the executor, and whether its worker died with it. */
    ghost var turn: Option<Key>
    ghost var lost: bool
    /** Every key ever recorded, and every turn ever handed to the executor. */
    ghost var completedLog: seq<Key>
    ghost var cancelledLog: seq<Key>
    ghost var starts: seq<Start>
    /** A shutdown with the executor at home emptied the logs. */
    ghost var cleared: bool
    /** What the end of each turn was answered with, the last time it ran. */
    ghost var delivered: map<Key, seq<Message>>

    ghost predicate AtHome() reads this { executor == Some(home) && turn.None? && !lost }
    ghost predicate InFlight() reads this { executor.None? && turn.Some? && !lost }
    ghost predicate Lost() reads this { executor.None? && turn.Some? && lost }

    ghost predicate Valid()
      reads this
    {
      && Placed(executor, home, turn, lost, activeSessions)
      && LogsExact(cleared, shutdown, executor, completed, completedLog, cancelled, cancelledLog)
      && TurnUnrecorded(turn, completedLog, cancelledLog, cancelled)
      && StartsFresh(starts, completedLog, cancelledLog)
      && OnFile(completed.results, cancelled.results, delivered)
      && Flagged(executor, activeSessions, turnCancel, cancelled.results, shutdown)
    }

    /** Neither log remembers the key. */
    ghost predicate Unknown(key: Key)
      reads this
    {
      key !in Remembered(completedLog) && key !in Remembered(cancelledLog)
    }

    constructor (executor: Executor)
      ensures Valid() && AtHome() && home == executor && !shutdown && !protocolReady
      ensures completedLog == [] && cancelledLog == [] && starts == [] && activeSessions == map[]
    {
      sequence, protocolReady := 0, false;
      completed, cancelled := Empty(), Empty();
      activeSessions, shutdown := map[], false;
      this.executor, turnCancel := Some(executor), None;
      home := executor;
      turn, lost := None, false;
      completedLog, cancelledLog, starts, cleared, delivered := [], [], [], false, map[];
    }

    method RecordCompleted(key: Key, responses: seq<Message>)
      requires Reflects(completed, completedLog) && key !in Remembered(completedLog)
      requires StartsFresh(starts, completedLog, cancelledLog)
      modifies this`completed, this`completedLog
      ensures Reflects(completed, completedLog) && completedLog == old(completedLog) + [key]
      ensures StartsFresh(starts, completedLog, cancelledLog)
      ensures Stored(old(completed.results), completed.results, key, responses)
    {
      RecordNew(completed, completedLog, key, responses);
      RecordStores(completed, key, responses);
      StartsFreshGrows(starts, completedLog, cancelledLog, [key], []);
      assert cancelledLog + [] == cancelledLog;
      completed := RecordInto(completed, key, responses);
      completedLog := completedLog + [key];
    }

    method RecordCancelled(key: Key, responses: seq<Message>)
      requires Reflects(cancelled, cancelledLog)
      requires key in Remembered(cancelledLog) ==> key in cancelled.results
      requires StartsFresh(starts, completedLog, cancelledLog)
      modifies this`cancelled, this`cancelledLog
      ensures Reflects(cancelled, cancelledLog) && Stored(old(cancelled.results), cancelled.results, key, responses)
      ensures cancelledLog == if key in old(cancelled.results) then old(cancelledLog) else old(cancelledLog) + [key]
      ensures StartsFresh(starts, completedLog, cancelledLog)
    {
      if key in cancelled.results {
        RecordAgain(cancelled, cancelledLog, key, responses);
      } else {
        RecordNew(cancelled, cancelledLog, key, responses);
        StartsFreshGrows(starts, completedLog, cancelledLog, [], [key]);
        assert completedLog + [] == completedLog;
        cancelledLog := cancelledLog + [key];
      }
      RecordStores(cancelled, key, responses);
      cancelled := RecordInto(cancelled, key, responses);
    }

    /** Claim a turn for a worker: the executor leaves the service exactly when
        nothing stands against it, and then the request is in neither log. */
    method SpawnTurn(sessionId: string, requestId: string) returns (r: Result<Executor, Message>)
      requires Valid()
      modifies this`executor, this`turnCancel, this`activeSessions, this`turn, this`starts
      ensures Valid()
      ensures r.Ok? <==> !old(shutdown) && ValidIdentity((sessionId, requestId)) && old(Unknown((sessionId, requestId)))
                         && sessionId !in old(activeSessions) && protocolReady && old(AtHome())
      ensures r.Ok? ==>
                && r.value == home && InFlight() && turn == Some((sessionId, requestId))
                && (sessionId, requestId) !in cancelled.results && turnCancel == Some(false)
                && activeSessions == map[sessionId := requestId]
                && starts == old(starts) + [Start((sessionId, requestId), |completedLog|, |cancelledLog|)]
      ensures r.Err? ==>
                && r.error.Error? && r.error.requestId == requestId
                && executor == old(executor) && turn == old(turn) && activeSessions == old(activeSessions)
                && starts == old(starts)
    {
      hide Reflects, Remembered, StartsFresh, ValidIdentity, OnFile;
      var key := (sessionId, requestId);
      var refusal := Refusal(sessionId, requestId);
      if refusal.Some? {
        return Err(refusal.value);
      }
      r := Ok(executor.value);
      executor := None;
      turnCancel := Some(false);
      activeSessions := activeSessions[sessionId := requestId];
      turn := Some(key);
      RecordStart(key);
    }

    /** What stands against a claim, if anything. */
    method Refusal(sessionId: string, requestId: string) returns (e: Option<Message>)
      requires Valid()
      ensures e.None? <==> !shutdown && ValidIdentity((sessionId, requestId)) && Unknown((sessionId, requestId))
                           && sessionId !in activeSessions && protocolReady && AtHome()
      ensures e.Some? ==> e.value.Error? && e.value.requestId == requestId
      ensures e.None? ==> (sessionId, requestId) !in cancelled.results
    {
      hide Reflects, Remembered, StartsFresh, IsBlank, OnFile, Flagged;
      var key := (sessionId, requestId);
      if shutdown {
        return Some(Error(requestId, "runtime has shut down"));
      }
      RefusedIffRemembered(completed, completedLog, key);
      RefusedIffRemembered(cancelled, cancelledLog, key);
      if IsBlank(sessionId) || IsBlank(requestId) {
        return Some(Error(requestId, INVALID_IDENTITY));
      }
      if key in completed.results {
        return Some(Error(requestId, "request already completed"));
      }
      if key in completed.evicted {
        return Some(Error(requestId, "request completed earlier; result no longer available"));
      }
      if key in cancelled.results {
        return Some(Error(requestId, "request was cancelled"));
      }
      if key in cancelled.evicted {
        return Some(Error(requestId, "request was cancelled earlier; terminal no longer available"));
      }
      if sessionId in activeSessions {
        return Some(Error(requestId, "session already has an active request: " + activeSessions[sessionId]));
      }
      if !protocolReady {
        return Some(Error(requestId, "protocol handshake required before control messages"));
      }
      if executor.None? {
        return Some(Error(requestId, "a previous turn is still finishing"));
      }
      return None;
    }

    /** Cancel the running turn: acknowledged (no message) exactly when the request
        is the active one or its cancellation is still on record. */
    method CancelActive(sessionId: string, requestId: string) returns (responses: seq<Message>)
      requires Valid()
      modifies this`cancelled, this`cancelledLog, this`turnCancel
      ensures Valid()
      ensures responses == [] <==>
              ValidIdentity((sessionId, requestId))
              && ((sessionId, requestId) in old(cancelled.results)
                  || (sessionId in old(activeSessions) && old(activeSessions)[sessionId] == requestId))
      ensures responses != [] ==> |responses| == 1 && responses[0].Error? && responses[0].requestId == requestId
      ensures responses == [] ==> (sessionId, requestId) in cancelled.results
      ensures responses == [] && (sessionId, requestId) !in old(cancelled.results) ==>
                cancelledLog == old(cancelledLog) + [(sessionId, requestId)] && (turnCancel.Some? ==> turnCancel == Some(true))
                && cancelled.results[(sessionId, requestId)] == []
      ensures responses == [] && executor.None? && sessionId in activeSessions && activeSessions[sessionId] == requestId ==>
                turnCancel == Some(true)
      ensures responses != [] || (sessionId, requestId) in old(cancelled.results) ==>
                cancelledLog == old(cancelledLog) && cancelled == old(cancelled) && turnCancel == old(turnCancel)
    {
      hide Reflects, Remembered, Record, StartsFresh, IsBlank;
      var key := (sessionId, requestId);
      if IsBlank(sessionId) || IsBlank(requestId) {
        return [Error(requestId, INVALID_IDENTITY)];
      }
      if key in cancelled.results {
        return [];
      }
      if sessionId !in activeSessions {
        return [Error(requestId, "request is not active")];
      }
      if activeSessions[sessionId] != requestId {
        return [Error(requestId, "session has a different active request: " + activeSessions[sessionId])];
      }
      if turnCancel.Some? {
        turnCancel := Some(true);
      }
      RecordCancelled(key, []);
      return [];
    }

    /** The turn's worker panicked: the executor is gone with it. */
    ghost method WorkerDied()
      requires Valid() && InFlight()
      modifies this`lost
      ensures Valid() && Lost()
    {
      lost := true;
    }

    /** Forget the active turn of a worker that will not deliver, with one error for it. */
    method AbandonActiveTurn() returns (responses: seq<Message>)
      requires Valid()
      modifies this`activeSessions, this`turnCancel
      ensures Valid() && activeSessions == map[]
      ensures |responses| == |old(activeSessions)| && forall i :: 0 <= i < |responses| ==> responses[i].Error?
      ensures forall i :: 0 <= i < |responses| ==> exists s :: s in old(activeSessions) && responses[i].requestId == old(activeSessions)[s]
    {
      hide StartsFresh, OnFile, LogsExact, TurnUnrecorded;
      responses := AbandonedErrors(activeSessions);
      activeSessions := map[];
      turnCancel := None;
    }

    /** A worker delivers its turn: the executor comes home and the turn is recorded once. */
    method CompleteTurn(sessionId: string, requestId: string, result: TurnResult, executor: Executor)
      returns (responses: seq<Message>)
      requires Valid() && InFlight() && turn == Some((sessionId, requestId)) && executor == home
      requires Answers(result)
      modifies this`executor, this`turnCancel, this`activeSessions, this`turn, this`sequence,
               this`completed, this`completedLog, this`cancelled, this`cancelledLog, this`delivered
      ensures Valid() && AtHome() && activeSessions == map[]
      ensures var key := (sessionId, requestId);
              var wasCancelled := key in old(cancelled.results);
              && responses == TurnResponses(key, result, wasCancelled, old(sequence))
              && delivered == old(delivered)[key := responses]
              && (wasCancelled ==> Stored(old(cancelled.results), cancelled.results, key, responses))
              && (if !wasCancelled && (result.Ok? || result.error == "request cancelled")
                  then completedLog == old(completedLog) + [key] && Stored(old(completed.results), completed.results, key, responses)
                  else completedLog == old(completedLog) && completed == old(completed))
              && (!wasCancelled ==> cancelled == old(cancelled))
      ensures cancelledLog == old(cancelledLog)
      ensures sequence == SaturatingAdd(old(sequence), if HasError(responses) then 0 else |responses|)
    {
      hide TurnResponses, Finished, HasError, Answers, ValidIdentity, Reflects, Remembered, StartsFresh, SaturatingAdd, Numbered,
           OnFile, Stored, Placed, Flagged;
      var key := (sessionId, requestId);
      OnlyActive(this.executor, home, turn, lost, activeSessions);
      this.executor := Some(executor);
      turnCancel := None;
      turn := None;
      var wasCancelled := key in cancelled.results;
      responses := TurnResponses(key, result, wasCancelled, sequence);
      AnsweredTurnEnds(key, result, wasCancelled, sequence);
      TurnSucceeds(key, result, wasCancelled, sequence);
      sequence := SaturatingAdd(sequence, Numbered(result, wasCancelled));
      var finished, failed := Finished(responses), HasError(responses);
      if finished || failed {
        activeSessions := activeSessions - {sessionId};
      }
      RecordTurn(key, responses, wasCancelled, !failed && finished);
      HomePlaced(home, turnCancel, cancelled.results, shutdown);
    }

    method RecordTurn(key: Key, responses: seq<Message>, wasCancelled: bool, success: bool)
      requires Reflects(completed, completedLog) && Reflects(cancelled, cancelledLog)
      requires wasCancelled == (key in cancelled.results)
      requires key !in Remembered(completedLog) && (key in Remembered(cancelledLog) ==> key in cancelled.results)
      requires StartsFresh(starts, completedLog, cancelledLog) && OnFile(completed.results, cancelled.results, delivered)
      modifies this`completed, this`completedLog, this`cancelled, this`cancelledLog, this`delivered
      ensures Reflects(completed, completedLog) && Reflects(cancelled, cancelledLog)
      ensures StartsFresh(starts, completedLog, cancelledLog) && OnFile(completed.results, cancelled.results, delivered)
      ensures cancelledLog == old(cancelledLog) && delivered == old(delivered)[key := responses]
      ensures wasCancelled ==> Stored(old(cancelled.results), cancelled.results, key, responses)
      ensures !wasCancelled ==> cancelled == old(cancelled)
      ensures if !wasCancelled && success
              then completedLog == old(completedLog) + [key] && Stored(old(completed.results), completed.results, key, responses)
              else completedLog == old(completedLog) && completed == old(completed)
    {
      hide Reflects, Remembered, StartsFresh;
      RefusedIffRemembered(completed, completedLog, key);
      delivered := delivered[key := responses];
      if wasCancelled {
        RecordCancelled(key, responses);
      } else if success {
        RecordCompleted(key, responses);
      }
    }

    /** `executor_mut`: its `expect` cannot fail, since every caller has the executor at home. */
    method ExecutorMut() returns (e: Executor)
      requires executor.Some?
      ensures Some(e) == executor
    {
      e := executor.value;
    }

    /** A repeated StartTurn gets its recorded answer or an explicit refusal; `None`
        exactly when the turn may be claimed afresh. */
    method ReplayCachedTurn(sessionId: string, requestId: string) returns (r: Option<seq<Message>>)
      requires Valid()
      modifies this`sequence
      ensures Valid()
      ensures r.None? <==> !shutdown && ValidIdentity((sessionId, requestId)) && Unknown((sessionId, requestId))
      ensures r.None? ==> sequence == old(sequence)
      ensures r.None? || sequence == old(sequence) || sequence == Next(old(sequence))
      ensures !shutdown && ValidIdentity((sessionId, requestId)) ==>
                var key := (sessionId, requestId);
                && (key in completed.results ==> key in delivered && r == Some(delivered[key]))
                && (key !in completed.results && (key in completed.evicted || key in cancelled.evicted) ==>
                      r.Some? && |r.value| == 1 && r.value[0].Error? && r.value[0].requestId == requestId)
                && (key !in completed.results && key !in completed.evicted && key !in cancelled.evicted && key in cancelled.results ==>
                      if cancelled.results[key] == [] then r == Some([Event(sessionId, Next(old(sequence)), GuestEvent("turn.cancelled", [], None))])
                      else key in delivered && r == Some(delivered[key]))
    {
      hide StartsFresh, IsBlank;
      var key := (sessionId, requestId);
      if shutdown {
        return Some([Error(requestId, "runtime has shut down")]);
      }
      if IsBlank(sessionId) || IsBlank(requestId) {
        return Some([Error(requestId, INVALID_IDENTITY)]);
      }
      RefusedIffRemembered(completed, completedLog, key);
      RefusedIffRemembered(cancelled, cancelledLog, key);
      hide Reflects, Remembered;
      if key in completed.results {
        return Some(completed.results[key]);
      }
      if key in completed.evicted {
        return Some([Error(requestId, "request completed earlier; result no longer available")]);
      }
      if key in cancelled.evicted {
        return Some([Error(requestId, "request was cancelled earlier; terminal no longer available")]);
      }
      if key in cancelled.results {
        var previous := cancelled.results[key];
        if previous == [] {
          sequence := Next(sequence);
          return Some([Event(sessionId, sequence, CANCELLED)]);
        }
        return Some(previous);
      }
      return None;
    }

    /** A serial StartTurn runs in place, unless the request was answered before. */
    method HandleStart(sessionId: string, requestId: string, result: TurnResult) returns (responses: seq<Message>)
      requires Valid() && AtHome() && !shutdown && protocolReady && Answers(result)
      modifies this`sequence, this`activeSessions, this`starts, this`completed, this`completedLog, this`cancelled,
               this`cancelledLog, this`delivered
      ensures cancelled == old(cancelled) && cancelledLog == old(cancelledLog)
      ensures Valid() && AtHome()
      ensures var key := (sessionId, requestId);
              if ValidIdentity(key) && old(Unknown(key)) then
                && starts == old(starts) + [Start(key, |old(completedLog)|, |cancelledLog|)]
                && responses == InlineResponses(key, result, old(sequence))
                && delivered == old(delivered)[key := responses]
                && sequence == SaturatingAdd(old(sequence), if result.Ok? then |result.value| else 0)
                && (if result.Ok?
                    then completedLog == old(completedLog) + [key] && Stored(old(completed.results), completed.results, key, responses)
                    else completedLog == old(completedLog) && responses == [Error(requestId, result.error)])
              else starts == old(starts) && completedLog == old(completedLog) && delivered == old(delivered)
    {
      hide StartsFresh, ValidIdentity, InlineResponses, Finished, HasError, Answers, Reflects, Remembered, SaturatingAdd, OnFile;
      var key := (sessionId, requestId);
      var replay := ReplayCachedTurn(sessionId, requestId);
      if replay.Some? {
        return replay.value;
      }
      if sessionId in activeSessions {
        assert false;
      }
      var _ := ExecutorMut();
      RecordStart(key);
      responses := RunInPlace(key, result);
    }

    /** The claimed turn runs while the caller waits, and is recorded if it succeeds. */
    method RunInPlace(key: Key, result: TurnResult) returns (responses: seq<Message>)
      requires Valid() && AtHome() && !shutdown && Answers(result) && key !in Remembered(completedLog) && key !in Remembered(cancelledLog)
      modifies this`sequence, this`activeSessions, this`completed, this`completedLog, this`cancelled, this`cancelledLog,
               this`delivered
      ensures cancelled == old(cancelled) && cancelledLog == old(cancelledLog)
      ensures Valid() && AtHome()
      ensures responses == InlineResponses(key, result, old(sequence)) && delivered == old(delivered)[key := responses]
      ensures sequence == SaturatingAdd(old(sequence), if result.Ok? then |result.value| else 0)
      ensures if result.Ok?
              then completedLog == old(completedLog) + [key] && Stored(old(completed.results), completed.results, key, responses)
              else completedLog == old(completedLog) && responses == [Error(key.1, result.error)]
    {
      hide StartsFresh, ValidIdentity, InlineResponses, Finished, HasError, Answers, Reflects, Remembered, SaturatingAdd, OnFile,
           Stored;
      activeSessions := activeSessions[key.0 := key.1];
      responses := InlineResponses(key, result, sequence);
      InlineTurnEnds(key, result, sequence);
      InlineSucceeds(key, result, sequence);
      sequence := SaturatingAdd(sequence, if result.Ok? then |result.value| else 0);
      var failed, finished := HasError(responses), Finished(responses);
      if failed || finished {
        activeSessions := activeSessions - {key.0};
      }
      RefusedIffRemembered(cancelled, cancelledLog, key);
      RecordTurn(key, responses, false, !failed && finished);
    }

    ghost method RecordStart(key: Key)
      requires StartsFresh(starts, completedLog, cancelledLog) && Unknown(key)
      modifies this`starts
      ensures StartsFresh(starts, completedLog, cancelledLog)
      ensures starts == old(starts) + [Start(key, |completedLog|, |cancelledLog|)]
    {
      assert completedLog[..|completedLog|] == completedLog && cancelledLog[..|cancelledLog|] == cancelledLog;
      starts := starts + [Start(key, |completedLog|, |cancelledLog|)];
    }

    /** With the executor at home nothing is active, so only a recorded cancellation is answered. */
    method HandleCancel(sessionId: string, requestId: string) returns (responses: seq<Message>)
      requires Valid() && AtHome()
      ensures if ValidIdentity((sessionId, requestId)) && (sessionId, requestId) in cancelled.results
              then responses == cancelled.results[(sessionId, requestId)]
              else |responses| == 1 && responses[0].Error?
    {
      if IsBlank(sessionId) || IsBlank(requestId) {
        return [Error(requestId, INVALID_IDENTITY)];
      }
      if (sessionId, requestId) in cancelled.results {
        return cancelled.results[(sessionId, requestId)];
      }
      if sessionId in activeSessions {
        assert false;
      }
      return [Error(requestId, "request is not active")];
    }

    method HandleShutdown(reply: Option<string>) returns (responses: seq<Message>)
      requires Valid()
      modifies this`turnCancel, this`shutdown, this`activeSessions, this`completed, this`cancelled, this`cleared
      ensures Valid() && shutdown && (executor.Some? ==> cleared)
      ensures turnCancel.Some? ==> turnCancel == Some(true)
      ensures old(executor).Some? ==> completed == Empty() && cancelled == Empty() && activeSessions == map[]
      ensures old(executor).None? ==>
                completed == old(completed) && cancelled == old(cancelled) && activeSessions == old(activeSessions)
      ensures responses == if old(executor).Some? && reply.Some? then [Error("", reply.value)] else [ShutdownAck]
    {
      if turnCancel.Some? {
        turnCancel := Some(true);
      }
      shutdown := true;
      if executor.None? {
        return [ShutdownAck];
      }
      activeSessions := map[];
      completed, cancelled := Empty(), Empty();
      cleared := true;
      return if reply.None? then [ShutdownAck] else [Error("", reply.value)];
    }

    /** One control message. No turn starts after a shutdown, or without the handshake,
        or while another turn has the executor. */
    method Handle(request: Control, replies: Replies) returns (responses: seq<Message>)
      requires Valid() && Answers(replies.turn)
      modifies this
      ensures Valid() && turn == old(turn) && lost == old(lost) && executor == old(executor)
      ensures old(shutdown) ==> shutdown
      ensures request.Hello? ==>
                shutdown == old(shutdown) && activeSessions == old(activeSessions)
                && cancelled == old(cancelled) && turnCancel == old(turnCancel)
                && (protocolReady <==> old(protocolReady) || (!shutdown && request.version == 1))
      ensures old(shutdown) && !request.Shutdown? ==> |responses| == 1 && responses[0].Error?
      ensures !old(shutdown) && old(executor).None? ==> BusyAnswer(request, responses, old(activeSessions), old(cancelled.results))
      ensures request.Shutdown? && (old(executor).None? || old(protocolReady)) ==> shutdown && (executor.Some? ==> cleared)
      ensures !old(shutdown) && old(AtHome()) && old(protocolReady) ==>
                ReadyAnswer(request, replies, responses, old(sequence), old(completedLog), old(cancelledLog), old(cancelled.results))
      ensures !old(shutdown) && old(AtHome()) && !old(protocolReady) && !request.Hello? ==> |responses| == 1 && responses[0].Error?
      ensures starts == old(starts) || (!old(shutdown) && old(AtHome()) && old(protocolReady) && request.StartTurn?
                && old(Unknown((request.sessionId, request.requestId))))
      ensures request.StartTurn? && !(old(AtHome()) && !old(shutdown) && old(protocolReady)) ==>
                |responses| == 1 && responses[0].Error? && responses[0].requestId == request.requestId
    {
      hide StartsFresh, Reflects, Remembered, IsBlank, HasError, Finished, InlineResponses, Answers, BusyAnswer, ReadyAnswer, OnFile;
      var requestId := if request.StartTurn? then request.requestId else "";
      if shutdown && !request.Shutdown? {
        return [Error(requestId, "runtime has shut down")];
      }
      if executor.None? {
        responses := HandleBusy(request, replies);
        return;
      }
      assert AtHome();
      if request.Hello? {
        responses := HandleHello(request.version);
        HelloIsReadyAnswer(request, replies, responses, sequence, completedLog, cancelledLog, cancelled.results);
        return;
      }
      if !protocolReady {
        return [Error(requestId, "protocol handshake required before control messages")];
      }
      responses := HandleReady(request, replies);
    }

    /** The messages served while a turn has the executor. */
    method HandleBusy(request: Control, replies: Replies) returns (responses: seq<Message>)
      requires Valid() && executor.None?
      modifies this`protocolReady, this`turnCancel, this`shutdown, this`activeSessions, this`completed,
               this`cancelled, this`cancelledLog, this`cleared
      ensures Valid() && (old(shutdown) ==> shutdown)
      ensures request.Hello? ==>
                shutdown == old(shutdown) && activeSessions == old(activeSessions)
                && cancelled == old(cancelled) && turnCancel == old(turnCancel)
                && (protocolReady <==> old(protocolReady) || request.version == 1)
      ensures request.StartTurn? ==> |responses| == 1 && responses[0].Error? && responses[0].requestId == request.requestId
      ensures BusyAnswer(request, responses, old(activeSessions), old(cancelled.results))
      ensures request.Shutdown? ==> shutdown
    {
      hide StartsFresh, Reflects, Remembered, IsBlank, OnFile;
      var requestId := if request.StartTurn? then request.requestId else "";
      match request
      case Hello(version) => responses := HandleHello(version);
      case AskCapabilities => return [Capabilities];
      case Cancel(s, r) => responses := CancelActive(s, r);
      case Shutdown => responses := HandleShutdown(replies.shutdown);
      case StartTurn(_, _) => return [Error(requestId, "session already has an active request")];
      case _ => return [Error(requestId, "turn in progress; control RPC unavailable")];
    }

    method HandleHello(version: nat) returns (responses: seq<Message>)
      modifies this`protocolReady
      ensures if version == 1 then protocolReady && responses == [HelloAck]
              else protocolReady == old(protocolReady) && |responses| == 1 && responses[0].Error?
    {
      if version != 1 {
        return [Error("", "unsupported protocol version")];
      }
      protocolReady := true;
      return [HelloAck];
    }

    /** The messages served with the executor at home after the handshake. */
    method HandleReady(request: Control, replies: Replies) returns (responses: seq<Message>)
      requires Valid() && AtHome() && protocolReady && !request.Hello? && Answers(replies.turn)
      requires shutdown ==> request.Shutdown?
      modifies this
      ensures Valid() && AtHome() && (old(shutdown) ==> shutdown)
      ensures starts == old(starts) || (request.StartTurn? && old(Unknown((request.sessionId, request.requestId))))
      ensures request.StartTurn? ==>
                var key := (request.sessionId, request.requestId);
                ValidIdentity(key) && old(Unknown(key)) ==>
                  responses == InlineResponses(key, replies.turn, old(sequence)) && delivered == old(delivered)[key := responses]
      ensures request.Cancel? ==>
                var key := (request.sessionId, request.requestId);
                if ValidIdentity(key) && key in old(cancelled.results) then responses == old(cancelled.results)[key]
                else |responses| == 1 && responses[0].Error?
      ensures ReadyAnswer(request, replies, responses, old(sequence), old(completedLog), old(cancelledLog), old(cancelled.results))
      ensures request.Shutdown? ==> shutdown && cleared
    {
      hide StartsFresh, Reflects, Remembered, ValidIdentity, HasError, Finished, InlineResponses, Answers, OnFile, RequestLog.Stored;
      match request
      case AskCapabilities => return [Capabilities];
      case StartTurn(s, r) => responses := HandleStart(s, r, replies.turn);
      case Cancel(s, r) => responses := HandleCancel(s, r);
      case ReadWorkspaceFile(r, path) =>
        var _ := ExecutorMut();
        return if replies.read.Ok? then [FileContent(r, path, replies.read.value)] else [Error(r, replies.read.error)];
      case ReadHostFile(r) => return [Error(r, "read-only host source RPC is not supported")];
      case WriteWorkspaceFile(r, path) =>
        var _ := ExecutorMut();
        return if replies.write.None? then [WriteAck(r, path)] else [Error(r, replies.write.value)];
      case Shutdown => responses := HandleShutdown(replies.shutdown);
    }

    /** Served exactly when the handshake is done and the executor is at home; with a turn
        in flight, or the executor lost with one, it fails. */
    method FilesystemRpc(reply: Result<Bytes, string>) returns (r: Result<Bytes, string>)
      requires Valid()
      ensures r.Ok? <==> protocolReady && AtHome() && reply.Ok?
      ensures protocolReady && AtHome() ==> r == reply
      ensures InFlight() || Lost() ==> r.Err?
    {
      if !protocolReady {
        return Err("protocol handshake required before filesystem RPC");
      }
      if executor.None? {
        return Err("turn in progress; filesystem RPC unavailable");
      }
      var _ := ExecutorMut();
      return reply;
    }
  }

  // ---------------------------------------------------------------------------
  // Whole runs.
  // ---------------------------------------------------------------------------

  /** Anything a connection, a worker or a peer can make the service do. */
  datatype Call =
    | OnControl(request: Control, replies: Replies)
    | OnClaim(sessionId: string, requestId: string)
    | OnReplay(sessionId: string, requestId: string)
    | OnDelivery(result: TurnResult)
    | OnDeath
    | OnAbandon
    | OnCancel(sessionId: string, requestId: string)

  /** Every sequence of calls, with executors that keep their contract, leaves a
      service in which no remembered request was ever executed again. */
  method Drive(calls: seq<Call>, executor: Executor) returns (service: RuntimeService)
    requires forall c :: c in calls && c.OnDelivery? ==> Answers(c.result)
    requires forall c :: c in calls && c.OnControl? ==> Answers(c.replies.turn)
    ensures fresh(service) && service.Valid()
    ensures service.AtHome() || service.InFlight() || service.Lost()
    ensures StartsFresh(service.starts, service.completedLog, service.cancelledLog)
    ensures OnFile(service.completed.results, service.cancelled.results, service.delivered)
  {
    hide OnFile, StartsFresh, Reflects, Remembered, IsBlank, HasError, Finished, InlineResponses, Answers;
    service := new RuntimeService(executor);
    var running: Option<Key> := None;
    for i := 0 to |calls|
      invariant fresh(service) && service.Valid() && service.home == executor
      invariant running == if service.InFlight() then service.turn else None
    {
      assert calls[i] in calls;
      running := Perform(service, calls[i], running);
    }
  }

  /** One call; `running` is the turn a live worker is executing. */
  method Perform(service: RuntimeService, call: Call, running: Option<Key>) returns (next: Option<Key>)
    requires service.Valid() && running == if service.InFlight() then service.turn else None
    requires call.OnDelivery? ==> Answers(call.result)
    requires call.OnControl? ==> Answers(call.replies.turn)
    modifies service
    ensures service.Valid() && next == if service.InFlight() then service.turn else None
    ensures old(service.shutdown) ==> service.shutdown && service.starts == old(service.starts)
  {
    hide StartsFresh, Reflects, Remembered, IsBlank, HasError, Finished, InlineResponses, Answers, TurnResponses;
    next := running;
    match call
    case OnControl(request, replies) => var _ := service.Handle(request, replies);
    case OnClaim(s, r) =>
      var claimed := service.SpawnTurn(s, r);
      if claimed.Ok? {
        next := Some((s, r));
      }
    case OnReplay(s, r) => var _ := service.ReplayCachedTurn(s, r);
    case OnDelivery(result) =>
      if running.Some? {
        var _ := service.CompleteTurn(running.value.0, running.value.1, result, service.home);
        next := None;
      }
    case OnDeath =>
      if running.Some? {
        service.WorkerDied();
        next := None;
      }
    case OnAbandon => var _ := service.AbandonActiveTurn();
    case OnCancel(s, r) => var _ := service.CancelActive(s, r);
  }
}
