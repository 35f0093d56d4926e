/** One ZBRT connection over its own runtime service (`zeroboot_connection.rs`).
    Every iteration of the serve loop is one method; writes succeed. */
module Connection {
  import opened Common
  import opened Wire
  import opened Service
  import Utf8
  import Frames
  import Payloads
  import RequestLog

  const SESSION_ID := "zeroboot"
  const TERMINATED_RETENTION: nat := 64

  // ---------------------------------------------------------------------------
  // Wire ids as service request ids.
  // ---------------------------------------------------------------------------

  function HexDigit(n: nat): char
    requires n < 16
  {
    "0123456789abcdef"[n]
  }

  function HexOf(bytes: Bytes): (s: string)
    ensures |s| == 2 * |bytes|
  {
    if bytes == [] then []
    else [HexDigit(bytes[0] / 16), HexDigit(bytes[0] % 16)] + HexOf(bytes[1..])
  }

  /** Two lower-case hex digits for each byte, the high one first. */
  lemma {:induction false} HexDigits(bytes: Bytes, i: nat)
    requires i < |bytes|
    ensures HexOf(bytes)[2 * i] == "0123456789abcdef"[bytes[i] / 16]
    ensures HexOf(bytes)[2 * i + 1] == "0123456789abcdef"[bytes[i] % 16]
  {
    if i > 0 {
      HexDigits(bytes[1..], i - 1);
      assert HexOf(bytes)[2..] == HexOf(bytes[1..]);
      assert HexOf(bytes)[2 * i] == HexOf(bytes)[2..][2 * (i - 1)];
      assert HexOf(bytes)[2 * i + 1] == HexOf(bytes)[2..][2 * (i - 1) + 1];
    }
  }

  method HexId(id: RequestId) returns (out: string)
    ensures out == HexOf(id)
  {
    out := "";
    assert id[0..] == id;
    for i := 0 to |id|
      invariant out + HexOf(id[i..]) == HexOf(id)
    {
      assert id[i..][1..] == id[i + 1..];
      out := out + [HexDigit(id[i] / 16), HexDigit(id[i] % 16)];
    }
    assert out + HexOf(id[|id|..]) == out;
  }

  lemma HexDigitInjective(m: nat, n: nat)
    requires m < 16 && n < 16 && HexDigit(m) == HexDigit(n)
    ensures m == n
  {
  }

  lemma {:induction false} HexInjective(a: Bytes, b: Bytes)
    requires HexOf(a) == HexOf(b)
    ensures a == b
  {
    hide HexDigit;
    if a != [] {
      var x, y := HexOf(a), HexOf(b);
      assert x[0] == y[0] && x[1] == y[1];
      HexDigitInjective(a[0] / 16, b[0] / 16);
      HexDigitInjective(a[0] % 16, b[0] % 16);
      assert a[0] == a[0] / 16 * 16 + a[0] % 16 && b[0] == b[0] / 16 * 16 + b[0] % 16;
      assert x[2..] == HexOf(a[1..]) && y[2..] == HexOf(b[1..]);
      HexInjective(a[1..], b[1..]);
    }
  }

  lemma IdentityOk(id: RequestId)
    ensures ValidIdentity((SESSION_ID, HexOf(id)))
  {
    var s := HexOf(id);
    assert !IsWhitespace(s[0]);
    assert !IsWhitespace(SESSION_ID[0]);
  }

  // ---------------------------------------------------------------------------
  // The terminal frame of a turn.
  // ---------------------------------------------------------------------------

  datatype Reply = Reply(kind: Frames.Kind, requestId: RequestId, code: int, message: string)

  function Failure(id: RequestId, message: string): Reply {
    Reply(Frames.Error, id, 1, message)
  }

  function ExitReply(id: RequestId, code: int): Reply {
    Reply(Frames.Exit, id, code, "")
  }

  /** The first terminal response decides; there is always exactly one frame. */
  function TerminalReply(id: RequestId, responses: seq<Message>): (r: Reply)
    ensures r.requestId == id && (r.kind == Frames.Exit || r.kind == Frames.Error)
  {
    if responses == [] then Failure(id, "turn finished without a terminal event")
    else match responses[0]
      case Error(_, message) => Failure(id, message)
      case Event(_, _, event) =>
        if event.kind == "turn.cancelled" then ExitReply(id, -1)
        else if event.kind == "turn.completed" then ExitReply(id, ExitCode(event.exitCode))
        else TerminalReply(id, responses[1..])
      case _ => TerminalReply(id, responses[1..])
  }

  function ExitCode(code: Option<int>): int {
    if code.Some? && Payloads.I32_MIN <= code.value <= Payloads.I32_MAX then code.value else -1
  }

  lemma ErrorsFail(id: RequestId, responses: seq<Message>)
    requires forall i :: 0 <= i < |responses| ==> responses[i].Error?
    ensures TerminalReply(id, responses).kind == Frames.Error
  {
  }

  /** The events that decide the frame of a turn that ran to its end. */
  predicate Decides(event: GuestEvent) {
    event.kind == "turn.cancelled" || event.kind == "turn.completed"
  }

  /** The exit code an event reports, -1 unless it is a 32-bit number. */
  function Reported(event: GuestEvent): int {
    if event.kind == "turn.cancelled" || event.exitCode.None? then -1
    else if event.exitCode.value < -0x8000_0000 || event.exitCode.value > 0x7FFF_FFFF then -1
    else event.exitCode.value
  }

  /** What the peer is told: of a turn that returned events, the first deciding one; of a
      failed turn, its error, unless it was cancelled. */
  lemma {:induction false} TerminalReplyOfTurn(
    id: RequestId, key: RequestLog.Key, result: TurnResult, cancelled: bool, sequence: nat, k: nat)
    ensures var reply := TerminalReply(id, TurnResponses(key, result, cancelled, sequence));
            && (result.Err? && (cancelled || result.error == "request cancelled") ==> reply == Reply(Frames.Exit, id, -1, ""))
            && (result.Err? && !cancelled && result.error != "request cancelled" ==>
                  reply == Reply(Frames.Error, id, 1, result.error))
            && (result.Ok? && k < |result.value| && Decides(result.value[k])
                && (forall j :: 0 <= j < k ==> !Decides(result.value[j])) ==>
                  reply == Reply(Frames.Exit, id, Reported(result.value[k]), ""))
            && (result.Ok? && (forall j :: 0 <= j < |result.value| ==> !Decides(result.value[j])) ==>
                  reply.kind == Frames.Error)
  {
    if result.Ok? {
      var r := TurnResponses(key, result, cancelled, sequence);
      forall j | 0 <= j < |r| ensures r[j].Event? && r[j].event == result.value[j] {
      }
      FirstDecides(id, r, k);
    }
  }

  lemma {:induction false} FirstDecides(id: RequestId, r: seq<Message>, k: nat)
    requires forall j :: 0 <= j < |r| ==> r[j].Event?
    ensures k < |r| && Decides(r[k].event) && (forall j :: 0 <= j < k ==> !Decides(r[j].event)) ==>
              TerminalReply(id, r) ==
              ExitReply(id, if r[k].event.kind == "turn.cancelled" then -1 else ExitCode(r[k].event.exitCode))
    ensures (forall j :: 0 <= j < |r| ==> !Decides(r[j].event)) ==> TerminalReply(id, r).kind == Frames.Error
    decreases |r|
  {
    hide ExitCode;
    if r != [] && !Decides(r[0].event) {
      FirstDecides(id, r[1..], if k == 0 then 0 else k - 1);
      assert forall j :: 0 <= j < |r| - 1 ==> r[1..][j] == r[j + 1];
    }
  }

  // ---------------------------------------------------------------------------
  // What the peer sees of a connection's turns.
  // ---------------------------------------------------------------------------

  /** How a turn ended: with events, with an error, or with its worker dead. */
  datatype Ending = Returned | Errored | Panicked

  datatype Mark =
    | Accepted(id: RequestId)
    | OutputSent(id: RequestId)
    | CancelTaken(id: RequestId)
    | TerminalSent(id: RequestId, frame: Reply, ending: Ending)
    | Rejected(id: RequestId)

  /** The turn accepted last, if its terminal frame has not been sent yet. */
  function OpenTurn(trace: seq<Mark>): Option<RequestId> {
    if trace == [] then None
    else match trace[|trace| - 1]
      case Accepted(id) => Some(id)
      case TerminalSent(_, _, _) => None
      case _ => OpenTurn(trace[..|trace| - 1])
  }

  /** Turns do not overlap; output is sent only inside its own turn, and a terminal only closes an open one. */
  predicate Ordered(trace: seq<Mark>) {
    trace == [] ||
      var before := trace[..|trace| - 1];
      Ordered(before)
      && match trace[|trace| - 1]
         case Accepted(_) => OpenTurn(before).None?
         case OutputSent(id) => OpenTurn(before) == Some(id)
         case CancelTaken(id) => OpenTurn(before) == Some(id)
         case TerminalSent(id, frame, _) => OpenTurn(before) == Some(id) && frame.requestId == id
         case Rejected(_) => true
  }

  /** A cancel was acknowledged for the open turn. */
  predicate CancelPending(trace: seq<Mark>) {
    trace != [] &&
      match trace[|trace| - 1]
      case CancelTaken(_) => true
      case Accepted(_) => false
      case TerminalSent(_, _, _) => false
      case _ => CancelPending(trace[..|trace| - 1])
  }

  /** A turn whose cancel was acknowledged and which then ended in an error is reported as
      exit -1, not as an error. */
  predicate CancelsHonoured(trace: seq<Mark>) {
    trace == [] ||
      var before, last := trace[..|trace| - 1], trace[|trace| - 1];
      CancelsHonoured(before)
      && (last.TerminalSent? && last.ending.Errored? && CancelPending(before) ==> last.frame == Reply(Frames.Exit, last.id, -1, ""))
  }

  function Rejections(trace: seq<Mark>): nat {
    if trace == [] then 0
    else Rejections(trace[..|trace| - 1]) + if trace[|trace| - 1].Rejected? then 1 else 0
  }

  function Terminals(trace: seq<Mark>): nat {
    if trace == [] then 0
    else Terminals(trace[..|trace| - 1]) + if trace[|trace| - 1].TerminalSent? then 1 else 0
  }

  lemma TraceSnoc(trace: seq<Mark>, m: Mark)
    ensures OpenTurn(trace + [m]) ==
            match m case Accepted(id) => Some(id) case TerminalSent(_, _, _) => None case _ => OpenTurn(trace)
    ensures Ordered(trace + [m]) <==>
            Ordered(trace)
            && match m
               case Accepted(_) => OpenTurn(trace).None?
               case OutputSent(id) => OpenTurn(trace) == Some(id)
               case CancelTaken(id) => OpenTurn(trace) == Some(id)
               case TerminalSent(id, frame, _) => OpenTurn(trace) == Some(id) && frame.requestId == id
               case Rejected(_) => true
    ensures Rejections(trace + [m]) == Rejections(trace) + if m.Rejected? then 1 else 0
    ensures Terminals(trace + [m]) == Terminals(trace) + if m.TerminalSent? then 1 else 0
    ensures CancelPending(trace + [m]) ==
            if m.Accepted? || m.TerminalSent? then false else m.CancelTaken? || CancelPending(trace)
    ensures CancelsHonoured(trace + [m]) <==>
            CancelsHonoured(trace)
            && (m.TerminalSent? && m.ending.Errored? && CancelPending(trace) ==> m.frame == Reply(Frames.Exit, m.id, -1, ""))
  {
    assert (trace + [m])[..|trace|] == trace;
  }

  /** In an ordered trace no output of a turn comes after its terminal frame: between
      an output and the last terminal for the same id there is a new acceptance. */
  lemma {:induction false} NoOutputAfterTerminal(trace: seq<Mark>, t: nat, o: nat, id: RequestId)
    requires Ordered(trace) && t < o < |trace|
    requires trace[t].TerminalSent? && trace[t].id == id && trace[o] == OutputSent(id)
    ensures exists a :: t < a < o && trace[a] == Accepted(id)
    decreases |trace|
  {
    if o == |trace| - 1 {
      OpenedAfter(trace[..o], t, id);
    } else {
      NoOutputAfterTerminal(trace[..|trace| - 1], t, o, id);
    }
  }

  lemma {:induction false} OpenedAfter(trace: seq<Mark>, t: nat, id: RequestId)
    requires t < |trace| && trace[t].TerminalSent? && trace[t].id == id && OpenTurn(trace) == Some(id)
    ensures exists a :: t < a < |trace| && trace[a] == Accepted(id)
    decreases |trace|
  {
    var last := |trace| - 1;
    if trace[last] != Accepted(id) {
      OpenedAfter(trace[..last], t, id);
    } else {
      assert t != last;
    }
  }

  /** Over a whole trace: a turn whose cancel was acknowledged while it ran, and which then
      ended in an error, got exit -1. */
  lemma {:induction false} CancelledTurnExits(trace: seq<Mark>, c: nat, t: nat)
    requires Ordered(trace) && CancelsHonoured(trace) && c < t < |trace|
    requires trace[c].CancelTaken? && trace[t].TerminalSent? && trace[t].ending.Errored?
    requires forall k :: c < k < t ==> !trace[k].Accepted? && !trace[k].TerminalSent?
    ensures trace[t].id == trace[c].id && trace[t].frame == Reply(Frames.Exit, trace[c].id, -1, "")
    decreases |trace|
  {
    if t == |trace| - 1 {
      StillPending(trace[..t], c);
    } else {
      CancelledTurnExits(trace[..|trace| - 1], c, t);
    }
  }

  lemma {:induction false} StillPending(trace: seq<Mark>, c: nat)
    requires Ordered(trace) && c < |trace| && trace[c].CancelTaken?
    requires forall k :: c < k < |trace| ==> !trace[k].Accepted? && !trace[k].TerminalSent?
    ensures CancelPending(trace) && OpenTurn(trace) == Some(trace[c].id)
    decreases |trace|
  {
    if c < |trace| - 1 {
      StillPending(trace[..|trace| - 1], c);
    }
  }

  // ---------------------------------------------------------------------------
  // The connection.
  // ---------------------------------------------------------------------------

  datatype Entry = Entry(requestId: string, terminated: bool)

  /** What the executor's filesystem answers to a request. */
  type FsCall = FsRequest -> Result<Bytes, string>

  datatype FsRequest = FsRequest(op: Byte, path: Bytes, data: Bytes)

  /** `/workspace` */
  const WORKSPACE: Bytes := [0x2F, 0x77, 0x6F, 0x72, 0x6B, 0x73, 0x70, 0x61, 0x63, 0x65]

  /** The contract root and what lies below it become relative; any other path is left for the policy to judge. */
  function NormalizePath(path: Bytes): Bytes {
    if path == WORKSPACE then [0x2E]
    else if WORKSPACE + [0x2F] <= path then path[|WORKSPACE| + 1..]
    else path
  }

  /** `/workspace` is the root, `/workspace/x` is `x`, and no other path is changed. */
  lemma NormalizePathLaw(path: Bytes, x: Bytes)
    ensures NormalizePath([47, 119, 111, 114, 107, 115, 112, 97, 99, 101]) == [46]
    ensures NormalizePath([47, 119, 111, 114, 107, 115, 112, 97, 99, 101, 47] + x) == x
    ensures (|path| < 10 || path[..10] != [47, 119, 111, 114, 107, 115, 112, 97, 99, 101] || (|path| > 10 && path[10] != 47)) ==>
              NormalizePath(path) == path
  {
    var root: Bytes := [47, 119, 111, 114, 107, 115, 112, 97, 99, 101];
    assert WORKSPACE == root && WORKSPACE + [47] == root + [47];
    assert root + [47] == [47, 119, 111, 114, 107, 115, 112, 97, 99, 101, 47];
    var p := [47, 119, 111, 114, 107, 115, 112, 97, 99, 101, 47] + x;
    assert |p| > 10 && p[11..] == x;
    if WORKSPACE + [47] <= path {
      assert path[..10] == WORKSPACE && path[10] == 47;
    }
  }

  function Normalized(fs: Payloads.Fs): FsRequest {
    FsRequest(fs.op, NormalizePath(fs.path), fs.data)
  }

  /** How a builtin run inline ends. */
  datatype InlineRun = Panics | Finishes(outputs: nat, result: TurnResult)

  /** The request map holds the retained terminated requests and at most one other. */
  ghost predicate RequestsExact(requests: map<RequestId, Entry>, order: seq<RequestId>, unfinished: Option<RequestId>) {
    && |order| <= TERMINATED_RETENTION
    && NoDuplicates(order)
    && (forall id :: id in requests ==> requests[id].requestId == HexOf(id))
    && (forall id :: id in order <==> id in requests && requests[id].terminated)
    && (forall id :: id in requests && !requests[id].terminated <==> unfinished == Some(id))
  }

  lemma {:induction false} ElementsBound<T>(order: seq<T>)
    ensures |set x | x in order| <= |order|
  {
    if order != [] {
      ElementsBound(order[1..]);
      assert (set x | x in order) == {order[0]} + (set x | x in order[1..]);
    }
  }

  function EndingOf(result: TurnResult): Ending {
    if result.Ok? then Returned else Errored
  }

  /** The frame that ends a turn with this result. */
  function FrameOf(id: RequestId, result: TurnResult, cancelled: bool, sequence: nat): Reply {
    TerminalReply(id, TurnResponses((SESSION_ID, HexOf(id)), result, cancelled, sequence))
  }

  lemma FrameOfCancelled(id: RequestId, result: TurnResult, sequence: nat)
    ensures result.Err? ==> FrameOf(id, result, true, sequence) == Reply(Frames.Exit, id, -1, "")
  {
    TerminalReplyOfTurn(id, (SESSION_ID, HexOf(id)), result, true, sequence, 0);
  }

  /** A builtin's outputs, each in its turn, and then its terminal frame. */
  ghost predicate RanInline(before: seq<Mark>, after: seq<Mark>, id: RequestId, run: InlineRun, sequence: nat) {
    match run
    case Panics =>
      exists frame: Reply :: frame.kind == Frames.Error && after == before + [TerminalSent(id, frame, Panicked)]
    case Finishes(outputs, result) =>
      after == before + seq(outputs, _ => OutputSent(id)) + [TerminalSent(id, FrameOf(id, result, false, sequence), EndingOf(result))]
  }

  /** The map never exceeds 65 entries. */
  lemma RequestsBounded(requests: map<RequestId, Entry>, order: seq<RequestId>, unfinished: Option<RequestId>)
    requires RequestsExact(requests, order, unfinished)
    ensures |requests| <= 65
  {
    ElementsBound(order);
    var done := set id | id in order;
    if unfinished.Some? {
      assert requests.Keys == done + {unfinished.value};
    } else {
      assert requests.Keys == done;
    }
    assert |requests.Keys| == |requests|;
  }

  /** Mark a request terminated and drop the oldest terminated one past the bound. */
  method Terminate(requests: map<RequestId, Entry>, order: seq<RequestId>, id: RequestId)
    returns (requests': map<RequestId, Entry>, order': seq<RequestId>)
    requires RequestsExact(requests, order, Some(id))
    ensures RequestsExact(requests', order', None)
    ensures order' == RequestLog.LastN(order + [id], 64)
  {
    requests' := requests[id := requests[id].(terminated := true)];
    order' := order + [id];
    assert forall x :: x in order' <==> x in order || x == id;
    while |order'| > TERMINATED_RETENTION
      invariant |order'| <= TERMINATED_RETENTION + 1 && NoDuplicates(order')
      invariant RequestLog.LastN(order', TERMINATED_RETENTION) == RequestLog.LastN(order + [id], TERMINATED_RETENTION)
      invariant forall x :: x in requests' ==> requests'[x].requestId == HexOf(x) && requests'[x].terminated
      invariant forall x :: x in order' <==> x in requests'
    {
      var oldest := order'[0];
      assert forall x :: x in order' <==> x == oldest || x in order'[1..];
      order' := order'[1..];
      requests' := requests' - {oldest};
    }
  }

  /** The connection's view of its turn and the service's are the same turn. */
  ghost predicate Linked(
    turn: Option<RequestLog.Key>, lost: bool, active: map<string, string>,
    activeId: Option<RequestId>, unfinished: Option<RequestId>)
  {
    && (unfinished.None? ==> activeId.None? && (turn.None? || lost))
    && (unfinished.Some? ==> turn == Some((SESSION_ID, HexOf(unfinished.value))))
    && (activeId.Some? ==>
          unfinished == activeId && !lost && SESSION_ID in active && active[SESSION_ID] == HexOf(activeId.value))
    && (unfinished.Some? && activeId.None? ==> lost)
  }

  /** The cancel acknowledged for the turn under way is on file with the service. */
  ghost predicate CancelLinked(trace: seq<Mark>, active: Option<RequestId>, cancelled: map<RequestLog.Key, seq<Message>>) {
    CancelsHonoured(trace)
    && (CancelPending(trace) ==> active.Some? && (SESSION_ID, HexOf(active.value)) in cancelled)
  }

  /** Every Execute frame read was rejected, got its terminal, or is the running turn. */
  ghost predicate Accounted(trace: seq<Mark>, executesRead: nat, activeId: Option<RequestId>) {
    && Ordered(trace) && OpenTurn(trace) == activeId
    && executesRead == Rejections(trace) + Terminals(trace) + if activeId.Some? then 1 else 0
  }

  /** A terminal frame closes the turn under way; a cancel taken for it must show in it. */
  lemma TerminalCloses(
    trace: seq<Mark>, executesRead: nat, id: RequestId, frame: Reply, ending: Ending,
    cancelled: map<RequestLog.Key, seq<Message>>, cancelled': map<RequestLog.Key, seq<Message>>)
    requires Accounted(trace, executesRead, Some(id)) && CancelLinked(trace, Some(id), cancelled) && frame.requestId == id
    requires ending.Errored? && (SESSION_ID, HexOf(id)) in cancelled ==> frame == Reply(Frames.Exit, id, -1, "")
    ensures var trace' := trace + [TerminalSent(id, frame, ending)];
            Accounted(trace', executesRead, None) && CancelLinked(trace', None, cancelled')
  {
    hide Ordered, OpenTurn, Rejections, Terminals, CancelPending, CancelsHonoured, HexOf;
    TraceSnoc(trace, TerminalSent(id, frame, ending));
  }

  class Connection {
    const service: RuntimeService
    var handshaked: bool
    var workerActive: bool
    var activeId: Option<RequestId>
    var requests: map<RequestId, Entry>
    var terminatedOrder: seq<RequestId>

    /** The one request without a terminated entry: the running turn, or one whose worker panicked. */
    ghost var unfinished: Option<RequestId>
    ghost var trace: seq<Mark>
    ghost var executesRead: nat

    /** Everything holds, with `active` as the turn under way. */
    ghost predicate ValidWith(active: Option<RequestId>)
      reads this, service
    {
      && service.Valid() && !service.shutdown
      && RequestsExact(requests, terminatedOrder, unfinished)
      && Linked(service.turn, service.lost, service.activeSessions, active, unfinished)
      && Accounted(trace, executesRead, active)
      && CancelLinked(trace, active, service.cancelled.results)
      && (handshaked ==> service.protocolReady)
    }

    ghost predicate Valid()
      reads this, service
    {
      workerActive == activeId.Some? && ValidWith(activeId)
    }

    constructor (service: RuntimeService)
      requires service.Valid() && service.AtHome() && !service.shutdown
      ensures Valid() && this.service == service && !handshaked && trace == [] && executesRead == 0
    {
      this.service := service;
      handshaked, workerActive, activeId := false, false, None;
      requests, terminatedOrder, unfinished := map[], [], None;
      trace, executesRead := [], 0;
    }

    /** A live output message; only the active request's output is forwarded. */
    method OnWorkerOutput(id: RequestId, isOutput: bool)
      requires Valid()
      modifies this`trace
      ensures Valid()
      ensures trace == if activeId == Some(id) && isOutput then old(trace) + [OutputSent(id)] else old(trace)
    {
      if activeId == Some(id) && isOutput {
        TraceSnoc(trace, OutputSent(id));
        trace := trace + [OutputSent(id)];
      }
    }

    /** The worker's result: the executor goes home and exactly one terminal frame is sent,
        the one the result calls for. */
    method OnWorkerTerminal(result: TurnResult) returns (frame: Reply)
      requires Valid() && workerActive && Answers(result)
      modifies this, service
      ensures Valid() && !workerActive && service.AtHome() && handshaked == old(handshaked)
      ensures trace == old(trace) + [TerminalSent(old(activeId).value, frame, EndingOf(result))]
      ensures executesRead == old(executesRead)
      ensures var id := old(activeId).value;
              frame == FrameOf(id, result, (SESSION_ID, HexOf(id)) in old(service.cancelled.results), old(service.sequence))
    {
      hide FrameOf, HexOf, RequestsExact, Accounted, CancelLinked, Answers, Linked, RequestLog.Reflects, StartsFresh,
           RequestLog.Remembered;
      var id := activeId.value;
      workerActive, activeId := false, None;
      frame := Conclude(id, result);
    }

    method Conclude(id: RequestId, result: TurnResult) returns (frame: Reply)
      requires ValidWith(Some(id)) && Answers(result)
      modifies this`trace, this`requests, this`terminatedOrder, this`unfinished, service
      ensures ValidWith(None) && service.AtHome() && service.protocolReady == old(service.protocolReady)
      ensures trace == old(trace) + [TerminalSent(id, frame, EndingOf(result))]
      ensures frame == FrameOf(id, result, (SESSION_ID, HexOf(id)) in old(service.cancelled.results), old(service.sequence))
    {
      hide RequestLog.Reflects, StartsFresh, Answers, RequestLog.Remembered, HexOf, FrameOf, RequestsExact, Accounted, CancelLinked,
           OnFile, LogsExact, TurnUnrecorded, Flagged;
      ghost var cancelled := service.cancelled.results;
      frame := FinishTurn(id, result);
      TerminalCloses(trace, executesRead, id, frame, EndingOf(result), cancelled, service.cancelled.results);
      trace := trace + [TerminalSent(id, frame, EndingOf(result))];
      requests, terminatedOrder := Terminate(requests, terminatedOrder, id);
      unfinished := None;
    }

    /** The service takes the executor back and says what to tell the peer. */
    method FinishTurn(id: RequestId, result: TurnResult) returns (frame: Reply)
      requires service.Valid() && service.InFlight() && service.turn == Some((SESSION_ID, HexOf(id))) && Answers(result)
      modifies service
      ensures service.Valid() && service.AtHome() && service.protocolReady == old(service.protocolReady)
      ensures service.shutdown == old(service.shutdown) && frame.requestId == id
      ensures frame == FrameOf(id, result, (SESSION_ID, HexOf(id)) in old(service.cancelled.results), old(service.sequence))
      ensures result.Err? && (SESSION_ID, HexOf(id)) in old(service.cancelled.results) ==> frame == Reply(Frames.Exit, id, -1, "")
    {
      hide RequestLog.Reflects, StartsFresh, Answers, RequestLog.Remembered, IsBlank, TurnResponses, TerminalReply, HexOf,
           HasError, OnFile, RequestLog.Stored, LogsExact, TurnUnrecorded, Flagged;
      var requestId := HexId(id);
      FrameOfCancelled(id, result, service.sequence);
      var responses := service.CompleteTurn(SESSION_ID, requestId, result, service.home);
      frame := TerminalReply(id, responses);
    }

    /** The worker died without a result: its request is failed, the executor stays lost. */
    method OnWorkerPanic() returns (frame: Reply)
      requires Valid() && workerActive
      modifies this, service
      ensures Valid() && !workerActive && service.Lost() && handshaked == old(handshaked)
      ensures trace == old(trace) + [TerminalSent(old(activeId).value, frame, Panicked)] && executesRead == old(executesRead)
      ensures frame.requestId == old(activeId).value && frame.kind == Frames.Error
    {
      hide HexOf, RequestsExact, Accounted, CancelLinked, Linked, RequestLog.Reflects, StartsFresh, RequestLog.Remembered;
      var id := activeId.value;
      workerActive, activeId := false, None;
      frame := Abandon(id);
    }

    method Abandon(id: RequestId) returns (frame: Reply)
      requires ValidWith(Some(id))
      modifies this`trace, service
      ensures ValidWith(None) && service.Lost() && unfinished == Some(id) && service.protocolReady == old(service.protocolReady)
      ensures trace == old(trace) + [TerminalSent(id, frame, Panicked)] && frame.requestId == id && frame.kind == Frames.Error
    {
      hide RequestLog.Reflects, StartsFresh, RequestLog.Remembered, IsBlank, TerminalReply, HexOf, RequestsExact,
           Accounted, CancelLinked, OnFile, LogsExact, TurnUnrecorded;
      service.WorkerDied();
      var responses := service.AbandonActiveTurn();
      ErrorsFail(id, responses);
      frame := TerminalReply(id, responses);
      TerminalCloses(trace, executesRead, id, frame, Panicked, service.cancelled.results, service.cancelled.results);
      trace := trace + [TerminalSent(id, frame, Panicked)];
    }

    /** An Execute frame is accepted exactly when it decodes to a command, no turn is
        running, its id is not on file and the service hands out the executor. */
    method OnExecute(id: RequestId, payload: Bytes, inline: Option<InlineRun>) returns (reply: Option<Reply>)
      requires Valid()
      requires inline.Some? && inline.value.Finishes? ==> Answers(inline.value.result)
      modifies this, service
      ensures Valid() && executesRead == old(executesRead) + 1 && handshaked == old(handshaked)
      ensures var exec := Payloads.Decode(Payloads.ReadExecute, payload);
              reply.None? <==>
              exec.Ok? && exec.value.argv != [] && !old(workerActive) && id !in old(requests)
              && service.protocolReady && old(service.AtHome() && service.Unknown((SESSION_ID, HexOf(id))))
      ensures reply.Some? ==> reply.value.kind == Frames.Error && trace == old(trace) + [Rejected(id)] && activeId == old(activeId)
      ensures reply.None? && inline.None? ==> activeId == Some(id) && trace == old(trace) + [Accepted(id)]
      ensures reply.None? && inline.Some? ==>
                activeId.None? && RanInline(old(trace) + [Accepted(id)], trace, id, inline.value, old(service.sequence))
    {
      hide CancelLinked, Accounted, Linked, OnFile, RanInline, LogsExact, TurnUnrecorded, Flagged, RequestLog.Reflects, StartsFresh,
           Answers, RequestLog.Remembered, IsBlank, HexOf, RequestsExact, Payloads.ReadExecute, ValidIdentity, TurnResponses;
      var exec := Payloads.Decode(Payloads.ReadExecute, payload);
      if exec.Err? {
        reply := Refuse(id, "invalid Execute payload");
      } else if exec.value.argv == [] {
        reply := Refuse(id, "argv is empty");
      } else if workerActive {
        reply := Refuse(id, "a turn is already active");
      } else if id in requests {
        reply := Refuse(id, "duplicate request id");
      } else {
        reply := Accept(id);
        if reply.None? {
          if inline.None? {
            workerActive, activeId := true, Some(id);
          } else {
            RunInline(id, inline.value);
          }
        }
      }
    }

    method Refuse(id: RequestId, message: string) returns (reply: Option<Reply>)
      requires Valid()
      modifies this`trace, this`executesRead
      ensures Valid() && executesRead == old(executesRead) + 1 && trace == old(trace) + [Rejected(id)]
      ensures reply == Some(Failure(id, message))
    {
      hide Ordered, OpenTurn, Rejections, Terminals, CancelPending, CancelsHonoured, HexOf, RequestsExact, OnFile, StartsFresh;
      TraceSnoc(trace, Rejected(id));
      trace := trace + [Rejected(id)];
      executesRead := executesRead + 1;
      return Some(Failure(id, message));
    }

    /** Claim the turn from the service and put the request on file. */
    method Accept(id: RequestId) returns (reply: Option<Reply>)
      requires Valid() && !workerActive && id !in requests
      modifies this`trace, this`executesRead, this`requests, this`unfinished, service
      ensures reply.None? <==> service.protocolReady && old(service.AtHome() && service.Unknown((SESSION_ID, HexOf(id))))
      ensures service.protocolReady == old(service.protocolReady) && executesRead == old(executesRead) + 1
      ensures service.sequence == old(service.sequence)
      ensures reply.None? ==> (SESSION_ID, HexOf(id)) !in service.cancelled.results
      ensures reply.None? ==> ValidWith(Some(id)) && trace == old(trace) + [Accepted(id)]
      ensures reply.Some? ==> Valid() && reply.value.kind == Frames.Error && trace == old(trace) + [Rejected(id)]
    {
      hide RequestLog.Reflects, StartsFresh, RequestLog.Remembered, IsBlank, HexOf, RequestsExact, Accounted, ValidIdentity,
           CancelPending, CancelsHonoured, OnFile, LogsExact, TurnUnrecorded, Flagged;
      IdentityOk(id);
      var requestId := HexId(id);
      var claimed := service.SpawnTurn(SESSION_ID, requestId);
      if claimed.Err? {
        reply := Refuse(id, claimed.error.message);
        return;
      }
      assert unfinished.None?;
      PutOnFile(id, requestId);
      return None;
    }

    /** The claimed turn is put on file and counts as accepted. */
    method PutOnFile(id: RequestId, requestId: string)
      requires service.Valid() && !service.shutdown && (handshaked ==> service.protocolReady)
      requires unfinished.None? && id !in requests && RequestsExact(requests, terminatedOrder, None)
      requires requestId == HexOf(id) && Linked(service.turn, service.lost, service.activeSessions, Some(id), Some(id))
      requires Accounted(trace, executesRead, None) && CancelLinked(trace, None, map[])
      modifies this`trace, this`executesRead, this`requests, this`unfinished
      ensures ValidWith(Some(id)) && trace == old(trace) + [Accepted(id)] && executesRead == old(executesRead) + 1
    {
      hide RequestLog.Reflects, StartsFresh, RequestLog.Remembered, HexOf, Ordered, OpenTurn, Rejections, Terminals,
           CancelPending, CancelsHonoured, OnFile, LogsExact, TurnUnrecorded, Flagged, Linked;
      requests := requests[id := Entry(requestId, false)];
      unfinished := Some(id);
      TraceSnoc(trace, Accepted(id));
      trace := trace + [Accepted(id)];
      executesRead := executesRead + 1;
    }

    /** A builtin runs inside the frame handler: its outputs and its terminal are sent at once. */
    method RunInline(id: RequestId, run: InlineRun)
      requires ValidWith(Some(id)) && activeId.None? && !workerActive
      requires run.Finishes? ==> Answers(run.result)
      requires (SESSION_ID, HexOf(id)) !in service.cancelled.results
      modifies this`trace, this`requests, this`terminatedOrder, this`unfinished, service
      ensures Valid() && RanInline(old(trace), trace, id, run, old(service.sequence))
      ensures service.protocolReady == old(service.protocolReady)
    {
      hide RequestLog.Reflects, StartsFresh, Answers, RequestLog.Remembered, IsBlank, HexOf, RequestsExact, Ordered, OpenTurn,
           Rejections, Terminals, TurnResponses, CancelPending, CancelsHonoured, OnFile, FrameOf, LogsExact, TurnUnrecorded, Flagged;
      match run
      case Panics =>
        var _ := Abandon(id);
        requests, terminatedOrder := Terminate(requests, terminatedOrder, id);
        unfinished := None;
      case Finishes(outputs, result) =>
        for i := 0 to outputs
          invariant ValidWith(Some(id)) && trace == old(trace) + seq(i, _ => OutputSent(id))
          invariant unchanged(service) && unchanged(this`requests, this`terminatedOrder, this`unfinished)
        {
          TraceSnoc(trace, OutputSent(id));
          trace := trace + [OutputSent(id)];
        }
        var _ := Conclude(id, result);
    }

    /** A decodable Cancel is refused exactly when it names a request that is neither the
        running one nor a retained terminated one while a turn is running. One that means
        the running turn raises its flag and puts it on file as cancelled; any other leaves
        the service alone. */
    method OnCancel(id: RequestId, payload: Bytes) returns (reply: Reply)
      requires Valid()
      modifies this`trace, service
      ensures Valid() && reply.requestId == id
      ensures reply.kind == Frames.Error || reply.kind == Frames.CancelAck
      ensures var cancel := Payloads.Decode(Payloads.ReadCancel, payload);
              reply.kind == Frames.Error <==>
              cancel.Err? || (activeId.Some? && cancel.value.target.Some? && cancel.value.target != activeId
                              && !(cancel.value.target.value in requests && requests[cancel.value.target.value].terminated))
      ensures var cancel := Payloads.Decode(Payloads.ReadCancel, payload);
              if cancel.Ok? && activeId.Some? && (cancel.value.target.None? || cancel.value.target == activeId)
              then reply.kind == Frames.CancelAck && trace == old(trace) + [CancelTaken(activeId.value)]
                   && (SESSION_ID, HexOf(activeId.value)) in service.cancelled.results && service.turnCancel == Some(true)
              else trace == old(trace) && unchanged(service)
    {
      hide RequestLog.Reflects, StartsFresh, RequestLog.Remembered, IsBlank, ValidIdentity, HexOf, Payloads.ReadCancel,
           Ordered, OpenTurn, Rejections, Terminals, CancelPending, CancelsHonoured, OnFile;
      var cancel := Payloads.Decode(Payloads.ReadCancel, payload);
      if cancel.Err? {
        return Failure(id, "invalid Cancel payload");
      }
      var target := cancel.value.target;
      if target.Some? && target.value in requests && requests[target.value].terminated {
        return Reply(Frames.CancelAck, id, 0, "");
      }
      if activeId.None? {
        return Reply(Frames.CancelAck, id, 0, "");
      }
      if target.Some? && target != activeId {
        return Failure(id, "cancel target does not match active request");
      }
      assert activeId.value in requests;
      TakeCancel(requests[activeId.value].requestId);
      return Reply(Frames.CancelAck, id, 0, "");
    }

    /** Cancel the running turn; the service cannot refuse. */
    method TakeCancel(requestId: string)
      requires Valid() && activeId.Some? && requestId == HexOf(activeId.value)
      modifies this`trace, service
      ensures Valid() && trace == old(trace) + [CancelTaken(activeId.value)]
      ensures (SESSION_ID, HexOf(activeId.value)) in service.cancelled.results && service.turnCancel == Some(true)
    {
      hide RequestLog.Reflects, StartsFresh, RequestLog.Remembered, IsBlank, ValidIdentity, HexOf, RequestsExact,
           Ordered, OpenTurn, Rejections, Terminals, CancelPending, CancelsHonoured, OnFile;
      IdentityOk(activeId.value);
      var responses := service.CancelActive(SESSION_ID, requestId);
      if responses != [] {
        assert false;
      }
      TraceSnoc(trace, CancelTaken(activeId.value));
      trace := trace + [CancelTaken(activeId.value)];
    }

    /** The handshake opens only with an acknowledged Hello. */
    method OnHello(id: RequestId, payload: Bytes) returns (reply: Reply)
      requires Valid()
      modifies this`handshaked, service
      ensures Valid() && trace == old(trace) && reply.requestId == id
      ensures var hello := Payloads.Decode(Payloads.ReadHello, payload);
              reply.kind == Frames.HelloAck <==> hello.Ok? && !IsBlankText(hello.value.client)
      ensures handshaked <==> old(handshaked) || reply.kind == Frames.HelloAck
    {
      hide RequestLog.Reflects, StartsFresh, RequestLog.Remembered, IsBlank, Payloads.ReadHello, IsBlankText,
           Ordered, OpenTurn, Rejections, Terminals, RequestsExact, CancelPending, CancelsHonoured, OnFile, HexOf;
      var none: TurnResult := Err("");
      var _ := service.Handle(Service.Hello(1), Replies(none, None, None, Err(""), None));
      var hello := Payloads.Decode(Payloads.ReadHello, payload);
      if hello.Err? {
        return Failure(id, "invalid Hello payload");
      }
      if IsBlankText(hello.value.client) {
        return Failure(id, "client is required");
      }
      handshaked := true;
      return Reply(Frames.HelloAck, id, 0, "");
    }

    /** One frame from the peer. Before the handshake everything but Hello is refused. */
    method OnFrame(frame: Frames.Frame, inline: Option<InlineRun>, fs: FsCall) returns (reply: Option<Reply>)
      requires Valid()
      requires inline.Some? && inline.value.Finishes? ==> Answers(inline.value.result)
      modifies this, service
      ensures Valid() && (old(handshaked) ==> handshaked)
      ensures executesRead == old(executesRead) + if frame.kind == Frames.Execute then 1 else 0
      ensures !old(handshaked) && frame.kind != Frames.Hello ==>
                reply.Some? && reply.value.kind == Frames.Error && activeId == old(activeId)
      ensures !old(handshaked) && frame.kind == Frames.Execute ==> trace == old(trace) + [Rejected(frame.requestId)]
      ensures old(handshaked) && frame.kind == Frames.Health ==>
                reply.Some? && (reply.value.kind == Frames.HealthAck <==> Payloads.Decode(Payloads.ReadHealth, frame.payload).Ok?)
      ensures frame.kind !in {Frames.Hello, Frames.Execute, Frames.Cancel, Frames.Health, Frames.Fs} ==>
                reply.Some? && reply.value.kind == Frames.Error
    {
      hide CancelLinked, OnFile, RanInline, Answers, RequestsExact, Linked, Accounted, Ordered, OpenTurn, Rejections, Terminals,
           Payloads.ReadHealth, IsBlankText, StartsFresh, RequestLog.Reflects, RequestLog.Remembered;
      var id := frame.requestId;
      if !handshaked && frame.kind != Frames.Hello {
        if frame.kind == Frames.Execute {
          reply := Refuse(id, "protocol handshake required");
        } else {
          reply := Some(Failure(id, "protocol handshake required"));
        }
      } else if frame.kind == Frames.Hello {
        var r := OnHello(id, frame.payload);
        reply := Some(r);
      } else if frame.kind == Frames.Execute {
        reply := OnExecute(id, frame.payload, inline);
      } else if frame.kind == Frames.Cancel {
        var r := OnCancel(id, frame.payload);
        reply := Some(r);
      } else if frame.kind == Frames.Fs {
        var r, _ := OnFs(id, frame.payload, fs);
        reply := Some(r);
      } else if frame.kind == Frames.Health {
        reply := Some(if Payloads.Decode(Payloads.ReadHealth, frame.payload).Ok? then Reply(Frames.HealthAck, id, 0, "")
                      else Failure(id, "invalid Health payload"));
      } else {
        reply := Some(Failure(id, "unsupported request kind"));
      }
    }

    /** A filesystem request is answered with its result exactly when it decodes, the
        executor is at home and the operation on the normalized path succeeds; so never
        while a turn is active, nor after its worker died. */
    method OnFs(id: RequestId, payload: Bytes, fs: FsCall) returns (reply: Reply, content: Bytes)
      requires Valid()
      ensures reply.requestId == id && (reply.kind == Frames.FsResult || reply.kind == Frames.Error)
      ensures var request := Payloads.Decode(Payloads.ReadFs, payload);
              reply.kind == Frames.FsResult <==>
              request.Ok? && service.protocolReady && service.AtHome()
              && fs(FsRequest(request.value.op, NormalizePath(request.value.path), request.value.data)).Ok?
      ensures reply.kind == Frames.FsResult ==>
                var request := Payloads.Decode(Payloads.ReadFs, payload).value;
                content == fs(FsRequest(request.op, NormalizePath(request.path), request.data)).value
      ensures workerActive || service.Lost() ==> reply.kind == Frames.Error
    {
      hide RequestsExact, Accounted, StartsFresh, RequestLog.Reflects, RequestLog.Remembered, Payloads.ReadFs, NormalizePath;
      var request := Payloads.Decode(Payloads.ReadFs, payload);
      if request.Err? {
        return Failure(id, "invalid Fs payload"), [];
      }
      var r := service.FilesystemRpc(fs(Normalized(request.value)));
      if r.Err? {
        return Failure(id, r.error), [];
      }
      return Reply(Frames.FsResult, id, 0, ""), r.value;
    }
  }

  /** The bytes of the `White_Space` character that starts `text`, 0 if none does. */
  function BlankLen(text: Bytes): (n: nat)
    ensures n <= |text|
  {
    if text == [] then 0
    else if 9 <= text[0] <= 13 || text[0] == 32 then 1
    else if |text| >= 2 && text[0] == 0xC2 && (text[1] == 0x85 || text[1] == 0xA0) then 2
    else if |text| < 3 then 0
    else if text[..3] == [0xE1, 0x9A, 0x80] || text[..3] == [0xE3, 0x80, 0x80] || text[..3] == [0xE2, 0x81, 0x9F] then 3
    else if text[..2] == [0xE2, 0x80] && (0x80 <= text[2] <= 0x8A || text[2] in {0xA8, 0xA9, 0xAF}) then 3
    else 0
  }

  /** `client.trim().is_empty()` on UTF-8 text. */
  predicate IsBlankText(text: Bytes) {
    text == [] || (BlankLen(text) > 0 && IsBlankText(text[BlankLen(text)..]))
  }

  // ---------------------------------------------------------------------------
  // Whole connections.
  // ---------------------------------------------------------------------------

  datatype Input =
    | FrameRead(frame: Frames.Frame, inline: Option<InlineRun>, fs: FsCall)
    | WorkerOutput(id: RequestId, isOutput: bool)
    | WorkerTerminal(result: TurnResult)
    | WorkerPanic

  function ExecuteFrames(inputs: seq<Input>): nat {
    if inputs == [] then 0
    else
      var last := inputs[|inputs| - 1];
      ExecuteFrames(inputs[..|inputs| - 1]) + if last.FrameRead? && last.frame.kind == Frames.Execute then 1 else 0
  }

  /** The serve loop on any input: Execute frames are accounted for, turns do not
      overlap, output stays inside its turn and the request map stays bounded. */
  method Serve(inputs: seq<Input>, executor: Executor) returns (c: Connection)
    requires forall x :: x in inputs && x.WorkerTerminal? ==> Answers(x.result)
    requires forall x :: x in inputs && x.FrameRead? && x.inline.Some? && x.inline.value.Finishes? ==>
               Answers(x.inline.value.result)
    ensures fresh(c) && c.Valid()
    ensures ExecuteFrames(inputs) == Rejections(c.trace) + Terminals(c.trace) + if c.workerActive then 1 else 0
    ensures Ordered(c.trace) && OpenTurn(c.trace) == c.activeId && CancelsHonoured(c.trace)
    ensures |c.requests| <= 65
  {
    hide CancelPending, CancelsHonoured, OnFile, Answers, RequestsExact, Linked, Ordered, OpenTurn, Rejections, Terminals,
         StartsFresh, RequestLog.Reflects, RequestLog.Remembered;
    var service := new RuntimeService(executor);
    c := new Connection(service);
    for i := 0 to |inputs|
      invariant fresh(c) && fresh(c.service) && c.Valid()
      invariant c.executesRead == ExecuteFrames(inputs[..i])
    {
      assert inputs[i] in inputs;
      assert inputs[..i + 1][..i] == inputs[..i];
      match inputs[i]
      case FrameRead(frame, inline, fs) => var _ := c.OnFrame(frame, inline, fs);
      case WorkerOutput(id, isOutput) => c.OnWorkerOutput(id, isOutput);
      case WorkerTerminal(result) =>
        if c.workerActive {
          var _ := c.OnWorkerTerminal(result);
        }
      case WorkerPanic =>
        if c.workerActive {
          var _ := c.OnWorkerPanic();
        }
    }
    assert inputs[..|inputs|] == inputs;
    RequestsBounded(c.requests, c.terminatedOrder, c.unfinished);
  }
}
