/**
 The StreamEvents loop (receiver/grpc.go): limit, validate, check identity,
 save, evaluate, acknowledge. Each turn of the loop carries what the outside
 world did in it: the clock reading, the outcome of the writes, the alerts that
 were raised, and whether the acknowledgement could be sent.
 */
module StreamIngest {
  import opened Bytes
  import opened Options
  import opened RateLimiter
  import Tokens = AgentTokens
  import Notify = Dispatcher

  const RATE := 2000.0
  const BURST := 4000.0
  const MAX_FIELD_LENGTH := 256

  datatype EventType = Exec | Tcp | File | Unknown(code: int)

  datatype Payload =
    | NoPayload
    | ExecPayload(comm: Key, cmdline: Key, cwd: Key)
    | TcpPayload(comm: Key, direction: Key, srcIP: Key, dstIP: Key)
    | FilePayload(comm: Key, path: Key, op: Key)

  datatype KernelEvent = KernelEvent(eventID: Key, nodeID: Key, kind: EventType, payload: Payload)

  // ----- validation

  predicate PrintableAscii(s: Key) {
    forall i :: 0 <= i < |s| ==> 0x20 <= s[i] <= 0x7e
  }

  predicate ValidField(f: Key) {
    |f| <= MAX_FIELD_LENGTH && PrintableAscii(f)
  }

  /** The first violation ends the scan of the fields. */
  predicate ValidFields(fields: seq<Key>) {
    fields == [] || (ValidField(fields[0]) && ValidFields(fields[1..]))
  }

  predicate ValidIP(value: Key, parsesIP: Key -> bool) {
    value == [] || (|value| <= MAX_FIELD_LENGTH && parsesIP(value))
  }

  /** The payload's free-form fields; a payload of another kind than the event's type is ignored. */
  function Fields(e: KernelEvent): seq<Key> {
    [e.nodeID, e.eventID] +
    match (e.kind, e.payload)
    case (Exec, ExecPayload(comm, cmdline, cwd)) => [comm, cmdline, cwd]
    case (Tcp, TcpPayload(comm, direction, _, _)) => [comm, direction]
    case (File, FilePayload(comm, path, op)) => [comm, path, op]
    case _ => []
  }

  predicate ValidEvent(e: KernelEvent, parsesIP: Key -> bool) {
    && ValidFields(Fields(e))
    && (e.kind.Tcp? && e.payload.TcpPayload? ==>
          ValidIP(e.payload.srcIP, parsesIP) && ValidIP(e.payload.dstIP, parsesIP))
  }

  lemma {:induction false} ValidFieldsAll(fields: seq<Key>)
    ensures ValidFields(fields) <==> forall i :: 0 <= i < |fields| ==> ValidField(fields[i])
  {
    if fields != [] {
      ValidFieldsAll(fields[1..]);
      assert forall i :: 0 < i < |fields| ==> fields[i] == fields[1..][i - 1];
    }
  }

  /** Validation alone makes the ids of an event safe to use in keys. */
  lemma ValidIdsAreNulFree(e: KernelEvent, parsesIP: Key -> bool)
    requires ValidEvent(e, parsesIP)
    ensures NulFree(e.nodeID) && NulFree(e.eventID)
  {
    ValidFieldsAll(Fields(e));
    assert Fields(e)[0] == e.nodeID && Fields(e)[1] == e.eventID;
  }

  /** At most 256 bytes of printable ASCII. */
  predicate Plain(f: Key) {
    |f| <= 256 && forall b <- f :: 32 <= b <= 126
  }

  /** An address is left empty, or is short and parses. */
  predicate Address(a: Key, parsesIP: Key -> bool) {
    a == [] || (|a| <= 256 && parsesIP(a))
  }

  /** What the collector accepts of an event, field by field. */
  predicate Proper(e: KernelEvent, parsesIP: Key -> bool) {
    && Plain(e.nodeID) && Plain(e.eventID)
    && (e.kind.Exec? && e.payload.ExecPayload? ==>
          Plain(e.payload.comm) && Plain(e.payload.cmdline) && Plain(e.payload.cwd))
    && (e.kind.Tcp? && e.payload.TcpPayload? ==>
          && Plain(e.payload.comm) && Plain(e.payload.direction)
          && Address(e.payload.srcIP, parsesIP) && Address(e.payload.dstIP, parsesIP))
    && (e.kind.File? && e.payload.FilePayload? ==>
          Plain(e.payload.comm) && Plain(e.payload.path) && Plain(e.payload.op))
  }

  lemma ValidFieldIsPlain(f: Key)
    ensures ValidField(f) <==> Plain(f)
  {
    assert forall i :: 0 <= i < |f| ==> f[i] in f;
  }

  lemma FieldsAre(fields: seq<Key>, listed: seq<Key>)
    requires fields == listed
    ensures ValidFields(fields) <==> forall i :: 0 <= i < |listed| ==> Plain(listed[i])
  {
    ValidFieldsAll(fields);
    forall i | 0 <= i < |listed|
      ensures ValidField(fields[i]) <==> Plain(listed[i])
    {
      ValidFieldIsPlain(fields[i]);
    }
  }

  /** Validation accepts exactly the proper events. */
  lemma ValidIffProper(e: KernelEvent, parsesIP: Key -> bool)
    ensures ValidEvent(e, parsesIP) <==> Proper(e, parsesIP)
  {
    match (e.kind, e.payload) {
      case (Exec, ExecPayload(comm, cmdline, cwd)) =>
        var listed := [e.nodeID, e.eventID, comm, cmdline, cwd];
        FieldsAre(Fields(e), listed);
        assert Plain(listed[0]) == Plain(e.nodeID) && Plain(listed[1]) == Plain(e.eventID);
        assert Plain(listed[2]) == Plain(comm) && Plain(listed[3]) == Plain(cmdline) && Plain(listed[4]) == Plain(cwd);
      case (Tcp, TcpPayload(comm, direction, _, _)) =>
        var listed := [e.nodeID, e.eventID, comm, direction];
        FieldsAre(Fields(e), listed);
        assert Plain(listed[0]) == Plain(e.nodeID) && Plain(listed[1]) == Plain(e.eventID);
        assert Plain(listed[2]) == Plain(comm) && Plain(listed[3]) == Plain(direction);
      case (File, FilePayload(comm, path, op)) =>
        var listed := [e.nodeID, e.eventID, comm, path, op];
        FieldsAre(Fields(e), listed);
        assert Plain(listed[0]) == Plain(e.nodeID) && Plain(listed[1]) == Plain(e.eventID);
        assert Plain(listed[2]) == Plain(comm) && Plain(listed[3]) == Plain(path) && Plain(listed[4]) == Plain(op);
      case _ =>
        var listed := [e.nodeID, e.eventID];
        FieldsAre(Fields(e), listed);
        assert Plain(listed[0]) == Plain(e.nodeID) && Plain(listed[1]) == Plain(e.eventID);
    }
  }

  // ----- one turn

  /** An alert the engine or the detector raised for the event, and whether it could be saved. */
  datatype Raised = Raised(ruleID: Key, saved: bool)

  /** An alert handed to the dispatcher. */
  datatype Notice = Notice(ruleID: Key, nodeID: Key)

  datatype Turn =
    | Done                     // the stream's context is done
    | Eof
    | RecvError
    | Got(event: KernelEvent, now: real, saved: bool, alerts: seq<Raised>, sendOk: bool)

  datatype Ending = Ended | Cancelled | RecvFailed | SendFailed

  predicate IdentityOk(authed: Key, e: KernelEvent) {
    authed == [] || e.nodeID == authed
  }

  predicate AllSaved(turn: Turn)
    requires turn.Got?
  {
    turn.saved && forall i :: 0 <= i < |turn.alerts| ==> turn.alerts[i].saved
  }

  predicate AllGot(turns: seq<Turn>) {
    forall i :: 0 <= i < |turns| ==> turns[i].Got?
  }

  /** The limiter's run: creation, then one call for every event received. */
  function Instants(start: real, turns: seq<Turn>): seq<real>
    requires AllGot(turns)
  {
    [start] + seq(|turns|, i requires 0 <= i < |turns| => turns[i].now)
  }

  /**
   The limiter's answers to the received events. They depend on the times of the
   events and on nothing else about them: a rejected event spends like any other.
   */
  function Admits(start: real, turns: seq<Turn>): (admits: seq<bool>)
    requires AllGot(turns)
    ensures |admits| == |turns|
  {
    Answers(Instants(start, turns), RATE, BURST)[1..]
  }

  /** Each answer is that of the window specification of the rate limiter. */
  lemma AdmitsByWindows(start: real, turns: seq<Turn>)
    requires AllGot(turns)
    ensures ByWindows(Instants(start, turns), [false] + Admits(start, turns), 2000.0, 4000.0)
  {
    var answers := Answers(Instants(start, turns), RATE, BURST);
    AnswersByWindows(Instants(start, turns), RATE, BURST);
    assert [false] + answers[1..] == answers;
  }

  /** The event gets past the limiter, validation and the identity check. */
  predicate Accepted(admitted: bool, e: KernelEvent, authed: Key, parsesIP: Key -> bool) {
    admitted && ValidEvent(e, parsesIP) && IdentityOk(authed, e)
  }

  /** The accepted events, in order. */
  function Saves(admits: seq<bool>, turns: seq<Turn>, authed: Key, parsesIP: Key -> bool): seq<KernelEvent>
    requires |admits| == |turns| && AllGot(turns)
  {
    if turns == [] then []
    else
      var k := |turns| - 1;
      Saves(admits[..k], turns[..k], authed, parsesIP)
        + if Accepted(admits[k], turns[k].event, authed, parsesIP) then [turns[k].event] else []
  }

  /** One notice per alert; an alert that could not be saved is handed on all the same. */
  function NoticesOf(nodeID: Key, alerts: seq<Raised>): (ns: seq<Notice>)
    ensures |ns| == |alerts| && forall i :: 0 <= i < |ns| ==> ns[i].ruleID == alerts[i].ruleID && ns[i].nodeID == nodeID
  {
    seq(|alerts|, i requires 0 <= i < |alerts| => Notice(alerts[i].ruleID, nodeID))
  }

  /** The notices of the accepted events, in order. */
  function Notices(admits: seq<bool>, turns: seq<Turn>, authed: Key, parsesIP: Key -> bool): seq<Notice>
    requires |admits| == |turns| && AllGot(turns)
  {
    if turns == [] then []
    else
      var k := |turns| - 1;
      Notices(admits[..k], turns[..k], authed, parsesIP)
        + if Accepted(admits[k], turns[k].event, authed, parsesIP)
          then NoticesOf(turns[k].event.nodeID, turns[k].alerts) else []
  }

  lemma {:induction false} SavesAreAuthentic(admits: seq<bool>, turns: seq<Turn>, authed: Key, parsesIP: Key -> bool)
    requires |admits| == |turns| && AllGot(turns) && authed != []
    ensures forall e <- Saves(admits, turns, authed, parsesIP) :: e.nodeID == authed
  {
    if turns != [] {
      var k := |turns| - 1;
      SavesAreAuthentic(admits[..k], turns[..k], authed, parsesIP);
    }
  }

  /** Every alert handed on carries a NUL-free node id. */
  lemma {:induction false} NoticesAreNulFree(admits: seq<bool>, turns: seq<Turn>, authed: Key, parsesIP: Key -> bool)
    requires |admits| == |turns| && AllGot(turns)
    ensures forall n <- Notices(admits, turns, authed, parsesIP) :: NulFree(n.nodeID)
  {
    if turns != [] {
      var k := |turns| - 1;
      NoticesAreNulFree(admits[..k], turns[..k], authed, parsesIP);
      if Accepted(admits[k], turns[k].event, authed, parsesIP) {
        ValidIdsAreNulFree(turns[k].event, parsesIP);
      }
    }
  }

  /** Alerts of any two streams that share a cooldown share their rule and their node. */
  lemma StreamsNeverShareCooldowns(admits: seq<bool>, turns: seq<Turn>, authed: Key,
                                   admits': seq<bool>, turns': seq<Turn>, authed': Key,
                                   parsesIP: Key -> bool, n: Notice, n': Notice)
    requires |admits| == |turns| && AllGot(turns) && n in Notices(admits, turns, authed, parsesIP)
    requires |admits'| == |turns'| && AllGot(turns') && n' in Notices(admits', turns', authed', parsesIP)
    ensures Notify.CooldownKey(n.ruleID, n.nodeID) == Notify.CooldownKey(n'.ruleID, n'.nodeID) <==> n == n'
  {
    NoticesAreNulFree(admits, turns, authed, parsesIP);
    NoticesAreNulFree(admits', turns', authed', parsesIP);
    if Notify.CooldownKey(n.ruleID, n.nodeID) == Notify.CooldownKey(n'.ruleID, n'.nodeID) {
      Notify.CooldownKeyInjective(n.ruleID, n.nodeID, n'.ruleID, n'.nodeID);
    }
  }

  /** The acknowledgements answer the events in order, each with its exact meaning. */
  ghost predicate AcksAnswer(admits: seq<bool>, turns: seq<Turn>, authed: Key, parsesIP: Key -> bool, acks: seq<bool>) {
    && |acks| <= |admits| == |turns| && AllGot(turns)
    && forall k {:trigger AckAnswers(admits, turns, authed, parsesIP, acks, k)} ::
         0 <= k < |acks| ==> AckAnswers(admits, turns, authed, parsesIP, acks, k)
  }

  ghost predicate AckAnswers(admits: seq<bool>, turns: seq<Turn>, authed: Key, parsesIP: Key -> bool,
                             acks: seq<bool>, k: int)
    requires 0 <= k < |acks| <= |admits| == |turns| && AllGot(turns)
  {
    acks[k] <==> Accepted(admits[k], turns[k].event, authed, parsesIP) && AllSaved(turns[k])
  }

  // ----- the loop

  /** One received event that the limiter has answered: save, evaluate, notify. */
  method Handle(turn: Turn, admitted: bool, authed: Key, parsesIP: Key -> bool)
    returns (saves: bool, ok: bool, notified: seq<Notice>)
    requires turn.Got?
    ensures saves <==> Accepted(admitted, turn.event, authed, parsesIP)
    ensures ok <==> saves && AllSaved(turn)
    ensures notified == if saves then NoticesOf(turn.event.nodeID, turn.alerts) else []
  {
    saves, ok, notified := false, false, [];
    if !admitted {
      return;
    }
    if !ValidEvent(turn.event, parsesIP) {
      return;
    }
    if authed != [] && turn.event.nodeID != authed {
      return;
    }
    saves, ok := true, turn.saved;
    for i := 0 to |turn.alerts|
      invariant ok <==> turn.saved && forall j :: 0 <= j < i ==> turn.alerts[j].saved
      invariant notified == NoticesOf(turn.event.nodeID, turn.alerts[..i])
    {
      if !turn.alerts[i].saved {
        ok := false;
      }
      notified := notified + [Notice(turn.alerts[i].ruleID, turn.event.nodeID)];
    }
    assert turn.alerts[..|turn.alerts|] == turn.alerts;
  }

  /** What has been answered, saved and notified after reading some events. */
  ghost predicate Progress(admits: seq<bool>, turns: seq<Turn>, authed: Key, parsesIP: Key -> bool,
                           acks: seq<bool>, saved: seq<KernelEvent>, notified: seq<Notice>)
  {
    && AcksAnswer(admits, turns, authed, parsesIP, acks)
    && saved == Saves(admits, turns, authed, parsesIP)
    && notified == Notices(admits, turns, authed, parsesIP)
  }

  /** The stream's limiter after some events. */
  ghost predicate LimiterAfter(limiter: TokenBucket, start: real, turns: seq<Turn>, admits: seq<bool>)
    requires AllGot(turns)
    reads limiter
  {
    && limiter.Valid() && limiter.rate == RATE && limiter.max == BURST
    && limiter.times == Instants(start, turns) && Answers(limiter.times, RATE, BURST) == [false] + admits
  }

  lemma StreamBegins(turns: seq<Turn>, authed: Key, parsesIP: Key -> bool, start: real)
    requires turns == []
    ensures Progress([], turns, authed, parsesIP, [], [], [])
    ensures Instants(start, turns) == [start] && Answers([start], RATE, BURST) == [false] + []
  {
  }

  lemma AdmitsSoFar(limiter: TokenBucket, start: real, turns: seq<Turn>, admits: seq<bool>)
    requires AllGot(turns) && LimiterAfter(limiter, start, turns, admits)
    ensures admits == Admits(start, turns)
  {
  }

  /** The loop after reading some events: only a failed send leaves the last one unanswered. */
  ghost predicate Reading(turns: seq<Turn>, read: nat, sendFailed: bool, authed: Key, parsesIP: Key -> bool,
                          admits: seq<bool>, acks: seq<bool>, saved: seq<KernelEvent>, notified: seq<Notice>)
  {
    && read <= |turns| && AllGot(turns[..read])
    && Progress(admits, turns[..read], authed, parsesIP, acks, saved, notified)
    && if sendFailed then read > 0 && |acks| == read - 1 && !turns[read - 1].sendOk else |acks| == read
  }

  /** One received event, from the limiter to the acknowledgement. */
  method Receive(limiter: TokenBucket, ghost start: real, turns: seq<Turn>, k: nat, authed: Key, parsesIP: Key -> bool,
                 ghost admits: seq<bool>, acks: seq<bool>, saved: seq<KernelEvent>, notified: seq<Notice>)
    returns (sendFailed: bool, ghost admits': seq<bool>, acks': seq<bool>,
             saved': seq<KernelEvent>, notified': seq<Notice>)
    requires k < |turns| && turns[k].Got?
    requires Reading(turns, k, false, authed, parsesIP, admits, acks, saved, notified)
    requires LimiterAfter(limiter, start, turns[..k], admits)
    modifies limiter
    ensures Reading(turns, k + 1, sendFailed, authed, parsesIP, admits', acks', saved', notified')
    ensures LimiterAfter(limiter, start, turns[..k + 1], admits')
  {
    var admitted := limiter.Allow(turns[k].now);
    var saves, ok, alerts := Handle(turns[k], admitted, authed, parsesIP);
    TurnExtends(start, turns, k, authed, parsesIP, admits, admitted, acks, saved, notified);
    admits' := admits + [admitted];
    AnswersExtend(admits, admitted);
    sendFailed := !turns[k].sendOk;
    acks' := if sendFailed then acks else acks + [ok];
    saved' := if saves then saved + [turns[k].event] else saved;
    notified' := notified + alerts;
  }

  lemma AnswersExtend(admits: seq<bool>, admitted: bool)
    ensures [false] + (admits + [admitted]) == ([false] + admits) + [admitted]
  {
  }

  /**
   Runs the loop over `turns`, which must end it. `read` is the number of events
   received; `saved` lists the events that were heartbeat for and handed to the
   store, `notified` the alerts handed to the dispatcher.
   */
  method StreamEvents(turns: seq<Turn>, authed: Key, parsesIP: Key -> bool, start: real)
    returns (acks: seq<bool>, read: nat, saved: seq<KernelEvent>, notified: seq<Notice>, ending: Ending)
    requires turns != [] && !turns[|turns| - 1].Got?
    ensures read <= |turns| && AllGot(turns[..read])
    ensures Progress(Admits(start, turns[..read]), turns[..read], authed, parsesIP, acks, saved, notified)
    ensures if ending == SendFailed then read > 0 && |acks| == read - 1 && !turns[read - 1].sendOk
            else |acks| == read < |turns| && !turns[read].Got? && ending == EndOf(turns[read])
  {
    var limiter := new TokenBucket(RATE, BURST, start);
    StreamBegins(turns[..0], authed, parsesIP, start);
    var sendFailed;
    ghost var admits;
    sendFailed, admits, read, acks, saved, notified := ReadAll(limiter, start, turns, authed, parsesIP);
    ending := if sendFailed then SendFailed else EndOf(turns[read]);
    AdmitsSoFar(limiter, start, turns[..read], admits);
  }

  /** The loop itself: it ends with the first turn that brings no event, or with a send that fails. */
  method ReadAll(limiter: TokenBucket, ghost start: real, turns: seq<Turn>, authed: Key, parsesIP: Key -> bool)
    returns (sendFailed: bool, ghost admits: seq<bool>, read: nat, acks: seq<bool>,
             saved: seq<KernelEvent>, notified: seq<Notice>)
    requires turns != [] && !turns[|turns| - 1].Got? && LimiterAfter(limiter, start, turns[..0], [])
    modifies limiter
    ensures Reading(turns, read, sendFailed, authed, parsesIP, admits, acks, saved, notified)
    ensures LimiterAfter(limiter, start, turns[..read], admits)
    ensures !sendFailed ==> read < |turns| && !turns[read].Got?
  {
    sendFailed, admits, read, acks, saved, notified := false, [], 0, [], [], [];
    StreamBegins(turns[..0], authed, parsesIP, start);
    while !sendFailed && turns[read].Got?
      invariant Reading(turns, read, sendFailed, authed, parsesIP, admits, acks, saved, notified)
      invariant LimiterAfter(limiter, start, turns[..read], admits)
      invariant !sendFailed ==> read < |turns|
      decreases |turns| - read, !sendFailed
    {
      sendFailed, admits, acks, saved, notified :=
        Receive(limiter, start, turns, read, authed, parsesIP, admits, acks, saved, notified);
      read := read + 1;
    }
  }

  /** How a stream ends when the next turn brings no event. */
  function EndOf(turn: Turn): Ending {
    match turn
    case Done => Cancelled
    case Eof => Ended
    case _ => RecvFailed
  }

  lemma AcksStay(admits: seq<bool>, turns: seq<Turn>, k: nat, authed: Key, parsesIP: Key -> bool, admitted: bool,
                 acks: seq<bool>, more: seq<bool>)
    requires k < |turns| && AllGot(turns[..k + 1]) && |acks| == k && |more| <= 1
    requires AcksAnswer(admits, turns[..k], authed, parsesIP, acks)
    requires more == [] || more[0] == (Accepted(admitted, turns[k].event, authed, parsesIP) && AllSaved(turns[k]))
    ensures AcksAnswer(admits + [admitted], turns[..k + 1], authed, parsesIP, acks + more)
  {
    var admits', turns', acks' := admits + [admitted], turns[..k + 1], acks + more;
    forall i | 0 <= i < |acks'|
      ensures AckAnswers(admits', turns', authed, parsesIP, acks', i)
    {
      if i < k {
        assert AckAnswers(admits, turns[..k], authed, parsesIP, acks, i);
      }
    }
  }

  /** How the specification grows by one received event. */
  lemma TurnExtends(start: real, turns: seq<Turn>, k: nat, authed: Key, parsesIP: Key -> bool,
                    admits: seq<bool>, admitted: bool, acks: seq<bool>, saved: seq<KernelEvent>, notified: seq<Notice>)
    requires k < |turns| && turns[k].Got? && AllGot(turns[..k]) && |acks| == k
    requires Progress(admits, turns[..k], authed, parsesIP, acks, saved, notified)
    ensures AllGot(turns[..k + 1])
    ensures Instants(start, turns[..k + 1]) == Instants(start, turns[..k]) + [turns[k].now]
    ensures var e := turns[k].event;
      var accepted := Accepted(admitted, e, authed, parsesIP);
      var saved' := if accepted then saved + [e] else saved;
      var notified' := notified + if accepted then NoticesOf(e.nodeID, turns[k].alerts) else [];
      && Progress(admits + [admitted], turns[..k + 1], authed, parsesIP, acks, saved', notified')
      && Progress(admits + [admitted], turns[..k + 1], authed, parsesIP,
                  acks + [accepted && AllSaved(turns[k])], saved', notified')
  {
    assert turns[..k + 1] == turns[..k] + [turns[k]];
    assert turns[..k + 1][..k] == turns[..k] && (admits + [admitted])[..k] == admits;
    var ok := Accepted(admitted, turns[k].event, authed, parsesIP) && AllSaved(turns[k]);
    AcksStay(admits, turns, k, authed, parsesIP, admitted, acks, []);
    assert acks + [] == acks;
    AcksStay(admits, turns, k, authed, parsesIP, admitted, acks, [ok]);
  }

  // ----- what a stream run means, event by event

  /** Event k of the stream gets past the limiter, is proper and of the right identity. */
  ghost predicate Due(admits: seq<bool>, turns: seq<Turn>, authed: Key, parsesIP: Key -> bool, k: nat) {
    && k < |admits| == |turns| && turns[k].Got?
    && admits[k] && Proper(turns[k].event, parsesIP) && (authed == [] || turns[k].event.nodeID == authed)
  }

  lemma AcceptedIffDue(admits: seq<bool>, turns: seq<Turn>, authed: Key, parsesIP: Key -> bool, k: nat)
    requires |admits| == |turns| && AllGot(turns) && k < |turns|
    ensures Accepted(admits[k], turns[k].event, authed, parsesIP) <==> Due(admits, turns, authed, parsesIP, k)
  {
    ValidIffProper(turns[k].event, parsesIP);
  }

  lemma DuePrefix(admits: seq<bool>, turns: seq<Turn>, authed: Key, parsesIP: Key -> bool, n: nat, k: nat)
    requires |admits| == |turns| && k < n <= |turns|
    ensures Due(admits[..n], turns[..n], authed, parsesIP, k) <==> Due(admits, turns, authed, parsesIP, k)
  {
  }

  ghost predicate Increasing(f: seq<nat>, bound: nat) {
    (forall i :: 0 <= i < |f| ==> f[i] < bound) && forall i, j :: 0 <= i < j < |f| ==> f[i] < f[j]
  }

  /** f names the positions of the due events, all of them and in order. */
  ghost predicate NamesDue(f: seq<nat>, admits: seq<bool>, turns: seq<Turn>, authed: Key, parsesIP: Key -> bool) {
    Increasing(f, |turns|) && forall k: nat :: k < |turns| ==> (k in f <==> Due(admits, turns, authed, parsesIP, k))
  }

  lemma NamesDueMore(g: seq<nat>, admits: seq<bool>, turns: seq<Turn>, authed: Key, parsesIP: Key -> bool, f: seq<nat>)
    requires |admits| == |turns| && turns != []
    requires NamesDue(g, admits[..|turns| - 1], turns[..|turns| - 1], authed, parsesIP)
    requires f == if Due(admits, turns, authed, parsesIP, |turns| - 1) then g + [|turns| - 1] else g
    ensures NamesDue(f, admits, turns, authed, parsesIP)
  {
    forall k: nat | k < |turns|
      ensures k in f <==> Due(admits, turns, authed, parsesIP, k)
    {
      if k < |turns| - 1 {
        DuePrefix(admits, turns, authed, parsesIP, |turns| - 1, k);
      }
    }
  }

  /** The saved events are exactly the due ones, in order of arrival. */
  lemma {:induction false} SavesMean(admits: seq<bool>, turns: seq<Turn>, authed: Key, parsesIP: Key -> bool)
    returns (f: seq<nat>)
    requires |admits| == |turns| && AllGot(turns)
    ensures NamesDue(f, admits, turns, authed, parsesIP)
    ensures var saved := Saves(admits, turns, authed, parsesIP);
      |f| == |saved| && forall i :: 0 <= i < |f| ==> saved[i] == turns[f[i]].event
  {
    if turns == [] {
      f := [];
    } else {
      var n := |turns| - 1;
      var g := SavesMean(admits[..n], turns[..n], authed, parsesIP);
      AcceptedIffDue(admits, turns, authed, parsesIP, n);
      f := if Due(admits, turns, authed, parsesIP, n) then g + [n] else g;
      NamesDueMore(g, admits, turns, authed, parsesIP, f);
    }
  }

  /** Alert number `alert` of event number `turn`. */
  datatype Spot = Spot(turn: nat, alert: nat)

  predicate Before(a: Spot, b: Spot) {
    a.turn < b.turn || (a.turn == b.turn && a.alert < b.alert)
  }

  ghost predicate InOrder(g: seq<Spot>) {
    forall i, j :: 0 <= i < j < |g| ==> Before(g[i], g[j])
  }

  ghost predicate DueSpot(admits: seq<bool>, turns: seq<Turn>, authed: Key, parsesIP: Key -> bool, x: Spot) {
    Due(admits, turns, authed, parsesIP, x.turn) && x.alert < |turns[x.turn].alerts|
  }

  /** g names the alerts of the due events, all of them and in order. */
  ghost predicate NamesSpots(g: seq<Spot>, admits: seq<bool>, turns: seq<Turn>, authed: Key, parsesIP: Key -> bool) {
    && InOrder(g)
    && forall x {:trigger DueSpot(admits, turns, authed, parsesIP, x)} ::
         x in g <==> DueSpot(admits, turns, authed, parsesIP, x)
  }

  /** The notice is about this alert: its rule, and the node of the event that raised it. */
  ghost predicate IsNotice(turns: seq<Turn>, x: Spot, n: Notice) {
    && x.turn < |turns| && turns[x.turn].Got? && x.alert < |turns[x.turn].alerts|
    && n.ruleID == turns[x.turn].alerts[x.alert].ruleID && n.nodeID == turns[x.turn].event.nodeID
  }

  /** Notice i is that of alert g[i]. */
  ghost predicate Tells(g: seq<Spot>, turns: seq<Turn>, ns: seq<Notice>) {
    |g| == |ns| && forall i {:trigger IsNotice(turns, g[i], ns[i])} :: 0 <= i < |g| ==> IsNotice(turns, g[i], ns[i])
  }

  function SpotsOf(n: nat, count: nat): (g: seq<Spot>)
    ensures |g| == count && forall i :: 0 <= i < count ==> g[i] == Spot(n, i)
  {
    seq(count, i requires 0 <= i < count => Spot(n, i))
  }

  lemma TellsOn(g: seq<Spot>, turns: seq<Turn>, n: nat, ns: seq<Notice>)
    requires n <= |turns| && Tells(g, turns[..n], ns)
    ensures Tells(g, turns, ns)
  {
    forall i | 0 <= i < |g|
      ensures IsNotice(turns, g[i], ns[i])
    {
      assert IsNotice(turns[..n], g[i], ns[i]);
    }
  }

  lemma TellsMore(g: seq<Spot>, turns: seq<Turn>, n: nat, ns: seq<Notice>)
    requires n < |turns| && turns[n].Got? && Tells(g, turns, ns)
    ensures Tells(g + SpotsOf(n, |turns[n].alerts|), turns, ns + NoticesOf(turns[n].event.nodeID, turns[n].alerts))
  {
    var g', ns' := g + SpotsOf(n, |turns[n].alerts|), ns + NoticesOf(turns[n].event.nodeID, turns[n].alerts);
    forall i | 0 <= i < |g'|
      ensures IsNotice(turns, g'[i], ns'[i])
    {
      if i < |g| {
        assert IsNotice(turns, g[i], ns[i]);
      }
    }
  }

  lemma TellsEither(g: seq<Spot>, turns: seq<Turn>, n: nat, ns: seq<Notice>, due: bool, g': seq<Spot>, ns': seq<Notice>)
    requires n + 1 == |turns| && turns[n].Got? && Tells(g, turns[..n], ns)
    requires g' == if due then g + SpotsOf(n, |turns[n].alerts|) else g
    requires ns' == if due then ns + NoticesOf(turns[n].event.nodeID, turns[n].alerts) else ns
    ensures Tells(g', turns, ns')
  {
    TellsOn(g, turns, n, ns);
    TellsMore(g, turns, n, ns);
  }

  lemma SpotsMore(g: seq<Spot>, admits: seq<bool>, turns: seq<Turn>, authed: Key, parsesIP: Key -> bool, f: seq<Spot>)
    requires |admits| == |turns| && turns != [] && AllGot(turns)
    requires var n := |turns| - 1;
      && NamesSpots(g, admits[..n], turns[..n], authed, parsesIP)
      && f == if Due(admits, turns, authed, parsesIP, n) then g + SpotsOf(n, |turns[n].alerts|) else g
    ensures NamesSpots(f, admits, turns, authed, parsesIP)
  {
    var n := |turns| - 1;
    forall i | 0 <= i < |g|
      ensures g[i].turn < n
    {
      assert g[i] in g && DueSpot(admits[..n], turns[..n], authed, parsesIP, g[i]);
    }
    forall x: Spot
      ensures x in f <==> DueSpot(admits, turns, authed, parsesIP, x)
    {
      assert x in g <==> DueSpot(admits[..n], turns[..n], authed, parsesIP, x);
      if x.turn < n {
        DuePrefix(admits, turns, authed, parsesIP, n, x.turn);
      } else if x.turn == n && Due(admits, turns, authed, parsesIP, n) && x.alert < |turns[n].alerts| {
        assert SpotsOf(n, |turns[n].alerts|)[x.alert] == x;
      }
    }
  }

  /** The dispatched alerts are exactly those the due events raised, each once, in order. */
  lemma {:induction false} NoticesMean(admits: seq<bool>, turns: seq<Turn>, authed: Key, parsesIP: Key -> bool)
    returns (g: seq<Spot>)
    requires |admits| == |turns| && AllGot(turns)
    ensures NamesSpots(g, admits, turns, authed, parsesIP)
    ensures Tells(g, turns, Notices(admits, turns, authed, parsesIP))
  {
    if turns == [] {
      g := [];
    } else {
      var n := |turns| - 1;
      var before := NoticesMean(admits[..n], turns[..n], authed, parsesIP);
      AcceptedIffDue(admits, turns, authed, parsesIP, n);
      g := if Due(admits, turns, authed, parsesIP, n) then before + SpotsOf(n, |turns[n].alerts|) else before;
      TellsEither(before, turns, n, Notices(admits[..n], turns[..n], authed, parsesIP),
                  Due(admits, turns, authed, parsesIP, n), g, Notices(admits, turns, authed, parsesIP));
      SpotsMore(before, admits, turns, authed, parsesIP, g);
    }
  }

  /** Acknowledgement k is true exactly when event k was due and it and every alert it raised were saved. */
  lemma AcksMean(admits: seq<bool>, turns: seq<Turn>, authed: Key, parsesIP: Key -> bool, acks: seq<bool>, k: nat)
    requires AcksAnswer(admits, turns, authed, parsesIP, acks) && k < |acks|
    ensures acks[k] <==> Due(admits, turns, authed, parsesIP, k) && turns[k].saved
                         && forall a <- turns[k].alerts :: a.saved
  {
    AcceptedIffDue(admits, turns, authed, parsesIP, k);
    assert AckAnswers(admits, turns, authed, parsesIP, acks, k);
    assert forall i :: 0 <= i < |turns[k].alerts| ==> turns[k].alerts[i] in turns[k].alerts;
  }

  // ----- authenticated streams

  /** The token command refuses to issue for an empty node id. */
  ghost predicate Guarded(ops: seq<Tokens.Op>) {
    forall i :: 0 <= i < |ops| && ops[i].Issue? ==> ops[i].nodeID != []
  }

  lemma CurrentIsNonEmpty(hash: Tokens.Hash, ops: seq<Tokens.Op>, token: Key, n: Key)
    requires Guarded(ops) && Tokens.Current(hash, ops, token, n)
    ensures n != []
  {
    var i: nat :| Tokens.LatestIssue(hash, ops, i, n) && ops[i].token == token && !Tokens.RevokedSince(ops, i, n);
  }

  /**
   A stream behind the auth interceptor: every event it saves carries the node id
   that the presented token was last issued for.
   */
  method ServeStream(store: Tokens.TokenStore, ghost ops: seq<Tokens.Op>,
                     authEnabled: bool, header: Option<seq<Key>>, readable: bool,
                     turns: seq<Turn>, parsesIP: Key -> bool, start: real)
    returns (auth: Tokens.Auth, saved: seq<KernelEvent>)
    requires Tokens.CollisionFree(store.hash) && Tokens.FreshTokens(ops) && Guarded(ops)
    requires store.recs == Tokens.Exec(store.hash, ops)
    requires turns != [] && !turns[|turns| - 1].Got?
    ensures auth.Unauthenticated? || auth.LookupFailed? ==> saved == []
    ensures auth.Disabled? <==> !authEnabled
    ensures auth.Authenticated? ==>
      && Tokens.Bearer(header) && Tokens.Current(store.hash, ops, Tokens.TokenOf(header), auth.nodeID)
      && forall e <- saved :: e.nodeID == auth.nodeID
  {
    auth := Tokens.CheckAuth(store, authEnabled, header, readable);
    saved := [];
    if auth.Unauthenticated? || auth.LookupFailed? {
      return;
    }
    var authed := if auth.Authenticated? then auth.nodeID else [];
    var acks, read, notified, ending;
    acks, read, saved, notified, ending := StreamEvents(turns, authed, parsesIP, start);
    if auth.Authenticated? {
      ghost var token := Tokens.TokenOf(header);
      Tokens.LookupIsExact(store.hash, ops, token, Some(authed), authed);
      CurrentIsNonEmpty(store.hash, ops, token, authed);
      SavesAreAuthentic(Admits(start, turns[..read]), turns[..read], authed, parsesIP);
    }
  }

  /** Whatever is received, only events of the given node are saved. */
  ghost predicate Binds(authed: Key, parsesIP: Key -> bool) {
    forall admits, turns :: |admits| == |turns| && AllGot(turns) ==>
      forall e <- Saves(admits, turns, authed, parsesIP) :: e.nodeID == authed
  }

  /** The identity check binds a stream to its node exactly when the identity is not empty. */
  lemma BindsIffNonEmpty(authed: Key, parsesIP: Key -> bool)
    ensures Binds(authed, parsesIP) <==> authed != []
  {
    if authed != [] {
      forall admits, turns | |admits| == |turns| && AllGot(turns)
        ensures forall e <- Saves(admits, turns, authed, parsesIP) :: e.nodeID == authed
      {
        SavesAreAuthentic(admits, turns, authed, parsesIP);
      }
    } else {
      var e := KernelEvent([], [65], Exec, NoPayload);
      var turn := Got(e, 0.0, true, [], true);
      ValidFieldsAll(Fields(e));
      assert [turn][..0] == [] && [true][..0] == [];
      assert Saves([true], [turn], [], parsesIP) == [e];
      assert e in [e];
    }
  }
}
