/**
 Writes that race their caller's deadline (store/badger.go), as the turns of the
 event streams make them (receiver/grpc.go). SaveEvent and SaveAlert hand the
 database update to a goroutine and wait for it or for the context; an abandoned
 update still finishes on its own. The in-memory event counters are bumped by
 callers that saw success, and rebuilt by a scan at startup. Any sequence of
 steps is a run: a step that is not enabled changes nothing.
 */
module StoreProtocol {
  import opened Bytes
  import opened Sums
  import opened TimeKeys
  import Listing = StoreScan

  datatype Record = EventRecord(eventType: string) | AlertRecord | TokenRecord

  datatype Update = Running | Committed | Failed

  datatype Caller =
    | Waiting    // in the select
    | Received   // has the nil result, counter not yet bumped
    | Saved      // returned nil
    | GaveUp     // returned the context's error
    | Refused    // returned the update's error

  datatype Write = Write(key: Key, record: Record, update: Update, caller: Caller)

  /** An alert that evaluation raised. */
  datatype Raised = Raised(at: Utc, alertID: Key)

  /** One accepted event of a stream: its write, then one write per alert, one after another. */
  datatype Turn = Turn(received: Utc, eventID: Key, alerts: seq<Raised>, writes: seq<nat>)

  /** The acknowledgement of a turn: what it answers for, its writes, and what they returned. */
  datatype Ack = Ack(received: Utc, eventID: Key, alerts: seq<Raised>, writes: seq<nat>, fates: seq<Caller>)

  type Tally = map<string, int>

  datatype State = State(
    db: map<Key, Record>,
    writes: map<nat, Write>, next: nat,
    turns: map<nat, Turn>,
    counters: Tally,
    acks: seq<Ack>,
    // history
    scan: Tally,          // the startup scan
    overwritten: Tally,   // event records replaced since startup
    expired: Tally,       // event records expired since startup
    minted: set<Key>,     // every key ever used by a write
    committed: set<Key>,  // every key ever committed
    gone: set<Key>)       // every key ever replaced or expired

  datatype Step =
    | BeginEvent(received: Utc, eventID: Key, eventType: string, alerts: seq<Raised>)
    | BeginAlert(turn: nat, at: Utc, alertID: Key)
    | Commit(w: nat)
    | Fail(w: nat)
    | Receive(w: nat)
    | TimeOut(w: nat)
    | CountUp(w: nat)
    | Acknowledge(turn: nat)
    | PutToken(nodeID: Key)
    | Expire(key: Key)
    | Restart

  const ZERO: Tally := map["exec" := 0, "tcp" := 0, "file" := 0]

  const INIT := State(map[], map[], 0, map[], ZERO, [], ZERO, map[], map[], {}, {}, {})

  function At(tally: Tally, t: string): int {
    if t in tally then tally[t] else 0
  }

  function Add(tally: Tally, r: Record): Tally {
    if r.EventRecord? then tally[r.eventType := At(tally, r.eventType) + 1] else tally
  }

  function IsType(t: string): Record -> bool {
    (r: Record) => r == EventRecord(t)
  }

  // ----- the startup scan

  /** Every kind of record lies under its own prefix and nothing else does. */
  predicate InRange(k: Key, r: Record) {
    && (EVENT <= k <==> r.EventRecord?)
    && (ALERT <= k <==> r.AlertRecord?)
    && (TOKEN <= k <==> r.TokenRecord?)
  }

  /** What an iteration over the event prefix sees. */
  function EventRange(db: map<Key, Record>): map<Key, Record> {
    map k | k in db && EVENT <= k :: db[k]
  }

  /** The counters that counting these records yields. */
  ghost predicate Scans(records: map<Key, Record>, tally: Tally) {
    forall t :: At(tally, t) == Count(records, IsType(t))
  }

  ghost function Scan(records: map<Key, Record>): (tally: Tally)
    ensures Scans(records, tally)
    decreases |records|
  {
    if records == map[] then
      assert forall t :: Select(records, IsType(t)) == {};
      ZERO
    else
      var k :| k in records;
      ScanAdds(records, k, Scan(records - {k}));
      Add(Scan(records - {k}), records[k])
  }

  lemma ScanAdds(records: map<Key, Record>, k: Key, tally: Tally)
    requires k in records && Scans(records - {k}, tally)
    ensures Scans(records, Add(tally, records[k]))
  {
    forall t
      ensures At(Add(tally, records[k]), t) == Count(records, IsType(t))
    {
      CountRemove(records, k, IsType(t));
    }
  }

  lemma ScanStarts(records: map<Key, Record>)
    ensures Scans(records - records.Keys, ZERO)
  {
    forall t
      ensures Count(records - records.Keys, IsType(t)) == 0
    {
      assert Select(records - records.Keys, IsType(t)) == {};
    }
  }

  lemma ScanGrows(records: map<Key, Record>, todo: set<Key>, k: Key, tally: Tally)
    requires k in todo && k in records && Scans(records - todo, tally)
    ensures Scans(records - (todo - {k}), Add(tally, records[k]))
  {
    assert (records - (todo - {k})) - {k} == records - todo;
    ScanAdds(records - (todo - {k}), k, tally);
  }

  /** loadCounters: the startup scan of the event prefix. */
  method LoadCounters(db: map<Key, Record>) returns (counters: Tally)
    requires forall k <- db :: InRange(k, db[k])
    ensures Scans(EventRange(db), counters)
  {
    counters := ZERO;
    var range := EventRange(db);
    var todo := range.Keys;
    ScanStarts(range);
    while todo != {}
      invariant todo <= range.Keys && Scans(range - todo, counters)
      decreases todo
    {
      var k :| k in todo;
      ScanGrows(range, todo, k, counters);
      var eventType := range[k].eventType;
      counters := counters[eventType := At(counters, eventType) + 1];
      todo := todo - {k};
    }
    assert range - todo == range;
  }

  /** When kinds and prefixes coincide, the scan of the event prefix counts every stored event. */
  lemma RangeHoldsTheEvents(db: map<Key, Record>, t: string)
    requires forall k <- db :: InRange(k, db[k])
    ensures Count(EventRange(db), IsType(t)) == Count(db, IsType(t))
  {
    forall k <- db
      ensures IsType(t)(db[k]) ==> EVENT <= k
    {
      assert InRange(k, db[k]);
    }
    assert Select(EventRange(db), IsType(t)) == Select(db, IsType(t));
  }

  // ----- the steps

  function AlertKey(alert: Raised): Key {
    RecordKey(ALERT, alert.at, alert.alertID)
  }

  /** The keys a turn writes: the event's, then one per alert. */
  function KeysFor(received: Utc, eventID: Key, alerts: seq<Raised>): (keys: seq<Key>)
    ensures |keys| == 1 + |alerts| && keys[0] == EventKey(received, eventID)
    ensures forall i :: 0 < i < |keys| ==> keys[i] == AlertKey(alerts[i - 1])
  {
    seq(1 + |alerts|, i requires 0 <= i < 1 + |alerts| =>
      if i == 0 then EventKey(received, eventID) else AlertKey(alerts[i - 1]))
  }

  function Keys(a: Ack): seq<Key> {
    KeysFor(a.received, a.eventID, a.alerts)
  }

  /** What the acknowledgement says. */
  predicate Ok(a: Ack) {
    forall j :: 0 <= j < |a.fates| ==> a.fates[j].Saved?
  }

  function Begin(s: State, key: Key, r: Record, turn: nat, t: Turn): State {
    s.(writes := s.writes[s.next := Write(key, r, Running, Waiting)], next := s.next + 1,
       turns := s.turns[turn := t], minted := s.minted + {key})
  }

  function Put(s: State, key: Key, r: Record): State {
    s.(db := s.db[key := r],
       overwritten := if key in s.db then Add(s.overwritten, s.db[key]) else s.overwritten,
       committed := s.committed + {key},
       gone := if key in s.db then s.gone + {key} else s.gone)
  }

  function CommitUpdate(s: State, w: nat): State
    requires w in s.writes
  {
    var x := s.writes[w];
    Put(s, x.key, x.record).(writes := s.writes[w := x.(update := Committed)])
  }

  function StoreToken(s: State, nodeID: Key): State {
    var key := Listing.TokenKey(nodeID);
    Put(s, key, TokenRecord).(minted := s.minted + {key})
  }

  predicate Returned(c: Caller) {
    c.Saved? || c.GaveUp? || c.Refused?
  }

  function Advance(s: State, w: nat, x: Write, counters: Tally): State {
    s.(writes := s.writes[w := x], counters := counters)
  }

  /** What the select hands the caller when the update has finished. */
  function Outcome(x: Write): Caller {
    if x.update.Failed? then Refused else if x.record.EventRecord? then Received else Saved
  }

  /** All writes named so far have returned to their caller. */
  predicate AllReturned(s: State, ws: seq<nat>) {
    forall i :: 0 <= i < |ws| ==> ws[i] in s.writes && Returned(s.writes[ws[i]].caller)
  }

  /** The turn's next alert is this one, and nothing is still being written for it. */
  predicate NextAlert(s: State, turn: nat, alert: Raised) {
    && turn in s.turns && 0 < |s.turns[turn].writes| <= |s.turns[turn].alerts|
    && s.turns[turn].alerts[|s.turns[turn].writes| - 1] == alert
    && AllReturned(s, s.turns[turn].writes)
  }

  /** Event and alerts have all been written, one way or another. */
  predicate TurnDone(s: State, turn: nat) {
    && turn in s.turns && |s.turns[turn].writes| == 1 + |s.turns[turn].alerts|
    && AllReturned(s, s.turns[turn].writes)
  }

  function AckOf(s: State, turn: nat): Ack
    requires TurnDone(s, turn)
  {
    var t := s.turns[turn];
    Ack(t.received, t.eventID, t.alerts, t.writes,
        seq(|t.writes|, i requires 0 <= i < |t.writes| => s.writes[t.writes[i]].caller))
  }

  function Drop(s: State, key: Key): State
    requires key in s.db
  {
    s.(db := s.db - {key}, expired := Add(s.expired, s.db[key]), gone := s.gone + {key})
  }

  /** A new process: the counters are those of the scan of the event prefix. */
  ghost function Reopen(s: State): State {
    var tally := Scan(EventRange(s.db));
    s.(writes := map[], turns := map[], counters := tally, scan := tally, overwritten := map[], expired := map[])
  }

  ghost function Apply(s: State, step: Step): State {
    match step
    case BeginEvent(received, eventID, eventType, alerts) =>
      if Valid(received) then
        Begin(s, EventKey(received, eventID), EventRecord(eventType), s.next, Turn(received, eventID, alerts, [s.next]))
      else s
    case BeginAlert(turn, at, alertID) =>
      if Valid(at) && NextAlert(s, turn, Raised(at, alertID)) then
        var t := s.turns[turn];
        Begin(s, RecordKey(ALERT, at, alertID), AlertRecord, turn, t.(writes := t.writes + [s.next]))
      else s
    case Commit(w) =>
      if w in s.writes && s.writes[w].update.Running? then CommitUpdate(s, w) else s
    case Fail(w) =>
      if w in s.writes && s.writes[w].update.Running?
      then Advance(s, w, s.writes[w].(update := Failed), s.counters) else s
    case Receive(w) =>
      if w in s.writes && s.writes[w].caller.Waiting? && !s.writes[w].update.Running?
      then Advance(s, w, s.writes[w].(caller := Outcome(s.writes[w])), s.counters) else s
    case TimeOut(w) =>
      if w in s.writes && s.writes[w].caller.Waiting?
      then Advance(s, w, s.writes[w].(caller := GaveUp), s.counters) else s
    case CountUp(w) =>
      if w in s.writes && s.writes[w].caller.Received?
      then Advance(s, w, s.writes[w].(caller := Saved), Add(s.counters, s.writes[w].record)) else s
    case Acknowledge(turn) =>
      if TurnDone(s, turn) then s.(acks := s.acks + [AckOf(s, turn)], turns := s.turns - {turn}) else s
    case PutToken(nodeID) =>
      StoreToken(s, nodeID)
    case Expire(key) =>
      if key in s.db && !s.db[key].TokenRecord? then Drop(s, key) else s
    case Restart =>
      Reopen(s)
  }

  ghost function Exec(steps: seq<Step>): State {
    if steps == [] then INIT else Apply(Exec(steps[..|steps| - 1]), steps[|steps| - 1])
  }

  /** Steps of one write. */
  predicate OfWrite(step: Step) {
    step.Commit? || step.Fail? || step.Receive? || step.TimeOut? || step.CountUp?
  }

  /** Key of the write a step begins. */
  function KeyOf(step: Step): Key
    requires step.BeginEvent? || step.BeginAlert? || step.PutToken?
  {
    match step
    case BeginEvent(received, eventID, _, _) => EventKey(received, eventID)
    case BeginAlert(_, at, alertID) => RecordKey(ALERT, at, alertID)
    case PutToken(nodeID) => Listing.TokenKey(nodeID)
  }
}
