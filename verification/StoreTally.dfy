/**
 The books of the store's protocol (store/badger.go): for every event type, what
 was scanned and committed is what was counted, is still to be counted, or was
 abandoned, and is what is stored, replaced or expired.
 */
module StoreTally {
  import opened Bytes
  import opened Sums
  import opened TimeKeys
  import opened StoreProtocol
  import Listing = StoreScan

  // ----- conservation

  function IsCommitted(t: string): Write -> bool {
    (w: Write) => w.record == EventRecord(t) && w.update.Committed?
  }

  /** Committed, and the caller will still count it. */
  function IsUncounted(t: string): Write -> bool {
    (w: Write) => w.record == EventRecord(t) && w.update.Committed? && (w.caller.Waiting? || w.caller.Received?)
  }

  /** Committed, but the caller gave up on it. */
  function IsAbandoned(t: string): Write -> bool {
    (w: Write) => w.record == EventRecord(t) && w.update.Committed? && w.caller.GaveUp?
  }

  /** The books for one event type. */
  ghost predicate Balanced(s: State, t: string) {
    // startup scan + commits since startup == counter + commits yet to be counted + abandoned commits
    && At(s.scan, t) + Count(s.writes, IsCommitted(t))
       == At(s.counters, t) + Count(s.writes, IsUncounted(t)) + Count(s.writes, IsAbandoned(t))
    // ... == records in the database + records replaced + records expired
    && At(s.scan, t) + Count(s.writes, IsCommitted(t))
       == Count(s.db, IsType(t)) + At(s.overwritten, t) + At(s.expired, t)
  }

  /** A caller holds a nil result only for a committed update. */
  predicate HonestWrite(x: Write, committed: set<Key>, minted: set<Key>) {
    && (x.caller.Received? || x.caller.Saved? ==> x.update.Committed?)
    && (x.caller.Refused? ==> x.update.Failed?)
    && (x.caller.Received? ==> x.record.EventRecord?)
    && (x.update.Committed? ==> x.key in committed)
    && x.key in minted
  }

  ghost predicate Honest(s: State) {
    forall w: nat :: w in s.writes ==> w < s.next && HonestWrite(s.writes[w], s.committed, s.minted)
  }

  ghost predicate Ranged(s: State) {
    && (forall w <- s.writes :: InRange(s.writes[w].key, s.writes[w].record) && !s.writes[w].record.TokenRecord?)
    && (forall k <- s.db :: InRange(k, s.db[k]))
  }

  /** What was ever committed is stored, replaced or expired. */
  ghost predicate Kept(s: State) {
    s.db.Keys <= s.committed && s.committed <= s.db.Keys + s.gone && s.committed <= s.minted
  }

  /** The writes have the first of the keys, one each, and all but the last have returned. */
  ghost predicate WriteInOrder(writes: map<nat, Write>, ws: seq<nat>, keys: seq<Key>) {
    && 0 < |ws| <= |keys|
    && (forall i :: 0 <= i < |ws| ==> ws[i] in writes && writes[ws[i]].key == keys[i])
    && forall i :: 0 <= i < |ws| - 1 ==> Returned(writes[ws[i]].caller)
  }

  /** Writes keep their keys, and what has returned stays returned. */
  ghost predicate GoesOn(writes: map<nat, Write>, writes': map<nat, Write>) {
    forall w <- writes ::
      w in writes' && writes'[w].key == writes[w].key && (Returned(writes[w].caller) ==> Returned(writes'[w].caller))
  }

  ghost predicate TurnHolds(writes: map<nat, Write>, t: Turn) {
    WriteInOrder(writes, t.writes, KeysFor(t.received, t.eventID, t.alerts))
  }

  ghost predicate TurnsHold(s: State) {
    forall t {:trigger TurnHolds(s.writes, s.turns[t])} :: t in s.turns ==> TurnHolds(s.writes, s.turns[t])
  }

  /** Every record an acknowledgement saw saved is committed. */
  ghost predicate AckHolds(a: Ack, committed: set<Key>) {
    && |a.writes| == |a.fates| == |Keys(a)|
    && forall j :: 0 <= j < |a.fates| ==> Returned(a.fates[j]) && (a.fates[j].Saved? ==> Keys(a)[j] in committed)
  }

  ghost predicate AcksHold(s: State) {
    forall i :: 0 <= i < |s.acks| ==> AckHolds(s.acks[i], s.committed)
  }

  ghost predicate Inv(s: State) {
    Honest(s) && Ranged(s) && Kept(s) && TurnsHold(s) && AcksHold(s) && forall t :: Balanced(s, t)
  }

  lemma PutWrite(m: map<nat, Write>, w: nat, x: Write, t: string)
    ensures Count(m[w := x], IsCommitted(t))
         == Count(m, IsCommitted(t)) - Bit(w in m && IsCommitted(t)(m[w])) + Bit(IsCommitted(t)(x))
    ensures Count(m[w := x], IsUncounted(t))
         == Count(m, IsUncounted(t)) - Bit(w in m && IsUncounted(t)(m[w])) + Bit(IsUncounted(t)(x))
    ensures Count(m[w := x], IsAbandoned(t))
         == Count(m, IsAbandoned(t)) - Bit(w in m && IsAbandoned(t)(m[w])) + Bit(IsAbandoned(t)(x))
  {
    CountPut(m, w, x, IsCommitted(t));
    CountPut(m, w, x, IsUncounted(t));
    CountPut(m, w, x, IsAbandoned(t));
  }

  lemma EmptyCounts(t: string)
    ensures Count<Key, Record>(map[], IsType(t)) == 0
    ensures Count<nat, Write>(map[], IsCommitted(t)) == 0
    ensures Count<nat, Write>(map[], IsUncounted(t)) == 0
    ensures Count<nat, Write>(map[], IsAbandoned(t)) == 0
  {
    assert Select<Key, Record>(map[], IsType(t)) == {};
    assert Select<nat, Write>(map[], IsCommitted(t)) == {};
    assert Select<nat, Write>(map[], IsUncounted(t)) == {};
    assert Select<nat, Write>(map[], IsAbandoned(t)) == {};
  }

  /** A write that changes without being committed keeps the books when its counter moves with it. */
  lemma AdvanceBalances(s: State, w: nat, x: Write, counters: Tally, t: string)
    requires Balanced(s, t) && w in s.writes
    requires IsCommitted(t)(s.writes[w]) == IsCommitted(t)(x)
    requires At(counters, t) + Bit(IsUncounted(t)(x)) + Bit(IsAbandoned(t)(x))
          == At(s.counters, t) + Bit(IsUncounted(t)(s.writes[w])) + Bit(IsAbandoned(t)(s.writes[w]))
    ensures Balanced(Advance(s, w, x, counters), t)
  {
    PutWrite(s.writes, w, x, t);
  }

  lemma BeginBalances(s: State, key: Key, r: Record, turn: nat, tn: Turn, t: string)
    requires Honest(s) && Balanced(s, t)
    ensures Balanced(Begin(s, key, r, turn, tn), t)
  {
    PutWrite(s.writes, s.next, Write(key, r, Running, Waiting), t);
  }

  lemma CommitBalances(s: State, w: nat, t: string)
    requires Honest(s) && Balanced(s, t) && w in s.writes && s.writes[w].update.Running?
    ensures Balanced(CommitUpdate(s, w), t)
  {
    PutWrite(s.writes, w, s.writes[w].(update := Committed), t);
    CountPut(s.db, s.writes[w].key, s.writes[w].record, IsType(t));
  }

  lemma TokenBalances(s: State, nodeID: Key, t: string)
    requires Balanced(s, t)
    ensures Balanced(StoreToken(s, nodeID), t)
  {
    CountPut(s.db, Listing.TokenKey(nodeID), TokenRecord, IsType(t));
  }

  lemma DropBalances(s: State, key: Key, t: string)
    requires Balanced(s, t) && key in s.db
    ensures Balanced(Drop(s, key), t)
  {
    CountRemove(s.db, key, IsType(t));
  }

  lemma ReopenBalances(s: State, t: string)
    requires Ranged(s)
    ensures Balanced(Reopen(s), t)
    ensures At(Reopen(s).counters, t) == Count(s.db, IsType(t))
  {
    EmptyCounts(t);
    RangeHoldsTheEvents(s.db, t);
  }

  lemma StepBalances(s: State, step: Step, t: string)
    requires Honest(s) && Ranged(s) && Balanced(s, t)
    ensures Balanced(Apply(s, step), t)
  {
    if step.BeginEvent? || step.BeginAlert? {
      BeginStepBalances(s, step, t);
    } else if step.Expire? {
      if step.key in s.db {
        DropBalances(s, step.key, t);
      }
    } else if step.Restart? {
      ReopenBalances(s, t);
    } else if step.PutToken? {
      TokenBalances(s, step.nodeID, t);
    } else if OfWrite(step) && step.w in s.writes {
      WriteBalances(s, step, t);
    }
  }

  lemma BeginStepBalances(s: State, step: Step, t: string)
    requires Honest(s) && Balanced(s, t) && (step.BeginEvent? || step.BeginAlert?)
    ensures Balanced(Apply(s, step), t)
  {
    var s' := Apply(s, step);
    if s' != s {
      var turn := if step.BeginEvent? then s.next else step.turn;
      BeginBalances(s, KeyOf(step), s'.writes[s.next].record, turn, s'.turns[turn], t);
    }
  }

  lemma WriteBalances(s: State, step: Step, t: string)
    requires Honest(s) && Balanced(s, t) && OfWrite(step) && step.w in s.writes
    ensures Balanced(Apply(s, step), t)
  {
    var w := step.w;
    var x := s.writes[w];
    assert HonestWrite(x, s.committed, s.minted);
    match step {
      case Commit(_) => if x.update.Running? { CommitBalances(s, w, t); }
      case Fail(_) => if x.update.Running? { AdvanceBalances(s, w, x.(update := Failed), s.counters, t); }
      case Receive(_) =>
        if x.caller.Waiting? && !x.update.Running? {
          AdvanceBalances(s, w, x.(caller := Outcome(x)), s.counters, t);
        }
      case TimeOut(_) => if x.caller.Waiting? { AdvanceBalances(s, w, x.(caller := GaveUp), s.counters, t); }
      case CountUp(_) =>
        if x.caller.Received? {
          AdvanceBalances(s, w, x.(caller := Saved), Add(s.counters, x.record), t);
        }
    }
  }
}
