/**
 What every run of the store's protocol keeps (store/badger.go): besides the
 books, honest results, one prefix per kind of record, and turns and
 acknowledgements that are about their own keys.
 */
module StoreInvariants {
  import opened Bytes
  import opened TimeKeys
  import opened StoreProtocol
  import opened StoreTally
  import Listing = StoreScan

  // ----- the other invariants, step by step

  /** The write a step of it leaves. */
  function NextWrite(x: Write, step: Step): Write
    requires OfWrite(step)
  {
    match step
    case Commit(_) => if x.update.Running? then x.(update := Committed) else x
    case Fail(_) => if x.update.Running? then x.(update := Failed) else x
    case Receive(_) => if x.caller.Waiting? && !x.update.Running? then x.(caller := Outcome(x)) else x
    case TimeOut(_) => if x.caller.Waiting? then x.(caller := GaveUp) else x
    case CountUp(_) => if x.caller.Received? then x.(caller := Saved) else x
  }

  /** Write w moves to x, and the database only changes when that commits it. */
  ghost predicate WriteMoves(s: State, s': State, w: nat, x: Write)
    requires w in s.writes
  {
    && s'.writes == s.writes[w := x]
    && s'.next == s.next && s'.turns == s.turns && s'.acks == s.acks && s'.minted == s.minted
    && (if x.update.Committed? && s.writes[w].update.Running?
        then s' == Put(s, x.key, x.record).(writes := s'.writes)
        else s'.db == s.db && s'.committed == s.committed && s'.gone == s.gone && s'.overwritten == s.overwritten)
  }

  lemma UnmovedWrite(s: State, w: nat)
    requires w in s.writes
    ensures WriteMoves(s, s, w, s.writes[w])
  {
    assert s.writes == s.writes[w := s.writes[w]];
  }

  lemma WriteStep(s: State, step: Step)
    requires OfWrite(step) && step.w in s.writes
    ensures WriteMoves(s, Apply(s, step), step.w, NextWrite(s.writes[step.w], step))
  {
    var w, x := step.w, s.writes[step.w];
    if NextWrite(x, step) == x {
      UnmovedWrite(s, w);
    } else if step.Commit? {
      assert Apply(s, step) == CommitUpdate(s, w);
    } else {
      assert Apply(s, step) == Advance(s, w, NextWrite(x, step), Apply(s, step).counters);
    }
  }

  lemma WriteHonest(s: State, step: Step)
    requires Honest(s) && OfWrite(step) && step.w in s.writes
    ensures Honest(Apply(s, step))
  {
    WriteStep(s, step);
    assert HonestWrite(s.writes[step.w], s.committed, s.minted);
    assert HonestWrite(NextWrite(s.writes[step.w], step), Apply(s, step).committed, s.minted);
  }

  lemma StepHonest(s: State, step: Step)
    requires Honest(s)
    ensures Honest(Apply(s, step))
  {
    if OfWrite(step) {
      if step.w in s.writes {
        WriteHonest(s, step);
      }
    } else if step.BeginEvent? || step.BeginAlert? {
      BeginHonest(s, step);
    }
  }

  lemma BeginHonest(s: State, step: Step)
    requires Honest(s) && (step.BeginEvent? || step.BeginAlert?)
    ensures Honest(Apply(s, step))
  {
  }

  lemma RecordKeyRanged(prefix: Key, at: Utc, id: Key, r: Record)
    requires prefix == match r case EventRecord(_) => EVENT case AlertRecord => ALERT case TokenRecord => TOKEN
    ensures InRange(prefix + id, r) && InRange(RecordKey(prefix, at, id), r)
  {
    Listing.RangesDisjoint(prefix + id);
    Listing.RangesDisjoint(RecordKey(prefix, at, id));
    assert (prefix + id)[..|prefix|] == prefix && RecordKey(prefix, at, id)[..|prefix|] == prefix;
  }

  lemma BeginRanged(s: State, step: Step)
    requires Ranged(s) && (step.BeginEvent? || step.BeginAlert?)
    ensures Ranged(Apply(s, step))
  {
    var s' := Apply(s, step);
    if s' != s {
      var x := s'.writes[s.next];
      assert s'.db == s.db && s'.writes == s.writes[s.next := x] && x.key == KeyOf(step);
      BegunKind(step, x.record);
    }
  }

  lemma BegunKind(step: Step, r: Record)
    requires (step.BeginEvent? && r == EventRecord(step.eventType)) || (step.BeginAlert? && r == AlertRecord)
    ensures InRange(KeyOf(step), r)
  {
    if step.BeginEvent? {
      RecordKeyRanged(EVENT, step.received, step.eventID, r);
    } else {
      RecordKeyRanged(ALERT, step.at, step.alertID, r);
    }
  }

  lemma WriteRanged(s: State, step: Step)
    requires Ranged(s) && OfWrite(step) && step.w in s.writes
    ensures Ranged(Apply(s, step))
  {
    WriteStep(s, step);
  }

  lemma StepRanged(s: State, step: Step)
    requires Ranged(s)
    ensures Ranged(Apply(s, step))
  {
    if Apply(s, step) == s {
    } else if step.BeginEvent? || step.BeginAlert? {
      BeginRanged(s, step);
    } else if step.PutToken? {
      TokenRanged(s, step.nodeID);
    } else if OfWrite(step) {
      WriteRanged(s, step);
    }
  }

  lemma TokenRanged(s: State, nodeID: Key)
    requires Ranged(s)
    ensures Ranged(StoreToken(s, nodeID))
  {
    var key := Listing.TokenKey(nodeID);
    Listing.RangesDisjoint(key);
    assert TOKEN <= key;
  }

  lemma PutKept(s: State, s': State, key: Key, r: Record)
    requires var put := Put(s, key, r);
      Kept(s) && s'.db == put.db && s'.committed == put.committed && s'.gone == put.gone
    requires s'.minted == s.minted + {key}
    ensures Kept(s')
  {
  }

  lemma WriteKept(s: State, s': State, w: nat, x: Write)
    requires Kept(s) && w in s.writes && WriteMoves(s, s', w, x) && x.key in s.minted
    ensures Kept(s') && s.committed <= s'.committed
  {
    if x.update.Committed? && s.writes[w].update.Running? {
      assert s.minted + {x.key} == s.minted;
      PutKept(s, s', x.key, x.record);
    }
  }

  lemma StepKept(s: State, step: Step)
    requires Honest(s) && Kept(s)
    ensures Kept(Apply(s, step)) && s.committed <= Apply(s, step).committed
  {
    if OfWrite(step) && step.w in s.writes {
      WriteStep(s, step);
      assert HonestWrite(s.writes[step.w], s.committed, s.minted);
      WriteKept(s, Apply(s, step), step.w, NextWrite(s.writes[step.w], step));
    } else if step.PutToken? {
      PutKept(s, Apply(s, step), KeyOf(step), TokenRecord);
    }
  }

  lemma TurnHoldsOn(writes: map<nat, Write>, writes': map<nat, Write>, t: Turn)
    requires TurnHolds(writes, t) && GoesOn(writes, writes')
    ensures TurnHolds(writes', t)
  {
  }

  lemma TurnsHoldOn(s: State, s': State)
    requires TurnsHold(s) && s'.turns.Keys <= s.turns.Keys && forall t <- s'.turns :: s'.turns[t] == s.turns[t]
    requires GoesOn(s.writes, s'.writes)
    ensures TurnsHold(s')
  {
    forall t <- s'.turns
      ensures TurnHolds(s'.writes, s'.turns[t])
    {
      TurnHoldsOn(s.writes, s'.writes, s.turns[t]);
    }
  }

  lemma OneMoreInOrder(writes: map<nat, Write>, ws: seq<nat>, keys: seq<Key>, w: nat, x: Write)
    requires (ws == [] || WriteInOrder(writes, ws, keys)) && w !in writes && |ws| < |keys| && x.key == keys[|ws|]
    requires forall i :: 0 <= i < |ws| ==> ws[i] in writes && Returned(writes[ws[i]].caller)
    ensures WriteInOrder(writes[w := x], ws + [w], keys)
  {
  }

  lemma BeginTurnsHold(s: State, key: Key, r: Record, turn: nat, t: Turn)
    requires Honest(s) && TurnsHold(s) && TurnHolds(s.writes[s.next := Write(key, r, Running, Waiting)], t)
    ensures TurnsHold(Begin(s, key, r, turn, t))
  {
    var s' := Begin(s, key, r, turn, t);
    forall i <- s'.turns
      ensures TurnHolds(s'.writes, s'.turns[i])
    {
      if i != turn {
        TurnHoldsOn(s.writes, s'.writes, s.turns[i]);
      }
    }
  }

  lemma EventTurnsHold(s: State, step: Step)
    requires Honest(s) && TurnsHold(s) && step.BeginEvent? && Valid(step.received)
    ensures TurnsHold(Apply(s, step))
  {
    var key, r := KeyOf(step), EventRecord(step.eventType);
    OneMoreInOrder(s.writes, [], KeysFor(step.received, step.eventID, step.alerts), s.next,
                   Write(key, r, Running, Waiting));
    assert [] + [s.next] == [s.next];
    BeginTurnsHold(s, key, r, s.next, Turn(step.received, step.eventID, step.alerts, [s.next]));
  }

  lemma NextAlertKey(t: Turn, alert: Raised)
    requires 0 < |t.writes| <= |t.alerts| && t.alerts[|t.writes| - 1] == alert
    ensures KeysFor(t.received, t.eventID, t.alerts)[|t.writes|] == AlertKey(alert)
  {
  }

  lemma GrowTurn(s: State, turn: nat, key: Key)
    requires Honest(s) && TurnsHold(s) && turn in s.turns && AllReturned(s, s.turns[turn].writes)
    requires var t := s.turns[turn];
      |t.writes| <= |t.alerts| && key == KeysFor(t.received, t.eventID, t.alerts)[|t.writes|]
    ensures var t := s.turns[turn]; TurnsHold(Begin(s, key, AlertRecord, turn, t.(writes := t.writes + [s.next])))
  {
    var t := s.turns[turn];
    assert TurnHolds(s.writes, t);
    OneMoreInOrder(s.writes, t.writes, KeysFor(t.received, t.eventID, t.alerts), s.next,
                   Write(key, AlertRecord, Running, Waiting));
    BeginTurnsHold(s, key, AlertRecord, turn, t.(writes := t.writes + [s.next]));
  }

  lemma AlertTurnsHold(s: State, step: Step)
    requires Honest(s) && TurnsHold(s) && step.BeginAlert?
    requires Valid(step.at) && NextAlert(s, step.turn, Raised(step.at, step.alertID))
    ensures TurnsHold(Apply(s, step))
  {
    var t, key := s.turns[step.turn], RecordKey(ALERT, step.at, step.alertID);
    NextAlertKey(t, Raised(step.at, step.alertID));
    GrowTurn(s, step.turn, key);
    assert Apply(s, step) == Begin(s, key, AlertRecord, step.turn, t.(writes := t.writes + [s.next]));
  }

  lemma WriteTurnsHold(s: State, step: Step)
    requires TurnsHold(s) && OfWrite(step) && step.w in s.writes
    ensures TurnsHold(Apply(s, step))
  {
    WriteStep(s, step);
    TurnsHoldOn(s, Apply(s, step));
  }

  lemma StepTurnsHold(s: State, step: Step)
    requires Honest(s) && TurnsHold(s)
    ensures TurnsHold(Apply(s, step))
  {
    if Apply(s, step) == s {
    } else if step.BeginEvent? {
      EventTurnsHold(s, step);
    } else if step.BeginAlert? {
      AlertTurnsHold(s, step);
    } else if OfWrite(step) {
      WriteTurnsHold(s, step);
    }
  }

  lemma AckOfHolds(s: State, turn: nat)
    requires Honest(s) && TurnsHold(s) && TurnDone(s, turn)
    ensures AckHolds(AckOf(s, turn), s.committed)
  {
    var t, a := s.turns[turn], AckOf(s, turn);
    assert TurnHolds(s.writes, t);
    forall j | 0 <= j < |a.fates|
      ensures Returned(a.fates[j]) && (a.fates[j].Saved? ==> Keys(a)[j] in s.committed)
    {
      assert HonestWrite(s.writes[t.writes[j]], s.committed, s.minted);
    }
  }

  lemma StepAcks(s: State, step: Step)
    ensures Apply(s, step).acks
         == s.acks + if step.Acknowledge? && TurnDone(s, step.turn) then [AckOf(s, step.turn)] else []
  {
    if OfWrite(step) && step.w in s.writes {
      WriteStep(s, step);
    }
  }

  lemma StepAcksHold(s: State, step: Step)
    requires Honest(s) && TurnsHold(s) && Kept(s) && AcksHold(s)
    ensures AcksHold(Apply(s, step))
  {
    StepAcks(s, step);
    StepKept(s, step);
    if step.Acknowledge? && TurnDone(s, step.turn) {
      AckOfHolds(s, step.turn);
    }
    var s' := Apply(s, step);
    forall i | 0 <= i < |s'.acks|
      ensures AckHolds(s'.acks[i], s'.committed)
    {
      if i < |s.acks| {
        assert AckHolds(s.acks[i], s.committed);
      }
    }
  }

  lemma StepKeepsInv(s: State, step: Step)
    requires Inv(s)
    ensures Inv(Apply(s, step))
  {
    forall t
      ensures Balanced(Apply(s, step), t)
    {
      StepBalances(s, step, t);
    }
    StepHonest(s, step);
    StepRanged(s, step);
    StepKept(s, step);
    StepTurnsHold(s, step);
    StepAcksHold(s, step);
  }

  /** Every run keeps the books for every event type, and no caller is told nil about an uncommitted write. */
  lemma {:induction false} RunsKeepInv(steps: seq<Step>)
    ensures Inv(Exec(steps))
  {
    if steps == [] {
      forall t
        ensures Balanced(INIT, t)
      {
        EmptyCounts(t);
      }
    } else {
      RunsKeepInv(steps[..|steps| - 1]);
      StepKeepsInv(Exec(steps[..|steps| - 1]), steps[|steps| - 1]);
    }
  }
}
