/**
 What the store's protocol guarantees about acknowledgements (store/badger.go,
 receiver/grpc.go): why a write does not return nil, that turns can go well, that
 each is answered once, and what a false acknowledgement leaves open.
 */
module StoreGuarantees {
  import opened Bytes
  import opened TimeKeys
  import opened StoreProtocol
  import opened StoreInvariants
  import opened StoreTally
  import opened StoreRuns
  import Listing = StoreScan

  // ----- why a write does not return nil

  /** A caller gives up only at its deadline, and an update fails only by failing. */
  ghost predicate Caused(steps: seq<Step>, w: nat, x: Write) {
    (x.caller.GaveUp? ==> TimeOut(w) in steps) && (x.update.Failed? ==> Fail(w) in steps)
  }

  ghost predicate FateCaused(steps: seq<Step>, w: nat, fate: Caller) {
    (fate.GaveUp? ==> TimeOut(w) in steps) && (fate.Refused? ==> Fail(w) in steps)
  }

  ghost predicate AckCaused(steps: seq<Step>, a: Ack) {
    |a.writes| == |a.fates| && forall j :: 0 <= j < |a.fates| ==> FateCaused(steps, a.writes[j], a.fates[j])
  }

  /** A write is new, or as it was, or has taken its own step. */
  ghost predicate Follows(s: State, step: Step, w: nat, x: Write) {
    || (x.update.Running? && x.caller.Waiting?)
    || (w in s.writes && x == s.writes[w])
    || (w in s.writes && OfWrite(step) && step.w == w && x == NextWrite(s.writes[w], step))
  }

  lemma WritesFollow(s: State, step: Step, w: nat)
    requires w in Apply(s, step).writes
    ensures Follows(s, step, w, Apply(s, step).writes[w])
  {
    if OfWrite(step) && step.w in s.writes {
      WriteStep(s, step);
    } else if step.BeginEvent? || step.BeginAlert? {
      BegunFollows(s, step, w);
    }
  }

  lemma BegunFollows(s: State, step: Step, w: nat)
    requires (step.BeginEvent? || step.BeginAlert?) && w in Apply(s, step).writes
    ensures Follows(s, step, w, Apply(s, step).writes[w])
  {
    var s' := Apply(s, step);
    if s'.writes != s.writes {
      assert s'.writes == s.writes[s.next := s'.writes[s.next]];
      assert s'.writes[s.next].update.Running? && s'.writes[s.next].caller.Waiting?;
    }
  }

  lemma StepCaused(steps: seq<Step>, s: State, w: nat)
    requires steps != [] && Honest(s) && w in Apply(s, steps[|steps| - 1]).writes
    requires w in s.writes ==> Caused(steps[..|steps| - 1], w, s.writes[w])
    ensures Caused(steps, w, Apply(s, steps[|steps| - 1]).writes[w])
  {
    var step := steps[|steps| - 1];
    WritesFollow(s, step, w);
    assert step in steps && forall x <- steps[..|steps| - 1] :: x in steps;
    if w in s.writes {
      assert HonestWrite(s.writes[w], s.committed, s.minted);
    }
  }

  lemma AckOfCaused(steps: seq<Step>, s: State, turn: nat)
    requires Honest(s) && TurnDone(s, turn) && forall w <- s.writes :: Caused(steps, w, s.writes[w])
    ensures AckCaused(steps, AckOf(s, turn))
  {
    var t, a := s.turns[turn], AckOf(s, turn);
    forall j | 0 <= j < |a.fates|
      ensures FateCaused(steps, a.writes[j], a.fates[j])
    {
      assert Caused(steps, t.writes[j], s.writes[t.writes[j]]);
      assert HonestWrite(s.writes[t.writes[j]], s.committed, s.minted);
    }
  }

  lemma AckStaysCaused(steps: seq<Step>, more: seq<Step>, a: Ack)
    requires AckCaused(steps, a) && forall step <- steps :: step in more
    ensures AckCaused(more, a)
  {
    forall j | 0 <= j < |a.fates|
      ensures FateCaused(more, a.writes[j], a.fates[j])
    {
      assert FateCaused(steps, a.writes[j], a.fates[j]);
    }
  }

  lemma StepAckCaused(steps: seq<Step>, s: State, i: nat)
    requires steps != [] && Honest(s) && forall w <- s.writes :: Caused(steps[..|steps| - 1], w, s.writes[w])
    requires forall j :: 0 <= j < |s.acks| ==> AckCaused(steps[..|steps| - 1], s.acks[j])
    requires i < |Apply(s, steps[|steps| - 1]).acks|
    ensures AckCaused(steps, Apply(s, steps[|steps| - 1]).acks[i])
  {
    var before, step := steps[..|steps| - 1], steps[|steps| - 1];
    StepAcks(s, step);
    assert forall x <- before :: x in steps;
    if i >= |s.acks| {
      AckOfCaused(before, s, step.turn);
    }
    AckStaysCaused(before, steps, Apply(s, step).acks[i]);
  }

  /** In every run a write that did not return nil timed out or failed. */
  lemma {:induction false} FatesHaveCauses(steps: seq<Step>)
    ensures forall w <- Exec(steps).writes :: Caused(steps, w, Exec(steps).writes[w])
    ensures forall i :: 0 <= i < |Exec(steps).acks| ==> AckCaused(steps, Exec(steps).acks[i])
  {
    if steps != [] {
      var before, s := steps[..|steps| - 1], Exec(steps[..|steps| - 1]);
      FatesHaveCauses(before);
      RunsKeepInv(before);
      forall w <- Exec(steps).writes
        ensures Caused(steps, w, Exec(steps).writes[w])
      {
        StepCaused(steps, s, w);
      }
      forall i | 0 <= i < |Exec(steps).acks|
        ensures AckCaused(steps, Exec(steps).acks[i])
      {
        StepAckCaused(steps, s, i);
      }
    }
  }

  /** A turn none of whose writes failed or timed out is acknowledged true. */
  lemma TimelyTurnsAreAcknowledged(steps: seq<Step>, i: nat)
    requires i < |Exec(steps).acks|
    requires forall w <- Exec(steps).acks[i].writes :: TimeOut(w) !in steps && Fail(w) !in steps
    ensures Ok(Exec(steps).acks[i])
  {
    RunsKeepInv(steps);
    FatesHaveCauses(steps);
    var a := Exec(steps).acks[i];
    assert AckHolds(a, Exec(steps).committed) && AckCaused(steps, a);
    forall j | 0 <= j < |a.fates|
      ensures a.fates[j].Saved?
    {
      assert a.writes[j] in a.writes && FateCaused(steps, a.writes[j], a.fates[j]);
    }
  }

  // ----- a turn that goes well

  /** The steps of write n when the update is in time. */
  function InTime(n: nat): seq<Step> {
    [Commit(n), Receive(n), CountUp(n)]
  }

  ghost function ExecFrom(s: State, steps: seq<Step>): State {
    if steps == [] then s else Apply(ExecFrom(s, steps[..|steps| - 1]), steps[|steps| - 1])
  }

  lemma {:induction false} ExecConcat(a: seq<Step>, b: seq<Step>)
    ensures Exec(a + b) == ExecFrom(Exec(a), b)
  {
    if b == [] {
      assert a + b == a;
    } else {
      assert (a + b)[..|a + b| - 1] == a + b[..|b| - 1];
      ExecConcat(a, b[..|b| - 1]);
    }
  }

  lemma {:induction false} FromConcat(s: State, a: seq<Step>, b: seq<Step>)
    ensures ExecFrom(s, a + b) == ExecFrom(ExecFrom(s, a), b)
  {
    if b == [] {
      assert a + b == a;
    } else {
      assert (a + b)[..|a + b| - 1] == a + b[..|b| - 1];
      FromConcat(s, a, b[..|b| - 1]);
    }
  }

  lemma OneStep(s: State, step: Step)
    ensures ExecFrom(s, [step]) == Apply(s, step)
  {
    assert [step][..0] == [];
  }

  lemma ThreeSteps(s: State, a: Step, b: Step, c: Step)
    ensures ExecFrom(s, [a, b, c]) == Apply(Apply(Apply(s, a), b), c)
  {
    OneStep(s, a);
    FromConcat(s, [a], [b]);
    OneStep(Apply(s, a), b);
    FromConcat(s, [a] + [b], [c]);
    OneStep(Apply(Apply(s, a), b), c);
    assert [a, b, c] == [a] + [b] + [c];
  }

  /** Only write n, the database and the counters have changed. */
  ghost predicate Only(s: State, s': State, n: nat, x: Write, counters: Tally) {
    && s'.writes == s.writes[n := x] && s'.counters == counters
    && s'.next == s.next && s'.turns == s.turns && s'.acks == s.acks
  }

  lemma CommitsInTime(s: State, n: nat)
    requires n in s.writes && s.writes[n].update.Running? && s.writes[n].caller.Waiting?
    ensures Only(s, Apply(s, Commit(n)), n, s.writes[n].(update := Committed), s.counters)
  {
  }

  lemma ReturnsNil(s: State, n: nat)
    requires n in s.writes && s.writes[n].update.Committed? && s.writes[n].caller.Waiting?
    ensures var s' := Apply(Apply(s, Receive(n)), CountUp(n));
      Only(s, s', n, s.writes[n].(caller := Saved), Add(s.counters, s.writes[n].record))
  {
    var x := s.writes[n];
    assert Apply(s, Receive(n)) == Advance(s, n, x.(caller := Outcome(x)), s.counters);
  }

  /** An update in time is saved, and an event is counted once. */
  lemma InTimeSaves(s: State, n: nat)
    requires n in s.writes && s.writes[n].update.Running? && s.writes[n].caller.Waiting?
    ensures var x := s.writes[n];
      Only(s, ExecFrom(s, InTime(n)), n, x.(update := Committed, caller := Saved), Add(s.counters, x.record))
  {
    ThreeSteps(s, Commit(n), Receive(n), CountUp(n));
    CommitsInTime(s, n);
    ReturnsNil(Apply(s, Commit(n)), n);
  }

  /** Writes n..n+j-1 were saved, in this order. */
  ghost predicate SavedFrom(writes: map<nat, Write>, ws: seq<nat>, n: nat, j: nat) {
    |ws| == j && forall i :: 0 <= i < j ==> ws[i] == n + i && ws[i] in writes && writes[ws[i]].caller.Saved?
  }

  /** The turn that began in s0 has its event and j alerts saved, and is counted once. */
  ghost predicate Underway(s0: State, s: State, received: Utc, eventID: Key, eventType: string, alerts: seq<Raised>,
                           j: nat)
  {
    && s.next == s0.next + 1 + j && s.acks == s0.acks && s.counters == Add(s0.counters, EventRecord(eventType))
    && s0.next in s.turns
    && var t := s.turns[s0.next];
       t == Turn(received, eventID, alerts, t.writes) && SavedFrom(s.writes, t.writes, s0.next, j + 1)
  }

  lemma OneMoreSaved(writes: map<nat, Write>, ws: seq<nat>, n: nat, j: nat, x: Write)
    requires SavedFrom(writes, ws, n, j) && x.caller.Saved?
    ensures SavedFrom(writes[n + j := x], ws + [n + j], n, j + 1)
  {
  }

  /** Beginning the next alert of a turn. */
  lemma AlertBegins(s: State, n: nat, a: Raised)
    requires NextAlert(s, n, a) && Valid(a.at)
    ensures var s', t := Apply(s, BeginAlert(n, a.at, a.alertID)), s.turns[n];
      && s'.writes == s.writes[s.next := Write(AlertKey(a), AlertRecord, Running, Waiting)]
      && s'.turns == s.turns[n := t.(writes := t.writes + [s.next])]
      && s'.next == s.next + 1 && s'.acks == s.acks && s'.counters == s.counters
  {
  }

  lemma EventGoesWell(s0: State, received: Utc, eventID: Key, eventType: string, alerts: seq<Raised>)
    returns (steps: seq<Step>, s: State)
    requires Valid(received)
    ensures s == ExecFrom(s0, steps) && Underway(s0, s, received, eventID, eventType, alerts, 0)
  {
    var step := BeginEvent(received, eventID, eventType, alerts);
    steps := [step] + InTime(s0.next);
    FromConcat(s0, [step], InTime(s0.next));
    OneStep(s0, step);
    InTimeSaves(Apply(s0, step), s0.next);
    s := ExecFrom(s0, steps);
  }

  lemma AlertSaved(s: State, n: nat, a: Raised) returns (steps: seq<Step>, s': State)
    requires NextAlert(s, n, a) && Valid(a.at)
    ensures s' == ExecFrom(s, steps)
    ensures s'.writes == s.writes[s.next := Write(AlertKey(a), AlertRecord, Committed, Saved)]
    ensures s'.turns == s.turns[n := s.turns[n].(writes := s.turns[n].writes + [s.next])]
    ensures s'.next == s.next + 1 && s'.acks == s.acks && s'.counters == s.counters
  {
    var step, x := BeginAlert(n, a.at, a.alertID), Write(AlertKey(a), AlertRecord, Running, Waiting);
    steps := [step] + InTime(s.next);
    AlertBegins(s, n, a);
    FromConcat(s, [step], InTime(s.next));
    OneStep(s, step);
    InTimeSaves(Apply(s, step), s.next);
    s' := ExecFrom(s, steps);
    var saved := x.(update := Committed, caller := Saved);
    assert s.writes[s.next := x][s.next := saved] == s.writes[s.next := saved];
  }

  lemma UnderwayGrows(s0: State, s: State, s': State, received: Utc, eventID: Key, eventType: string,
                      alerts: seq<Raised>, j: nat, x: Write)
    requires Underway(s0, s, received, eventID, eventType, alerts, j) && x.caller.Saved?
    requires s'.writes == s.writes[s.next := x] && s'.next == s.next + 1
    requires s'.turns == s.turns[s0.next := s.turns[s0.next].(writes := s.turns[s0.next].writes + [s.next])]
    requires s'.acks == s.acks && s'.counters == s.counters
    ensures Underway(s0, s', received, eventID, eventType, alerts, j + 1)
  {
    OneMoreSaved(s.writes, s.turns[s0.next].writes, s0.next, j + 1, x);
  }

  lemma AlertIsNext(s0: State, s: State, received: Utc, eventID: Key, eventType: string, alerts: seq<Raised>, j: nat)
    requires j < |alerts| && Underway(s0, s, received, eventID, eventType, alerts, j)
    ensures NextAlert(s, s0.next, alerts[j]) && s.next == s0.next + j + 1
  {
  }

  lemma {:induction false} TurnGoesWell(s0: State, received: Utc, eventID: Key, eventType: string,
                                        alerts: seq<Raised>, j: nat)
    returns (steps: seq<Step>, s: State)
    requires Valid(received) && (forall a <- alerts :: Valid(a.at)) && j <= |alerts|
    ensures s == ExecFrom(s0, steps) && Underway(s0, s, received, eventID, eventType, alerts, j)
  {
    if j == 0 {
      steps, s := EventGoesWell(s0, received, eventID, eventType, alerts);
    } else {
      var last := alerts[j - 1];
      var before, sb := TurnGoesWell(s0, received, eventID, eventType, alerts, j - 1);
      AlertIsNext(s0, sb, received, eventID, eventType, alerts, j - 1);
      assert last in alerts;
      var more;
      more, s := AlertSaved(sb, s0.next, last);
      UnderwayGrows(s0, sb, s, received, eventID, eventType, alerts, j - 1,
                    Write(AlertKey(last), AlertRecord, Committed, Saved));
      FromConcat(s0, before, more);
      steps := before + more;
    }
  }

  lemma WellDone(s0: State, s: State, received: Utc, eventID: Key, eventType: string, alerts: seq<Raised>)
    requires Underway(s0, s, received, eventID, eventType, alerts, |alerts|)
    ensures var s' := Apply(s, Acknowledge(s0.next));
      && |s'.acks| == |s0.acks| + 1 && s'.counters == Add(s0.counters, EventRecord(eventType))
      && var a := s'.acks[|s0.acks|];
         Ok(a) && a.received == received && a.eventID == eventID && a.alerts == alerts && |a.fates| == 1 + |alerts|
  {
    assert TurnDone(s, s0.next);
  }

  /**
   Every run can go on with an event and any alerts it raises so that the turn is
   acknowledged true and its event counted once.
   */
  lemma TurnsCanGoWell(steps: seq<Step>, received: Utc, eventID: Key, eventType: string, alerts: seq<Raised>)
    returns (more: seq<Step>)
    requires Valid(received) && forall a <- alerts :: Valid(a.at)
    ensures var s, s' := Exec(steps), Exec(steps + more);
      && |s'.acks| == |s.acks| + 1 && s'.counters == Add(s.counters, EventRecord(eventType))
      && var a := s'.acks[|s.acks|];
         Ok(a) && a.received == received && a.eventID == eventID && a.alerts == alerts && |a.fates| == 1 + |alerts|
  {
    var s0 := Exec(steps);
    var turn, s := TurnGoesWell(s0, received, eventID, eventType, alerts, |alerts|);
    more := turn + [Acknowledge(s0.next)];
    FromConcat(s0, turn, [Acknowledge(s0.next)]);
    OneStep(s, Acknowledge(s0.next));
    ExecConcat(steps, more);
    WellDone(s0, s, received, eventID, eventType, alerts);
  }

  // ----- one acknowledgement per turn

  /** The number of the turn an acknowledgement answers: that of its first write. */
  ghost predicate Answers(a: Ack, turn: nat) {
    a.writes != [] && a.writes[0] == turn
  }

  /** Turns are numbered by their first write, and none that was acknowledged is open or answered again. */
  ghost predicate AnsweredOnce(s: State) {
    && (forall t <- s.turns :: t < s.next && s.turns[t].writes != [] && s.turns[t].writes[0] == t)
    && (forall i :: 0 <= i < |s.acks| ==> s.acks[i].writes != [] && s.acks[i].writes[0] < s.next)
    && (forall i, t :: 0 <= i < |s.acks| && t in s.turns ==> !Answers(s.acks[i], t))
    && forall i, j :: 0 <= i < j < |s.acks| ==> s.acks[i].writes[0] != s.acks[j].writes[0]
  }

  lemma AckAnsweredOnce(s: State, turn: nat)
    requires AnsweredOnce(s) && TurnDone(s, turn)
    ensures AnsweredOnce(s.(acks := s.acks + [AckOf(s, turn)], turns := s.turns - {turn}))
  {
    assert Answers(AckOf(s, turn), turn);
    assert forall i :: 0 <= i < |s.acks| ==> !Answers(s.acks[i], turn);
  }

  lemma BeginAnsweredOnce(s: State, key: Key, r: Record, turn: nat, t: Turn)
    requires AnsweredOnce(s) && t.writes != [] && t.writes[0] == turn && (turn == s.next || turn in s.turns)
    ensures AnsweredOnce(Begin(s, key, r, turn, t))
  {
    var s' := Begin(s, key, r, turn, t);
    forall i, x | 0 <= i < |s'.acks| && x in s'.turns
      ensures !Answers(s'.acks[i], x)
    {
      assert x in s.turns ==> !Answers(s.acks[i], x);
    }
  }

  lemma StepAnsweredOnce(s: State, step: Step)
    requires AnsweredOnce(s)
    ensures AnsweredOnce(Apply(s, step))
  {
    if Apply(s, step) == s {
    } else if step.Acknowledge? {
      AckAnsweredOnce(s, step.turn);
    } else if step.BeginEvent? {
      BeginAnsweredOnce(s, KeyOf(step), EventRecord(step.eventType), s.next,
                        Turn(step.received, step.eventID, step.alerts, [s.next]));
    } else if step.BeginAlert? {
      var t := s.turns[step.turn];
      BeginAnsweredOnce(s, KeyOf(step), AlertRecord, step.turn, t.(writes := t.writes + [s.next]));
    } else if OfWrite(step) {
      WriteStep(s, step);
    }
  }

  /** In every run no turn is acknowledged twice. */
  lemma {:induction false} TurnsAreAnsweredOnce(steps: seq<Step>)
    ensures AnsweredOnce(Exec(steps))
  {
    if steps != [] {
      TurnsAreAnsweredOnce(steps[..|steps| - 1]);
      StepAnsweredOnce(Exec(steps[..|steps| - 1]), steps[|steps| - 1]);
    }
  }

  // ----- what disappears

  lemma StepGone(s: State, step: Step, k: Key)
    requires Ranged(s) && Kept(s) && Apart(s) && k in Apply(s, step).gone && k !in s.gone
    ensures step == Expire(k) || TOKEN <= k
  {
    if OfWrite(step) && step.w in s.writes {
      WriteStep(s, step);
    } else if step.PutToken? {
      assert TOKEN <= Listing.TokenKey(step.nodeID);
    }
  }

  lemma {:induction false} GoneHasExpired(steps: seq<Step>, k: Key)
    requires Fresh(steps) && k in Exec(steps).gone && !(TOKEN <= k)
    ensures Expire(k) in steps
  {
    if steps != [] {
      var before := steps[..|steps| - 1];
      assert forall step <- before :: step in steps;
      if k in Exec(before).gone {
        GoneHasExpired(before, k);
      } else {
        RunsKeepInv(before);
        FreshRunsStayApart(before);
        StepGone(Exec(before), steps[|steps| - 1], k);
      }
    }
  }

  lemma TurnKeysAreNoTokens(a: Ack, k: Key)
    requires k in Keys(a)
    ensures !(TOKEN <= k)
  {
    var i :| 0 <= i < |Keys(a)| && Keys(a)[i] == k;
    if i == 0 {
      RecordKeyRanged(EVENT, a.received, a.eventID, EventRecord(""));
    } else {
      RecordKeyRanged(ALERT, a.alerts[i - 1].at, a.alerts[i - 1].alertID, AlertRecord);
    }
  }

  /** With distinct pairs, what was acknowledged true is stored until it expires. */
  lemma StoredUntilExpired(steps: seq<Step>, i: nat, k: Key)
    requires Fresh(steps)
    requires i < |Exec(steps).acks| && Ok(Exec(steps).acks[i]) && k in Keys(Exec(steps).acks[i])
    ensures k in Exec(steps).db || Expire(k) in steps
  {
    TrueAckIsDurable(steps, i, k);
    TurnKeysAreNoTokens(Exec(steps).acks[i], k);
    if k !in Exec(steps).db {
      GoneHasExpired(steps, k);
    }
  }

  // ----- what a false acknowledgement leaves open

  /** A key that can never be committed: its only write has failed. */
  ghost predicate Dead(s: State, k: Key) {
    && k in s.minted && k !in s.committed && !(TOKEN <= k)
    && forall w <- s.writes :: s.writes[w].key == k ==> s.writes[w].update.Failed?
  }

  lemma DeadStays(s: State, step: Step, k: Key)
    requires Dead(s, k) && (Begins(step) ==> KeyOf(step) !in s.minted)
    ensures Dead(Apply(s, step), k)
  {
    if OfWrite(step) && step.w in s.writes {
      WriteStep(s, step);
    } else if step.PutToken? {
      assert TOKEN <= Listing.TokenKey(step.nodeID);
    }
  }

  /** Write j of the acknowledgement returned the store's error. */
  predicate RefusedAt(a: Ack, j: int) {
    0 <= j < |a.fates| && j < |Keys(a)| && a.fates[j].Refused?
  }

  ghost predicate RefusedAreDead(s: State) {
    forall i, j :: 0 <= i < |s.acks| && RefusedAt(s.acks[i], j) ==> Dead(s, Keys(s.acks[i])[j])
  }

  lemma RefusedIsDead(s: State, turn: nat, j: nat)
    requires Honest(s) && Ranged(s) && TurnsHold(s) && Apart(s) && TurnDone(s, turn)
    requires j < |AckOf(s, turn).fates| && AckOf(s, turn).fates[j].Refused?
    ensures j < |Keys(AckOf(s, turn))| && Dead(s, Keys(AckOf(s, turn))[j])
  {
    var t := s.turns[turn];
    assert TurnHolds(s.writes, t);
    assert HonestWrite(s.writes[t.writes[j]], s.committed, s.minted);
  }

  lemma StepRefused(s: State, step: Step)
    requires Inv(s) && Apart(s) && RefusedAreDead(s) && (Begins(step) ==> KeyOf(step) !in s.minted)
    ensures RefusedAreDead(Apply(s, step))
  {
    var s' := Apply(s, step);
    StepAcks(s, step);
    forall i, j | 0 <= i < |s'.acks| && RefusedAt(s'.acks[i], j)
      ensures Dead(s', Keys(s'.acks[i])[j])
    {
      if i < |s.acks| {
        assert s'.acks[i] == s.acks[i];
      } else {
        RefusedIsDead(s, step.turn, j);
      }
      DeadStays(s, step, Keys(s'.acks[i])[j]);
    }
  }

  lemma {:induction false} FreshRunsRefuse(steps: seq<Step>)
    requires Fresh(steps)
    ensures RefusedAreDead(Exec(steps))
  {
    if steps != [] {
      var n := |steps| - 1;
      FreshRunsRefuse(steps[..n]);
      FreshRunsStayApart(steps[..n]);
      RunsKeepInv(steps[..n]);
      if Begins(steps[n]) {
        NextKeyIsNew(steps);
      }
      StepRefused(Exec(steps[..n]), steps[n]);
    }
  }

  /**
   Every acknowledgement of every run, at any later point of it: a write that
   returned nil is committed, one that returned the store's error never is. So
   unless a caller gave up, the acknowledgement settles what is committed.
   */
  lemma OnlyGivingUpLeavesOpen(steps: seq<Step>, i: nat, j: nat)
    requires Fresh(steps) && i < |Exec(steps).acks| && j < |Exec(steps).acks[i].fates|
    ensures var a, committed := Exec(steps).acks[i], Exec(steps).committed;
      && |a.fates| == |Keys(a)|
      && (a.fates[j].GaveUp? || (Keys(a)[j] in committed <==> a.fates[j].Saved?))
  {
    RunsKeepInv(steps);
    FreshRunsRefuse(steps);
    assert AckHolds(Exec(steps).acks[i], Exec(steps).committed);
    assert Exec(steps).acks[i].fates[j].Refused? ==> RefusedAt(Exec(steps).acks[i], j);
  }

  /** A turn without alerts whose caller gives up on the event. */
  function GivesUp(received: Utc, eventID: Key, eventType: string, n: nat): seq<Step> {
    [BeginEvent(received, eventID, eventType, []), TimeOut(n), Acknowledge(n)]
  }

  /**
   And giving up does leave it open: every run with a fresh event can go on to a
   false acknowledgement with the event absent, from where the event may be
   committed after all or may never be.
   */
  lemma FalseAckIsOpen(steps: seq<Step>, received: Utc, eventID: Key, eventType: string)
    requires Valid(received) && EventKey(received, eventID) !in Exec(steps).minted
    ensures var key, n := EventKey(received, eventID), Exec(steps).next;
      var answered := steps + GivesUp(received, eventID, eventType, n);
      && Exec(answered).acks == Exec(steps).acks + [Ack(received, eventID, [], [n], [GaveUp])]
      && key !in Exec(answered).db
      && key !in Exec(answered + [Fail(n)]).db
      && key in Exec(answered + [Commit(n)]).db
  {
    var n := Exec(steps).next;
    var a, b, c := BeginEvent(received, eventID, eventType, []), TimeOut(n), Acknowledge(n);
    assert steps + GivesUp(received, eventID, eventType, n) == steps + [a] + [b] + [c];
    ExecSnoc(steps, a);
    ExecSnoc(steps + [a], b);
    ExecSnoc(steps + [a] + [b], c);
    ExecSnoc(steps + [a] + [b] + [c], Fail(n));
    ExecSnoc(steps + [a] + [b] + [c], Commit(n));
    RunsKeepInv(steps);
    AbandonedFates(Exec(steps), received, eventID, eventType);
  }

  lemma AbandonedTurn(s: State, received: Utc, eventID: Key, eventType: string)
    requires Valid(received)
    ensures var s' := Apply(Apply(s, BeginEvent(received, eventID, eventType, [])), TimeOut(s.next));
      && s.next in s'.turns && s'.turns[s.next] == Turn(received, eventID, [], [s.next])
      && s.next in s'.writes
      && s'.writes[s.next] == Write(EventKey(received, eventID), EventRecord(eventType), Running, GaveUp)
      && s'.db == s.db && s'.acks == s.acks
  {
    var n, key, t := s.next, EventKey(received, eventID), Turn(received, eventID, [], [s.next]);
    var s1 := Begin(s, key, EventRecord(eventType), n, t);
    assert Apply(s, BeginEvent(received, eventID, eventType, [])) == s1;
    assert Apply(s1, TimeOut(n)) == Advance(s1, n, Write(key, EventRecord(eventType), Running, GaveUp), s1.counters);
  }

  lemma AbandonedAck(s: State, n: nat, received: Utc, eventID: Key, x: Write)
    requires n in s.turns && s.turns[n] == Turn(received, eventID, [], [n]) && n in s.writes && s.writes[n] == x
    requires x.update.Running? && x.caller.GaveUp?
    ensures var s' := Apply(s, Acknowledge(n));
      && s'.acks == s.acks + [Ack(received, eventID, [], [n], [GaveUp])] && s'.db == s.db
      && Apply(s', Fail(n)).db == s.db && x.key in Apply(s', Commit(n)).db
  {
    assert TurnDone(s, n);
    assert AckOf(s, n).fates == [GaveUp];
  }

  lemma AbandonedFates(s: State, received: Utc, eventID: Key, eventType: string)
    requires Valid(received)
    ensures var key, n := EventKey(received, eventID), s.next;
      var s' := Apply(Apply(Apply(s, BeginEvent(received, eventID, eventType, [])), TimeOut(n)), Acknowledge(n));
      && s'.acks == s.acks + [Ack(received, eventID, [], [n], [GaveUp])] && s'.db == s.db
      && Apply(s', Fail(n)).db == s.db && key in Apply(s', Commit(n)).db
  {
    AbandonedTurn(s, received, eventID, eventType);
    var s' := Apply(Apply(s, BeginEvent(received, eventID, eventType, [])), TimeOut(s.next));
    AbandonedAck(s', s.next, received, eventID, s'.writes[s.next]);
  }
}
