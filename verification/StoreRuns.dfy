/**
 Consequences for whole runs of the store's protocol (store/badger.go): exact
 counters after a restart, durable acknowledgements, reachable records, and keys
 that never collide when (receive time, id) pairs are distinct.
 */
module StoreRuns {
  import opened Bytes
  import opened Sums
  import opened TimeKeys
  import opened StoreProtocol
  import opened StoreInvariants
  import opened StoreTally
  import Listing = StoreScan

  // ----- consequences

  lemma ExecSnoc(steps: seq<Step>, step: Step)
    ensures Exec(steps + [step]) == Apply(Exec(steps), step)
  {
    assert (steps + [step])[..|steps|] == steps;
  }

  /**
   Right after a restart the counters, which come from a scan of the event
   prefix alone, equal the stored events, whatever was pending or abandoned.
   */
  lemma RestartIsExact(steps: seq<Step>, t: string)
    ensures At(Exec(steps + [Restart]).counters, t) == Count(Exec(steps + [Restart]).db, IsType(t))
    ensures Exec(steps + [Restart]).db == Exec(steps).db
  {
    ExecSnoc(steps, Restart);
    RunsKeepInv(steps);
    ReopenBalances(Exec(steps), t);
  }

  /**
   A true acknowledgement: the event and every one of its alerts were committed,
   and each is stored unless replaced or expired.
   */
  lemma TrueAckIsDurable(steps: seq<Step>, i: nat, k: Key)
    requires i < |Exec(steps).acks| && Ok(Exec(steps).acks[i]) && k in Keys(Exec(steps).acks[i])
    ensures k in Exec(steps).committed
    ensures k in Exec(steps).db || k in Exec(steps).gone
  {
    RunsKeepInv(steps);
    assert AckHolds(Exec(steps).acks[i], Exec(steps).committed);
  }

  // ----- keys

  /** Two writes of one kind with the same time and id. */
  predicate SamePair(a: Step, b: Step) {
    || (a.BeginEvent? && b.BeginEvent? && a.received == b.received && a.eventID == b.eventID)
    || (a.BeginAlert? && b.BeginAlert? && a.at == b.at && a.alertID == b.alertID)
  }

  ghost predicate Fresh(steps: seq<Step>) {
    forall i, j :: 0 <= i < j < |steps| ==> !SamePair(steps[i], steps[j])
  }

  predicate Begins(step: Step) {
    (step.BeginEvent? && Valid(step.received)) || (step.BeginAlert? && Valid(step.at))
  }

  predicate Mints(step: Step) {
    Begins(step) || step.PutToken?
  }

  lemma KeyKind(step: Step)
    requires Mints(step)
    ensures EVENT <= KeyOf(step) <==> step.BeginEvent?
    ensures ALERT <= KeyOf(step) <==> step.BeginAlert?
  {
    match step {
      case BeginEvent(received, eventID, _, _) => RecordKeyRanged(EVENT, received, eventID, EventRecord(""));
      case BeginAlert(_, at, alertID) => RecordKeyRanged(ALERT, at, alertID, AlertRecord);
      case PutToken(nodeID) => Listing.RangesDisjoint(Listing.TokenKey(nodeID));
    }
  }

  lemma EqualKeysSamePair(a: Step, b: Step)
    requires Mints(a) && Begins(b) && KeyOf(a) == KeyOf(b)
    ensures SamePair(a, b)
  {
    KeyKind(a);
    KeyKind(b);
    if a.BeginEvent? {
      KeyInjective(EVENT, a.received, a.eventID, b.received, b.eventID);
    } else {
      KeyInjective(ALERT, a.at, a.alertID, b.at, b.alertID);
    }
  }

  lemma StepMints(s: State, step: Step)
    ensures s.minted <= Apply(s, step).minted <= s.minted + if Mints(step) then {KeyOf(step)} else {}
  {
    if OfWrite(step) && step.w in s.writes {
      WriteStep(s, step);
    }
  }

  lemma {:induction false} MintedBySteps(steps: seq<Step>, k: Key) returns (i: nat)
    requires k in Exec(steps).minted
    ensures i < |steps| && Mints(steps[i]) && KeyOf(steps[i]) == k
  {
    var n := |steps| - 1;
    StepMints(Exec(steps[..n]), steps[n]);
    if k in Exec(steps[..n]).minted {
      i := MintedBySteps(steps[..n], k);
    } else {
      i := n;
    }
  }

  /** In every run, everything stored under a listed prefix can be reached by the reverse scan of that prefix. */
  lemma RunsAreListable(steps: seq<Step>, prefix: Key)
    requires prefix == EVENT || prefix == ALERT
    ensures forall k <- Exec(steps).db :: prefix <= k ==> Less(k, prefix + [255])
  {
    RunsKeepInv(steps);
    forall k <- Exec(steps).db
      ensures Listing.Minted(k)
    {
      var i := MintedBySteps(steps, k);
      match steps[i] {
        case BeginEvent(received, _, _, _) => assert Listing.IsRecordKey(k, EVENT);
        case BeginAlert(_, at, _) => assert Listing.IsRecordKey(k, ALERT);
        case PutToken(nodeID) => assert k == Listing.TokenKey(nodeID);
      }
    }
    Listing.ScanStartsAbove(Exec(steps).db.Keys, prefix);
  }

  // ----- distinct (receive time, id) pairs never collide

  /** No two writes share a key, none but a committed one has a key that was ever stored, nothing was replaced. */
  ghost predicate Apart(s: State) {
    && (forall w <- s.writes :: !s.writes[w].update.Committed? ==> s.writes[w].key !in s.committed)
    && (forall v, w :: v in s.writes && w in s.writes && v != w ==> s.writes[v].key != s.writes[w].key)
    && (forall t :: At(s.overwritten, t) == 0)
  }

  lemma BeginApart(s: State, step: Step)
    requires Honest(s) && Kept(s) && Apart(s) && Begins(step) && KeyOf(step) !in s.minted
    ensures Apart(Apply(s, step))
  {
    forall w <- s.writes
      ensures s.writes[w].key != KeyOf(step)
    {
      assert HonestWrite(s.writes[w], s.committed, s.minted);
    }
  }

  lemma WriteApart(s: State, step: Step)
    requires Kept(s) && Apart(s) && OfWrite(step) && step.w in s.writes
    ensures Apart(Apply(s, step))
  {
    WriteStep(s, step);
  }

  lemma TokenApart(s: State, nodeID: Key)
    requires Ranged(s) && Apart(s)
    ensures Apart(StoreToken(s, nodeID))
  {
    assert TOKEN <= Listing.TokenKey(nodeID);
  }

  lemma StepStaysApart(s: State, step: Step)
    requires Honest(s) && Ranged(s) && Kept(s) && Apart(s)
    requires Begins(step) ==> KeyOf(step) !in s.minted
    ensures Apart(Apply(s, step))
  {
    if Begins(step) {
      BeginApart(s, step);
    } else if OfWrite(step) && step.w in s.writes {
      WriteApart(s, step);
    } else if step.PutToken? {
      TokenApart(s, step.nodeID);
    }
  }

  lemma NextKeyIsNew(steps: seq<Step>)
    requires Fresh(steps) && steps != [] && Begins(steps[|steps| - 1])
    ensures KeyOf(steps[|steps| - 1]) !in Exec(steps[..|steps| - 1]).minted
  {
    var n := |steps| - 1;
    if KeyOf(steps[n]) in Exec(steps[..n]).minted {
      var i := MintedBySteps(steps[..n], KeyOf(steps[n]));
      EqualKeysSamePair(steps[i], steps[n]);
    }
  }

  lemma {:induction false} FreshRunsStayApart(steps: seq<Step>)
    requires Fresh(steps)
    ensures Apart(Exec(steps))
  {
    if steps != [] {
      var n := |steps| - 1;
      var before, step := steps[..n], steps[n];
      FreshRunsStayApart(before);
      RunsKeepInv(before);
      if Begins(step) {
        NextKeyIsNew(steps);
      }
      StepStaysApart(Exec(before), step);
    }
  }

  /**
   With fresh (receive time, id) pairs, the stored records of a type are the
   counter, plus commits still to be counted, plus abandoned commits, less what
   has expired.
   */
  lemma CountersAgree(steps: seq<Step>, t: string)
    requires Fresh(steps)
    ensures var s := Exec(steps);
      Count(s.db, IsType(t)) + At(s.expired, t)
        == At(s.counters, t) + Count(s.writes, IsUncounted(t)) + Count(s.writes, IsAbandoned(t))
  {
    RunsKeepInv(steps);
    FreshRunsStayApart(steps);
    assert Balanced(Exec(steps), t);
  }
}
