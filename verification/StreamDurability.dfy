/**
 A stream's acknowledgements against the store (receiver/grpc.go,
 store/badger.go): the outcomes a stream's turns carry are what the writes of a
 run of the store returned.
 */
module StreamDurability {
  import opened Bytes
  import opened StreamIngest
  import Store = StoreProtocol
  import Runs = StoreRuns

  /** The store's record of a turn: the same event, one write per alert, the same outcomes. */
  ghost predicate Matches(a: Store.Ack, turn: Turn) {
    && turn.Got? && a.eventID == turn.event.eventID
    && |a.alerts| == |turn.alerts| && |a.fates| == 1 + |turn.alerts|
    && (turn.saved <==> a.fates[0].Saved?)
    && forall j :: 0 <= j < |turn.alerts| ==> (turn.alerts[j].saved <==> a.fates[j + 1].Saved?)
  }

  lemma AllSavedIsOk(a: Store.Ack, turn: Turn)
    requires Matches(a, turn)
    ensures AllSaved(turn) <==> Store.Ok(a)
  {
    if AllSaved(turn) {
      forall j | 0 <= j < |a.fates|
        ensures a.fates[j].Saved?
      {
        assert j > 0 ==> turn.alerts[j - 1].saved;
      }
    }
    if Store.Ok(a) {
      forall j | 0 <= j < |turn.alerts|
        ensures turn.alerts[j].saved
      {
        assert a.fates[j + 1].Saved?;
      }
    }
  }

  /** Every accepted event of the stream was a turn of the store; turn k's is acknowledgement told[k]. */
  ghost predicate Told(acks: seq<Store.Ack>, told: seq<nat>, admits: seq<bool>, turns: seq<Turn>,
                       authed: Key, parsesIP: Key -> bool)
  {
    && |told| == |admits| == |turns| && AllGot(turns)
    && forall k :: 0 <= k < |turns| && Accepted(admits[k], turns[k].event, authed, parsesIP) ==>
         told[k] < |acks| && Matches(acks[told[k]], turns[k])
  }

  /**
   For every stream over every run of the store: a true acknowledgement means
   that the event and every alert it raised are committed, and an accepted event
   is answered false only when some write of its turn did not return nil.
   */
  lemma AckTrueMeansCommitted(steps: seq<Store.Step>, told: seq<nat>, admits: seq<bool>, turns: seq<Turn>,
                              authed: Key, parsesIP: Key -> bool, acks: seq<bool>, k: nat)
    requires AcksAnswer(admits, turns, authed, parsesIP, acks) && k < |acks|
    requires Told(Store.Exec(steps).acks, told, admits, turns, authed, parsesIP)
    ensures acks[k] ==>
      && told[k] < |Store.Exec(steps).acks|
      && var a := Store.Exec(steps).acks[told[k]];
         a.eventID == turns[k].event.eventID && |Store.Keys(a)| == 1 + |turns[k].alerts|
         && forall key <- Store.Keys(a) :: key in Store.Exec(steps).committed
    ensures !acks[k] && Accepted(admits[k], turns[k].event, authed, parsesIP) ==>
      told[k] < |Store.Exec(steps).acks| && !Store.Ok(Store.Exec(steps).acks[told[k]])
  {
    var s := Store.Exec(steps);
    assert AckAnswers(admits, turns, authed, parsesIP, acks, k);
    if Accepted(admits[k], turns[k].event, authed, parsesIP) {
      var a := s.acks[told[k]];
      AllSavedIsOk(a, turns[k]);
      if acks[k] {
        forall key <- Store.Keys(a)
          ensures key in s.committed
        {
          Runs.TrueAckIsDurable(steps, told[k], key);
        }
      }
    }
  }
}
