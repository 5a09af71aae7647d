/**
 The agent's delivery pipeline (agent/src/grpc.rs, events.rs): a bounded queue
 that outlives connections, and per connection a bounded bridge into the
 outbound stream. Any sequence of steps is a run: a step that is not enabled
 changes nothing.
 */
module AgentDelivery {
  import opened Bytes
  import opened Options

  const QUEUE_CAPACITY := 256
  const BRIDGE_CAPACITY := 256

  datatype Event = Event(body: Key, nodeID: Key)

  /**
   One connect-and-stream attempt: what its outbound stream was handed, what
   still waits in its bridge, and what was lost with it. After the attempt has
   ended its stream may still drain the bridge before it is torn down.
   */
  datatype Attempt = Attempt(handed: seq<Event>, bridge: seq<Event>, lost: seq<Event>, live: bool)

  datatype State = State(
    rx: seq<Event>,
    pending: Option<Event>,       // taken from rx, waiting for room in the bridge
    attempts: seq<Attempt>,
    closed: bool,                 // every sender is gone
    finished: bool,               // run_once returned Ok
    failures: nat,
    dropped: nat,                 // events that found rx full
    // history
    source: seq<Event>,           // everything the source produced
    kept: seq<nat>)               // positions in source that entered rx

  datatype Step =
    | Produce(event: Event)
    | CloseSource
    | ConnectFails
    | Open
    | TakeNext
    | Push
    | Yield(attempt: nat)
    | Fail
    | Discard(attempt: nat)
    | Finish

  const INIT := State([], None, [], false, false, 0, 0, [], [])

  function Stamp(e: Event, node: Key): Event {
    e.(nodeID := node)
  }

  predicate Live(s: State) {
    s.attempts != [] && s.attempts[|s.attempts| - 1].live
  }

  function Waiting(s: State): seq<Event> {
    if s.pending.Some? then [s.pending.value] else []
  }

  function SetLast(s: State, a: Attempt): State
    requires s.attempts != []
  {
    s.(attempts := s.attempts[..|s.attempts| - 1] + [a])
  }

  function Apply(node: Key, s: State, step: Step): State {
    match step
    case Produce(e) =>
      if s.closed then s
      else if |s.rx| < QUEUE_CAPACITY then s.(rx := s.rx + [e], source := s.source + [e], kept := s.kept + [|s.source|])
      else s.(source := s.source + [e], dropped := s.dropped + 1)
    case CloseSource => s.(closed := true)
    case ConnectFails => if Live(s) || s.finished then s else s.(failures := s.failures + 1)
    case Open => if Live(s) || s.finished then s else s.(attempts := s.attempts + [Attempt([], [], [], true)])
    case TakeNext =>
      if Live(s) && s.pending.None? && s.rx != [] then s.(pending := Some(Stamp(s.rx[0], node)), rx := s.rx[1..]) else s
    case Push =>
      if Live(s) && s.pending.Some? && |s.attempts[|s.attempts| - 1].bridge| < BRIDGE_CAPACITY then
        var a := s.attempts[|s.attempts| - 1];
        SetLast(s, a.(bridge := a.bridge + [s.pending.value])).(pending := None)
      else s
    case Yield(i) =>
      if i < |s.attempts| && s.attempts[i].bridge != [] then
        var a := s.attempts[i];
        s.(attempts := s.attempts[i := a.(handed := a.handed + [a.bridge[0]], bridge := a.bridge[1..])])
      else s
    case Fail =>
      if Live(s) then
        var a := s.attempts[|s.attempts| - 1];
        SetLast(s, a.(lost := a.lost + Waiting(s), live := false)).(pending := None, failures := s.failures + 1)
      else s
    case Discard(i) =>
      if i < |s.attempts| && !s.attempts[i].live then
        var a := s.attempts[i];
        s.(attempts := s.attempts[i := a.(bridge := [], lost := a.bridge + a.lost)])
      else s
    case Finish =>
      if Live(s) && s.pending.None? && s.rx == [] && s.closed then
        var a := s.attempts[|s.attempts| - 1];
        SetLast(s, a.(live := false)).(finished := true)
      else s
  }

  function Exec(node: Key, steps: seq<Step>): State {
    if steps == [] then INIT else Apply(node, Exec(node, steps[..|steps| - 1]), steps[|steps| - 1])
  }

  // ----- the ledger

  /** Everything that went into an attempt, in order. */
  function Trace(a: Attempt): seq<Event> {
    a.handed + a.bridge + a.lost
  }

  function Traces(attempts: seq<Attempt>): seq<Event> {
    if attempts == [] then [] else Traces(attempts[..|attempts| - 1]) + Trace(attempts[|attempts| - 1])
  }

  function Stamped(es: seq<Event>, node: Key): (r: seq<Event>)
    ensures |r| == |es|
  {
    seq(|es|, i requires 0 <= i < |es| => Stamp(es[i], node))
  }

  ghost predicate Increasing(f: seq<nat>, bound: nat) {
    (forall i :: 0 <= i < |f| ==> f[i] < bound) && forall i, j :: 0 <= i < j < |f| ==> f[i] < f[j]
  }

  function Pick(f: seq<nat>, es: seq<Event>): (r: seq<Event>)
    requires forall i :: 0 <= i < |f| ==> f[i] < |es|
    ensures |r| == |f|
  {
    seq(|f|, i requires 0 <= i < |f| => es[f[i]])
  }

  /**
   The events that entered the queue, stamped, are exactly: what the attempts
   took in, one after another, then the pending one, then what is still queued.
   */
  ghost predicate Ledger(node: Key, s: State) {
    && Increasing(s.kept, |s.source|)
    && Traces(s.attempts) + Waiting(s) + Stamped(s.rx, node) == Stamped(Pick(s.kept, s.source), node)
  }

  ghost predicate Bounded(s: State) {
    && |s.rx| <= 256 && |s.source| == |s.kept| + s.dropped
    && (s.pending.Some? ==> Live(s))
    && (forall i :: 0 <= i < |s.attempts| - 1 ==> !s.attempts[i].live)
    && (forall i :: 0 <= i < |s.attempts| ==>
          && (s.attempts[i].live ==> s.attempts[i].lost == [])
          && |s.attempts[i].bridge| <= 256
          && |s.attempts[i].bridge| + |s.attempts[i].lost| <= 257)
    && (s.finished ==> s.closed && s.rx == [] && !Live(s))
  }

  lemma StepBounded(node: Key, s: State, step: Step)
    requires Bounded(s)
    ensures Bounded(Apply(node, s, step))
  {
  }

  lemma {:induction false} TracesPut(attempts: seq<Attempt>, i: nat, a: Attempt)
    requires i < |attempts| && Trace(a) == Trace(attempts[i])
    ensures Traces(attempts[i := a]) == Traces(attempts)
  {
    var n := |attempts| - 1;
    if i == n {
      assert attempts[i := a][..n] == attempts[..n];
    } else {
      assert attempts[i := a][..n] == attempts[..n][i := a];
      TracesPut(attempts[..n], i, a);
    }
  }

  lemma TracesLast(attempts: seq<Attempt>, a: Attempt)
    ensures Traces(attempts + [a]) == Traces(attempts) + Trace(a)
  {
    assert (attempts + [a])[..|attempts|] == attempts;
  }

  lemma PickSnoc(f: seq<nat>, es: seq<Event>, e: Event)
    requires forall i :: 0 <= i < |f| ==> f[i] < |es|
    ensures Pick(f, es + [e]) == Pick(f, es)
    ensures Pick(f + [|es|], es + [e]) == Pick(f, es) + [e]
  {
  }

  lemma StampedSnoc(es: seq<Event>, e: Event, node: Key)
    ensures Stamped(es + [e], node) == Stamped(es, node) + [Stamp(e, node)]
  {
  }

  lemma ProduceKeepsLedger(node: Key, s: State, e: Event)
    requires Ledger(node, s) && !s.closed
    ensures Ledger(node, Apply(node, s, Produce(e)))
  {
    PickSnoc(s.kept, s.source, e);
    if |s.rx| < QUEUE_CAPACITY {
      StampedSnoc(Pick(s.kept, s.source), e, node);
      StampedSnoc(s.rx, e, node);
      var front := Traces(s.attempts) + Waiting(s);
      assert front + (Stamped(s.rx, node) + [Stamp(e, node)]) == (front + Stamped(s.rx, node)) + [Stamp(e, node)];
    }
  }

  lemma TakeKeepsLedger(node: Key, s: State)
    requires Ledger(node, s) && Live(s) && s.pending.None? && s.rx != []
    ensures Ledger(node, Apply(node, s, TakeNext))
  {
    assert Stamped(s.rx, node) == [Stamp(s.rx[0], node)] + Stamped(s.rx[1..], node);
  }

  /** The last attempt takes in the pending event, if any. */
  lemma LastKeepsLedger(node: Key, s: State, a: Attempt, s': State)
    requires Ledger(node, s) && s.attempts != []
    requires Trace(a) + Waiting(s') == Trace(s.attempts[|s.attempts| - 1]) + Waiting(s)
    requires s'.attempts == s.attempts[..|s.attempts| - 1] + [a]
    requires s'.rx == s.rx && s'.source == s.source && s'.kept == s.kept
    ensures Ledger(node, s')
  {
    var init, last := s.attempts[..|s.attempts| - 1], s.attempts[|s.attempts| - 1];
    TracesLast(init, a);
    assert Traces(s.attempts) == Traces(init) + Trace(last);
    assert Traces(s'.attempts) + Waiting(s') == Traces(init) + (Trace(a) + Waiting(s'));
    assert Traces(s.attempts) + Waiting(s) == Traces(init) + (Trace(last) + Waiting(s));
  }

  lemma PushKeepsLedger(node: Key, s: State)
    requires Ledger(node, s) && Bounded(s) && Live(s) && s.pending.Some?
    ensures Ledger(node, Apply(node, s, Push))
  {
    var last, s' := s.attempts[|s.attempts| - 1], Apply(node, s, Push);
    if |last.bridge| < BRIDGE_CAPACITY {
      var a := last.(bridge := last.bridge + [s.pending.value]);
      assert Trace(a) + [] == Trace(last) + [s.pending.value];
      LastKeepsLedger(node, s, a, s');
    }
  }

  lemma EndKeepsLedger(node: Key, s: State, step: Step)
    requires Ledger(node, s) && Live(s) && (step.Fail? || step.Finish?)
    ensures Ledger(node, Apply(node, s, step))
  {
    var last, s' := s.attempts[|s.attempts| - 1], Apply(node, s, step);
    if s' != s {
      var a := last.(lost := last.lost + Waiting(s), live := false);
      assert Trace(a) + [] == Trace(last) + Waiting(s);
      assert step.Finish? ==> last.lost + Waiting(s) == last.lost;
      LastKeepsLedger(node, s, a, s');
    }
  }

  lemma AttemptKeepsLedger(node: Key, s: State, step: Step)
    requires Ledger(node, s) && (step.Yield? || step.Discard?)
    ensures Ledger(node, Apply(node, s, step))
  {
    var i := step.attempt;
    if i < |s.attempts| {
      var a := s.attempts[i];
      if step.Yield? && a.bridge != [] {
        TracesPut(s.attempts, i, a.(handed := a.handed + [a.bridge[0]], bridge := a.bridge[1..]));
      } else if step.Discard? && !a.live {
        TracesPut(s.attempts, i, a.(bridge := [], lost := a.bridge + a.lost));
      }
    }
  }

  lemma OpenKeepsLedger(node: Key, s: State)
    requires Ledger(node, s)
    ensures Ledger(node, Apply(node, s, Open))
  {
    TracesLast(s.attempts, Attempt([], [], [], true));
  }

  lemma StepLedger(node: Key, s: State, step: Step)
    requires Ledger(node, s) && Bounded(s)
    ensures Ledger(node, Apply(node, s, step))
  {
    match step {
      case Produce(e) => if !s.closed { ProduceKeepsLedger(node, s, e); }
      case TakeNext => if Live(s) && s.pending.None? && s.rx != [] { TakeKeepsLedger(node, s); }
      case Open => OpenKeepsLedger(node, s);
      case Push => if Live(s) && s.pending.Some? { PushKeepsLedger(node, s); }
      case Fail => if Live(s) { EndKeepsLedger(node, s, step); }
      case Finish => if Live(s) { EndKeepsLedger(node, s, step); }
      case Yield(_) => AttemptKeepsLedger(node, s, step);
      case Discard(_) => AttemptKeepsLedger(node, s, step);
      case CloseSource =>
      case ConnectFails =>
    }
  }

  /** Every run keeps the ledger and the capacities. */
  lemma {:induction false} RunsKeepLedger(node: Key, steps: seq<Step>)
    ensures Ledger(node, Exec(node, steps)) && Bounded(Exec(node, steps))
  {
    if steps != [] {
      RunsKeepLedger(node, steps[..|steps| - 1]);
      StepLedger(node, Exec(node, steps[..|steps| - 1]), steps[|steps| - 1]);
      StepBounded(node, Exec(node, steps[..|steps| - 1]), steps[|steps| - 1]);
    }
  }

  // ----- order, duplication, loss

  /** Everything the outbound streams were handed, stream after stream. */
  function Handed(attempts: seq<Attempt>): seq<Event> {
    if attempts == [] then [] else Handed(attempts[..|attempts| - 1]) + attempts[|attempts| - 1].handed
  }

  /** a is b with some elements left out; f says where each of its elements sits in b. */
  ghost predicate Embeds(f: seq<nat>, a: seq<Event>, b: seq<Event>) {
    |f| == |a| && Increasing(f, |b|) && forall i :: 0 <= i < |a| ==> a[i] == b[f[i]]
  }

  function Shift(base: nat, n: nat): (f: seq<nat>)
    ensures |f| == n && forall i :: 0 <= i < n ==> f[i] == base + i
  {
    seq(n, i requires 0 <= i < n => base + i)
  }

  lemma EmbedsConcat(g: seq<nat>, a: seq<Event>, b: seq<Event>, handed: seq<Event>, rest: seq<Event>)
    requires Embeds(g, a, b)
    ensures Embeds(g + Shift(|b|, |handed|), a + handed, b + (handed + rest))
  {
    var f, a', b' := g + Shift(|b|, |handed|), a + handed, b + (handed + rest);
    forall i | 0 <= i < |a'|
      ensures f[i] < |b'| && a'[i] == b'[f[i]]
    {
      if i >= |a| {
        assert f[i] == |b| + (i - |a|);
      }
    }
  }

  lemma {:induction false} HandedEmbeds(attempts: seq<Attempt>) returns (f: seq<nat>)
    ensures Embeds(f, Handed(attempts), Traces(attempts))
  {
    if attempts == [] {
      f := [];
    } else {
      var n := |attempts| - 1;
      var last := attempts[n];
      var g := HandedEmbeds(attempts[..n]);
      EmbedsConcat(g, Handed(attempts[..n]), Traces(attempts[..n]), last.handed, last.bridge + last.lost);
      assert Trace(last) == last.handed + (last.bridge + last.lost);
      f := g + Shift(|Traces(attempts[..n])|, |last.handed|);
    }
  }

  lemma EmbedsThrough(f: seq<nat>, a: seq<Event>, b: seq<Event>, rest: seq<Event>,
                      kept: seq<nat>, source: seq<Event>, node: Key)
    returns (g: seq<nat>)
    requires Embeds(f, a, b) && Increasing(kept, |source|)
    requires b + rest == Stamped(Pick(kept, source), node)
    ensures Embeds(g, a, Stamped(source, node))
  {
    g := seq(|f|, i requires 0 <= i < |f| => kept[f[i]]);
    forall i | 0 <= i < |a|
      ensures a[i] == Stamped(source, node)[g[i]]
    {
      assert a[i] == (b + rest)[f[i]];
    }
  }

  /**
   Over any number of reconnects, the events handed to the successive streams
   are source events, each stamped with the node id, in source order and each
   source position at most once.
   */
  lemma DeliveryIsInOrder(node: Key, steps: seq<Step>) returns (f: seq<nat>)
    ensures var s := Exec(node, steps);
      && |f| == |Handed(s.attempts)| && Increasing(f, |s.source|)
      && forall i :: 0 <= i < |f| ==>
           Handed(s.attempts)[i].nodeID == node && Handed(s.attempts)[i].body == s.source[f[i]].body
  {
    var s := Exec(node, steps);
    RunsKeepLedger(node, steps);
    var g := HandedEmbeds(s.attempts);
    var rest := Waiting(s) + Stamped(s.rx, node);
    Associative(Traces(s.attempts), Waiting(s), Stamped(s.rx, node));
    f := EmbedsThrough(g, Handed(s.attempts), Traces(s.attempts), rest, s.kept, s.source, node);
    StampedMeans(f, Handed(s.attempts), s.source, node);
  }

  lemma Associative(a: seq<Event>, b: seq<Event>, c: seq<Event>)
    ensures a + b + c == a + (b + c)
  {
  }

  lemma StampedMeans(f: seq<nat>, a: seq<Event>, source: seq<Event>, node: Key)
    requires Embeds(f, a, Stamped(source, node))
    ensures |f| == |a| && Increasing(f, |source|)
    ensures forall i :: 0 <= i < |f| ==> a[i].nodeID == node && a[i].body == source[f[i]].body
  {
  }

  function LostCount(attempts: seq<Attempt>): nat {
    if attempts == [] then 0 else LostCount(attempts[..|attempts| - 1]) + |attempts[|attempts| - 1].lost|
  }

  function BridgedCount(attempts: seq<Attempt>): nat {
    if attempts == [] then 0 else BridgedCount(attempts[..|attempts| - 1]) + |attempts[|attempts| - 1].bridge|
  }

  function EndedCount(attempts: seq<Attempt>): nat {
    if attempts == [] then 0
    else EndedCount(attempts[..|attempts| - 1]) + if attempts[|attempts| - 1].live then 0 else 1
  }

  lemma {:induction false} CountsOf(attempts: seq<Attempt>)
    requires forall i :: 0 <= i < |attempts| ==>
      && (attempts[i].live ==> attempts[i].lost == [])
      && |attempts[i].bridge| + |attempts[i].lost| <= 257
    ensures |Traces(attempts)| == |Handed(attempts)| + BridgedCount(attempts) + LostCount(attempts)
    ensures LostCount(attempts) <= 257 * EndedCount(attempts)
  {
    if attempts != [] {
      CountsOf(attempts[..|attempts| - 1]);
    }
  }

  lemma {:induction false} EndedPut(attempts: seq<Attempt>, i: nat, a: Attempt)
    requires i < |attempts| && a.live == attempts[i].live
    ensures EndedCount(attempts[i := a]) == EndedCount(attempts)
  {
    var n := |attempts| - 1;
    if i == n {
      assert attempts[i := a][..n] == attempts[..n];
    } else {
      assert attempts[i := a][..n] == attempts[..n][i := a];
      EndedPut(attempts[..n], i, a);
    }
  }

  lemma StepEnds(node: Key, s: State, step: Step)
    requires EndedCount(s.attempts) <= s.failures + if s.finished then 1 else 0
    requires s.finished ==> !Live(s)
    ensures var s' := Apply(node, s, step); EndedCount(s'.attempts) <= s'.failures + if s'.finished then 1 else 0
  {
    var s' := Apply(node, s, step);
    if s'.attempts != s.attempts {
      match step {
        case Yield(i) => EndedPut(s.attempts, i, s'.attempts[i]);
        case Discard(i) => EndedPut(s.attempts, i, s'.attempts[i]);
        case Open => assert s'.attempts[..|s.attempts|] == s.attempts;
        case Push => assert s'.attempts[..|s.attempts| - 1] == s.attempts[..|s.attempts| - 1];
        case Fail => assert s'.attempts[..|s.attempts| - 1] == s.attempts[..|s.attempts| - 1];
        case Finish => assert s'.attempts[..|s.attempts| - 1] == s.attempts[..|s.attempts| - 1];
        case _ =>
      }
    }
  }

  lemma {:induction false} EndsAreFailures(node: Key, steps: seq<Step>)
    ensures var s := Exec(node, steps); EndedCount(s.attempts) <= s.failures + if s.finished then 1 else 0
  {
    if steps != [] {
      EndsAreFailures(node, steps[..|steps| - 1]);
      RunsKeepLedger(node, steps[..|steps| - 1]);
      StepEnds(node, Exec(node, steps[..|steps| - 1]), steps[|steps| - 1]);
    }
  }

  /**
   Conservation: every event of the source was counted as dropped, was handed to
   a stream, lies in a bridge, is pending, is still queued, or was lost; and each
   ended attempt lost at most one bridge and the pending event.
   */
  lemma LossIsBounded(node: Key, steps: seq<Step>)
    ensures var s := Exec(node, steps);
      && |s.source| == s.dropped + |Handed(s.attempts)| + BridgedCount(s.attempts) + |Waiting(s)| + |s.rx|
                       + LostCount(s.attempts)
      && LostCount(s.attempts) <= 257 * EndedCount(s.attempts)
      && EndedCount(s.attempts) <= s.failures + if s.finished then 1 else 0
  {
    var s := Exec(node, steps);
    RunsKeepLedger(node, steps);
    EndsAreFailures(node, steps);
    CountsOf(s.attempts);
    assert |Traces(s.attempts) + Waiting(s) + Stamped(s.rx, node)| == |Traces(s.attempts)| + |Waiting(s)| + |s.rx|;
  }

  // ----- the source and its drops

  /** The events the source produced before it closed. */
  function Produced(steps: seq<Step>): seq<Event> {
    if steps == [] then []
    else
      var before, last := steps[..|steps| - 1], steps[|steps| - 1];
      Produced(before) + if last.Produce? && CloseSource !in before then [last.event] else []
  }

  lemma StepSource(node: Key, s: State, step: Step)
    ensures var s' := Apply(node, s, step);
      && s'.source == s.source + (if step.Produce? && !s.closed then [step.event] else [])
      && s'.kept == s.kept + (if step.Produce? && !s.closed && |s.rx| < QUEUE_CAPACITY then [|s.source|] else [])
      && (s'.closed <==> s.closed || step.CloseSource?)
  {
  }

  /** The history is what was produced. */
  lemma {:induction false} SourceIsProduced(node: Key, steps: seq<Step>)
    ensures Exec(node, steps).source == Produced(steps)
    ensures Exec(node, steps).closed <==> CloseSource in steps
  {
    if steps != [] {
      var before := steps[..|steps| - 1];
      SourceIsProduced(node, before);
      StepSource(node, Exec(node, before), steps[|steps| - 1]);
      assert steps == before + [steps[|steps| - 1]];
    }
  }

  /** Event number k was produced at step t, when the queue held 256 events. */
  ghost predicate FoundFull(node: Key, steps: seq<Step>, k: nat, t: nat) {
    && t < |steps| && steps[t].Produce?
    && |Exec(node, steps[..t]).source| == k && |Exec(node, steps[..t]).rx| == 256
  }

  /** An event that never entered the queue found it full. */
  lemma {:induction false} DropsFindTheQueueFull(node: Key, steps: seq<Step>, k: nat) returns (t: nat)
    requires k < |Exec(node, steps).source| && k !in Exec(node, steps).kept
    ensures FoundFull(node, steps, k, t)
  {
    var n := |steps| - 1;
    var s := Exec(node, steps[..n]);
    StepSource(node, s, steps[n]);
    RunsKeepLedger(node, steps[..n]);
    if k < |s.source| {
      t := DropsFindTheQueueFull(node, steps[..n], k);
      assert steps[..n][..t] == steps[..t];
    } else {
      t := n;
    }
  }

  /** What is queued goes out: with a connection that is idle, the next event is handed to its stream, stamped. */
  lemma NextEventIsHanded(node: Key, s: State)
    requires Live(s) && s.pending.None? && s.rx != [] && s.attempts[|s.attempts| - 1].bridge == []
    ensures var last := |s.attempts| - 1;
      var s' := Apply(node, Apply(node, Apply(node, s, TakeNext), Push), Yield(last));
      && s'.rx == s.rx[1..] && s'.pending.None? && |s'.attempts| == |s.attempts| && Live(s')
      && s'.attempts[last].bridge == []
      && s'.attempts[last].handed == s.attempts[last].handed + [Event(s.rx[0].body, node)]
  {
    var last := |s.attempts| - 1;
    var s1 := Apply(node, s, TakeNext);
    var s2 := Apply(node, s1, Push);
    assert s2.attempts[last].bridge == [Event(s.rx[0].body, node)];
  }
}
