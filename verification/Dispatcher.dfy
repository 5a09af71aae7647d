/**
 Alert dispatch (notify/notify.go) as interleaved steps. Each call of
 DispatchAsync is a job; its goroutine reads the clock before it takes the
 lock, so readings may reach the lock out of order. Any sequence of steps is a
 run: a step that is not enabled changes nothing.
 */
module Dispatcher {
  import opened Bytes
  import opened Sums

  type Time = int

  const MAX_CONCURRENT := 32

  datatype Config = Config(cooldown: int, minRank: int)

  /** `rank` is the severity's place on the severity scale. */
  datatype Alert = Alert(ruleID: Key, nodeID: Key, rank: int)

  datatype Stage =
    | Dropping                 // found no free slot, not yet counted
    | Dropped
    | Started                  // holds a slot
    | Reading(now: Time)       // above the floor, clock read, not yet under the lock
    | Sending
    | Suppressed
    | Finished(sent: bool)     // slot released

  datatype Job = Job(alert: Alert, stage: Stage)

  /** One decision taken under the lock, in lock order. */
  datatype Verdict = Verdict(job: nat, alert: Alert, now: Time, sent: bool)

  datatype State = State(clock: Time, jobs: map<nat, Job>, next: nat, slots: nat, dropped: nat,
                         lastSent: map<Key, Time>, verdicts: seq<Verdict>)

  datatype Step =
    | Tick(now: Time)
    | Call(alert: Alert)
    | CountDrop(id: nat)
    | Gate(id: nat)
    | Lock(id: nat)
    | Finish(id: nat)

  const INIT := State(0, map[], 0, 0, 0, map[], [])

  function CooldownKey(ruleID: Key, nodeID: Key): Key {
    ruleID + [NUL] + nodeID
  }

  function Move(s: State, id: nat, stage: Stage): State
    requires id in s.jobs
  {
    s.(jobs := s.jobs[id := Job(s.jobs[id].alert, stage)])
  }

  function Apply(cfg: Config, s: State, step: Step): State {
    match step
    case Tick(now) =>
      if now >= s.clock then s.(clock := now) else s
    case Call(alert) =>
      if s.slots < MAX_CONCURRENT then
        s.(jobs := s.jobs[s.next := Job(alert, Started)], next := s.next + 1, slots := s.slots + 1)
      else
        s.(jobs := s.jobs[s.next := Job(alert, Dropping)], next := s.next + 1)
    case CountDrop(id) =>
      if id in s.jobs && s.jobs[id].stage.Dropping? then Move(s, id, Dropped).(dropped := s.dropped + 1) else s
    case Gate(id) =>
      if id in s.jobs && s.jobs[id].stage.Started? then
        if s.jobs[id].alert.rank < cfg.minRank then Move(s, id, Suppressed)
        else if cfg.cooldown <= 0 then Move(s, id, Sending)
        else Move(s, id, Reading(s.clock))
      else s
    case Lock(id) =>
      if id in s.jobs && s.jobs[id].stage.Reading? then
        var alert, now := s.jobs[id].alert, s.jobs[id].stage.now;
        var key := CooldownKey(alert.ruleID, alert.nodeID);
        if key in s.lastSent && now - s.lastSent[key] < cfg.cooldown then
          Move(s, id, Suppressed).(verdicts := s.verdicts + [Verdict(id, alert, now, false)])
        else
          Move(s, id, Sending).(lastSent := s.lastSent[key := now],
                                verdicts := s.verdicts + [Verdict(id, alert, now, true)])
      else s
    case Finish(id) =>
      if id in s.jobs && (s.jobs[id].stage.Sending? || s.jobs[id].stage.Suppressed?) && s.slots > 0 then
        Move(s, id, Finished(s.jobs[id].stage.Sending?)).(slots := s.slots - 1)
      else s
  }

  function Exec(cfg: Config, steps: seq<Step>): State {
    if steps == [] then INIT else Apply(cfg, Exec(cfg, steps[..|steps| - 1]), steps[|steps| - 1])
  }

  // ----- the cooldown key

  lemma NoNulAfterRule(r: Key, n: Key)
    requires NulFree(n)
    ensures forall i :: |r| < i < |CooldownKey(r, n)| ==> CooldownKey(r, n)[i] != NUL
  {
    forall i | |r| < i < |CooldownKey(r, n)|
      ensures CooldownKey(r, n)[i] != NUL
    {
      assert CooldownKey(r, n)[i] == n[i - |r| - 1];
    }
  }

  /** Without a NUL in the node id the key determines both of its parts, whatever the rule id holds. */
  lemma CooldownKeyInjective(r: Key, n: Key, r': Key, n': Key)
    requires NulFree(n) && NulFree(n') && CooldownKey(r, n) == CooldownKey(r', n')
    ensures r == r' && n == n'
  {
    var k := CooldownKey(r, n);
    assert k[|r|] == NUL && k[|r'|] == NUL;
    NoNulAfterRule(r, n);
    NoNulAfterRule(r', n');
    assert |r| == |r'|;
    assert k[..|r|] == r && k[..|r'|] == r' && k[|r| + 1..] == n && k[|r'| + 1..] == n';
  }

  /** n goes on with a NUL and then n'. */
  predicate NulThen(n: Key, n': Key) {
    |n'| < |n| && n[|n| - |n'| - 1] == NUL && n[|n| - |n'|..] == n'
  }

  lemma MergeByNul(n: Key, n': Key)
    requires NulThen(n, n')
    ensures CooldownKey([], n) == CooldownKey([NUL] + n[..|n| - |n'| - 1], n')
  {
    var m := |n| - |n'| - 1;
    assert n == n[..m] + [NUL] + n';
  }

  lemma LongerNodeHasNul(r: Key, n: Key, r': Key, n': Key)
    requires CooldownKey(r, n) == CooldownKey(r', n') && |n'| < |n|
    ensures NulThen(n, n')
  {
    var k := CooldownKey(r, n);
    assert k[|r| + 1..] == n && k[|r'| + 1..] == n' && k[|r'|] == NUL;
    assert n[|r'| - |r|..] == k[|r'| + 1..] && n[|r'| - |r| - 1] == k[|r'|];
  }

  lemma EquallyLongNodes(r: Key, n: Key, r': Key, n': Key)
    requires CooldownKey(r, n) == CooldownKey(r', n') && |n| == |n'|
    ensures n == n'
  {
    var k := CooldownKey(r, n);
    assert k[|r| + 1..] == n && k[|r'| + 1..] == n';
  }

  /** Two nodes can share a cooldown key exactly when one id ends in a NUL and the other id. */
  lemma NodesMergeIff(n: Key, n': Key)
    requires n != n'
    ensures (exists r, r' :: CooldownKey(r, n) == CooldownKey(r', n')) <==> NulThen(n, n') || NulThen(n', n)
  {
    if NulThen(n, n') {
      MergeByNul(n, n');
    } else if NulThen(n', n) {
      MergeByNul(n', n);
    } else if r, r' :| CooldownKey(r, n) == CooldownKey(r', n') {
      if |n'| < |n| {
        LongerNodeHasNul(r, n, r', n');
      } else if |n| < |n'| {
        LongerNodeHasNul(r', n', r, n);
      } else {
        EquallyLongNodes(r, n, r', n');
      }
    }
  }

  // ----- slots and counters

  function HoldsSlot(j: Job): bool {
    j.stage.Started? || j.stage.Reading? || j.stage.Sending? || j.stage.Suppressed?
  }

  function WasDropped(j: Job): bool {
    j.stage.Dropped?
  }

  function IsDropping(j: Job): bool {
    j.stage.Dropping?
  }

  function HasFinished(j: Job): bool {
    j.stage.Finished?
  }

  /** A call that was given a slot, whether or not it still holds it. */
  function WasStarted(j: Job): bool {
    HoldsSlot(j) || HasFinished(j)
  }

  ghost predicate Accounted(s: State) {
    && s.slots == Count(s.jobs, HoldsSlot) <= 32
    && s.dropped == Count(s.jobs, WasDropped)
    && (forall id: nat :: id in s.jobs <==> id < s.next)
    && s.next == Count(s.jobs, WasStarted) + Count(s.jobs, WasDropped) + Count(s.jobs, IsDropping)
    && Count(s.jobs, WasStarted) == Count(s.jobs, HoldsSlot) + Count(s.jobs, HasFinished)
    && forall p :: 0 <= p < |s.verdicts| ==> s.verdicts[p].job in s.jobs && WasStarted(s.jobs[s.verdicts[p].job])
  }

  /** How a count changes when job id becomes j. */
  ghost predicate Moved(jobs: map<nat, Job>, id: nat, j: Job, p: Job -> bool) {
    Count(jobs[id := j], p) == Count(jobs, p) - Bit(id in jobs && p(jobs[id])) + Bit(p(j))
  }

  lemma PutCounts(jobs: map<nat, Job>, id: nat, j: Job)
    ensures Moved(jobs, id, j, HoldsSlot)
    ensures Moved(jobs, id, j, WasDropped)
    ensures Moved(jobs, id, j, IsDropping)
    ensures Moved(jobs, id, j, HasFinished)
    ensures Moved(jobs, id, j, WasStarted)
  {
    CountPut(jobs, id, j, HoldsSlot);
    CountPut(jobs, id, j, WasDropped);
    CountPut(jobs, id, j, IsDropping);
    CountPut(jobs, id, j, HasFinished);
    CountPut(jobs, id, j, WasStarted);
  }

  /** A job that changes stage without being started, dropped or counted twice keeps the books. */
  lemma MoveAccounts(s: State, id: nat, stage: Stage, log: seq<Verdict>, s': State)
    requires Accounted(s) && id in s.jobs
    requires s'.jobs == Move(s, id, stage).jobs && s'.next == s.next
    requires var j, j' := s.jobs[id], s'.jobs[id];
      && WasStarted(j) == WasStarted(j')
      && s'.slots == s.slots - Bit(HoldsSlot(j)) + Bit(HoldsSlot(j')) <= s.slots
      && s'.dropped == s.dropped - Bit(WasDropped(j)) + Bit(WasDropped(j'))
    requires s'.verdicts == s.verdicts + log && forall v <- log :: v.job == id && WasStarted(s.jobs[id])
    ensures Accounted(s')
  {
    PutCounts(s.jobs, id, s'.jobs[id]);
  }

  lemma CallAccounts(cfg: Config, s: State, alert: Alert)
    requires Accounted(s)
    ensures Accounted(Apply(cfg, s, Call(alert)))
  {
    var s' := Apply(cfg, s, Call(alert));
    PutCounts(s.jobs, s.next, s'.jobs[s.next]);
  }

  lemma LockAccounts(cfg: Config, s: State, id: nat)
    requires Accounted(s) && id in s.jobs && s.jobs[id].stage.Reading?
    ensures Accounted(Apply(cfg, s, Lock(id)))
  {
    var s' := Apply(cfg, s, Lock(id));
    MoveAccounts(s, id, s'.jobs[id].stage, s'.verdicts[|s.verdicts|..], s');
  }

  lemma DropAccounts(cfg: Config, s: State, id: nat)
    requires Accounted(s) && id in s.jobs
    ensures Accounted(Apply(cfg, s, CountDrop(id)))
  {
    if s.jobs[id].stage.Dropping? {
      MoveAccounts(s, id, Dropped, [], Apply(cfg, s, CountDrop(id)));
    }
  }

  lemma GateAccounts(cfg: Config, s: State, id: nat)
    requires Accounted(s) && id in s.jobs
    ensures Accounted(Apply(cfg, s, Gate(id)))
  {
    if s.jobs[id].stage.Started? {
      var s' := Apply(cfg, s, Gate(id));
      MoveAccounts(s, id, s'.jobs[id].stage, [], s');
    }
  }

  lemma FinishAccounts(cfg: Config, s: State, id: nat)
    requires Accounted(s) && id in s.jobs
    ensures Accounted(Apply(cfg, s, Finish(id)))
  {
    var j, s' := s.jobs[id], Apply(cfg, s, Finish(id));
    if (j.stage.Sending? || j.stage.Suppressed?) && s.slots > 0 {
      MoveAccounts(s, id, Finished(j.stage.Sending?), [], s');
    }
  }

  lemma StepAccounts(cfg: Config, s: State, step: Step)
    requires Accounted(s)
    ensures Accounted(Apply(cfg, s, step))
  {
    match step {
      case Tick(_) =>
      case Call(alert) => CallAccounts(cfg, s, alert);
      case Lock(id) => if id in s.jobs && s.jobs[id].stage.Reading? { LockAccounts(cfg, s, id); }
      case CountDrop(id) => if id in s.jobs { DropAccounts(cfg, s, id); }
      case Gate(id) => if id in s.jobs { GateAccounts(cfg, s, id); }
      case Finish(id) => if id in s.jobs { FinishAccounts(cfg, s, id); }
    }
  }

  /**
   In every run at most 32 dispatches hold a slot; slots in use are the started
   calls that have not finished; every call is started or dropped and never
   both; only started calls reach a decision under the lock.
   */
  lemma {:induction false} DispatchAccounted(cfg: Config, steps: seq<Step>)
    ensures Accounted(Exec(cfg, steps))
  {
    if steps == [] {
      assert Select(INIT.jobs, HoldsSlot) == {} && Select(INIT.jobs, WasDropped) == {};
      assert Select(INIT.jobs, IsDropping) == {} && Select(INIT.jobs, HasFinished) == {};
      assert Select(INIT.jobs, WasStarted) == {};
    } else {
      DispatchAccounted(cfg, steps[..|steps| - 1]);
      StepAccounts(cfg, Exec(cfg, steps[..|steps| - 1]), steps[|steps| - 1]);
    }
  }

  // ----- cooldown

  /** Recorded times of the sends for one key, in lock order. */
  function SendTimes(vs: seq<Verdict>, key: Key): seq<Time> {
    if vs == [] then []
    else
      var v := vs[|vs| - 1];
      SendTimes(vs[..|vs| - 1], key)
        + if v.sent && CooldownKey(v.alert.ruleID, v.alert.nodeID) == key then [v.now] else []
  }

  /** Recorded times of the sends for one rule and node, in lock order. */
  function PairTimes(vs: seq<Verdict>, ruleID: Key, nodeID: Key): seq<Time> {
    if vs == [] then []
    else
      var v := vs[|vs| - 1];
      PairTimes(vs[..|vs| - 1], ruleID, nodeID)
        + if v.sent && v.alert.ruleID == ruleID && v.alert.nodeID == nodeID then [v.now] else []
  }

  ghost predicate Spaced(ts: seq<Time>, gap: int) {
    forall i :: 0 < i < |ts| ==> ts[i] - ts[i - 1] >= gap
  }

  /** A suppressed verdict has an earlier send of its key less than one cooldown before its reading. */
  ghost predicate Justified(vs: seq<Verdict>, p: nat, cooldown: int)
    requires p < |vs|
  {
    exists q :: 0 <= q < p && vs[q].sent && vs[p].now - vs[q].now < cooldown
      && CooldownKey(vs[q].alert.ruleID, vs[q].alert.nodeID) == CooldownKey(vs[p].alert.ruleID, vs[p].alert.nodeID)
  }

  /** The recorded time of a key is its latest send, and its sends are spaced. */
  ghost predicate KeyCooled(lastSent: map<Key, Time>, vs: seq<Verdict>, cooldown: int, key: Key) {
    var ts := SendTimes(vs, key);
    && (key in lastSent <==> ts != [])
    && (key in lastSent ==> lastSent[key] == ts[|ts| - 1])
    && Spaced(ts, cooldown)
  }

  ghost predicate Cooled(lastSent: map<Key, Time>, vs: seq<Verdict>, cooldown: int) {
    && (forall key :: KeyCooled(lastSent, vs, cooldown, key))
    && (forall p: nat :: p < |vs| && !vs[p].sent ==> Justified(vs, p, cooldown))
  }

  lemma {:induction false} LastSendIsLogged(vs: seq<Verdict>, key: Key) returns (q: nat)
    requires SendTimes(vs, key) != []
    ensures q < |vs| && vs[q].sent && CooldownKey(vs[q].alert.ruleID, vs[q].alert.nodeID) == key
    ensures vs[q].now == SendTimes(vs, key)[|SendTimes(vs, key)| - 1]
  {
    var n := |vs| - 1;
    if vs[n].sent && CooldownKey(vs[n].alert.ruleID, vs[n].alert.nodeID) == key {
      q := n;
    } else {
      q := LastSendIsLogged(vs[..n], key);
    }
  }

  lemma JustifiedStays(vs: seq<Verdict>, v: Verdict, cooldown: int, p: nat)
    requires p < |vs| && Justified(vs, p, cooldown)
    ensures Justified(vs + [v], p, cooldown)
  {
    var q :| 0 <= q < p && vs[q].sent && vs[p].now - vs[q].now < cooldown
      && CooldownKey(vs[q].alert.ruleID, vs[q].alert.nodeID) == CooldownKey(vs[p].alert.ruleID, vs[p].alert.nodeID);
    assert (vs + [v])[q] == vs[q];
  }

  lemma SendTimesSnoc(vs: seq<Verdict>, v: Verdict, key: Key)
    ensures SendTimes(vs + [v], key)
         == SendTimes(vs, key) + if v.sent && CooldownKey(v.alert.ruleID, v.alert.nodeID) == key then [v.now] else []
  {
    assert (vs + [v])[..|vs|] == vs;
  }

  lemma SendCools(lastSent: map<Key, Time>, vs: seq<Verdict>, cooldown: int, v: Verdict)
    requires Cooled(lastSent, vs, cooldown) && v.sent
    requires var key := CooldownKey(v.alert.ruleID, v.alert.nodeID);
      key in lastSent ==> v.now - lastSent[key] >= cooldown
    ensures Cooled(lastSent[CooldownKey(v.alert.ruleID, v.alert.nodeID) := v.now], vs + [v], cooldown)
  {
    var lastSent' := lastSent[CooldownKey(v.alert.ruleID, v.alert.nodeID) := v.now];
    forall key
      ensures KeyCooled(lastSent', vs + [v], cooldown, key)
    {
      assert KeyCooled(lastSent, vs, cooldown, key);
      SendTimesSnoc(vs, v, key);
    }
    forall p: nat | p < |vs + [v]| && !(vs + [v])[p].sent
      ensures Justified(vs + [v], p, cooldown)
    {
      JustifiedStays(vs, v, cooldown, p);
    }
  }

  lemma SuppressionCools(lastSent: map<Key, Time>, vs: seq<Verdict>, cooldown: int, v: Verdict)
    requires Cooled(lastSent, vs, cooldown) && !v.sent
    requires var key := CooldownKey(v.alert.ruleID, v.alert.nodeID);
      key in lastSent && v.now - lastSent[key] < cooldown
    ensures Cooled(lastSent, vs + [v], cooldown)
  {
    var k := CooldownKey(v.alert.ruleID, v.alert.nodeID);
    assert KeyCooled(lastSent, vs, cooldown, k);
    forall key
      ensures KeyCooled(lastSent, vs + [v], cooldown, key)
    {
      assert KeyCooled(lastSent, vs, cooldown, key);
      SendTimesSnoc(vs, v, key);
    }
    forall p: nat | p < |vs + [v]| && !(vs + [v])[p].sent
      ensures Justified(vs + [v], p, cooldown)
    {
      if p < |vs| {
        JustifiedStays(vs, v, cooldown, p);
      } else {
        var q := LastSendIsLogged(vs, k);
        assert (vs + [v])[q] == vs[q];
      }
    }
  }

  lemma StepCools(cfg: Config, s: State, step: Step)
    requires Cooled(s.lastSent, s.verdicts, cfg.cooldown)
    ensures var s' := Apply(cfg, s, step); Cooled(s'.lastSent, s'.verdicts, cfg.cooldown)
  {
    var s' := Apply(cfg, s, step);
    if s'.verdicts != s.verdicts {
      var v := s'.verdicts[|s.verdicts|];
      if v.sent {
        SendCools(s.lastSent, s.verdicts, cfg.cooldown, v);
      } else {
        SuppressionCools(s.lastSent, s.verdicts, cfg.cooldown, v);
      }
    }
  }

  lemma {:induction false} RunsCool(cfg: Config, steps: seq<Step>)
    ensures Cooled(Exec(cfg, steps).lastSent, Exec(cfg, steps).verdicts, cfg.cooldown)
  {
    if steps != [] {
      RunsCool(cfg, steps[..|steps| - 1]);
      StepCools(cfg, Exec(cfg, steps[..|steps| - 1]), steps[|steps| - 1]);
    }
  }

  /** Every alert that reaches the dispatcher has a NUL-free node id. */
  ghost predicate Ingested(steps: seq<Step>) {
    forall i :: 0 <= i < |steps| && steps[i].Call? ==> NulFree(steps[i].alert.nodeID)
  }

  lemma {:induction false} VerdictsIngested(cfg: Config, steps: seq<Step>)
    requires Ingested(steps)
    ensures forall id :: id in Exec(cfg, steps).jobs ==> NulFree(Exec(cfg, steps).jobs[id].alert.nodeID)
    ensures forall p :: 0 <= p < |Exec(cfg, steps).verdicts| ==> NulFree(Exec(cfg, steps).verdicts[p].alert.nodeID)
  {
    if steps != [] {
      VerdictsIngested(cfg, steps[..|steps| - 1]);
    }
  }

  /** Without a cooldown nothing is ever decided under the lock. */
  lemma {:induction false} NoCooldownNoVerdicts(cfg: Config, steps: seq<Step>)
    requires cfg.cooldown <= 0
    ensures Exec(cfg, steps).verdicts == []
    ensures forall id <- Exec(cfg, steps).jobs :: !Exec(cfg, steps).jobs[id].stage.Reading?
  {
    if steps != [] {
      NoCooldownNoVerdicts(cfg, steps[..|steps| - 1]);
    }
  }

  ghost predicate NoLater(ts: seq<Time>, all: seq<Time>) {
    ts != [] ==> all != [] && ts[|ts| - 1] <= all[|all| - 1]
  }

  /** One more time for the longer list, and for the shorter one only if for the longer. */
  lemma SpacedJoin(ts: seq<Time>, all: seq<Time>, t: Time, gap: int, both: bool)
    requires gap >= 0 && Spaced(ts, gap) && Spaced(all + [t], gap) && NoLater(ts, all)
    ensures NoLater(ts, all + [t])
    ensures both ==> Spaced(ts + [t], gap) && NoLater(ts + [t], all + [t])
  {
    var longer := all + [t];
    if ts != [] {
      assert longer[|all|] - longer[|all| - 1] >= gap;
    }
  }

  lemma SpacedPrefix(all: seq<Time>, longer: seq<Time>, gap: int)
    requires Spaced(longer, gap) && all <= longer
    ensures Spaced(all, gap)
  {
    forall i | 0 < i < |all|
      ensures all[i] - all[i - 1] >= gap
    {
      assert all[i] == longer[i] && all[i - 1] == longer[i - 1];
    }
  }

  /** The sends of one rule and node are among those of its key, so they are spaced no closer. */
  lemma {:induction false} PairsAreSpaced(vs: seq<Verdict>, ruleID: Key, nodeID: Key, gap: int)
    requires gap >= 0 && Spaced(SendTimes(vs, CooldownKey(ruleID, nodeID)), gap)
    ensures Spaced(PairTimes(vs, ruleID, nodeID), gap)
    ensures NoLater(PairTimes(vs, ruleID, nodeID), SendTimes(vs, CooldownKey(ruleID, nodeID)))
  {
    if vs != [] {
      var key, vs', v := CooldownKey(ruleID, nodeID), vs[..|vs| - 1], vs[|vs| - 1];
      var ts, all := PairTimes(vs', ruleID, nodeID), SendTimes(vs', key);
      SpacedPrefix(all, SendTimes(vs, key), gap);
      PairsAreSpaced(vs', ruleID, nodeID, gap);
      if v.sent && CooldownKey(v.alert.ruleID, v.alert.nodeID) == key {
        SpacedJoin(ts, all, v.now, gap, v.alert.ruleID == ruleID && v.alert.nodeID == nodeID);
      }
    }
  }

  lemma {:induction false} SpanOf(ts: seq<Time>, gap: int, i: nat, j: nat)
    requires Spaced(ts, gap) && i <= j < |ts|
    ensures ts[j] - ts[i] >= (j - i) * gap
  {
    if i < j {
      SpanOf(ts, gap, i, j - 1);
      assert (j - i) * gap == (j - 1 - i) * gap + gap;
    }
  }

  /**
   In every interleaving, the recorded times of the sends for a rule and node
   are spaced: any j - i consecutive gaps span at least that many cooldowns.
   */
  lemma CooldownHolds(cfg: Config, steps: seq<Step>, ruleID: Key, nodeID: Key, i: nat, j: nat)
    requires var ts := PairTimes(Exec(cfg, steps).verdicts, ruleID, nodeID); i <= j < |ts|
    ensures var ts := PairTimes(Exec(cfg, steps).verdicts, ruleID, nodeID); ts[j] - ts[i] >= (j - i) * cfg.cooldown
  {
    var s := Exec(cfg, steps);
    if cfg.cooldown <= 0 {
      NoCooldownNoVerdicts(cfg, steps);
    }
    RunsCool(cfg, steps);
    assert KeyCooled(s.lastSent, s.verdicts, cfg.cooldown, CooldownKey(ruleID, nodeID));
    PairsAreSpaced(s.verdicts, ruleID, nodeID, cfg.cooldown);
    SpanOf(PairTimes(s.verdicts, ruleID, nodeID), cfg.cooldown, i, j);
  }

  /**
   Whatever the lock suppresses, a recorded send of the same rule and node less
   than one cooldown before its reading explains.
   */
  lemma SuppressionExplained(cfg: Config, steps: seq<Step>, p: nat)
    requires Ingested(steps)
    requires p < |Exec(cfg, steps).verdicts| && !Exec(cfg, steps).verdicts[p].sent
    ensures var vs := Exec(cfg, steps).verdicts;
      exists q :: 0 <= q < p && vs[q].sent && vs[p].now - vs[q].now < cfg.cooldown
        && vs[q].alert.ruleID == vs[p].alert.ruleID && vs[q].alert.nodeID == vs[p].alert.nodeID
  {
    RunsCool(cfg, steps);
    VerdictsIngested(cfg, steps);
    var vs := Exec(cfg, steps).verdicts;
    assert Justified(vs, p, cfg.cooldown);
    var q :| 0 <= q < p && vs[q].sent && vs[p].now - vs[q].now < cfg.cooldown
      && CooldownKey(vs[q].alert.ruleID, vs[q].alert.nodeID) == CooldownKey(vs[p].alert.ruleID, vs[p].alert.nodeID);
    CooldownKeyInjective(vs[q].alert.ruleID, vs[q].alert.nodeID, vs[p].alert.ruleID, vs[p].alert.nodeID);
  }

  // ----- the severity floor

  /** The lock has decided on the job. */
  ghost predicate Decided(vs: seq<Verdict>, id: nat, alert: Alert, sent: bool) {
    exists p :: 0 <= p < |vs| && vs[p].job == id && vs[p].alert == alert && vs[p].sent == sent
  }

  /** Where a started job can have come to, by its alert's rank. */
  ghost predicate Gated(cfg: Config, vs: seq<Verdict>, id: nat, j: Job) {
    && (j.stage.Reading? ==> j.alert.rank >= cfg.minRank && cfg.cooldown > 0)
    && (j.stage.Sending? || j.stage == Finished(true) ==>
          j.alert.rank >= cfg.minRank && (cfg.cooldown <= 0 || Decided(vs, id, j.alert, true)))
    && (j.stage.Suppressed? || j.stage == Finished(false) ==>
          j.alert.rank < cfg.minRank || (cfg.cooldown > 0 && Decided(vs, id, j.alert, false)))
  }

  lemma DecidedStays(vs: seq<Verdict>, v: Verdict, id: nat, alert: Alert, sent: bool)
    requires Decided(vs, id, alert, sent)
    ensures Decided(vs + [v], id, alert, sent)
  {
    var p :| 0 <= p < |vs| && vs[p].job == id && vs[p].alert == alert && vs[p].sent == sent;
    assert (vs + [v])[p] == vs[p];
  }

  lemma GatedStays(cfg: Config, vs: seq<Verdict>, vs': seq<Verdict>, id: nat, j: Job)
    requires Gated(cfg, vs, id, j) && (vs' == vs || (|vs'| == |vs| + 1 && vs'[..|vs|] == vs))
    ensures Gated(cfg, vs', id, j)
  {
    if vs' != vs {
      assert vs' == vs + [vs'[|vs|]];
      if Decided(vs, id, j.alert, true) {
        DecidedStays(vs, vs'[|vs|], id, j.alert, true);
      }
      if Decided(vs, id, j.alert, false) {
        DecidedStays(vs, vs'[|vs|], id, j.alert, false);
      }
    }
  }

  lemma VerdictsGrow(cfg: Config, s: State, step: Step)
    ensures var vs, vs' := s.verdicts, Apply(cfg, s, step).verdicts;
      vs' == vs || (|vs'| == |vs| + 1 && vs'[..|vs|] == vs)
  {
  }

  lemma LockGates(cfg: Config, s: State, id: nat)
    requires id in s.jobs && s.jobs[id].stage.Reading? && Gated(cfg, s.verdicts, id, s.jobs[id])
    ensures var s' := Apply(cfg, s, Lock(id)); Gated(cfg, s'.verdicts, id, s'.jobs[id])
  {
    var s' := Apply(cfg, s, Lock(id));
    assert s'.verdicts[|s.verdicts|].job == id;
  }

  lemma StepGates(cfg: Config, s: State, step: Step, id: nat)
    requires id in Apply(cfg, s, step).jobs && (id in s.jobs ==> Gated(cfg, s.verdicts, id, s.jobs[id]))
    ensures Gated(cfg, Apply(cfg, s, step).verdicts, id, Apply(cfg, s, step).jobs[id])
  {
    var s' := Apply(cfg, s, step);
    VerdictsGrow(cfg, s, step);
    if step == Lock(id) && id in s.jobs && s.jobs[id].stage.Reading? {
      LockGates(cfg, s, id);
    } else if id in s.jobs {
      GatedStays(cfg, s.verdicts, s'.verdicts, id, s.jobs[id]);
    }
  }

  /** In every run each job has come where its rank and the lock sent it. */
  lemma {:induction false} RunsGate(cfg: Config, steps: seq<Step>, id: nat)
    requires id in Exec(cfg, steps).jobs
    ensures Gated(cfg, Exec(cfg, steps).verdicts, id, Exec(cfg, steps).jobs[id])
  {
    if steps != [] {
      var before := steps[..|steps| - 1];
      if id in Exec(cfg, before).jobs {
        RunsGate(cfg, before, id);
      }
      StepGates(cfg, Exec(cfg, before), steps[|steps| - 1], id);
    }
  }

  /**
   In every run: what is sent is at or above the severity floor; what is
   suppressed at or above the floor has a recorded send of its key less than one
   cooldown before its own reading, and with no cooldown nothing at or above the
   floor is suppressed.
   */
  lemma FloorHolds(cfg: Config, steps: seq<Step>, id: nat)
    requires id in Exec(cfg, steps).jobs
    ensures var s := Exec(cfg, steps); var j := s.jobs[id];
      && (j.stage.Sending? || j.stage == Finished(true) ==> j.alert.rank >= cfg.minRank)
      && (j.alert.rank >= cfg.minRank && (j.stage.Suppressed? || j.stage == Finished(false)) ==>
            cfg.cooldown > 0
            && exists p, q :: 0 <= q < p < |s.verdicts| && s.verdicts[p].job == id && s.verdicts[p].alert == j.alert
                 && !s.verdicts[p].sent && s.verdicts[q].sent && s.verdicts[p].now - s.verdicts[q].now < cfg.cooldown
                 && CooldownKey(s.verdicts[q].alert.ruleID, s.verdicts[q].alert.nodeID)
                    == CooldownKey(j.alert.ruleID, j.alert.nodeID))
  {
    RunsGate(cfg, steps, id);
    RunsCool(cfg, steps);
    var vs, j := Exec(cfg, steps).verdicts, Exec(cfg, steps).jobs[id];
    if Decided(vs, id, j.alert, false) {
      var p :| 0 <= p < |vs| && vs[p].job == id && vs[p].alert == j.alert && !vs[p].sent;
      assert Justified(vs, p, cfg.cooldown);
    }
  }

  // ----- progress

  ghost predicate OnTheWay(j: Job) {
    j.stage.Started? || j.stage.Reading? || j.stage.Sending? || j.stage.Suppressed?
  }

  lemma ExecSnoc(cfg: Config, steps: seq<Step>, step: Step)
    ensures Exec(cfg, steps + [step]) == Apply(cfg, Exec(cfg, steps), step)
  {
    assert (steps + [step])[..|steps|] == steps;
  }

  lemma SlotIsTaken(s: State, id: nat)
    requires Accounted(s) && id in s.jobs && HoldsSlot(s.jobs[id])
    ensures s.slots > 0
  {
    assert id in Select(s.jobs, HoldsSlot);
  }

  /** Steps left before a dispatch ends. */
  function Distance(j: Job): nat {
    match j.stage
    case Started => 3
    case Reading(_) => 2
    case Sending => 1
    case Suppressed => 1
    case _ => 0
  }

  /** The dispatch has come nearer to its end, and has ended only by being sent or suppressed. */
  ghost predicate Nearer(j: Job, j': Job) {
    && j'.alert == j.alert && Distance(j') < Distance(j)
    && (OnTheWay(j') || (Distance(j) == 1 && j'.stage == Finished(j.stage.Sending?)))
  }

  lemma DispatchGoesOn(cfg: Config, s: State, id: nat) returns (step: Step)
    requires Accounted(s) && id in s.jobs && OnTheWay(s.jobs[id])
    ensures id in Apply(cfg, s, step).jobs && Nearer(s.jobs[id], Apply(cfg, s, step).jobs[id])
    ensures Apply(cfg, s, step).slots == s.slots - if Distance(s.jobs[id]) == 1 then 1 else 0
  {
    SlotIsTaken(s, id);
    step := match s.jobs[id].stage case Started => Gate(id) case Reading(_) => Lock(id) case _ => Finish(id);
  }

  /** Every run can go on until a given dispatch has ended and released its slot. */
  lemma {:induction false} DispatchesCanFinish(cfg: Config, steps: seq<Step>, id: nat, s: State)
    returns (more: seq<Step>, s': State)
    requires s == Exec(cfg, steps) && id in s.jobs && OnTheWay(s.jobs[id])
    ensures s' == Exec(cfg, steps + more)
    ensures id in s'.jobs && s'.jobs[id].stage.Finished? && s'.jobs[id].alert == s.jobs[id].alert
    decreases Distance(s.jobs[id])
  {
    DispatchAccounted(cfg, steps);
    var step := DispatchGoesOn(cfg, s, id);
    ExecSnoc(cfg, steps, step);
    more, s' := [step], Apply(cfg, s, step);
    if OnTheWay(s'.jobs[id]) {
      var rest;
      rest, s' := DispatchesCanFinish(cfg, steps + [step], id, s');
      assert steps + [step] + rest == steps + ([step] + rest);
      more := [step] + rest;
    }
  }

  /** The clock of a run never goes back, and moves to any later time. */
  lemma ClockAdvances(cfg: Config, steps: seq<Step>, step: Step)
    ensures Exec(cfg, steps + [step]).clock >= Exec(cfg, steps).clock
    ensures step.Tick? && step.now >= Exec(cfg, steps).clock ==> Exec(cfg, steps + [step]).clock == step.now
  {
    ExecSnoc(cfg, steps, step);
  }

  // ----- clock readings

  /** The reading was made by the job's own gate, before it went for the lock. */
  ghost predicate WasRead(cfg: Config, steps: seq<Step>, id: nat, now: Time) {
    exists k :: 0 <= k < |steps| && steps[k] == Gate(id) && now == Exec(cfg, steps[..k]).clock
  }

  lemma ReadingStays(cfg: Config, steps: seq<Step>, id: nat, now: Time)
    requires steps != [] && WasRead(cfg, steps[..|steps| - 1], id, now)
    ensures WasRead(cfg, steps, id, now)
  {
    var before := steps[..|steps| - 1];
    var k :| 0 <= k < |before| && before[k] == Gate(id) && now == Exec(cfg, before[..k]).clock;
    assert before[..k] == steps[..k];
  }

  lemma ReadsTheClock(cfg: Config, s: State, step: Step, id: nat)
    requires id in Apply(cfg, s, step).jobs && Apply(cfg, s, step).jobs[id].stage.Reading?
    ensures (id in s.jobs && s.jobs[id] == Apply(cfg, s, step).jobs[id])
         || (step == Gate(id) && Apply(cfg, s, step).jobs[id].stage.now == s.clock)
  {
  }

  lemma StepReads(cfg: Config, steps: seq<Step>, s: State, id: nat)
    requires steps != [] && s == Exec(cfg, steps[..|steps| - 1]) && id in Exec(cfg, steps).jobs
    requires id in s.jobs && s.jobs[id].stage.Reading? ==> WasRead(cfg, steps[..|steps| - 1], id, s.jobs[id].stage.now)
    ensures var j := Exec(cfg, steps).jobs[id]; j.stage.Reading? ==> WasRead(cfg, steps, id, j.stage.now)
  {
    var j := Exec(cfg, steps).jobs[id];
    if j.stage.Reading? {
      ReadsTheClock(cfg, s, steps[|steps| - 1], id);
      if id in s.jobs && s.jobs[id] == j {
        ReadingStays(cfg, steps, id, j.stage.now);
      }
    }
  }

  /** Every decision under the lock is about a time its own job read from the clock earlier in the run. */
  lemma {:induction false} ReadingsComeFromTheClock(cfg: Config, steps: seq<Step>)
    ensures var s := Exec(cfg, steps); forall id <- s.jobs ::
      s.jobs[id].stage.Reading? ==> WasRead(cfg, steps, id, s.jobs[id].stage.now)
    ensures var vs := Exec(cfg, steps).verdicts; forall p :: 0 <= p < |vs| ==> WasRead(cfg, steps, vs[p].job, vs[p].now)
  {
    if steps != [] {
      var before := steps[..|steps| - 1];
      var s, s' := Exec(cfg, before), Exec(cfg, steps);
      ReadingsComeFromTheClock(cfg, before);
      forall id <- s'.jobs
        ensures s'.jobs[id].stage.Reading? ==> WasRead(cfg, steps, id, s'.jobs[id].stage.now)
      {
        StepReads(cfg, steps, s, id);
      }
      VerdictsGrow(cfg, s, steps[|steps| - 1]);
      forall p | 0 <= p < |s'.verdicts|
        ensures WasRead(cfg, steps, s'.verdicts[p].job, s'.verdicts[p].now)
      {
        if p < |s.verdicts| {
          assert s'.verdicts[p] == s.verdicts[p];
        }
        ReadingStays(cfg, steps, s'.verdicts[p].job, s'.verdicts[p].now);
      }
    }
  }
}
