/**
 The agent registry and its heartbeat checker (registry/registry.go). Each
 operation carries the clock reading it made; the sweep reads its clock before
 it takes the lock, and nothing below assumes that readings are monotone.
 */
module HeartbeatRegistry {
  import opened Options

  type Time = int

  datatype Status = Active | Inactive

  datatype Info = Info(hostname: string, ip: string, version: string)

  datatype Node = Node(info: Info, region: string, registered: Time, lastSeen: Time,
                       status: Status, inactiveSince: Option<Time>)

  datatype Config = Config(timeout: int, evictAfter: int)

  type Nodes = map<string, Node>

  datatype Op =
    | Register(id: string, info: Info, region: string, now: Time)
    | Heartbeat(id: string, now: Time)
    | SetInactive(id: string)
    | Sweep(now: Time)

  const DEFAULT_REGION := "default"

  function NormalizeRegion(region: string): string {
    if region == "" then DEFAULT_REGION else region
  }

  function Seen(n: Node, now: Time): Node {
    n.(lastSeen := now, status := Active, inactiveSince := None)
  }

  function Marked(cfg: Config, n: Node, now: Time): Node {
    if n.status.Active? && n.lastSeen < now - cfg.timeout then n.(status := Inactive, inactiveSince := Some(now)) else n
  }

  predicate Evicts(cfg: Config, n: Node, now: Time) {
    n.status.Inactive? && n.inactiveSince.Some? && now - n.inactiveSince.value > cfg.evictAfter
  }

  function Apply(cfg: Config, nodes: Nodes, op: Op): Nodes {
    match op
    case Register(id, info, region, now) =>
      if id == "" then nodes
      else if id in nodes then nodes[id := Seen(nodes[id], now).(region := NormalizeRegion(region))]
      else nodes[id := Node(info, NormalizeRegion(region), now, now, Active, None)]
    case Heartbeat(id, now) =>
      if id in nodes then nodes[id := Seen(nodes[id], now)] else nodes
    case SetInactive(id) =>
      if id in nodes then nodes[id := nodes[id].(status := Inactive)] else nodes
    case Sweep(now) =>
      map id | id in nodes && !Evicts(cfg, Marked(cfg, nodes[id], now), now) :: Marked(cfg, nodes[id], now)
  }

  function Exec(cfg: Config, ops: seq<Op>): Nodes {
    if ops == [] then map[] else Apply(cfg, Exec(cfg, ops[..|ops| - 1]), ops[|ops| - 1])
  }

  class Registry {
    var nodes: Nodes

    constructor ()
      ensures nodes == map[]
    {
      nodes := map[];
    }

    method Register(id: string, info: Info, region: string, now: Time) returns (ok: bool)
      modifies this
      ensures ok <==> id != ""
      ensures forall cfg :: nodes == Apply(cfg, old(nodes), Op.Register(id, info, region, now))
    {
      if id == "" {
        return false;
      }
      var region' := NormalizeRegion(region);
      if id in nodes {
        var n := nodes[id];
        n := n.(lastSeen := now);
        n := n.(status := Active);
        n := n.(region := region');
        n := n.(inactiveSince := None);
        nodes := nodes[id := n];
        return true;
      }
      nodes := nodes[id := Node(info, region', now, now, Active, None)];
      return true;
    }

    method Heartbeat(id: string, now: Time)
      modifies this
      ensures forall cfg :: nodes == Apply(cfg, old(nodes), Op.Heartbeat(id, now))
    {
      if id in nodes {
        nodes := nodes[id := nodes[id].(lastSeen := now, status := Active, inactiveSince := None)];
      }
    }

    method SetInactive(id: string)
      modifies this
      ensures forall cfg :: nodes == Apply(cfg, old(nodes), Op.SetInactive(id))
    {
      if id in nodes {
        nodes := nodes[id := nodes[id].(status := Inactive)];
      }
    }

    method MarkStaleInactive(cfg: Config, now: Time)
      modifies this
      ensures nodes == Apply(cfg, old(nodes), Op.Sweep(now))
    {
      var deadline := now - cfg.timeout;
      ghost var before := nodes;
      var todo := nodes.Keys;
      while todo != {}
        invariant todo <= nodes.Keys <= before.Keys
        invariant forall id :: id in todo ==> nodes[id] == before[id]
        invariant forall id :: id in before && id !in todo ==>
          (id in nodes <==> !Evicts(cfg, Marked(cfg, before[id], now), now))
        invariant forall id :: id in nodes && id !in todo ==> nodes[id] == Marked(cfg, before[id], now)
        decreases todo
      {
        var id :| id in todo;
        var n := nodes[id];
        if n.status == Active && n.lastSeen < deadline {
          n := n.(status := Inactive, inactiveSince := Some(now));
        }
        nodes := nodes[id := n];
        if n.status == Inactive && n.inactiveSince.Some? && now - n.inactiveSince.value > cfg.evictAfter {
          nodes := nodes - {id};
        }
        todo := todo - {id};
      }
    }
  }

  // ----- who a node is

  predicate Registers(op: Op, id: string) {
    op.Register? && op.id == id && id != ""
  }

  /** An operation on one node leaves the others alone. */
  lemma OthersUntouched(cfg: Config, nodes: Nodes, op: Op, id: string)
    requires !op.Sweep? && op.id != id
    ensures id in Apply(cfg, nodes, op) <==> id in nodes
    ensures id in nodes ==> Apply(cfg, nodes, op)[id] == nodes[id]
  {
  }

  /** The node is registered after the first k operations. */
  ghost predicate Present(cfg: Config, ops: seq<Op>, id: string, k: int)
    requires 0 <= k <= |ops|
  {
    id in Exec(cfg, ops[..k])
  }

  lemma PresentPrefix(cfg: Config, ops: seq<Op>, id: string, n: nat, k: nat)
    requires k <= n <= |ops|
    ensures Present(cfg, ops[..n], id, k) <==> Present(cfg, ops, id, k)
  {
    assert ops[..n][..k] == ops[..k];
  }

  /** Op b brought the node in, it has been there since, and op l is its latest registration. */
  ghost predicate Born(cfg: Config, ops: seq<Op>, id: string, b: nat, l: nat) {
    && b <= l < |ops| && Registers(ops[b], id) && Registers(ops[l], id)
    && !Present(cfg, ops, id, b) && (forall k :: b < k <= |ops| ==> Present(cfg, ops, id, k))
    && forall k :: l < k < |ops| ==> !Registers(ops[k], id)
  }

  /**
   In every run a node's host data and registration time are those of the
   registration that brought it in, and its region that of its latest one.
   */
  lemma {:induction false} NodesAreAsRegistered(cfg: Config, ops: seq<Op>, id: string) returns (b: nat, l: nat)
    requires id in Exec(cfg, ops)
    ensures Born(cfg, ops, id, b, l)
    ensures var n := Exec(cfg, ops)[id];
      && n.info == ops[b].info && n.registered == ops[b].now
      && n.region == if ops[l].region == "" then "default" else ops[l].region
  {
    var k := |ops| - 1;
    assert ops[..k + 1] == ops;
    var before := Exec(cfg, ops[..k]);
    if id in before {
      b, l := NodesAreAsRegistered(cfg, ops[..k], id);
      BornStays(cfg, ops, id, b, l);
      StaysRegistered(cfg, before, ops[k], id);
      if Registers(ops[k], id) {
        l := k;
      }
    } else {
      b, l := k, k;
      BecomesRegistered(cfg, before, ops[k], id);
    }
  }

  lemma StaysRegistered(cfg: Config, nodes: Nodes, op: Op, id: string)
    requires id in nodes && id in Apply(cfg, nodes, op)
    ensures var n, n' := nodes[id], Apply(cfg, nodes, op)[id];
      && n'.info == n.info && n'.registered == n.registered
      && n'.region == if Registers(op, id) then NormalizeRegion(op.region) else n.region
  {
  }

  lemma BecomesRegistered(cfg: Config, nodes: Nodes, op: Op, id: string)
    requires id !in nodes && id in Apply(cfg, nodes, op)
    ensures Registers(op, id)
    ensures var n := Apply(cfg, nodes, op)[id];
      n.info == op.info && n.registered == op.now && n.region == NormalizeRegion(op.region)
  {
  }

  lemma BornStays(cfg: Config, ops: seq<Op>, id: string, b: nat, l: nat)
    requires ops != [] && Born(cfg, ops[..|ops| - 1], id, b, l) && id in Exec(cfg, ops)
    ensures Born(cfg, ops, id, b, if Registers(ops[|ops| - 1], id) then |ops| - 1 else l)
  {
    var k := |ops| - 1;
    PresentPrefix(cfg, ops, id, k, b);
    forall j | b < j <= |ops|
      ensures Present(cfg, ops, id, j)
    {
      if j <= k {
        PresentPrefix(cfg, ops, id, k, j);
      } else {
        assert ops[..j] == ops;
      }
    }
  }

  // ----- eviction safety

  /** Op hears from the node; a registration without an id is refused and hears from no one. */
  predicate Contacts(op: Op, id: string) {
    ((op.Register? && id != "") || op.Heartbeat?) && op.id == id
  }

  ghost predicate Silent(ops: seq<Op>, id: string, lo: nat, hi: nat)
    requires hi <= |ops|
  {
    forall i :: lo <= i < hi ==> !Contacts(ops[i], id)
  }

  /** SetInactive was called for the node after op c. */
  ghost predicate SetSince(ops: seq<Op>, id: string, c: nat) {
    exists j :: c < j < |ops| && ops[j] == SetInactive(id)
  }

  /**
   Where a node's fields come from: contact c set lastSeen, and sweep m, if any,
   marked it later; it is inactive only through a mark or a SetInactive since c.
   */
  ghost predicate Origin(cfg: Config, ops: seq<Op>, id: string, n: Node, c: nat, m: Option<nat>) {
    && c < |ops| && Contacts(ops[c], id) && ops[c].now == n.lastSeen && Silent(ops, id, c + 1, |ops|)
    && (n.status.Active? ==> m.None?) && (n.status.Inactive? ==> m.Some? || SetSince(ops, id, c))
    && match m {
         case None => n.inactiveSince.None?
         case Some(j) => c < j < |ops| && ops[j].Sweep? && n.inactiveSince == Some(ops[j].now)
                         && n.lastSeen + cfg.timeout < ops[j].now
       }
  }

  lemma {:induction false} EveryNodeHasAnOrigin(cfg: Config, ops: seq<Op>, id: string) returns (c: nat, m: Option<nat>)
    requires id in Exec(cfg, ops)
    ensures Origin(cfg, ops, id, Exec(cfg, ops)[id], c, m)
  {
    var k := |ops| - 1;
    var before, op := ops[..k], ops[k];
    if Contacts(op, id) {
      c, m := k, None;
    } else {
      c, m := EveryNodeHasAnOrigin(cfg, before, id);
      var n := Exec(cfg, before)[id];
      SetSinceExtends(ops, id, c);
      if op.Sweep? && n.status.Active? && n.lastSeen < op.now - cfg.timeout {
        m := Some(k);
      }
    }
  }

  lemma SetSinceExtends(ops: seq<Op>, id: string, c: nat)
    requires ops != [] && c < |ops| - 1
    ensures SetSince(ops, id, c) <==> SetSince(ops[..|ops| - 1], id, c) || ops[|ops| - 1] == SetInactive(id)
  {
    var before := ops[..|ops| - 1];
    if SetSince(before, id, c) {
      var j :| c < j < |before| && before[j] == SetInactive(id);
      assert ops[j] == SetInactive(id);
    }
    if SetSince(ops, id, c) {
      var j :| c < j < |ops| && ops[j] == SetInactive(id);
      assert j < |before| ==> before[j] == SetInactive(id);
    }
  }

  /** In a reachable registry no active node carries an inactive mark. */
  lemma ActiveIsUnmarked(cfg: Config, ops: seq<Op>, id: string)
    requires id in Exec(cfg, ops) && Exec(cfg, ops)[id].status.Active?
    ensures Exec(cfg, ops)[id].inactiveSince.None?
  {
    var c, m := EveryNodeHasAnOrigin(cfg, ops, id);
  }

  /**
   A sweep that removes a node was preceded by a contact c and a sweep m that
   marked it, with no contact since c: the node was last heard from more than
   timeout + evictAfter before, and (for evictAfter >= 0) in an earlier sweep.
   */
  lemma EvictionIsSafe(cfg: Config, ops: seq<Op>, now: Time, id: string) returns (c: nat, m: nat)
    requires id in Exec(cfg, ops) && id !in Exec(cfg, ops + [Sweep(now)])
    ensures c < m <= |ops| && Contacts(ops[c], id) && Silent(ops, id, c + 1, |ops|)
    ensures (ops + [Sweep(now)])[m].Sweep?
    ensures ops[c].now + cfg.timeout < (ops + [Sweep(now)])[m].now
    ensures (ops + [Sweep(now)])[m].now + cfg.evictAfter < now
    ensures ops[c].now + cfg.timeout + cfg.evictAfter < now
    ensures cfg.evictAfter >= 0 ==> m < |ops|
  {
    var all := ops + [Sweep(now)];
    assert all[..|ops|] == ops;
    var n := Exec(cfg, ops)[id];
    var j;
    c, j := EveryNodeHasAnOrigin(cfg, ops, id);
    m := if n.status.Active? then |ops| else j.value;
  }

  lemma UnmarkedStays(cfg: Config, nodes: Nodes, op: Op, id: string)
    requires id in nodes && nodes[id].status.Inactive? && nodes[id].inactiveSince.None?
    requires !Contacts(op, id)
    ensures id in Apply(cfg, nodes, op) && Apply(cfg, nodes, op)[id] == nodes[id]
  {
  }

  /** A node that SetInactive takes out of the active state stays registered until it is heard from again. */
  lemma {:induction false} SetInactiveNeverEvicts(cfg: Config, ops: seq<Op>, id: string, a: nat)
    requires a < |ops| && ops[a] == SetInactive(id)
    requires id in Exec(cfg, ops[..a]) && Exec(cfg, ops[..a])[id].status.Active?
    requires Silent(ops, id, a + 1, |ops|)
    ensures id in Exec(cfg, ops)
    ensures Exec(cfg, ops)[id] == Exec(cfg, ops[..a])[id].(status := Inactive)
  {
    var k := |ops| - 1;
    ActiveIsUnmarked(cfg, ops[..a], id);
    if a < k {
      assert ops[..k][..a] == ops[..a];
      SetInactiveNeverEvicts(cfg, ops[..k], id, a);
      UnmarkedStays(cfg, Exec(cfg, ops[..k]), ops[k], id);
    }
  }

  // ----- timeliness

  /** The latest sweep reading among ops, or `start` when there was none. */
  function LastSweep(ops: seq<Op>, start: Time): Time {
    if ops == [] then start
    else if ops[|ops| - 1].Sweep? then ops[|ops| - 1].now
    else LastSweep(ops[..|ops| - 1], start)
  }

  /** No sweep reading is more than `interval` after the one before it. */
  ghost predicate Paced(ops: seq<Op>, start: Time, interval: int) {
    forall i :: 0 <= i < |ops| && ops[i].Sweep? ==> ops[i].now <= LastSweep(ops[..i], start) + interval
  }

  function ExecFrom(cfg: Config, nodes: Nodes, ops: seq<Op>): Nodes {
    if ops == [] then nodes else Apply(cfg, ExecFrom(cfg, nodes, ops[..|ops| - 1]), ops[|ops| - 1])
  }

  /** What a silent node can look like after its last contact and the latest sweep. */
  ghost predicate Aging(cfg: Config, nodes: Nodes, id: string, contact: Time, last: Time, interval: int) {
    id in nodes ==>
      var n := nodes[id];
      && n.lastSeen == contact
      && match n.inactiveSince {
           case None => n.status.Active? && last <= contact + cfg.timeout
           case Some(f) => n.status.Inactive? && f <= contact + cfg.timeout + interval && last - f <= cfg.evictAfter
         }
  }

  /** Op i is a SetInactive that finds the node active. */
  ghost predicate TakesOut(cfg: Config, nodes: Nodes, ops: seq<Op>, id: string, i: nat)
    requires i < |ops|
  {
    var found := ExecFrom(cfg, nodes, ops[..i]);
    ops[i] == SetInactive(id) && id in found && found[id].status.Active?
  }

  ghost predicate TakenOut(cfg: Config, nodes: Nodes, ops: seq<Op>, id: string) {
    exists i: nat :: i < |ops| && TakesOut(cfg, nodes, ops, id, i)
  }

  lemma TakenOutExtends(cfg: Config, nodes: Nodes, ops: seq<Op>, id: string)
    requires ops != []
    ensures TakenOut(cfg, nodes, ops, id)
       <==> TakenOut(cfg, nodes, ops[..|ops| - 1], id) || TakesOut(cfg, nodes, ops, id, |ops| - 1)
  {
    var k := |ops| - 1;
    forall i: nat | i < k
      ensures TakesOut(cfg, nodes, ops[..k], id, i) <==> TakesOut(cfg, nodes, ops, id, i)
    {
      assert ops[..k][..i] == ops[..i];
    }
  }

  lemma AgingStep(cfg: Config, nodes: Nodes, op: Op, id: string, contact: Time, last: Time, interval: int)
    requires Aging(cfg, nodes, id, contact, last, interval) && !Contacts(op, id)
    requires op == SetInactive(id) && id in nodes ==> nodes[id].status.Inactive?
    requires op.Sweep? ==> op.now <= last + interval
    ensures Aging(cfg, Apply(cfg, nodes, op), id, contact, if op.Sweep? then op.now else last, interval)
  {
  }

  lemma {:induction false} SilentNodeAges(cfg: Config, nodes: Nodes, ops: seq<Op>, id: string,
                                          contact: Time, interval: int)
    requires Aging(cfg, nodes, id, contact, contact, interval)
    requires Silent(ops, id, 0, |ops|) && Paced(ops, contact, interval) && !TakenOut(cfg, nodes, ops, id)
    ensures Aging(cfg, ExecFrom(cfg, nodes, ops), id, contact, LastSweep(ops, contact), interval)
  {
    if ops != [] {
      var k := |ops| - 1;
      var before := ops[..k];
      assert forall i :: 0 <= i < k ==> before[..i] == ops[..i];
      TakenOutExtends(cfg, nodes, ops, id);
      SilentNodeAges(cfg, nodes, before, id, contact, interval);
      AgingStep(cfg, ExecFrom(cfg, nodes, before), ops[k], id, contact, LastSweep(before, contact), interval);
    }
  }

  ghost predicate ActiveUnmarked(nodes: Nodes, id: string) {
    id in nodes && nodes[id].status.Active? ==> nodes[id].inactiveSince.None?
  }

  lemma {:induction false} ActiveStaysUnmarked(cfg: Config, nodes: Nodes, ops: seq<Op>, id: string)
    requires ActiveUnmarked(nodes, id)
    ensures ActiveUnmarked(ExecFrom(cfg, nodes, ops), id)
  {
    if ops != [] {
      ActiveStaysUnmarked(cfg, nodes, ops[..|ops| - 1], id);
    }
  }

  /** Inactive without a mark: no sweep will touch it. */
  ghost predicate Resting(nodes: Nodes, id: string) {
    id in nodes && nodes[id].status.Inactive? && nodes[id].inactiveSince.None?
  }

  lemma TakingOutRests(cfg: Config, nodes: Nodes, id: string)
    requires id in nodes && nodes[id].status.Active? && ActiveUnmarked(nodes, id)
    ensures Resting(Apply(cfg, nodes, SetInactive(id)), id)
  {
  }

  lemma {:induction false} TakenOutStays(cfg: Config, nodes: Nodes, ops: seq<Op>, id: string, i: nat)
    requires i < |ops| && TakesOut(cfg, nodes, ops, id, i)
    requires ActiveUnmarked(nodes, id) && Silent(ops, id, 0, |ops|)
    ensures Resting(ExecFrom(cfg, nodes, ops), id)
  {
    var k := |ops| - 1;
    if i < k {
      assert ops[..k][..i] == ops[..i];
      TakenOutStays(cfg, nodes, ops[..k], id, i);
      UnmarkedStays(cfg, ExecFrom(cfg, nodes, ops[..k]), ops[k], id);
    } else {
      ActiveStaysUnmarked(cfg, nodes, ops[..k], id);
      TakingOutRests(cfg, ExecFrom(cfg, nodes, ops[..k]), id);
    }
  }

  /** By when a node last seen at `contact` is evicted; a negative evictAfter cannot evict it before it is marked. */
  function EvictedBy(cfg: Config, contact: Time, interval: int): Time {
    contact + cfg.timeout + interval + if cfg.evictAfter + interval >= 0 then cfg.evictAfter + interval else 0
  }

  /**
   A node that was active, unmarked and last seen at `contact`, silent since,
   with sweeps at most `interval` apart up to time t.
   */
  ghost predicate SilentUntil(cfg: Config, nodes: Nodes, ops: seq<Op>, id: string,
                              contact: Time, interval: int, t: Time)
  {
    && id in nodes && nodes[id].status.Active? && nodes[id].lastSeen == contact && nodes[id].inactiveSince.None?
    && cfg.timeout >= 0
    && Silent(ops, id, 0, |ops|) && Paced(ops, contact, interval) && t <= LastSweep(ops, contact) + interval
  }

  /**
   A silent node is no longer active by contact + timeout + interval, whatever
   happens. By contact + timeout + evictAfter + 2 * interval it is gone if and
   only if no SetInactive took it out of the active state; a SetInactive that
   finds it already marked by a sweep delays nothing.
   */
  lemma SilentNodeLeavesIff(cfg: Config, nodes: Nodes, ops: seq<Op>, id: string, contact: Time, interval: int, t: Time)
    requires SilentUntil(cfg, nodes, ops, id, contact, interval, t)
    ensures var nodes' := ExecFrom(cfg, nodes, ops);
      && (t > contact + cfg.timeout + interval ==> id !in nodes' || nodes'[id].status.Inactive?)
      && (t > EvictedBy(cfg, contact, interval) ==> (id !in nodes' <==> !TakenOut(cfg, nodes, ops, id)))
  {
    if TakenOut(cfg, nodes, ops, id) {
      var i: nat :| i < |ops| && TakesOut(cfg, nodes, ops, id, i);
      TakenOutStays(cfg, nodes, ops, id, i);
    } else {
      SilentNodeAges(cfg, nodes, ops, id, contact, interval);
      AgedOut(cfg, ExecFrom(cfg, nodes, ops), id, contact, LastSweep(ops, contact), interval, t);
    }
  }

  lemma AgedOut(cfg: Config, nodes: Nodes, id: string, contact: Time, last: Time, interval: int, t: Time)
    requires Aging(cfg, nodes, id, contact, last, interval) && t <= last + interval
    ensures t > contact + cfg.timeout + interval ==> id !in nodes || nodes[id].status.Inactive?
    ensures t > EvictedBy(cfg, contact, interval) ==> id !in nodes
  {
  }
}
