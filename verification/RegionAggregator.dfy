/**
 Cross-region aggregation (aggregator/aggregator.go). Polls run concurrently and
 touch shared state in one place each: the locked replacement of their region's
 entry. An interleaving is therefore the order of those replacements.
 */
module RegionAggregator {
  import opened Bytes
  import opened Sums

  datatype AgentNode = AgentNode(nodeID: Key, status: string)
  datatype Upstream = Upstream(region: Key, url: Key)

  /** The outcome of one GET. */
  datatype Fetch<+T> = Fetched(items: seq<T>) | FetchError(error: string)

  /** The outcomes of the three GETs of one poll; a later one is only made when the earlier ones succeeded. */
  datatype Poll = Poll(nodes: Fetch<AgentNode>, events: Fetch<Key>, alerts: Fetch<Key>)

  datatype RegionState = RegionState(reachable: bool, lastErr: string,
                                     nodes: seq<AgentNode>, events: seq<Key>, alerts: seq<Key>)

  datatype RegionStatus = RegionStatus(region: Key, nodeCount: nat, activeCount: nat, reachable: bool, error: string)

  type Regions = map<Key, RegionState>

  const UNKNOWN := RegionState(false, "", [], [], [])

  function Unreachable(error: string): RegionState {
    RegionState(false, error, [], [], [])
  }

  /** What a poll leaves for its region: all three lists of one poll, or nothing but the first error. */
  function Polled(p: Poll): RegionState {
    if p.nodes.FetchError? then Unreachable(p.nodes.error)
    else if p.events.FetchError? then Unreachable(p.events.error)
    else if p.alerts.FetchError? then Unreachable(p.alerts.error)
    else RegionState(true, "", p.nodes.items, p.events.items, p.alerts.items)
  }

  /** The errors of a poll's fetches, in the order they are made. */
  function Errors(p: Poll): seq<string> {
    (if p.nodes.FetchError? then [p.nodes.error] else [])
    + (if p.events.FetchError? then [p.events.error] else [])
    + (if p.alerts.FetchError? then [p.alerts.error] else [])
  }

  /** All or nothing: the three lists of one poll, each in its place, or the first error and no lists. */
  lemma PollsAreAllOrNothing(p: Poll)
    ensures var s := Polled(p);
      if p.nodes.Fetched? && p.events.Fetched? && p.alerts.Fetched?
      then s == RegionState(true, "", p.nodes.items, p.events.items, p.alerts.items)
      else !s.reachable && s.nodes == [] && s.events == [] && s.alerts == [] && s.lastErr == Errors(p)[0]
  {
  }

  /** A region without a successful poll contributes nothing. */
  ghost predicate Clean(state: Regions) {
    forall r :: r in state && !state[r].reachable ==>
      state[r].nodes == [] && state[r].events == [] && state[r].alerts == []
  }

  // ----- interleavings

  /** The state after the polls replaced their entries in the given order. */
  function After(state: Regions, ups: seq<Upstream>, polls: seq<Poll>, order: seq<nat>): Regions
    requires |ups| == |polls| && forall k :: 0 <= k < |order| ==> order[k] < |ups|
  {
    if order == [] then state
    else
      var i := order[|order| - 1];
      After(state, ups, polls, order[..|order| - 1])[ups[i].region := Polled(polls[i])]
  }

  /** Every poll replaces its entry once. */
  ghost predicate Schedule(order: seq<nat>, n: nat) {
    && (forall k :: 0 <= k < |order| ==> order[k] < n)
    && (forall i: nat :: i < n ==> i in order)
    && forall j, k :: 0 <= j < k < |order| ==> order[j] != order[k]
  }

  /** Upstreams that share a region brought the same result. */
  ghost predicate Agree(ups: seq<Upstream>, polls: seq<Poll>)
    requires |ups| == |polls|
  {
    forall i, j :: 0 <= i < |ups| && 0 <= j < |ups| && ups[i].region == ups[j].region ==>
      Polled(polls[i]) == Polled(polls[j])
  }

  ghost predicate Distinct(ups: seq<Upstream>) {
    forall i, j :: 0 <= i < j < |ups| ==> ups[i].region != ups[j].region
  }

  lemma DistinctRegionsAgree(ups: seq<Upstream>, polls: seq<Poll>)
    requires |ups| == |polls| && Distinct(ups)
    ensures Agree(ups, polls)
  {
  }

  /** Region by region: the result of a poll for it that has run, or the old entry. */
  lemma {:induction false} AfterEntry(state: Regions, ups: seq<Upstream>, polls: seq<Poll>, order: seq<nat>, r: Key)
    requires |ups| == |polls| && (forall k :: 0 <= k < |order| ==> order[k] < |ups|) && Agree(ups, polls)
    ensures var s := After(state, ups, polls, order);
      && (forall i: nat :: i < |ups| && i in order && ups[i].region == r ==> r in s && s[r] == Polled(polls[i]))
      && ((forall i: nat :: i < |ups| && i in order ==> ups[i].region != r) ==>
            (r in s <==> r in state) && (r in s ==> s[r] == state[r]))
  {
    if order != [] {
      var n := |order| - 1;
      AfterEntry(state, ups, polls, order[..n], r);
      assert order[n] in order;
      assert forall i: nat :: i in order <==> i in order[..n] || i == order[n];
    }
  }

  lemma SchedulesCoincide(state: Regions, ups: seq<Upstream>, polls: seq<Poll>, o: seq<nat>, o': seq<nat>)
    requires |ups| == |polls| && Agree(ups, polls) && Schedule(o, |ups|) && Schedule(o', |ups|)
    ensures After(state, ups, polls, o) == After(state, ups, polls, o')
  {
    var s, s' := After(state, ups, polls, o), After(state, ups, polls, o');
    forall r
      ensures r in s <==> r in s'
      ensures r in s ==> s[r] == s'[r]
    {
      AfterEntry(state, ups, polls, o, r);
      AfterEntry(state, ups, polls, o', r);
    }
  }

  function Range(lo: nat, hi: nat): (r: seq<nat>)
    requires lo <= hi
    ensures |r| == hi - lo && forall k :: 0 <= k < |r| ==> r[k] == lo + k
  {
    seq(hi - lo, k => lo + k)
  }

  /** A schedule in which poll i comes last. */
  lemma LastOne(n: nat, i: nat) returns (o: seq<nat>)
    requires i < n
    ensures Schedule(o, n) && o != [] && o[|o| - 1] == i
  {
    var a, b := Range(0, i), Range(i + 1, n);
    o := a + b + [i];
    forall j: nat | j < n
      ensures j in o
    {
      if j < i {
        assert o[j] == j;
      } else if j > i {
        assert o[j - 1] == b[j - i - 1] == j;
      } else {
        assert o[n - 1] == j;
      }
    }
  }

  /** The state after polling every upstream is the same for every interleaving. */
  ghost predicate Confluent(state: Regions, ups: seq<Upstream>, polls: seq<Poll>)
    requires |ups| == |polls|
  {
    forall o, o' :: Schedule(o, |ups|) && Schedule(o', |ups|) ==>
      After(state, ups, polls, o) == After(state, ups, polls, o')
  }

  /** One round is confluent exactly when upstreams that share a region brought the same result. */
  lemma ConfluentIffAgree(state: Regions, ups: seq<Upstream>, polls: seq<Poll>)
    requires |ups| == |polls|
    ensures Confluent(state, ups, polls) <==> Agree(ups, polls)
  {
    if Agree(ups, polls) {
      forall o, o' | Schedule(o, |ups|) && Schedule(o', |ups|)
        ensures After(state, ups, polls, o) == After(state, ups, polls, o')
      {
        SchedulesCoincide(state, ups, polls, o, o');
      }
    } else {
      var i, j :| 0 <= i < |ups| && 0 <= j < |ups| && ups[i].region == ups[j].region
        && Polled(polls[i]) != Polled(polls[j]);
      var o := LastOne(|ups|, i);
      var o' := LastOne(|ups|, j);
      assert After(state, ups, polls, o)[ups[i].region] != After(state, ups, polls, o')[ups[i].region];
    }
  }

  /** Whatever the upstreams answer, rounds are confluent exactly when the configured regions are distinct. */
  lemma ConfluentIffDistinct(state: Regions, ups: seq<Upstream>)
    ensures Distinct(ups) <==> forall polls :: |polls| == |ups| ==> Confluent(state, ups, polls)
  {
    if Distinct(ups) {
      forall polls: seq<Poll> | |polls| == |ups|
        ensures Confluent(state, ups, polls)
      {
        DistinctRegionsAgree(ups, polls);
        ConfluentIffAgree(state, ups, polls);
      }
    } else {
      var i, j :| 0 <= i < j < |ups| && ups[i].region == ups[j].region;
      var polls := seq(|ups|, k => Poll(FetchError(if k == i then "refused" else "timeout"), Fetched([]), Fetched([])));
      assert Polled(polls[i]).lastErr[0] == 'r' && Polled(polls[j]).lastErr[0] == 't';
      ConfluentIffAgree(state, ups, polls);
    }
  }

  /** With distinct regions each one ends with its own poll's result, and one that is not polled keeps its entry. */
  lemma RegionsAreIsolated(state: Regions, ups: seq<Upstream>, polls: seq<Poll>, o: seq<nat>, r: Key)
    requires |ups| == |polls| && Schedule(o, |ups|) && Distinct(ups)
    ensures var s := After(state, ups, polls, o);
      && (forall i: nat :: i < |ups| && ups[i].region == r ==> r in s && s[r] == Polled(polls[i]))
      && ((forall i: nat :: i < |ups| ==> ups[i].region != r) ==>
            (r in s <==> r in state) && (r in s ==> s[r] == state[r]))
  {
    DistinctRegionsAgree(ups, polls);
    AfterEntry(state, ups, polls, o, r);
  }

  // ----- views

  /** What one region adds to a merged view. */
  function Part<T>(s: RegionState, view: RegionState -> seq<T>): seq<T> {
    if s.reachable then view(s) else []
  }

  ghost function Sizes<T>(state: Regions, view: RegionState -> seq<T>): map<Key, int> {
    map r | r in state :: |Part(state[r], view)|
  }

  ghost function Copies<T>(state: Regions, view: RegionState -> seq<T>, x: T): map<Key, int> {
    map r | r in state :: multiset(Part(state[r], view))[x]
  }

  /** `out` holds every region's part, with multiplicity, in some order. */
  ghost predicate IsMerge<T(!new)>(state: Regions, view: RegionState -> seq<T>, out: seq<T>) {
    && |out| == Sum(Sizes(state, view))
    && forall x :: multiset(out)[x] == Sum(Copies(state, view, x))
  }

  lemma SizesInsert<T>(state: Regions, r: Key, s: RegionState, view: RegionState -> seq<T>)
    requires r !in state
    ensures Sum(Sizes(state[r := s], view)) == Sum(Sizes(state, view)) + |Part(s, view)|
  {
    assert Sizes(state[r := s], view) == Sizes(state, view)[r := |Part(s, view)|];
    SumInsert(Sizes(state, view), r, |Part(s, view)|);
  }

  lemma CopiesInsert<T>(state: Regions, r: Key, s: RegionState, view: RegionState -> seq<T>, x: T)
    requires r !in state
    ensures Sum(Copies(state[r := s], view, x)) == Sum(Copies(state, view, x)) + multiset(Part(s, view))[x]
  {
    var n := multiset(Part(s, view))[x];
    assert Copies(state[r := s], view, x) == Copies(state, view, x)[r := n];
    SumInsert(Copies(state, view, x), r, n);
  }

  lemma MergeInsert<T(!new)>(state: Regions, r: Key, s: RegionState, view: RegionState -> seq<T>, out: seq<T>)
    requires r !in state && IsMerge(state, view, out)
    ensures IsMerge(state[r := s], view, out + Part(s, view))
  {
    SizesInsert(state, r, s, view);
    forall x
      ensures multiset(out + Part(s, view))[x] == Sum(Copies(state[r := s], view, x))
    {
      CopiesInsert(state, r, s, view, x);
    }
  }

  function ActiveCount(nodes: seq<AgentNode>): nat {
    if nodes == [] then 0
    else ActiveCount(nodes[..|nodes| - 1]) + if nodes[|nodes| - 1].status == "active" then 1 else 0
  }

  /** Positions of the active nodes. */
  ghost function Active(nodes: seq<AgentNode>): set<nat> {
    set i: nat | i < |nodes| && nodes[i].status == "active"
  }

  lemma ActiveSnoc(nodes: seq<AgentNode>, x: AgentNode)
    ensures Active(nodes + [x]) == if x.status == "active" then Active(nodes) + {|nodes|} else Active(nodes)
  {
    forall i: nat
      ensures i in Active(nodes + [x]) <==> i in Active(nodes) || (i == |nodes| && x.status == "active")
    {
    }
  }

  lemma {:induction false} ActiveCounts(nodes: seq<AgentNode>)
    ensures ActiveCount(nodes) == |Active(nodes)|
  {
    if nodes != [] {
      var n := |nodes| - 1;
      ActiveCounts(nodes[..n]);
      ActiveSnoc(nodes[..n], nodes[n]);
      assert nodes == nodes[..n] + [nodes[n]];
    }
  }

  function StatusOf(r: Key, s: RegionState): RegionStatus {
    RegionStatus(r, |s.nodes|, ActiveCount(s.nodes), s.reachable, s.lastErr)
  }

  /** One exact entry per region, in any order. */
  ghost predicate Covers(state: Regions, out: seq<RegionStatus>) {
    && (forall e <- out :: e.region in state && e == StatusOf(e.region, state[e.region]))
    && (forall r <- state :: StatusOf(r, state[r]) in out)
  }

  ghost predicate Ordered(out: seq<RegionStatus>) {
    forall i, j :: 0 <= i < j < |out| ==> Less(out[i].region, out[j].region)
  }

  /** The region list: complete, exact and in order of region name. */
  ghost predicate IsRollUp(state: Regions, out: seq<RegionStatus>) {
    Covers(state, out) && Ordered(out)
  }

  lemma TailLiesAbove(out: seq<RegionStatus>, e: RegionStatus)
    requires Ordered(out) && out != [] && e in out[1..]
    ensures e in out && e.region != out[0].region
  {
    var i :| 0 <= i < |out[1..]| && out[1..][i] == e;
    assert out[i + 1] == e && Less(out[0].region, e.region);
    LessTotal(e.region, e.region);
  }

  /** What an entry of the region list says about its region. */
  lemma EntriesAreExact(state: Regions, out: seq<RegionStatus>, e: RegionStatus)
    requires IsRollUp(state, out) && e in out
    ensures e.region in state
    ensures var s := state[e.region];
      && e.nodeCount == |s.nodes| && e.reachable == s.reachable && e.error == s.lastErr
      && e.activeCount == |Active(s.nodes)|
  {
    ActiveCounts(state[e.region].nodes);
  }

  lemma RollUpTail(state: Regions, out: seq<RegionStatus>)
    requires IsRollUp(state, out) && out != []
    ensures IsRollUp(state - {out[0].region}, out[1..])
  {
    var r, tail := out[0].region, out[1..];
    forall e <- tail
      ensures e in out && e.region != r
    {
      TailLiesAbove(out, e);
    }
    forall q <- state | q != r
      ensures StatusOf(q, state[q]) in tail
    {
      assert StatusOf(q, state[q]) in out && out == [out[0]] + tail;
    }
  }

  lemma FirstIsLeast(out: seq<RegionStatus>, e: RegionStatus)
    requires Ordered(out) && e in out
    ensures e == out[0] || Less(out[0].region, e.region)
  {
  }

  lemma HeadsAgree(state: Regions, out: seq<RegionStatus>, out': seq<RegionStatus>)
    requires IsRollUp(state, out) && IsRollUp(state, out') && out != [] && out' != []
    ensures out[0] == out'[0]
  {
    assert out[0] in out && out'[0] in out';
    assert StatusOf(out[0].region, state[out[0].region]) in out';
    assert StatusOf(out'[0].region, state[out'[0].region]) in out;
    FirstIsLeast(out, out'[0]);
    FirstIsLeast(out', out[0]);
    LessTotal(out[0].region, out'[0].region);
  }

  /** The list does not depend on the map's iteration order. */
  lemma {:induction false} RollUpIsUnique(state: Regions, out: seq<RegionStatus>, out': seq<RegionStatus>)
    requires IsRollUp(state, out) && IsRollUp(state, out')
    ensures out == out'
    decreases |out|
  {
    assert out != [] ==> out[0] in out && StatusOf(out[0].region, state[out[0].region]) in out';
    assert out' != [] ==> out'[0] in out' && StatusOf(out'[0].region, state[out'[0].region]) in out;
    if out != [] && out' != [] {
      HeadsAgree(state, out, out');
      RollUpTail(state, out);
      RollUpTail(state, out');
      RollUpIsUnique(state - {out[0].region}, out[1..], out'[1..]);
      assert out == [out[0]] + out[1..] && out' == [out'[0]] + out'[1..];
    }
  }

  function NodeTotal(out: seq<RegionStatus>): nat {
    if out == [] then 0 else out[0].nodeCount + NodeTotal(out[1..])
  }

  ghost function NodeCounts(state: Regions): map<Key, int> {
    map r | r in state :: |state[r].nodes|
  }

  lemma CountsRemove(state: Regions, r: Key)
    requires r in state
    ensures Sum(NodeCounts(state)) == |state[r].nodes| + Sum(NodeCounts(state - {r}))
  {
    SumRemove(NodeCounts(state), r);
    assert NodeCounts(state) - {r} == NodeCounts(state - {r});
  }

  lemma {:induction false} RollUpTotal(state: Regions, out: seq<RegionStatus>)
    requires IsRollUp(state, out)
    ensures NodeTotal(out) == Sum(NodeCounts(state))
    decreases |out|
  {
    if out == [] {
      assert NodeCounts(state) == map[];
    } else {
      var r := out[0].region;
      assert out[0] in out;
      RollUpTail(state, out);
      RollUpTotal(state - {r}, out[1..]);
      CountsRemove(state, r);
    }
  }

  function NodesOf(s: RegionState): seq<AgentNode> {
    s.nodes
  }

  lemma SizesAreCounts(state: Regions)
    requires Clean(state)
    ensures Sizes(state, NodesOf) == NodeCounts(state)
  {
  }

  /** The node counts of the region list add up to the merged node list. */
  lemma CountsAddUp(state: Regions, out: seq<RegionStatus>, nodes: seq<AgentNode>)
    requires Clean(state) && IsRollUp(state, out) && IsMerge(state, NodesOf, nodes)
    ensures NodeTotal(out) == |nodes|
  {
    RollUpTotal(state, out);
    SizesAreCounts(state);
  }

  // ----- sorting by region name

  function Insert(out: seq<RegionStatus>, x: RegionStatus): seq<RegionStatus> {
    if out == [] || Less(x.region, out[0].region) then [x] + out else [out[0]] + Insert(out[1..], x)
  }

  function Sort(out: seq<RegionStatus>): seq<RegionStatus> {
    if out == [] then [] else Insert(Sort(out[1..]), out[0])
  }

  ghost predicate DistinctRegions(out: seq<RegionStatus>) {
    forall i, j :: 0 <= i < j < |out| ==> out[i].region != out[j].region
  }

  lemma {:induction false} InsertHolds(out: seq<RegionStatus>, x: RegionStatus)
    ensures forall e :: e in Insert(out, x) <==> e == x || e in out
  {
    if out != [] && !Less(x.region, out[0].region) {
      InsertHolds(out[1..], x);
      assert out == [out[0]] + out[1..];
    }
  }

  /** An ordered list stays ordered behind a head below everything in it. */
  lemma PrependOrdered(x: RegionStatus, out: seq<RegionStatus>)
    requires Ordered(out) && forall e <- out :: Less(x.region, e.region)
    ensures Ordered([x] + out)
  {
  }

  lemma {:induction false} InsertOrdered(out: seq<RegionStatus>, x: RegionStatus)
    requires Ordered(out) && forall e <- out :: e.region != x.region
    ensures Ordered(Insert(out, x))
  {
    if out == [] {
    } else if Less(x.region, out[0].region) {
      forall e <- out
        ensures Less(x.region, e.region)
      {
        var i :| 0 <= i < |out| && out[i] == e;
        if i > 0 {
          LessTransitive(x.region, out[0].region, e.region);
        }
      }
      PrependOrdered(x, out);
    } else {
      InsertOrdered(out[1..], x);
      InsertHolds(out[1..], x);
      LessTotal(x.region, out[0].region);
      PrependOrdered(out[0], Insert(out[1..], x));
    }
  }

  lemma {:induction false} SortOrders(out: seq<RegionStatus>)
    requires DistinctRegions(out)
    ensures Ordered(Sort(out)) && forall e :: e in Sort(out) <==> e in out
  {
    if out != [] {
      SortOrders(out[1..]);
      InsertOrdered(Sort(out[1..]), out[0]);
      InsertHolds(Sort(out[1..]), out[0]);
      assert out == [out[0]] + out[1..];
    }
  }

  class Aggregator {
    const upstreams: seq<Upstream>
    var state: Regions

    ghost predicate Valid()
      reads this
    {
      Clean(state)
    }

    constructor (ups: seq<Upstream>)
      ensures Valid() && upstreams == ups
      ensures forall r :: r in state <==> exists i :: 0 <= i < |ups| && ups[i].region == r
      ensures forall r <- state :: state[r] == UNKNOWN
    {
      upstreams := ups;
      var m: Regions := map[];
      for i := 0 to |ups|
        invariant forall r :: r in m <==> exists j :: 0 <= j < i && ups[j].region == r
        invariant forall r <- m :: m[r] == UNKNOWN
      {
        m := m[ups[i].region := UNKNOWN];
      }
      state := m;
    }

    /** One poll, up to its single update of the shared state. */
    method PollUpstream(u: Upstream, p: Poll)
      requires Valid()
      modifies this
      ensures Valid() && state == old(state)[u.region := Polled(p)]
    {
      if p.nodes.FetchError? {
        MarkUnreachable(u, p.nodes.error);
        return;
      }
      if p.events.FetchError? {
        MarkUnreachable(u, p.events.error);
        return;
      }
      if p.alerts.FetchError? {
        MarkUnreachable(u, p.alerts.error);
        return;
      }
      state := state[u.region := RegionState(true, "", p.nodes.items, p.events.items, p.alerts.items)];
    }

    method MarkUnreachable(u: Upstream, error: string)
      requires Valid()
      modifies this
      ensures Valid() && state == old(state)[u.region := Unreachable(error)]
    {
      state := state[u.region := RegionState(false, error, [], [], [])];
    }

    /** All polls, their updates in the order the scheduler chose. */
    method PollOnce(polls: seq<Poll>, order: seq<nat>)
      requires Valid() && |polls| == |upstreams| && Schedule(order, |upstreams|)
      modifies this
      ensures Valid() && state == After(old(state), upstreams, polls, order)
    {
      for k := 0 to |order|
        invariant Valid() && state == After(old(state), upstreams, polls, order[..k])
      {
        assert order[..k + 1][..k] == order[..k];
        PollUpstream(upstreams[order[k]], polls[order[k]]);
      }
      assert order[..|order|] == order;
    }

    /** Nodes, Events and Alerts: the reachable regions' lists, in the map's iteration order. */
    method Merged<T(!new)>(view: RegionState -> seq<T>) returns (out: seq<T>)
      ensures IsMerge(state, view, out)
    {
      out := [];
      var todo := state.Keys;
      ghost var done: Regions := map[];
      assert Sizes(done, view) == map[];
      assert forall x :: Copies(done, view, x) == map[];
      while todo != {}
        invariant todo <= state.Keys && done == state - todo
        invariant IsMerge(done, view, out)
        decreases todo
      {
        var r :| r in todo;
        MergeInsert(done, r, state[r], view, out);
        if state[r].reachable {
          out := out + view(state[r]);
        }
        todo, done := todo - {r}, done[r := state[r]];
      }
      assert done == state;
    }

    /** The roll-up loop and the sort after it; map iteration order is arbitrary. */
    method RollUp() returns (out: seq<RegionStatus>)
      ensures IsRollUp(state, out)
    {
      out := [];
      var todo := state.Keys;
      while todo != {}
        invariant todo <= state.Keys && DistinctRegions(out)
        invariant Covers(state - todo, out)
        decreases todo
      {
        var r :| r in todo;
        var rs := Summarize(r, state[r]);
        ghost var was := state - todo;
        out, todo := out + [rs], todo - {r};
        assert state - todo == was[r := state[r]];
      }
      assert state - todo == state;
      SortOrders(out);
      out := Sort(out);
    }
  }

  /** The counting loop over one region's nodes. */
  method Summarize(r: Key, s: RegionState) returns (rs: RegionStatus)
    ensures rs == StatusOf(r, s)
  {
    rs := RegionStatus(r, 0, 0, s.reachable, s.lastErr);
    for i := 0 to |s.nodes|
      invariant rs == RegionStatus(r, i, ActiveCount(s.nodes[..i]), s.reachable, s.lastErr)
    {
      assert s.nodes[..i + 1][..i] == s.nodes[..i];
      rs := rs.(nodeCount := rs.nodeCount + 1);
      if s.nodes[i].status == "active" {
        rs := rs.(activeCount := rs.activeCount + 1);
      }
    }
    assert s.nodes[..|s.nodes|] == s.nodes;
  }
}
