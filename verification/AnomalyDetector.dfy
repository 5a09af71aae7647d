/**
 Sliding-window frequency detector (anomaly/detector.go). The detector keeps,
 per (node, event type), only the recent event times; `history` is the full,
 never-pruned record it must be indistinguishable from.
 */
module AnomalyDetector {
  import opened Sums

  type Time = int  // nanoseconds, as are durations

  datatype WindowConfig = WindowConfig(duration: int, threshold: int)
  datatype Stream = Stream(nodeID: string, eventType: string)
  type Streams = map<Stream, seq<Time>>
  datatype Event = Event(nodeID: string, eventType: string, eventID: string)
  datatype Alert = Alert(ruleID: string, nodeID: string, eventID: string, at: Time, count: nat,
                         window: WindowConfig, severity: string)

  const SECOND := 1_000_000_000
  const MINUTE := 60 * SECOND
  const HOUR := 60 * MINUTE
  const DEFAULT_WINDOWS := [WindowConfig(MINUTE, 30), WindowConfig(5 * MINUTE, 100)]

  // ----- window labels

  datatype Unit = Seconds | Minutes | Hours
  datatype Label = Label(amount: int, unit: Unit)

  /** Integer division that rounds toward zero. */
  function Truncate(n: int, d: int): int
    requires d > 0
  {
    if n >= 0 then n / d else -(-n / d)
  }

  function DurationLabel(d: int): Label {
    if d < MINUTE then Label(Truncate(d, SECOND), Seconds)
    else if d < HOUR then Label(Truncate(d, MINUTE), Minutes)
    else Label(Truncate(d, HOUR), Hours)
  }

  function Size(unit: Unit): int {
    match unit
    case Seconds => 1_000_000_000
    case Minutes => 60_000_000_000
    case Hours => 3_600_000_000_000
  }

  /** A label is the duration in whole seconds, minutes or hours, cut toward zero, in the largest unit that fits. */
  lemma LabelMeans(d: int)
    ensures var tag := DurationLabel(d);
      && (tag.unit.Seconds? <==> d < Size(Minutes)) && (tag.unit.Hours? <==> d >= Size(Hours))
      && (d >= 0 ==> tag.amount * Size(tag.unit) <= d < (tag.amount + 1) * Size(tag.unit))
      && (d < 0 ==> (tag.amount - 1) * Size(tag.unit) < d <= tag.amount * Size(tag.unit))
  {
  }

  // ----- counting

  /** How many of the times are not before the cutoff. */
  function InWindow(ts: seq<Time>, cutoff: Time): nat {
    if ts == [] then 0 else InWindow(ts[..|ts| - 1], cutoff) + if ts[|ts| - 1] >= cutoff then 1 else 0
  }

  /** The longest window, and at least zero. */
  function Longest(ws: seq<WindowConfig>): (m: int)
    ensures m >= 0 && forall w :: w in ws ==> w.duration <= m
    ensures m == 0 || exists w :: w in ws && w.duration == m
  {
    if ws == [] then 0
    else
      var m := Longest(ws[..|ws| - 1]);
      var last := ws[|ws| - 1].duration;
      if last > m then last else m
  }

  function Kept(m: Streams, k: Stream): seq<Time> {
    if k in m then m[k] else []
  }

  /** No time exceeds the last one, nor the clock. */
  ghost predicate Ordered(ts: seq<Time>, clock: Time) {
    forall i :: 0 <= i < |ts| ==> ts[i] <= ts[|ts| - 1] <= clock
  }

  /** `ts` is what remains of `full` when only times before the cutoff were dropped. */
  ghost predicate Remains(full: seq<Time>, ts: seq<Time>, cutoff: Time) {
    && |ts| <= |full| && full[|full| - |ts|..] == ts
    && forall i :: 0 <= i < |full| - |ts| ==> full[i] < cutoff
  }

  /** A stream's kept times against its full history, by the time of the latest clock reading. */
  ghost predicate Faithful(full: seq<Time>, ts: seq<Time>, clock: Time, longest: int) {
    Ordered(full, clock) && Remains(full, ts, clock - longest)
  }

  ghost predicate AllFaithful(history: Streams, m: Streams, clock: Time, longest: int) {
    && m.Keys <= history.Keys
    && forall k {:trigger Faithful(history[k], Kept(m, k), clock, longest)} ::
         k in history ==> Faithful(history[k], Kept(m, k), clock, longest)
  }

  predicate Breaches(full: seq<Time>, w: WindowConfig, now: Time) {
    InWindow(full, now - w.duration) > w.threshold
  }

  /** Window i is the first one whose count exceeds its threshold. */
  ghost predicate FirstBreach(full: seq<Time>, ws: seq<WindowConfig>, now: Time, i: nat) {
    i < |ws| && Breaches(full, ws[i], now) && forall j :: 0 <= j < i ==> !Breaches(full, ws[j], now)
  }

  function BreachAlert(event: Event, full: seq<Time>, w: WindowConfig, now: Time): Alert {
    var count := InWindow(full, now - w.duration);
    Alert("anomaly_" + event.eventType, event.nodeID, event.eventID, now, count, w, "warning")
  }

  /** One alert, for the first breached window, when some window is breached; none otherwise. */
  ghost predicate Reports(full: seq<Time>, ws: seq<WindowConfig>, event: Event, now: Time, alerts: seq<Alert>) {
    if alerts == [] then forall i :: 0 <= i < |ws| ==> !Breaches(full, ws[i], now)
    else exists i: nat :: FirstBreach(full, ws, now, i) && alerts == [BreachAlert(event, full, ws[i], now)]
  }

  lemma {:induction false} InWindowConcat(a: seq<Time>, b: seq<Time>, cutoff: Time)
    ensures InWindow(a + b, cutoff) == InWindow(a, cutoff) + InWindow(b, cutoff)
  {
    if b == [] {
      assert a + b == a;
    } else {
      var n := |b| - 1;
      assert (a + b)[..|a| + n] == a + b[..n];
      InWindowConcat(a, b[..n], cutoff);
    }
  }

  lemma {:induction false} InWindowOld(a: seq<Time>, cutoff: Time)
    requires forall i :: 0 <= i < |a| ==> a[i] < cutoff
    ensures InWindow(a, cutoff) == 0
  {
    if a != [] {
      InWindowOld(a[..|a| - 1], cutoff);
    }
  }

  /** The times inside the window, by position. */
  ghost function Inside(ts: seq<Time>, cutoff: Time): set<nat> {
    set i: nat | i < |ts| && ts[i] >= cutoff
  }

  /** The count is the number of events inside the window, each once. */
  lemma {:induction false} InWindowCounts(ts: seq<Time>, cutoff: Time)
    ensures InWindow(ts, cutoff) == |Inside(ts, cutoff)|
  {
    if ts != [] {
      var n := |ts| - 1;
      InWindowCounts(ts[..n], cutoff);
      assert Inside(ts, cutoff) == Inside(ts[..n], cutoff) + if ts[n] >= cutoff then {n} else {};
    }
  }

  /**
   What Record's answer says of the full history: there is an alert exactly when
   some window holds more events than its threshold; it is one alert, for this
   event, about the first such window, and its count is the number of events in
   that window.
   */
  lemma ReportsMeans(full: seq<Time>, ws: seq<WindowConfig>, event: Event, now: Time, alerts: seq<Alert>)
    requires Reports(full, ws, event, now, alerts)
    ensures alerts == [] <==> forall w <- ws :: |Inside(full, now - w.duration)| <= w.threshold
    ensures alerts != [] ==>
      && |alerts| == 1
      && var a := alerts[0];
         a.ruleID == "anomaly_" + event.eventType && a.nodeID == event.nodeID && a.eventID == event.eventID
         && a.at == now && a.severity == "warning"
         && a.count == |Inside(full, now - a.window.duration)| && a.count > a.window.threshold
         && exists i :: 0 <= i < |ws| && a.window == ws[i]
              && forall j :: 0 <= j < i ==> |Inside(full, now - ws[j].duration)| <= ws[j].threshold
  {
    forall i | 0 <= i < |ws|
      ensures InWindow(full, now - ws[i].duration) == |Inside(full, now - ws[i].duration)|
    {
      InWindowCounts(full, now - ws[i].duration);
    }
    if alerts != [] {
      var i: nat :| FirstBreach(full, ws, now, i) && alerts == [BreachAlert(event, full, ws[i], now)];
      assert ws[i] in ws;
    }
  }

  /** Dropping times that are before the cutoff of a longer window changes no window's count. */
  lemma PruningIsInvisible(full: seq<Time>, ts: seq<Time>, dropped: Time, cutoff: Time)
    requires Remains(full, ts, dropped) && dropped <= cutoff
    ensures InWindow(full, cutoff) == InWindow(ts, cutoff)
  {
    var n := |full| - |ts|;
    assert full == full[..n] + full[n..];
    InWindowConcat(full[..n], full[n..], cutoff);
    InWindowOld(full[..n], cutoff);
  }

  // ----- totals per event type and label

  /** What one stream adds to the row of a label: a label shared by several windows sums them. */
  function Share(ts: seq<Time>, ws: seq<WindowConfig>, now: Time, tag: Label): nat {
    if ws == [] then 0
    else
      var w := ws[|ws| - 1];
      Share(ts, ws[..|ws| - 1], now, tag)
        + if DurationLabel(w.duration) == tag then InWindow(ts, now - w.duration) else 0
  }

  /** The windows that a label stands for, each with its count. */
  ghost function Labelled(ts: seq<Time>, ws: seq<WindowConfig>, now: Time, tag: Label): map<nat, int> {
    map i: nat | i < |ws| && DurationLabel(ws[i].duration) == tag :: |Inside(ts, now - ws[i].duration)|
  }

  lemma LabelledSnoc(ts: seq<Time>, ws: seq<WindowConfig>, now: Time, tag: Label, w: WindowConfig)
    ensures Sum(Labelled(ts, ws + [w], now, tag)) == Sum(Labelled(ts, ws, now, tag))
         + if DurationLabel(w.duration) == tag then |Inside(ts, now - w.duration)| else 0
  {
    var before, after := Labelled(ts, ws, now, tag), Labelled(ts, ws + [w], now, tag);
    if DurationLabel(w.duration) == tag {
      var n: nat, count := |ws|, |Inside(ts, now - w.duration)|;
      assert after == before[n := count];
      SumInsert<nat>(before, n, count);
    } else {
      assert after == before;
    }
  }

  /** What is served under a label is the sum of the counts of the windows it stands for. */
  lemma {:induction false} ShareSums(ts: seq<Time>, ws: seq<WindowConfig>, now: Time, tag: Label)
    ensures Share(ts, ws, now, tag) == Sum(Labelled(ts, ws, now, tag))
  {
    if ws == [] {
      assert Labelled(ts, ws, now, tag) == map[];
    } else {
      var n := |ws| - 1;
      ShareSums(ts, ws[..n], now, tag);
      InWindowCounts(ts, now - ws[n].duration);
      LabelledSnoc(ts, ws[..n], now, tag, ws[n]);
      assert ws == ws[..n] + [ws[n]];
    }
  }

  ghost function Shares(m: Streams, ws: seq<WindowConfig>, now: Time, eventType: string, tag: Label): map<Stream, int> {
    map k | k in m && k.eventType == eventType :: Share(m[k], ws, now, tag)
  }

  /** The count of an event type across all nodes. */
  ghost function Total(m: Streams, ws: seq<WindowConfig>, now: Time, eventType: string, tag: Label): int {
    Sum(Shares(m, ws, now, eventType, tag))
  }

  function Cell<K>(row: map<K, int>, k: K): int {
    if k in row then row[k] else 0
  }

  function Row<K>(table: map<string, map<K, int>>, eventType: string): map<K, int> {
    if eventType in table then table[eventType] else map[]
  }

  lemma {:induction false} ShareInvisible(full: seq<Time>, ts: seq<Time>, dropped: Time,
                                          ws: seq<WindowConfig>, now: Time, tag: Label)
    requires Remains(full, ts, dropped) && forall w :: w in ws ==> dropped <= now - w.duration
    ensures Share(full, ws, now, tag) == Share(ts, ws, now, tag)
  {
    if ws != [] {
      var n := |ws| - 1;
      assert ws[n] in ws;
      ShareInvisible(full, ts, dropped, ws[..n], now, tag);
      PruningIsInvisible(full, ts, dropped, now - ws[n].duration);
    }
  }

  lemma {:induction false} ShareEmpty(ws: seq<WindowConfig>, now: Time, tag: Label)
    ensures Share([], ws, now, tag) == 0
  {
    if ws != [] {
      ShareEmpty(ws[..|ws| - 1], now, tag);
    }
  }

  lemma TotalInsert(m: Streams, k: Stream, ts: seq<Time>,
                    ws: seq<WindowConfig>, now: Time, eventType: string, tag: Label)
    requires k !in m
    ensures Total(m[k := ts], ws, now, eventType, tag)
         == Total(m, ws, now, eventType, tag) + if k.eventType == eventType then Share(ts, ws, now, tag) else 0
  {
    var before, after := Shares(m, ws, now, eventType, tag), Shares(m[k := ts], ws, now, eventType, tag);
    if k.eventType == eventType {
      assert after == before[k := Share(ts, ws, now, tag)];
      SumInsert(before, k, Share(ts, ws, now, tag));
    } else {
      assert after == before;
    }
  }

  /** The pruned table and the full history have the same totals. */
  lemma TotalsAgree(full: Streams, m: Streams, dropped: Time,
                    ws: seq<WindowConfig>, now: Time, eventType: string, tag: Label)
    requires m.Keys <= full.Keys
    requires forall k :: k in full ==> Remains(full[k], Kept(m, k), dropped)
    requires forall w :: w in ws ==> dropped <= now - w.duration
    ensures Total(m, ws, now, eventType, tag) == Total(full, ws, now, eventType, tag)
  {
    var some, all := Shares(m, ws, now, eventType, tag), Shares(full, ws, now, eventType, tag);
    forall k | k in all
      ensures all[k] == if k in some then some[k] else 0
    {
      ShareInvisible(full[k], Kept(m, k), dropped, ws, now, tag);
      ShareEmpty(ws, now, tag);
    }
    SumDropZeros(some, all);
  }

  class Detector {
    const windows: seq<WindowConfig>
    var timestamps: Streams
    ghost var history: Streams
    ghost var clock: Time  // the latest clock reading

    ghost predicate Valid()
      reads this
    {
      AllFaithful(history, timestamps, clock, Longest(windows))
    }

    constructor (configured: seq<WindowConfig>, ghost now: Time)
      ensures Valid()
      ensures history == map[] && clock == now
      ensures configured != [] ==> windows == configured
      ensures configured == [] ==> windows == [WindowConfig(60_000_000_000, 30), WindowConfig(300_000_000_000, 100)]
    {
      windows := if |configured| == 0 then DEFAULT_WINDOWS else configured;
      timestamps, history, clock := map[], map[], now;
    }

    method MaxDuration() returns (max: int)
      ensures max == Longest(windows)
    {
      max := 0;
      for i := 0 to |windows|
        invariant max == Longest(windows[..i])
      {
        assert windows[..i + 1][..i] == windows[..i];
        if windows[i].duration > max {
          max := windows[i].duration;
        }
      }
      assert windows[..|windows|] == windows;
    }

    /** Drops the leading times of one stream that are before the longest window. */
    method Prune(key: Stream, now: Time)
      requires key in timestamps
      modifies this`timestamps
      ensures key in timestamps && timestamps == old(timestamps)[key := timestamps[key]]
      ensures Remains(old(timestamps)[key], timestamps[key], now - Longest(windows))
    {
      var max := MaxDuration();
      var cutoff := now - max;
      var ts := timestamps[key];
      var i := 0;
      while i < |ts| && ts[i] < cutoff
        invariant 0 <= i <= |ts| && forall j :: 0 <= j < i ==> ts[j] < cutoff
      {
        i := i + 1;
      }
      if i > 0 {
        timestamps := timestamps[key := ts[i..]];
      }
    }

    method CountWithin(key: Stream, now: Time, dur: int) returns (count: nat)
      ensures count == InWindow(Kept(timestamps, key), now - dur)
    {
      var ts := if key in timestamps then timestamps[key] else [];
      count := Tally(ts, now - dur);
    }

    static method Tally(ts: seq<Time>, cutoff: Time) returns (count: nat)
      ensures count == InWindow(ts, cutoff)
    {
      count := 0;
      for i := 0 to |ts|
        invariant count == InWindow(ts[..i], cutoff)
      {
        assert ts[..i + 1][..i] == ts[..i];
        if !(ts[i] < cutoff) {
          count := count + 1;
        }
      }
      assert ts[..|ts|] == ts;
    }

    /**
     Records one event. The alert depends on the full history only: there is one
     exactly when some window's full-history count exceeds its threshold, and it
     reports the first such window.
     */
    method Record(event: Event, now: Time) returns (alerts: seq<Alert>)
      requires Valid() && clock <= now
      modifies this
      ensures Valid() && clock == now
      ensures var key := Stream(event.nodeID, event.eventType);
        history == old(history)[key := Kept(old(history), key) + [now]]
      ensures Reports(history[Stream(event.nodeID, event.eventType)], windows, event, now, alerts)
    {
      var key := Stream(event.nodeID, event.eventType);
      Append(key, now);
      assert Faithful(history[key], Kept(timestamps, key), now, Longest(windows));
      alerts := Evaluate(key, event, now, history[key]);
    }

    method Append(key: Stream, now: Time)
      requires Valid() && clock <= now
      modifies this
      ensures Valid() && clock == now
      ensures history == old(history)[key := Kept(old(history), key) + [now]]
    {
      ghost var before := timestamps;
      timestamps := timestamps[key := Kept(timestamps, key) + [now]];
      Prune(key, now);
      ghost var left := timestamps[key];
      PutTwice(before, key, Kept(before, key) + [now], left);
      RecordKeepsFaithful(history, before, clock, key, now, Kept(before, key) + [now], left, Longest(windows));
      history, clock := history[key := Kept(history, key) + [now]], now;
    }

    /** The scan over the windows, which stops at the first breach. */
    method Evaluate(key: Stream, event: Event, now: Time, ghost full: seq<Time>) returns (alerts: seq<Alert>)
      requires Remains(full, Kept(timestamps, key), now - Longest(windows))
      ensures Reports(full, windows, event, now, alerts)
    {
      alerts := [];
      for i := 0 to |windows|
        invariant alerts == []
        invariant forall j :: 0 <= j < i ==> !Breaches(full, windows[j], now)
      {
        var w := windows[i];
        assert w in windows;
        PruningIsInvisible(full, Kept(timestamps, key), now - Longest(windows), now - w.duration);
        var count := CountWithin(key, now, w.duration);
        if count > w.threshold {
          alerts := [Alert("anomaly_" + event.eventType, event.nodeID, event.eventID, now, count, w, "warning")];
          assert FirstBreach(full, windows, now, i) && alerts == [BreachAlert(event, full, windows[i], now)];
          return;
        }
      }
    }

    /** The counts served per event type and window label equal those of the full history. */
    method WindowStats(now: Time) returns (result: map<string, map<Label, int>>)
      requires Valid() && clock <= now
      ensures forall eventType, tag ::
        Cell(Row(result, eventType), tag) == Total(history, windows, now, eventType, tag)
    {
      result := map[];
      var todo := timestamps.Keys;
      ghost var done: Streams := map[];
      while todo != {}
        invariant todo <= timestamps.Keys && done == timestamps - todo
        invariant forall eventType, tag ::
          Cell(Row(result, eventType), tag) == Total(done, windows, now, eventType, tag)
        decreases todo
      {
        var key :| key in todo;
        var row := AddStream(Row(result, key.eventType), timestamps[key], now);
        ghost var done' := done[key := timestamps[key]];
        var result' := result[key.eventType := row];
        forall eventType, tag
          ensures Cell(Row(result', eventType), tag) == Total(done', windows, now, eventType, tag)
        {
          TotalInsert(done, key, timestamps[key], windows, now, eventType, tag);
        }
        result, todo, done := result', todo - {key}, done';
      }
      assert done == timestamps;
      forall eventType, tag
        ensures Total(timestamps, windows, now, eventType, tag) == Total(history, windows, now, eventType, tag)
      {
        forall k | k in history
          ensures Remains(history[k], Kept(timestamps, k), clock - Longest(windows))
        {
          assert Faithful(history[k], Kept(timestamps, k), clock, Longest(windows));
        }
        TotalsAgree(history, timestamps, clock - Longest(windows), windows, now, eventType, tag);
      }
    }

    method AddStream(row: map<Label, int>, ts: seq<Time>, now: Time) returns (sum: map<Label, int>)
      ensures forall tag :: Cell(sum, tag) == Cell(row, tag) + Share(ts, windows, now, tag)
    {
      sum := row;
      for i := 0 to |windows|
        invariant forall tag :: Cell(sum, tag) == Cell(row, tag) + Share(ts, windows[..i], now, tag)
      {
        assert windows[..i + 1][..i] == windows[..i];
        var tag := DurationLabel(windows[i].duration);
        var count := Tally(ts, now - windows[i].duration);
        sum := sum[tag := Cell(sum, tag) + count];
      }
      assert windows[..|windows|] == windows;
    }

    /** Removes idle streams: exactly those with a time inside the longest window stay, and no answer changes. */
    method Gc(now: Time)
      requires Valid() && clock <= now
      modifies this
      ensures Valid() && clock == now && history == old(history)
      ensures forall k ::
        k in timestamps <==> k in old(timestamps) && exists t :: t in history[k] && t >= now - Longest(windows)
    {
      Sweep(now);
      GcKeepsFaithful(history, old(timestamps), clock, now, timestamps, Longest(windows));
      clock := now;
    }

    method Sweep(now: Time)
      modifies this`timestamps
      ensures timestamps
           == map k | k in old(timestamps) && Live(old(timestamps)[k], now - Longest(windows)) :: old(timestamps)[k]
    {
      var max := MaxDuration();
      var cutoff := now - max;
      var todo := timestamps.Keys;
      while todo != {}
        invariant todo <= timestamps.Keys <= old(timestamps.Keys)
        invariant forall k :: k in old(timestamps) ==>
          (k in timestamps <==> k in todo || Live(old(timestamps)[k], cutoff))
        invariant forall k :: k in timestamps ==> timestamps[k] == old(timestamps)[k]
        decreases todo
      {
        var key :| key in todo;
        var ts := timestamps[key];
        if |ts| == 0 || ts[|ts| - 1] < cutoff {
          timestamps := timestamps - {key};
        }
        todo := todo - {key};
      }
    }
  }

  /** The last kept time is inside the window. */
  predicate Live(ts: seq<Time>, cutoff: Time) {
    ts != [] && ts[|ts| - 1] >= cutoff
  }

  lemma PutTwice<K, V>(m: map<K, V>, k: K, a: V, b: V)
    ensures m[k := a][k := b] == m[k := b]
  {
  }

  lemma GcKeepsFaithful(history: Streams, timestamps: Streams, clock: Time, now: Time,
                        timestamps': Streams, longest: int)
    requires clock <= now && AllFaithful(history, timestamps, clock, longest)
    requires timestamps' == map k | k in timestamps && Live(timestamps[k], now - longest) :: timestamps[k]
    ensures AllFaithful(history, timestamps', now, longest)
    ensures forall k :: k in timestamps' <==> k in timestamps && exists t :: t in history[k] && t >= now - longest
  {
    forall k | k in history
      ensures Faithful(history[k], Kept(timestamps', k), now, longest)
      ensures k in timestamps' <==> k in timestamps && exists t :: t in history[k] && t >= now - longest
    {
      assert Faithful(history[k], Kept(timestamps, k), clock, longest);
      GcStream(history[k], Kept(timestamps, k), clock - longest, now - longest);
    }
  }

  lemma GcStream(full: seq<Time>, ts: seq<Time>, dropped: Time, cutoff: Time)
    requires forall i :: 0 <= i < |full| ==> full[i] <= full[|full| - 1]
    requires Remains(full, ts, dropped) && dropped <= cutoff
    ensures Remains(full, ts, cutoff)
    ensures Live(ts, cutoff) <==> exists t :: t in full && t >= cutoff
    ensures !Live(ts, cutoff) ==> Remains(full, [], cutoff)
  {
    if full != [] {
      var last := full[|full| - 1];
      if last >= cutoff {
        assert last in full;
        assert ts != [] && ts[|ts| - 1] == last;
      } else {
        forall t | t in full
          ensures t < cutoff
        {
          var i :| 0 <= i < |full| && full[i] == t;
        }
      }
    }
  }

  lemma RecordKeepsFaithful(history: Streams, timestamps: Streams, clock: Time, key: Stream, now: Time,
                            appended: seq<Time>, left: seq<Time>, longest: int)
    requires clock <= now && AllFaithful(history, timestamps, clock, longest)
    requires appended == Kept(timestamps, key) + [now] && Remains(appended, left, now - longest)
    ensures AllFaithful(history[key := Kept(history, key) + [now]], timestamps[key := left], now, longest)
  {
    var history' := history[key := Kept(history, key) + [now]];
    forall k | k in history'
      ensures Faithful(history'[k], Kept(timestamps[key := left], k), now, longest)
    {
      assert Faithful(Kept(history, k), Kept(timestamps, k), clock, longest);
      if k == key {
        AppendFaithful(Kept(history, k), Kept(timestamps, k), left, clock, now, longest);
      } else {
        WaitFaithful(history[k], Kept(timestamps, k), clock, now, longest);
      }
    }
  }

  lemma AppendFaithful(full: seq<Time>, ts: seq<Time>, left: seq<Time>, clock: Time, now: Time, longest: int)
    requires Faithful(full, ts, clock, longest) && clock <= now
    requires Remains(ts + [now], left, now - longest)
    ensures Faithful(full + [now], left, now, longest)
  {
    RemainsChain(full, ts, left, clock - longest, now, now - longest);
  }

  lemma WaitFaithful(full: seq<Time>, ts: seq<Time>, clock: Time, now: Time, longest: int)
    requires Faithful(full, ts, clock, longest) && clock <= now
    ensures Faithful(full, ts, now, longest)
  {
  }

  lemma RemainsChain(full: seq<Time>, ts: seq<Time>, left: seq<Time>, dropped: Time, now: Time, cutoff: Time)
    requires Remains(full, ts, dropped) && dropped <= cutoff
    requires Remains(ts + [now], left, cutoff)
    ensures Remains(full + [now], left, cutoff)
  {
    var n, m := |full| - |ts|, |ts| + 1 - |left|;
    assert (full + [now])[n..] == ts + [now];
    assert (full + [now])[n + m..] == (full + [now])[n..][m..];
    forall i | 0 <= i < n + m
      ensures (full + [now])[i] < cutoff
    {
      if i >= n {
        assert (full + [now])[i] == (ts + [now])[i - n];
      }
    }
  }
}
