/**
 Listing records (store/badger.go, store/agenttoken.go): a reverse iterator over
 an ordered key space, stopped by a prefix, a limit and a scan cap, against the
 plain description of what a listing contains.
 */
module StoreScan {
  import opened Bytes
  import opened Options
  import opened TimeKeys

  // ----- the key space

  function TokenKey(nodeID: Key): Key {
    TOKEN + nodeID
  }

  /** The three key ranges never overlap. */
  lemma RangesDisjoint(k: Key)
    ensures !(EVENT <= k && ALERT <= k) && !(EVENT <= k && TOKEN <= k) && !(ALERT <= k && TOKEN <= k)
  {
    if |k| > 1 {
      assert EVENT <= k ==> k[0] == EVENT[0];
      assert ALERT <= k ==> k[0] == ALERT[0] && k[1] == ALERT[1];
      assert TOKEN <= k ==> k[0] == TOKEN[0] && k[1] == TOKEN[1];
    }
  }

  /** Every event or alert key lies under its prefix and below the position the reverse scan starts from. */
  lemma RecordsBelowStart(prefix: Key, received: Utc, id: Key)
    requires Valid(received)
    ensures var k := RecordKey(prefix, received, id);
      prefix <= k && Less(k, prefix + [255])
  {
    var rest := Text(received) + ([COLON] + id);
    assert Text(received)[0] == Pad(received.year, 4)[0];
    LessAfter(prefix, rest, [255]);
    LessAt(rest, [255], 0);
  }

  ghost predicate IsRecordKey(k: Key, prefix: Key) {
    exists t, id :: Valid(t) && k == RecordKey(prefix, t, id)
  }

  /** The only keys the collector ever writes. */
  ghost predicate Minted(k: Key) {
    IsRecordKey(k, EVENT) || IsRecordKey(k, ALERT) || exists nodeID :: k == TokenKey(nodeID)
  }

  /** In any store the collector has written, the reverse scan of a range starts above all of its records. */
  lemma ScanStartsAbove(keys: set<Key>, prefix: Key)
    requires (forall k <- keys :: Minted(k)) && (prefix == EVENT || prefix == ALERT)
    ensures forall k <- keys :: prefix <= k ==> IsRecordKey(k, prefix) && Less(k, prefix + [255])
  {
    forall k <- keys | prefix <= k
      ensures IsRecordKey(k, prefix) && Less(k, prefix + [255])
    {
      RangesDisjoint(k);
      assert !(TOKEN <= k);
      var t, id :| Valid(t) && k == RecordKey(prefix, t, id);
      RecordsBelowStart(prefix, t, id);
    }
  }

  // ----- keys in descending order

  ghost predicate IsLast(k: Key, s: set<Key>) {
    k in s && forall x :: x in s && x != k ==> Less(x, k)
  }

  lemma {:induction false} LastExists(s: set<Key>)
    requires s != {}
    ensures exists k :: IsLast(k, s)
  {
    var x :| x in s;
    var t := s - {x};
    if t == {} {
      assert s == {x};
      assert IsLast(x, s);
    } else {
      LastExists(t);
      var k :| IsLast(k, t);
      LessTotal(x, k);
      if Less(x, k) {
        assert IsLast(k, s);
      } else {
        forall y | y in s && y != x
          ensures Less(y, x)
        {
          if y != k {
            LessTransitive(y, k, x);
          }
        }
        assert IsLast(x, s);
      }
    }
  }

  /** The keys of a set, largest first. */
  ghost function Descending(s: set<Key>): (r: seq<Key>)
    ensures forall k :: k in r <==> k in s
    decreases |s|
  {
    if s == {} then []
    else
      LastExists(s);
      var k :| IsLast(k, s);
      [k] + Descending(s - {k})
  }

  ghost predicate Falling(r: seq<Key>) {
    forall i, j :: 0 <= i < j < |r| ==> Less(r[j], r[i])
  }

  lemma {:induction false} DescendingSorted(s: set<Key>)
    ensures Falling(Descending(s))
    decreases |s|
  {
    if s != {} {
      var r := Descending(s);
      var k := r[0];
      assert IsLast(k, s) && r == [k] + Descending(s - {k});
      DescendingSorted(s - {k});
      forall i, j | 0 <= i < j < |r|
        ensures Less(r[j], r[i])
      {
        assert r[j] == Descending(s - {k})[j - 1];
        assert r[j] in Descending(s - {k});
      }
    }
  }

  /** There is only one way to list a set of keys in descending order. */
  lemma {:induction false} DescendingUnique(s: set<Key>, r: seq<Key>)
    requires forall k :: k in r <==> k in s
    requires Falling(r)
    ensures r == Descending(s)
    decreases |s|
  {
    var d := Descending(s);
    DescendingSorted(s);
    if r == [] {
      assert s == {};
    } else {
      assert r[0] in r && r[0] in s && r[0] in d;
      LessTotal(r[0], d[0]);
      assert d[0] in r;
      assert r == [r[0]] + r[1..];
      LessTotal(r[0], r[0]);
      forall k
        ensures k in r[1..] <==> k in s - {r[0]}
      {
        LessTotal(k, k);
      }
      DescendingUnique(s - {r[0]}, r[1..]);
    }
  }

  lemma DescendingStep(s: set<Key>, k: Key)
    requires IsLast(k, s)
    ensures Descending(s) == [k] + Descending(s - {k})
  {
    var r := [k] + Descending(s - {k});
    DescendingSorted(s - {k});
    forall i, j | 0 <= i < j < |r|
      ensures Less(r[j], r[i])
    {
      assert r[j] in Descending(s - {k});
    }
    DescendingUnique(s, r);
  }

  // ----- iterator positions

  /** Reverse seek: the largest key not above the bound. */
  method SeekReverse(keys: set<Key>, bound: Key) returns (pos: Option<Key>)
    ensures pos.Some? ==> IsLast(pos.value, set k | k in keys && !Less(bound, k))
    ensures pos.None? ==> forall k :: k in keys ==> Less(bound, k)
  {
    var below := set k | k in keys && !Less(bound, k);
    if below == {} {
      assert forall k :: k in keys && !Less(bound, k) ==> k in below;
      return None;
    }
    LastExists(below);
    var k :| k in below && forall x :: x in below && x != k ==> Less(x, k);
    return Some(k);
  }

  /** Reverse step: the largest key below the current one. */
  method NextReverse(keys: set<Key>, cur: Key) returns (pos: Option<Key>)
    ensures pos.Some? ==> IsLast(pos.value, set k | k in keys && Less(k, cur))
    ensures pos.None? ==> forall k :: k in keys ==> !Less(k, cur)
  {
    var below := set k | k in keys && Less(k, cur);
    if below == {} {
      assert forall k :: k in keys && Less(k, cur) ==> k in below;
      return None;
    }
    LastExists(below);
    var k :| k in below && forall x :: x in below && x != k ==> Less(x, k);
    return Some(k);
  }

  /** The iterator stands on the first of the keys that remain under the prefix, or none remains. */
  ghost predicate At(pos: Option<Key>, prefix: Key, rest: set<Key>) {
    if pos.Some? && prefix <= pos.value then IsLast(pos.value, rest) else rest == {}
  }

  function Under(keys: set<Key>, prefix: Key): set<Key> {
    set k | k in keys && prefix <= k
  }

  lemma SeekFindsFirst(keys: set<Key>, prefix: Key, pos: Option<Key>)
    requires forall k :: k in keys && prefix <= k ==> Less(k, prefix + [255])
    requires pos.Some? ==> IsLast(pos.value, set k | k in keys && !Less(prefix + [255], k))
    requires pos.None? ==> forall k :: k in keys ==> Less(prefix + [255], k)
    ensures At(pos, prefix, Under(keys, prefix))
  {
    forall k | k in Under(keys, prefix)
      ensures pos.Some? && prefix <= pos.value && (k == pos.value || Less(k, pos.value))
    {
      LessTotal(k, prefix + [255]);
      assert k in (set x | x in keys && !Less(prefix + [255], x));
      if k != pos.value {
        LessTotal(pos.value, prefix + [255]);
        PrefixContiguous(prefix, k, pos.value, prefix + [255]);
      }
    }
  }

  lemma NextFindsNext(keys: set<Key>, prefix: Key, rest: set<Key>, cur: Key, pos: Option<Key>)
    requires IsLast(cur, rest) && rest <= Under(keys, prefix)
    requires forall k :: k in Under(keys, prefix) && Less(k, cur) ==> k in rest
    requires pos.Some? ==> IsLast(pos.value, set k | k in keys && Less(k, cur))
    requires pos.None? ==> forall k :: k in keys ==> !Less(k, cur)
    ensures At(pos, prefix, rest - {cur})
  {
    forall k | k in rest - {cur}
      ensures pos.Some? && prefix <= pos.value && (k == pos.value || Less(k, pos.value))
    {
      assert k in (set x | x in keys && Less(x, cur));
      if k != pos.value {
        PrefixContiguous(prefix, k, pos.value, cur);
      }
    }
    if pos.Some? && prefix <= pos.value {
      assert pos.value in Under(keys, prefix);
      LessTotal(cur, cur);
    }
  }

  // ----- what a listing contains

  function Take<T>(s: seq<T>, n: int): seq<T> {
    if n <= 0 then [] else if n <= |s| then s[..n] else s
  }

  function Values<V>(db: map<Key, V>, keys: seq<Key>): (vs: seq<V>)
    requires forall k :: k in keys ==> k in db
    ensures |vs| == |keys|
  {
    seq(|keys|, i requires 0 <= i < |keys| => db[keys[i]])
  }

  /** The records before the first one that does not decode. */
  function Decoded<V, R>(vs: seq<V>, decode: V -> Option<R>): seq<R> {
    if vs == [] || decode(vs[0]).None? then [] else [decode(vs[0]).value] + Decoded(vs[1..], decode)
  }

  /** The records of one node; an empty node stands for every node. */
  function Matching<R>(rs: seq<R>, node: Key, nodeOf: R -> Key): seq<R> {
    if rs == [] then [] else Hit(rs[0], node, nodeOf) + Matching(rs[1..], node, nodeOf)
  }

  function Hit<R>(r: R, node: Key, nodeOf: R -> Key): seq<R> {
    if node == [] || nodeOf(r) == node then [r] else []
  }

  lemma {:induction false} DecodedConcat<V, R>(a: seq<V>, b: seq<V>, decode: V -> Option<R>)
    requires |Decoded(a, decode)| == |a|
    ensures Decoded(a + b, decode) == Decoded(a, decode) + Decoded(b, decode)
  {
    if a == [] {
      assert a + b == b;
    } else {
      assert (a + b)[1..] == a[1..] + b;
      DecodedConcat(a[1..], b, decode);
    }
  }

  lemma {:induction false} DecodedLength<V, R>(vs: seq<V>, decode: V -> Option<R>)
    ensures |Decoded(vs, decode)| <= |vs|
  {
    if vs != [] {
      DecodedLength(vs[1..], decode);
    }
  }

  lemma Associative<R>(a: seq<R>, b: seq<R>, c: seq<R>)
    ensures a + (b + c) == (a + b) + c
  {
  }

  lemma ValuesConcat<V>(db: map<Key, V>, a: seq<Key>, b: seq<Key>)
    requires forall k :: k in a + b ==> k in db
    ensures forall k :: k in a ==> k in db
    ensures forall k :: k in b ==> k in db
    ensures Values(db, a + b) == Values(db, a) + Values(db, b)
  {
    assert forall k :: k in a ==> k in a + b;
    assert forall k :: k in b ==> k in a + b;
  }

  lemma {:induction false} MatchingConcat<R>(a: seq<R>, b: seq<R>, node: Key, nodeOf: R -> Key)
    ensures Matching(a + b, node, nodeOf) == Matching(a, node, nodeOf) + Matching(b, node, nodeOf)
  {
    if a == [] {
      assert a + b == b;
    } else {
      assert (a + b)[0] == a[0] && (a + b)[1..] == a[1..] + b;
      MatchingConcat(a[1..], b, node, nodeOf);
      Associative(Hit(a[0], node, nodeOf), Matching(a[1..], node, nodeOf), Matching(b, node, nodeOf));
    }
  }

  /** The listing of `all` (newest key first): the scanned part, up to the first bad record, filtered and cut. */
  ghost predicate Listing<V, R>(all: seq<V>, node: Key, limit: int, cap: nat, decode: V -> Option<R>, nodeOf: R -> Key,
                                items: seq<R>, failed: bool)
  {
    var top := if node == [] then all else Take(all, cap);
    var good := Decoded(top, decode);
    var matches := Matching(good, node, nodeOf);
    && items == Take(matches, limit)
    && (failed <==> |good| < |top| && |matches| < limit)
  }

  /** All of `vs` decodes, and `items` are its matches. */
  ghost predicate Collected<V, R>(vs: seq<V>, node: Key, decode: V -> Option<R>, nodeOf: R -> Key, items: seq<R>) {
    |Decoded(vs, decode)| == |vs| && items == Matching(Decoded(vs, decode), node, nodeOf)
  }

  lemma CollectedStep<V, R>(vs: seq<V>, v: V, node: Key, decode: V -> Option<R>, nodeOf: R -> Key, items: seq<R>)
    requires Collected(vs, node, decode, nodeOf, items) && decode(v).Some?
    ensures Collected(vs + [v], node, decode, nodeOf, items + Hit(decode(v).value, node, nodeOf))
  {
    var r := decode(v).value;
    DecodedConcat(vs, [v], decode);
    assert Decoded([v], decode) == [r] + Decoded([v][1..], decode) == [r];
    MatchingConcat(Decoded(vs, decode), [r], node, nodeOf);
    assert Matching([r][1..], node, nodeOf) == [];
  }

  lemma CollectedNext<V, R>(db: map<Key, V>, seen: seq<Key>, k: Key, node: Key,
                            decode: V -> Option<R>, nodeOf: R -> Key, items: seq<R>)
    requires (forall x :: x in seen ==> x in db) && k in db
    requires Collected(Values(db, seen), node, decode, nodeOf, items) && decode(db[k]).Some?
    ensures forall x :: x in seen + [k] ==> x in db
    ensures Collected(Values(db, seen + [k]), node, decode, nodeOf, items + Hit(decode(db[k]).value, node, nodeOf))
  {
    ValuesConcat(db, seen, [k]);
    assert Values(db, [k]) == [db[k]];
    CollectedStep(Values(db, seen), db[k], node, decode, nodeOf, items);
  }

  /** A scan that has read `seen` and stops before `rest` returns the listing. */
  lemma ScanStops<V, R>(seen: seq<V>, rest: seq<V>, node: Key, limit: int, cap: nat,
                        decode: V -> Option<R>, nodeOf: R -> Key, items: seq<R>, failed: bool)
    requires Collected(seen, node, decode, nodeOf, items)
    requires items == [] || |items| <= limit
    requires node != [] ==> |seen| <= cap
    requires if failed then rest != [] && decode(rest[0]).None? && |items| < limit && (node != [] ==> |seen| < cap)
             else rest == [] || |items| >= limit || (node != [] && |seen| == cap)
    ensures Listing(seen + rest, node, limit, cap, decode, nodeOf, items, failed)
  {
    var all := seen + rest;
    var top := if node == [] then all else Take(all, cap);
    var more := if node == [] then rest else Take(rest, cap - |seen|);
    assert top == seen + more;
    DecodedConcat(seen, more, decode);
    DecodedLength(more, decode);
    MatchingConcat(Decoded(seen, decode), Decoded(more, decode), node, nodeOf);
  }

  /** `seen` has been passed, `rest` lies ahead, and together they are the keys under the prefix. */
  ghost predicate Progress(keys: set<Key>, prefix: Key, pos: Option<Key>, seen: seq<Key>, rest: set<Key>) {
    && rest <= Under(keys, prefix) && At(pos, prefix, rest)
    && Descending(Under(keys, prefix)) == seen + Descending(rest)
  }

  lemma ProgressBegins(keys: set<Key>, prefix: Key, pos: Option<Key>)
    requires At(pos, prefix, Under(keys, prefix))
    ensures Progress(keys, prefix, pos, [], Under(keys, prefix))
  {
  }

  lemma ProgressStep(keys: set<Key>, prefix: Key, pos: Option<Key>, seen: seq<Key>, rest: set<Key>, pos': Option<Key>)
    requires Progress(keys, prefix, pos, seen, rest) && pos.Some? && prefix <= pos.value
    requires pos'.Some? ==> IsLast(pos'.value, set k | k in keys && Less(k, pos.value))
    requires pos'.None? ==> forall k :: k in keys ==> !Less(k, pos.value)
    ensures Progress(keys, prefix, pos', seen + [pos.value], rest - {pos.value})
  {
    var k := pos.value;
    DescendingStep(rest, k);
    forall x | x in Under(keys, prefix) && Less(x, k)
      ensures x in rest
    {
      DescendingSorted(Under(keys, prefix));
      SmallerAhead(Descending(Under(keys, prefix)), seen, Descending(rest), x);
    }
    NextFindsNext(keys, prefix, rest, k, pos');
    assert seen + ([k] + Descending(rest - {k})) == (seen + [k]) + Descending(rest - {k});
  }

  lemma SmallerAhead(all: seq<Key>, seen: seq<Key>, left: seq<Key>, x: Key)
    requires Falling(all)
    requires all == seen + left && left != [] && x in all && Less(x, left[0])
    ensures x in left
  {
    var i :| 0 <= i < |all| && all[i] == x;
    assert all[|seen|] == left[0];
    LessTotal(x, left[0]);
    assert all[i] == left[i - |seen|];
  }

  lemma ValuesAhead<V>(db: map<Key, V>, prefix: Key, pos: Option<Key>, seen: seq<Key>, rest: set<Key>)
    requires Progress(db.Keys, prefix, pos, seen, rest) && forall k :: k in seen ==> k in db
    ensures Values(db, Descending(Under(db.Keys, prefix))) == Values(db, seen) + Values(db, Descending(rest))
    ensures if pos.Some? && prefix <= pos.value
            then Descending(rest) != [] && Descending(rest)[0] == pos.value && pos.value in db
            else Descending(rest) == []
  {
    ValuesConcat(db, seen, Descending(rest));
    if pos.Some? && prefix <= pos.value {
      DescendingStep(rest, pos.value);
    } else {
      assert Descending(rest) == [];
    }
  }

  lemma ProgressStops<V, R>(db: map<Key, V>, prefix: Key, pos: Option<Key>, seen: seq<Key>, rest: set<Key>,
                            node: Key, limit: int, cap: nat,
                            decode: V -> Option<R>, nodeOf: R -> Key, items: seq<R>, failed: bool)
    requires Progress(db.Keys, prefix, pos, seen, rest) && forall k :: k in seen ==> k in db
    requires Collected(Values(db, seen), node, decode, nodeOf, items)
    requires items == [] || |items| <= limit
    requires node != [] ==> |seen| <= cap
    requires if failed
             then && pos.Some? && prefix <= pos.value && pos.value in db && decode(db[pos.value]).None?
                  && |items| < limit && (node != [] ==> |seen| < cap)
             else pos.None? || !(prefix <= pos.value) || |items| >= limit || (node != [] && |seen| == cap)
    ensures Listing(Values(db, Descending(Under(db.Keys, prefix))), node, limit, cap, decode, nodeOf, items, failed)
  {
    ValuesAhead(db, prefix, pos, seen, rest);
    ScanStops(Values(db, seen), Values(db, Descending(rest)), node, limit, cap, decode, nodeOf, items, failed);
  }

  /** ListEvents and ListAlerts: the reverse iterator loop. */
  method ListNewest<V, R>(db: map<Key, V>, prefix: Key, node: Key, limit: int, cap: nat,
                          decode: V -> Option<R>, nodeOf: R -> Key)
    returns (items: seq<R>, failed: bool)
    requires forall k :: k in db && prefix <= k ==> Less(k, prefix + [255])
    ensures Listing(Values(db, Descending(Under(db.Keys, prefix))), node, limit, cap, decode, nodeOf, items, failed)
  {
    ghost var seen: seq<Key>, rest := [], Under(db.Keys, prefix);
    var scanned := 0;
    items, failed := [], false;
    var pos := SeekReverse(db.Keys, prefix + [255]);
    SeekFindsFirst(db.Keys, prefix, pos);
    ProgressBegins(db.Keys, prefix, pos);
    while pos.Some? && prefix <= pos.value && |items| < limit
      invariant Progress(db.Keys, prefix, pos, seen, rest)
      invariant forall k :: k in seen ==> k in db
      invariant scanned == |seen| && (node != [] ==> scanned <= cap)
      invariant Collected(Values(db, seen), node, decode, nodeOf, items)
      invariant items == [] || |items| <= limit
      decreases rest
    {
      var k := pos.value;
      if node != [] && scanned >= cap {
        break;
      }
      scanned := scanned + 1;
      var r := decode(db[k]);
      if r.None? {
        failed := true;
        break;
      }
      CollectedNext(db, seen, k, node, decode, nodeOf, items);
      ghost var items' := items + Hit(r.value, node, nodeOf);
      if node == [] || nodeOf(r.value) == node {
        items := items + [r.value];
      }
      assert items == items';
      var next := NextReverse(db.Keys, k);
      ProgressStep(db.Keys, prefix, pos, seen, rest, next);
      pos, seen, rest := next, seen + [k], rest - {k};
    }
    ProgressStops(db, prefix, pos, seen, rest, node, limit, cap, decode, nodeOf, items, failed);
  }

  /**
   How far a listing is newest first: an entry received before a later-listed
   one shares its second and was cut off by the trimming of zeros.
   */
  lemma ListingOrder(r: seq<Key>, prefix: Key, times: seq<Utc>, ids: seq<Key>, i: nat, j: nat)
    requires Falling(r) && |r| == |times| == |ids| && i < j < |r|
    requires forall x :: 0 <= x < |r| ==> Valid(times[x]) && r[x] == RecordKey(prefix, times[x], ids[x])
    ensures Seconds(times[i]) >= Seconds(times[j])
    ensures Instant(times[i]) < Instant(times[j])
        ==> SameSecond(times[i], times[j]) && Digits(times[i].nanos) < Digits(times[j].nanos)
  {
    StampOrder(times[i], times[j]);
    LessTotal(r[i], r[j]);
    if Instant(times[i]) < Instant(times[j]) {
      KeyOrder(prefix, times[i], ids[i], times[j], ids[j]);
    }
  }

  // ----- what a listing means, record by record

  ghost predicate Increasing(f: seq<nat>, bound: nat) {
    (forall i :: 0 <= i < |f| ==> f[i] < bound) && forall i, j :: 0 <= i < j < |f| ==> f[i] < f[j]
  }

  /** f names the positions of the records of one node, all of them and in order. */
  ghost predicate Selects<R>(f: seq<nat>, rs: seq<R>, node: Key, nodeOf: R -> Key) {
    && Increasing(f, |rs|)
    && forall j: nat :: j < |rs| ==> (j in f <==> node == [] || nodeOf(rs[j]) == node)
  }

  /** ms[i] is the record at position f[i]. */
  ghost predicate Picked<R>(f: seq<nat>, rs: seq<R>, ms: seq<R>) {
    |f| == |ms| && forall i :: 0 <= i < |f| ==> f[i] < |rs| && ms[i] == rs[f[i]]
  }

  lemma MatchingSnoc<R>(rs: seq<R>, r: R, node: Key, nodeOf: R -> Key)
    ensures Matching(rs + [r], node, nodeOf) == Matching(rs, node, nodeOf) + Hit(r, node, nodeOf)
  {
    MatchingConcat(rs, [r], node, nodeOf);
    assert Matching([r][1..], node, nodeOf) == [];
  }

  lemma {:induction false} MatchingSelects<R>(rs: seq<R>, node: Key, nodeOf: R -> Key) returns (f: seq<nat>)
    ensures Selects(f, rs, node, nodeOf) && Picked(f, rs, Matching(rs, node, nodeOf))
  {
    if rs == [] {
      f := [];
    } else {
      var n := |rs| - 1;
      var g := MatchingSelects(rs[..n], node, nodeOf);
      assert rs == rs[..n] + [rs[n]];
      MatchingSnoc(rs[..n], rs[n], node, nodeOf);
      f := if node == [] || nodeOf(rs[n]) == node then g + [n] else g;
      SelectsMore(g, rs, n, node, nodeOf, f);
    }
  }

  lemma SelectsMore<R>(g: seq<nat>, rs: seq<R>, n: nat, node: Key, nodeOf: R -> Key, f: seq<nat>)
    requires n + 1 == |rs| && Selects(g, rs[..n], node, nodeOf)
    requires f == if node == [] || nodeOf(rs[n]) == node then g + [n] else g
    ensures Selects(f, rs, node, nodeOf)
  {
    forall j: nat | j < |rs|
      ensures j in f <==> node == [] || nodeOf(rs[j]) == node
    {
      if j < n {
        assert rs[..n][j] == rs[j];
      }
    }
  }

  /** How often each record is listed: as often as it is stored, if it is of the node, and never otherwise. */
  lemma {:induction false} MatchingCounts<R>(rs: seq<R>, node: Key, nodeOf: R -> Key, r: R)
    ensures multiset(Matching(rs, node, nodeOf))[r]
         == if node == [] || nodeOf(r) == node then multiset(rs)[r] else 0
  {
    if rs != [] {
      MatchingCounts(rs[1..], node, nodeOf, r);
      assert rs == [rs[0]] + rs[1..];
    }
  }

  /** The decoded records are those before the first one that does not decode. */
  lemma {:induction false} DecodedMeans<V, R>(vs: seq<V>, decode: V -> Option<R>)
    ensures var good := Decoded(vs, decode);
      && |good| <= |vs|
      && (forall i :: 0 <= i < |good| ==> decode(vs[i]) == Some(good[i]))
      && (|good| < |vs| ==> decode(vs[|good|]).None?)
  {
    if vs != [] && decode(vs[0]).Some? {
      DecodedMeans(vs[1..], decode);
    }
  }

  /** Positions that a listing of n records looks at. */
  function Scope(n: nat, node: Key, cap: nat): nat {
    if node == [] || n <= cap then n else cap
  }

  ghost predicate DecodesUpTo<V, R>(all: seq<V>, decode: V -> Option<R>, j: nat) {
    j <= |all| && forall i :: 0 <= i < j ==> decode(all[i]).Some?
  }

  /** Position j holds a record that the listing is about. */
  ghost predicate Wanted<V, R>(all: seq<V>, j: nat, node: Key, cap: nat, decode: V -> Option<R>, nodeOf: R -> Key) {
    && j < Scope(|all|, node, cap) && DecodesUpTo(all, decode, j + 1)
    && (node == [] || nodeOf(decode(all[j]).value) == node)
  }

  /**
   What a listing is, position by position: item i is the record at position
   f[i]; the positions are those of the wanted records, in order and from the
   first on; wanted records are left out only beyond the limit; and the listing
   fails exactly when a record in its scope does not decode and the limit was not
   reached before it.
   */
  lemma ListingMeans<V, R>(all: seq<V>, node: Key, limit: int, cap: nat, decode: V -> Option<R>, nodeOf: R -> Key,
                           items: seq<R>, failed: bool)
    returns (f: seq<nat>)
    requires Listing(all, node, limit, cap, decode, nodeOf, items, failed)
    ensures |f| == |items| && Increasing(f, |all|)
    ensures forall i :: 0 <= i < |f| ==>
      Wanted(all, f[i], node, cap, decode, nodeOf) && decode(all[f[i]]) == Some(items[i])
    ensures forall j: nat :: Wanted(all, j, node, cap, decode, nodeOf) && j !in f ==>
      |items| >= limit && forall i :: 0 <= i < |f| ==> f[i] < j
    ensures |items| <= if limit > 0 then limit else 0
    ensures failed <==> |items| < limit && !DecodesUpTo(all, decode, Scope(|all|, node, cap))
  {
    var top := all[..Scope(|all|, node, cap)];
    assert top == if node == [] then all else Take(all, cap);
    var good := Decoded(top, decode);
    var matches := Matching(good, node, nodeOf);
    ScopeDecodes(all, top, good, node, cap, decode);
    var g := MatchingSelects(good, node, nodeOf);
    f := g[..|items|];
    forall i | 0 <= i < |f|
      ensures Wanted(all, f[i], node, cap, decode, nodeOf) && decode(all[f[i]]) == Some(items[i])
    {
      IsWanted(all, good, g, g[i], node, cap, decode, nodeOf);
    }
    forall j: nat | Wanted(all, j, node, cap, decode, nodeOf) && j !in f
      ensures |items| >= limit && forall i :: 0 <= i < |f| ==> f[i] < j
    {
      BeyondTheLimit(all, good, g, j, node, cap, decode, nodeOf, |items|);
    }
  }

  /** The decoded records are those of the scope, as far as it decodes. */
  ghost predicate Reads<V, R>(all: seq<V>, good: seq<R>, scope: nat, decode: V -> Option<R>) {
    && |good| <= scope <= |all| && (forall i :: 0 <= i < |good| ==> decode(all[i]) == Some(good[i]))
    && (|good| < scope ==> decode(all[|good|]).None?)
  }

  lemma ScopeDecodes<V, R>(all: seq<V>, top: seq<V>, good: seq<R>, node: Key, cap: nat, decode: V -> Option<R>)
    requires top == all[..Scope(|all|, node, cap)] && good == Decoded(top, decode)
    ensures Reads(all, good, |top|, decode) && |top| == Scope(|all|, node, cap)
    ensures |good| == |top| <==> DecodesUpTo(all, decode, |top|)
  {
    DecodedMeans(top, decode);
  }

  lemma IsWanted<V, R>(all: seq<V>, good: seq<R>, g: seq<nat>, j: nat, node: Key, cap: nat,
                       decode: V -> Option<R>, nodeOf: R -> Key)
    requires Reads(all, good, Scope(|all|, node, cap), decode) && Selects(g, good, node, nodeOf) && j in g
    ensures j < |good| && Wanted(all, j, node, cap, decode, nodeOf) && decode(all[j]) == Some(good[j])
  {
  }

  lemma BeyondTheLimit<V, R>(all: seq<V>, good: seq<R>, g: seq<nat>, j: nat, node: Key, cap: nat,
                             decode: V -> Option<R>, nodeOf: R -> Key, n: nat)
    requires Reads(all, good, Scope(|all|, node, cap), decode) && n <= |g|
    requires Selects(g, good, node, nodeOf) && Wanted(all, j, node, cap, decode, nodeOf) && j !in g[..n]
    ensures n < |g| && forall i :: 0 <= i < n ==> g[i] < j
  {
    assert decode(all[j]) == Some(good[j]);
    var k :| 0 <= k < |g| && g[k] == j;
    assert g == g[..n] + g[n..];
  }

  // ----- forward listing

  ghost predicate IsFirst(k: Key, s: set<Key>) {
    k in s && forall x :: x in s && x != k ==> Less(k, x)
  }

  lemma {:induction false} FirstExists(s: set<Key>)
    requires s != {}
    ensures exists k :: IsFirst(k, s)
  {
    var x :| x in s;
    var t := s - {x};
    if t == {} {
      assert s == {x};
      assert IsFirst(x, s);
    } else {
      FirstExists(t);
      var k :| IsFirst(k, t);
      LessTotal(x, k);
      if Less(k, x) {
        assert IsFirst(k, s);
      } else {
        forall y | y in s && y != x
          ensures Less(x, y)
        {
          if y != k {
            LessTransitive(x, k, y);
          }
        }
        assert IsFirst(x, s);
      }
    }
  }

  ghost predicate Rising(r: seq<Key>) {
    forall i, j :: 0 <= i < j < |r| ==> Less(r[i], r[j])
  }

  /** r lists the keys of s, smallest first. */
  ghost predicate Ascending(s: set<Key>, r: seq<Key>) {
    (forall k :: k in r <==> k in s) && Rising(r)
  }

  lemma FirstPrepends(s: set<Key>, k: Key, tail: seq<Key>)
    requires IsFirst(k, s) && Ascending(s - {k}, tail)
    ensures Ascending(s, [k] + tail)
  {
    var r := [k] + tail;
    forall i, j | 0 <= i < j < |r|
      ensures Less(r[i], r[j])
    {
      assert r[j] == tail[j - 1] && tail[j - 1] in tail;
    }
  }

  /** The keys of a set, smallest first. */
  ghost function Ascended(s: set<Key>): (r: seq<Key>)
    ensures Ascending(s, r)
    decreases |s|
  {
    if s == {} then []
    else
      FirstExists(s);
      var k :| IsFirst(k, s);
      FirstPrepends(s, k, Ascended(s - {k}));
      [k] + Ascended(s - {k})
  }

  lemma AscendingTail(s: set<Key>, r: seq<Key>)
    requires Ascending(s, r) && r != []
    ensures Ascending(s - {r[0]}, r[1..])
  {
    assert r == [r[0]] + r[1..];
    forall k
      ensures k in r[1..] <==> k in s - {r[0]}
    {
      LessTotal(k, k);
    }
  }

  lemma AscendingHead(s: set<Key>, r: seq<Key>, k: Key)
    requires Ascending(s, r) && k in s
    ensures r != [] && (k == r[0] || Less(r[0], k))
  {
    assert k in r;
  }

  /** There is only one way to list a set of keys in ascending order. */
  lemma {:induction false} AscendingUnique(s: set<Key>, a: seq<Key>, b: seq<Key>)
    requires Ascending(s, a) && Ascending(s, b)
    ensures a == b
    decreases |a|
  {
    if a != [] {
      assert a[0] in a;
      AscendingHead(s, b, a[0]);
    }
    if b != [] {
      assert b[0] in b;
      AscendingHead(s, a, b[0]);
      LessTotal(a[0], b[0]);
      AscendingTail(s, a);
      AscendingTail(s, b);
      AscendingUnique(s - {a[0]}, a[1..], b[1..]);
      assert a == [a[0]] + a[1..] && b == [b[0]] + b[1..];
    }
  }

  /** Forward seek: the smallest key not below the bound. */
  method SeekForward(keys: set<Key>, bound: Key) returns (pos: Option<Key>)
    ensures pos.Some? ==> IsFirst(pos.value, set k | k in keys && !Less(k, bound))
    ensures pos.None? ==> forall k :: k in keys ==> Less(k, bound)
  {
    var above := set k | k in keys && !Less(k, bound);
    if above == {} {
      assert forall k :: k in keys && !Less(k, bound) ==> k in above;
      return None;
    }
    FirstExists(above);
    var k :| k in above && forall x :: x in above && x != k ==> Less(k, x);
    return Some(k);
  }

  /** Forward step: the smallest key above the current one. */
  method NextForward(keys: set<Key>, cur: Key) returns (pos: Option<Key>)
    ensures pos.Some? ==> IsFirst(pos.value, set k | k in keys && Less(cur, k))
    ensures pos.None? ==> forall k :: k in keys ==> !Less(cur, k)
  {
    var above := set k | k in keys && Less(cur, k);
    if above == {} {
      assert forall k :: k in keys && Less(cur, k) ==> k in above;
      return None;
    }
    FirstExists(above);
    var k :| k in above && forall x :: x in above && x != k ==> Less(k, x);
    return Some(k);
  }

  /** The forward iterator stands on the first of the keys that remain under the prefix, or none remains. */
  ghost predicate AtForward(pos: Option<Key>, prefix: Key, rest: set<Key>) {
    if pos.Some? && prefix <= pos.value then IsFirst(pos.value, rest) else rest == {}
  }

  lemma PrefixIsLeast(prefix: Key, k: Key)
    requires prefix <= k
    ensures !Less(k, prefix) && (prefix == k || Less(prefix, k))
  {
    var rest := k[|prefix|..];
    assert k == prefix + rest && prefix == prefix + [];
    LessAfter(prefix, [], rest);
    LessTotal(prefix, k);
  }

  lemma SeekFindsSmallest(keys: set<Key>, prefix: Key, pos: Option<Key>)
    requires pos.Some? ==> IsFirst(pos.value, set k | k in keys && !Less(k, prefix))
    requires pos.None? ==> forall k :: k in keys ==> Less(k, prefix)
    ensures AtForward(pos, prefix, Under(keys, prefix))
  {
    forall k | k in Under(keys, prefix)
      ensures pos.Some? && prefix <= pos.value && (k == pos.value || Less(pos.value, k))
    {
      PrefixIsLeast(prefix, k);
      assert k in (set x | x in keys && !Less(x, prefix));
      if k != pos.value && pos.value != prefix {
        LessTotal(prefix, pos.value);
        PrefixContiguous(prefix, prefix, pos.value, k);
      }
    }
  }

  lemma NextFindsLarger(keys: set<Key>, prefix: Key, rest: set<Key>, cur: Key, pos: Option<Key>)
    requires IsFirst(cur, rest) && rest <= Under(keys, prefix)
    requires forall k :: k in Under(keys, prefix) && Less(cur, k) ==> k in rest
    requires pos.Some? ==> IsFirst(pos.value, set k | k in keys && Less(cur, k))
    requires pos.None? ==> forall k :: k in keys ==> !Less(cur, k)
    ensures AtForward(pos, prefix, rest - {cur})
  {
    forall k | k in rest - {cur}
      ensures pos.Some? && prefix <= pos.value && (k == pos.value || Less(pos.value, k))
    {
      assert k in (set x | x in keys && Less(cur, x));
      PrefixContiguous(prefix, cur, pos.value, k);
    }
    if pos.Some? && prefix <= pos.value {
      assert pos.value in Under(keys, prefix);
      LessTotal(cur, cur);
    }
  }

  /** `seen` has been passed in ascending order and lies below everything ahead. */
  ghost predicate Passed(keys: set<Key>, prefix: Key, pos: Option<Key>, seen: seq<Key>, rest: set<Key>) {
    && rest <= Under(keys, prefix) && AtForward(pos, prefix, rest)
    && Ascending(Under(keys, prefix) - rest, seen)
    && forall x, y :: x in seen && y in rest ==> Less(x, y)
  }

  lemma PassedStep(keys: set<Key>, prefix: Key, pos: Option<Key>, seen: seq<Key>, rest: set<Key>, pos': Option<Key>)
    requires Passed(keys, prefix, pos, seen, rest) && pos.Some? && prefix <= pos.value
    requires pos'.Some? ==> IsFirst(pos'.value, set k | k in keys && Less(pos.value, k))
    requires pos'.None? ==> forall k :: k in keys ==> !Less(pos.value, k)
    ensures Passed(keys, prefix, pos', seen + [pos.value], rest - {pos.value})
  {
    var k := pos.value;
    forall x | x in Under(keys, prefix) && Less(k, x)
      ensures x in rest
    {
      if x in seen {
        LessTotal(x, k);
      }
    }
    NextFindsLarger(keys, prefix, rest, k, pos');
    var seen' := seen + [k];
    forall i, j | 0 <= i < j < |seen'|
      ensures Less(seen'[i], seen'[j])
    {
      assert i < |seen| && seen[i] in seen;
    }
  }

  /** The forward prefix scan: the records under the prefix in ascending key order, up to one that does not decode. */
  method ListForward<V, R>(db: map<Key, V>, prefix: Key, decode: V -> Option<R>) returns (items: seq<R>, failed: bool)
    ensures items == Decoded(Values(db, Ascended(Under(db.Keys, prefix))), decode)
    ensures failed <==> |items| < |Ascended(Under(db.Keys, prefix))|
  {
    items, failed := [], false;
    var pos := SeekForward(db.Keys, prefix);
    ghost var seen: seq<Key>, rest := [], Under(db.Keys, prefix);
    SeekFindsSmallest(db.Keys, prefix, pos);
    assert Under(db.Keys, prefix) - rest == {};
    while pos.Some? && prefix <= pos.value
      invariant Passed(db.Keys, prefix, pos, seen, rest) && forall k <- seen :: k in db
      invariant items == Decoded(Values(db, seen), decode) && |items| == |seen|
      decreases rest
    {
      var k := pos.value;
      var r := decode(db[k]);
      if r.None? {
        failed := true;
        ScanFails(db, prefix, pos, seen, rest, decode);
        return;
      }
      ForwardCollects(db, seen, k, decode);
      items := items + [r.value];
      var next := NextForward(db.Keys, k);
      PassedStep(db.Keys, prefix, pos, seen, rest, next);
      pos, seen, rest := next, seen + [k], rest - {k};
    }
    assert Under(db.Keys, prefix) - rest == Under(db.Keys, prefix);
    AscendingUnique(Under(db.Keys, prefix), seen, Ascended(Under(db.Keys, prefix)));
  }

  lemma ForwardCollects<V, R>(db: map<Key, V>, seen: seq<Key>, k: Key, decode: V -> Option<R>)
    requires (forall x <- seen :: x in db) && k in db && decode(db[k]).Some?
    requires |Decoded(Values(db, seen), decode)| == |seen|
    ensures forall x <- seen + [k] :: x in db
    ensures Decoded(Values(db, seen + [k]), decode) == Decoded(Values(db, seen), decode) + [decode(db[k]).value]
  {
    ValuesConcat(db, seen, [k]);
    assert Values(db, [k]) == [db[k]];
    DecodedConcat(Values(db, seen), [db[k]], decode);
    assert Decoded([db[k]][1..], decode) == [];
  }

  /** The first key heads the list. */
  lemma FirstHeads(s: set<Key>, k: Key)
    requires IsFirst(k, s)
    ensures Ascended(s) != [] && Ascended(s)[0] == k
  {
    AscendingHead(s, Ascended(s), k);
    assert Ascended(s)[0] in s;
    LessTotal(k, Ascended(s)[0]);
  }

  /** What has been passed and what lies ahead make up the whole list. */
  lemma PassedThenRest(keys: set<Key>, prefix: Key, pos: Option<Key>, seen: seq<Key>, rest: set<Key>)
    requires Passed(keys, prefix, pos, seen, rest)
    ensures Ascended(Under(keys, prefix)) == seen + Ascended(rest)
  {
    RisingConcat(seen, Ascended(rest));
    AscendingUnique(Under(keys, prefix), seen + Ascended(rest), Ascended(Under(keys, prefix)));
  }

  /** A scan that meets a record it cannot decode returns the records before it. */
  lemma ScanFails<V, R>(db: map<Key, V>, prefix: Key, pos: Option<Key>, seen: seq<Key>, rest: set<Key>,
                        decode: V -> Option<R>)
    requires Passed(db.Keys, prefix, pos, seen, rest) && (forall k <- seen :: k in db)
    requires pos.Some? && prefix <= pos.value && decode(db[pos.value]).None?
    requires |Decoded(Values(db, seen), decode)| == |seen|
    ensures |seen| < |Ascended(Under(db.Keys, prefix))|
    ensures Decoded(Values(db, Ascended(Under(db.Keys, prefix))), decode) == Decoded(Values(db, seen), decode)
  {
    PassedThenRest(db.Keys, prefix, pos, seen, rest);
    FirstHeads(rest, pos.value);
    ValuesConcat(db, seen, Ascended(rest));
    DecodedConcat(Values(db, seen), Values(db, Ascended(rest)), decode);
    assert Values(db, Ascended(rest))[0] == db[pos.value];
  }

  lemma RisingConcat(a: seq<Key>, b: seq<Key>)
    requires Rising(a) && Rising(b) && forall x, y :: x in a && y in b ==> Less(x, y)
    ensures Rising(a + b)
  {
    forall i, j | 0 <= i < j < |a + b|
      ensures Less((a + b)[i], (a + b)[j])
    {
      if i < |a| <= j {
        assert a[i] in a && b[j - |a|] in b;
      }
    }
  }
}
