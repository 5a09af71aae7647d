/** Byte strings in the order BadgerDB keeps its keys: lexicographic by unsigned byte. */
module Bytes {
  type Byte = b: int | 0 <= b < 256
  type Key = seq<Byte>

  /** bytes.Compare(a, b) < 0 */
  predicate Less(a: Key, b: Key) {
    b != [] && (a == [] || a[0] < b[0] || (a[0] == b[0] && Less(a[1..], b[1..])))
  }

  const NUL: Byte := 0

  ghost predicate NulFree(k: Key) {
    forall i :: 0 <= i < |k| ==> k[i] != NUL
  }

  lemma {:induction false} LessTotal(a: Key, b: Key)
    ensures a == b || Less(a, b) || Less(b, a)
    ensures !(Less(a, b) && Less(b, a)) && !Less(a, a)
  {
    if a != [] && b != [] && a[0] == b[0] {
      LessTotal(a[1..], b[1..]);
      if a[1..] == b[1..] {
        assert a == [a[0]] + a[1..] == [b[0]] + b[1..] == b;
      }
    }
    if a != [] {
      LessTotal(a[1..], a[1..]);
    }
  }

  lemma {:induction false} LessTransitive(a: Key, b: Key, c: Key)
    requires Less(a, b) && Less(b, c)
    ensures Less(a, c)
  {
    if a != [] && a[0] == b[0] == c[0] {
      LessTransitive(a[1..], b[1..], c[1..]);
    }
  }

  /** A common prefix does not matter. */
  lemma {:induction false} LessAfter(p: Key, a: Key, b: Key)
    ensures Less(p + a, p + b) <==> Less(a, b)
  {
    if p == [] {
      assert p + a == a && p + b == b;
    } else {
      assert (p + a)[1..] == p[1..] + a && (p + b)[1..] == p[1..] + b;
      LessAfter(p[1..], a, b);
    }
  }

  /** The first differing byte decides. */
  lemma LessAt(a: Key, b: Key, i: nat)
    requires i < |a| && i < |b| && a[..i] == b[..i] && a[i] != b[i]
    ensures Less(a, b) <==> a[i] < b[i]
  {
    LessAfter(a[..i], a[i..], b[i..]);
    assert a == a[..i] + a[i..] && b == b[..i] + b[i..];
  }

  /** Keys that share a prefix are contiguous, up to prefix + 0xFF. */
  lemma {:induction false} PrefixContiguous(p: Key, a: Key, x: Key, b: Key)
    requires p <= a && Less(a, x) && (Less(x, b) || x == b) && (p <= b || b == p + [255])
    ensures p <= x
  {
    if p != [] {
      assert b[0] == p[0];
      LessTotal(a[1..], x[1..]);
      assert a[0] == x[0];
      PrefixContiguous(p[1..], a[1..], x[1..], b[1..]);
      assert p == [p[0]] + p[1..] && x == [x[0]] + x[1..];
    }
  }
}
