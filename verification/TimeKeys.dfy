/**
 Storage keys and real time (store/badger.go). A record is keyed by a text
 rendering of its receive time; the store orders keys as bytes. This module
 says exactly when the two orders agree.
 */
module TimeKeys {
  import opened Bytes

  /** A UTC instant with a four-digit year, to the nanosecond. */
  datatype Utc = Utc(year: nat, month: nat, day: nat, hour: nat, minute: nat, second: nat, nanos: nat)

  predicate Leap(year: nat) {
    year % 4 == 0 && (year % 100 != 0 || year % 400 == 0)
  }

  function DaysIn(year: nat, month: nat): nat {
    if month == 2 then (if Leap(year) then 29 else 28)
    else if month in {4, 6, 9, 11} then 30
    else 31
  }

  predicate Valid(t: Utc) {
    && t.year < 10000 && 1 <= t.month <= 12 && 1 <= t.day <= DaysIn(t.year, t.month)
    && t.hour < 24 && t.minute < 60 && t.second < 60 && t.nanos < 1_000_000_000
  }

  /** Days in the months of a year before the given one. */
  function DaysBeforeMonth(year: nat, month: nat): nat {
    if month <= 1 then 0 else DaysBeforeMonth(year, month - 1) + DaysIn(year, month - 1)
  }

  function DaysBeforeYear(year: nat): nat {
    if year == 0 then 0 else DaysBeforeYear(year - 1) + DaysBeforeMonth(year - 1, 13)
  }

  function Day(t: Utc): nat {
    DaysBeforeYear(t.year) + DaysBeforeMonth(t.year, t.month) + t.day
  }

  /** Seconds since the start of year 0. */
  function Seconds(t: Utc): nat {
    ((Day(t) * 24 + t.hour) * 60 + t.minute) * 60 + t.second
  }

  /** Position on the time line, in nanoseconds. */
  function Instant(t: Utc): nat {
    Seconds(t) * 1_000_000_000 + t.nanos
  }

  const POINT: Byte := '.' as int
  const DASH: Byte := '-' as int
  const COLON: Byte := ':' as int
  const TEE: Byte := 'T' as int
  const ZULU: Byte := 'Z' as int

  // ----- rendering: time.RFC3339Nano in UTC

  /** The decimal digits of n, w of them. */
  function Pad(n: nat, w: nat): (k: Key)
    ensures |k| == w
    ensures forall i :: 0 <= i < w ==> 48 <= k[i] <= 57
  {
    if w == 0 then [] else Pad(n / 10, w - 1) + [48 + n % 10]
  }

  function Pow10(w: nat): nat {
    if w == 0 then 1 else 10 * Pow10(w - 1)
  }

  function TrimZeros(d: Key): (r: Key)
    ensures r <= d
    ensures r != [] ==> r[|r| - 1] != 48
    ensures forall i :: |r| <= i < |d| ==> d[i] == 48
  {
    if d != [] && d[|d| - 1] == 48 then TrimZeros(d[..|d| - 1]) else d
  }

  /** The fraction digits that are printed: trailing zeros removed. */
  function Digits(nanos: nat): Key {
    TrimZeros(Pad(nanos, 9))
  }

  function Pointed(d: Key): Key {
    if d == [] then [] else [POINT] + d
  }

  /** One printed field: its value, its width and the text that follows it. */
  datatype Field = Field(value: nat, width: nat, sep: Key)

  function Fields(t: Utc): seq<Field> {
    [Field(t.year, 4, [DASH]), Field(t.month, 2, [DASH]), Field(t.day, 2, [TEE]),
     Field(t.hour, 2, [COLON]), Field(t.minute, 2, [COLON]), Field(t.second, 2, [])]
  }

  function Render(fs: seq<Field>): Key {
    if fs == [] then [] else Pad(fs[0].value, fs[0].width) + fs[0].sep + Render(fs[1..])
  }

  function Text(t: Utc): Key {
    Render(Fields(t)) + (Pointed(Digits(t.nanos)) + [ZULU])
  }

  const EVENT: Key := ['e' as int, 'v' as int, 'e' as int, 'n' as int, 't' as int, ':' as int]
  const ALERT: Key := ['a' as int, 'l' as int, 'e' as int, 'r' as int, 't' as int, ':' as int]
  const TOKEN: Key := ['a' as int, 'g' as int, 'e' as int, 'n' as int, 't' as int,
                       't' as int, 'o' as int, 'k' as int, 'e' as int, 'n' as int, ':' as int]

  function RecordKey(prefix: Key, received: Utc, id: Key): Key {
    prefix + (Text(received) + ([COLON] + id))
  }

  function EventKey(received: Utc, eventID: Key): Key {
    RecordKey(EVENT, received, eventID)
  }

  // ----- the calendar is monotone

  lemma {:induction false} MonthsAdvance(year: nat, m: nat, n: nat)
    requires 1 <= m < n <= 13
    ensures DaysBeforeMonth(year, m) + DaysIn(year, m) <= DaysBeforeMonth(year, n)
  {
    if m + 1 < n {
      MonthsAdvance(year, m, n - 1);
    }
  }

  lemma {:induction false} YearsAdvance(y: nat, z: nat)
    requires y < z
    ensures DaysBeforeYear(y) + DaysBeforeMonth(y, 13) <= DaysBeforeYear(z)
  {
    if y + 1 < z {
      YearsAdvance(y, z - 1);
    }
  }

  predicate FieldsLess(a: seq<Field>, b: seq<Field>) {
    a != [] && b != [] && (a[0].value < b[0].value || (a[0].value == b[0].value && FieldsLess(a[1..], b[1..])))
  }

  predicate DateLess(s: Utc, t: Utc) {
    s.year < t.year || (s.year == t.year && (s.month < t.month || (s.month == t.month && s.day < t.day)))
  }

  lemma DaysAdvance(s: Utc, t: Utc)
    requires Valid(s) && Valid(t) && DateLess(s, t)
    ensures Day(s) < Day(t)
  {
    if s.year < t.year {
      YearsAdvance(s.year, t.year);
      MonthsAdvance(s.year, s.month, 13);
    } else if s.month < t.month {
      MonthsAdvance(s.year, s.month, t.month);
    }
  }

  /** Whole-second order is the order of the printed fields. */
  predicate StampLess(s: Utc, t: Utc) {
    || DateLess(s, t)
    || (s.year == t.year && s.month == t.month && s.day == t.day
        && (s.hour < t.hour
            || (s.hour == t.hour && (s.minute < t.minute || (s.minute == t.minute && s.second < t.second)))))
  }

  predicate SameSecond(s: Utc, t: Utc) {
    s.(nanos := 0) == t.(nanos := 0)
  }

  lemma StampOrder(s: Utc, t: Utc)
    requires Valid(s) && Valid(t)
    ensures StampLess(s, t) <==> Seconds(s) < Seconds(t)
    ensures SameSecond(s, t) <==> Seconds(s) == Seconds(t)
  {
    if DateLess(s, t) {
      DaysAdvance(s, t);
    } else if DateLess(t, s) {
      DaysAdvance(t, s);
    }
  }

  // ----- printed fields compare like their values

  lemma {:induction false} PadDistinct(m: nat, n: nat, w: nat) returns (i: nat)
    requires m < n < Pow10(w)
    ensures i < w && Pad(m, w)[..i] == Pad(n, w)[..i] && Pad(m, w)[i] < Pad(n, w)[i]
  {
    if m / 10 < n / 10 {
      i := PadDistinct(m / 10, n / 10, w - 1);
      assert Pad(m, w)[..i] == Pad(m / 10, w - 1)[..i];
      assert Pad(n, w)[..i] == Pad(n / 10, w - 1)[..i];
    } else {
      i := w - 1;
    }
  }

  lemma PadLess(m: nat, n: nat, w: nat, x: Key, y: Key)
    requires m < n < Pow10(w)
    ensures Less(Pad(m, w) + x, Pad(n, w) + y)
  {
    var i := PadDistinct(m, n, w);
    var a, b := Pad(m, w) + x, Pad(n, w) + y;
    assert a[..i] == Pad(m, w)[..i] && b[..i] == Pad(n, w)[..i];
    LessAt(a, b, i);
  }

  lemma RenderStep(a: seq<Field>, x: Key)
    requires a != []
    ensures Render(a) + x == Pad(a[0].value, a[0].width) + (a[0].sep + (Render(a[1..]) + x))
  {
  }

  lemma {:induction false} RenderLess(a: seq<Field>, b: seq<Field>, x: Key, y: Key)
    requires |a| == |b| && FieldsLess(a, b)
    requires forall i :: 0 <= i < |a| ==> a[i].width == b[i].width && a[i].sep == b[i].sep
    requires forall i :: 0 <= i < |a| ==> a[i].value < Pow10(a[i].width) && b[i].value < Pow10(a[i].width)
    ensures Less(Render(a) + x, Render(b) + y)
  {
    var w, sep := a[0].width, a[0].sep;
    var x', y' := Render(a[1..]) + x, Render(b[1..]) + y;
    RenderStep(a, x);
    RenderStep(b, y);
    if a[0].value < b[0].value {
      PadLess(a[0].value, b[0].value, w, sep + x', sep + y');
    } else {
      RenderLess(a[1..], b[1..], x, y);
      LessAfter(sep, x', y');
      LessAfter(Pad(a[0].value, w), sep + x', sep + y');
    }
  }

  lemma {:induction false} FieldsLessAt(a: seq<Field>, b: seq<Field>, i: nat)
    requires i < |a| == |b| && a[i].value < b[i].value
    requires forall j :: 0 <= j < i ==> a[j].value == b[j].value
    ensures FieldsLess(a, b)
  {
    if i > 0 {
      FieldsLessAt(a[1..], b[1..], i - 1);
    }
  }

  lemma StampRenders(s: Utc, t: Utc, x: Key, y: Key)
    requires Valid(s) && Valid(t) && StampLess(s, t)
    ensures Less(Render(Fields(s)) + x, Render(Fields(t)) + y)
  {
    var a, b := Fields(s), Fields(t);
    assert Pow10(2) == 100 && Pow10(4) == 10000;
    var i := if s.year < t.year then 0 else if s.month < t.month then 1 else if s.day < t.day then 2
      else if s.hour < t.hour then 3 else if s.minute < t.minute then 4 else 5;
    FieldsLessAt(a, b, i);
    RenderLess(a, b, x, y);
  }

  // ----- fractions

  lemma BillionIsPow10()
    ensures Pow10(9) == 1_000_000_000
  {
    assert Pow10(3) == 1000 && Pow10(6) == 1000 * Pow10(3) && Pow10(9) == 1000 * Pow10(6);
  }

  /** Where two fractions first differ, and whether the trimmed earlier one reaches that far. */
  lemma DigitsDiffer(m: nat, n: nat) returns (i: nat)
    requires m < n < 1_000_000_000
    ensures var d, e := Digits(m), Digits(n);
      && i < |e|
      && (if |d| > i then d[..i] == e[..i] && d[i] < e[i] else d == e[..|d|])
      && (d < e <==> |d| <= i)
  {
    BillionIsPow10();
    i := PadDistinct(m, n, 9);
    var p, q, d, e := Pad(m, 9), Pad(n, 9), Digits(m), Digits(n);
    assert |e| > i && e[..i] == q[..i];
    if |d| > i {
      assert d[..i] == p[..i];
    } else {
      assert d == p[..i][..|d|] && e[..|d|] == q[..i][..|d|];
    }
  }

  /** Printed fraction, closing Z and what follows. */
  function Tail(d: Key, x: Key): Key {
    Pointed(d) + ([ZULU] + x)
  }

  lemma TailPointed(d: Key, x: Key)
    requires d != []
    ensures Tail(d, x) == [POINT] + (d + ([ZULU] + x))
  {
  }

  lemma TailsDiffer(d: Key, e: Key, i: nat, x: Key, y: Key)
    requires i < |d| && i < |e| && d[..i] == e[..i] && d[i] < e[i]
    ensures Less(Tail(d, x), Tail(e, y))
  {
    TailPointed(d, x);
    TailPointed(e, y);
    FirstDifference(d, e, i, [ZULU] + x, [ZULU] + y);
    LessAfter([POINT], d + ([ZULU] + x), e + ([ZULU] + y));
  }

  lemma TailCutOff(d: Key, e: Key, x: Key, y: Key)
    requires d < e && e[|d|] < ZULU
    ensures Less(Tail(e, y), Tail(d, x))
  {
    TailPointed(e, y);
    if d == [] {
      assert Tail(d, x) == [ZULU] + x;
      LessAt(Tail(e, y), Tail(d, x), 0);
    } else {
      TailPointed(d, x);
      CutOff(d, e, x, [ZULU] + y);
      LessAfter([POINT], e + ([ZULU] + y), d + ([ZULU] + x));
    }
  }

  /**
   Trailing-zero trimming breaks the order exactly when the earlier fraction is
   cut off where the later one goes on: 'Z' then meets a digit or the point.
   */
  lemma FractionOrder(m: nat, n: nat, x: Key, y: Key)
    requires m < n < 1_000_000_000
    ensures var a, b := Tail(Digits(m), x), Tail(Digits(n), y);
      if Digits(m) < Digits(n) then Less(b, a) else Less(a, b)
  {
    var d, e := Digits(m), Digits(n);
    var i := DigitsDiffer(m, n);
    if d < e {
      assert e[|d|] == Pad(n, 9)[|d|];
      TailCutOff(d, e, x, y);
    } else {
      TailsDiffer(d, e, i, x, y);
    }
  }

  lemma CutOff(d: Key, e: Key, x: Key, y: Key)
    requires d < e && e[|d|] < ZULU
    ensures Less(e + y, d + ([ZULU] + x))
  {
    var rest := e[|d|..] + y;
    assert e + y == d + rest;
    LessAfter(d, rest, [ZULU] + x);
    LessAt(rest, [ZULU] + x, 0);
  }

  lemma FirstDifference(a: Key, b: Key, i: nat, x: Key, y: Key)
    requires i < |a| && i < |b| && a[..i] == b[..i] && a[i] < b[i]
    ensures Less(a + x, b + y)
  {
    assert (a + x)[..i] == a[..i] && (b + y)[..i] == b[..i];
    LessAt(a + x, b + y, i);
  }

  // ----- the order of keys

  lemma TextOrder(s: Utc, x: Key, t: Utc, y: Key)
    requires Valid(s) && Valid(t) && Instant(s) < Instant(t)
    ensures if SameSecond(s, t) && Digits(s.nanos) < Digits(t.nanos)
            then Less(Text(t) + y, Text(s) + x) else Less(Text(s) + x, Text(t) + y)
  {
    StampOrder(s, t);
    var u, v := Tail(Digits(s.nanos), x), Tail(Digits(t.nanos), y);
    assert Text(s) + x == Render(Fields(s)) + u;
    assert Text(t) + y == Render(Fields(t)) + v;
    if SameSecond(s, t) {
      assert Fields(s) == Fields(t);
      FractionOrder(s.nanos, t.nanos, x, y);
      LessAfter(Render(Fields(s)), u, v);
      LessAfter(Render(Fields(s)), v, u);
    } else {
      StampRenders(s, t, u, v);
    }
  }

  /**
   For receive times s before t, the key of s sorts below the key of t exactly
   when they lie in different seconds or the printed fraction of s is not a
   proper prefix of that of t; otherwise it sorts above. The ids never matter.
   */
  lemma KeyOrder(prefix: Key, s: Utc, sid: Key, t: Utc, tid: Key)
    requires Valid(s) && Valid(t) && Instant(s) < Instant(t)
    ensures Less(RecordKey(prefix, s, sid), RecordKey(prefix, t, tid))
       <==> !SameSecond(s, t) || !(Digits(s.nanos) < Digits(t.nanos))
    ensures Less(RecordKey(prefix, t, tid), RecordKey(prefix, s, sid))
       <==> SameSecond(s, t) && Digits(s.nanos) < Digits(t.nanos)
  {
    var x, y := [COLON] + sid, [COLON] + tid;
    TextOrder(s, x, t, y);
    LessAfter(prefix, Text(s) + x, Text(t) + y);
    LessAfter(prefix, Text(t) + y, Text(s) + x);
    LessTotal(Text(s) + x, Text(t) + y);
  }

  /** A whole second and the half second after it: the earlier event is listed as the newer one. */
  lemma KeyOrderFails(t: Utc, sid: Key, tid: Key)
    requires Valid(t)
    ensures var s, u := t.(nanos := 0), t.(nanos := 500_000_000);
      Instant(s) < Instant(u) && Less(EventKey(u, tid), EventKey(s, sid))
  {
    var s, u := t.(nanos := 0), t.(nanos := 500_000_000);
    assert Digits(0) == [] by {
      PadZero(9);
    }
    var d := Digits(500_000_000);
    assert d != [] by {
      PadZero(8);
      var q := Pad(500_000_000, 9);
      var i := PadDistinct(0, 500_000_000, 9) by {
        BillionIsPow10();
      }
      assert q[i] != 48;
    }
    KeyOrder(EVENT, s, sid, u, tid);
  }

  lemma {:induction false} PadZero(w: nat)
    ensures TrimZeros(Pad(0, w)) == []
  {
    if w > 0 {
      PadZero(w - 1);
      assert Pad(0, w)[..w - 1] == Pad(0, w - 1);
    }
  }

  /** A key names its receive time and its id, whatever bytes the id holds. */
  lemma KeyInjective(prefix: Key, s: Utc, sid: Key, t: Utc, tid: Key)
    requires Valid(s) && Valid(t) && RecordKey(prefix, s, sid) == RecordKey(prefix, t, tid)
    ensures s == t && sid == tid
  {
    LessTotal(RecordKey(prefix, s, sid), RecordKey(prefix, t, tid));
    StampOrder(s, t);
    if Instant(s) < Instant(t) {
      KeyOrder(prefix, s, sid, t, tid);
    } else if Instant(t) < Instant(s) {
      KeyOrder(prefix, t, tid, s, sid);
    }
    assert s == t;
    var n := |prefix| + |Text(s)| + 1;
    assert RecordKey(prefix, s, sid)[n..] == sid && RecordKey(prefix, t, tid)[n..] == tid;
  }

  // ----- what the text says

  /** The number that decimal digits denote. */
  function Value(d: Key): int {
    if d == [] then 0 else 10 * Value(d[..|d| - 1]) + d[|d| - 1] - 48
  }

  lemma {:induction false} PadValue(n: nat, w: nat)
    requires n < Pow10(w)
    ensures Value(Pad(n, w)) == n
  {
    if w > 0 {
      PadValue(n / 10, w - 1);
      assert Pad(n, w)[..w - 1] == Pad(n / 10, w - 1);
    }
  }

  lemma {:induction false} TrimmedValue(d: Key)
    ensures Value(d) == Value(TrimZeros(d)) * Pow10(|d| - |TrimZeros(d)|)
  {
    if d != [] && d[|d| - 1] == 48 {
      TrimmedValue(d[..|d| - 1]);
    }
  }

  /** The printed fraction is the nanoseconds, without trailing zeros. */
  lemma FractionReads(nanos: nat)
    requires nanos < 1_000_000_000
    ensures var d := Digits(nanos);
      && |d| <= 9 && Value(d) * Pow10(9 - |d|) == nanos
      && (d == [] <==> nanos == 0) && (d != [] ==> d[|d| - 1] != '0' as int)
  {
    BillionIsPow10();
    PadValue(nanos, 9);
    TrimmedValue(Pad(nanos, 9));
    PadZero(9);
  }

  /** What stands where a field is printed. */
  lemma FieldReads(x: Key, off: nat, fs: seq<Field>, n: nat)
    requires off <= |x| && x[off..] == Render(fs) && fs != [] && fs[0].value < Pow10(fs[0].width)
    requires n == off + fs[0].width + |fs[0].sep|
    ensures n <= |x| && x[n..] == Render(fs[1..])
    ensures Value(x[off..off + fs[0].width]) == fs[0].value && x[off + fs[0].width..n] == fs[0].sep
  {
    var f := fs[0];
    PadValue(f.value, f.width);
    HeadReads(x[off..], Pad(f.value, f.width), f.sep, Render(fs[1..]));
    SliceOf(x, off, 0, f.width);
    SliceOf(x, off, f.width, f.width + |f.sep|);
    assert x[off..][n - off..] == x[n..];
  }

  lemma HeadReads(y: Key, a: Key, b: Key, c: Key)
    requires y == a + b + c
    ensures y[..|a|] == a && y[|a|..|a| + |b|] == b && y[|a| + |b|..] == c
  {
  }

  lemma SliceOf(x: Key, off: nat, lo: nat, hi: nat)
    requires lo <= hi && off + hi <= |x|
    ensures x[off..][lo..hi] == x[off + lo..off + hi]
  {
  }

  /** The date and time part reads YYYY-MM-DDTHH:MM:SS. */
  ghost predicate Reads(x: Key, t: Utc) {
    && |x| == 19
    && Value(x[..4]) == t.year && x[4] == '-' as int && Value(x[5..7]) == t.month && x[7] == '-' as int
    && Value(x[8..10]) == t.day && x[10] == 'T' as int
    && Value(x[11..13]) == t.hour && x[13] == ':' as int && Value(x[14..16]) == t.minute && x[16] == ':' as int
    && Value(x[17..19]) == t.second
  }

  lemma DateReads(t: Utc, x: Key)
    requires Valid(t) && x == Render(Fields(t))
    ensures |x| >= 11 && Value(x[..4]) == t.year && Value(x[5..7]) == t.month && Value(x[8..10]) == t.day
    ensures x[4] == '-' as int && x[7] == '-' as int && x[10] == 'T' as int && x[11..] == Render(Fields(t)[3..])
  {
    assert Pow10(2) == 100 && Pow10(4) == 10000;
    var fs := Fields(t);
    FieldReads(x, 0, fs, 5);
    FieldReads(x, 5, fs[1..], 8);
    assert fs[1..][1..] == fs[2..] && fs[2..][1..] == fs[3..];
    FieldReads(x, 8, fs[2..], 11);
    assert x[0..4] == x[..4];
    assert x[4..5][0] == x[4] && x[7..8][0] == x[7] && x[10..11][0] == x[10];
  }

  lemma TimeReads(t: Utc, x: Key)
    requires Valid(t) && |x| >= 11 && x[11..] == Render(Fields(t)[3..])
    ensures |x| == 19 && Value(x[11..13]) == t.hour && Value(x[14..16]) == t.minute && Value(x[17..19]) == t.second
    ensures x[13] == ':' as int && x[16] == ':' as int
  {
    assert Pow10(2) == 100;
    var fs := Fields(t)[3..];
    FieldReads(x, 11, fs, 14);
    FieldReads(x, 14, fs[1..], 17);
    assert fs[1..][1..] == fs[2..] && fs[2..][1..] == [];
    FieldReads(x, 17, fs[2..], 19);
    assert x[13..14][0] == x[13] && x[16..17][0] == x[16];
  }

  lemma StampReads(t: Utc)
    requires Valid(t)
    ensures Reads(Render(Fields(t)), t)
  {
    DateReads(t, Render(Fields(t)));
    TimeReads(t, Render(Fields(t)));
  }

  /** The text of an instant reads back to that instant. */
  lemma TextReads(t: Utc)
    requires Valid(t)
    ensures var x := Text(t);
      && |x| >= 20 && Reads(x[..19], t) && x[|x| - 1] == 'Z' as int
      && (t.nanos == 0 ==> |x| == 20)
      && (t.nanos != 0 ==>
            && |x| > 21 && x[19] == '.' as int
            && var d := x[20..|x| - 1];
               |d| <= 9 && d[|d| - 1] != '0' as int && Value(d) * Pow10(9 - |d|) == t.nanos)
  {
    var x, stamp, d := Text(t), Render(Fields(t)), Digits(t.nanos);
    StampReads(t);
    FractionReads(t.nanos);
    assert x[..19] == stamp;
    if t.nanos != 0 {
      assert x == stamp + ([POINT] + d + [ZULU]);
      assert x[20..|x| - 1] == d;
    }
  }
}
