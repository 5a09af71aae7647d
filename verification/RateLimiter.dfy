/**
 The per-stream token bucket (receiver/grpc.go). Tokens and times are reals;
 the clock reading of each call is a parameter.

 A run is a sequence of instants: `times[0]` is the creation of the bucket and
 `times[j]`, j >= 1, the j-th call. `grants[j]` is the answer to that call;
 the creation instant counts as a call that takes no token.
 */
module RateLimiter {

  /** Calls granted among indices lo..hi-1. */
  function Granted(grants: seq<bool>, lo: nat, hi: nat): nat
    requires lo <= hi <= |grants|
  {
    if lo == hi then 0
    else Granted(grants, lo, hi - 1) + if grants[hi - 1] then 1 else 0
  }

  /** One more token at instant j keeps the window that opens at instant i within its budget. */
  predicate WindowFits(times: seq<real>, grants: seq<bool>, rate: real, burst: real, i: nat, j: nat)
    requires i <= j < |times| && j <= |grants|
  {
    Granted(grants, i, j) as real + 1.0 <= burst + rate * (times[j] - times[i])
  }

  /** The specification of one decision: every window that ends at j has room. */
  ghost predicate EveryWindowFits(times: seq<real>, grants: seq<bool>, rate: real, burst: real, j: nat)
    requires j < |times| && j <= |grants|
  {
    forall i: nat :: i <= j ==> WindowFits(times, grants, rate, burst, i, j)
  }

  /** The specification of a run: each call is granted exactly when every window has room. */
  ghost predicate ByWindows(times: seq<real>, grants: seq<bool>, rate: real, burst: real) {
    && 0 < |times| == |grants|
    && !grants[0]
    && forall j: nat :: 1 <= j < |times| ==> (grants[j] <==> EveryWindowFits(times, grants, rate, burst, j))
  }

  function Min(x: real, y: real): real {
    if x <= y then x else y
  }

  function Scale(rate: real, t: real): real {
    rate * t
  }

  /** Tokens a bucket that never overflows would have earned by each instant. */
  function Earned(times: seq<real>, rate: real): (e: seq<real>)
    ensures |e| == |times|
  {
    seq(|times|, i requires 0 <= i < |times| => Scale(rate, times[i]))
  }

  /** Tokens held at instant j, after the refill and before the decision. */
  function Level(earned: seq<real>, grants: seq<bool>, burst: real, j: nat): real
    requires j < |earned| && j <= |grants|
  {
    if j == 0 then burst
    else
      var left := Level(earned, grants, burst, j - 1) - if grants[j - 1] then 1.0 else 0.0;
      Min(left + (earned[j] - earned[j - 1]), burst)
  }

  /** The O(1) level is the minimum of the room left in all windows. */
  lemma {:induction false} LevelIsTightestWindow(earned: seq<real>, grants: seq<bool>, burst: real, j: nat, x: real)
    requires j < |earned| && j <= |grants|
    ensures x <= Level(earned, grants, burst, j)
       <==> forall i: nat :: i <= j ==> Granted(grants, i, j) as real + x <= burst + (earned[j] - earned[i])
  {
    if j > 0 {
      var took := if grants[j - 1] then 1.0 else 0.0;
      LevelIsTightestWindow(earned, grants, burst, j - 1, x + took - (earned[j] - earned[j - 1]));
      forall i: nat | i < j
        ensures Granted(grants, i, j) as real == Granted(grants, i, j - 1) as real + took
      {
      }
      if forall i: nat :: i <= j ==> Granted(grants, i, j) as real + x <= burst + (earned[j] - earned[i]) {
        assert Granted(grants, j, j) as real + x <= burst + (earned[j] - earned[j]);
      }
    }
  }

  lemma Distribute(rate: real, x: real, y: real)
    ensures rate * (x - y) == rate * x - rate * y
  {
  }

  lemma WindowInEarnings(times: seq<real>, grants: seq<bool>, rate: real, burst: real, i: nat, j: nat)
    requires i <= j < |times| && j <= |grants|
    ensures WindowFits(times, grants, rate, burst, i, j)
       <==> Granted(grants, i, j) as real + 1.0 <= burst + (Earned(times, rate)[j] - Earned(times, rate)[i])
  {
    Distribute(rate, times[j], times[i]);
  }

  lemma LevelDecides(times: seq<real>, grants: seq<bool>, rate: real, burst: real, j: nat)
    requires j < |times| && j <= |grants|
    ensures 1.0 <= Level(Earned(times, rate), grants, burst, j) <==> EveryWindowFits(times, grants, rate, burst, j)
  {
    LevelIsTightestWindow(Earned(times, rate), grants, burst, j, 1.0);
    forall i: nat | i <= j
      ensures WindowFits(times, grants, rate, burst, i, j)
         <==> Granted(grants, i, j) as real + 1.0 <= burst + (Earned(times, rate)[j] - Earned(times, rate)[i])
    {
      WindowInEarnings(times, grants, rate, burst, i, j);
    }
  }

  lemma EarnedPrefix(times: seq<real>, rate: real, now: real)
    ensures Earned(times + [now], rate) == Earned(times, rate) + [Scale(rate, now)]
  {
  }

  /** The run of the O(1) algorithm: each call is granted exactly when the level reaches one token. */
  ghost predicate ByLevel(earned: seq<real>, grants: seq<bool>, burst: real) {
    && 0 < |earned| == |grants|
    && !grants[0]
    && forall j: nat :: 1 <= j < |earned| ==> (grants[j] <==> 1.0 <= Level(earned, grants, burst, j))
  }

  /** The O(1) algorithm refines the window specification, and nothing else does. */
  lemma LevelRefinesWindows(times: seq<real>, grants: seq<bool>, rate: real, burst: real)
    requires 0 < |times|
    ensures ByLevel(Earned(times, rate), grants, burst) <==> ByWindows(times, grants, rate, burst)
  {
    if |grants| == |times| {
      forall j: nat | 1 <= j < |times|
        ensures 1.0 <= Level(Earned(times, rate), grants, burst, j) <==> EveryWindowFits(times, grants, rate, burst, j)
      {
        LevelDecides(times, grants, rate, burst, j);
      }
    }
  }

  /** The level at j depends only on the instants up to j and the answers before j. */
  lemma {:induction false} LevelPrefix(earned: seq<real>, grants: seq<bool>, earned': seq<real>, grants': seq<bool>,
                                       burst: real, j: nat)
    requires j < |earned| && j <= |grants| && earned <= earned' && grants <= grants'
    ensures Level(earned, grants, burst, j) == Level(earned', grants', burst, j)
  {
    if j > 0 {
      LevelPrefix(earned, grants, earned', grants', burst, j - 1);
    }
  }

  lemma ByLevelExtends(earned: seq<real>, grants: seq<bool>, burst: real, e: real, ok: bool)
    requires ByLevel(earned, grants, burst)
    requires ok <==> 1.0 <= Level(earned + [e], grants, burst, |earned|)
    ensures ByLevel(earned + [e], grants + [ok], burst)
    ensures Level(earned + [e], grants + [ok], burst, |earned|) == Level(earned + [e], grants, burst, |earned|)
  {
    var earned', grants' := earned + [e], grants + [ok];
    forall j: nat | 1 <= j < |earned'|
      ensures grants'[j] <==> 1.0 <= Level(earned', grants', burst, j)
    {
      if j < |earned| {
        LevelPrefix(earned, grants, earned', grants', burst, j);
      } else {
        LevelPrefix(earned', grants, earned', grants', burst, j);
      }
    }
    LevelPrefix(earned', grants, earned', grants', burst, |earned|);
  }

  /** One refill of the bucket computes the next level. */
  lemma RefillIsLevel(times: seq<real>, grants: seq<bool>, rate: real, burst: real, now: real)
    requires 0 < |times| == |grants|
    ensures var n := |times|;
      var left := Level(Earned(times, rate), grants, burst, n - 1) - if grants[n - 1] then 1.0 else 0.0;
      Level(Earned(times + [now], rate), grants, burst, n) == Min(left + Scale(rate, now - times[n - 1]), burst)
  {
    EarnedPrefix(times, rate, now);
    LevelPrefix(Earned(times, rate), grants, Earned(times + [now], rate), grants, burst, |times| - 1);
    Distribute(rate, now, times[|times| - 1]);
  }

  /** The two fields `allow` updates. */
  datatype Bucket = Bucket(tokens: real, last: real)

  /** One call: refill, cap, decide, and take a token when granted. */
  function Call(b: Bucket, rate: real, burst: real, now: real): (Bucket, bool) {
    var level := Min(b.tokens + Scale(rate, now - b.last), burst);
    if level < 1.0 then (Bucket(level, now), false) else (Bucket(level - 1.0, now), true)
  }

  /** The bucket after a run that began with its creation. */
  function After(times: seq<real>, rate: real, burst: real): Bucket
    requires 0 < |times|
  {
    var n := |times| - 1;
    if n == 0 then Bucket(burst, times[0]) else Call(After(times[..n], rate, burst), rate, burst, times[n]).0
  }

  /** The answers the bucket gives along a run. */
  function Answers(times: seq<real>, rate: real, burst: real): (grants: seq<bool>)
    requires 0 < |times|
    ensures |grants| == |times|
  {
    var n := |times| - 1;
    if n == 0 then [false]
    else Answers(times[..n], rate, burst) + [Call(After(times[..n], rate, burst), rate, burst, times[n]).1]
  }

  lemma {:induction false} AnswersByLevel(times: seq<real>, rate: real, burst: real)
    requires 0 < |times|
    ensures var n, grants := |times| - 1, Answers(times, rate, burst);
      var earned, b := Earned(times, rate), After(times, rate, burst);
      && ByLevel(earned, grants, burst)
      && b.last == times[n]
      && b.tokens == Level(earned, grants, burst, n) - if grants[n] then 1.0 else 0.0
  {
    var n := |times| - 1;
    if n > 0 {
      var before, now := times[..n], times[n];
      AnswersByLevel(before, rate, burst);
      assert times == before + [now];
      var grants := Answers(before, rate, burst);
      RefillIsLevel(before, grants, rate, burst, now);
      EarnedPrefix(before, rate, now);
      ByLevelExtends(Earned(before, rate), grants, burst, Scale(rate, now), Answers(times, rate, burst)[n]);
    }
  }

  /** The bucket's answers are exactly those of the window specification. */
  lemma AnswersByWindows(times: seq<real>, rate: real, burst: real)
    requires 0 < |times|
    ensures ByWindows(times, Answers(times, rate, burst), rate, burst)
  {
    AnswersByLevel(times, rate, burst);
    LevelRefinesWindows(times, Answers(times, rate, burst), rate, burst);
  }

  /** The window specification leaves no choice: it determines every answer from the instants alone. */
  lemma WindowsDetermineAnswers(times: seq<real>, grants: seq<bool>, rate: real, burst: real)
    requires ByWindows(times, grants, rate, burst)
    ensures grants == Answers(times, rate, burst)
  {
    var answers := Answers(times, rate, burst);
    AnswersByWindows(times, rate, burst);
    LevelRefinesWindows(times, grants, rate, burst);
    LevelRefinesWindows(times, answers, rate, burst);
    ByLevelUnique(Earned(times, rate), grants, answers, burst);
  }

  /** The level at j depends on no answer from j on. */
  lemma {:induction false} LevelAgrees(earned: seq<real>, grants: seq<bool>, other: seq<bool>, burst: real, j: nat)
    requires j < |earned| && j <= |grants| && j <= |other|
    requires forall i :: 0 <= i < j ==> grants[i] == other[i]
    ensures Level(earned, grants, burst, j) == Level(earned, other, burst, j)
  {
    if j > 0 {
      LevelAgrees(earned, grants, other, burst, j - 1);
    }
  }

  lemma ByLevelAt(earned: seq<real>, grants: seq<bool>, burst: real, k: nat)
    requires ByLevel(earned, grants, burst) && 1 <= k < |earned|
    ensures grants[k] <==> 1.0 <= Level(earned, grants, burst, k)
  {
  }

  lemma {:induction false} FirstDisagreement(a: seq<bool>, b: seq<bool>) returns (k: nat)
    requires |a| == |b| && a != b
    ensures k < |a| && a[k] != b[k] && forall i :: 0 <= i < k ==> a[i] == b[i]
  {
    if a[0] != b[0] {
      k := 0;
    } else {
      assert a == [a[0]] + a[1..] && b == [b[0]] + b[1..];
      k := FirstDisagreement(a[1..], b[1..]);
      k := k + 1;
    }
  }

  lemma ByLevelUnique(earned: seq<real>, grants: seq<bool>, other: seq<bool>, burst: real)
    requires ByLevel(earned, grants, burst) && ByLevel(earned, other, burst)
    ensures grants == other
  {
    if grants != other {
      var k := FirstDisagreement(grants, other);
      LevelAgrees(earned, grants, other, burst, k);
      ByLevelAt(earned, grants, burst, k);
      ByLevelAt(earned, other, burst, k);
    }
  }

  lemma RunExtends(times: seq<real>, rate: real, burst: real, now: real)
    requires 0 < |times|
    ensures var (b, ok) := Call(After(times, rate, burst), rate, burst, now);
      && After(times + [now], rate, burst) == b
      && Answers(times + [now], rate, burst) == Answers(times, rate, burst) + [ok]
  {
    assert (times + [now])[..|times|] == times;
  }

  /** No stretch of the run takes more than burst plus rate times its length. */
  lemma WindowBound(times: seq<real>, grants: seq<bool>, rate: real, burst: real,
                    lo: nat, hi: nat, from: real, to: real)
    requires ByWindows(times, grants, rate, burst)
    requires rate >= 0.0 && burst >= 0.0
    requires lo <= hi <= |times| && from <= to
    requires forall i :: lo <= i < hi ==> from <= times[i] <= to
    ensures Granted(grants, lo, hi) as real <= burst + rate * (to - from)
  {
    var earned, budget := Earned(times, rate), rate * (to - from);
    EarnsAtMost(rate, from, to, from, from);
    forall i, j | lo <= i <= j < hi
      ensures earned[j] - earned[i] <= budget
    {
      EarnsAtMost(rate, from, to, times[i], times[j]);
    }
    forall j: nat | lo <= j < hi && grants[j]
      ensures 1.0 <= Level(earned, grants, burst, j)
    {
      LevelDecides(times, grants, rate, burst, j);
    }
    StretchBound(earned, grants, burst, lo, hi, budget);
  }

  lemma EarnsAtMost(rate: real, from: real, to: real, x: real, y: real)
    requires rate >= 0.0 && from <= x <= to && from <= y <= to
    ensures Scale(rate, y) - Scale(rate, x) <= rate * (to - from)
    ensures 0.0 <= rate * (to - from)
  {
    NonNegative(rate, to - from);
    NonNegative(rate, (to - from) - (y - x));
    Distribute(rate, to - from, y - x);
    Distribute(rate, y, x);
  }

  lemma NonNegative(x: real, y: real)
    requires x >= 0.0 && y >= 0.0
    ensures x * y >= 0.0
  {
  }

  lemma {:induction false} StretchBound(earned: seq<real>, grants: seq<bool>, burst: real,
                                        lo: nat, hi: nat, budget: real)
    requires lo <= hi <= |grants| == |earned| && burst >= 0.0 && budget >= 0.0
    requires forall i, j :: lo <= i <= j < hi ==> earned[j] - earned[i] <= budget
    requires forall j: nat :: lo <= j < hi && grants[j] ==> 1.0 <= Level(earned, grants, burst, j)
    ensures Granted(grants, lo, hi) as real <= burst + budget
  {
    if lo < hi {
      if grants[hi - 1] {
        LevelIsTightestWindow(earned, grants, burst, hi - 1, 1.0);
        assert Granted(grants, lo, hi - 1) as real + 1.0 <= burst + (earned[hi - 1] - earned[lo]);
      } else {
        StretchBound(earned, grants, burst, lo, hi - 1, budget);
      }
    }
  }

  /**
   The bucket wastes nothing: any other choice of calls to grant that keeps
   every window within budget has granted no more calls at any point of the run.
   */
  lemma NoPolicyGrantsMore(times: seq<real>, grants: seq<bool>, other: seq<bool>, rate: real, burst: real, j: nat)
    requires ByWindows(times, grants, rate, burst)
    requires |other| == |times| && !other[0]
    requires forall k: nat :: 1 <= k < |times| && other[k] ==> EveryWindowFits(times, other, rate, burst, k)
    requires j <= |times|
    ensures Granted(other, 0, j) <= Granted(grants, 0, j)
  {
    if j > 0 {
      LeadHolds(times, grants, other, rate, burst, j - 1);
    }
  }

  /** What the bucket is short of any other policy's level it has already granted. */
  lemma {:induction false} LeadHolds(times: seq<real>, grants: seq<bool>, other: seq<bool>,
                                     rate: real, burst: real, j: nat)
    requires ByWindows(times, grants, rate, burst)
    requires |other| == |times| && !other[0]
    requires forall k: nat :: 1 <= k < |times| && other[k] ==> EveryWindowFits(times, other, rate, burst, k)
    requires j < |times|
    ensures Granted(other, 0, j + 1) <= Granted(grants, 0, j + 1)
    ensures var e := Earned(times, rate);
      Level(e, other, burst, j) + Granted(other, 0, j) as real
         <= Level(e, grants, burst, j) + Granted(grants, 0, j) as real
  {
    if j > 0 {
      LeadHolds(times, grants, other, rate, burst, j - 1);
      LevelDecides(times, grants, rate, burst, j);
      LevelDecides(times, other, rate, burst, j);
    }
  }

  class TokenBucket {
    var tokens: real
    var last: real
    const max: real
    const rate: real
    ghost var times: seq<real>  // creation, then every call

    ghost predicate Valid()
      reads this
    {
      0 < |times| && Bucket(tokens, last) == After(times, rate, max)
    }

    constructor (ratePerSec: real, burst: real, now: real)
      ensures Valid()
      ensures times == [now] && max == burst && rate == ratePerSec
    {
      tokens, last, max, rate := burst, now, burst, ratePerSec;
      times := [now];
    }

    method Allow(now: real) returns (ok: bool)
      requires Valid()
      modifies this
      ensures Valid()
      ensures times == old(times) + [now]
      ensures Answers(times, rate, max) == Answers(old(times), rate, max) + [ok]
    {
      ghost var next := Call(Bucket(tokens, last), rate, max, now);
      tokens := tokens + Scale(rate, now - last);
      if tokens > max {
        tokens := max;
      }
      last := now;
      ok := !(tokens < 1.0);
      if ok {
        tokens := tokens - 1.0;
      }
      assert next == (Bucket(tokens, last), ok);
      RunExtends(times, rate, max, now);
      times := times + [now];
    }
  }
}
