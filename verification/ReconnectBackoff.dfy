/**
 Reconnect delays of the agent (agent/src/grpc.rs), in milliseconds. The
 jitter factor is an exact real; the subsecond clock reading is a parameter.
 */
module ReconnectBackoff {
  const INITIAL_BACKOFF := 100
  const MAX_BACKOFF := 30_000

  function Min(x: nat, y: nat): nat {
    if x <= y then x else y
  }

  function Pow2(n: nat): nat {
    if n == 0 then 1 else 2 * Pow2(n - 1)
  }

  /** The base delay after n failed attempts. */
  function Base(n: nat): nat {
    Min(INITIAL_BACKOFF * Pow2(n), MAX_BACKOFF)
  }

  /** Total of the base delays of the first n failures. */
  function BaseTotal(n: nat): nat {
    if n == 0 then 0 else BaseTotal(n - 1) + Base(n - 1)
  }

  /** Up to a quarter less, and less than a quarter more. */
  function Jittered(base: nat, subsecNanos: nat): real {
    base as real * (0.75 + (subsecNanos % 1000) as real / 2000.0)
  }

  function Total(waits: seq<real>): real {
    if waits == [] then 0.0 else Total(waits[..|waits| - 1]) + waits[|waits| - 1]
  }

  lemma Pow2AtNine()
    ensures Pow2(8) == 256 && Pow2(9) == 512
  {
    assert Pow2(4) == 16 && Pow2(8) == 16 * Pow2(4);
  }

  lemma {:induction false} Pow2Grows(m: nat, n: nat)
    requires m <= n
    ensures Pow2(m) <= Pow2(n)
  {
    if m < n {
      Pow2Grows(m, n - 1);
    }
  }

  /** The base delay never decreases, and doubling and capping steps from one to the next. */
  lemma BaseSteps(n: nat)
    ensures Base(n + 1) == Min(Base(n) * 2, MAX_BACKOFF)
    ensures Base(n) <= Base(n + 1)
  {
  }

  /** The first nine delays double; from then on every delay is the cap. */
  lemma {:induction false} TotalClosedForm(n: nat)
    ensures BaseTotal(n) == if n <= 9 then 100 * (Pow2(n) - 1) else 51_100 + 30_000 * (n - 9)
  {
    Pow2AtNine();
    if n > 0 {
      TotalClosedForm(n - 1);
      if n <= 9 {
        Pow2Grows(n - 1, 8);
      } else {
        Pow2Grows(9, n - 1);
      }
    }
  }

  lemma JitterRange(base: nat, subsecNanos: nat)
    requires base > 0
    ensures 0.75 * base as real <= Jittered(base, subsecNanos) < 1.25 * base as real
  {
    var f := 0.75 + (subsecNanos % 1000) as real / 2000.0;
    Scaled(base as real, 0.75, f, 1.25);
  }

  /** The whole range is used: the factor grows with the reading, from 0.75 in steps of 0.0005. */
  lemma JitterSpreads(base: nat, subsecNanos: nat)
    ensures subsecNanos % 1000 == 0 ==> Jittered(base, subsecNanos) == 0.75 * base as real
    ensures subsecNanos % 1000 != 999 ==>
      Jittered(base, subsecNanos + 1) - Jittered(base, subsecNanos) == 0.0005 * base as real
  {
    var m := subsecNanos % 1000;
    if m != 999 {
      assert (subsecNanos + 1) % 1000 == m + 1;
    }
  }

  lemma Scaled(b: real, lo: real, f: real, hi: real)
    requires b > 0.0 && lo <= f < hi
    ensures lo * b <= b * f < hi * b
  {
    assert b * (f - lo) >= 0.0 && b * (hi - f) > 0.0;
  }

  /** The reconnect loop: one clock reading per failed attempt. */
  method Reconnect(readings: seq<nat>) returns (waits: seq<real>, backoff: nat)
    ensures |waits| == |readings| && backoff == Base(|readings|)
    ensures forall i :: 0 <= i < |waits| ==> 0.75 * Base(i) as real <= waits[i] < 1.25 * Base(i) as real
    ensures 0.75 * BaseTotal(|waits|) as real <= Total(waits) <= 1.25 * BaseTotal(|waits|) as real
  {
    waits, backoff := [], INITIAL_BACKOFF;
    for n := 0 to |readings|
      invariant |waits| == n && backoff == Base(n)
      invariant forall i :: 0 <= i < n ==> 0.75 * Base(i) as real <= waits[i] < 1.25 * Base(i) as real
      invariant 0.75 * BaseTotal(n) as real <= Total(waits) <= 1.25 * BaseTotal(n) as real
    {
      var wait := Jittered(backoff, readings[n]);
      Positive(n);
      JitterRange(backoff, readings[n]);
      BaseSteps(n);
      assert (waits + [wait])[..n] == waits;
      waits := waits + [wait];
      backoff := Min(backoff * 2, MAX_BACKOFF);
    }
  }

  lemma {:induction false} Positive(n: nat)
    ensures Pow2(n) > 0 && Base(n) > 0
  {
    if n > 0 {
      Positive(n - 1);
    }
  }
}
