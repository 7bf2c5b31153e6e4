/** The retry loop of sync/engine.go: exponential backoff capped at a maximum. */
module Retry {
  import opened Prelude

  datatype Policy = Policy(maxRetries: int, initialBackoff: int, maxBackoff: int, multiplier: real)

  /** Go's `int(f)`: truncation toward zero. */
  function Trunc(r: real): int {
    if r >= 0.0 then r.Floor else -(-r).Floor
  }

  function NextBackoff(p: Policy, backoff: int): int {
    var b := Trunc(backoff as real * p.multiplier);
    if b > p.maxBackoff then p.maxBackoff else b
  }

  /** `effectiveRetryPolicy`: the configured policy, or the default when it is not configured. */
  function Effective(p: Policy): Policy {
    if p.maxRetries > 0 || p.initialBackoff > 0 then p else Policy(3, 1000, 60000, 2.0)
  }

  /** The delay slept after the i-th failed attempt. */
  function Delay(p: Policy, i: nat): int {
    if i == 0 then p.initialBackoff else NextBackoff(p, Delay(p, i - 1))
  }

  function Max0(n: int): nat {
    if n < 0 then 0 else n
  }

  /** The text of the error of the last attempt; without any attempt Go prints the missing error. */
  function GiveUp(lastErr: Option<string>): string {
    match lastErr
    case Some(e) => "max retries exceeded: " + e
    case None => "max retries exceeded: %!w(<nil>)"
  }

  /** Runs `fn`, whose i-th call returns `fn(i)` (None for success).  It stops at the first success; it
      gives up after MaxRetries + 1 failures, and sleeps `Delay(p, i)` between attempts i and i + 1. */
  method WithRetry(p: Policy, fn: nat -> Option<string>)
    returns (r: Result<(), string>, calls: nat, sleeps: seq<int>)
    ensures calls <= Max0(p.maxRetries + 1)
    ensures forall i | 0 <= i < calls - 1 :: fn(i).Some?
    ensures r.Ok? <==> calls > 0 && fn(calls - 1).None?
    ensures r.Err? ==> calls == Max0(p.maxRetries + 1)
    ensures r.Err? ==> r.error == GiveUp(if calls == 0 then None else fn(calls - 1))
    ensures r.Err? && calls > 0 ==> r.error == "max retries exceeded: " + fn(calls - 1).value
    ensures |sleeps| == Max0(calls - 1)
    ensures forall i | 0 <= i < |sleeps| :: sleeps[i] == Delay(p, i)
  {
    var lastErr := None;
    var backoff := p.initialBackoff;
    calls, sleeps := 0, [];
    var attempt := 0;
    while attempt <= p.maxRetries
      invariant calls == attempt <= Max0(p.maxRetries + 1)
      invariant forall i | 0 <= i < attempt :: fn(i).Some?
      invariant lastErr == if attempt == 0 then None else fn(attempt - 1)
      invariant |sleeps| == if attempt <= p.maxRetries then attempt else Max0(attempt - 1)
      invariant attempt <= p.maxRetries ==> backoff == Delay(p, attempt)
      invariant forall i | 0 <= i < |sleeps| :: sleeps[i] == Delay(p, i)
    {
      var err := fn(attempt);
      calls := calls + 1;
      if err.None? {
        return Ok(()), calls, sleeps;
      }
      lastErr := err;
      if attempt < p.maxRetries {
        sleeps := sleeps + [backoff];
        backoff := NextBackoff(p, backoff);
      }
      attempt := attempt + 1;
    }
    r := Err(GiveUp(lastErr));
  }

  /** A policy with neither retries nor a first delay counts as not configured: four attempts, one, two and
      four seconds apart.  Any other policy is used as it is. */
  lemma DefaultPolicy(p: Policy)
    ensures p.maxRetries > 0 || p.initialBackoff > 0 ==> Effective(p) == p
    ensures !(p.maxRetries > 0 || p.initialBackoff > 0) ==>
              var e := Effective(p);
              e.maxRetries + 1 == 4 && Delay(e, 0) == 1000 && Delay(e, 1) == 2000 && Delay(e, 2) == 4000
              && e.maxBackoff == 60000
  {
    var e := Policy(3, 1000, 60000, 2.0);
    assert Delay(e, 0) == 1000;
    assert NextBackoff(e, 1000) == 2000 && NextBackoff(e, 2000) == 4000;
    assert Delay(e, 1) == NextBackoff(e, Delay(e, 0)) && Delay(e, 2) == NextBackoff(e, Delay(e, 1));
  }

  /** With the effective policy the operation is attempted at least once, except when a negative
      MaxRetries comes with a positive InitialBackoff: then it is never called and yet reported failed. */
  lemma AttemptedUnlessNegative(p: Policy)
    ensures Effective(p).maxRetries + 1 <= 0 <==> p.maxRetries < 0 && p.initialBackoff > 0
  {}

  function TotalOf(s: seq<int>): int {
    if s == [] then 0 else TotalOf(s[..|s| - 1]) + s[|s| - 1]
  }

  lemma {:induction false} CappedSum(cap: int, sleeps: seq<int>)
    requires sleeps != [] && forall i | 1 <= i < |sleeps| :: sleeps[i] <= cap
    ensures TotalOf(sleeps) <= sleeps[0] + (|sleeps| - 1) * cap
  {
    var k := |sleeps| - 1;
    if k == 0 {
      assert TotalOf(sleeps[..0]) == 0;
    } else {
      CappedSum(cap, sleeps[..k]);
      assert k * cap == (k - 1) * cap + cap;
    }
  }

  lemma DelayCapped(p: Policy, i: nat)
    requires i >= 1
    ensures Delay(p, i) <= p.maxBackoff
  {
    assert Delay(p, i) == NextBackoff(p, Delay(p, i - 1));
  }

  /** Every delay but the first is at most MaxBackoff, so the time slept in all is bounded. */
  lemma TotalDelayBounded(p: Policy, sleeps: seq<int>)
    requires p.initialBackoff >= 0 && p.maxBackoff >= 0
    requires p.maxRetries >= 1 && |sleeps| <= p.maxRetries
    requires forall i | 0 <= i < |sleeps| :: sleeps[i] == Delay(p, i)
    ensures forall i | 1 <= i < |sleeps| :: sleeps[i] <= p.maxBackoff
    ensures TotalOf(sleeps) <= p.initialBackoff + (p.maxRetries - 1) * p.maxBackoff
  {
    forall i | 1 <= i < |sleeps| ensures sleeps[i] <= p.maxBackoff {
      DelayCapped(p, i);
    }
    if sleeps != [] {
      CappedSum(p.maxBackoff, sleeps);
    }
    Monotone(if sleeps == [] then 0 else |sleeps| - 1, p.maxRetries - 1, p.maxBackoff);
  }

  lemma Monotone(a: int, b: int, c: int)
    requires a <= b && c >= 0
    ensures a * c <= b * c
  {}

  function Pow(m: nat, i: nat): (r: nat)
    ensures m >= 1 ==> r >= 1
  {
    if i == 0 then 1 else m * Pow(m, i - 1)
  }

  function Min(a: int, b: int): int { if a < b then a else b }

  /** Capping step by step is capping the closed form: for an integer multiplier the i-th delay is
      min(InitialBackoff * m^i, MaxBackoff).  The first delay is not capped by the code, so at i = 0 this
      needs InitialBackoff <= MaxBackoff, and holds only then. */
  lemma {:induction false} DelayClosedForm(p: Policy, m: nat, i: nat)
    requires m >= 1 && p.multiplier == m as real
    requires p.initialBackoff >= 0 && p.maxBackoff >= 0
    ensures i >= 1 ==> Delay(p, i) == Min(p.initialBackoff * Pow(m, i), p.maxBackoff)
    ensures Delay(p, 0) == Min(p.initialBackoff * Pow(m, 0), p.maxBackoff) <==> p.initialBackoff <= p.maxBackoff
  {
    if i >= 1 {
      DelayClosedForm(p, m, i - 1);
      var d := Delay(p, i - 1);
      var e := p.initialBackoff * Pow(m, i - 1);
      assert d == e || (d == p.maxBackoff && d < e) by {
        assert i == 1 ==> Pow(m, i - 1) == 1;
      }
      Grows(p.initialBackoff, Pow(m, i - 1));
      NextIsCappedProduct(p, m, d);
      PowStep(p.initialBackoff, m, i);
      Grows(e, m);
      Grows(d, m);
    }
  }

  lemma PowStep(b: int, m: nat, i: nat)
    requires i >= 1
    ensures b * Pow(m, i) == b * Pow(m, i - 1) * m
  {
    var q := Pow(m, i - 1);
    assert b * (m * q) == b * q * m;
  }

  lemma NextIsCappedProduct(p: Policy, m: nat, d: int)
    requires d >= 0 && p.multiplier == m as real
    ensures NextBackoff(p, d) == Min(d * m, p.maxBackoff)
  {
    assert d as real * m as real == (d * m) as real;
    assert d * m >= 0;
  }

  lemma Grows(d: int, m: nat)
    requires d >= 0 && m >= 1
    ensures d * m >= d
  {}
}
