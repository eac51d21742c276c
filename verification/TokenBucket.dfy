/** The rate limiter in front of every pull. Rates are exact reals and the clock does not run backwards. */
module TokenBucket {

  /** In nanoseconds. */
  const SECOND: real := 1000000000.0

  function Min(x: real, y: real): real {
    if x <= y then x else y
  }

  function Rate(capacity: nat): real {
    capacity as real / SECOND
  }

  /** Tokens that come in over a span of time. */
  function Refill(capacity: nat, span: real): real {
    span * Rate(capacity)
  }

  lemma RefillNonNegative(capacity: nat, span: real)
    requires span >= 0.0
    ensures Refill(capacity, span) >= 0.0
  {
  }

  // ---- a call history ----

  /** Instants of the calls; index 0 is the creation of the bucket. */
  ghost predicate Clock(times: seq<real>) {
    |times| > 0 && forall i, j :: 0 <= i <= j < |times| ==> times[i] <= times[j]
  }

  /** Tokens just before call `n` decides, after the refill. */
  ghost function Refilled(capacity: nat, times: seq<real>, n: nat): real
    requires n < |times|
    decreases n, 0
  {
    if n == 0 then capacity as real
    else Min(capacity as real, Left(capacity, times, n - 1) + Refill(capacity, times[n] - times[n - 1]))
  }

  /** Creation is not a call, so nothing is granted at 0. */
  ghost predicate Granted(capacity: nat, times: seq<real>, n: nat)
    requires n < |times|
    decreases n, 1
  {
    n > 0 && Refilled(capacity, times, n) >= 1.0
  }

  ghost function Left(capacity: nat, times: seq<real>, n: nat): real
    requires n < |times|
    decreases n, 2
  {
    Refilled(capacity, times, n) - (if Granted(capacity, times, n) then 1.0 else 0.0)
  }

  /** Number of calls granted with index in [lo, hi). */
  ghost function Grants(capacity: nat, times: seq<real>, lo: nat, hi: nat): nat
    requires lo <= hi <= |times|
    decreases hi
  {
    if lo == hi then 0
    else Grants(capacity, times, lo, hi - 1) + (if Granted(capacity, times, hi - 1) then 1 else 0)
  }

  /** What start point `k` allows call `n`: a full bucket at k, refilled since, less what was granted since. */
  ghost function Allowance(capacity: nat, times: seq<real>, k: nat, n: nat): real
    requires k <= n < |times|
  {
    capacity as real + Refill(capacity, times[n] - times[k]) - Grants(capacity, times, k, n) as real
  }

  /** One more call moves every allowance by the refill and the grant. */
  lemma AllowanceStep(capacity: nat, times: seq<real>, k: nat, n: nat)
    requires 0 < n < |times| && k < n
    ensures Allowance(capacity, times, k, n) ==
            Allowance(capacity, times, k, n - 1) - (if Granted(capacity, times, n - 1) then 1.0 else 0.0)
            + Refill(capacity, times[n] - times[n - 1])
  {
  }

  /** Closed form: the tokens are the least allowance over all start points, and some start point attains it. */
  lemma {:induction false} ClosedForm(capacity: nat, times: seq<real>, n: nat)
    requires n < |times|
    ensures forall k :: 0 <= k <= n ==> Refilled(capacity, times, n) <= Allowance(capacity, times, k, n)
    ensures exists k :: 0 <= k <= n && Refilled(capacity, times, n) == Allowance(capacity, times, k, n)
  {
    assert Allowance(capacity, times, n, n) == capacity as real;
    if n > 0 {
      ClosedForm(capacity, times, n - 1);
      var j :| 0 <= j <= n - 1 && Refilled(capacity, times, n - 1) == Allowance(capacity, times, j, n - 1);
      AllowanceStep(capacity, times, j, n);
      forall k | 0 <= k <= n ensures Refilled(capacity, times, n) <= Allowance(capacity, times, k, n) {
        if k < n { AllowanceStep(capacity, times, k, n); }
      }
      if Refilled(capacity, times, n) == capacity as real {
        assert Refilled(capacity, times, n) == Allowance(capacity, times, n, n);
      } else {
        assert Refilled(capacity, times, n) == Allowance(capacity, times, j, n);
      }
    }
  }

  /**
   Greedy and exact: a call is granted if and only if, from every earlier start point (creation included), the grants
   since then plus this one stay within capacity plus the refill since then.
   */
  lemma GrantedExactly(capacity: nat, times: seq<real>, n: nat)
    requires 0 < n < |times|
    ensures Granted(capacity, times, n) <==> forall k :: 0 <= k <= n ==> WithinFrom(capacity, times, k, n)
  {
    ClosedForm(capacity, times, n);
    forall k | 0 <= k <= n ensures WithinFrom(capacity, times, k, n) <==> Allowance(capacity, times, k, n) >= 1.0 {
      WithinAllowance(capacity, times, k, n);
    }
    if !Granted(capacity, times, n) {
      var k :| 0 <= k <= n && Refilled(capacity, times, n) == Allowance(capacity, times, k, n);
      assert !WithinFrom(capacity, times, k, n);
    }
  }

  lemma WithinAllowance(capacity: nat, times: seq<real>, k: nat, n: nat)
    requires k <= n < |times|
    ensures WithinFrom(capacity, times, k, n) <==> Allowance(capacity, times, k, n) >= 1.0
  {
    RefillOver(capacity, times[n] - times[k]);
  }

  /** From start point k on, the grants so far and one more fit a full bucket and its refill: capacity per second. */
  ghost predicate WithinFrom(capacity: nat, times: seq<real>, k: nat, n: nat)
    requires k <= n < |times|
  {
    Grants(capacity, times, k, n) as real + 1.0 <= capacity as real * (1.0 + (times[n] - times[k]) / 1000000000.0)
  }

  /** Tokens never leave [0, capacity]. */
  lemma {:induction false} TokensBounded(capacity: nat, times: seq<real>, n: nat)
    requires Clock(times) && n < |times|
    ensures 0.0 <= Left(capacity, times, n) <= capacity as real
            && 0.0 <= Refilled(capacity, times, n) <= capacity as real
  {
    if n > 0 {
      TokensBounded(capacity, times, n - 1);
      assert times[n - 1] <= times[n];
      RefillNonNegative(capacity, times[n] - times[n - 1]);
    }
  }

  lemma RefillOver(capacity: nat, span: real)
    ensures capacity as real + Refill(capacity, span) == capacity as real * (1.0 + span / SECOND)
  {
  }

  lemma GrantsWithin(capacity: nat, times: seq<real>, i: nat, j: nat)
    requires Clock(times) && i <= j < |times|
    ensures Grants(capacity, times, i, j + 1) as real <= capacity as real + Refill(capacity, times[j] - times[i])
  {
    ClosedForm(capacity, times, j);
    TokensBounded(capacity, times, j);
    assert Refilled(capacity, times, j) <= Allowance(capacity, times, i, j);
    assert Left(capacity, times, j) >= 0.0;
  }

  /** No window of calls from i to j grants more than a full bucket plus the refill over the window. */
  lemma WindowBound(capacity: nat, times: seq<real>, i: nat, j: nat)
    requires Clock(times) && i <= j < |times|
    ensures Grants(capacity, times, i, j + 1) as real <= capacity as real * (1.0 + (times[j] - times[i]) / 1000000000.0)
  {
    GrantsWithin(capacity, times, i, j);
    RefillOver(capacity, times[j] - times[i]);
  }

  // ---- the object ----

  class Bucket {
    var tokens: real
    const capacity: nat
    var last: real
    ghost var times: seq<real>

    ghost predicate Valid()
      reads this
    {
      && Clock(times)
      && last == times[|times| - 1]
      && tokens == Left(capacity, times, |times| - 1)
    }

    constructor (capacity: nat, now: real)
      ensures Valid() && this.capacity == capacity && times == [now]
    {
      this.capacity := capacity;
      tokens := capacity as real;
      last := now;
      times := [now];
    }

    method Allow(now: real) returns (ok: bool)
      requires Valid() && last <= now
      modifies this
      ensures Valid() && times == old(times) + [now]
      ensures ok <==> Granted(capacity, times, |times| - 1)
      ensures 0.0 <= tokens <= capacity as real
    {
      ClockExtended(times, now);
      RefilledExtended(capacity, times, now);
      TokensBounded(capacity, times + [now], |times|);
      var elapsed := now - last;
      last := now;
      tokens := tokens + Refill(capacity, elapsed);
      if tokens > capacity as real {
        tokens := capacity as real;
      }
      times := times + [now];
      assert tokens == Refilled(capacity, times, |times| - 1);
      if tokens >= 1.0 {
        tokens := tokens - 1.0;
        ok := true;
      } else {
        ok := false;
      }
    }
  }

  lemma ClockExtended(times: seq<real>, now: real)
    requires Clock(times) && times[|times| - 1] <= now
    ensures Clock(times + [now])
  {
  }

  /** The refill of one more call. */
  lemma RefilledExtended(capacity: nat, times: seq<real>, now: real)
    requires |times| > 0
    ensures Refilled(capacity, times + [now], |times|) ==
            Min(capacity as real, Left(capacity, times, |times| - 1) + Refill(capacity, now - times[|times| - 1]))
  {
    var late := times + [now];
    HistoryPrefix(capacity, times, late, |times| - 1);
    assert late[|times|] == now && late[|times| - 1] == times[|times| - 1];
  }

  /** Later calls do not change what earlier ones saw. */
  lemma {:induction false} HistoryPrefix(capacity: nat, early: seq<real>, late: seq<real>, n: nat)
    requires early <= late && n < |early|
    ensures Refilled(capacity, early, n) == Refilled(capacity, late, n)
            && Left(capacity, early, n) == Left(capacity, late, n)
    ensures Granted(capacity, early, n) == Granted(capacity, late, n)
  {
    if n > 0 {
      HistoryPrefix(capacity, early, late, n - 1);
      assert early[n] == late[n] && early[n - 1] == late[n - 1];
    }
  }
}
