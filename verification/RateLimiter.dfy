/** The per-connection token bucket, over real numbers: times in seconds, tokens possibly fractional. */
module RateLimiter {

  /** Capacity and refill rate per second are both the configured limit. */
  datatype Bucket = Bucket(limit: nat, tokens: real, lastRefill: real)

  function NewBucket(limit: nat, now: real): Bucket {
    Bucket(limit, 1.0, now)
  }

  function Min(a: real, b: real): real {
    if a <= b then a else b
  }

  /** Time since the last refill; an instant never lies before an earlier one. */
  function Elapsed(b: Bucket, now: real): real {
    if now < b.lastRefill then 0.0 else now - b.lastRefill
  }

  /** Tokens earned in a span of time. */
  function Earned(limit: nat, span: real): real {
    span * limit as real
  }

  function Refilled(b: Bucket, now: real): Bucket {
    b.(tokens := Min(b.tokens + Earned(b.limit, Elapsed(b, now)), b.limit as real), lastRefill := now)
  }

  /** `try_acquire`. */
  function Acquire(b: Bucket, now: real): (Bucket, bool) {
    var r := Refilled(b, now);
    if r.tokens >= 1.0 then (r.(tokens := r.tokens - 1.0), true) else (r, false)
  }

  class Limiter {
    var tokens: real
    const maxTokens: nat
    var lastRefill: real

    ghost function Value(): Bucket
      reads this
    {
      Bucket(maxTokens, tokens, lastRefill)
    }

    constructor (limit: nat, now: real)
      ensures Value() == NewBucket(limit, now)
    {
      tokens := 1.0;
      maxTokens := limit;
      lastRefill := now;
    }

    method TryAcquire(now: real) returns (ok: bool)
      modifies this
      ensures (Value(), ok) == Acquire(old(Value()), now)
    {
      var elapsed := if now < lastRefill then 0.0 else now - lastRefill;
      tokens := Min(tokens + Earned(maxTokens, elapsed), maxTokens as real);
      lastRefill := now;
      if tokens >= 1.0 {
        tokens := tokens - 1.0;
        return true;
      }
      return false;
    }
  }

  // ---- Runs ----

  /** The bucket after a run of calls. */
  function After(b: Bucket, calls: seq<real>): Bucket
    decreases |calls|
  {
    if calls == [] then b else After(Acquire(b, calls[0]).0, calls[1..])
  }

  /** How many calls of a run are admitted. */
  function Admitted(b: Bucket, calls: seq<real>): (n: nat)
    ensures n <= |calls|
    decreases |calls|
  {
    if calls == [] then 0
    else (if Acquire(b, calls[0]).1 then 1 else 0) + Admitted(Acquire(b, calls[0]).0, calls[1..])
  }

  /** Calls in time order, none before the bucket's last refill. */
  predicate InOrder(b: Bucket, calls: seq<real>) {
    && (forall i :: 0 <= i < |calls| ==> b.lastRefill <= calls[i])
    && forall i, j :: 0 <= i < j < |calls| ==> calls[i] <= calls[j]
  }

  lemma TailInOrder(b: Bucket, calls: seq<real>)
    requires InOrder(b, calls) && calls != []
    ensures InOrder(Acquire(b, calls[0]).0, calls[1..])
    ensures Acquire(b, calls[0]).0.lastRefill == calls[0] && Acquire(b, calls[0]).0.limit == b.limit
  {
  }

  predicate InRange(b: Bucket) {
    0.0 <= b.tokens <= b.limit as real
  }

  lemma EarnedIsNonNegative(limit: nat, span: real)
    requires span >= 0.0
    ensures Earned(limit, span) >= 0.0
  {
  }

  lemma EarnedAdds(limit: nat, first: real, second: real)
    ensures Earned(limit, first) + Earned(limit, second) == Earned(limit, first + second)
  {
  }

  lemma EarnedUnits(limit: nat)
    ensures Earned(limit, 0.0) == 0.0 && Earned(limit, 1.0) == limit as real
  {
  }

  /** Every call keeps the token count between zero and the limit. */
  lemma {:induction false} RunStaysInRange(b: Bucket, calls: seq<real>)
    requires InRange(b) && InOrder(b, calls)
    ensures InRange(After(b, calls))
    decreases |calls|
  {
    hide Earned;
    if calls != [] {
      EarnedIsNonNegative(b.limit, Elapsed(b, calls[0]));
      TailInOrder(b, calls);
      RunStaysInRange(Acquire(b, calls[0]).0, calls[1..]);
    }
  }

  /** Tokens spent never exceed the tokens held plus those earned by the end of the run. */
  lemma {:induction false} SpendingIsCovered(b: Bucket, calls: seq<real>, end: real)
    requires 0.0 <= b.tokens && InOrder(b, calls)
    requires b.lastRefill <= end && forall i :: 0 <= i < |calls| ==> calls[i] <= end
    ensures Admitted(b, calls) as real <= b.tokens + Earned(b.limit, end - b.lastRefill)
    decreases |calls|
  {
    hide Earned;
    if calls == [] {
      EarnedIsNonNegative(b.limit, end - b.lastRefill);
    } else {
      EarnedIsNonNegative(b.limit, Elapsed(b, calls[0]));
      TailInOrder(b, calls);
      SpendingIsCovered(Acquire(b, calls[0]).0, calls[1..], end);
      EarnedAdds(b.limit, calls[0] - b.lastRefill, end - calls[0]);
      assert calls[0] - b.lastRefill + (end - calls[0]) == end - b.lastRefill;
    }
  }

  // ---- Main results ----

  /** By time T after creation at most 1 + limit * T calls are admitted. */
  lemma AdmittedSinceStart(limit: nat, created: real, calls: seq<real>, end: real)
    requires InOrder(NewBucket(limit, created), calls)
    requires created <= end && forall i :: 0 <= i < |calls| ==> calls[i] <= end
    ensures Admitted(NewBucket(limit, created), calls) as real <= 1.0 + Earned(limit, end - created)
  {
    hide Earned, Admitted, InOrder;
    var b := NewBucket(limit, created);
    assert b.tokens == 1.0 && b.lastRefill == created && b.limit == limit;
    SpendingIsCovered(b, calls, end);
  }

  /** Refilling first, at the time of the first call, changes nothing. */
  lemma RefillIsIdempotent(b: Bucket, calls: seq<real>)
    requires calls != []
    ensures Admitted(Refilled(b, calls[0]), calls) == Admitted(b, calls)
  {
    hide Earned;
    EarnedUnits(b.limit);
    assert Refilled(Refilled(b, calls[0]), calls[0]) == Refilled(b, calls[0]);
  }

  /** After any history, a window of length D admits at most limit + limit * D calls. */
  lemma AdmittedInWindow(b: Bucket, window: seq<real>)
    requires InRange(b) && InOrder(b, window) && window != []
    ensures Admitted(b, window) as real <= b.limit as real + Earned(b.limit, window[|window| - 1] - window[0])
  {
    hide Earned, Admitted;
    EarnedIsNonNegative(b.limit, Elapsed(b, window[0]));
    RefillIsIdempotent(b, window);
    SpendingIsCovered(Refilled(b, window[0]), window, window[|window| - 1]);
  }

  lemma {:induction false} HistoryConcat(b: Bucket, before: seq<real>, window: seq<real>)
    requires InOrder(b, before + window)
    ensures InOrder(After(b, before), window)
    ensures Admitted(b, before + window) == Admitted(b, before) + Admitted(After(b, before), window)
    ensures After(b, before).limit == b.limit
    decreases |before|
  {
    hide Earned;
    if before == [] {
      assert before + window == window;
    } else {
      var next := Acquire(b, before[0]).0;
      assert (before + window)[0] == before[0] && (before + window)[1..] == before[1..] + window;
      TailInOrder(b, before + window);
      HistoryConcat(next, before[1..], window);
    }
  }

  /** The same bound for any stretch of any run of a connection's limiter. */
  lemma AdmittedInAnyWindow(limit: nat, created: real, before: seq<real>, window: seq<real>)
    requires limit >= 1 && window != []
    requires InOrder(NewBucket(limit, created), before + window)
    ensures var b := NewBucket(limit, created);
            Admitted(b, before + window) as real - Admitted(b, before) as real
              <= limit as real + Earned(limit, window[|window| - 1] - window[0])
  {
    hide Earned, Admitted, After;
    var b := NewBucket(limit, created);
    HistoryConcat(b, before, window);
    assert InOrder(b, before) by {
      assert forall i :: 0 <= i < |before| ==> (before + window)[i] == before[i];
    }
    RunStaysInRange(b, before);
    AdmittedInWindow(After(b, before), window);
  }

  /** Consecutive calls at least 1/limit seconds apart. */
  predicate Spaced(limit: nat, calls: seq<real>) {
    forall i :: 0 < i < |calls| ==> Earned(limit, calls[i] - calls[i - 1]) >= 1.0
  }

  lemma {:induction false} SpacedRunIsAdmitted(b: Bucket, calls: seq<real>)
    requires b.limit >= 1 && 0.0 <= b.tokens && InOrder(b, calls) && Spaced(b.limit, calls)
    requires calls != [] ==> b.tokens + Earned(b.limit, calls[0] - b.lastRefill) >= 1.0
    ensures Admitted(b, calls) == |calls|
    decreases |calls|
  {
    hide Earned;
    if calls != [] {
      TailInOrder(b, calls);
      forall i | 0 < i < |calls[1..]|
        ensures Earned(b.limit, calls[1..][i] - calls[1..][i - 1]) >= 1.0
      {
        assert calls[1..][i] == calls[i + 1] && calls[1..][i - 1] == calls[i];
      }
      SpacedRunIsAdmitted(Acquire(b, calls[0]).0, calls[1..]);
    }
  }

  /** Calls spaced at least 1/limit apart are never refused. */
  lemma SpacedCallsAreNeverRefused(limit: nat, created: real, calls: seq<real>)
    requires limit >= 1
    requires InOrder(NewBucket(limit, created), calls) && Spaced(limit, calls)
    ensures Admitted(NewBucket(limit, created), calls) == |calls|
  {
    hide Earned;
    if calls != [] {
      EarnedIsNonNegative(limit, calls[0] - created);
    }
    SpacedRunIsAdmitted(NewBucket(limit, created), calls);
  }

  /** A limit of zero admits nothing. */
  lemma {:induction false} ZeroAdmitsNothing(b: Bucket, calls: seq<real>)
    requires b.limit == 0
    ensures Admitted(b, calls) == 0
    decreases |calls|
  {
    hide Earned;
    if calls != [] {
      ZeroAdmitsNothing(Acquire(b, calls[0]).0, calls[1..]);
    }
  }

  /** Simultaneous calls draw on the whole tokens that are there. */
  lemma {:induction false} SimultaneousCalls(b: Bucket, n: nat, whole: nat, now: real)
    requires b.lastRefill == now && whole as real <= b.tokens < whole as real + 1.0
    requires b.tokens <= b.limit as real
    ensures Admitted(b, seq(n, _ => now)) == if n <= whole then n else whole
    decreases n
  {
    hide Earned;
    if n > 0 {
      var calls := seq(n, _ => now);
      assert calls[1..] == seq(n - 1, _ => now);
      EarnedUnits(b.limit);
      SimultaneousCalls(Acquire(b, now).0, n - 1, if whole > 0 then whole - 1 else 0, now);
    }
  }

  /** A burst after any silence: as many calls are admitted at once as there are whole tokens by then. */
  lemma BurstExactly(b: Bucket, now: real, n: nat)
    requires InRange(b) && now >= b.lastRefill
    ensures var whole := Refilled(b, now).tokens.Floor;
            Admitted(b, seq(n, _ => now)) == if n <= whole then n else whole
  {
    hide Earned, Admitted;
    EarnedIsNonNegative(b.limit, now - b.lastRefill);
    SimultaneousCalls(Refilled(b, now), n, Refilled(b, now).tokens.Floor, now);
    if n > 0 {
      RefillIsIdempotent(b, seq(n, _ => now));
    } else {
      assert seq(n, _ => now) == [];
      NoCalls(b);
    }
  }

  /** Two calls at once both pass exactly when two tokens can be held and two have been saved up. */
  lemma TwoAtOnceExactly(b: Bucket, now: real)
    requires InRange(b) && now >= b.lastRefill
    ensures Admitted(b, [now, now]) == 2 <==> b.limit >= 2 && b.tokens + Earned(b.limit, now - b.lastRefill) >= 2.0
  {
    hide Earned, Admitted;
    assert [now, now] == seq(2, _ => now);
    BurstExactly(b, now, 2);
  }

  /** After a second of silence the burst is the whole limit: the bound on windows is met. */
  lemma BurstAfterIdleSecond(b: Bucket, now: real, n: nat)
    requires InRange(b) && now >= b.lastRefill + 1.0
    ensures Admitted(b, seq(n, _ => now)) == if n <= b.limit then n else b.limit
  {
    hide Earned, Admitted;
    EarnedUnits(b.limit);
    EarnedAdds(b.limit, 1.0, now - b.lastRefill - 1.0);
    assert 1.0 + (now - b.lastRefill - 1.0) == now - b.lastRefill;
    EarnedIsNonNegative(b.limit, now - b.lastRefill - 1.0);
    BurstExactly(b, now, n);
  }

  lemma NoCalls(b: Bucket)
    ensures Admitted(b, []) == 0
  {
  }
}
