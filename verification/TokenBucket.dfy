/** One client's token bucket (backend/app/rate_limit.py). Time and tokens are reals. */
module TokenBucket {

  datatype Decision = Decision(allowed: bool, retryAfter: real, remaining: int)

  datatype BucketState = BucketState(capacity: real, rate: real, tokens: real, updated: real) {
    ghost predicate Valid() {
      rate > 0.0 && capacity >= 1.0 && 0.0 <= tokens <= capacity
    }
  }

  function Max(a: real, b: real): real {
    if a >= b then a else b
  }

  function Min(a: real, b: real): real {
    if a <= b then a else b
  }

  function Ceil(x: real): int {
    -((-x).Floor)
  }

  function Fresh(capacity: real, rate: real, now: real): BucketState {
    BucketState(capacity, rate, capacity, now)
  }

  /** Tokens gained over `elapsed` seconds. */
  function Gain(rate: real, elapsed: real): real {
    elapsed * rate
  }

  /** Tokens in the bucket once it has been refilled up to `now`. */
  function Available(b: BucketState, now: real): real {
    Min(b.capacity, b.tokens + Gain(b.rate, Max(0.0, now - b.updated)))
  }

  function AfterCheck(b: BucketState, now: real): BucketState {
    var tokens := Available(b, now);
    b.(tokens := if tokens >= 1.0 then tokens - 1.0 else tokens, updated := now)
  }

  function Wait(tokens: real, rate: real): real
    requires rate > 0.0
  {
    (1.0 - tokens) / rate
  }

  function Decide(b: BucketState, now: real): Decision
    requires b.rate > 0.0
  {
    var tokens := Available(b, now);
    if tokens >= 1.0 then Decision(true, 0.0, (tokens - 1.0).Floor)
    else Decision(false, Wait(tokens, b.rate), 0)
  }

  class Bucket {
    const capacity: real
    const refillPerSecond: real
    var tokens: real
    var updated: real

    function State(): BucketState
      reads this
    {
      BucketState(capacity, refillPerSecond, tokens, updated)
    }

    constructor (capacity: real, refillPerSecond: real, now: real)
      ensures State() == Fresh(capacity, refillPerSecond, now)
    {
      this.capacity := capacity;
      this.refillPerSecond := refillPerSecond;
      tokens := capacity;
      updated := now;
    }

    method TryAcquire(now: real) returns (d: Decision)
      requires refillPerSecond > 0.0
      modifies this
      ensures State() == AfterCheck(old(State()), now)
      ensures d == Decide(old(State()), now)
    {
      tokens := Min(capacity, tokens + Max(0.0, now - updated) * refillPerSecond);
      updated := now;
      if tokens >= 1.0 {
        tokens := tokens - 1.0;
        return Decision(true, 0.0, tokens.Floor);
      }
      return Decision(false, (1.0 - tokens) / refillPerSecond, 0);
    }
  }

  // ----- Whole runs of one bucket: consecutive checks at the clock readings `ts`.

  function After(b: BucketState, ts: seq<real>): BucketState
    decreases ts
  {
    if ts == [] then b else After(AfterCheck(b, ts[0]), ts[1..])
  }

  function Decisions(b: BucketState, ts: seq<real>): (ds: seq<Decision>)
    requires b.rate > 0.0
    ensures |ds| == |ts|
    decreases ts
  {
    if ts == [] then [] else [Decide(b, ts[0])] + Decisions(AfterCheck(b, ts[0]), ts[1..])
  }

  function Admitted(ds: seq<Decision>): nat {
    if ds == [] then 0 else (if ds[0].allowed then 1 else 0) + Admitted(ds[1..])
  }

  /** Total forward movement of a clock that reads `from` and then `ts`. */
  function Forward(from: real, ts: seq<real>): real
    decreases ts
  {
    if ts == [] then 0.0 else Max(0.0, ts[0] - from) + Forward(ts[0], ts[1..])
  }

  ghost predicate NonDecreasing(from: real, ts: seq<real>)
    decreases ts
  {
    ts != [] ==> from <= ts[0] && NonDecreasing(ts[0], ts[1..])
  }

  function Last(from: real, ts: seq<real>): real {
    if ts == [] then from else ts[|ts| - 1]
  }

  // Products of reals appear only in the next four lemmas; the others hide Gain and Wait.

  lemma GainAdds(rate: real, x: real, y: real)
    requires rate > 0.0
    ensures Gain(rate, x + y) == Gain(rate, x) + Gain(rate, y)
    ensures Gain(rate, 0.0) == 0.0 && (x < 0.0 <==> Gain(rate, x) < 0.0)
  {
  }

  lemma GainBelow(rate: real, elapsed: real, tokens: real)
    requires rate > 0.0
    ensures tokens + Gain(rate, elapsed) < 1.0 <==> elapsed < Wait(tokens, rate)
  {
  }

  lemma GainInAMinute(perMinute: real, rate: real, elapsed: real)
    requires perMinute > 0.0 && rate == perMinute / 60.0 && elapsed <= 60.0
    ensures Gain(rate, elapsed) <= perMinute
  {
  }

  lemma InverseRate(elapsed: real) returns (rate: real)
    requires elapsed > 0.0
    ensures rate > 0.0 && Wait(0.0, rate) == elapsed
  {
    rate := 1.0 / elapsed;
  }

  lemma {:induction false} RefillStep(b: BucketState, now: real)
    requires b.Valid()
    ensures 0.0 <= Available(b, now) <= b.tokens + Gain(b.rate, Max(0.0, now - b.updated))
    ensures Gain(b.rate, Max(0.0, now - b.updated)) >= 0.0
    ensures AfterCheck(b, now).Valid()
  {
    hide Gain, Wait;
    GainAdds(b.rate, Max(0.0, now - b.updated), 0.0);
  }

  /** Tokens stay in [0, capacity], whatever the clock does. */
  lemma {:induction false} TokensStayInRange(b: BucketState, ts: seq<real>)
    requires b.Valid()
    ensures After(b, ts).Valid()
    ensures After(b, ts).capacity == b.capacity && After(b, ts).rate == b.rate
    ensures After(b, ts).updated == Last(b.updated, ts)
    decreases ts
  {
    hide Gain, Wait;
    if ts != [] {
      RefillStep(b, ts[0]);
      TokensStayInRange(AfterCheck(b, ts[0]), ts[1..]);
    }
  }

  /** Conservation: what was admitted and what is left never exceeds what was there and what flowed in. */
  lemma {:induction false} TokensConserved(b: BucketState, ts: seq<real>)
    requires b.Valid()
    ensures Admitted(Decisions(b, ts)) as real + After(b, ts).tokens <= b.tokens + Gain(b.rate, Forward(b.updated, ts))
    decreases ts
  {
    hide Gain, Wait;
    GainAdds(b.rate, 0.0, 0.0);
    if ts != [] {
      var b' := AfterCheck(b, ts[0]);
      RefillStep(b, ts[0]);
      TokensConserved(b', ts[1..]);
      GainAdds(b.rate, Max(0.0, ts[0] - b.updated), Forward(ts[0], ts[1..]));
      assert Decisions(b, ts)[1..] == Decisions(b', ts[1..]);
    }
  }

  /** Rate bound over any run of consecutive checks, for any clock. What happened before
      the first check only matters through the capped refill. */
  lemma {:induction false} RateBound(b: BucketState, ts: seq<real>)
    requires b.Valid() && ts != []
    ensures Admitted(Decisions(b, ts)) as real <= b.capacity + Gain(b.rate, Forward(ts[0], ts[1..]))
  {
    hide Gain, Wait;
    var b' := AfterCheck(b, ts[0]);
    RefillStep(b, ts[0]);
    TokensConserved(b', ts[1..]);
    TokensStayInRange(b', ts[1..]);
    assert Decisions(b, ts)[1..] == Decisions(b', ts[1..]);
  }

  lemma {:induction false} ForwardOfMonotoneClock(from: real, ts: seq<real>)
    ensures Forward(from, ts) >= 0.0 && Forward(from, ts) >= Last(from, ts) - from
    ensures Forward(from, ts) == Last(from, ts) - from <==> NonDecreasing(from, ts)
    decreases ts
  {
    if ts != [] {
      ForwardOfMonotoneClock(ts[0], ts[1..]);
      assert Last(ts[0], ts[1..]) == Last(from, ts);
    }
  }

  lemma {:induction false} DecisionsSplit(b: BucketState, xs: seq<real>, ys: seq<real>)
    requires b.Valid()
    ensures After(b, xs).Valid()
    ensures Decisions(b, xs + ys) == Decisions(b, xs) + Decisions(After(b, xs), ys)
    decreases xs
  {
    hide Gain, Wait;
    if xs == [] {
      assert xs + ys == ys;
    } else {
      RefillStep(b, xs[0]);
      DecisionsSplit(AfterCheck(b, xs[0]), xs[1..], ys);
      assert (xs + ys)[1..] == xs[1..] + ys;
    }
  }

  lemma {:induction false} NonDecreasingSlice(from: real, ts: seq<real>, i: nat, j: nat)
    requires NonDecreasing(from, ts) && i < j <= |ts|
    ensures NonDecreasing(ts[i], ts[i + 1..j])
    decreases ts
  {
    if i == 0 {
      NonDecreasingPrefix(ts[0], ts[1..], j - 1);
      assert ts[1..][..j - 1] == ts[1..j];
    } else {
      NonDecreasingSlice(ts[0], ts[1..], i - 1, j - 1);
      assert ts[1..][i..j - 1] == ts[i + 1..j];
    }
  }

  lemma {:induction false} NonDecreasingPrefix(from: real, ts: seq<real>, j: nat)
    requires NonDecreasing(from, ts) && j <= |ts|
    ensures NonDecreasing(from, ts[..j])
    decreases ts
  {
    if j > 0 {
      NonDecreasingPrefix(ts[0], ts[1..], j - 1);
      assert ts[..j][1..] == ts[1..][..j - 1];
    }
  }

  /** In a run with a clock that never steps back, any window admits at most capacity + rate * its length. */
  lemma {:induction false} WindowBound(b: BucketState, ts: seq<real>, i: nat, j: nat)
    requires b.Valid() && NonDecreasing(b.updated, ts) && i < j <= |ts|
    ensures Admitted(Decisions(b, ts)[i..j]) as real <= b.capacity + Gain(b.rate, ts[j - 1] - ts[i])
  {
    hide Gain, Wait;
    var before, window, rest := ts[..i], ts[i..j], ts[j..];
    assert ts == before + (window + rest);
    DecisionsSplit(b, before, window + rest);
    TokensStayInRange(b, before);
    DecisionsSplit(After(b, before), window, rest);
    assert Decisions(b, ts)[i..j] == Decisions(After(b, before), window);
    RateBound(After(b, before), window);
    NonDecreasingSlice(b.updated, ts, i, j);
    assert window[1..] == ts[i + 1..j];
    ForwardOfMonotoneClock(ts[i], ts[i + 1..j]);
    assert Last(ts[i], ts[i + 1..j]) == ts[j - 1];
  }

  /** With the default burst, no 60-second window admits more than twice the configured limit. */
  lemma {:induction false} AtMostTwicePerMinute(perMinute: nat, start: real, ts: seq<real>, i: nat, j: nat)
    requires perMinute > 0 && NonDecreasing(start, ts) && i < j <= |ts|
    requires ts[j - 1] - ts[i] <= 60.0
    ensures Admitted(Decisions(Fresh(perMinute as real, perMinute as real / 60.0, start), ts)[i..j]) <= 2 * perMinute
  {
    hide Gain, Wait;
    var b := Fresh(perMinute as real, perMinute as real / 60.0, start);
    WindowBound(b, ts, i, j);
    GainInAMinute(perMinute as real, b.rate, ts[j - 1] - ts[i]);
  }

  // ----- The wait reported with a refusal.

  ghost predicate AllRefused(ds: seq<Decision>) {
    forall k :: 0 <= k < |ds| ==> !ds[k].allowed
  }

  lemma {:induction false} AllRefusedIff(b: BucketState, ts: seq<real>)
    requires b.Valid() && b.tokens < 1.0
    ensures AllRefused(Decisions(b, ts)) <==> b.tokens + Gain(b.rate, Forward(b.updated, ts)) < 1.0
    decreases ts
  {
    hide Gain, Wait;
    GainAdds(b.rate, 0.0, 0.0);
    if ts != [] {
      var b' := AfterCheck(b, ts[0]);
      RefillStep(b, ts[0]);
      ForwardOfMonotoneClock(ts[0], ts[1..]);
      GainAdds(b.rate, Forward(ts[0], ts[1..]), Max(0.0, ts[0] - b.updated));
      var ds := Decisions(b, ts);
      assert ds[0] == Decide(b, ts[0]) && ds[1..] == Decisions(b', ts[1..]);
      if Available(b, ts[0]) < 1.0 {
        AllRefusedIff(b', ts[1..]);
        AllRefusedSplit(ds, 1);
      } else {
        assert ds[0].allowed;
      }
    }
  }

  lemma AllRefusedSplit(ds: seq<Decision>, n: nat)
    requires n <= |ds|
    ensures AllRefused(ds) <==> AllRefused(ds[..n]) && AllRefused(ds[n..])
  {
    if AllRefused(ds[..n]) && AllRefused(ds[n..]) {
      forall k | 0 <= k < |ds| ensures !ds[k].allowed {
        assert ds[k] == if k < n then ds[..n][k] else ds[n..][k - n];
      }
    }
  }

  /** After a refusal at `t`, later checks are all refused exactly until the clock has moved
      forward by the reported wait in total; this holds for any clock and any checks in between. */
  lemma {:induction false} RetryAfterExact(b: BucketState, t: real, ts: seq<real>)
    requires b.Valid() && !Decide(b, t).allowed
    ensures AfterCheck(b, t).rate == b.rate > 0.0
    ensures AllRefused(Decisions(AfterCheck(b, t), ts)) <==> Forward(t, ts) < Decide(b, t).retryAfter
  {
    hide Gain, Wait;
    RefillStep(b, t);
    AllRefusedIff(AfterCheck(b, t), ts);
    GainBelow(b.rate, Forward(t, ts), AfterCheck(b, t).tokens);
  }

  /** For a clock that never steps back: refused at every reading before t + wait,
      and the first reading at or after t + wait is admitted. */
  lemma {:induction false} FirstAdmissionAfterRefusal(b: BucketState, t: real, ts: seq<real>, k: nat)
    requires b.Valid() && !Decide(b, t).allowed
    requires NonDecreasing(t, ts) && k < |ts|
    ensures AfterCheck(b, t).rate > 0.0
    ensures ts[k] < t + Decide(b, t).retryAfter ==> !Decisions(AfterCheck(b, t), ts)[k].allowed
    ensures ts[k] >= t + Decide(b, t).retryAfter && (k == 0 || ts[k - 1] < t + Decide(b, t).retryAfter)
            ==> Decisions(AfterCheck(b, t), ts)[k].allowed
  {
    var b' := AfterCheck(b, t);
    RefillStep(b, t);
    UpTo(b, t, ts, k + 1);
    UpTo(b, t, ts, k);
    var ds := Decisions(b', ts);
    AllRefusedSplit(ds[..k + 1], k);
    assert ds[..k + 1][..k] == ds[..k] && ds[..k + 1][k..] == [ds[k]];
  }

  lemma {:induction false} UpTo(b: BucketState, t: real, ts: seq<real>, n: nat)
    requires b.Valid() && !Decide(b, t).allowed
    requires NonDecreasing(t, ts) && n <= |ts|
    ensures AfterCheck(b, t).rate > 0.0
    ensures AllRefused(Decisions(AfterCheck(b, t), ts)[..n]) <==> Last(t, ts[..n]) - t < Decide(b, t).retryAfter
  {
    var b' := AfterCheck(b, t);
    RefillStep(b, t);
    assert ts == ts[..n] + ts[n..];
    DecisionsSplit(b', ts[..n], ts[n..]);
    assert Decisions(b', ts)[..n] == Decisions(b', ts[..n]);
    RetryAfterExact(b, t, ts[..n]);
    NonDecreasingPrefix(t, ts, n);
    ForwardOfMonotoneClock(t, ts[..n]);
  }

  /** The Retry-After header: whole seconds, at least one. */
  function HeaderSeconds(retryAfter: real): (seconds: int)
    ensures seconds >= 1 && seconds as real >= retryAfter
    ensures seconds > 1 ==> (seconds - 1) as real < retryAfter
  {
    if Ceil(retryAfter) >= 1 then Ceil(retryAfter) else 1
  }

  /** A refused client that next checks after the advertised seconds is admitted;
      one second less is too early unless the header says one second. */
  lemma {:induction false} HeaderIsExact(b: BucketState, t: real)
    requires b.Valid() && !Decide(b, t).allowed
    ensures AfterCheck(b, t).rate > 0.0
    ensures var seconds := HeaderSeconds(Decide(b, t).retryAfter);
            && Decide(AfterCheck(b, t), t + seconds as real).allowed
            && (seconds > 1 ==> !Decide(AfterCheck(b, t), t + (seconds - 1) as real).allowed)
  {
    var seconds := HeaderSeconds(Decide(b, t).retryAfter);
    RefillStep(b, t);
    FirstAdmissionAfterRefusal(b, t, [t + seconds as real], 0);
    if seconds > 1 {
      FirstAdmissionAfterRefusal(b, t, [t + (seconds - 1) as real], 0);
    }
  }

  /** Gaps of at least 1 / rate between checks, starting from `from`. */
  ghost predicate Spaced(from: real, ts: seq<real>, gap: real)
    decreases ts
  {
    ts != [] ==> ts[0] - from >= gap && Spaced(ts[0], ts[1..], gap)
  }

  /** Checks spaced at least 1 / rate apart are never refused, whatever the bucket holds before the first gap. */
  lemma {:induction false} SpacedChecksAdmitted(b: BucketState, ts: seq<real>)
    requires b.Valid() && Spaced(b.updated, ts, Wait(0.0, b.rate))
    ensures forall k :: 0 <= k < |ts| ==> Decisions(b, ts)[k].allowed
    decreases ts
  {
    if ts != [] {
      RefillStep(b, ts[0]);
      var d := ts[0] - b.updated;
      GainBelow(b.rate, d, 0.0);
      assert Available(b, ts[0]) >= 1.0;
      SpacedChecksAdmitted(AfterCheck(b, ts[0]), ts[1..]);
    }
  }

  function Repeat(t: real, n: nat): (ts: seq<real>)
    ensures |ts| == n
  {
    if n == 0 then [] else [t] + Repeat(t, n - 1)
  }

  /** A burst at one instant: check k is admitted exactly while k < floor(tokens available). */
  lemma {:induction false} BurstAtOneInstant(b: BucketState, t: real, n: nat, k: nat)
    requires b.Valid() && k < n
    ensures Decisions(b, Repeat(t, n))[k].allowed <==> k < Available(b, t).Floor
    decreases n
  {
    RefillStep(b, t);
    var b' := AfterCheck(b, t);
    assert Repeat(t, n)[1..] == Repeat(t, n - 1);
    assert Available(b', t) == b'.tokens;
    if k > 0 {
      BurstAtOneInstant(b', t, n - 1, k - 1);
    }
  }

  /** The reported `remaining` is exactly how many more checks this instant still admits. */
  lemma {:induction false} RemainingIsExact(b: BucketState, t: real, n: nat, k: nat)
    requires b.Valid() && k < n
    ensures AfterCheck(b, t).rate > 0.0
    ensures Decisions(AfterCheck(b, t), Repeat(t, n))[k].allowed <==> k < Decide(b, t).remaining
  {
    RefillStep(b, t);
    BurstAtOneInstant(AfterCheck(b, t), t, n, k);
    assert Available(AfterCheck(b, t), t) == AfterCheck(b, t).tokens;
  }

  // ----- What an out-of-order clock does. `now` is read before the lock is taken.

  ghost predicate LinearBound(b: BucketState, ts: seq<real>)
    requires b.rate > 0.0 && ts != []
  {
    Admitted(Decisions(b, ts)) as real <= b.capacity + Gain(b.rate, Last(ts[0], ts) - ts[0])
  }

  /** Readings obey capacity + rate * (end - start) for every bucket exactly when they never step back. */
  lemma {:induction false} LinearBoundIffMonotone(ts: seq<real>)
    requires ts != []
    ensures (forall b: BucketState | b.Valid() :: LinearBound(b, ts)) <==> NonDecreasing(ts[0], ts[1..])
  {
    assert Last(ts[0], ts[1..]) == Last(ts[0], ts);
    ForwardOfMonotoneClock(ts[0], ts[1..]);
    if NonDecreasing(ts[0], ts[1..]) {
      forall b: BucketState | b.Valid() ensures LinearBound(b, ts) {
        RateBound(b, ts);
      }
    } else {
      var b := Overshooting(ts);
      assert b.Valid() && !LinearBound(b, ts);
    }
  }

  // One token of capacity, refilled exactly once over the total forward movement.
  lemma {:induction false} Overshooting(ts: seq<real>) returns (b: BucketState)
    requires ts != [] && !NonDecreasing(ts[0], ts[1..])
    ensures b.Valid() && !LinearBound(b, ts)
  {
    hide Gain, Wait;
    var fwd := Forward(ts[0], ts[1..]);
    ForwardOfMonotoneClock(ts[0], ts[1..]);
    assert Last(ts[0], ts[1..]) == Last(ts[0], ts);
    var span := Last(ts[0], ts) - ts[0];
    var rate := 1.0;
    if fwd > 0.0 {
      rate := InverseRate(fwd);
    }
    b := Fresh(1.0, rate, ts[0]);
    GainBelow(rate, fwd, 0.0);
    GainBelow(rate, span, 0.0);
    GainAdds(rate, span, 0.0);
    var b' := AfterCheck(b, ts[0]);
    assert b'.tokens == 0.0 && Decide(b, ts[0]).allowed;
    var ds := Decisions(b, ts);
    assert ds[1..] == Decisions(b', ts[1..]);
    AllRefusedIff(b', ts[1..]);
    if fwd > 0.0 {
      SomeAdmitted(ds[1..]);
    }
  }

  lemma {:induction false} SomeAdmitted(ds: seq<Decision>)
    requires !AllRefused(ds)
    ensures Admitted(ds) >= 1
  {
    if !ds[0].allowed {
      var k :| 0 <= k < |ds| && ds[k].allowed;
      assert ds[1..][k - 1] == ds[k];
      SomeAdmitted(ds[1..]);
    }
  }
}
