/** What the token bucket admits when clock readings are finer than the microseconds it counts in. */
module RateBounds {
  import opened RateLimiter
  import opened RateTheorems

  /** Tokens the rate allows over a stretch of the clock. */
  function Allowance(c: Config, stretch: int): real {
    stretch as real / c.ticks as real / 1000000.0 * c.rate
  }

  lemma AllowanceAdds(c: Config, a: int, b: int)
    ensures Allowance(c, a + b) == Allowance(c, a) + Allowance(c, b)
  {
    var k := c.ticks as real;
    var x, y := a as real / k, b as real / k;
    assert (a + b) as real / k == x + y;
    assert (x + y) / 1000000.0 == x / 1000000.0 + y / 1000000.0;
    var u, v := x / 1000000.0, y / 1000000.0;
    assert (u + v) * c.rate == u * c.rate + v * c.rate;
  }

  lemma QuotientBelow(a: int, k: nat)
    requires k >= 1
    ensures (a / k) as real <= a as real / k as real
  {
    var q := a / k;
    assert q * k <= a;
    assert q as real * k as real <= a as real;
  }

  lemma CutGainsNoMore(c: Config, stretch: int)
    requires Valid(c)
    ensures Gain(c, stretch / c.ticks) <= Allowance(c, stretch)
  {
    QuotientBelow(stretch, c.ticks);
    var x, y := (stretch / c.ticks) as real / 1000000.0, stretch as real / c.ticks as real / 1000000.0;
    assert x <= y;
    assert x * c.rate <= y * c.rate;
  }

  lemma AllowanceGrows(c: Config, a: int, b: int)
    requires Valid(c) && a <= b
    ensures Allowance(c, a) <= Allowance(c, b)
  {
    var k := c.ticks as real;
    assert a as real / k <= b as real / k;
    var x, y := a as real / k / 1000000.0, b as real / k / 1000000.0;
    assert x <= y;
    assert x * c.rate <= y * c.rate;
  }

  lemma AllowanceZero(c: Config)
    ensures Allowance(c, 0) == 0.0
  {
  }

  /** A refill either finds less than a microsecond and leaves the bucket alone, or moves it to now. */
  lemma RefillCases(c: Config, b: Bucket, now: int)
    requires Valid(c) && b.lastRefill <= now
    ensures var r := Refill(c, b, now);
            || (r == b && now - b.lastRefill < c.ticks)
            || (r.lastRefill == now && r.tokens <= c.burst as real
                && r.tokens <= b.tokens + Allowance(c, now - b.lastRefill))
    ensures b.tokens <= c.burst as real ==> Refill(c, b, now).tokens <= c.burst as real
  {
    var d := now - b.lastRefill;
    CutGainsNoMore(c, d);
    GainSign(c, d / c.ticks);
    hide Gain, Allowance;
    if d / c.ticks > 0 {
      assert d >= c.ticks;
    } else {
      assert d < c.ticks;
    }
  }

  /** The window opened by request i admits at most the burst plus the rate over its length. */
  predicate WithinRate(c: Config, times: seq<int>, admitted: seq<bool>, i: nat)
    requires i < |times| == |admitted|
  {
    Count(admitted[i..]) as real <= c.burst as real + Allowance(c, times[|times| - 1] - times[i])
  }

  /** What holds of a bucket and the requests admitted since an origin: the rate has covered them. A
      bucket last refilled before the origin still has what accrued since then to come. */
  predicate Covered(c: Config, b: Bucket, admitted: nat, origin: int) {
    var total := admitted as real + b.tokens;
    if b.lastRefill >= origin then
      total <= c.burst as real + Allowance(c, b.lastRefill - origin)
    else
      || total + Allowance(c, origin - b.lastRefill) <= c.burst as real
      || (admitted == 0 && b.tokens < 1.0)
  }

  lemma CoveredWhenFull(c: Config, b: Bucket, origin: int)
    requires Valid(c) && b.tokens <= c.burst as real && origin <= b.lastRefill
    ensures Covered(c, b, 0, origin)
  {
    AllowanceZero(c);
    AllowanceGrows(c, 0, b.lastRefill - origin);
    hide Allowance;
  }

  lemma CoveredThroughSpend(c: Config, b: Bucket, admitted: nat, origin: int)
    requires Valid(c) && Covered(c, b, admitted, origin)
    ensures Covered(c, Spend(b), admitted + (if b.tokens >= 1.0 then 1 else 0), origin)
  {
    hide Allowance;
  }

  lemma CoveredThroughRefill(c: Config, b: Bucket, admitted: nat, origin: int, now: int)
    requires Valid(c) && Covered(c, b, admitted, origin) && b.lastRefill <= now && origin <= now
    ensures Covered(c, Refill(c, b, now), admitted, origin)
  {
    RefillCases(c, b, now);
    AllowanceAdds(c, b.lastRefill - origin, now - b.lastRefill);
    AllowanceAdds(c, origin - b.lastRefill, now - origin);
    AllowanceZero(c);
    AllowanceGrows(c, 0, now - origin);
    hide Refill, Allowance;
  }

  lemma {:induction false} RefilledInThePast(c: Config, times: seq<int>, now: int)
    requires Valid(c) && Sorted(times + [now])
    ensures Arrive(c, times, now).lastRefill <= now < Arrive(c, times, now).lastRefill + c.ticks
    decreases |times|
  {
    SortedParts(times, now);
    if times == [] {
      RefillCases(c, Bucket(c.burst as real, now), now);
    } else {
      var front, last := times[..|times| - 1], times[|times| - 1];
      assert times == front + [last];
      RefilledInThePast(c, front, last);
      ReplayAppend(c, front, last);
      RefillCases(c, Replay(c, times).bucket, now);
      hide Refill, Replay;
    }
  }

  lemma {:induction false} CoveredSince(c: Config, times: seq<int>, i: nat, origin: int)
    requires Valid(c) && Sorted(times) && i < |times| && origin <= times[i]
    requires Covered(c, Arrive(c, times[..i], times[i]), 0, origin)
    ensures Covered(c, Replay(c, times).bucket, Count(Replay(c, times).admitted[i..]), origin)
    decreases |times|
  {
    hide Refill, Allowance, Spend, Covered, Replay;
    var front, last := times[..|times| - 1], times[|times| - 1];
    var before, bucket, ok := Replay(c, front), Arrive(c, front, last), Tokens(c, front, last) >= 1.0;
    assert times == front + [last];
    SortedParts(front, last);
    ReplayAppend(c, front, last);
    CountFrom(before.admitted, ok, i);
    if i == |front| {
      assert times[..i] == front && before.admitted[i..] == [];
      CoveredThroughSpend(c, bucket, 0, origin);
    } else {
      assert front[..i] == times[..i] && front[i] == times[i] <= last;
      CoveredSince(c, front, i, origin);
      SpentInThePast(c, front);
      CoveredThroughRefill(c, before.bucket, Count(before.admitted[i..]), origin, last);
      CoveredThroughSpend(c, bucket, Count(before.admitted[i..]), origin);
    }
  }

  lemma SpentInThePast(c: Config, times: seq<int>)
    requires Valid(c) && Sorted(times) && times != []
    ensures var b := Replay(c, times).bucket;
            b.lastRefill <= times[|times| - 1] && (0.0 <= b.tokens <= c.burst as real - 1.0 || 0.0 <= b.tokens < 1.0)
  {
    var front, last := times[..|times| - 1], times[|times| - 1];
    assert times == front + [last];
    RefilledInThePast(c, front, last);
    TokensInRange(c, front, last);
    ReplayAppend(c, front, last);
    hide Refill, Replay;
  }

  lemma CoveredBounds(c: Config, times: seq<int>, i: nat, origin: int)
    requires Valid(c) && Sorted(times) && i < |times| && origin <= times[i]
    requires Covered(c, Replay(c, times).bucket, Count(Replay(c, times).admitted[i..]), origin)
    ensures Count(Replay(c, times).admitted[i..]) as real <= c.burst as real + Allowance(c, times[|times| - 1] - origin)
  {
    hide Refill, Allowance, Replay, Count;
    var b, end := Replay(c, times).bucket, times[|times| - 1];
    assert times[i] <= end;
    SpentInThePast(c, times);
    AllowanceZero(c);
    AllowanceGrows(c, 0, end - origin);
    AllowanceGrows(c, b.lastRefill - origin, end - origin);
    if b.lastRefill < origin { AllowanceGrows(c, 0, origin - b.lastRefill); }
  }

  /** At every rate, a window admits at most the burst plus the rate over its length and one
      microsecond less a tick. */
  lemma WindowBound(c: Config, times: seq<int>, i: nat)
    requires Valid(c) && Sorted(times) && i < |times|
    ensures Count(Replay(c, times).admitted[i..]) as real
            <= c.burst as real + Allowance(c, times[|times| - 1] - times[i] + c.ticks - 1)
  {
    var origin := times[i] - (c.ticks - 1);
    PrefixSorted(times, i);
    RefilledInThePast(c, times[..i], times[i]);
    TokensInRange(c, times[..i], times[i]);
    CoveredWhenFull(c, Arrive(c, times[..i], times[i]), origin);
    CoveredSince(c, times, i, origin);
    CoveredBounds(c, times, i, origin);
  }

  lemma PrefixSorted(times: seq<int>, i: nat)
    requires Sorted(times) && i < |times|
    ensures Sorted(times[..i] + [times[i]]) && Sorted(times[..i])
  {
    assert times[..i] + [times[i]] == times[..i + 1];
  }

  /** What accrues in a microsecond less a tick is at most one token. */
  predicate Coarse(c: Config) {
    (c.ticks - 1) as real * c.rate <= c.ticks as real * 1000000.0
  }

  lemma CoarseAllowance(c: Config)
    requires Valid(c)
    ensures Coarse(c) <==> Allowance(c, c.ticks - 1) <= 1.0
  {
    var k, n := c.ticks as real, (c.ticks - 1) as real;
    calc {
      Allowance(c, c.ticks - 1) * (k * 1000000.0);
      n / k / 1000000.0 * c.rate * (k * 1000000.0);
      { assert n / k * k == n; assert n / k / 1000000.0 * 1000000.0 == n / k; }
      n * c.rate;
    }
  }

  /** Below that rate a window admits at most the burst plus the rate over its own length. */
  lemma RateBound(c: Config, times: seq<int>, i: nat)
    requires Valid(c) && Coarse(c) && Sorted(times) && i < |times|
    ensures WithinRate(c, times, Replay(c, times).admitted, i)
  {
    PrefixSorted(times, i);
    CoveredAtOpening(c, times[..i], times[i]);
    CoveredSince(c, times, i, times[i]);
    CoveredBounds(c, times, i, times[i]);
  }

  lemma CoveredAtOpening(c: Config, times: seq<int>, now: int)
    requires Valid(c) && Coarse(c) && Sorted(times + [now])
    ensures Covered(c, Arrive(c, times, now), 0, now)
  {
    hide Allowance, Replay, Coarse, Refill;
    var b := Arrive(c, times, now);
    RefilledInThePast(c, times, now);
    TokensInRange(c, times, now);
    if b.lastRefill == now {
      CoveredWhenFull(c, b, now);
    } else {
      SortedParts(times, now);
      if times == [] {
        RefillCases(c, Bucket(c.burst as real, now), now);
      } else {
        SpentInThePast(c, times);
        RefillCases(c, Replay(c, times).bucket, now);
        CoarseAllowance(c);
        AllowanceGrows(c, now - b.lastRefill, c.ticks - 1);
      }
    }
  }
}
