/** Exactly which limiters admit more than their rate in some window when clock readings are cut to
    microseconds. */
module BurstBounds {
  import opened Multiples
  import opened Products
  import opened RateLimiter
  import opened RateTheorems
  import opened RateBounds
  import opened BurstPaces

  // ----- runs of requests at one instant -----

  function Repeated<T>(x: T, n: nat): (s: seq<T>)
    ensures |s| == n && forall i :: 0 <= i < n ==> s[i] == x
  {
    seq(n, _ => x)
  }

  lemma {:induction false} CountTrue(n: nat)
    ensures Count(Repeated(true, n)) == n
  {
    if n > 0 {
      assert Repeated(true, n) == Repeated(true, n - 1) + [true];
      CountTrue(n - 1);
      CountAppend(Repeated(true, n - 1), true);
    }
  }

  lemma RefillTwice(c: Config, b: Bucket, now: int)
    requires Valid(c) && b.lastRefill <= now < b.lastRefill + c.ticks
    ensures Refill(c, b, now) == b
  {
    assert (now - b.lastRefill) / c.ticks == 0;
    GainSign(c, 0);
  }

  /** A bucket with tokens for n requests admits n requests at one instant. */
  lemma {:induction false} Burst(c: Config, times: seq<int>, now: int, n: nat)
    requires Valid(c) && Sorted(times + [now]) && Tokens(c, times, now) >= n as real
    ensures var b := Arrive(c, times, now);
            Arrive(c, times + Repeated(now, n), now) == b.(tokens := b.tokens - n as real)
    ensures Replay(c, times + Repeated(now, n)).admitted == Replay(c, times).admitted + Repeated(true, n)
    ensures n > 0 ==> Replay(c, times + Repeated(now, n)).bucket == Arrive(c, times + Repeated(now, n), now)
  {
    hide Refill, Replay;
    if n == 0 {
      assert times + Repeated(now, n) == times;
      assert Replay(c, times).admitted + Repeated(true, n) == Replay(c, times).admitted;
    } else {
      var front := times + Repeated(now, n - 1);
      Burst(c, times, now, n - 1);
      assert times + Repeated(now, n) == front + [now];
      ReplayAppend(c, front, now);
      RefilledInThePast(c, times, now);
      RefillTwice(c, Spend(Arrive(c, front, now)), now);
      assert Replay(c, times).admitted + Repeated(true, n)
             == (Replay(c, times).admitted + Repeated(true, n - 1)) + [true];
    }
  }

  lemma SortedLater(times: seq<int>, now: int, n: nat)
    requires Sorted(times) && times != [] && times[|times| - 1] <= now
    ensures Sorted(times + [now]) && Sorted(times + Repeated(now, n))
  {
    assert forall i :: 0 <= i < |times| ==> times[i] <= times[|times| - 1];
  }

  // ----- the greediest run -----

  /** The tokens left, and the requests admitted since the first, by a run that leaves less than a token
      unspent just before the first microsecond is over and at every microsecond after it. */
  datatype Greed = Greed(rest: real, admitted: nat)

  function Filled(c: Config, g: Greed): real {
    Min(g.rest + Gain(c, 1), c.burst as real)
  }

  function GreedAt(c: Config, micros: nat): (g: Greed)
    requires Valid(c)
    ensures 0.0 <= g.rest < 1.0
  {
    if micros == 0 then Greed(0.0, c.burst - 1)
    else
      var before := GreedAt(c, micros - 1);
      GainSign(c, 1);
      var y := Filled(c, before);
      Greed(y - y.Floor as real, before.admitted + y.Floor)
  }

  function GreedyTimes(c: Config, micros: nat): seq<int>
    requires Valid(c)
  {
    if micros == 0 then [0] + Repeated(c.ticks - 1, c.burst - 1)
    else
      GainSign(c, 1);
      GreedyTimes(c, micros - 1) + Repeated(Mul(micros, c.ticks), Filled(c, GreedAt(c, micros - 1)).Floor)
  }

  lemma FirstRequest(c: Config)
    requires Valid(c)
    ensures var r := Replay(c, [0]); r.bucket == Bucket(c.burst as real - 1.0, 0) && r.admitted == [true]
  {
    var none: seq<int> := [];
    assert none + [0] == [0];
    ReplayAppend(c, none, 0);
    GainSign(c, 0);
    hide Gain;
    assert Arrive(c, none, 0) == Bucket(c.burst as real, 0);
  }

  /** Before the first microsecond is over the tokens left are spent and nothing is refilled. */
  lemma GreedyStart(c: Config)
    requires Valid(c) && c.burst >= 2
    ensures var times := GreedyTimes(c, 0);
            && Sorted(times) && |times| == c.burst && times[1] == times[|times| - 1] == c.ticks - 1
            && Replay(c, times) == Replayed(Bucket(0.0, 0), Repeated(true, c.burst))
  {
    hide Replay, Refill;
    SortedLater([0], c.ticks - 1, c.burst - 1);
    FirstRequest(c);
    RefillTwice(c, Replay(c, [0]).bucket, c.ticks - 1);
    Burst(c, [0], c.ticks - 1, c.burst - 1);
    assert [true] + Repeated(true, c.burst - 1) == Repeated(true, c.burst);
  }

  lemma NextMicrosecond(c: Config, micros: nat, tokens: real)
    requires Valid(c)
    ensures Mul(micros + 1, c.ticks) == Mul(micros, c.ticks) + c.ticks
    ensures Refill(c, Bucket(tokens, Mul(micros, c.ticks)), Mul(micros + 1, c.ticks))
            == Bucket(Min(tokens + Gain(c, 1), c.burst as real), Mul(micros + 1, c.ticks))
  {
    MulAdds(micros, 1, c.ticks);
    MulZero(c.ticks);
    QuotientOfMultiple(1, c.ticks);
    RefillExact(c, Bucket(tokens, Mul(micros, c.ticks)), Mul(micros + 1, c.ticks));
    hide Mul, Gain, Refill;
  }

  /** The greediest run is admitted whole, and leaves its rest in the bucket. */
  ghost predicate Replays(c: Config, times: seq<int>, g: Greed, last: int, refilled: int)
    requires Valid(c)
  {
    && Sorted(times) && |times| == g.admitted + 1 >= 2 && times[1] == c.ticks - 1 && times[|times| - 1] == last
    && Replay(c, times) == Replayed(Bucket(g.rest, refilled), Repeated(true, g.admitted + 1))
  }

  lemma GreedyReplaysNext(c: Config, front: seq<int>, g: Greed, last: int, micros: nat)
    requires Valid(c) && Gain(c, 1) >= 1.0 && 0.0 <= g.rest
    requires Replays(c, front, g, last, Mul(micros, c.ticks)) && last <= Mul(micros + 1, c.ticks)
    ensures var y, now := Filled(c, g), Mul(micros + 1, c.ticks);
            && y.Floor >= 1
            && Replays(c, front + Repeated(now, y.Floor), Greed(y - y.Floor as real, g.admitted + y.Floor), now, now)
  {
    hide Replay, Refill, Sorted, Gain, Mul, Repeated;
    NextMicrosecond(c, micros, g.rest);
    FilledIsWhole(c, g);
    GreedyStep(c, front, Mul(micros + 1, c.ticks), Filled(c, g), g.admitted + 1);
  }

  lemma GreedyReplaysStart(c: Config)
    requires Valid(c) && c.burst >= 2
    ensures Replays(c, GreedyTimes(c, 0), GreedAt(c, 0), c.ticks - 1, 0)
  {
    GreedyStart(c);
    hide Replay, Gain;
  }

  /** The time of the run's last request. */
  function LastTime(c: Config, micros: nat): int {
    if micros == 0 then c.ticks - 1 else Mul(micros, c.ticks)
  }

  lemma LastTimeGrows(c: Config, micros: nat)
    ensures LastTime(c, micros) <= LastTime(c, micros + 1) == Mul(micros + 1, c.ticks)
    ensures Mul(0, c.ticks) == 0
  {
    MulZero(c.ticks);
    MulAdds(micros, 1, c.ticks);
    hide Mul;
  }

  lemma {:induction false} GreedyReplays(c: Config, micros: nat)
    requires Valid(c) && c.burst >= 2 && Gain(c, 1) >= 1.0
    ensures Replays(c, GreedyTimes(c, micros), GreedAt(c, micros), LastTime(c, micros), Mul(micros, c.ticks))
  {
    hide Replays, Gain, Mul, Repeated, GreedAt, GreedyTimes, Filled, LastTime;
    if micros == 0 {
      GreedyReplaysStart(c);
      LastTimeGrows(c, 0);
      LastTimeStart(c);
    } else {
      var before := GreedAt(c, micros - 1);
      GreedyReplays(c, micros - 1);
      LastTimeGrows(c, micros - 1);
      FilledIsWhole(c, before);
      GreedyReplaysNext(c, GreedyTimes(c, micros - 1), before, LastTime(c, micros - 1), micros - 1);
      GreedyUnfolds(c, micros);
    }
  }

  lemma LastTimeStart(c: Config)
    ensures LastTime(c, 0) == c.ticks - 1
  {
  }

  lemma GreedyUnfolds(c: Config, micros: nat)
    requires Valid(c) && micros >= 1 && Filled(c, GreedAt(c, micros - 1)) >= 1.0
    ensures var before := GreedAt(c, micros - 1);
            var y := Filled(c, before);
            && y.Floor >= 1
            && GreedAt(c, micros) == Greed(y - y.Floor as real, before.admitted + y.Floor)
            && GreedyTimes(c, micros) == GreedyTimes(c, micros - 1) + Repeated(Mul(micros, c.ticks), y.Floor)
  {
    hide Mul, Repeated, Gain;
  }

  /** One more microsecond: as many requests as there are whole tokens. */
  lemma GreedyStep(c: Config, front: seq<int>, now: int, tokens: real, n: nat)
    requires Valid(c) && Sorted(front) && |front| == n >= 2 && front[n - 1] <= now && tokens >= 1.0
    requires Replay(c, front).admitted == Repeated(true, n)
    requires Refill(c, Replay(c, front).bucket, now) == Bucket(tokens, now)
    ensures tokens.Floor >= 1
    ensures var k := tokens.Floor;
            var times := front + Repeated(now, k);
            && Sorted(times) && |times| == n + k && times[1] == front[1] && times[n + k - 1] == now
            && Replay(c, times) == Replayed(Bucket(tokens - k as real, now), Repeated(true, n + k))
  {
    hide Replay, Refill;
    var k := tokens.Floor;
    SortedLater(front, now, k);
    hide Sorted;
    Burst(c, front, now, k);
    assert Repeated(true, n) + Repeated(true, k) == Repeated(true, n + k);
  }

  lemma FilledIsWhole(c: Config, g: Greed)
    requires Valid(c) && Gain(c, 1) >= 1.0 && 0.0 <= g.rest
    ensures Filled(c, g) >= 1.0 && Filled(c, g).Floor >= 1
  {
    hide Gain;
  }

  /** What the greediest run leaves unspent of what it could have had. */
  function Lag(c: Config, micros: nat): real
    requires Valid(c)
  {
    c.burst as real - 1.0 + Gain(c, micros) - GreedAt(c, micros).admitted as real
  }

  /** The window that opens with the second request is overfilled when the run leaves less than what a
      microsecond less a tick earns beyond one token. */
  lemma GreedExceeds(c: Config, micros: nat)
    requires Valid(c) && c.burst >= 2 && Gain(c, 1) >= 1.0 && micros >= 1
    requires Lag(c, micros) < Allowance(c, c.ticks - 1) - 1.0
    ensures var times := GreedyTimes(c, micros);
            Sorted(times) && |times| > 1 && !WithinRate(c, times, Replay(c, times).admitted, 1)
  {
    hide Replay, Gain, Allowance, GreedyTimes, GreedAt, Count, Sorted, Mul;
    var n := GreedAt(c, micros).admitted;
    GreedyReplays(c, micros);
    assert Repeated(true, n + 1)[1..] == Repeated(true, n);
    CountTrue(n);
    AllowanceOfMicroseconds(c, micros);
    AllowanceAdds(c, c.ticks - 1, Mul(micros, c.ticks) - (c.ticks - 1));
  }

  // ----- where the greediest run exceeds the rate -----

  lemma FastEarnsAToken(c: Config)
    requires Valid(c) && !Coarse(c)
    ensures Gain(c, 1) >= 1.0 && Allowance(c, c.ticks - 1) > 1.0
    ensures Allowance(c, c.ticks - 1) + Allowance(c, 1) == Gain(c, 1)
  {
    CoarseAllowance(c);
    MulZero(c.ticks);
    AllowanceOfMicroseconds(c, 1);
    AllowanceAdds(c, c.ticks - 1, 1);
    AllowanceZero(c);
    AllowanceGrows(c, 0, 1);
    hide Allowance, Gain, Coarse, Mul;
  }

  /** A microsecond fills the bucket: two fills with only a tick between them are too much. */
  lemma FullFillExceeds(c: Config)
    requires Valid(c) && !Coarse(c) && !Patient(c) && Spare(c) >= 1.0
    ensures c.burst >= 2 && Gain(c, 1) >= 1.0 && Lag(c, 1) < Allowance(c, c.ticks - 1) - 1.0
  {
    SmallBurstIsPatient(c);
    FastEarnsAToken(c);
    var start := GreedAt(c, 0);
    assert start == Greed(0.0, c.burst - 1);
    assert Filled(c, start) == c.burst as real;
    hide Gain, Allowance, Coarse;
    assert GreedAt(c, 1).admitted == c.burst - 1 + c.burst;
  }

  /** While the bucket never fills, nothing is lost but the rest. */
  lemma {:induction false} UnfilledLag(c: Config, micros: nat)
    requires Valid(c) && Spare(c) <= 0.0
    ensures Lag(c, micros) == GreedAt(c, micros).rest
  {
    if micros == 0 {
      GainSign(c, 0);
    } else {
      UnfilledLag(c, micros - 1);
      GainAdds(c, micros - 1, 1);
      GainSign(c, 1);
      hide Gain;
    }
  }

  lemma GainOfMultiple(c: Config, m: nat, part: int, rest: real)
    requires Multiple(Gain(c, 1), m, part, rest)
    ensures Gain(c, m) == part as real + rest
  {
    assert m as real / 1000000.0 == m as real * (1.0 / 1000000.0);
  }

  /** After some number of microseconds the rest is below any limit. */
  lemma LargeBurstExceeds(c: Config) returns (m: nat)
    requires Valid(c) && !Coarse(c) && !Patient(c) && Spare(c) <= 0.0
    ensures c.burst >= 2 && Gain(c, 1) >= 1.0 && m >= 1 && Lag(c, m) < Allowance(c, c.ticks - 1) - 1.0
  {
    SmallBurstIsPatient(c);
    FastEarnsAToken(c);
    var g, limit := Gain(c, 1), Allowance(c, c.ticks - 1) - 1.0;
    var part, rest;
    hide Gain, Allowance, Coarse, Multiple;
    m, part, rest := NearlyWhole(g, limit);
    GainOfMultiple(c, m, part, rest);
    UnfilledLag(c, m);
    SameRest(GreedAt(c, m).rest, GreedAt(c, m).admitted - (c.burst - 1), rest, part);
  }

  lemma NearlyWhole(g: real, limit: real) returns (m: nat, part: int, rest: real)
    requires limit > 0.0
    ensures m >= 1 && Multiple(g, m, part, rest) && 0.0 <= rest < limit && rest < 1.0
  {
    var k := Above(1.0, limit);
    m, part, rest := SmallRest(g, limit, 1, g.Floor, g - g.Floor as real, k);
  }

  lemma SameRest(x: real, a: int, y: real, b: int)
    requires 0.0 <= x < 1.0 && 0.0 <= y < 1.0 && a as real + x == b as real + y
    ensures x == y
  {
    assert a >= b + 1 ==> a as real >= b as real + 1.0;
    assert b >= a + 1 ==> b as real >= a as real + 1.0;
  }

  /** Spare parts of a token add up until a microsecond fills the bucket. */
  lemma {:induction false} SpareAddsUp(c: Config, micros: nat)
    requires Valid(c) && InBand(c) && c.burst >= 2 && micros < Cycle(Spare(c))
    ensures GreedAt(c, micros).rest == Times(micros as real, Spare(c)) == Lag(c, micros)
  {
    var spare := Spare(c);
    if micros == 0 {
      GainSign(c, 0);
      TimesOne(spare);
    } else {
      var before := GreedAt(c, micros - 1);
      SpareAddsUp(c, micros - 1);
      ResidueParts(c, micros - 1);
      ResidueParts(c, micros);
      GainAdds(c, micros - 1, 1);
      hide Gain, Times, Cycle;
      assert Filled(c, before) == Times(micros as real, spare) + (c.burst - 1) as real;
      assert Filled(c, before).Floor == c.burst - 1;
    }
  }

  lemma CycleExceeds(c: Config) returns (m: nat)
    requires Valid(c) && !Coarse(c) && !Patient(c) && InBand(c) && !Cyclic(c)
    ensures c.burst >= 2 && Gain(c, 1) >= 1.0 && m >= 1 && Lag(c, m) < Allowance(c, c.ticks - 1) - 1.0
  {
    hide Gain, Times, Cycle, Allowance, Coarse, Patient;
    SmallBurstIsPatient(c);
    FastEarnsAToken(c);
    var spare := Spare(c);
    CycleIsLeast(spare);
    m := Cycle(spare);
    SpareAddsUp(c, m - 1);
    TimesNext((m - 1) as real, 1.0, spare);
    GainAdds(c, m - 1, 1);
    assert (m - 1) as real + 1.0 == m as real;
    assert Filled(c, GreedAt(c, m - 1)) == c.burst as real;
    assert GreedAt(c, m).admitted == GreedAt(c, m - 1).admitted + c.burst;
  }

  // ----- the exact condition -----

  /** Every window of every run of requests stays within the rate. */
  ghost predicate AlwaysWithin(c: Config)
    requires Valid(c)
  {
    forall times, i: nat :: Sorted(times) && i < |times| ==> WithinRate(c, times, Replay(c, times).admitted, i)
  }

  lemma Exceeding(c: Config) returns (times: seq<int>)
    requires Valid(c) && !Coarse(c) && !Patient(c) && !Cyclic(c)
    ensures Sorted(times) && |times| > 1 && !WithinRate(c, times, Replay(c, times).admitted, 1)
  {
    hide Coarse, Patient, Lag, WithinRate, Sorted, Replay, Allowance;
    var m := 1;
    if Spare(c) >= 1.0 {
      FullFillExceeds(c);
    } else if Spare(c) <= 0.0 {
      m := LargeBurstExceeds(c);
    } else {
      m := CycleExceeds(c);
    }
    hide Spare, InBand, Cyclic;
    GreedExceeds(c, m);
    times := GreedyTimes(c, m);
  }

  /** A limiter whose clock readings are cut to microseconds stays within its rate in every window if
      and only if less than a microsecond never earns more than one token, or one tick already allows
      all of the burst but one token, or the spare part of what a microsecond earns wastes enough. */
  lemma WithinRateExactly(c: Config)
    requires Valid(c)
    ensures AlwaysWithin(c) <==> Coarse(c) || Patient(c) || Cyclic(c)
  {
    hide Coarse, Patient, Cyclic, WithinRate, Sorted, Replay;
    if Coarse(c) || Patient(c) || Cyclic(c) {
      forall times, i: nat | Sorted(times) && i < |times|
        ensures WithinRate(c, times, Replay(c, times).admitted, i)
      {
        if Coarse(c) { RateBound(c, times, i); } else { SmallBurstBound(c, times, i); }
      }
    } else {
      var times := Exceeding(c);
    }
  }

  /** No condition follows from the others: each of three settings meets one of them alone. */
  lemma EachConditionAlone()
    ensures var c := Config(1.0, 100, 2); Coarse(c) && !Patient(c) && !Cyclic(c)
    ensures var c := Config(10000000.0, 2, 3); !Coarse(c) && Patient(c) && !Cyclic(c)
    ensures var c := Config(2300000.0, 3, 2); !Coarse(c) && !Patient(c) && Cyclic(c)
  {
    assert Spare(Config(1.0, 100, 2)) < 0.0;
    assert Spare(Config(10000000.0, 2, 3)) == 9.0;
    var c := Config(2300000.0, 3, 2);
    assert Spare(c) == 0.3 && (1.0 / 0.3).Floor == 3;
    assert Times(3.0, 0.3) == 0.9 && Times(4.0, 0.3) == 1.2;
    assert Allowance(c, 1) == 1.15;
  }

  /** On a clock of nanoseconds, two million requests a second with a burst of three exceed their rate. */
  lemma NanosecondsExceed()
    ensures !AlwaysWithin(Config(2000000.0, 3, 1000))
  {
    var c := Config(2000000.0, 3, 1000);
    assert Spare(c) == 0.0 && Allowance(c, 1) == 0.002;
    WithinRateExactly(c);
  }

  /** A burst of one is always within the rate; one above what a microsecond earns is so only if less
      than a microsecond never earns more than one token. */
  lemma SmallestAndLargeBursts(c: Config)
    requires Valid(c)
    ensures c.burst == 1 ==> AlwaysWithin(c)
    ensures c.burst as real >= 1.0 + Gain(c, 1) ==> (AlwaysWithin(c) <==> Coarse(c))
  {
    WithinRateExactly(c);
    AllowanceZero(c);
    AllowanceGrows(c, 0, 1);
    if !Coarse(c) { FastEarnsAToken(c); }
    hide AlwaysWithin, Coarse, Allowance, Gain;
  }

  /** For a rate and a clock, limiters of every burst stay within the rate if and only if less than a
      microsecond never earns more than one token. */
  lemma WithinRateExactlyWhenCoarse(rate: real, ticks: Ticks)
    requires rate > 0.0
    ensures (forall burst: nat :: burst >= 1 ==> AlwaysWithin(Config(rate, burst, ticks)))
            <==> (ticks - 1) as real * rate <= ticks as real * 1000000.0
  {
    if (ticks - 1) as real * rate <= ticks as real * 1000000.0 {
      forall burst: nat | burst >= 1
        ensures AlwaysWithin(Config(rate, burst, ticks))
      {
        WithinRateExactly(Config(rate, burst, ticks));
      }
    } else {
      var g := Gain(Config(rate, 1, ticks), 1);
      GainSign(Config(rate, 1, ticks), 1);
      var c := Config(rate, g.Floor + 2, ticks);
      assert Gain(c, 1) == g;
      hide AlwaysWithin, Gain;
      SmallestAndLargeBursts(c);
    }
  }
}
