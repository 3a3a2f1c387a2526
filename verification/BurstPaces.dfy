/** Two more ways in which a limiter stays within its rate although a tick less than a microsecond can
    earn more than one token: its burst is small for that rate. */
module BurstPaces {
  import opened Multiples
  import opened Products
  import opened RateLimiter
  import opened RateTheorems
  import opened RateBounds

  lemma RefillExact(c: Config, b: Bucket, now: int)
    requires Valid(c) && b.lastRefill <= now
    ensures var j := (now - b.lastRefill) / c.ticks;
            && j >= 0
            && (j == 0 ==> Refill(c, b, now) == b && now - b.lastRefill < c.ticks)
            && (j >= 1 ==> Refill(c, b, now) == Bucket(Min(b.tokens + Gain(c, j), c.burst as real), now)
                           && now >= b.lastRefill + c.ticks)
  {
    GainSign(c, (now - b.lastRefill) / c.ticks);
    hide Gain;
  }

  /** One tick already allows all of the burst but one token. */
  predicate Patient(c: Config) {
    c.burst as real - 1.0 <= Allowance(c, 1)
  }

  /** What a microsecond earns beyond all of the burst but one token. */
  function Spare(c: Config): real {
    Gain(c, 1) - (c.burst as real - 1.0)
  }

  predicate InBand(c: Config) {
    0.0 < Spare(c) < 1.0
  }

  /** How many spare parts of a token make a whole one. */
  function Cycle(spare: real): nat
    requires spare > 0.0
  {
    var q := (1.0 / spare).Floor;
    if Times(q as real, spare) >= 1.0 then q else q + 1
  }

  lemma CycleIsLeast(spare: real)
    requires 0.0 < spare < 1.0
    ensures Cycle(spare) >= 2
    ensures Times((Cycle(spare) - 1) as real, spare) < 1.0 <= Times(Cycle(spare) as real, spare)
  {
    var y := 1.0 / spare;
    assert y > 1.0;
    TimesNext(y.Floor as real, 1.0, spare);
    TimesNext((y.Floor - 1) as real, 1.0, spare);
    TimesGrows(y.Floor as real, y, spare);
    TimesGrows(y, y.Floor as real + 1.0, spare);
    TimesOne(spare);
    hide Times;
    assert Times(y, spare) == 1.0;
    assert (y.Floor - 1) as real + 1.0 == y.Floor as real;
    assert (y.Floor + 1) as real == y.Floor as real + 1.0;
  }

  lemma TimesOne(part: real)
    ensures Times(1.0, part) == part && Times(0.0, part) == 0.0
  {
  }

  /** The spare parts of a cycle cover what a microsecond less a tick allows. */
  predicate Cyclic(c: Config) {
    InBand(c) && Allowance(c, c.ticks - 1) <= Times(Cycle(Spare(c)) as real, Spare(c))
  }

  /** The most requests admitted some microseconds after a refill, and the spare parts left. */
  datatype Pace = Pace(whole: nat, residue: nat)

  function PaceAt(c: Config, micros: nat): Pace
    requires Valid(c) && InBand(c)
  {
    if micros == 0 then Pace(c.burst - 1, 0)
    else
      var p := PaceAt(c, micros - 1);
      if p.residue + 1 == Cycle(Spare(c)) then Pace(p.whole + c.burst, 0)
      else Pace(p.whole + c.burst - 1, p.residue + 1)
  }

  function Top(c: Config, micros: nat): real
    requires Valid(c) && InBand(c)
  {
    PaceAt(c, micros).whole as real + Times(PaceAt(c, micros).residue as real, Spare(c))
  }

  lemma {:induction false} ResidueBelow(c: Config, micros: nat)
    requires Valid(c) && InBand(c)
    ensures PaceAt(c, micros).residue < Cycle(Spare(c))
  {
    CycleIsLeast(Spare(c));
    hide Cycle, Spare, Times;
    if micros > 0 { ResidueBelow(c, micros - 1); }
  }

  lemma ResidueParts(c: Config, residue: nat)
    requires Valid(c) && InBand(c) && residue < Cycle(Spare(c))
    ensures 0.0 <= Times(residue as real, Spare(c)) < 1.0
    ensures Times((residue + 1) as real, Spare(c)) == Times(residue as real, Spare(c)) + Spare(c)
  {
    var spare := Spare(c);
    CycleIsLeast(spare);
    TimesOne(spare);
    TimesGrows(0.0, residue as real, spare);
    TimesGrows(residue as real, (Cycle(spare) - 1) as real, spare);
    TimesNext(residue as real, 1.0, spare);
    hide Cycle, Spare, Times;
    assert (residue + 1) as real == residue as real + 1.0;
  }

  /** In one microsecond the pace gains what the microsecond earns or what a full bucket holds. */
  lemma TopNext(c: Config, micros: nat)
    requires Valid(c) && InBand(c)
    ensures Top(c, micros) < PaceAt(c, micros).whole as real + 1.0
    ensures || Top(c, micros + 1) == Top(c, micros) + Gain(c, 1)
            || Top(c, micros + 1) == PaceAt(c, micros).whole as real + c.burst as real
    ensures Top(c, micros) <= Top(c, micros + 1)
    ensures PaceAt(c, micros).whole + c.burst - 1 <= PaceAt(c, micros + 1).whole
  {
    var p := PaceAt(c, micros);
    ResidueBelow(c, micros);
    ResidueParts(c, p.residue);
    TimesOne(Spare(c));
    hide Cycle, Times;
  }

  lemma {:induction false} TopGrows(c: Config, micros: nat, later: nat)
    requires Valid(c) && InBand(c) && micros <= later
    ensures Top(c, micros) <= Top(c, later) && PaceAt(c, micros).whole <= PaceAt(c, later).whole
    decreases later - micros
  {
    if micros < later {
      TopNext(c, micros);
      hide Top, PaceAt;
      TopGrows(c, micros + 1, later);
    }
  }

  lemma WholeBelowTop(c: Config, micros: nat)
    requires Valid(c) && InBand(c)
    ensures PaceAt(c, micros).whole as real <= Top(c, micros)
  {
    ResidueBelow(c, micros);
    ResidueParts(c, PaceAt(c, micros).residue);
    hide Times, Cycle, PaceAt;
  }

  /** A refill after some whole microseconds keeps below the pace. */
  lemma RefillKeepsPace(c: Config, micros: nat, j: nat, later: nat, tokens: real, n: nat)
    requires Valid(c) && InBand(c) && c.burst >= 2 && j >= 1 && micros + j <= later
    requires tokens >= 0.0 && n as real + tokens <= Top(c, micros)
    ensures n as real + Min(tokens + Gain(c, j), c.burst as real) <= Top(c, later)
  {
    TopNext(c, micros);
    TopGrows(c, micros + 1, later);
    hide Gain;
    var p := PaceAt(c, micros);
    assert n <= p.whole;
    if j >= 2 {
      TopNext(c, micros + 1);
      TopGrows(c, micros + 2, later);
      WholeBelowTop(c, micros + 2);
      assert p.whole + c.burst <= PaceAt(c, micros + 2).whole;
    }
    hide Top, PaceAt;
  }

  lemma {:induction false} PaceLags(c: Config, micros: nat)
    requires Valid(c) && InBand(c)
    ensures var p := PaceAt(c, micros);
            var lag := c.burst as real - 1.0 + Gain(c, micros) - p.whole as real;
            && lag >= Times(p.residue as real, Spare(c))
            && (micros >= 1 ==> lag >= Times(Cycle(Spare(c)) as real, Spare(c)) - 1.0)
  {
    var spare := Spare(c);
    CycleIsLeast(spare);
    TimesOne(spare);
    if micros == 0 {
      GainSign(c, 0);
    } else {
      var before := PaceAt(c, micros - 1);
      PaceLags(c, micros - 1);
      GainAdds(c, micros - 1, 1);
      ResidueBelow(c, micros - 1);
      ResidueParts(c, before.residue);
      ResidueParts(c, 0);
      TimesNext((Cycle(spare) - 1) as real, 1.0, spare);
      TimesGrows(1.0, (before.residue + 1) as real, spare);
      hide Times, Cycle, Gain;
    }
  }

  // ----- a window that opens between two refills -----

  /** What holds of a bucket and the requests admitted since a window opened, when its last refill
      before that was at `refilled`. */
  predicate Tracked(c: Config, refilled: int, origin: int, b: Bucket, n: nat)
    requires Valid(c)
  {
    if b.lastRefill < refilled + c.ticks then
      b.lastRefill == refilled && (n as real + b.tokens <= c.burst as real - 1.0 || (n == 0 && b.tokens < 1.0))
    else if Patient(c) then
      Covered(c, b, n, origin)
    else
      InBand(c) && n as real + b.tokens <= Top(c, (b.lastRefill - refilled) / c.ticks)
  }

  lemma TrackedThroughSpend(c: Config, refilled: int, origin: int, b: Bucket, n: nat)
    requires Valid(c) && Tracked(c, refilled, origin, b, n)
    ensures Tracked(c, refilled, origin, Spend(b), n + (if b.tokens >= 1.0 then 1 else 0))
  {
    hide Top, Patient, InBand, Covered;
    if b.lastRefill >= refilled + c.ticks && Patient(c) {
      CoveredThroughSpend(c, b, n, origin);
    }
  }

  lemma FirstRefillCovers(c: Config, origin: int, b: Bucket, n: nat, now: int)
    requires Valid(c) && Patient(c) && b.tokens >= 0.0 && b.lastRefill < origin < now
    requires n as real + b.tokens <= c.burst as real - 1.0 || n == 0
    requires b.lastRefill + c.ticks <= now
    ensures Covered(c, Refill(c, b, now), n, origin)
  {
    RefillExact(c, b, now);
    AllowanceGrows(c, 1, now - origin);
    AllowanceZero(c);
    AllowanceGrows(c, 0, now - origin);
    QuotientIsPositive(now - b.lastRefill, c.ticks);
    hide Allowance, Gain;
  }

  lemma SmallBurstIsPatient(c: Config)
    requires Valid(c) && !Patient(c)
    ensures c.burst >= 2
  {
    AllowanceZero(c);
    AllowanceGrows(c, 0, 1);
  }

  lemma TopStart(c: Config)
    requires Valid(c) && InBand(c)
    ensures Top(c, 0) == c.burst as real - 1.0
  {
    TimesOne(Spare(c));
    hide Times;
  }

  lemma TrackedThroughRefill(c: Config, refilled: int, origin: int, b: Bucket, n: nat, now: int)
    requires Valid(c) && (Patient(c) || InBand(c)) && Tracked(c, refilled, origin, b, n)
    requires b.tokens >= 0.0 && b.lastRefill <= now && refilled < origin < refilled + c.ticks && origin <= now
    ensures Tracked(c, refilled, origin, Refill(c, b, now), n)
  {
    var j := (now - b.lastRefill) / c.ticks;
    RefillExact(c, b, now);
    if j >= 1 {
      if Patient(c) {
        if b.lastRefill == refilled {
          FirstRefillCovers(c, origin, b, n, now);
        } else {
          CoveredThroughRefill(c, b, n, origin, now);
        }
        hide Refill, Covered, Patient;
      } else {
        PaceThroughRefill(c, refilled, origin, b, n, now);
      }
    }
  }

  lemma PaceThroughRefill(c: Config, refilled: int, origin: int, b: Bucket, n: nat, now: int)
    requires Valid(c) && !Patient(c) && InBand(c) && Tracked(c, refilled, origin, b, n)
    requires b.tokens >= 0.0 && b.lastRefill + c.ticks <= now
    ensures Tracked(c, refilled, origin, Refill(c, b, now), n)
  {
    hide Gain, Top, Patient, InBand;
    var micros, j := (b.lastRefill - refilled) / c.ticks, (now - b.lastRefill) / c.ticks;
    var later := (now - refilled) / c.ticks;
    RefillExact(c, b, now);
    SmallBurstIsPatient(c);
    QuotientsAdd(b.lastRefill - refilled, now - b.lastRefill, c.ticks);
    QuotientIsPositive(b.lastRefill - refilled, c.ticks);
    QuotientIsPositive(now - b.lastRefill, c.ticks);
    TopStart(c);
    RefillKeepsPace(c, micros, j, later, b.tokens, n);
  }

  lemma CountNone()
    ensures Count([]) == 0
  {
  }

  lemma LaterInOrder(times: seq<int>, i: nat)
    requires Sorted(times) && i < |times|
    ensures times[i] <= times[|times| - 1]
  {
  }

  lemma ArriveRefills(c: Config, times: seq<int>, now: int)
    requires times != []
    ensures Arrive(c, times, now) == Refill(c, Replay(c, times).bucket, now)
  {
    hide Refill, Replay;
  }

  lemma {:induction false} TrackedSince(c: Config, times: seq<int>, i: nat, refilled: int)
    requires Valid(c) && (Patient(c) || InBand(c)) && Sorted(times) && i < |times|
    requires refilled < times[i] < refilled + c.ticks
    requires Tracked(c, refilled, times[i], Arrive(c, times[..i], times[i]), 0)
    ensures Tracked(c, refilled, times[i], Replay(c, times).bucket, Count(Replay(c, times).admitted[i..]))
    decreases |times|
  {
    hide Refill, Spend, Tracked, Replay, Patient, InBand, Count, Sorted, Arrive;
    var front, last := times[..|times| - 1], times[|times| - 1];
    var before, bucket, ok := Replay(c, front), Arrive(c, front, last), Tokens(c, front, last) >= 1.0;
    assert times == front + [last];
    SortedParts(front, last);
    ReplayAppend(c, front, last);
    CountFrom(before.admitted, ok, i);
    if i == |front| {
      assert times[..i] == front && before.admitted[i..] == [];
      CountNone();
      TrackedThroughSpend(c, refilled, times[i], bucket, 0);
    } else {
      assert front[..i] == times[..i] && front[i] == times[i];
      var n := Count(before.admitted[i..]);
      LaterInOrder(times, i);
      ArriveRefills(c, front, last);
      TrackedSince(c, front, i, refilled);
      SpentInThePast(c, front);
      TrackedThroughRefill(c, refilled, times[i], before.bucket, n, last);
      TrackedThroughSpend(c, refilled, times[i], bucket, n);
    }
  }

  /** Whole microseconds from the last refill before the window cannot outpace the rate. */
  lemma PaceBounds(c: Config, refilled: int, origin: int, last: int, end: int, n: nat)
    requires Valid(c) && Cyclic(c) && origin < refilled + c.ticks <= last <= end
    requires n as real <= Top(c, (last - refilled) / c.ticks)
    ensures n as real <= c.burst as real + Allowance(c, end - origin)
  {
    var d, k := last - refilled, c.ticks;
    var m := d / k;
    QuotientIsPositive(d, k);
    MulDivides(d, k);
    TopNext(c, m);
    PaceLags(c, m);
    AllowanceOfMicroseconds(c, m);
    AllowanceAdds(c, k - 1, Mul(m, k) - (k - 1));
    AllowanceGrows(c, Mul(m, k) - (k - 1), end - origin);
    hide Mul, Top, PaceAt, Allowance, Gain, Times, Cycle, Spare;
    assert n <= PaceAt(c, m).whole;
  }

  lemma AllowanceOfMicroseconds(c: Config, m: nat)
    ensures Allowance(c, Mul(m, c.ticks)) == Gain(c, m)
  {
    assert (m * c.ticks) as real / c.ticks as real == m as real;
  }

  lemma TrackedBounds(c: Config, times: seq<int>, i: nat, refilled: int)
    requires Valid(c) && (Patient(c) || Cyclic(c)) && Sorted(times) && i < |times|
    requires refilled < times[i] < refilled + c.ticks
    requires Tracked(c, refilled, times[i], Replay(c, times).bucket, Count(Replay(c, times).admitted[i..]))
    ensures WithinRate(c, times, Replay(c, times).admitted, i)
  {
    hide Replay, Count, Allowance, Top, Patient, Refill;
    var b, n, end := Replay(c, times).bucket, Count(Replay(c, times).admitted[i..]), times[|times| - 1];
    assert times[i] <= end;
    SpentInThePast(c, times);
    if b.lastRefill < refilled + c.ticks {
      AllowanceZero(c);
      AllowanceGrows(c, 0, end - times[i]);
    } else if Patient(c) {
      CoveredBounds(c, times, i, times[i]);
    } else {
      PaceBounds(c, refilled, times[i], b.lastRefill, end, n);
    }
  }

  /** A limiter with such a burst stays within its rate too. */
  lemma SmallBurstBound(c: Config, times: seq<int>, i: nat)
    requires Valid(c) && (Patient(c) || Cyclic(c)) && Sorted(times) && i < |times|
    ensures WithinRate(c, times, Replay(c, times).admitted, i)
  {
    hide Covered, Replay, Count, Refill, Patient, InBand, Tracked, Allowance, WithinRate;
    var front, now := times[..i], times[i];
    var b := Arrive(c, front, now);
    PrefixSorted(times, i);
    RefilledInThePast(c, front, now);
    TokensInRange(c, front, now);
    if b.lastRefill == now {
      CoveredWhenFull(c, b, now);
      CoveredSince(c, times, i, now);
      CoveredIsWithin(c, times, i);
    } else {
      OpensTracked(c, front, now);
      TrackedSince(c, times, i, b.lastRefill);
      TrackedBounds(c, times, i, b.lastRefill);
    }
  }

  lemma CoveredIsWithin(c: Config, times: seq<int>, i: nat)
    requires Valid(c) && Sorted(times) && i < |times|
    requires Covered(c, Replay(c, times).bucket, Count(Replay(c, times).admitted[i..]), times[i])
    ensures WithinRate(c, times, Replay(c, times).admitted, i)
  {
    hide Replay, Count, Allowance, Covered, Sorted;
    CoveredBounds(c, times, i, times[i]);
  }

  lemma OpensTracked(c: Config, times: seq<int>, now: int)
    requires Valid(c) && Sorted(times + [now]) && Arrive(c, times, now).lastRefill < now
    ensures Tracked(c, Arrive(c, times, now).lastRefill, now, Arrive(c, times, now), 0)
  {
    hide Replay, Patient, InBand, Covered, Top, Gain;
    SortedParts(times, now);
    RefilledInThePast(c, times, now);
    if times == [] {
      RefillExact(c, Bucket(c.burst as real, now), now);
    } else {
      SpentInThePast(c, times);
      RefillExact(c, Replay(c, times).bucket, now);
    }
  }
}
