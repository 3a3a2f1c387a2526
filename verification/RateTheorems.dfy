/** What the token bucket admits, over every sequence of requests to a key since its last reset. */
module RateTheorems {
  import opened RateLimiter

  datatype Replayed = Replayed(bucket: Bucket, admitted: seq<bool>)

  /** The bucket and the decisions after requests at the given times. */
  function Replay(c: Config, times: seq<int>): (r: Replayed)
    ensures |r.admitted| == |times|
  {
    if times == [] then Replayed(Bucket(c.burst as real, 0), [])
    else
      var before, now := Replay(c, times[..|times| - 1]), times[|times| - 1];
      var start := if |times| == 1 then Bucket(c.burst as real, now) else before.bucket;
      var bucket := Refill(c, start, now);
      Replayed(Spend(bucket), before.admitted + [bucket.tokens >= 1.0])
  }

  /** The refilled bucket that one more request finds. */
  function Arrive(c: Config, times: seq<int>, now: int): Bucket {
    Refill(c, if times == [] then Bucket(c.burst as real, now) else Replay(c, times).bucket, now)
  }

  function Tokens(c: Config, times: seq<int>, now: int): real {
    Arrive(c, times, now).tokens
  }

  predicate Sorted(times: seq<int>) {
    forall i, j :: 0 <= i < j < |times| ==> times[i] <= times[j]
  }

  function Count(admitted: seq<bool>): nat {
    if admitted == [] then 0 else Count(admitted[..|admitted| - 1]) + (if admitted[|admitted| - 1] then 1 else 0)
  }

  lemma ReplayAppend(c: Config, times: seq<int>, now: int)
    ensures Replay(c, times + [now]).bucket == Spend(Arrive(c, times, now))
    ensures Replay(c, times + [now]).admitted == Replay(c, times).admitted + [Tokens(c, times, now) >= 1.0]
  {
    hide Spend, Refill;
    var all := times + [now];
    assert all[..|all| - 1] == times && all[|all| - 1] == now;
  }

  lemma CountAppend(admitted: seq<bool>, ok: bool)
    ensures Count(admitted + [ok]) == Count(admitted) + (if ok then 1 else 0)
  {
    var all := admitted + [ok];
    assert all[..|all| - 1] == admitted;
  }

  lemma CountFrom(admitted: seq<bool>, ok: bool, i: nat)
    requires i <= |admitted|
    ensures Count((admitted + [ok])[i..]) == Count(admitted[i..]) + (if ok then 1 else 0)
  {
    assert (admitted + [ok])[i..] == admitted[i..] + [ok];
    CountAppend(admitted[i..], ok);
  }

  lemma GainAdds(c: Config, a: int, b: int)
    ensures Gain(c, a + b) == Gain(c, a) + Gain(c, b)
  {
    var x, y := a as real / 1000000.0, b as real / 1000000.0;
    assert (a + b) as real / 1000000.0 == x + y;
    assert (x + y) * c.rate == x * c.rate + y * c.rate;
  }

  lemma GainSign(c: Config, a: int)
    requires c.rate > 0.0
    ensures a > 0 <==> Gain(c, a) > 0.0
    ensures a == 0 ==> Gain(c, a) == 0.0
  {
    var x := a as real / 1000000.0;
    if a > 0 { assert x > 0.0 && x * c.rate > 0.0; }
    if a <= 0 { assert x <= 0.0 && x * c.rate <= 0.0; }
  }

  lemma {:induction false} TokensInRange(c: Config, times: seq<int>, now: int)
    requires Valid(c)
    ensures 0.0 <= Tokens(c, times, now) <= c.burst as real
    decreases |times|
  {
    if times != [] {
      var front, last := times[..|times| - 1], times[|times| - 1];
      TokensInRange(c, front, last);
      assert times == front + [last];
      ReplayAppend(c, front, last);
    }
  }

  // ----- a clock that ticks in microseconds: exact -----

  /** What the window opened by request i still allows at an instant. */
  function Window(c: Config, times: seq<int>, admitted: seq<bool>, i: nat, now: int): real
    requires i < |times| == |admitted|
  {
    c.burst as real + Gain(c, now - times[i]) - Count(admitted[i..]) as real
  }

  /** The least of the burst and of all windows from i on. */
  function Least(c: Config, times: seq<int>, admitted: seq<bool>, i: nat, now: int): real
    requires i <= |times| == |admitted|
    decreases |times| - i
  {
    if i == |times| then c.burst as real
    else Min(Window(c, times, admitted, i, now), Least(c, times, admitted, i + 1, now))
  }

  lemma WindowShifts(c: Config, times: seq<int>, admitted: seq<bool>, last: int, ok: bool, i: nat, now: int)
    requires i < |times| == |admitted|
    ensures Window(c, times + [last], admitted + [ok], i, now)
            == Window(c, times, admitted, i, last) + Gain(c, now - last) - (if ok then 1.0 else 0.0)
  {
    hide Gain, Count;
    CountFrom(admitted, ok, i);
    GainAdds(c, last - times[i], now - last);
  }

  lemma WindowOpens(c: Config, times: seq<int>, admitted: seq<bool>, last: int, ok: bool, now: int)
    requires |times| == |admitted|
    ensures Window(c, times + [last], admitted + [ok], |times|, now)
            == c.burst as real + Gain(c, now - last) - (if ok then 1.0 else 0.0)
  {
    hide Gain;
    CountFrom(admitted, ok, |times|);
    assert admitted[|times|..] == [];
  }

  /** One more request moves every window by the time gained and the token spent. */
  lemma {:induction false} LeastShifts(c: Config, times: seq<int>, admitted: seq<bool>, last: int, ok: bool,
                                       i: nat, now: int)
    requires i <= |times| == |admitted|
    ensures Least(c, times + [last], admitted + [ok], i, now)
            == Min(c.burst as real,
                   Least(c, times, admitted, i, last) + Gain(c, now - last) - (if ok then 1.0 else 0.0))
    decreases |times| - i
  {
    hide Gain, Window;
    if i == |times| {
      WindowOpens(c, times, admitted, last, ok, now);
    } else {
      LeastShifts(c, times, admitted, last, ok, i + 1, now);
      WindowShifts(c, times, admitted, last, ok, i, now);
    }
  }

  lemma SortedParts(times: seq<int>, now: int)
    requires Sorted(times + [now])
    ensures Sorted(times) && (times != [] ==> times[|times| - 1] <= now)
  {
    var all := times + [now];
    forall i, j | 0 <= i < j < |times| ensures times[i] <= times[j] { assert all[i] <= all[j]; }
    if times != [] { assert all[|times| - 1] <= all[|times|]; }
  }

  lemma {:induction false} LastRefillIsLast(c: Config, times: seq<int>, now: int)
    requires Valid(c) && c.ticks == 1 && Sorted(times + [now])
    ensures Arrive(c, times, now).lastRefill == now
    decreases |times|
  {
    hide Replay, Gain;
    SortedParts(times, now);
    if times != [] {
      var front, last := times[..|times| - 1], times[|times| - 1];
      assert times == front + [last];
      LastRefillIsLast(c, front, last);
      ReplayAppend(c, front, last);
      GainSign(c, now - last);
    }
  }

  lemma TokensStep(c: Config, times: seq<int>, last: int, now: int)
    requires Valid(c) && c.ticks == 1 && Sorted(times + [last]) && last <= now
    ensures var ok := Tokens(c, times, last) >= 1.0;
            Tokens(c, times + [last], now)
            == Min(c.burst as real, Tokens(c, times, last) + Gain(c, now - last) - (if ok then 1.0 else 0.0))
  {
    hide Replay, Gain;
    LastRefillIsLast(c, times, last);
    ReplayAppend(c, times, last);
    TokensInRange(c, times, last);
    GainSign(c, now - last);
  }

  /** With a clock that ticks in microseconds, the bucket holds exactly the least that the burst and
      any window since the last reset still allow. */
  lemma {:induction false} TokensAreLeastWindow(c: Config, times: seq<int>, now: int)
    requires Valid(c) && c.ticks == 1 && Sorted(times + [now])
    ensures Tokens(c, times, now) == Least(c, times, Replay(c, times).admitted, 0, now)
    decreases |times|
  {
    SortedParts(times, now);
    if times == [] {
      GainSign(c, 0);
    } else {
      hide Replay, Gain, Tokens, Least;
      var front, last := times[..|times| - 1], times[|times| - 1];
      assert times == front + [last];
      TokensAreLeastWindow(c, front, last);
      TokensStep(c, front, last, now);
      ReplayAppend(c, front, last);
      LeastShifts(c, front, Replay(c, front).admitted, last, Tokens(c, front, last) >= 1.0, 0, now);
    }
  }

  lemma {:induction false} LeastBelow(c: Config, times: seq<int>, admitted: seq<bool>, i: nat, now: int, x: real)
    requires i <= |times| == |admitted| && x <= c.burst as real
    ensures Least(c, times, admitted, i, now) < x
            <==> exists k :: i <= k < |times| && Window(c, times, admitted, k, now) < x
    decreases |times| - i
  {
    hide Window;
    if i < |times| {
      LeastBelow(c, times, admitted, i + 1, now, x);
    }
  }

  /** Admitting the last request would put the window opened by request i above the burst plus what
      the rate allows over its length. */
  predicate OverWindow(c: Config, times: seq<int>, admitted: seq<bool>, i: nat)
    requires i < |times| == |admitted|
  {
    var n := |times| - 1;
    Count(admitted[i..n]) as real + 1.0 > c.burst as real + Gain(c, times[n] - times[i])
  }

  lemma OverWindowIsBelowOne(c: Config, times: seq<int>, admitted: seq<bool>, now: int, ok: bool, i: nat)
    requires i < |times| == |admitted|
    ensures OverWindow(c, times + [now], admitted + [ok], i) <==> Window(c, times, admitted, i, now) < 1.0
  {
    hide Gain, Count;
    assert (admitted + [ok])[i..|times|] == admitted[i..];
  }

  lemma OwnWindowFits(c: Config, times: seq<int>, admitted: seq<bool>, now: int, ok: bool)
    requires |times| == |admitted| && Valid(c)
    ensures !OverWindow(c, times + [now], admitted + [ok], |times|)
  {
    GainSign(c, 0);
    assert (admitted + [ok])[|times|..|times|] == [];
  }

  /** A request is denied if and only if admitting it would overfill some window that starts at this
      or at an earlier request since the key's last reset. */
  lemma DeniedExactlyWhenOverWindow(c: Config, times: seq<int>, now: int)
    requires Valid(c) && c.ticks == 1 && Sorted(times + [now])
    ensures var r := Replay(c, times + [now]);
            !r.admitted[|times|] <==> exists i :: 0 <= i <= |times| && OverWindow(c, times + [now], r.admitted, i)
  {
    hide Replay, Gain, Count, Least, Window, OverWindow, Tokens, Sorted, Refill, Spend, Arrive;
    var before, ok := Replay(c, times).admitted, Tokens(c, times, now) >= 1.0;
    ReplayAppend(c, times, now);
    TokensAreLeastWindow(c, times, now);
    LeastBelow(c, times, before, 0, now, 1.0);
    OwnWindowFits(c, times, before, now, ok);
    forall i | 0 <= i < |times|
      ensures OverWindow(c, times + [now], before + [ok], i) <==> Window(c, times, before, i, now) < 1.0
    {
      OverWindowIsBelowOne(c, times, before, now, ok, i);
    }
  }

  // ----- many keys -----

  /** The times of the requests to a key since it was last reset. */
  function SinceReset(ops: seq<Op>, key: string): seq<int> {
    if ops == [] then []
    else
      var before := SinceReset(ops[..|ops| - 1], key);
      match ops[|ops| - 1]
      case Allow(k, now) => if k == key then before + [now] else before
      case Reset(k) => if k == key then [] else before
      case Clear => []
  }

  lemma {:induction false} KeyIsReplay(c: Config, ops: seq<Op>, key: string)
    ensures key in Run(c, ops) <==> SinceReset(ops, key) != []
    ensures key in Run(c, ops) ==> Run(c, ops)[key] == Replay(c, SinceReset(ops, key)).bucket
  {
    if ops != [] {
      var front, op := ops[..|ops| - 1], ops[|ops| - 1];
      KeyIsReplay(c, front, key);
      if op.Allow? && op.key == key {
        ReplayAppend(c, SinceReset(front, key), op.now);
      }
      hide Refill, Spend, Replay;
    }
  }

  /** Whatever happens to other keys, a key finds the bucket of its own requests since its reset. */
  lemma KeyFindsOwnBucket(c: Config, ops: seq<Op>, key: string, now: int)
    ensures Current(c, Run(c, ops), key, now) == Arrive(c, SinceReset(ops, key), now)
  {
    hide Refill, Replay, Run;
    KeyIsReplay(c, ops, key);
  }

  /** The limiter denies a request, and its limit check says no, exactly when admitting it would
      overfill a window that starts at this or an earlier request since the key's last reset. */
  lemma LimiterDeniesExactlyWhenOverWindow(c: Config, ops: seq<Op>, key: string, now: int)
    requires Valid(c) && c.ticks == 1 && Sorted(SinceReset(ops, key) + [now])
    ensures var times := SinceReset(ops, key);
            !Grants(c, Run(c, ops), key, now) <==>
              exists i :: 0 <= i <= |times| &&
                OverWindow(c, times + [now], Replay(c, times + [now]).admitted, i)
  {
    hide Replay, Refill, OverWindow;
    var times := SinceReset(ops, key);
    KeyFindsOwnBucket(c, ops, key, now);
    ReplayAppend(c, times, now);
    DeniedExactlyWhenOverWindow(c, times, now);
  }

  /** The same instant, n times. */
  function AtOnce(n: nat, now: int): seq<int> {
    seq(n, _ => now)
  }

  /** What n requests at one instant leave of a full bucket. */
  function Left(c: Config, n: nat, now: int): Bucket {
    Bucket(if n <= c.burst then (c.burst - n) as real else 0.0, now)
  }

  lemma SpendOne(c: Config, n: nat, now: int)
    requires n >= 1
    ensures Spend(Left(c, n - 1, now)) == Left(c, n, now)
    ensures Left(c, n - 1, now).tokens >= 1.0 <==> n <= c.burst
  {
    if n <= c.burst { assert (c.burst - (n - 1)) as real == (c.burst - n) as real + 1.0; }
  }

  lemma SameInstant(c: Config, b: Bucket)
    ensures Refill(c, b, b.lastRefill) == b
  {
    assert (b.lastRefill - b.lastRefill) / c.ticks == 0;
  }

  lemma AtOnceNext(n: nat, now: int)
    requires n >= 1
    ensures AtOnce(n, now) == AtOnce(n - 1, now) + [now] && (AtOnce(n - 1, now) == [] <==> n == 1)
  {
  }

  lemma {:induction false} BurstIsSpent(c: Config, n: nat, now: int)
    requires Valid(c)
    ensures var r := Replay(c, AtOnce(n, now));
            && (n >= 1 ==> r.bucket == Left(c, n, now))
            && Count(r.admitted) == if n <= c.burst then n else c.burst
  {
    if n >= 1 {
      hide Replay, Refill, AtOnce, Spend, Left;
      AtOnceNext(n, now);
      BurstIsSpent(c, n - 1, now);
      var front := AtOnce(n - 1, now);
      FullBucket(c, now);
      SameInstant(c, Left(c, n - 1, now));
      ReplayAppend(c, front, now);
      SpendOne(c, n, now);
      assert Left(c, n - 1, now).lastRefill == now by { LeftIsNow(c, n - 1, now); }
      assert Arrive(c, front, now) == Left(c, n - 1, now);
      CountAppend(Replay(c, front).admitted, n <= c.burst);
    }
  }

  lemma FullBucket(c: Config, now: int)
    ensures Left(c, 0, now) == Bucket(c.burst as real, now)
  {
  }

  lemma LeftIsNow(c: Config, n: nat, now: int)
    ensures Left(c, n, now).lastRefill == now
  {
  }

  /** Of requests at one instant a new limiter admits as many as its burst, and in each second it earns its
      rate; settings that are not positive stand for 100 a second and a burst of 200. */
  lemma ConfiguredLimits(rate: real, burst: nat, ticks: Ticks, n: nat, now: int)
    ensures var c := Configured(rate, burst, ticks);
            && Count(Replay(c, AtOnce(n, now)).admitted)
               == (if burst == 0 then (if n <= 200 then n else 200) else if n <= burst then n else burst)
            && Gain(c, 1_000_000) == if rate <= 0.0 then 100.0 else rate
  {
    BurstIsSpent(Configured(rate, burst, ticks), n, now);
    hide Replay, AtOnce;
  }
}
