/** The token bucket: lazy refill with a cap, one bucket per key, one limiter per tunnel.

    Clock readings are integers, `ticks` of them to a microsecond; elapsed time is cut to whole
    microseconds before it is turned into tokens. Doubles are taken as reals. */
module RateLimiter {
  /** Clock readings to a microsecond. */
  type Ticks = k: nat | k >= 1 witness 1

  datatype Config = Config(rate: real, burst: nat, ticks: Ticks)

  predicate Valid(c: Config) {
    c.rate > 0.0 && c.burst >= 1
  }

  /** Out-of-range settings fall back to 100 requests per second and a burst of 200. */
  function Configured(rate: real, burst: nat, ticks: Ticks): (c: Config)
    ensures Valid(c)
  {
    Config(if rate <= 0.0 then 100.0 else rate, if burst == 0 then 200 else burst, ticks)
  }

  datatype Bucket = Bucket(tokens: real, lastRefill: int)

  function Min(x: real, y: real): real {
    if x < y then x else y
  }

  /** Tokens earned in a number of whole microseconds. */
  function Gain(c: Config, micros: int): real {
    micros as real / 1000000.0 * c.rate
  }

  function Refill(c: Config, b: Bucket, now: int): Bucket {
    var add := Gain(c, (now - b.lastRefill) / c.ticks);
    if add > 0.0 then Bucket(Min(b.tokens + add, c.burst as real), now) else b
  }

  /** The bucket of a key at an instant; a missing bucket is created full. */
  function Current(c: Config, buckets: map<string, Bucket>, key: string, now: int): Bucket {
    Refill(c, if key in buckets then buckets[key] else Bucket(c.burst as real, now), now)
  }

  predicate Grants(c: Config, buckets: map<string, Bucket>, key: string, now: int) {
    Current(c, buckets, key, now).tokens >= 1.0
  }

  function Spend(b: Bucket): Bucket {
    if b.tokens >= 1.0 then b.(tokens := b.tokens - 1.0) else b
  }

  function AfterRequest(c: Config, buckets: map<string, Bucket>, key: string, now: int): map<string, Bucket> {
    buckets[key := Spend(Current(c, buckets, key, now))]
  }

  class RateLimiter {
    const ticks: Ticks
    const requestsPerSecond: real
    const burstCapacity: nat
    var buckets: map<string, Bucket>

    ghost function Settings(): Config {
      Config(requestsPerSecond, burstCapacity, ticks)
    }

    constructor (rate: real, burst: nat, ticksPerMicrosecond: Ticks)
      ensures Settings() == Configured(rate, burst, ticksPerMicrosecond) && buckets == map[]
    {
      ticks := ticksPerMicrosecond;
      requestsPerSecond := if rate <= 0.0 then 100.0 else rate;
      burstCapacity := if burst == 0 then 200 else burst;
      buckets := map[];
    }

    method RefillTokens(bucket: Bucket, now: int) returns (refilled: Bucket)
      ensures refilled == Refill(Settings(), bucket, now)
    {
      refilled := bucket;
      var elapsed := (now - bucket.lastRefill) / ticks;
      var add := elapsed as real / 1000000.0 * requestsPerSecond;
      if add > 0.0 {
        refilled := Bucket(Min(bucket.tokens + add, burstCapacity as real), now);
      }
    }

    method AllowRequest(key: string, now: int) returns (allowed: bool)
      modifies this`buckets
      ensures allowed == Grants(Settings(), old(buckets), key, now)
      ensures buckets == AfterRequest(Settings(), old(buckets), key, now)
    {
      if key !in buckets {
        buckets := buckets[key := Bucket(burstCapacity as real, now)];
      }
      var bucket := RefillTokens(buckets[key], now);
      if bucket.tokens >= 1.0 {
        buckets := buckets[key := bucket.(tokens := bucket.tokens - 1.0)];
        return true;
      }
      buckets := buckets[key := bucket];
      return false;
    }

    /** Reading the limit changes nothing and predicts a request at the same instant. */
    method CheckLimit(key: string, now: int) returns (available: bool)
      requires burstCapacity >= 1
      ensures available == Grants(Settings(), buckets, key, now)
    {
      if key !in buckets {
        return true;
      }
      var bucket := RefillTokens(buckets[key], now);
      return bucket.tokens >= 1.0;
    }

    method GetTokens(key: string, now: int) returns (tokens: real)
      ensures tokens == Current(Settings(), buckets, key, now).tokens
    {
      if key !in buckets {
        return burstCapacity as real;
      }
      var bucket := RefillTokens(buckets[key], now);
      return bucket.tokens;
    }

    method Reset(key: string)
      modifies this`buckets
      ensures buckets == old(buckets) - {key}
    {
      buckets := buckets - {key};
    }

    method Clear()
      modifies this`buckets
      ensures buckets == map[]
    {
      buckets := map[];
    }
  }

  // ----- any number of keys -----

  datatype Op = Allow(key: string, now: int) | Reset(name: string) | Clear

  function After(c: Config, buckets: map<string, Bucket>, op: Op): map<string, Bucket> {
    match op
    case Allow(key, now) => AfterRequest(c, buckets, key, now)
    case Reset(name) => buckets - {name}
    case Clear => map[]
  }

  function Run(c: Config, ops: seq<Op>): map<string, Bucket> {
    if ops == [] then map[] else After(c, Run(c, ops[..|ops| - 1]), ops[|ops| - 1])
  }
}
