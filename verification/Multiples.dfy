/** Multiples of a positive real that come as close above a whole number as one likes. */
module Multiples {
  /** n multiples of g make a whole number and a rest. */
  predicate Multiple(g: real, n: nat, whole: int, rest: real) {
    n as real * g == whole as real + rest
  }

  lemma Combine(g: real, m: nat, whole: int, rest: real, times: nat)
    requires Multiple(g, m, whole, rest)
    ensures Multiple(g, m * times, whole * times, times as real * rest)
  {
    var t := times as real;
    assert (m * times) as real == m as real * t;
    assert m as real * t * g == (m as real * g) * t;
    assert (whole as real + rest) * t == whole as real * t + rest * t;
  }

  function Times(x: real, part: real): real {
    x * part
  }

  function Rest(total: real, part: real, q: nat): real {
    total - Times(q as real, part)
  }

  lemma TimesGrows(x: real, y: real, part: real)
    requires part > 0.0
    ensures x <= y ==> Times(x, part) <= Times(y, part)
    ensures x < y ==> Times(x, part) < Times(y, part)
  {
  }

  lemma TimesNext(x: real, total: real, part: real)
    requires part > 0.0
    ensures Times(x + 1.0, part) == Times(x, part) + part && Times(total / part, part) == total
  {
  }

  lemma Quotient(total: real, part: real) returns (q: nat)
    requires 0.0 < part <= total
    ensures q >= 1 && 0.0 <= Rest(total, part, q) < part
  {
    var y := total / part;
    assert y >= 1.0;
    q := y.Floor;
    hide Times;
    TimesNext(q as real, total, part);
    TimesGrows(q as real, y, part);
    TimesGrows(y, q as real + 1.0, part);
  }

  /** Some multiple of a positive number is a whole number and a rest below any limit. */
  lemma {:induction false} SmallRest(g: real, limit: real, m: nat, whole: int, rest: real, k: nat)
    returns (n: nat, part: int, left: real)
    requires limit > 0.0 && m >= 1 && Multiple(g, m, whole, rest)
    requires 0.0 <= rest < 1.0 && rest < k as real * limit
    ensures n >= 1 && Multiple(g, n, part, left) && 0.0 <= left < limit && left < 1.0
    decreases k
  {
    if rest < limit {
      n, part, left := m, whole, rest;
    } else {
      hide Multiple, Rest;
      var q := Quotient(1.0, rest);
      var short := Rest(1.0, rest, q);
      if short >= limit {
        StepOver(g, m, whole, rest, q);
        assert k >= 1;
        n, part, left := SmallRest(g, limit, m * (q + 1), whole * (q + 1) + 1, rest - short, k - 1);
      } else if short == 0.0 {
        StepExact(g, m, whole, rest, q);
        n, part, left := m * q, whole * q + 1, 0.0;
      } else {
        var j := Quotient(rest, short);
        StepBack(g, m, whole, rest, q, j);
        n, part, left := m * (1 + j * q), whole * (1 + j * q) + j, Rest(rest, short, j);
      }
    }
  }

  lemma StepExact(g: real, m: nat, whole: int, rest: real, q: nat)
    requires Multiple(g, m, whole, rest) && m >= 1 && q >= 1 && Rest(1.0, rest, q) == 0.0
    ensures m * q >= 1 && Multiple(g, m * q, whole * q + 1, 0.0)
  {
    Combine(g, m, whole, rest, q);
  }

  lemma StepOver(g: real, m: nat, whole: int, rest: real, q: nat)
    requires Multiple(g, m, whole, rest) && m >= 1
    ensures m * (q + 1) >= 1
    ensures Multiple(g, m * (q + 1), whole * (q + 1) + 1, rest - Rest(1.0, rest, q))
  {
    Combine(g, m, whole, rest, q + 1);
    assert (q + 1) as real * rest == q as real * rest + rest;
  }

  lemma StepBack(g: real, m: nat, whole: int, rest: real, q: nat, j: nat)
    requires Multiple(g, m, whole, rest) && m >= 1
    ensures m * (1 + j * q) >= 1
    ensures Multiple(g, m * (1 + j * q), whole * (1 + j * q) + j, Rest(rest, Rest(1.0, rest, q), j))
  {
    Combine(g, m, whole, rest, 1 + j * q);
    var short := 1.0 - q as real * rest;
    assert (1 + j * q) as real == 1.0 + j as real * q as real;
    assert (1.0 + j as real * q as real) * rest == rest + j as real * (q as real * rest);
    assert j as real * (1.0 - short) == j as real - j as real * short;
  }

  lemma Above(total: real, part: real) returns (k: nat)
    requires 0.0 < part && 0.0 <= total
    ensures total < k as real * part
  {
    if total < part {
      k := 1;
    } else {
      var q := Quotient(total, part);
      k := q + 1;
      TimesNext(q as real, total, part);
    }
  }
}
