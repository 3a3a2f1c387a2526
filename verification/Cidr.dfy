/** Byte-wise prefix matching is an integer interval test. */
module Cidr {
  import opened AddressBits
  import opened Products

  lemma {:induction false} Pow2Adds(m: nat, n: nat)
    ensures Pow2(m + n) == Mul(Pow2(m), Pow2(n))
  {
    hide Mul;
    if m == 0 {
      MulZero(Pow2(n));
    } else {
      Pow2Adds(m - 1, n);
      MulAdds(Pow2(m - 1), Pow2(m - 1), Pow2(n));
    }
  }

  lemma ByteIs256()
    ensures Pow2(8) == 256
  {
    SmallPowers();
  }

  lemma Pow2Next(n: nat)
    ensures Pow2(8 * (n + 1)) == 256 * Pow2(8 * n)
  {
    Pow2Adds(8, 8 * n);
    ByteIs256();
    MulZero(Pow2(8 * n));
    hide Pow2, Mul;
  }

  // ----- addresses as numbers -----

  lemma {:induction false} ValueConcat(a: Bytes, b: Bytes)
    ensures Value(a + b) == Mul(Value(a), Pow2(8 * |b|)) + Value(b)
    ensures Value(b) < Pow2(8 * |b|)
    decreases |b|
  {
    hide Mul;
    if b == [] {
      assert a + b == a;
      MulZero(Value(a));
      MulAdds(Value(a), 0, 1);
      OneTimes(Value(a));
    } else {
      hide Pow2;
      var front, last := b[..|b| - 1], b[|b| - 1] as nat;
      assert (a + b)[..|a + b| - 1] == a + front;
      ValueConcat(a, front);
      Pow2Next(|front|);
      Times256(Value(a), Pow2(8 * |front|));
    }
  }

  lemma OneTimes(v: int)
    ensures Mul(v, 1) == v
  {
  }

  lemma Times256(v: int, p: int)
    ensures Mul(v, 256 * p) == 256 * Mul(v, p)
  {
  }

  lemma {:induction false} ValueInjective(a: Bytes, b: Bytes)
    requires |a| == |b| && Value(a) == Value(b)
    ensures a == b
  {
    if a != [] {
      var n := |a| - 1;
      ByteInjective(a[n], b[n], Value(a[..n]), Value(b[..n]));
      ValueInjective(a[..n], b[..n]);
      assert a == a[..n] + [a[n]] && b == b[..n] + [b[n]];
    }
  }

  lemma SameByte(x: bv8, y: bv8)
    requires x as nat == y as nat
    ensures x == y
  {
    assert (x as nat) as bv8 == (y as nat) as bv8;
  }

  lemma LastDigit(x: nat, y: nat, m: nat, n: nat)
    requires x < 256 && y < 256 && m * 256 + x == n * 256 + y
    ensures m == n && x == y
  {
  }

  lemma ByteInjective(x: bv8, y: bv8, m: nat, n: nat)
    requires m * 256 + x as nat == n * 256 + y as nat
    ensures m == n && x == y
  {
    var a, b := x as nat, y as nat;
    LastDigit(a, b, m, n);
    SameByte(x, y);
  }

  lemma {:induction false} ValueOfZeros(s: Bytes)
    requires forall i :: 0 <= i < |s| ==> s[i] == 0
    ensures Value(s) == 0
  {
    if s != [] { ValueOfZeros(s[..|s| - 1]); }
  }

  // ----- network number and host number -----

  /** The first `full` bytes and r bits as a number. */
  ghost function TopAt(s: Bytes, full: nat, r: nat): int
    requires 8 * full + r <= 8 * |s| && r < 8
  {
    if r == 0 then Value(s[..full]) else Mul(Value(s[..full]), Pow2(r)) + High(s[full], r)
  }

  /** The remaining bits as a number. */
  ghost function LowAt(s: Bytes, full: nat, r: nat): int
    requires 8 * full + r <= 8 * |s| && r < 8
  {
    if r == 0 then Value(s[full..])
    else Mul(Rest(s[full], r), Pow2(8 * (|s| - full - 1))) + Value(s[full + 1..])
  }

  ghost function Top(s: Bytes, p: nat): int
    requires p <= 8 * |s|
  {
    TopAt(s, p / 8, p % 8)
  }

  ghost function Low(s: Bytes, p: nat): int
    requires p <= 8 * |s|
  {
    LowAt(s, p / 8, p % 8)
  }

  lemma SplitWhole(s: Bytes, full: nat)
    requires full <= |s|
    ensures Value(s) == Mul(Value(s[..full]), Pow2(8 * (|s| - full))) + Value(s[full..])
    ensures Value(s[full..]) < Pow2(8 * (|s| - full))
  {
    hide Pow2, Value, Mul;
    assert s == s[..full] + s[full..];
    ValueConcat(s[..full], s[full..]);
  }

  lemma ByteDivides(b: bv8, r: nat)
    requires 0 < r < 8
    ensures b as nat == Mul(High(b, r), Pow2(8 - r)) + Rest(b, r)
    ensures 0 <= High(b, r) && 0 <= Rest(b, r) < Pow2(8 - r)
  {
    hide Mul, Pow2;
    MulDivides(b as nat, Pow2(8 - r));
  }

  lemma HighAndRest(b: bv8, r: nat)
    requires 0 < r < 8
    ensures b as nat == Mul(High(b, r), Pow2(8 - r)) + Rest(b, r)
    ensures 0 <= High(b, r) < Pow2(r) && 0 <= Rest(b, r) < Pow2(8 - r)
  {
    hide Pow2, Mul, High, Rest;
    var k := Pow2(8 - r);
    ByteDivides(b, r);
    Pow2Adds(r, 8 - r);
    ByteIs256();
    if High(b, r) >= Pow2(r) {
      MulGrows(Pow2(r) - 1, High(b, r), k);
      MulAdds(Pow2(r), -1, k);
      MulMinusOne(k);
    }
  }

  lemma MulMinusOne(k: int)
    ensures Mul(-1, k) == -k
  {
  }

  lemma SplitByte(h: int, b: bv8, r: nat)
    requires 0 < r < 8
    ensures 256 * h + b as nat == Mul(Mul(h, Pow2(r)) + High(b, r), Pow2(8 - r)) + Rest(b, r)
  {
    var k := Pow2(8 - r);
    HighAndRest(b, r);
    Pow2Adds(r, 8 - r);
    ByteIs256();
    hide Pow2, Mul, High, Rest;
    MulAdds(Mul(h, Pow2(r)), High(b, r), k);
    MulAssociates(h, Pow2(r), k);
    MulZero(h);
  }

  lemma SplitInside(h: int, b: bv8, c: nat, r: nat, p: int)
    requires 0 < r < 8 && c < p
    ensures Mul(256 * h + b as nat, p) + c
            == Mul(Mul(h, Pow2(r)) + High(b, r), Mul(Pow2(8 - r), p)) + (Mul(Rest(b, r), p) + c)
    ensures 0 <= Mul(Rest(b, r), p) + c < Mul(Pow2(8 - r), p)
  {
    var k, t, l := Pow2(8 - r), Mul(h, Pow2(r)) + High(b, r), Rest(b, r);
    SplitByte(h, b, r);
    HighAndRest(b, r);
    hide Pow2, Mul, High, Rest;
    MulAdds(Mul(t, k), l, p);
    MulAssociates(t, k, p);
    MulGrows(l, k, p);
    MulNonNegative(l, p);
  }

  lemma SplitsInside(s: Bytes, full: nat, r: nat)
    requires 8 * full + r <= 8 * |s| && 0 < r < 8
    ensures var span := Pow2(8 * |s| - (8 * full + r));
            Value(s) == Mul(TopAt(s, full, r), span) + LowAt(s, full, r) && 0 <= LowAt(s, full, r) < span
  {
    var rest := 8 * (|s| - full - 1);
    SplitWhole(s, full + 1);
    assert s[..full + 1][..full] == s[..full];
    assert Value(s[..full + 1]) == 256 * Value(s[..full]) + s[full] as nat;
    hide Value, Mul, Pow2, High, Rest;
    SplitInside(Value(s[..full]), s[full], Value(s[full + 1..]), r, Pow2(rest));
    Pow2Adds(8 - r, rest);
    assert 8 * |s| - (8 * full + r) == (8 - r) + rest;
  }

  lemma SplitsWhole(s: Bytes, full: nat)
    requires 8 * full <= 8 * |s|
    ensures var span := Pow2(8 * |s| - 8 * full);
            Value(s) == Mul(TopAt(s, full, 0), span) + LowAt(s, full, 0) && 0 <= LowAt(s, full, 0) < span
  {
    hide Value, Mul, Pow2;
    SplitWhole(s, full);
    assert 8 * |s| - 8 * full == 8 * (|s| - full);
  }

  /** An address is its network number and its host number, side by side. */
  lemma Splits(s: Bytes, p: nat)
    requires p <= 8 * |s|
    ensures Value(s) == Mul(Top(s, p), Span(s, p)) + Low(s, p) && 0 <= Low(s, p) < Span(s, p)
  {
    hide Value, Mul, Pow2, TopAt, LowAt;
    var full, r := p / 8, p % 8;
    assert p == 8 * full + r;
    if r == 0 {
      SplitsWhole(s, full);
    } else {
      SplitsInside(s, full, r);
    }
  }

  lemma KeptSplits(b: bv8, r: nat)
    requires 0 < r < 8
    ensures High(Kept(b, r), r) == High(b, r) && Rest(Kept(b, r), r) == 0
  {
    KeptIsHigh(b, r);
    HighAndRest(Kept(b, r), r);
    hide Pow2, Mul, High, Rest, Kept;
    DigitsAreUnique(High(Kept(b, r), r), Rest(Kept(b, r), r), High(b, r), 0, Pow2(8 - r));
  }

  /** Masking keeps the network number and clears the host number. */
  lemma MaskedSplits(s: Bytes, p: nat)
    requires p <= 8 * |s|
    ensures Top(Masked(s, p), p) == Top(s, p) && Low(Masked(s, p), p) == 0
  {
    hide Pow2, Kept, Value, Mul, High, Rest;
    var t, full, r := Masked(s, p), p / 8, p % 8;
    assert t[..full] == s[..full];
    if r == 0 {
      ValueOfZeros(t[full..]);
    } else {
      ValueOfZeros(t[full + 1..]);
      assert t[full] == Kept(s[full], r);
      KeptSplits(s[full], r);
      MulZero(Pow2(8 * (|s| - full - 1)));
    }
  }

  lemma KeptEqual(a: bv8, b: bv8, r: nat)
    requires 0 < r < 8
    ensures Kept(a, r) == Kept(b, r) <==> High(a, r) == High(b, r)
  {
    KeptIsHigh(a, r);
    KeptIsHigh(b, r);
    KeptSplits(a, r);
    KeptSplits(b, r);
    hide Pow2, Kept, High, Mul;
    if High(a, r) == High(b, r) {
      ByteInjective(Kept(a, r), Kept(b, r), 0, 0);
    }
  }

  /** Matching compares network numbers. */
  lemma MatchesComparesTop(ip: Bytes, network: Bytes, p: nat)
    requires |ip| == |network| && p <= 8 * |ip|
    ensures Matches(ip, network, p) <==> Top(ip, p) == Top(network, p)
  {
    hide Pow2, Kept, Value, Mul, High;
    var full, r := p / 8, p % 8;
    var a, b := Value(ip[..full]), Value(network[..full]);
    if r > 0 {
      KeptEqual(ip[full], network[full], r);
      HighAndRest(ip[full], r);
      HighAndRest(network[full], r);
      if Top(ip, p) == Top(network, p) {
        DigitsAreUnique(a, High(ip[full], r), b, High(network[full], r), Pow2(r));
        ValueInjective(ip[..full], network[..full]);
      }
    } else if Top(ip, p) == Top(network, p) {
      ValueInjective(ip[..full], network[..full]);
    }
  }

  /** An address matches a masked network exactly when, as numbers, it lies between the network's first
      and last address. */
  lemma MatchesIsInterval(ip: Bytes, address: Bytes, p: nat)
    requires |ip| == |address| && p <= 8 * |ip|
    ensures var network := Masked(address, p);
            Matches(ip, network, p) <==> Value(network) <= Value(ip) <= Value(network) + Span(network, p) - 1
  {
    hide Top, Low, Masked, Value, Matches, Mul, Pow2;
    var network := Masked(address, p);
    MaskedSplits(address, p);
    Splits(network, p);
    Splits(ip, p);
    MatchesComparesTop(ip, network, p);
    DigitsOrder(Top(ip, p), Low(ip, p), Top(network, p), Span(ip, p));
  }

  // ----- two ranges -----

  lemma MatchesCoarser(a: Bytes, b: Bytes, p: nat, q: nat)
    requires p <= q <= 8 * |b| && Matches(a, b, q)
    ensures Matches(a, b, p)
  {
    hide Kept;
    assert a[..p / 8] == a[..q / 8][..p / 8] && b[..p / 8] == b[..q / 8][..p / 8];
    if p % 8 > 0 {
      if p / 8 == q / 8 {
        KeptCoarser(a[p / 8], b[p / 8], p % 8, q % 8);
      } else {
        assert a[..q / 8][p / 8] == b[..q / 8][p / 8];
      }
    }
  }

  /** Two ranges of one family are nested or disjoint. */
  lemma NestedOrDisjoint(n: Bytes, p: nat, m: Bytes, q: nat)
    requires |n| == |m| && p <= q <= 8 * |n|
    ensures (forall ip :: Matches(ip, m, q) ==> Matches(ip, n, p))
            || (forall ip :: !(Matches(ip, m, q) && Matches(ip, n, p)))
  {
    if ip :| Matches(ip, m, q) && Matches(ip, n, p) {
      MatchesCoarser(ip, m, p, q);
      hide Kept;
      forall x | Matches(x, m, q)
        ensures Matches(x, n, p)
      {
        MatchesCoarser(x, m, p, q);
      }
    }
  }
}
