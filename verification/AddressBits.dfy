/** Network prefixes of byte strings: masking, byte-wise matching, and what both mean for the address
    read as one big-endian number. */
module AddressBits {
  import opened Products

  type Bytes = seq<bv8>

  /** The low bits of a byte outside its first r bits are cleared by this mask. */
  function Mask(r: nat): bv8
    requires 0 < r < 8
  {
    0xFF << (8 - r)
  }

  /** The first r bits of a byte. */
  function Kept(b: bv8, r: nat): bv8
    requires 0 < r < 8
  {
    b & Mask(r)
  }

  function Pow2(n: nat): (p: nat)
    ensures p >= 1
  {
    if n == 0 then 1 else 2 * Pow2(n - 1)
  }

  /** The address as one number, most significant byte first. */
  function Value(s: Bytes): (v: nat) {
    if s == [] then 0 else Value(s[..|s| - 1]) * 256 + s[|s| - 1] as nat
  }

  /** The number of addresses that share the first p bits. */
  function Span(s: Bytes, p: nat): nat
    requires p <= 8 * |s|
  {
    Pow2(8 * |s| - p)
  }

  /** The address with the bits after the first p cleared. */
  function Masked(s: Bytes, p: nat): (t: Bytes)
    requires p <= 8 * |s|
    ensures |t| == |s|
  {
    seq(|s|, i requires 0 <= i < |s| =>
      if i < p / 8 then s[i] else if i == p / 8 && p % 8 > 0 then Kept(s[i], p % 8) else 0)
  }

  method MaskInPlace(bytes: array<bv8>, prefix: nat)
    requires prefix <= 8 * bytes.Length
    modifies bytes
    ensures bytes[..] == Masked(old(bytes[..]), prefix)
  {
    hide Kept;
    var full, remaining := prefix / 8, prefix % 8;
    ghost var before := bytes[..];
    var i := full;
    while i < bytes.Length
      invariant full <= i <= bytes.Length
      invariant forall k :: 0 <= k < i ==> bytes[k] == Masked(before, prefix)[k]
      invariant forall k :: i <= k < bytes.Length ==> bytes[k] == before[k]
    {
      if i == full && remaining > 0 {
        bytes[i] := Kept(bytes[i], remaining);
      } else {
        bytes[i] := 0;
      }
      i := i + 1;
    }
    assert bytes[..] == Masked(before, prefix);
  }

  predicate Matches(ip: Bytes, network: Bytes, p: nat)
    requires p <= 8 * |network|
  {
    && |ip| == |network|
    && ip[..p / 8] == network[..p / 8]
    && (p % 8 > 0 ==> Kept(ip[p / 8], p % 8) == Kept(network[p / 8], p % 8))
  }

  method MatchesCidr(ip: Bytes, network: Bytes, prefix: nat) returns (matches: bool)
    requires prefix <= 8 * |network|
    ensures matches == Matches(ip, network, prefix)
  {
    hide Kept;
    if |ip| != |network| {
      return false;
    }
    var full, remaining := prefix / 8, prefix % 8;
    var i := 0;
    while i < full
      invariant 0 <= i <= full && forall k :: 0 <= k < i ==> ip[k] == network[k]
    {
      if ip[i] != network[i] {
        assert ip[..full][i] != network[..full][i];
        return false;
      }
      i := i + 1;
    }
    if remaining > 0 && full < |ip| {
      if Kept(ip[full], remaining) != Kept(network[full], remaining) {
        return false;
      }
    }
    return true;
  }

  // ----- one byte -----

  /** The first r bits of a byte as a number, and the rest. */
  function High(b: bv8, r: nat): int
    requires 0 < r < 8
  {
    b as nat / Pow2(8 - r)
  }

  function Rest(b: bv8, r: nat): int
    requires 0 < r < 8
  {
    b as nat % Pow2(8 - r)
  }

  lemma KeptIsHigh(b: bv8, r: nat)
    requires 0 < r < 8
    ensures Kept(b, r) as int == Mul(High(b, r), Pow2(8 - r))
  {
    MaskTable(r);
    SmallPowers();
    hide Pow2, Mask;
    if r == 1 { Mask1(b); }
    if r == 2 { Mask2(b); }
    if r == 3 { Mask3(b); }
    if r == 4 { Mask4(b); }
    if r == 5 { Mask5(b); }
    if r == 6 { Mask6(b); }
    if r == 7 { Mask7(b); }
  }

  lemma SmallPowers()
    ensures Pow2(1) == 2 && Pow2(2) == 4 && Pow2(3) == 8 && Pow2(4) == 16
    ensures Pow2(5) == 32 && Pow2(6) == 64 && Pow2(7) == 128 && Pow2(8) == 256
  {
    assert Pow2(4) == 16;
    assert Pow2(6) == 64;
  }

  lemma Mask1(b: bv8) ensures (b & 0x80) as int == b as int / 128 * 128 { }
  lemma Mask2(b: bv8) ensures (b & 0xC0) as int == b as int / 64 * 64 { }
  lemma Mask3(b: bv8) ensures (b & 0xE0) as int == b as int / 32 * 32 { }
  lemma Mask4(b: bv8) ensures (b & 0xF0) as int == b as int / 16 * 16 { }
  lemma Mask5(b: bv8) ensures (b & 0xF8) as int == b as int / 8 * 8 { }
  lemma Mask6(b: bv8) ensures (b & 0xFC) as int == b as int / 4 * 4 { }
  lemma Mask7(b: bv8) ensures (b & 0xFE) as int == b as int / 2 * 2 { }

  lemma KeptTwice(b: bv8, r: nat)
    requires 0 < r < 8
    ensures Kept(Kept(b, r), r) == Kept(b, r)
  {
  }

  /** Bytes that agree on more leading bits agree on fewer. */
  lemma KeptCoarser(a: bv8, b: bv8, q: nat, r: nat)
    requires 0 < q <= r < 8 && Kept(a, r) == Kept(b, r)
    ensures Kept(a, q) == Kept(b, q)
  {
    hide Mask, Kept;
    MaskWithin(q, r);
    KeptIsMasked(a, q);
    KeptIsMasked(b, q);
    KeptIsMasked(a, r);
    KeptIsMasked(b, r);
    BitsCoarser(a, b, Mask(r), Mask(q));
  }

  lemma KeptIsMasked(b: bv8, r: nat)
    requires 0 < r < 8
    ensures Kept(b, r) == b & Mask(r)
  {
    hide Mask;
  }

  lemma BitsCoarser(a: bv8, b: bv8, m: bv8, n: bv8)
    requires m & n == n && a & m == b & m
    ensures a & n == b & n
  {
  }

  lemma MaskWithin(q: nat, r: nat)
    requires 0 < q <= r < 8
    ensures Mask(r) & Mask(q) == Mask(q)
  {
    MaskTable(q);
    MaskTable(r);
  }

  lemma MaskTable(r: nat)
    requires 0 < r < 8
    ensures Mask(r) == if r == 1 then 0x80 else if r == 2 then 0xC0 else if r == 3 then 0xE0
                       else if r == 4 then 0xF0 else if r == 5 then 0xF8 else if r == 6 then 0xFC else 0xFE
  {
  }
}
