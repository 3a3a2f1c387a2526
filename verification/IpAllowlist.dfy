/** The address allowlist: ranges written as text, masked and kept in order, and the check against them.
    The C library's address and number parsers are parameters. */
module IpAllowlist {
  import opened Wrappers
  import opened Text
  import opened AddressBits
  import opened Cidr

  type Address4 = s: Bytes | |s| == 4 witness [0, 0, 0, 0]
  type Address6 = s: Bytes | |s| == 16 witness [0, 0, 0, 0, 0, 0, 0, 0, 0, 0, 0, 0, 0, 0, 0, 0]

  datatype Parsers = Parsers(
    v4: string -> Option<Address4>,
    v6: string -> Option<Address6>,
    number: string -> Option<int>)

  datatype IPType = IPv4 | IPv6

  datatype CIDRRange = CIDRRange(kind: IPType, network: Bytes, prefix: nat)

  function Width(kind: IPType): nat {
    if kind == IPv4 then 4 else 16
  }

  /** Ranges as the parser makes them: of the family's width, with the host bits cleared. */
  predicate Proper(r: CIDRRange) {
    |r.network| == Width(r.kind) && r.prefix <= 8 * Width(r.kind) && r.network == Masked(r.network, r.prefix)
  }

  type Range = r: CIDRRange | Proper(r) witness CIDRRange(IPv4, [0, 0, 0, 0], 32)

  lemma MaskedTwice(s: Bytes, p: nat)
    requires p <= 8 * |s|
    ensures Masked(Masked(s, p), p) == Masked(s, p)
  {
    if p % 8 > 0 { KeptTwice(s[p / 8], p % 8); }
    hide Kept;
  }

  lemma MaskedToWidth(s: Bytes)
    ensures Masked(s, 8 * |s|) == s
  {
  }

  /** Single addresses are ranges of one. */
  function Whole(kind: IPType, address: Bytes): (r: Range)
    requires |address| == Width(kind)
    ensures r.network == address
  {
    MaskedToWidth(address);
    CIDRRange(kind, address, 8 * Width(kind))
  }

  function Network(kind: IPType, address: Bytes, prefix: int): (r: Option<Range>)
    requires |address| == Width(kind)
    ensures r.Some? <==> 0 <= prefix <= 8 * Width(kind)
    ensures r.Some? ==> r.value.kind == kind && r.value.prefix == prefix && r.value.network == Masked(address, prefix)
  {
    if prefix < 0 || prefix > 8 * Width(kind) then None
    else
      MaskedTwice(address, prefix);
      Some(CIDRRange(kind, Masked(address, prefix), prefix))
  }

  function ParseIp(ps: Parsers, text: string): Option<Range> {
    if ps.v4(text).Some? then Some(Whole(IPv4, ps.v4(text).value))
    else if ps.v6(text).Some? then Some(Whole(IPv6, ps.v6(text).value))
    else None
  }

  function ParseCidr(ps: Parsers, text: string): Option<Range> {
    var slash := Find(text, {'/'});
    if slash == |text| then ParseIp(ps, text)
    else
      var ip, prefix := text[..slash], ps.number(text[slash + 1..]);
      if prefix.None? then None
      else if ps.v4(ip).Some? then Network(IPv4, ps.v4(ip).value, prefix.value)
      else if ps.v6(ip).Some? then Network(IPv6, ps.v6(ip).value, prefix.value)
      else None
  }

  method MaskAddress(address: Bytes, prefix: nat) returns (network: Bytes)
    requires prefix <= 8 * |address|
    ensures network == Masked(address, prefix)
  {
    var bytes := new bv8[|address|](i requires 0 <= i < |address| => address[i]);
    assert bytes[..] == address;
    MaskInPlace(bytes, prefix);
    network := bytes[..];
  }

  method ParseCidrText(ps: Parsers, text: string) returns (range: Option<Range>)
    ensures range == ParseCidr(ps, text)
  {
    hide Masked;
    var slash := Find(text, {'/'});
    if slash == |text| {
      range := ParseIp(ps, text);
      return;
    }
    var ip, prefix := text[..slash], ps.number(text[slash + 1..]);
    if prefix.None? {
      return None;
    }
    var p := prefix.value;
    var v4 := ps.v4(ip);
    if v4.Some? {
      if p < 0 || p > 32 {
        return None;
      }
      var network := MaskAddress(v4.value, p);
      MaskedTwice(v4.value, p);
      return Some(CIDRRange(IPv4, network, p));
    }
    var v6 := ps.v6(ip);
    if v6.Some? {
      if p < 0 || p > 128 {
        return None;
      }
      var network := MaskAddress(v6.value, p);
      MaskedTwice(v6.value, p);
      return Some(CIDRRange(IPv6, network, p));
    }
    return None;
  }

  predicate Hits(address: Bytes, kind: IPType, r: Range) {
    r.kind == kind && Matches(address, r.network, r.prefix)
  }

  predicate Allows(ps: Parsers, ranges: seq<Range>, ip: string) {
    || ranges == []
    || (if ps.v4(ip).Some? then exists i :: 0 <= i < |ranges| && Hits(ps.v4(ip).value, IPv4, ranges[i])
        else ps.v6(ip).Some? && exists i :: 0 <= i < |ranges| && Hits(ps.v6(ip).value, IPv6, ranges[i]))
  }

  /** The ranges of a list of texts, if all of them parse. */
  function Ranges(ps: Parsers, texts: seq<string>): Option<seq<Range>> {
    if texts == [] then Some([])
    else
      var before, last := Ranges(ps, texts[..|texts| - 1]), ParseCidr(ps, texts[|texts| - 1]);
      if before.None? || last.None? then None else Some(before.value + [last.value])
  }

  class IPAllowlist {
    const ps: Parsers
    var ranges: seq<Range>

    constructor (parsers: Parsers)
      ensures ps == parsers && ranges == []
    {
      ps, ranges := parsers, [];
    }

    method AddCidr(text: string) returns (ok: bool)
      modifies this`ranges
      ensures ok == ParseCidr(ps, text).Some?
      ensures ranges == old(ranges) + (if ok then [ParseCidr(ps, text).value] else [])
    {
      var range := ParseCidrText(ps, text);
      ok := range.Some?;
      if ok {
        ranges := ranges + [range.value];
      }
    }

    method AddIp(text: string) returns (ok: bool)
      modifies this`ranges
      ensures ok == ParseIp(ps, text).Some?
      ensures ranges == old(ranges) + (if ok then [ParseIp(ps, text).value] else [])
    {
      ok := true;
      if ps.v4(text).Some? {
        ranges := ranges + [Whole(IPv4, ps.v4(text).value)];
      } else if ps.v6(text).Some? {
        ranges := ranges + [Whole(IPv6, ps.v6(text).value)];
      } else {
        ok := false;
      }
    }

    method AnyHits(address: Bytes, kind: IPType) returns (hit: bool)
      ensures hit <==> exists i :: 0 <= i < |ranges| && Hits(address, kind, ranges[i])
    {
      var i := 0;
      while i < |ranges|
        invariant 0 <= i <= |ranges|
        invariant forall k :: 0 <= k < i ==> !Hits(address, kind, ranges[k])
      {
        if ranges[i].kind == kind {
          var matches := MatchesCidr(address, ranges[i].network, ranges[i].prefix);
          if matches {
            assert Hits(address, kind, ranges[i]);
            return true;
          }
        }
        i := i + 1;
      }
      return false;
    }

    method IsAllowed(ip: string) returns (allowed: bool)
      ensures allowed == Allows(ps, ranges, ip)
    {
      hide Hits;
      if ranges == [] {
        return true;
      }
      var v4 := ps.v4(ip);
      if v4.Some? {
        allowed := AnyHits(v4.value, IPv4);
        return;
      }
      var v6 := ps.v6(ip);
      if v6.Some? {
        allowed := AnyHits(v6.value, IPv6);
        return;
      }
      return false;
    }
  }

  /** An allowlist is made only if every text parses. */
  method FromCidrList(ps: Parsers, texts: seq<string>) returns (allowlist: IPAllowlist?)
    ensures allowlist == null <==> Ranges(ps, texts).None?
    ensures allowlist != null ==> fresh(allowlist) && allowlist.ps == ps && allowlist.ranges == Ranges(ps, texts).value
  {
    hide ParseCidr;
    var made := new IPAllowlist(ps);
    var i := 0;
    while i < |texts|
      invariant 0 <= i <= |texts| && fresh(made) && made.ps == ps
      invariant Ranges(ps, texts[..i]) == Some(made.ranges)
    {
      assert texts[..i + 1][..i] == texts[..i];
      var ok := made.AddCidr(texts[i]);
      if !ok {
        NoRanges(ps, texts, i + 1);
        return null;
      }
      i := i + 1;
    }
    assert texts[..i] == texts;
    return made;
  }

  lemma {:induction false} NoRanges(ps: Parsers, texts: seq<string>, i: nat)
    requires i <= |texts| && Ranges(ps, texts[..i]).None?
    ensures Ranges(ps, texts).None?
    decreases |texts| - i
  {
    if i == |texts| {
      assert texts[..i] == texts;
    } else {
      assert texts[..i + 1][..i] == texts[..i];
      NoRanges(ps, texts, i + 1);
    }
  }

  // ----- what the list means -----

  /** The address lies between the first and the last address of the range. */
  predicate Within(address: Bytes, kind: IPType, r: Range) {
    && r.kind == kind
    && Value(r.network) <= Value(address) <= Value(r.network) + Span(r.network, r.prefix) - 1
  }

  lemma HitsIsWithin(address: Bytes, kind: IPType, r: Range)
    requires |address| == Width(kind)
    ensures Hits(address, kind, r) <==> Within(address, kind, r)
  {
    hide Value, Masked, Matches, Span;
    if r.kind == kind {
      MatchesIsInterval(address, r.network, r.prefix);
    }
  }

  /** An address is allowed exactly when the list is empty or the address, as a number, lies in one of
      the ranges of its family; a text that is no address is allowed only by the empty list. */
  lemma AllowedIsWithin(ps: Parsers, ranges: seq<Range>, ip: string)
    ensures Allows(ps, ranges, ip) <==>
              || ranges == []
              || (ps.v4(ip).Some? && exists i :: 0 <= i < |ranges| && Within(ps.v4(ip).value, IPv4, ranges[i]))
              || (ps.v4(ip).None? && ps.v6(ip).Some?
                  && exists i :: 0 <= i < |ranges| && Within(ps.v6(ip).value, IPv6, ranges[i]))
  {
    hide Hits, Within;
    forall i | 0 <= i < |ranges| && ps.v4(ip).Some?
      ensures Hits(ps.v4(ip).value, IPv4, ranges[i]) <==> Within(ps.v4(ip).value, IPv4, ranges[i])
    {
      HitsIsWithin(ps.v4(ip).value, IPv4, ranges[i]);
    }
    forall i | 0 <= i < |ranges| && ps.v6(ip).Some?
      ensures Hits(ps.v6(ip).value, IPv6, ranges[i]) <==> Within(ps.v6(ip).value, IPv6, ranges[i])
    {
      HitsIsWithin(ps.v6(ip).value, IPv6, ranges[i]);
    }
  }

  /** A range covers exactly the addresses whose first bits are those of the address it was written
      with, host bits or not. */
  lemma NetworkCoversPrefix(kind: IPType, written: Bytes, prefix: int, address: Bytes)
    requires |written| == |address| == Width(kind) && Network(kind, written, prefix).Some?
    ensures Within(address, kind, Network(kind, written, prefix).value)
            <==> Top(address, prefix) == Top(written, prefix)
  {
    hide Value, Masked, Matches, Span, Top, Within;
    var r := Network(kind, written, prefix).value;
    HitsIsWithin(address, kind, r);
    MatchesComparesTop(address, r.network, r.prefix);
    MaskedSplits(written, r.prefix);
  }
}
