/** What an allowlist means as it is written: which texts are ranges, and which addresses they admit. */
module AllowlistText {
  import opened Wrappers
  import opened Text
  import opened AddressBits
  import opened Cidr
  import opened IpAllowlist
  import opened ConnectionAdmission
  import TcpProxy

  // ----- one text -----

  /** The text names a network: an address, a slash, and a number of bits that the address has. */
  predicate NamesNetwork(ps: Parsers, ip: string, bits: string) {
    && ps.number(bits).Some? && ps.number(bits).value >= 0
    && if ps.v4(ip).Some? then ps.number(bits).value <= 32
       else ps.v6(ip).Some? && ps.number(bits).value <= 128
  }

  /** The client's address is of the family of the written one, IPv4 before IPv6, and has the same first
      bits. */
  ghost predicate SharesBits(ps: Parsers, ip: string, bits: nat, client: string)
    requires if ps.v4(ip).Some? then bits <= 32 else ps.v6(ip).Some? && bits <= 128
  {
    if ps.v4(ip).Some? then
      ps.v4(client).Some? && Top(ps.v4(client).value, bits) == Top(ps.v4(ip).value, bits)
    else
      ps.v4(client).None? && ps.v6(client).Some? && Top(ps.v6(client).value, bits) == Top(ps.v6(ip).value, bits)
  }

  lemma HitsPrefix(kind: IPType, written: Bytes, prefix: int, address: Bytes)
    requires |written| == |address| == Width(kind) && 0 <= prefix <= 8 * Width(kind)
    ensures Hits(address, kind, Network(kind, written, prefix).value)
            <==> Top(address, prefix) == Top(written, prefix)
  {
    hide Top, Hits, Within, Masked;
    NetworkCoversPrefix(kind, written, prefix, address);
    HitsIsWithin(address, kind, Network(kind, written, prefix).value);
  }

  lemma OneRange(ps: Parsers, text: string)
    ensures Ranges(ps, [text]) == if ParseCidr(ps, text).Some? then Some([ParseCidr(ps, text).value]) else None
  {
    hide ParseCidr;
    var none: seq<string> := [];
    assert [text][..0] == none && Ranges(ps, none) == Some([]);
    if ParseCidr(ps, text).Some? {
      var start: seq<Range> := [];
      assert start + [ParseCidr(ps, text).value] == [ParseCidr(ps, text).value];
    }
  }

  lemma AllowsOne(ps: Parsers, r: Range, client: string)
    ensures Allows(ps, [r], client) <==>
              if ps.v4(client).Some? then Hits(ps.v4(client).value, IPv4, r)
              else ps.v6(client).Some? && Hits(ps.v6(client).value, IPv6, r)
  {
    hide Hits;
    assert [r][0] == r;
  }

  /** A list of one written network admits exactly the addresses that share its first bits; it is no list
      exactly if the text names no network. */
  lemma NetworkAdmits(ps: Parsers, ip: string, bits: string, client: string)
    requires Avoids(ip, {'/'})
    ensures Ranges(ps, [ip + "/" + bits]).Some? <==> NamesNetwork(ps, ip, bits)
    ensures AllowlistAdmits(ps, [ip + "/" + bits], client)
            <==> NamesNetwork(ps, ip, bits) && SharesBits(ps, ip, ps.number(bits).value, client)
  {
    hide Top, Hits, Masked, Allows;
    var text := ip + "/" + bits;
    assert text == ip + ("/" + bits);
    FindAt(ip, "/" + bits, {'/'});
    assert text[..|ip|] == ip && text[|ip| + 1..] == bits;
    OneRange(ps, text);
    if NamesNetwork(ps, ip, bits) {
      var n := ps.number(bits).value;
      AllowsOne(ps, ParseCidr(ps, text).value, client);
      if ps.v4(ip).Some? && ps.v4(client).Some? {
        HitsPrefix(IPv4, ps.v4(ip).value, n, ps.v4(client).value);
      }
      if ps.v4(ip).None? && ps.v6(client).Some? {
        HitsPrefix(IPv6, ps.v6(ip).value, n, ps.v6(client).value);
      }
      OtherFamilyMisses(ParseCidr(ps, text).value);
    }
  }

  lemma OtherFamilyMisses(r: Range)
    ensures forall address :: Hits(address, IPv4, r) ==> r.kind == IPv4
    ensures forall address :: Hits(address, IPv6, r) ==> r.kind == IPv6
  {
    hide Matches;
  }

  lemma WholeHits(kind: IPType, written: Bytes, address: Bytes)
    requires |written| == |address| == Width(kind)
    ensures Hits(address, kind, IpAllowlist.Whole(kind, written)) <==> address == written
  {
    hide Kept;
    assert address[..|address|] == address && written[..|written|] == written;
  }

  /** A list of one written address admits exactly that address; it is no list exactly if the text is no
      address. */
  lemma AddressAdmits(ps: Parsers, ip: string, client: string)
    requires Avoids(ip, {'/'})
    ensures Ranges(ps, [ip]).Some? <==> ps.v4(ip).Some? || ps.v6(ip).Some?
    ensures AllowlistAdmits(ps, [ip], client) <==>
              if ps.v4(ip).Some? then ps.v4(client) == ps.v4(ip)
              else ps.v6(ip).Some? && ps.v4(client).None? && ps.v6(client) == ps.v6(ip)
  {
    hide Hits, Masked, Allows;
    assert ip + "" == ip;
    FindAt(ip, "", {'/'});
    OneRange(ps, ip);
    if ParseCidr(ps, ip).Some? {
      AllowsOne(ps, ParseCidr(ps, ip).value, client);
      OtherFamilyMisses(ParseCidr(ps, ip).value);
      if ps.v4(ip).Some? && ps.v4(client).Some? {
        WholeHits(IPv4, ps.v4(ip).value, ps.v4(client).value);
      }
      if ps.v4(ip).None? && ps.v6(client).Some? {
        WholeHits(IPv6, ps.v6(ip).value, ps.v6(client).value);
      }
    }
  }

  // ----- many texts -----

  ghost predicate Listed(ps: Parsers, text: string) {
    Ranges(ps, [text]).Some?
  }

  lemma {:induction false} ListedAll(ps: Parsers, texts: seq<string>)
    ensures Ranges(ps, texts).Some? <==> forall i :: 0 <= i < |texts| ==> ParseCidr(ps, texts[i]).Some?
    ensures Ranges(ps, texts).Some? ==>
              && |Ranges(ps, texts).value| == |texts|
              && forall i :: 0 <= i < |texts| ==> Ranges(ps, texts).value[i] == ParseCidr(ps, texts[i]).value
  {
    hide ParseCidr;
    if texts != [] {
      var front := texts[..|texts| - 1];
      ListedAll(ps, front);
      assert forall i :: 0 <= i < |front| ==> front[i] == texts[i];
    }
  }

  /** A list is read exactly if each of its texts is, and then admits a client exactly if one of its texts
      alone would. */
  lemma ListAdmits(ps: Parsers, texts: seq<string>, client: string)
    requires texts != []
    ensures Ranges(ps, texts).Some? <==> forall i :: 0 <= i < |texts| ==> Listed(ps, texts[i])
    ensures AllowlistAdmits(ps, texts, client) <==>
              && (forall i :: 0 <= i < |texts| ==> Listed(ps, texts[i]))
              && (exists i :: 0 <= i < |texts| && AllowlistAdmits(ps, [texts[i]], client))
  {
    hide ParseCidr, Hits, Ranges, Allows;
    ListedAll(ps, texts);
    forall i | 0 <= i < |texts| ensures Listed(ps, texts[i]) <==> ParseCidr(ps, texts[i]).Some? {
      OneRange(ps, texts[i]);
    }
    if Ranges(ps, texts).Some? {
      var ranges := Ranges(ps, texts).value;
      forall i | 0 <= i < |texts|
        ensures AllowlistAdmits(ps, [texts[i]], client) <==> HitsClient(ps, ranges[i], client)
      {
        OneRange(ps, texts[i]);
        AllowsOne(ps, ranges[i], client);
      }
      AllowsSome(ps, ranges, client);
    }
  }

  predicate HitsClient(ps: Parsers, r: Range, client: string) {
    if ps.v4(client).Some? then Hits(ps.v4(client).value, IPv4, r)
    else ps.v6(client).Some? && Hits(ps.v6(client).value, IPv6, r)
  }

  lemma AllowsSome(ps: Parsers, ranges: seq<Range>, client: string)
    requires ranges != []
    ensures Allows(ps, ranges, client) <==> exists i :: 0 <= i < |ranges| && HitsClient(ps, ranges[i], client)
  {
    hide Hits;
  }

  // ----- admission -----

  /** Why a client is turned away, or that it is not: the tunnel is looked up first, then the address, the
      allowlist and the agent. */
  lemma RefusedInOrder(ps: Parsers, tunnel: Option<TunnelConfig>, address: Option<string>, agentConnected: bool)
    ensures var d := Decide(ps, tunnel, address, agentConnected);
            var listed := tunnel.Some? && address.Some?
                          && (tunnel.value.allowlist == []
                              || AllowlistAdmits(ps, tunnel.value.allowlist, address.value));
            && (d == TcpProxy.TunnelNotFound <==> tunnel.None?)
            && (d == TcpProxy.NoClientAddress <==> tunnel.Some? && address.None?)
            && (d == TcpProxy.NotAllowed <==> tunnel.Some? && address.Some? && !listed)
            && (d == TcpProxy.AgentNotConnected <==> listed && !agentConnected)
            && (d == TcpProxy.Admitted <==> listed && agentConnected)
  {
    hide AllowlistAdmits;
    if tunnel.Some? && address.Some? { EmptyAdmits(ps, address.value); }
  }

  lemma EmptyAdmits(ps: Parsers, client: string)
    ensures AllowlistAdmits(ps, [], client)
  {
  }
}
