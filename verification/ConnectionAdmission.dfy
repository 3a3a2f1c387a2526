/** The checks a client passes before a connection is created for it: the tunnel, the client's address,
    the tunnel's allowlist and the agent, in that order. */
module ConnectionAdmission {
  import opened Wrappers
  import opened IpAllowlist
  import opened TcpProxy

  datatype TunnelConfig = TunnelConfig(allowlist: seq<string>)

  /** No allowlist admits everyone; one that does not parse admits no one. */
  predicate AllowlistAdmits(ps: Parsers, allowlist: seq<string>, ip: string) {
    || allowlist == []
    || (Ranges(ps, allowlist).Some? && Allows(ps, Ranges(ps, allowlist).value, ip))
  }

  function Decide(ps: Parsers, tunnel: Option<TunnelConfig>, address: Option<string>, agentConnected: bool): Admission {
    if tunnel.None? then TunnelNotFound
    else if address.None? then NoClientAddress
    else if !AllowlistAdmits(ps, tunnel.value.allowlist, address.value) then NotAllowed
    else if !agentConnected then AgentNotConnected
    else Admitted
  }

  method ValidateIpAllowlist(ps: Parsers, allowlist: seq<string>, ip: string) returns (ok: bool)
    ensures ok == AllowlistAdmits(ps, allowlist, ip)
  {
    hide Allows;
    if allowlist == [] {
      return true;
    }
    var list := FromCidrList(ps, allowlist);
    if list == null {
      return false;
    }
    ok := list.IsAllowed(ip);
  }

  method Admit(ps: Parsers, tunnel: Option<TunnelConfig>, address: Option<string>, agentConnected: bool)
    returns (admission: Admission)
    ensures admission == Decide(ps, tunnel, address, agentConnected)
  {
    if tunnel.None? {
      return TunnelNotFound;
    }
    if address.None? {
      return NoClientAddress;
    }
    var ok := ValidateIpAllowlist(ps, tunnel.value.allowlist, address.value);
    if !ok {
      return NotAllowed;
    }
    return if agentConnected then Admitted else AgentNotConnected;
  }

  /** The address is a number in a range of its family. */
  predicate InSomeRange(ps: Parsers, ranges: seq<Range>, ip: string) {
    || (ps.v4(ip).Some? && exists i :: 0 <= i < |ranges| && Within(ps.v4(ip).value, IPv4, ranges[i]))
    || (ps.v4(ip).None? && ps.v6(ip).Some?
        && exists i :: 0 <= i < |ranges| && Within(ps.v6(ip).value, IPv6, ranges[i]))
  }

  lemma {:induction false} RangePerText(ps: Parsers, texts: seq<string>)
    ensures Ranges(ps, texts).Some? ==> |Ranges(ps, texts).value| == |texts|
  {
    hide ParseCidr;
    if texts != [] { RangePerText(ps, texts[..|texts| - 1]); }
  }

  /** A client gets a connection exactly when the tunnel is known, its address is known, the agent is
      connected, and the allowlist is empty or parses and has the address, as a number, in a range. */
  lemma AdmittedExactlyWhenInRange(ps: Parsers, tunnel: Option<TunnelConfig>, address: Option<string>,
                                   agentConnected: bool)
    ensures Decide(ps, tunnel, address, agentConnected) == Admitted <==>
              && tunnel.Some? && address.Some? && agentConnected
              && (tunnel.value.allowlist == [] ||
                  (Ranges(ps, tunnel.value.allowlist).Some?
                   && InSomeRange(ps, Ranges(ps, tunnel.value.allowlist).value, address.value)))
  {
    hide Allows, Ranges, Within;
    if tunnel.Some? && address.Some? && Ranges(ps, tunnel.value.allowlist).Some? {
      RangePerText(ps, tunnel.value.allowlist);
      AllowedIsWithin(ps, Ranges(ps, tunnel.value.allowlist).value, address.value);
    }
  }
}
