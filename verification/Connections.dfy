/** The connect and bind hooks whole: which of a role's network sections decides, and what a role permits. */
module Connections {
  import opened Base
  import opened Table
  import opened Walk
  import opened Policy
  import opened Writes
  import opened Apply
  import opened RoleLaws
  import opened EndToEnd
  import opened Network

  /** The address a socket call names; an IPv4 address is the number its octets spell. */
  datatype Peer = Inet(address: bv32, port: U16) | Inet6(port: U16) | OtherFamily

  /** The address, as the kernel holds it, that the checks before the ports look at: 0 stands for none. */
  function KernelAddress(peer: Peer): bv32
  {
    if peer.Inet? then Swap(peer.address) else 0
  }

  function PortOf(peer: Peer): U16
  {
    if peer.OtherFamily? then 0 else peer.port
  }

  function Grant(allow: bool): int
  {
    if allow then GRANTED else DENY
  }

  // ---- what the hooks answer, read off the maps ----

  /** Only connections to the proxy or to this host pass where the proxy is required. */
  function ProxyBlocks(store: Store, id: nat, kernelAddress: bv32, port: U16): bool
  {
    match LookUp(store, ProxyKey(id))
    case Some(ProxyValue(address, p, required)) =>
      required && !(kernelAddress == address && port == p) && kernelAddress & 0xFF != 0x7F
    case _ => false
  }

  /** The port rules, for a protocol the rules can name and a family that has ports. */
  function PortsAnswer(store: Store, id: nat, protocol: Option<bv8>, peer: Peer, connect: bool): int
  {
    if protocol.None? || peer.OtherFamily? then NO_RULE
    else Out(PortVerdict(store, id, protocol.value, peer.port, connect))
  }

  function BindAnswer(store: Store, id: nat, protocol: Option<bv8>, peer: Peer): int
  {
    match FlagsIn(store, id)
    case None => DENY
    case Some(flags) => Settle(PortsAnswer(store, id, protocol, peer, false), flags, 0x02)
  }

  function ConnectAnswer(store: Store, id: nat, protocol: Option<bv8>, peer: Peer): int
  {
    var ip := KernelAddress(peer);
    match FlagsIn(store, id)
    case None => DENY
    case Some(flags) =>
      if ip != 0 && ProxyBlocks(store, id, ip, PortOf(peer)) then DENY
      else
        var name, net := DomainVerdict(store, id, ip), FirstProbe(store, id, Swap(ip), true, PROBES);
        if ip != 0 && name.Some? then Grant(name.value)
        else if ip != 0 && net.Some? then Grant(net.value)
        else Settle(PortsAnswer(store, id, protocol, peer, true), flags, 0x02)
  }

  method CheckProxyRequirement(store: Store, id: nat, kernelAddress: bv32, port: U16) returns (blocked: bool)
    ensures blocked == ProxyBlocks(store, id, kernelAddress, port)
  {
    var config := LookUp(store, ProxyKey(id));
    if config.None? || !config.value.ProxyValue? || !config.value.required {
      return false;
    }
    if kernelAddress == config.value.address && port == config.value.port {
      return false;
    }
    return kernelAddress & 0xFF != 0x7F;
  }

  method CheckNetworkAccess(store: Store, id: nat, protocol: Option<bv8>, peer: Peer, connect: bool)
    returns (verdict: int)
    ensures verdict == PortsAnswer(store, id, protocol, peer, connect)
  {
    if protocol.None? || peer.OtherFamily? {
      return NO_RULE;
    }
    verdict := CheckPortRules(store, id, protocol.value, peer.port, connect);
  }

  /** How the port rules and the flag combine, as the hooks spell it out. */
  method PortsOrFlag(store: Store, id: nat, flags: bv8, protocol: Option<bv8>, peer: Peer, connect: bool)
    returns (answer: int)
    ensures answer == Settle(PortsAnswer(store, id, protocol, peer, connect), flags, 0x02)
  {
    hide PortVerdict;
    var result := CheckNetworkAccess(store, id, protocol, peer, connect);
    if flags & 0x02 == 0 {
      return if result == ALLOW then GRANTED else DENY;
    }
    return if result == DENY then DENY else GRANTED;
  }

  method SocketConnect(store: Store, id: nat, protocol: Option<bv8>, peer: Peer) returns (answer: int)
    ensures answer == ConnectAnswer(store, id, protocol, peer)
  {
    hide Swap, ProxyBlocks, FirstProbe, DomainVerdict, PortsAnswer;
    var flags := FlagsIn(store, id);
    if flags.None? {
      return DENY;
    }
    var ip := KernelAddress(peer);
    if ip != 0 {
      var blocked := CheckProxyRequirement(store, id, ip, PortOf(peer));
      if blocked {
        return DENY;
      }
      var name := CheckDomainAccess(store, id, ip);
      if name != NO_RULE {
        return if name == ALLOW then GRANTED else DENY;
      }
      var net := CheckIpAccess(store, id, ip, true);
      if net != NO_RULE {
        return if net == ALLOW then GRANTED else DENY;
      }
    }
    answer := PortsOrFlag(store, id, flags.value, protocol, peer, true);
  }

  method SocketBind(store: Store, id: nat, protocol: Option<bv8>, peer: Peer) returns (answer: int)
    ensures answer == BindAnswer(store, id, protocol, peer)
  {
    hide PortsAnswer;
    var flags := FlagsIn(store, id);
    if flags.None? {
      return DENY;
    }
    answer := PortsOrFlag(store, id, flags.value, protocol, peer, false);
  }

  // ---- what a role says, read off its rules ----

  /** The last domain rule whose name resolves to the address. */
  ghost function DomainSays(rules: seq<DomainRule>, resolve: Resolver, address: bv32): Option<bool>
  {
    if i :| LastResolving(rules, resolve, address, i) then Some(rules[i].allow) else None
  }

  /** The last address rule containing it, at the longest probed length at which any does. */
  ghost function AddressSays(rules: seq<IpRule>, address: bv32): Option<bool>
  {
    if at, i :| LongestMatch(rules, address, true, PROBES, at, i) then Some(rules[i].allow) else None
  }

  /** The last usable port rule that contains the port, else the last that contains 0. */
  ghost function PortSays(rules: seq<NetworkRule>, protocol: bv8, port: U16): Option<bool>
  {
    if i :| LastSpeaking(rules, protocol, port, i) then Some(rules[i].allow)
    else if i :| LastSpeaking(rules, protocol, 0, i) then Some(rules[i].allow)
    else None
  }

  /** The role requires a proxy, and this is neither it nor an address of this host. */
  predicate Bypasses(proxy: Option<Proxy>, address: bv32, port: U16)
  {
    && proxy.Some? && proxy.value.required && proxy.value.endpoint.Some?
    && proxy.value.endpoint.value != Endpoint(address, port)
    && address >> 24 != 127
  }

  ghost predicate PortsPermit(role: Role, protocol: Option<bv8>, peer: Peer)
  {
    if protocol.None? || peer.OtherFamily? then role.flags.allowNetwork
    else
      match PortSays(role.networkRules, protocol.value, peer.port)
      case Some(allow) => allow
      case None => role.flags.allowNetwork
  }

  /** First the proxy, then names, then addresses, then ports, then the flag. */
  ghost predicate ConnectPermitted(role: Role, resolve: Resolver, protocol: Option<bv8>, peer: Peer)
  {
    if !peer.Inet? || peer.address == 0 then PortsPermit(role, protocol, peer)
    else if Bypasses(role.proxy, peer.address, peer.port) then false
    else
      match DomainSays(role.domainRules, resolve, peer.address)
      case Some(allow) => allow
      case None =>
        match AddressSays(role.ipRules, peer.address)
        case Some(allow) => allow
        case None => PortsPermit(role, protocol, peer)
  }

  // ---- the two agree ----

  lemma SwapOctets(x: bv32)
    ensures Swap(x) == 0 <==> x == 0
    ensures Swap(x) & 0xFF == 0x7F <==> x >> 24 == 127
  {
  }

  lemma SwapInjective(x: bv32, y: bv32)
    ensures Swap(x) == Swap(y) <==> x == y
  {
    hide Swap;
    SwapInvolution(x);
    SwapInvolution(y);
  }

  lemma ProxyLast(h: Hashing, p: Prepared, resolve: Resolver, store: Store)
    requires Parses(p.role) && WellPrepared(h, p) && EmptyFor(store, p.role.id)
    ensures LookUp(Loaded(h, p, resolve, store), ProxyKey(p.role.id)) ==
            if p.role.proxy.None? then None
            else var e := p.role.proxy.value.endpoint.value;
                 Some(ProxyValue(Swap(e.address), e.port, p.role.proxy.value.required))
  {
    hide Swap, WellPrepared, WritesOf, Loaded, EmptyFor;
    var k := ProxyKey(p.role.id);
    LoadedLookUp(h, p, resolve, store, k);
    SectionOfKind(h, p, resolve, k);
    var ws := ProxyWrites(p.role.id, p.role.proxy);
    if ws != [] { assert ws[..0] == []; }
  }

  lemma ProxyMeans(h: Hashing, p: Prepared, resolve: Resolver, store: Store, address: bv32, port: U16)
    requires Parses(p.role) && WellPrepared(h, p) && EmptyFor(store, p.role.id)
    ensures ProxyBlocks(Loaded(h, p, resolve, store), p.role.id, Swap(address), port)
       <==> Bypasses(p.role.proxy, address, port)
  {
    hide Swap, WellPrepared, Loaded, EmptyFor;
    ProxyLast(h, p, resolve, store);
    SwapOctets(address);
    if p.role.proxy.Some? { SwapInjective(address, p.role.proxy.value.endpoint.value.address); }
  }

  lemma DomainMeans(h: Hashing, p: Prepared, resolve: Resolver, store: Store, address: bv32)
    requires Parses(p.role) && WellPrepared(h, p) && EmptyFor(store, p.role.id) && NamesDistinct(h, p.role.domainRules)
    requires address != 0
    ensures DomainVerdict(Loaded(h, p, resolve, store), p.role.id, Swap(address))
         == DomainSays(p.role.domainRules, resolve, address)
  {
    hide Swap, WellPrepared, Loaded, EmptyFor, DomainVerdict, NamesDistinct;
    SwapOctets(address);
    DomainRulesMean(h, p, resolve, store, address);
  }

  lemma AddressMeans(h: Hashing, p: Prepared, resolve: Resolver, store: Store, address: bv32)
    requires Parses(p.role) && WellPrepared(h, p) && EmptyFor(store, p.role.id)
    ensures FirstProbe(Loaded(h, p, resolve, store), p.role.id, address, true, PROBES)
         == AddressSays(p.role.ipRules, address)
  {
    hide WellPrepared, Loaded, EmptyFor, FirstProbe, Contains;
    CidrLongestMatch(h, p, resolve, store, address, true);
    forall a, i, b, j | LongestMatch(p.role.ipRules, address, true, PROBES, a, i)
                        && LongestMatch(p.role.ipRules, address, true, PROBES, b, j)
      ensures i == j
    {
      OneLongestMatch(p.role.ipRules, address, true, a, i, b, j);
    }
  }

  lemma PortMeans(h: Hashing, p: Prepared, resolve: Resolver, store: Store, protocol: bv8, port: U16, connect: bool)
    requires Parses(p.role) && WellPrepared(h, p) && EmptyFor(store, p.role.id)
    ensures PortVerdict(Loaded(h, p, resolve, store), p.role.id, protocol, port, connect)
         == PortSays(p.role.networkRules, protocol, port)
  {
    hide WellPrepared, Loaded, EmptyFor, PortVerdict, Speaks;
    PortRulesMean(h, p, resolve, store, protocol, port, connect);
  }

  lemma PortsMean(h: Hashing, p: Prepared, resolve: Resolver, store: Store, flags: bv8, protocol: Option<bv8>,
                  peer: Peer, connect: bool)
    requires Parses(p.role) && WellPrepared(h, p) && EmptyFor(store, p.role.id)
    requires flags == FlagByte(p.role.flags)
    ensures Settle(PortsAnswer(Loaded(h, p, resolve, store), p.role.id, protocol, peer, connect), flags, 0x02)
            == GRANTED
       <==> PortsPermit(p.role, protocol, peer)
  {
    hide WellPrepared, Loaded, EmptyFor, PortVerdict, PortSays, FlagByte, Parses;
    FlagBits(p.role.flags);
    if protocol.Some? && !peer.OtherFamily? { PortMeans(h, p, resolve, store, protocol.value, peer.port, connect); }
  }

  lemma LoadedFlags(h: Hashing, p: Prepared, resolve: Resolver, store: Store)
    requires Parses(p.role) && WellPrepared(h, p)
    ensures FlagsIn(Loaded(h, p, resolve, store), p.role.id) == Some(FlagByte(p.role.flags))
  {
    AppliedFlags(h, p, resolve, store);
  }

  lemma ConnectMeans(h: Hashing, p: Prepared, resolve: Resolver, store: Store, protocol: Option<bv8>, peer: Peer)
    requires Parses(p.role) && WellPrepared(h, p) && EmptyFor(store, p.role.id) && NamesDistinct(h, p.role.domainRules)
    ensures ConnectAnswer(Loaded(h, p, resolve, store), p.role.id, protocol, peer) == GRANTED
       <==> ConnectPermitted(p.role, resolve, protocol, peer)
  {
    hide WellPrepared, Loaded, EmptyFor, NamesDistinct, Swap, ProxyBlocks, Bypasses, DomainVerdict, DomainSays,
         FirstProbe, AddressSays, PortsAnswer, PortsPermit, FlagByte, Parses, Settle;
    LoadedFlags(h, p, resolve, store);
    PortsMean(h, p, resolve, store, FlagByte(p.role.flags), protocol, peer, true);
    if peer.Inet? {
      SwapOctets(peer.address);
      SwapInvolution(peer.address);
      if peer.address != 0 {
        ProxyMeans(h, p, resolve, store, peer.address, peer.port);
        DomainMeans(h, p, resolve, store, peer.address);
        AddressMeans(h, p, resolve, store, peer.address);
      }
    }
  }

  lemma BindMeans(h: Hashing, p: Prepared, resolve: Resolver, store: Store, protocol: Option<bv8>, peer: Peer)
    requires Parses(p.role) && WellPrepared(h, p) && EmptyFor(store, p.role.id)
    ensures BindAnswer(Loaded(h, p, resolve, store), p.role.id, protocol, peer) == GRANTED
       <==> PortsPermit(p.role, protocol, peer)
  {
    hide WellPrepared, Loaded, EmptyFor, PortsAnswer, PortsPermit, FlagByte, Parses, Settle;
    LoadedFlags(h, p, resolve, store);
    PortsMean(h, p, resolve, store, FlagByte(p.role.flags), protocol, peer, false);
  }

  // ---- a role in force ----

  lemma {:induction false} ProbesByOwnKeys(a: Store, b: Store, id: nat, address: bv32, probes: seq<bv8>)
    requires AgreeFor(a, b, id)
    ensures FirstProbe(a, id, address, true, probes) == FirstProbe(b, id, address, true, probes)
    decreases |probes|
  {
    hide Swap, MaskIpv4;
    if probes != [] {
      assert LookUp(a, ProbeKey(id, address, probes[0], true)) == LookUp(b, ProbeKey(id, address, probes[0], true));
      ProbesByOwnKeys(a, b, id, address, probes[1..]);
    }
  }

  lemma NetworkByOwnKeys(a: Store, b: Store, id: nat, protocol: Option<bv8>, peer: Peer)
    requires AgreeFor(a, b, id)
    ensures ConnectAnswer(a, id, protocol, peer) == ConnectAnswer(b, id, protocol, peer)
    ensures BindAnswer(a, id, protocol, peer) == BindAnswer(b, id, protocol, peer)
  {
    hide Swap, FirstProbe, FlagsIn, ProxyBlocks, DomainVerdict, PortsAnswer, Settle, AgreeFor;
    var ip := KernelAddress(peer);
    ProbesByOwnKeys(a, b, id, Swap(ip), PROBES);
    LookupsByOwnKeys(a, b, id, ip, PortOf(peer));
    PortsByOwnKeys(a, b, id, protocol, peer, true);
    PortsByOwnKeys(a, b, id, protocol, peer, false);
  }

  lemma LookupsByOwnKeys(a: Store, b: Store, id: nat, ip: bv32, port: U16)
    requires AgreeFor(a, b, id)
    ensures FlagsIn(a, id) == FlagsIn(b, id)
    ensures ProxyBlocks(a, id, ip, port) == ProxyBlocks(b, id, ip, port)
    ensures DomainVerdict(a, id, ip) == DomainVerdict(b, id, ip)
  {
    hide LookUp;
    assert LookUp(a, FlagsOf(id)) == LookUp(b, FlagsOf(id)) && LookUp(a, ProxyKey(id)) == LookUp(b, ProxyKey(id));
    assert LookUp(a, DnsKey(id, ip)) == LookUp(b, DnsKey(id, ip));
  }

  lemma PortsByOwnKeys(a: Store, b: Store, id: nat, protocol: Option<bv8>, peer: Peer, connect: bool)
    requires AgreeFor(a, b, id)
    ensures PortsAnswer(a, id, protocol, peer, connect) == PortsAnswer(b, id, protocol, peer, connect)
  {
    hide LookUp;
    if protocol.Some? && !peer.OtherFamily? {
      var exact, any := NetKey(id, peer.port, protocol.value, connect), NetKey(id, 0, protocol.value, connect);
      assert LookUp(a, exact) == LookUp(b, exact) && LookUp(a, any) == LookUp(b, any);
    }
  }

  /**
   End to end for the network: a connection by a task with the role is granted exactly when the role
   permits it, and a bind exactly when its port rules or, where they are silent, its flag does.
   */
  lemma NetworkIsEnforced(h: Hashing, store: Store, role: Role, resolve: Resolver, protocol: Option<bv8>, peer: Peer)
    requires InForce(h, store, role, resolve)
    ensures NamesDistinct(h, role.domainRules) ==>
              (ConnectAnswer(store, role.id, protocol, peer) == GRANTED
               <==> ConnectPermitted(role, resolve, protocol, peer))
    ensures BindAnswer(store, role.id, protocol, peer) == GRANTED <==> PortsPermit(role, protocol, peer)
  {
    hide WellPrepared, EmptyFor, AgreeFor, NamesDistinct, ConnectAnswer, BindAnswer, ConnectPermitted, PortsPermit,
         WritesOf, WriteSeq, Parses;
    var p: Prepared, before :| p.role == role && AppliedOn(h, p, resolve, before, store);
    NetworkByOwnKeys(store, Loaded(h, p, resolve, before), role.id, protocol, peer);
    if NamesDistinct(h, role.domainRules) { ConnectMeans(h, p, resolve, before, protocol, peer); }
    BindMeans(h, p, resolve, before, protocol, peer);
  }
}
