/** The network lookups of the connect and bind hooks, and what a role's rules mean to them. */
module Network {
  import opened Base
  import opened Table
  import opened Walk
  import opened Policy
  import opened Writes
  import opened Apply
  import opened RoleLaws
  import opened EndToEnd
  import opened Bits

  // ---- addresses ----

  lemma SwapAnd(x: bv32, y: bv32)
    ensures Swap(x & y) == Swap(x) & Swap(y)
  {
  }

  lemma SwapInvolution(x: bv32)
    ensures Swap(Swap(x)) == x
  {
  }

  /** The four octets in the other order. */
  lemma SwapReverses(x: bv32)
    ensures Swap(x) & 0xFF == x >> 24 && (Swap(x) >> 8) & 0xFF == (x >> 16) & 0xFF
    ensures (Swap(x) >> 16) & 0xFF == (x >> 8) & 0xFF && Swap(x) >> 24 == x & 0xFF
  {
  }

  /** The two addresses begin with the same `n` bits, compared one by one from the top; there are 32. */
  predicate SameStart(a: bv32, b: bv32, n: bv8)
  {
    if n == 0 then true
    else if n > 32 then SameStart(a, b, 32)
    else SameStart(a, b, n - 1) && Common(a, BitAt(n)) == Common(b, BitAt(n))
  }

  lemma MaskGrows(n: bv8)
    requires 0 < n <= 32
    ensures PrefixMask(n) == Either(PrefixMask(n - 1), BitAt(n))
  {
    MaskStep(n - 1);
  }

  lemma MaskIsCommon(x: bv32, n: bv8)
    ensures MaskIpv4(x, n) == Common(x, PrefixMask(n))
  {
    hide PrefixMask;
  }

  lemma MaskAtEnds(x: bv32, n: bv8)
    ensures n > 32 ==> PrefixMask(n) == PrefixMask(32)
    ensures Common(x, PrefixMask(0)) == 0
  {
    hide Common;
    Nothing(x);
  }

  lemma MaskOneMore(a: bv32, b: bv32, n: bv8)
    requires 0 < n <= 32
    ensures MaskIpv4(a, n) == MaskIpv4(b, n)
       <==> MaskIpv4(a, n - 1) == MaskIpv4(b, n - 1) && Common(a, BitAt(n)) == Common(b, BitAt(n))
  {
    hide MaskIpv4, PrefixMask, Common, Either, BitAt;
    MaskIsCommon(a, n);
    MaskIsCommon(b, n);
    MaskIsCommon(a, n - 1);
    MaskIsCommon(b, n - 1);
    MaskGrows(n);
    OneMoreBit(a, b, PrefixMask(n - 1), BitAt(n));
  }

  /** Two addresses are in one network of that length exactly when they begin with the same bits. */
  lemma {:induction false} MaskMeans(a: bv32, b: bv32, prefix: bv8)
    ensures MaskIpv4(a, prefix) == MaskIpv4(b, prefix) <==> SameStart(a, b, prefix)
  {
    hide MaskIpv4, PrefixMask, Common, Either, BitAt;
    MaskIsCommon(a, prefix);
    MaskIsCommon(b, prefix);
    MaskAtEnds(a, prefix);
    MaskAtEnds(b, prefix);
    if prefix > 32 {
      MaskIsCommon(a, 32);
      MaskIsCommon(b, 32);
      MaskMeans(a, b, 32);
    } else if prefix > 0 {
      MaskMeans(a, b, prefix - 1);
      MaskOneMore(a, b, prefix);
    }
  }

  /** Masking as the kernel holds addresses agrees with masking as the encoder does. */
  lemma MaskedAddress(kernelAddress: bv32, prefix: bv8)
    ensures kernelAddress & Swap(PrefixMask(prefix)) == Swap(MaskIpv4(Swap(kernelAddress), prefix))
  {
    hide PrefixMask;
    SwapAnd(Swap(kernelAddress), PrefixMask(prefix));
    SwapInvolution(kernelAddress);
  }

  lemma WholeAddress(kernelAddress: bv32)
    ensures kernelAddress == Swap(MaskIpv4(Swap(kernelAddress), 32))
  {
  }

  lemma MaskStep(j: bv8)
    requires j < 32
    ensures PrefixMask(j + 1) == PrefixMask(j) | (1 << (31 - j))
  {
  }

  /** The kernel's mask, set bit by bit from the top and then brought into network order. */
  method NetworkMask(prefix: bv8) returns (mask: bv32)
    requires prefix <= 32
    ensures mask == Swap(PrefixMask(prefix))
  {
    mask := 0;
    var j: bv8 := 0;
    while j < 32
      invariant j <= 32
      invariant mask == PrefixMask(if j < prefix then j else prefix)
      decreases 32 - j
    {
      if j < prefix {
        MaskStep(j);
        mask := mask | (1 << (31 - j));
      }
      j := j + 1;
    }
    mask := Swap(mask);
  }

  function DecisionAt(store: Store, k: MapKey): Option<bool>
  {
    match LookUp(store, k)
    case Some(Decision(allow)) => Some(allow)
    case _ => None
  }

  // ---- networks ----

  /** The prefix lengths the kernel probes, longest first. */
  const PROBES: seq<bv8> := [32, 24, 16, 12, 8, 0]

  /** The slot probed for an address at one length. */
  function ProbeKey(id: nat, address: bv32, prefix: bv8, connect: bool): MapKey
  {
    IpKey(id, Swap(MaskIpv4(address, prefix)), prefix, connect)
  }

  function FirstProbe(store: Store, id: nat, address: bv32, connect: bool, probes: seq<bv8>): Option<bool>
  {
    if probes == [] then None
    else
      var d := DecisionAt(store, ProbeKey(id, address, probes[0], connect));
      if d.Some? then d else FirstProbe(store, id, address, connect, probes[1..])
  }

  /** Look one length up; `kernelAddress` is the address as the kernel holds it, octets in network order. */
  method Probe(store: Store, id: nat, kernelAddress: bv32, prefix: bv8, connect: bool) returns (rule: Option<bool>)
    requires prefix <= 32
    ensures rule == DecisionAt(store, ProbeKey(id, Swap(kernelAddress), prefix, connect))
  {
    hide Swap, PrefixMask, MaskIpv4, DecisionAt;
    var masked := kernelAddress;
    if prefix == 32 {
      WholeAddress(kernelAddress);
    } else {
      var mask := NetworkMask(prefix);
      MaskedAddress(kernelAddress, prefix);
      masked := kernelAddress & mask;
    }
    rule := DecisionAt(store, IpKey(id, masked, prefix, connect));
  }

  method CheckIpAccess(store: Store, id: nat, kernelAddress: bv32, connect: bool) returns (verdict: int)
    ensures verdict == Out(FirstProbe(store, id, Swap(kernelAddress), connect, PROBES))
  {
    hide Swap, DecisionAt, ProbeKey;
    var address, probes := Swap(kernelAddress), PROBES;
    assert probes[0..] == probes;
    for i := 0 to 6
      invariant FirstProbe(store, id, address, connect, probes) == FirstProbe(store, id, address, connect, probes[i..])
    {
      assert probes[i..][0] == probes[i] && probes[i..][1..] == probes[i + 1..];
      var rule := Probe(store, id, kernelAddress, probes[i], connect);
      if rule.Some? {
        return if rule.value then ALLOW else DENY;
      }
    }
    assert probes[6..] == [];
    return NO_RULE;
  }

  /** The rule speaks for this direction at this length, and its network contains the address. */
  predicate Contains(r: IpRule, address: bv32, prefix: bv8, connect: bool)
  {
    && r.cidr.Some? && r.cidr.value.prefix == prefix && r.direction == (if connect then Connect else Bind)
    && SameStart(r.cidr.value.address, address, prefix)
  }

  /** Rule `i` is the last listed that contains the address at this length. */
  predicate LastContaining(rules: seq<IpRule>, address: bv32, prefix: bv8, connect: bool, i: int)
  {
    && 0 <= i < |rules| && Contains(rules[i], address, prefix, connect)
    && forall j :: i < j < |rules| ==> !Contains(rules[j], address, prefix, connect)
  }

  lemma IpRuleKey(id: nat, r: IpRule, address: bv32, prefix: bv8, connect: bool)
    ensures LastWrite(IpRuleWrites(id, r), ProbeKey(id, address, prefix, connect)) ==
            if Contains(r, address, prefix, connect) then Some(Decision(r.allow)) else None
  {
    hide Swap, MaskIpv4, SameStart;
    if r.direction != Unknown && r.cidr.Some? {
      var c := r.cidr.value;
      MaskMeans(c.address, address, prefix);
      SwapInvolution(MaskIpv4(c.address, c.prefix));
      SwapInvolution(MaskIpv4(address, prefix));
      var w := IpRuleWrites(id, r);
      assert w[..0] == [];
    }
  }

  lemma {:induction false} IpLast(id: nat, rules: seq<IpRule>, address: bv32, prefix: bv8, connect: bool)
    ensures match LastWrite(IpWrites(id, rules), ProbeKey(id, address, prefix, connect))
            case Some(v) =>
              exists i :: LastContaining(rules, address, prefix, connect, i) && v == Decision(rules[i].allow)
            case None => forall i :: 0 <= i < |rules| ==> !Contains(rules[i], address, prefix, connect)
  {
    hide IpRuleWrites, Contains, ProbeKey;
    if rules != [] {
      var init, r, k := rules[..|rules| - 1], rules[|rules| - 1], ProbeKey(id, address, prefix, connect);
      IpLast(id, init, address, prefix, connect);
      IpRuleKey(id, r, address, prefix, connect);
      LastWriteConcat(IpWrites(id, init), IpRuleWrites(id, r), k);
      if Contains(r, address, prefix, connect) {
        assert LastContaining(rules, address, prefix, connect, |rules| - 1);
      } else if LastWrite(IpWrites(id, init), k).Some? {
        var i :| LastContaining(init, address, prefix, connect, i)
                 && LastWrite(IpWrites(id, init), k) == Some(Decision(init[i].allow));
        assert LastContaining(rules, address, prefix, connect, i);
      }
    }
  }

  /** The store after a role whose addresses all parse was applied. */
  function Loaded(h: Hashing, p: Prepared, resolve: Resolver, store: Store): Store
    requires Parses(p.role)
  {
    WriteSeq(store, WritesOf(h, p, resolve))
  }

  lemma LoadedLookUp(h: Hashing, p: Prepared, resolve: Resolver, store: Store, k: MapKey)
    requires Parses(p.role) && EmptyFor(store, p.role.id) && OwnerOf(k) == p.role.id
    ensures LookUp(Loaded(h, p, resolve, store), k) == LastWrite(WritesOf(h, p, resolve), k)
  {
    LookUpWritten(store, WritesOf(h, p, resolve), k);
  }

  /** The probe at index `at` of `probes` is the first that some rule answers, and rule `i` answers it. */
  predicate LongestMatch(rules: seq<IpRule>, address: bv32, connect: bool, probes: seq<bv8>, at: int, i: int)
  {
    && 0 <= at < |probes| && LastContaining(rules, address, probes[at], connect, i)
    && forall m :: 0 <= m < at ==> Silent(rules, address, connect, probes[m])
  }

  predicate Silent(rules: seq<IpRule>, address: bv32, connect: bool, prefix: bv8)
  {
    forall j :: 0 <= j < |rules| ==> !Contains(rules[j], address, prefix, connect)
  }

  lemma {:induction false} ProbesMatch(h: Hashing, p: Prepared, resolve: Resolver, store: Store, address: bv32,
                                       connect: bool, probes: seq<bv8>)
    requires Parses(p.role) && WellPrepared(h, p) && EmptyFor(store, p.role.id)
    ensures match FirstProbe(Loaded(h, p, resolve, store), p.role.id, address, connect, probes)
            case Some(d) => exists at, i :: LongestMatch(p.role.ipRules, address, connect, probes, at, i)
                                            && d == p.role.ipRules[i].allow
            case None => forall m :: 0 <= m < |probes| ==> Silent(p.role.ipRules, address, connect, probes[m])
    decreases |probes|
  {
    hide WellPrepared, WritesOf, Loaded, Contains, LastWrite, IpWrites, EmptyFor;
    if probes != [] {
      var rules, s := p.role.ipRules, Loaded(h, p, resolve, store);
      var k := ProbeKey(p.role.id, address, probes[0], connect);
      LoadedLookUp(h, p, resolve, store, k);
      SectionOfKind(h, p, resolve, k);
      IpLast(p.role.id, rules, address, probes[0], connect);
      ProbesMatch(h, p, resolve, store, address, connect, probes[1..]);
      if DecisionAt(s, k).Some? {
        var i :| LastContaining(rules, address, probes[0], connect, i) && DecisionAt(s, k) == Some(rules[i].allow);
        assert LongestMatch(rules, address, connect, probes, 0, i);
      } else {
        assert Silent(rules, address, connect, probes[0]);
        var rest := FirstProbe(s, p.role.id, address, connect, probes[1..]);
        if rest.Some? {
          var at, i :| LongestMatch(rules, address, connect, probes[1..], at, i) && rest.value == rules[i].allow;
          assert forall m :: 0 < m < at + 1 ==> probes[m] == probes[1..][m - 1];
          assert LongestMatch(rules, address, connect, probes, at + 1, i);
        }
      }
    }
  }

  /**
   Longest match among the probed lengths: the verdict for an address is that of
   the last listed rule containing it at the longest of 32, 24, 16, 12, 8 and 0
   at which any rule does; rules of other lengths are never consulted.
   */
  lemma CidrLongestMatch(h: Hashing, p: Prepared, resolve: Resolver, store: Store, address: bv32, connect: bool)
    requires Parses(p.role) && WellPrepared(h, p) && EmptyFor(store, p.role.id)
    ensures var rules, lengths: seq<bv8> := p.role.ipRules, [32, 24, 16, 12, 8, 0];
            match FirstProbe(Loaded(h, p, resolve, store), p.role.id, address, connect, PROBES)
            case Some(d) =>
              exists at, i :: LongestMatch(rules, address, connect, lengths, at, i) && d == rules[i].allow
            case None => forall m :: 0 <= m < |lengths| ==> Silent(rules, address, connect, lengths[m])
  {
    hide LongestMatch, Silent, FirstProbe, Loaded, WellPrepared, EmptyFor;
    ProbesMatch(h, p, resolve, store, address, connect, PROBES);
  }

  /** The rule's network contains the address, at the rule's own length. */
  predicate Covers(r: IpRule, address: bv32, connect: bool)
  {
    r.cidr.Some? && Contains(r, address, r.cidr.value.prefix, connect)
  }

  /** Rule `i` has the longest network of all that contain the address, last listed among equals. */
  predicate LongestOfAll(rules: seq<IpRule>, address: bv32, connect: bool, i: int)
  {
    && 0 <= i < |rules| && Covers(rules[i], address, connect)
    && forall j :: 0 <= j < |rules| && Covers(rules[j], address, connect) ==>
         var a, b := rules[j].cidr.value.prefix, rules[i].cidr.value.prefix;
         a < b || (a == b && j <= i)
  }

  /** Among the probed lengths at most one rule can be the one that decides. */
  lemma OneLongestMatch(rules: seq<IpRule>, address: bv32, connect: bool, a: int, i: int, b: int, j: int)
    requires LongestMatch(rules, address, connect, PROBES, a, i) && LongestMatch(rules, address, connect, PROBES, b, j)
    ensures a == b && i == j
  {
    hide Contains;
  }

  /**
   Against longest-prefix match over every length: the rule with the longest network that contains
   the address is the one that decides if and only if its length is among those probed; if no
   rule contains the address there is no verdict.
   */
  lemma CidrIsLongestIffProbed(h: Hashing, p: Prepared, resolve: Resolver, store: Store, address: bv32, connect: bool,
                               i: int)
    requires Parses(p.role) && WellPrepared(h, p) && EmptyFor(store, p.role.id)
    ensures var rules, lengths: seq<bv8> := p.role.ipRules, [32, 24, 16, 12, 8, 0];
            var verdict := FirstProbe(Loaded(h, p, resolve, store), p.role.id, address, connect, PROBES);
            && (LongestOfAll(rules, address, connect, i) ==>
                  && ((exists at :: LongestMatch(rules, address, connect, lengths, at, i))
                      <==> rules[i].cidr.value.prefix in lengths)
                  && (rules[i].cidr.value.prefix in lengths ==> verdict == Some(rules[i].allow)))
            && ((forall j :: 0 <= j < |rules| ==> !Covers(rules[j], address, connect)) ==> verdict == None)
  {
    hide Loaded, WellPrepared, EmptyFor, FirstProbe, SameStart;
    var rules := p.role.ipRules;
    CidrLongestMatch(h, p, resolve, store, address, connect);
    if LongestOfAll(rules, address, connect, i) && rules[i].cidr.value.prefix in PROBES {
      var at :| 0 <= at < |PROBES| && PROBES[at] == rules[i].cidr.value.prefix;
      assert forall m :: 0 <= m < at ==> PROBES[m] > PROBES[at];
      assert LongestMatch(rules, address, connect, PROBES, at, i);
      forall b, j | LongestMatch(rules, address, connect, PROBES, b, j) ensures j == i {
        OneLongestMatch(rules, address, connect, at, i, b, j);
      }
    }
  }

  // ---- ports ----

  /** The kernel's port lookup: the port itself, then the slot for every port. */
  method CheckPortRules(store: Store, id: nat, protocol: bv8, port: U16, connect: bool) returns (verdict: int)
    ensures verdict == Out(PortVerdict(store, id, protocol, port, connect))
  {
    var key := NetKey(id, port, protocol, connect);
    var rule := DecisionAt(store, key);
    if rule.Some? {
      return if rule.value then ALLOW else DENY;
    }
    key := NetKey(id, 0, protocol, connect);
    rule := DecisionAt(store, key);
    if rule.Some? {
      return if rule.value then ALLOW else DENY;
    }
    return NO_RULE;
  }

  function PortVerdict(store: Store, id: nat, protocol: bv8, port: U16, connect: bool): Option<bool>
  {
    var exact := DecisionAt(store, NetKey(id, port, protocol, connect));
    if exact.Some? then exact else DecisionAt(store, NetKey(id, 0, protocol, connect))
  }

  /** The rule is usable, of this protocol, and names this port. */
  predicate Speaks(r: NetworkRule, protocol: bv8, port: U16)
  {
    Usable(r) && protocol == (if IsTcp(r.protocol) then 6 else 17) && OfPort(r, port)
  }

  predicate LastSpeaking(rules: seq<NetworkRule>, protocol: bv8, port: U16, i: int)
  {
    && 0 <= i < |rules| && Speaks(rules[i], protocol, port)
    && forall j :: i < j < |rules| ==> !Speaks(rules[j], protocol, port)
  }

  lemma {:induction false} PortsLast(id: nat, proto: bv8, ports: seq<U16>, allow: bool, protocol: bv8, port: U16,
                                     connect: bool)
    ensures LastWrite(PortWrites(id, proto, ports, allow), NetKey(id, port, protocol, connect)) ==
            if proto == protocol && port in ports then Some(Decision(allow)) else None
  {
    if ports != [] {
      var init, q, k := ports[..|ports| - 1], ports[|ports| - 1], NetKey(id, port, protocol, connect);
      PortsLast(id, proto, init, allow, protocol, port, connect);
      var pair := [Write(NetKey(id, q, proto, false), Decision(allow)),
                   Write(NetKey(id, q, proto, true), Decision(allow))];
      assert pair[..1] == [pair[0]] && pair[..1][..0] == [];
      assert LastWrite(pair[..1], k) == if pair[0].key == k then Some(Decision(allow)) else None;
      assert LastWrite(pair, k) == if q == port && proto == protocol then Some(Decision(allow)) else None;
      LastWriteConcat(PortWrites(id, proto, init, allow), pair, k);
      assert port in ports <==> port in init || port == q;
    }
  }

  lemma NetRuleLast(id: nat, r: NetworkRule, protocol: bv8, port: U16, connect: bool)
    ensures LastWrite(NetRuleWrites(id, r), NetKey(id, port, protocol, connect)) ==
            if Speaks(r, protocol, port) then Some(Decision(r.allow)) else None
  {
    hide ExpandNetworkRule, PortWrites;
    if ExpandNetworkRule(r).Some? {
      var e := ExpandNetworkRule(r).value;
      PortsLast(id, e.protocol, e.ports, r.allow, protocol, port, connect);
    }
  }

  lemma {:induction false} NetLast(id: nat, rules: seq<NetworkRule>, protocol: bv8, port: U16, connect: bool)
    ensures match LastWrite(NetWrites(id, rules), NetKey(id, port, protocol, connect))
            case Some(v) => exists i :: LastSpeaking(rules, protocol, port, i) && v == Decision(rules[i].allow)
            case None => forall i :: 0 <= i < |rules| ==> !Speaks(rules[i], protocol, port)
  {
    hide NetRuleWrites, Speaks;
    if rules != [] {
      var init, r, k := rules[..|rules| - 1], rules[|rules| - 1], NetKey(id, port, protocol, connect);
      NetLast(id, init, protocol, port, connect);
      LastWriteConcat(NetWrites(id, init), NetRuleWrites(id, r), k);
      NetRuleLast(id, r, protocol, port, connect);
      if Speaks(r, protocol, port) {
        assert LastSpeaking(rules, protocol, port, |rules| - 1);
      } else if LastWrite(NetWrites(id, init), k).Some? {
        var i :| LastSpeaking(init, protocol, port, i)
                 && LastWrite(NetWrites(id, init), k) == Some(Decision(init[i].allow));
        assert LastSpeaking(rules, protocol, port, i);
      }
    }
  }

  predicate NoneSpeaks(rules: seq<NetworkRule>, protocol: bv8, port: U16)
  {
    forall i :: 0 <= i < |rules| ==> !Speaks(rules[i], protocol, port)
  }

  /**
   Ports: the verdict is that of the last usable rule whose expansion contains the
   port, else of the last whose expansion contains 0, else there is none; the same
   for bind and for connect.
   */
  lemma PortRulesMean(h: Hashing, p: Prepared, resolve: Resolver, store: Store, protocol: bv8, port: U16, connect: bool)
    requires Parses(p.role) && WellPrepared(h, p) && EmptyFor(store, p.role.id)
    ensures var rules := p.role.networkRules;
            match PortVerdict(Loaded(h, p, resolve, store), p.role.id, protocol, port, connect)
            case Some(d) =>
              || (exists i :: LastSpeaking(rules, protocol, port, i) && d == rules[i].allow)
              || (NoneSpeaks(rules, protocol, port)
                  && exists i :: LastSpeaking(rules, protocol, 0, i) && d == rules[i].allow)
            case None => NoneSpeaks(rules, protocol, port) && NoneSpeaks(rules, protocol, 0)
  {
    hide WellPrepared, WritesOf, Loaded, LastWrite, NetWrites, EmptyFor, Speaks;
    var k, any := NetKey(p.role.id, port, protocol, connect), NetKey(p.role.id, 0, protocol, connect);
    LoadedLookUp(h, p, resolve, store, k);
    LoadedLookUp(h, p, resolve, store, any);
    SectionOfKind(h, p, resolve, k);
    SectionOfKind(h, p, resolve, any);
    NetLast(p.role.id, p.role.networkRules, protocol, port, connect);
    NetLast(p.role.id, p.role.networkRules, protocol, 0, connect);
  }

  // ---- domains, by address ----

  function DomainVerdict(store: Store, id: nat, kernelAddress: bv32): Option<bool>
  {
    if kernelAddress == 0 then None
    else
      match LookUp(store, DnsKey(id, kernelAddress))
      case Some(DomainHash(hash)) => DecisionAt(store, DomainKey(id, hash))
      case _ => None
  }

  method CheckDomainAccess(store: Store, id: nat, kernelAddress: bv32) returns (verdict: int)
    ensures verdict == Out(DomainVerdict(store, id, kernelAddress))
  {
    if kernelAddress == 0 {
      return NO_RULE;
    }
    var cached := LookUp(store, DnsKey(id, kernelAddress));
    if cached.None? || !cached.value.DomainHash? {
      return NO_RULE;
    }
    var allow := DecisionAt(store, DomainKey(id, cached.value.hash));
    if allow.None? {
      return NO_RULE;
    }
    return if allow.value then ALLOW else DENY;
  }

  predicate LastResolving(rules: seq<DomainRule>, resolve: Resolver, address: bv32, i: int)
  {
    && 0 <= i < |rules| && address in resolve(rules[i].domain)
    && forall j :: i < j < |rules| ==> address !in resolve(rules[j].domain)
  }

  predicate LastNaming(h: Hashing, rules: seq<DomainRule>, hash: bv64, i: int)
  {
    && 0 <= i < |rules| && h.comp(rules[i].domain) == hash
    && forall j :: i < j < |rules| ==> h.comp(rules[j].domain) != hash
  }

  lemma {:induction false} DnsLast(id: nat, hash: bv64, addresses: seq<bv32>, address: bv32)
    ensures LastWrite(DnsWrites(id, hash, addresses), DnsKey(id, Swap(address))) ==
            if address in addresses then Some(DomainHash(hash)) else None
  {
    hide Swap;
    if addresses != [] {
      var init, a := addresses[..|addresses| - 1], addresses[|addresses| - 1];
      DnsLast(id, hash, init, address);
      SwapInvolution(a);
      SwapInvolution(address);
      var ws := DnsWrites(id, hash, addresses);
      assert ws[..|ws| - 1] == DnsWrites(id, hash, init);
    }
  }

  lemma DomainRuleLast(h: Hashing, id: nat, r: DomainRule, resolve: Resolver, address: bv32, hash: bv64)
    ensures LastWrite(DomainRuleWrites(h, id, r, resolve), DnsKey(id, Swap(address))) ==
            if address in resolve(r.domain) then Some(DomainHash(h.comp(r.domain))) else None
    ensures LastWrite(DomainRuleWrites(h, id, r, resolve), DomainKey(id, hash)) ==
            if h.comp(r.domain) == hash then Some(Decision(r.allow)) else None
  {
    hide Swap;
    var name := [Write(DomainKey(id, h.comp(r.domain)), Decision(r.allow))];
    var ips := DnsWrites(id, h.comp(r.domain), resolve(r.domain));
    assert name[..0] == [];
    LastWriteConcat(name, ips, DnsKey(id, Swap(address)));
    LastWriteConcat(name, ips, DomainKey(id, hash));
    DnsLast(id, h.comp(r.domain), resolve(r.domain), address);
    DnsWithin(id, h.comp(r.domain), resolve(r.domain));
    OutsideLastWrite(ips, id, {Dns}, DomainKey(id, hash));
  }

  lemma {:induction false} ResolvedLast(h: Hashing, id: nat, rules: seq<DomainRule>, resolve: Resolver, address: bv32)
    ensures match LastWrite(DomainWrites(h, id, rules, resolve), DnsKey(id, Swap(address)))
            case Some(v) =>
              exists i :: LastResolving(rules, resolve, address, i) && v == DomainHash(h.comp(rules[i].domain))
            case None => forall i :: 0 <= i < |rules| ==> address !in resolve(rules[i].domain)
  {
    hide Swap, DomainRuleWrites;
    if rules != [] {
      var init, r, k := rules[..|rules| - 1], rules[|rules| - 1], DnsKey(id, Swap(address));
      var earlier, more := DomainWrites(h, id, init, resolve), DomainRuleWrites(h, id, r, resolve);
      ResolvedLast(h, id, init, resolve, address);
      DomainRuleLast(h, id, r, resolve, address, 0);
      LastWriteConcat(earlier, more, k);
      if address in resolve(r.domain) {
        assert LastResolving(rules, resolve, address, |rules| - 1);
      } else if LastWrite(earlier, k).Some? {
        var i :| LastResolving(init, resolve, address, i)
                 && LastWrite(earlier, k) == Some(DomainHash(h.comp(init[i].domain)));
        assert LastResolving(rules, resolve, address, i);
      }
    }
  }

  lemma {:induction false} NamedLast(h: Hashing, id: nat, rules: seq<DomainRule>, resolve: Resolver, hash: bv64)
    ensures match LastWrite(DomainWrites(h, id, rules, resolve), DomainKey(id, hash))
            case Some(v) => exists i :: LastNaming(h, rules, hash, i) && v == Decision(rules[i].allow)
            case None => forall i :: 0 <= i < |rules| ==> h.comp(rules[i].domain) != hash
  {
    hide Swap, DomainRuleWrites;
    if rules != [] {
      var init, r, k := rules[..|rules| - 1], rules[|rules| - 1], DomainKey(id, hash);
      var earlier, more := DomainWrites(h, id, init, resolve), DomainRuleWrites(h, id, r, resolve);
      NamedLast(h, id, init, resolve, hash);
      DomainRuleLast(h, id, r, resolve, 0, hash);
      LastWriteConcat(earlier, more, k);
      if h.comp(r.domain) == hash {
        assert LastNaming(h, rules, hash, |rules| - 1);
      } else if LastWrite(earlier, k).Some? {
        var i :| LastNaming(h, init, hash, i) && LastWrite(earlier, k) == Some(Decision(init[i].allow));
        assert LastNaming(h, rules, hash, i);
      }
    }
  }

  /** The role's domain names do not collide. */
  ghost predicate NamesDistinct(h: Hashing, rules: seq<DomainRule>)
  {
    forall i, j :: 0 <= i < |rules| && 0 <= j < |rules| && h.comp(rules[i].domain) == h.comp(rules[j].domain) ==>
      rules[i].domain == rules[j].domain
  }

  /**
   Domains: though the verdict goes through two maps that later rules overwrite, it
   is that of the last rule whose name resolves to the address.
   */
  lemma DomainRulesMean(h: Hashing, p: Prepared, resolve: Resolver, store: Store, address: bv32)
    requires Parses(p.role) && WellPrepared(h, p) && EmptyFor(store, p.role.id) && NamesDistinct(h, p.role.domainRules)
    requires Swap(address) != 0
    ensures var rules := p.role.domainRules;
            match DomainVerdict(Loaded(h, p, resolve, store), p.role.id, Swap(address))
            case Some(d) => exists i :: LastResolving(rules, resolve, address, i) && d == rules[i].allow
            case None => forall i :: 0 <= i < |rules| ==> address !in resolve(rules[i].domain)
  {
    hide WellPrepared, WritesOf, Loaded, LastWrite, DomainWrites, EmptyFor, Swap;
    var id, rules, loaded := p.role.id, p.role.domainRules, Loaded(h, p, resolve, store);
    var dns := DnsKey(id, Swap(address));
    LoadedLookUp(h, p, resolve, store, dns);
    SectionOfKind(h, p, resolve, dns);
    ResolvedLast(h, id, rules, resolve, address);
    if LookUp(loaded, dns).Some? {
      var i :| LastResolving(rules, resolve, address, i)
               && LookUp(loaded, dns) == Some(DomainHash(h.comp(rules[i].domain)));
      NameOfResolved(h, p, resolve, store, address, i);
    }
  }

  /** The last rule that resolves to an address is also the last rule of its own name. */
  lemma NameOfResolved(h: Hashing, p: Prepared, resolve: Resolver, store: Store, address: bv32, i: int)
    requires Parses(p.role) && WellPrepared(h, p) && EmptyFor(store, p.role.id) && NamesDistinct(h, p.role.domainRules)
    requires LastResolving(p.role.domainRules, resolve, address, i)
    ensures LookUp(Loaded(h, p, resolve, store), DomainKey(p.role.id, h.comp(p.role.domainRules[i].domain)))
         == Some(Decision(p.role.domainRules[i].allow))
  {
    hide WellPrepared, WritesOf, Loaded, LastWrite, DomainWrites, EmptyFor;
    var id, rules, loaded := p.role.id, p.role.domainRules, Loaded(h, p, resolve, store);
    var hash := h.comp(rules[i].domain);
    var name := DomainKey(id, hash);
    LoadedLookUp(h, p, resolve, store, name);
    SectionOfKind(h, p, resolve, name);
    NamedLast(h, id, rules, resolve, hash);
    var j :| LastNaming(h, rules, hash, j) && LookUp(loaded, name) == Some(Decision(rules[j].allow));
    assert rules[j].domain == rules[i].domain;
    assert i == j;
  }
}
