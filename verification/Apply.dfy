/** Role application: the ordered list of map updates a role stands for, and the methods that make them. */
module Apply {
  import opened Base
  import opened Table
  import opened RoleEncoder
  import opened Policy
  import opened Writes

  /** What a domain currently resolves to; a parameter of application. */
  type Resolver = Name -> seq<bv32>

  /** Octet swap: an address in network order as a little-endian kernel reads it. */
  function Swap(x: bv32): bv32
  {
    (x << 24) | ((x & 0xFF00) << 8) | ((x >> 8) & 0xFF00) | (x >> 24)
  }

  function PrefixMask(prefix: bv8): bv32
  {
    if prefix == 0 then 0
    else if prefix >= 32 then 0xFFFF_FFFF
    else 0xFFFF_FFFF << (32 - prefix)
  }

  function MaskIpv4(address: bv32, prefix: bv8): bv32
  {
    address & PrefixMask(prefix)
  }

  // ---- the writes of each section, in the order they are made ----

  function RowWrites(exec: bool, entries: seq<Entry>): seq<Write>
  {
    if entries == [] then []
    else
      var e := entries[|entries| - 1];
      RowWrites(exec, entries[..|entries| - 1])
      + [Write(if exec then ExecRow(e.key) else PathRow(e.key), RowValue(e.value))]
  }

  function PortWrites(id: nat, protocol: bv8, ports: seq<U16>, allow: bool): seq<Write>
  {
    if ports == [] then []
    else
      var p := ports[|ports| - 1];
      PortWrites(id, protocol, ports[..|ports| - 1], allow)
      + [Write(NetKey(id, p, protocol, false), Decision(allow)), Write(NetKey(id, p, protocol, true), Decision(allow))]
  }

  function NetRuleWrites(id: nat, r: NetworkRule): seq<Write>
  {
    match ExpandNetworkRule(r)
    case None => []
    case Some(e) => PortWrites(id, e.protocol, e.ports, r.allow)
  }

  function NetWrites(id: nat, rules: seq<NetworkRule>): seq<Write>
  {
    if rules == [] then []
    else NetWrites(id, rules[..|rules| - 1]) + NetRuleWrites(id, rules[|rules| - 1])
  }

  function IpRuleWrites(id: nat, r: IpRule): seq<Write>
  {
    if r.direction == Unknown || r.cidr.None? then []
    else
      [Write(IpKey(id, Swap(MaskIpv4(r.cidr.value.address, r.cidr.value.prefix)), r.cidr.value.prefix,
                   r.direction == Connect), Decision(r.allow))]
  }

  function IpWrites(id: nat, rules: seq<IpRule>): seq<Write>
  {
    if rules == [] then []
    else IpWrites(id, rules[..|rules| - 1]) + IpRuleWrites(id, rules[|rules| - 1])
  }

  function DnsWrites(id: nat, hash: bv64, addresses: seq<bv32>): seq<Write>
  {
    if addresses == [] then []
    else
      DnsWrites(id, hash, addresses[..|addresses| - 1])
      + [Write(DnsKey(id, Swap(addresses[|addresses| - 1])), DomainHash(hash))]
  }

  function DomainRuleWrites(h: Hashing, id: nat, r: DomainRule, resolve: Resolver): seq<Write>
  {
    [Write(DomainKey(id, h.comp(r.domain)), Decision(r.allow))] + DnsWrites(id, h.comp(r.domain), resolve(r.domain))
  }

  function DomainWrites(h: Hashing, id: nat, rules: seq<DomainRule>, resolve: Resolver): seq<Write>
  {
    if rules == [] then []
    else DomainWrites(h, id, rules[..|rules| - 1], resolve) + DomainRuleWrites(h, id, rules[|rules| - 1], resolve)
  }

  function ProxyWrites(id: nat, proxy: Option<Proxy>): seq<Write>
  {
    if proxy.None? || proxy.value.endpoint.None? then []
    else
      var e := proxy.value.endpoint.value;
      [Write(ProxyKey(id), ProxyValue(Swap(e.address), e.port, proxy.value.required))]
  }

  function FlagWrites(role: Role): seq<Write>
  {
    [Write(FlagsOf(role.id), FlagsValue(FlagByte(role.flags)))]
  }

  /** Everything application writes for a role, given how its two rule lists were encoded. */
  function RoleWrites(h: Hashing, role: Role, resolve: Resolver, files: seq<Entry>, execs: seq<Entry>): seq<Write>
  {
    LocalWrites(role, files, execs) + IpWrites(role.id, role.ipRules)
    + DomainWrites(h, role.id, role.domainRules, resolve) + ProxyWrites(role.id, role.proxy)
  }

  /** Flags, path rows, exec rows and ports. */
  function LocalWrites(role: Role, files: seq<Entry>, execs: seq<Entry>): seq<Write>
  {
    FlagWrites(role) + RowWrites(false, files) + RowWrites(true, execs) + NetWrites(role.id, role.networkRules)
  }

  /** The rows a rule list puts in the kernel: its table, or nothing when the encoder refuses it. */
  ghost predicate EncodedAs(h: Hashing, id: nat, raw: seq<RawRule>, entries: seq<Entry>)
  {
    if Clash(Effectual(raw)) then entries == []
    else exists slots :: IsTable(h, id, Effectual(raw), entries, slots)
  }

  predicate IpRuleParses(r: IpRule)
  {
    r.direction == Unknown || r.cidr.Some?
  }

  /** Every address the role spells can be read; otherwise application stops with an error. */
  predicate Parses(role: Role)
  {
    && (forall i :: 0 <= i < |role.ipRules| ==> role.ipRules[i].direction == Unknown || role.ipRules[i].cidr.Some?)
    && (role.proxy.Some? ==> role.proxy.value.endpoint.Some?)
  }

  /** A rule application passed over and told the caller about. */
  datatype Skip =
    | FileConflicts(conflicts: set<Conflict>)
    | ExecConflicts(conflicts: set<Conflict>)
    | UnusableNetworkRule(protocol: Name)
    | UnknownDirection
    | Unresolved(domain: Name)

  /** The skips each section reports, in order. */
  function NetSkips(rules: seq<NetworkRule>): seq<Skip>
  {
    if rules == [] then []
    else
      var r := rules[|rules| - 1];
      NetSkips(rules[..|rules| - 1]) + if ExpandNetworkRule(r).Some? then [] else [UnusableNetworkRule(r.protocol)]
  }

  function IpSkips(rules: seq<IpRule>): seq<Skip>
  {
    if rules == [] then []
    else IpSkips(rules[..|rules| - 1]) + if rules[|rules| - 1].direction == Unknown then [UnknownDirection] else []
  }

  function DomainSkips(rules: seq<DomainRule>, resolve: Resolver): seq<Skip>
  {
    if rules == [] then []
    else
      var r := rules[|rules| - 1];
      DomainSkips(rules[..|rules| - 1], resolve) + if resolve(r.domain) == [] then [Unresolved(r.domain)] else []
  }

  /** `at` lists, in order, the places that are marked. */
  ghost predicate Places(at: seq<int>, marks: seq<bool>)
  {
    && (forall k :: 0 <= k < |at| ==> 0 <= at[k] < |marks| && marks[at[k]])
    && (forall k, l :: 0 <= k < l < |at| ==> at[k] < at[l])
    && (forall i :: 0 <= i < |marks| && marks[i] ==> i in at)
  }

  lemma NoPlaces()
    ensures Places([], [])
  {
  }

  lemma PlacesSnoc(at: seq<int>, marks: seq<bool>, mark: bool)
    requires Places(at, marks)
    ensures Places(if mark then at + [|marks|] else at, marks + [mark])
    ensures forall k :: 0 <= k < |at| ==> 0 <= at[k] < |marks|
  {
    var at', marks' := if mark then at + [|marks|] else at, marks + [mark];
    forall i | 0 <= i < |marks'| && marks'[i] ensures i in at' {
      if i < |marks| { assert i in at; }
    }
  }

  /** Every network rule of an unknown protocol or an upside-down range is told of, in order, and no other. */
  lemma {:induction false} NetSkipsRead(rules: seq<NetworkRule>) returns (at: seq<int>, unusable: seq<bool>)
    ensures |unusable| == |rules| && forall i :: 0 <= i < |rules| ==> unusable[i] == !Usable(rules[i])
    ensures Places(at, unusable) && |at| == |NetSkips(rules)|
    ensures forall k :: 0 <= k < |at| ==> NetSkips(rules)[k] == UnusableNetworkRule(rules[at[k]].protocol)
  {
    hide Usable, ExpandNetworkRule, Places;
    if rules == [] {
      at, unusable := [], [];
      NoPlaces();
    } else {
      var r := rules[|rules| - 1];
      at, unusable := NetSkipsRead(rules[..|rules| - 1]);
      PlacesSnoc(at, unusable, !Usable(r));
      at, unusable := if Usable(r) then at else at + [|unusable|], unusable + [!Usable(r)];
    }
  }

  /** Likewise every address rule of an unknown direction. */
  lemma {:induction false} IpSkipsRead(rules: seq<IpRule>) returns (at: seq<int>, unknown: seq<bool>)
    ensures |unknown| == |rules| && forall i :: 0 <= i < |rules| ==> unknown[i] == (rules[i].direction == Unknown)
    ensures Places(at, unknown) && |at| == |IpSkips(rules)|
    ensures forall k :: 0 <= k < |at| ==> IpSkips(rules)[k] == UnknownDirection
  {
    hide Places;
    if rules == [] {
      at, unknown := [], [];
      NoPlaces();
    } else {
      var r := rules[|rules| - 1];
      at, unknown := IpSkipsRead(rules[..|rules| - 1]);
      PlacesSnoc(at, unknown, r.direction == Unknown);
      at, unknown := if r.direction == Unknown then at + [|unknown|] else at, unknown + [r.direction == Unknown];
    }
  }

  /** And every domain that resolves to nothing. */
  lemma {:induction false} DomainSkipsRead(rules: seq<DomainRule>, resolve: Resolver)
    returns (at: seq<int>, lost: seq<bool>)
    ensures |lost| == |rules| && forall i :: 0 <= i < |rules| ==> lost[i] == (resolve(rules[i].domain) == [])
    ensures Places(at, lost) && |at| == |DomainSkips(rules, resolve)|
    ensures forall k :: 0 <= k < |at| ==> DomainSkips(rules, resolve)[k] == Unresolved(rules[at[k]].domain)
  {
    hide Places;
    if rules == [] {
      at, lost := [], [];
      NoPlaces();
    } else {
      var r := rules[|rules| - 1];
      at, lost := DomainSkipsRead(rules[..|rules| - 1], resolve);
      PlacesSnoc(at, lost, resolve(r.domain) == []);
      at, lost := if resolve(r.domain) == [] then at + [|lost|] else at, lost + [resolve(r.domain) == []];
    }
  }

  // ---- the sink ----

  /** The loaded maps. `log` records every write since the object was created. */
  class PolicyMaps {
    var store: Store
    ghost const initial: Store
    ghost var log: seq<Write>

    ghost predicate Valid()
      reads this
    {
      store == WriteSeq(initial, log)
    }

    constructor (store: Store)
      ensures Valid() && this.store == store && log == []
    {
      this.store, initial, log := store, store, [];
    }

    method Put(key: MapKey, value: MapValue)
      requires Valid()
      modifies this
      ensures Valid()
      ensures log == old(log) + [Write(key, value)]
      ensures store == old(store)[key := value]
    {
      store := store[key := value];
      log := log + [Write(key, value)];
    }

    /** Put the rows in order, under path keys or exec keys as `exec` says. */
    method WriteStates(exec: bool, entries: seq<Entry>)
      requires Valid()
      modifies this
      ensures Valid()
      ensures log == old(log) + RowWrites(exec, entries)
    {
      for i := 0 to |entries|
        invariant Valid()
        invariant log == old(log) + RowWrites(exec, entries[..i])
      {
        var e := entries[i];
        assert entries[..i + 1][..i] == entries[..i];
        Put(if exec then ExecRow(e.key) else PathRow(e.key), RowValue(e.value));
      }
      assert entries[..|entries|] == entries;
    }

    method AddPorts(id: nat, protocol: bv8, ports: seq<U16>, allow: bool)
      requires Valid()
      modifies this
      ensures Valid()
      ensures log == old(log) + PortWrites(id, protocol, ports, allow)
    {
      hide WriteSeq;
      for i := 0 to |ports|
        invariant Valid()
        invariant log == old(log) + PortWrites(id, protocol, ports[..i], allow)
      {
        assert ports[..i + 1][..i] == ports[..i];
        Put(NetKey(id, ports[i], protocol, false), Decision(allow));
        Put(NetKey(id, ports[i], protocol, true), Decision(allow));
      }
      assert ports[..|ports|] == ports;
    }

    method AddNetworkRule(id: nat, r: NetworkRule) returns (usable: bool)
      requires Valid()
      modifies this
      ensures Valid()
      ensures log == old(log) + NetRuleWrites(id, r)
      ensures usable <==> ExpandNetworkRule(r).Some?
    {
      hide ExpandNetworkRule, PortWrites, WriteSeq;
      var e := ExpandNetworkRule(r);
      usable := e.Some?;
      if usable {
        AddPorts(id, e.value.protocol, e.value.ports, r.allow);
      }
    }

    method AddNetworkRules(id: nat, rules: seq<NetworkRule>) returns (skipped: seq<Skip>)
      requires Valid()
      modifies this
      ensures Valid()
      ensures log == old(log) + NetWrites(id, rules)
      ensures skipped == NetSkips(rules)
    {
      hide ExpandNetworkRule, NetRuleWrites, WriteSeq;
      skipped := [];
      for i := 0 to |rules|
        invariant Valid()
        invariant log == old(log) + NetWrites(id, rules[..i])
        invariant skipped == NetSkips(rules[..i])
      {
        assert rules[..i + 1][..i] == rules[..i];
        var usable := AddNetworkRule(id, rules[i]);
        if !usable {
          skipped := skipped + [UnusableNetworkRule(rules[i].protocol)];
        }
      }
      assert rules[..|rules|] == rules;
    }

    method AddIpRule(id: nat, r: IpRule) returns (ok: bool)
      requires Valid()
      modifies this
      ensures Valid()
      ensures ok <==> IpRuleParses(r)
      ensures log == old(log) + IpRuleWrites(id, r)
    {
      hide Swap, MaskIpv4, WriteSeq;
      if r.direction == Unknown {
        return true;
      }
      if r.cidr.None? {
        return false;
      }
      var c := r.cidr.value;
      Put(IpKey(id, Swap(MaskIpv4(c.address, c.prefix)), c.prefix, r.direction == Connect), Decision(r.allow));
      return true;
    }

    /** Stops at the first rule whose network cannot be read. */
    method AddIpRules(id: nat, rules: seq<IpRule>) returns (ok: bool, skipped: seq<Skip>)
      requires Valid()
      modifies this
      ensures Valid()
      ensures ok <==> forall i :: 0 <= i < |rules| ==> IpRuleParses(rules[i])
      ensures ok ==> log == old(log) + IpWrites(id, rules) && skipped == IpSkips(rules)
      ensures !ok ==> exists n :: 0 <= n <= |rules| && log == old(log) + IpWrites(id, rules[..n])
    {
      hide IpRuleWrites, WriteSeq;
      skipped := [];
      for i := 0 to |rules|
        invariant Valid()
        invariant log == old(log) + IpWrites(id, rules[..i]) && skipped == IpSkips(rules[..i])
        invariant forall j :: 0 <= j < i ==> IpRuleParses(rules[j])
      {
        assert rules[..i + 1][..i] == rules[..i];
        ok := AddIpRule(id, rules[i]);
        if !ok {
          assert log == old(log) + IpWrites(id, rules[..i + 1]);
          return;
        }
        if rules[i].direction == Unknown {
          skipped := skipped + [UnknownDirection];
        }
      }
      assert rules[..|rules|] == rules;
      ok := true;
    }

    method AddDomainRule(h: Hashing, id: nat, r: DomainRule, resolve: Resolver) returns (resolved: bool)
      requires Valid()
      modifies this
      ensures Valid()
      ensures log == old(log) + DomainRuleWrites(h, id, r, resolve)
      ensures resolved <==> resolve(r.domain) != []
    {
      hide DnsWrites, WriteSeq;
      var hash, addresses := h.comp(r.domain), resolve(r.domain);
      Put(DomainKey(id, hash), Decision(r.allow));
      resolved := addresses != [];
      AddResolved(id, hash, addresses);
    }

    method AddDomainRules(h: Hashing, id: nat, rules: seq<DomainRule>, resolve: Resolver) returns (skipped: seq<Skip>)
      requires Valid()
      modifies this
      ensures Valid()
      ensures log == old(log) + DomainWrites(h, id, rules, resolve) && skipped == DomainSkips(rules, resolve)
    {
      hide DomainRuleWrites, WriteSeq;
      skipped := [];
      for i := 0 to |rules|
        invariant Valid()
        invariant log == old(log) + DomainWrites(h, id, rules[..i], resolve)
        invariant skipped == DomainSkips(rules[..i], resolve)
      {
        assert rules[..i + 1][..i] == rules[..i];
        var resolved := AddDomainRule(h, id, rules[i], resolve);
        if !resolved {
          skipped := skipped + [Unresolved(rules[i].domain)];
        }
      }
      assert rules[..|rules|] == rules;
    }

    method AddResolved(id: nat, hash: bv64, addresses: seq<bv32>)
      requires Valid()
      modifies this
      ensures Valid()
      ensures log == old(log) + DnsWrites(id, hash, addresses)
    {
      for i := 0 to |addresses|
        invariant Valid()
        invariant log == old(log) + DnsWrites(id, hash, addresses[..i])
      {
        assert addresses[..i + 1][..i] == addresses[..i];
        Put(DnsKey(id, Swap(addresses[i])), DomainHash(hash));
      }
      assert addresses[..|addresses|] == addresses;
    }
  }

  datatype Applied = Applied(skipped: seq<Skip>) | Failed

  /** The state application leaves: a prefix of the role's writes has been made, all of them if `complete`. */
  ghost predicate Wrote(h: Hashing, role: Role, resolve: Resolver, log0: seq<Write>, store0: Store,
                        log: seq<Write>, store: Store, complete: bool)
  {
    exists files, execs, done ::
      && EncodedAs(h, role.id, role.filePaths, files)
      && EncodedAs(h, role.id, ExecPaths(role.executionRules), execs)
      && log == log0 + done && store == WriteSeq(store0, done)
      && done <= RoleWrites(h, role, resolve, files, execs)
      && (complete ==> done == RoleWrites(h, role, resolve, files, execs))
  }

  lemma WroteSome(h: Hashing, role: Role, resolve: Resolver, log0: seq<Write>, store0: Store, initial: Store,
                  log: seq<Write>, store: Store, complete: bool,
                  files: seq<Entry>, execs: seq<Entry>, done: seq<Write>)
    requires EncodedAs(h, role.id, role.filePaths, files)
    requires EncodedAs(h, role.id, ExecPaths(role.executionRules), execs)
    requires store0 == WriteSeq(initial, log0) && store == WriteSeq(initial, log) && log == log0 + done
    requires done <= RoleWrites(h, role, resolve, files, execs)
    requires complete ==> done == RoleWrites(h, role, resolve, files, execs)
    ensures Wrote(h, role, resolve, log0, store0, log, store, complete)
  {
    WriteSeqConcat(initial, log0, done);
  }

  /** What application tells the caller: refused lists with their overlaps, then the rules passed over. */
  ghost predicate Told(role: Role, resolve: Resolver, skipped: seq<Skip>)
  {
    exists lists ::
      && skipped == lists + NetSkips(role.networkRules) + IpSkips(role.ipRules) + DomainSkips(role.domainRules, resolve)
      && ListSkips(role, lists)
  }

  ghost predicate ListSkips(role: Role, lists: seq<Skip>)
  {
    var files, execs := role.filePaths, ExecPaths(role.executionRules);
    && ((exists s :: s in lists && s.FileConflicts?) <==> Clash(Effectual(files)))
    && ((exists s :: s in lists && s.ExecConflicts?) <==> Clash(Effectual(execs)))
    && (forall s :: s in lists ==>
          || (s.FileConflicts? && s.conflicts != {} && forall c :: c in s.conflicts ==> Genuine(files, c))
          || (s.ExecConflicts? && s.conflicts != {} && forall c :: c in s.conflicts ==> Genuine(execs, c)))
  }

  lemma ListsTold(role: Role, files: set<Conflict>, execs: set<Conflict>)
    requires files != {} <==> Clash(Effectual(role.filePaths))
    requires execs != {} <==> Clash(Effectual(ExecPaths(role.executionRules)))
    requires forall c :: c in files ==> Genuine(role.filePaths, c)
    requires forall c :: c in execs ==> Genuine(ExecPaths(role.executionRules), c)
    ensures ListSkips(role, (if files != {} then [FileConflicts(files)] else [])
                            + (if execs != {} then [ExecConflicts(execs)] else []))
  {
    hide Clash, Effectual, Genuine, ExecPaths;
    var a := if files != {} then [FileConflicts(files)] else [];
    var b := if execs != {} then [ExecConflicts(execs)] else [];
    assert forall s :: s in a + b <==> s in a || s in b;
    assert files != {} ==> FileConflicts(files) in a;
    assert execs != {} ==> ExecConflicts(execs) in b;
  }

  method ApplyLocal(h: Hashing, sink: PolicyMaps, role: Role)
    returns (skipped: seq<Skip>, files: seq<Entry>, execs: seq<Entry>)
    requires sink.Valid()
    modifies sink
    ensures sink.Valid()
    ensures EncodedAs(h, role.id, role.filePaths, files)
    ensures EncodedAs(h, role.id, ExecPaths(role.executionRules), execs)
    ensures sink.log == old(sink.log) + LocalWrites(role, files, execs)
    ensures exists lists :: skipped == lists + NetSkips(role.networkRules) && ListSkips(role, lists)
  {
    hide EncodedAs, RowWrites, NetWrites, IsTable, Clash, Effectual, ExecPaths, FlagByte, WriteSeq, Genuine, ListSkips;
    skipped := [];
    var packed := PolicyFlagsToU8(role.flags);
    sink.Put(FlagsOf(role.id), FlagsValue(packed));
    var fileClashes, execClashes;
    files, fileClashes := EncodeList(h, role.id, role.filePaths);
    sink.WriteStates(false, files);
    if fileClashes != {} { skipped := skipped + [FileConflicts(fileClashes)]; }
    execs, execClashes := EncodeList(h, role.id, ExecPaths(role.executionRules));
    sink.WriteStates(true, execs);
    if execClashes != {} { skipped := skipped + [ExecConflicts(execClashes)]; }
    ListsTold(role, fileClashes, execClashes);
    var netSkips := sink.AddNetworkRules(role.id, role.networkRules);
    skipped := skipped + netSkips;
  }

  /**
   Application succeeds exactly when every address in the role parses, and has then
   made all of the role's writes; when it fails it has made a prefix of them.
   */
  method ApplyRole(h: Hashing, sink: PolicyMaps, role: Role, resolve: Resolver) returns (r: Applied)
    requires sink.Valid()
    modifies sink
    ensures sink.Valid()
    ensures r.Applied? <==> Parses(role)
    ensures Wrote(h, role, resolve, old(sink.log), old(sink.store), sink.log, sink.store, r.Applied?)
    ensures r.Applied? ==> Told(role, resolve, r.skipped)
  {
    hide EncodedAs, LocalWrites, IpWrites, DomainWrites, ExecPaths, WriteSeq, Wrote, ListSkips;
    ghost var log0, store0 := sink.log, sink.store;
    var skipped, files, execs := ApplyLocal(h, sink, role);
    ghost var done := LocalWrites(role, files, execs);
    var ok, ipSkips := sink.AddIpRules(role.id, role.ipRules);
    if !ok {
      ghost var n :| 0 <= n <= |role.ipRules| && sink.log == log0 + done + IpWrites(role.id, role.ipRules[..n]);
      IpWritesPrefix(role.id, role.ipRules, n);
      done := done + IpWrites(role.id, role.ipRules[..n]);
      WroteSome(h, role, resolve, log0, store0, sink.initial, sink.log, sink.store, false, files, execs, done);
      return Failed;
    }
    var domainSkips := sink.AddDomainRules(h, role.id, role.domainRules, resolve);
    done := done + IpWrites(role.id, role.ipRules) + DomainWrites(h, role.id, role.domainRules, resolve);
    assert sink.log == log0 + done;
    if role.proxy.Some? {
      if role.proxy.value.endpoint.None? {
        WroteSome(h, role, resolve, log0, store0, sink.initial, sink.log, sink.store, false, files, execs, done);
        return Failed;
      }
      var e := role.proxy.value.endpoint.value;
      sink.Put(ProxyKey(role.id), ProxyValue(Swap(e.address), e.port, role.proxy.value.required));
    }
    done := done + ProxyWrites(role.id, role.proxy);
    WroteSome(h, role, resolve, log0, store0, sink.initial, sink.log, sink.store, true, files, execs, done);
    r := Applied(skipped + ipSkips + domainSkips);
  }

  lemma {:induction false} IpWritesPrefix(id: nat, rules: seq<IpRule>, n: nat)
    requires n <= |rules|
    ensures IpWrites(id, rules[..n]) <= IpWrites(id, rules)
  {
    if n == |rules| {
      assert rules[..n] == rules;
    } else {
      assert rules[..|rules| - 1][..n] == rules[..n];
      IpWritesPrefix(id, rules[..|rules| - 1], n);
    }
  }

  /** The encoder as application uses it: a refused list writes no rows and is reported. */
  method EncodeList(h: Hashing, id: nat, raw: seq<RawRule>) returns (entries: seq<Entry>, conflicts: set<Conflict>)
    ensures EncodedAs(h, id, raw, entries)
    ensures conflicts != {} <==> Clash(Effectual(raw))
    ensures forall c :: c in conflicts ==> Genuine(raw, c)
  {
    hide IsTable, Clash, Effectual;
    var encoded := EncodeRole(h, id, raw);
    match encoded {
      case Accepted(e) => entries, conflicts := e, {};
      case Refused(c) => entries, conflicts := [], c;
    }
  }
}
