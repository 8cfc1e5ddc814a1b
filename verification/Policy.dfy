/** The policy's data: roles, their rules, and the settings a build refuses. */
module Policy {
  import opened Base
  import opened Table
  import opened RoleEncoder

  type U16 = x: nat | x < 0x1_0000

  const PROTO_TCP: bv8 := 6
  const PROTO_UDP: bv8 := 17

  datatype Flags = Flags(
    allowFileAccess: bool,
    allowNetwork: bool,
    allowExec: bool,
    requireSignedBinary: bool,
    allowSetuid: bool,
    allowPtrace: bool,
    allowModuleLoad: bool,
    allowBpfLoad: bool)

  datatype NetworkRule = NetworkRule(
    protocol: Name,
    port: Option<U16>,
    portStart: Option<U16>,
    portEnd: Option<U16>,
    allow: bool)

  /** An IPv4 network as `a.b.c.d/len` reads; the address is the number its octets spell, most significant first. */
  datatype Cidr = Cidr(address: bv32, prefix: bv8)

  datatype Direction = Bind | Connect | Unknown

  /** `cidr` is absent when its text does not parse. */
  datatype IpRule = IpRule(cidr: Option<Cidr>, direction: Direction, allow: bool)

  datatype DomainRule = DomainRule(domain: Name, allow: bool)

  datatype Endpoint = Endpoint(address: bv32, port: U16)

  /** `endpoint` is absent when its text does not parse. */
  datatype Proxy = Proxy(endpoint: Option<Endpoint>, required: bool)

  datatype ExecutionRule = ExecutionRule(binaryPath: Name, argsPattern: Option<Name>, allow: bool)

  datatype Role = Role(
    id: nat,
    flags: Flags,
    filePaths: seq<RawRule>,
    executionRules: seq<ExecutionRule>,
    networkRules: seq<NetworkRule>,
    ipRules: seq<IpRule>,
    domainRules: seq<DomainRule>,
    proxy: Option<Proxy>)

  /** Execution rules as path rules, one for one. */
  function ExecPaths(rules: seq<ExecutionRule>): (raw: seq<RawRule>)
    ensures |raw| == |rules|
    ensures forall i :: 0 <= i < |rules| ==> raw[i] == RawRule(rules[i].binaryPath, rules[i].allow)
  {
    if rules == [] then []
    else
      var r := rules[|rules| - 1];
      ExecPaths(rules[..|rules| - 1]) + [RawRule(r.binaryPath, r.allow)]
  }

  /** Pack the flags into the byte the kernel tests bit by bit. */
  method PolicyFlagsToU8(flags: Flags) returns (packed: bv8)
    ensures packed & 0x01 != 0 <==> flags.allowFileAccess
    ensures packed & 0x02 != 0 <==> flags.allowNetwork
    ensures packed & 0x04 != 0 <==> flags.allowExec
    ensures packed & 0x08 != 0 <==> flags.requireSignedBinary
    ensures packed & 0x10 != 0 <==> flags.allowSetuid
    ensures packed & 0x20 != 0 <==> flags.allowPtrace
    ensures packed & 0x40 != 0 <==> flags.allowModuleLoad
    ensures packed & 0x80 != 0 <==> flags.allowBpfLoad
    ensures packed == FlagByte(flags)
  {
    packed := 0;
    if flags.allowFileAccess { packed := packed | 0x01; }
    if flags.allowNetwork { packed := packed | 0x02; }
    if flags.allowExec { packed := packed | 0x04; }
    if flags.requireSignedBinary { packed := packed | 0x08; }
    if flags.allowSetuid { packed := packed | 0x10; }
    if flags.allowPtrace { packed := packed | 0x20; }
    if flags.allowModuleLoad { packed := packed | 0x40; }
    if flags.allowBpfLoad { packed := packed | 0x80; }
  }

  function Bit(on: bool, mask: bv8): bv8
  {
    if on then mask else 0
  }

  function FlagByte(f: Flags): bv8
  {
    Bit(f.allowFileAccess, 0x01) | Bit(f.allowNetwork, 0x02) | Bit(f.allowExec, 0x04)
    | Bit(f.requireSignedBinary, 0x08) | Bit(f.allowSetuid, 0x10) | Bit(f.allowPtrace, 0x20)
    | Bit(f.allowModuleLoad, 0x40) | Bit(f.allowBpfLoad, 0x80)
  }

  function Lower(b: Byte): Byte
  {
    if 65 <= b <= 90 then b + 32 else b
  }

  function LowerCase(s: Name): (r: Name)
    ensures |r| == |s| && forall i :: 0 <= i < |s| ==> r[i] == Lower(s[i])
  {
    if s == [] then [] else [Lower(s[0])] + LowerCase(s[1..])
  }

  const TCP: Name := [116, 99, 112]
  const UDP: Name := [117, 100, 112]

  function ParseProtocol(name: Name): Option<bv8>
  {
    if LowerCase(name) == TCP then Some(PROTO_TCP)
    else if LowerCase(name) == UDP then Some(PROTO_UDP)
    else None
  }

  datatype Expansion = Expansion(protocol: bv8, ports: seq<U16>)

  // ---- what a port rule says, read off its fields ----

  /** `tcp`, in capitals or not. */
  predicate IsTcp(name: Name)
  {
    |name| == 3 && name[0] in {116, 84} && name[1] in {99, 67} && name[2] in {112, 80}
  }

  /** `udp`, in capitals or not. */
  predicate IsUdp(name: Name)
  {
    |name| == 3 && name[0] in {117, 85} && name[1] in {100, 68} && name[2] in {112, 80}
  }

  predicate HasRange(r: NetworkRule)
  {
    r.portStart.Some? && r.portEnd.Some?
  }

  /** The protocol is known, and the range, if there is one, is not upside down. */
  predicate Usable(r: NetworkRule)
  {
    (IsTcp(r.protocol) || IsUdp(r.protocol)) && (HasRange(r) ==> r.portStart.value <= r.portEnd.value)
  }

  /** Within the range if both ends are given, else the port if it is given, else 0. */
  predicate OfPort(r: NetworkRule, port: U16)
  {
    if HasRange(r) then r.portStart.value <= port <= r.portEnd.value
    else if r.port.Some? then port == r.port.value
    else port == 0
  }

  lemma LowerIs(b: Byte, small: Byte, capital: Byte)
    requires 97 <= small <= 122 && capital == small - 32
    ensures Lower(b) == small <==> b == small || b == capital
  {
  }

  lemma ProtocolRead(name: Name)
    ensures ParseProtocol(name) == if IsTcp(name) then Some(6) else if IsUdp(name) then Some(17) else None
  {
    hide Lower;
    if |name| == 3 {
      LowerIs(name[0], 116, 84);
      LowerIs(name[1], 99, 67);
      LowerIs(name[2], 112, 80);
      LowerIs(name[0], 117, 85);
      LowerIs(name[1], 100, 68);
      assert LowerCase(name) == TCP <==> IsTcp(name);
      assert LowerCase(name) == UDP <==> IsUdp(name);
    }
  }

  /** The ports a rule stands for; port 0 stands for every port. `None` is a rule to skip. */
  function ExpandNetworkRule(r: NetworkRule): (e: Option<Expansion>)
    ensures e.Some? <==> Usable(r)
    ensures e.Some? ==> e.value.ports != []
    ensures e.Some? ==> e.value.protocol == (if IsTcp(r.protocol) then 6 else 17)
    ensures e.Some? ==> forall port: U16 :: port in e.value.ports <==> OfPort(r, port)
  {
    ProtocolRead(r.protocol);
    var protocol := ParseProtocol(r.protocol);
    if protocol.None? then None
    else if r.portStart.Some? && r.portEnd.Some? then
      if r.portStart.value > r.portEnd.value then None
      else Some(Expansion(protocol.value, PortRange(r.portStart.value, r.portEnd.value)))
    else Some(Expansion(protocol.value, if r.port.Some? then [r.port.value] else [0]))
  }

  function PortRange(lo: U16, hi: U16): (ports: seq<U16>)
    requires lo <= hi
    ensures |ports| == hi - lo + 1
    ensures forall p :: p in ports <==> lo <= p <= hi
    decreases hi - lo
  {
    if lo == hi then [lo] else [lo] + PortRange(lo + 1, hi)
  }

  /** A setting this build cannot enforce; overlapping patterns are reported as a set. */
  datatype Unenforced =
    | SignedBinary
    | DenySetuid
    | ArgsPattern
    | FileOverlaps(f: set<Conflict>)
    | ExecOverlaps(e: set<Conflict>)

  /** The gate in front of role application: what the role asks for that nothing enforces. */
  method UnenforcedSettings(h: Hashing, role: Role) returns (found: seq<Unenforced>)
    ensures found == [] <==> Enforceable(role)
    ensures SignedBinary in found <==> role.flags.requireSignedBinary
    ensures DenySetuid in found <==> !role.flags.allowSetuid
    ensures ArgsPattern in found <==>
            exists i :: 0 <= i < |role.executionRules| && role.executionRules[i].argsPattern.Some?
    ensures forall u :: u in found && u.FileOverlaps? ==>
              u.f != {} && forall c :: c in u.f ==> Genuine(role.filePaths, c)
    ensures forall u :: u in found && u.ExecOverlaps? ==>
              u.e != {} && forall c :: c in u.e ==> Genuine(ExecPaths(role.executionRules), c)
  {
    hide Clash, Effectual, IsTable, Genuine, Reports, ExecPaths, ConflictAt;
    found := [];
    if role.flags.requireSignedBinary { found := found + [SignedBinary]; }
    if !role.flags.allowSetuid { found := found + [DenySetuid]; }
    if exists i :: 0 <= i < |role.executionRules| && role.executionRules[i].argsPattern.Some? {
      found := found + [ArgsPattern];
    }
    var files := EncodeRole(h, role.id, role.filePaths);
    if files.Refused? { found := found + [FileOverlaps(files.conflicts)]; }
    var execs := EncodeRole(h, role.id, ExecPaths(role.executionRules));
    if execs.Refused? { found := found + [ExecOverlaps(execs.conflicts)]; }
  }

  /** Everything the role asks for is something the kernel side tests. */
  predicate Enforceable(role: Role)
  {
    && !role.flags.requireSignedBinary && role.flags.allowSetuid
    && (forall i :: 0 <= i < |role.executionRules| ==> role.executionRules[i].argsPattern.None?)
    && !Clash(Effectual(role.filePaths)) && !Clash(Effectual(ExecPaths(role.executionRules)))
  }
}
