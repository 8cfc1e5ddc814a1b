/** From a role in the policy to what the kernel hooks answer for a task that has it. */
module EndToEnd {
  import opened Base
  import opened Patterns
  import opened Rules
  import opened RuleLaws
  import opened Table
  import opened RoleEncoder
  import opened Walk
  import opened Collect
  import opened Policy
  import opened Writes
  import opened Apply
  import opened RoleLaws

  predicate IsRow(exec: bool, k: MapKey)
  {
    if exec then k.ExecRow? else k.PathRow?
  }

  /** One of the two transition maps, out of the store. */
  function RowsOf(exec: bool, store: Store): Rows
  {
    map k | k in store && IsRow(exec, k) && store[k].RowValue? :: k.row := store[k].value
  }

  lemma RowsOfAt(exec: bool, store: Store, k: Key)
    ensures k in RowsOf(exec, store) <==> RowKey(exec, k) in store && store[RowKey(exec, k)].RowValue?
    ensures k in RowsOf(exec, store) ==> RowsOf(exec, store)[k] == store[RowKey(exec, k)].value
  {
    if RowKey(exec, k) in store && store[RowKey(exec, k)].RowValue? {
      assert IsRow(exec, RowKey(exec, k)) && RowKey(exec, k).row == k;
    }
    if k in RowsOf(exec, store) {
      var mk :| mk in store && IsRow(exec, mk) && store[mk].RowValue? && mk.row == k;
      assert mk == RowKey(exec, k);
    }
  }

  function FlagsIn(store: Store, id: nat): Option<bv8>
  {
    match LookUp(store, FlagsOf(id))
    case Some(FlagsValue(packed)) => Some(packed)
    case _ => None
  }

  const GRANTED := 0

  /** How a rule verdict and the role's flag bit combine: the verdict if there is one, else the bit. */
  function Settle(verdict: int, flags: bv8, mask: bv8): int
  {
    if verdict == ALLOW then GRANTED
    else if verdict == NO_RULE then (if flags & mask != 0 then GRANTED else DENY)
    else DENY
  }

  /** What the file hook (or, for an enrolled task, the exec hook) answers with no cache in front. */
  function Answer(h: Hashing, exec: bool, store: Store, fs: Fs, id: nat, root: Place, at: Place): int
  {
    match FlagsIn(store, id)
    case None => DENY
    case Some(flags) =>
      Settle(Judge(h, RowsOf(exec, store), fs, id, root, at), flags, if exec then 0x04 else 0x01)
  }

  /** A verdict depends on the store only through the keys of its own id. */
  lemma JudgeByOwnKeys(h: Hashing, exec: bool, a: Store, b: Store, fs: Fs, id: nat, root: Place, at: Place)
    requires AgreeFor(a, b, id)
    ensures Judge(h, RowsOf(exec, a), fs, id, root, at) == Judge(h, RowsOf(exec, b), fs, id, root, at)
  {
    hide RowsOf, Seen;
    forall k: Key | k.role == id
      ensures (k in RowsOf(exec, a) <==> k in RowsOf(exec, b))
              && (k in RowsOf(exec, a) ==> RowsOf(exec, a)[k] == RowsOf(exec, b)[k])
    {
      RowsOfAt(exec, a, k);
      RowsOfAt(exec, b, k);
      assert LookUp(a, RowKey(exec, k)) == LookUp(b, RowKey(exec, k));
    }
    SameRowsSameWalk(RowsOf(exec, a), RowsOf(exec, b), id, 0, Reverse(Hashes(h, Seen(fs, root, at).names)));
  }

  lemma AnswerByOwnKeys(h: Hashing, exec: bool, a: Store, b: Store, fs: Fs, id: nat, root: Place, at: Place)
    requires AgreeFor(a, b, id)
    ensures Answer(h, exec, a, fs, id, root, at) == Answer(h, exec, b, fs, id, root, at)
  {
    hide Judge, RowsOf;
    assert LookUp(a, FlagsOf(id)) == LookUp(b, FlagsOf(id));
    JudgeByOwnKeys(h, exec, a, b, fs, id, root, at);
  }

  lemma SectionOfKind(h: Hashing, p: Prepared, resolve: Resolver, k: MapKey)
    requires WellPrepared(h, p)
    ensures KindOf(k) == File ==> LastWrite(WritesOf(h, p, resolve), k) == LastWrite(RowWrites(false, p.files), k)
    ensures KindOf(k) == Exec ==> LastWrite(WritesOf(h, p, resolve), k) == LastWrite(RowWrites(true, p.execs), k)
    ensures KindOf(k) == Flag ==> LastWrite(WritesOf(h, p, resolve), k) == LastWrite(FlagWrites(p.role), k)
    ensures KindOf(k) == Net ==>
              LastWrite(WritesOf(h, p, resolve), k) == LastWrite(NetWrites(p.role.id, p.role.networkRules), k)
    ensures KindOf(k) == Ip ==>
              LastWrite(WritesOf(h, p, resolve), k) == LastWrite(IpWrites(p.role.id, p.role.ipRules), k)
    ensures KindOf(k) in {Domain, Dns} ==>
              LastWrite(WritesOf(h, p, resolve), k)
              == LastWrite(DomainWrites(h, p.role.id, p.role.domainRules, resolve), k)
    ensures KindOf(k) == Prox ==>
              LastWrite(WritesOf(h, p, resolve), k) == LastWrite(ProxyWrites(p.role.id, p.role.proxy), k)
  {
    hide WritesOf, RowWrites, NetWrites, IpWrites, DomainWrites, ProxyWrites, FlagWrites, LocalWrites, LastWrite,
         Within, WellPrepared;
    var r := p.role;
    SectionsWithin(h, p, resolve);
    RoleLast(h, p, resolve, k);
    LocalLast(r, p.files, p.execs, k);
    if KindOf(k) != Prox { OutsideLastWrite(ProxyWrites(r.id, r.proxy), r.id, {Prox}, k); }
    if KindOf(k) !in {Domain, Dns} {
      OutsideLastWrite(DomainWrites(h, r.id, r.domainRules, resolve), r.id, {Domain, Dns}, k);
    }
    if KindOf(k) != Ip { OutsideLastWrite(IpWrites(r.id, r.ipRules), r.id, {Ip}, k); }
    if KindOf(k) != Exec { OutsideLastWrite(RowWrites(true, p.execs), r.id, {Exec}, k); }
    if KindOf(k) != File { OutsideLastWrite(RowWrites(false, p.files), r.id, {File}, k); }
    if KindOf(k) != Net { OutsideLastWrite(NetWrites(r.id, r.networkRules), r.id, {Net}, k); }
    if KindOf(k) != Flag { OutsideLastWrite(FlagWrites(r), r.id, {Flag}, k); }
  }

  /** No map holds anything for this id yet. */
  ghost predicate EmptyFor(store: Store, id: nat)
  {
    forall k :: k in store ==> OwnerOf(k) != id
  }

  lemma AppliedRowsInstalled(h: Hashing, p: Prepared, resolve: Resolver, store: Store, exec: bool)
    requires WellPrepared(h, p) && RoleCollisionFree(h, p.role) && EmptyFor(store, p.role.id)
    ensures Installed(RowsOf(exec, WriteSeq(store, WritesOf(h, p, resolve))), p.role.id,
                      if exec then p.execs else p.files)
  {
    hide WritesOf, WriteSeq, LastWrite, RowWrites, RowsOf, EncodedAs, ExecPaths, CollisionFree;
    var r := p.role;
    var entries := if exec then p.execs else p.files;
    var raw := if exec then ExecPaths(r.executionRules) else r.filePaths;
    var store' := WriteSeq(store, WritesOf(h, p, resolve));
    EncodedDistinct(h, r.id, raw, entries);
    EncodedOwner(h, r.id, raw, entries);
    forall k: Key | k.role == r.id
      ensures k in RowsOf(exec, store') <==> exists i :: 0 <= i < |entries| && entries[i].key == k
      ensures forall i :: 0 <= i < |entries| && entries[i].key == k && k in RowsOf(exec, store') ==>
                RowsOf(exec, store')[k] == entries[i].value
    {
      RowsOfAt(exec, store', k);
      LookUpWritten(store, WritesOf(h, p, resolve), RowKey(exec, k));
      SectionOfKind(h, p, resolve, RowKey(exec, k));
      RowLast(exec, entries, k);
    }
    forall i | 0 <= i < |entries|
      ensures entries[i].key in RowsOf(exec, store') && RowsOf(exec, store')[entries[i].key] == entries[i].value
    {
      assert entries[i] in entries;
    }
  }

  lemma AppliedFlags(h: Hashing, p: Prepared, resolve: Resolver, store: Store)
    requires WellPrepared(h, p)
    ensures FlagsIn(WriteSeq(store, WritesOf(h, p, resolve)), p.role.id) == Some(FlagByte(p.role.flags))
  {
    hide WritesOf, WriteSeq, WellPrepared, FlagByte;
    LookUpWritten(store, WritesOf(h, p, resolve), FlagsOf(p.role.id));
    SectionOfKind(h, p, resolve, FlagsOf(p.role.id));
  }

  lemma FlagBits(f: Flags)
    ensures FlagByte(f) & 0x01 != 0 <==> f.allowFileAccess
    ensures FlagByte(f) & 0x02 != 0 <==> f.allowNetwork
    ensures FlagByte(f) & 0x04 != 0 <==> f.allowExec
  {
  }

  /** What the policy says about a path the task sees: its rules, and the role's flag where they are silent. */
  ghost predicate Permits(raw: seq<RawRule>, flag: bool, s: Sight)
  {
    match PathVerdict(raw, s)
    case Some(allow) => allow
    case None => flag
  }

  /**
   End to end: for a role the gate lets through, applied where its id held nothing,
   a file open is granted exactly when `file_paths` permits it, and an exec by an
   enrolled task exactly when `execution_rules` does.
   */
  lemma PolicyIsEnforced(h: Hashing, p: Prepared, resolve: Resolver, store: Store, exec: bool,
                         fs: Fs, root: Place, rank: Place -> nat, at: Place)
    requires Enforceable(p.role) && WellPrepared(h, p) && RoleCollisionFree(h, p.role)
    requires EmptyFor(store, p.role.id)
    requires Forest(fs, root, rank) && AllNamed(fs, root) && at.dentry != 0 && at.mnt != 0
    requires CollisionFree(h, p.role.id, Effectual(if exec then ExecPaths(p.role.executionRules) else p.role.filePaths),
                           Reverse(Visible(fs, root, rank, at).names))
    ensures var raw := if exec then ExecPaths(p.role.executionRules) else p.role.filePaths;
            var flag := if exec then p.role.flags.allowExec else p.role.flags.allowFileAccess;
            Answer(h, exec, WriteSeq(store, WritesOf(h, p, resolve)), fs, p.role.id, root, at) == GRANTED
            <==> Permits(raw, flag, Visible(fs, root, rank, at))
  {
    hide WritesOf, WriteSeq, CollisionFree, IsTable, Installed, Visible, Forest, AllNamed, ExecPaths, PathVerdict,
         Judge, FlagByte, RowsOf, Effectual, Clash;
    var r := p.role;
    var raw := if exec then ExecPaths(r.executionRules) else r.filePaths;
    var entries := if exec then p.execs else p.files;
    var store' := WriteSeq(store, WritesOf(h, p, resolve));
    AppliedRowsInstalled(h, p, resolve, store, exec);
    AppliedFlags(h, p, resolve, store);
    FlagBits(r.flags);
    var slots :| IsTable(h, r.id, Effectual(raw), entries, slots);
    JudgeMeansRules(h, r.id, raw, entries, slots, RowsOf(exec, store'), fs, root, rank, at);
  }

  // ---- a role in force ----

  /** Under the keys of its id the store holds what applying the role to an empty id leaves. */
  ghost predicate InForce(h: Hashing, store: Store, role: Role, resolve: Resolver)
  {
    Parses(role) && exists p: Prepared, before :: p.role == role && AppliedOn(h, p, resolve, before, store)
  }

  ghost predicate AppliedOn(h: Hashing, p: Prepared, resolve: Resolver, before: Store, store: Store)
  {
    && WellPrepared(h, p) && EmptyFor(before, p.role.id)
    && AgreeFor(store, WriteSeq(before, WritesOf(h, p, resolve)), p.role.id)
  }

  lemma WroteIsInForce(h: Hashing, role: Role, resolve: Resolver, log0: seq<Write>, before: Store, log: seq<Write>,
                       store: Store)
    requires Wrote(h, role, resolve, log0, before, log, store, true) && EmptyFor(before, role.id) && Parses(role)
    ensures InForce(h, store, role, resolve)
  {
    hide Wrote, WriteSeq, WritesOf, WellPrepared, EmptyFor;
    var p := WroteAsPrepared(h, role, resolve, log0, before, log, store);
    assert AppliedOn(h, p, resolve, before, store);
  }

  /** What the theorem asks of a role, a view of the tree and a place in it. */
  ghost predicate Clear(h: Hashing, role: Role, exec: bool, fs: Fs, root: Place, rank: Place -> nat, at: Place)
  {
    && Enforceable(role) && RoleCollisionFree(h, role)
    && Forest(fs, root, rank) && AllNamed(fs, root) && at.dentry != 0 && at.mnt != 0
    && CollisionFree(h, role.id, Effectual(if exec then ExecPaths(role.executionRules) else role.filePaths),
                     Reverse(Visible(fs, root, rank, at).names))
  }

  ghost predicate Allows(role: Role, exec: bool, s: Sight)
  {
    if exec then Permits(ExecPaths(role.executionRules), role.flags.allowExec, s)
    else Permits(role.filePaths, role.flags.allowFileAccess, s)
  }

  lemma InForceIsEnforced(h: Hashing, store: Store, role: Role, resolve: Resolver, exec: bool, fs: Fs, root: Place,
                          rank: Place -> nat, at: Place)
    requires InForce(h, store, role, resolve) && Clear(h, role, exec, fs, root, rank, at)
    ensures Answer(h, exec, store, fs, role.id, root, at) == GRANTED
       <==> Allows(role, exec, Visible(fs, root, rank, at))
  {
    hide WritesOf, WriteSeq, AgreeFor, Answer, Permits, Enforceable, RoleCollisionFree, CollisionFree, Forest, AllNamed,
         WellPrepared, EmptyFor;
    var p: Prepared, before :| p.role == role && AppliedOn(h, p, resolve, before, store);
    AnswerByOwnKeys(h, exec, store, WriteSeq(before, WritesOf(h, p, resolve)), fs, role.id, root, at);
    PolicyIsEnforced(h, p, resolve, before, exec, fs, root, rank, at);
  }

  /** After the loop over a policy's roles, from empty maps, each of them is in force and no other id has flags. */
  lemma PopulatedIsInForce(h: Hashing, roles: seq<Role>, resolve: Resolver, store: Store)
    requires Populated(h, roles, resolve, map[], store) && DistinctRoleIds(roles)
    requires forall i :: 0 <= i < |roles| ==> Parses(roles[i])
    ensures forall r :: r in roles ==> InForce(h, store, r, resolve)
    ensures forall id :: (forall r :: r in roles ==> r.id != id) ==> FlagsIn(store, id).None?
  {
    hide WellPrepared, WritesOf, WriteBatches, WriteSeq, DistinctRoleIds, BatchesOf, LastWrite, Parses;
    var ps :| AllPrepared(h, ps) && RolesIn(ps) == roles && store == WriteBatches(map[], BatchesOf(h, ps, resolve));
    forall r | r in roles ensures InForce(h, store, r, resolve) {
      var i :| 0 <= i < |roles| && roles[i] == r;
      forall k | OwnerOf(k) == r.id
        ensures LookUp(store, k) == LookUp(WriteSeq(map[], WritesOf(h, ps[i], resolve)), k)
      {
        PopulatedLookUp(h, ps, roles, resolve, map[], k);
        LookUpWritten(map[], WritesOf(h, ps[i], resolve), k);
      }
      assert AppliedOn(h, ps[i], resolve, map[], store);
    }
    forall id | forall r :: r in roles ==> r.id != id ensures FlagsIn(store, id).None? {
      PopulatedLookUp(h, ps, roles, resolve, map[], FlagsOf(id));
      assert forall i :: 0 <= i < |roles| ==> roles[i] in roles;
    }
  }

  /** Where there is no place to judge, the role's flag answers. */
  lemma NoPlaceByFlag(h: Hashing, store: Store, role: Role, resolve: Resolver, exec: bool, fs: Fs, root: Place,
                      at: Place)
    requires InForce(h, store, role, resolve) && (at.dentry == 0 || at.mnt == 0)
    ensures Answer(h, exec, store, fs, role.id, root, at) == GRANTED
       <==> if exec then role.flags.allowExec else role.flags.allowFileAccess
  {
    hide WritesOf, WriteSeq, WellPrepared, EmptyFor, FlagByte, RowsOf, WalkFrom;
    var p: Prepared, before :| p.role == role && AppliedOn(h, p, resolve, before, store);
    AppliedFlags(h, p, resolve, before);
    assert LookUp(store, FlagsOf(role.id)) == LookUp(WriteSeq(before, WritesOf(h, p, resolve)), FlagsOf(role.id));
    FlagBits(role.flags);
  }

  // ---- what a role without `*` permits, read off its rules as listed ----

  /** The pattern names something, and what it names begins the path. */
  predicate Begins(pattern: Name, path: seq<Name>)
  {
    PatternComponents(pattern) != [] && PatternComponents(pattern) <= path
  }

  function Depth(pattern: Name): nat
  {
    |PatternComponents(pattern)|
  }

  /** File rule `i` is the deepest that begins the path, last listed among equals. */
  predicate DeepestFileRule(rules: seq<RawRule>, path: seq<Name>, i: int)
  {
    && 0 <= i < |rules| && Begins(rules[i].pattern, path)
    && forall j :: 0 <= j < |rules| && Begins(rules[j].pattern, path) ==>
         || Depth(rules[j].pattern) < Depth(rules[i].pattern)
         || (Depth(rules[j].pattern) == Depth(rules[i].pattern) && j <= i)
  }

  /** Execution rule `i` is the deepest whose binary path begins the path, last listed among equals. */
  predicate DeepestExecRule(rules: seq<ExecutionRule>, path: seq<Name>, i: int)
  {
    && 0 <= i < |rules| && Begins(rules[i].binaryPath, path)
    && forall j :: 0 <= j < |rules| && Begins(rules[j].binaryPath, path) ==>
         || Depth(rules[j].binaryPath) < Depth(rules[i].binaryPath)
         || (Depth(rules[j].binaryPath) == Depth(rules[i].binaryPath) && j <= i)
  }

  /** The path reaches the task's root within what the kernel climbs. */
  predicate InSight(s: Sight)
  {
    s.rooted && |s.names| <= 16 && |s.names| + s.crossings <= 31
  }

  lemma {:induction false} OnePathRule(raw: seq<RawRule>, path: seq<Name>, i: int)
    ensures Covers(Parsed(raw), path, i) <==> 0 <= i < |raw| && Begins(raw[i].pattern, path)
    ensures DeepestCover(Parsed(raw), path, i) <==> DeepestFileRule(raw, path, i)
  {
    hide PatternComponents;
    forall j ensures Covers(Parsed(raw), path, j) <==> 0 <= j < |raw| && Begins(raw[j].pattern, path) {
    }
  }

  lemma {:induction false} VerdictByDeepest(raw: seq<RawRule>, path: seq<Name>)
    requires forall i :: 0 <= i < |raw| ==> [42] !in PatternComponents(raw[i].pattern)
    ensures forall i :: DeepestFileRule(raw, path, i) ==> Verdict(Parsed(raw), path) == Some(raw[i].allow)
    ensures (forall i :: !DeepestFileRule(raw, path, i)) ==> Verdict(Parsed(raw), path) == None
  {
    hide PatternComponents, Meaning;
    forall i ensures DeepestCover(Parsed(raw), path, i) <==> DeepestFileRule(raw, path, i) {
      OnePathRule(raw, path, i);
    }
    forall i ensures Covers(Parsed(raw), path, i) <==> 0 <= i < |raw| && Begins(raw[i].pattern, path) {
      OnePathRule(raw, path, i);
    }
    if path != [] {
      assert StarFree(Parsed(raw));
      LongestPrefix(Parsed(raw), path);
    }
  }

  /** A file is permitted as the deepest rule that begins its path says, and by the flag if there is none. */
  lemma {:induction false} FilesByDeepestRule(role: Role, s: Sight)
    requires forall i :: 0 <= i < |role.filePaths| ==> [42] !in PatternComponents(role.filePaths[i].pattern)
    ensures var rules, path := role.filePaths, Reverse(s.names);
            && (forall i :: InSight(s) && DeepestFileRule(rules, path, i) ==>
                  (Allows(role, false, s) <==> rules[i].allow))
            && (!InSight(s) || (forall i :: !DeepestFileRule(rules, path, i)) ==>
                  (Allows(role, false, s) <==> role.flags.allowFileAccess))
  {
    hide PatternComponents, Verdict;
    VerdictByDeepest(role.filePaths, Reverse(s.names));
  }

  /** Likewise an exec, by the execution rules as the role lists them. */
  lemma {:induction false} ExecsByDeepestRule(role: Role, s: Sight)
    requires forall i :: 0 <= i < |role.executionRules| ==>
               [42] !in PatternComponents(role.executionRules[i].binaryPath)
    ensures var rules, path := role.executionRules, Reverse(s.names);
            && (forall i :: InSight(s) && DeepestExecRule(rules, path, i) ==>
                  (Allows(role, true, s) <==> rules[i].allow))
            && (!InSight(s) || (forall i :: !DeepestExecRule(rules, path, i)) ==>
                  (Allows(role, true, s) <==> role.flags.allowExec))
  {
    hide PatternComponents, Verdict;
    var rules, raw, path := role.executionRules, ExecPaths(role.executionRules), Reverse(s.names);
    VerdictByDeepest(raw, path);
    forall i ensures DeepestExecRule(rules, path, i) <==> DeepestFileRule(raw, path, i) {
      SameDeepest(rules, path, i);
    }
    assert Allows(role, true, s) == Permits(raw, role.flags.allowExec, s);
  }

  lemma {:induction false} SameDeepest(rules: seq<ExecutionRule>, path: seq<Name>, i: int)
    ensures DeepestExecRule(rules, path, i) <==> DeepestFileRule(ExecPaths(rules), path, i)
  {
    hide PatternComponents;
  }
}
