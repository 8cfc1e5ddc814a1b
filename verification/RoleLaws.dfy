/** Applying roles: isolation between ids, independence of order, and repetition. */
module RoleLaws {
  import opened Base
  import opened Table
  import opened RoleEncoder
  import opened Walk
  import opened Policy
  import opened Writes
  import opened Apply

  // ---- every write of a role carries its id, and each section its own kind of key ----

  datatype Kind = Flag | File | Exec | Net | Ip | Domain | Dns | Prox

  function KindOf(k: MapKey): Kind
  {
    match k
    case FlagsOf(_) => Flag
    case PathRow(_) => File
    case ExecRow(_) => Exec
    case NetKey(_, _, _, _) => Net
    case IpKey(_, _, _, _) => Ip
    case DomainKey(_, _) => Domain
    case DnsKey(_, _) => Dns
    case ProxyKey(_) => Prox
  }

  /** All keys belong to `id` and are of one of `kinds`. */
  ghost predicate Within(ws: seq<Write>, id: nat, kinds: set<Kind>)
  {
    forall w :: w in ws ==> OwnerOf(w.key) == id && KindOf(w.key) in kinds
  }

  lemma {:induction false} OutsideLastWrite(ws: seq<Write>, id: nat, kinds: set<Kind>, k: MapKey)
    requires Within(ws, id, kinds) && (OwnerOf(k) != id || KindOf(k) !in kinds)
    ensures LastWrite(ws, k) == None
  {
    if ws != [] {
      assert ws[|ws| - 1] in ws;
      OutsideLastWrite(ws[..|ws| - 1], id, kinds, k);
    }
  }

  lemma {:induction false} RowsWithin(exec: bool, entries: seq<Entry>, id: nat)
    requires forall e :: e in entries ==> e.key.role == id
    ensures Within(RowWrites(exec, entries), id, {if exec then Exec else File})
  {
    if entries != [] {
      assert entries[|entries| - 1] in entries;
      RowsWithin(exec, entries[..|entries| - 1], id);
    }
  }

  lemma {:induction false} PortsWithin(id: nat, protocol: bv8, ports: seq<U16>, allow: bool)
    ensures Within(PortWrites(id, protocol, ports, allow), id, {Net})
  {
    if ports != [] { PortsWithin(id, protocol, ports[..|ports| - 1], allow); }
  }

  lemma {:induction false} NetWithin(id: nat, rules: seq<NetworkRule>)
    ensures Within(NetWrites(id, rules), id, {Net})
  {
    hide ExpandNetworkRule;
    if rules != [] {
      NetWithin(id, rules[..|rules| - 1]);
      var r := rules[|rules| - 1];
      if ExpandNetworkRule(r).Some? {
        PortsWithin(id, ExpandNetworkRule(r).value.protocol, ExpandNetworkRule(r).value.ports, r.allow);
      }
    }
  }

  lemma {:induction false} IpWithin(id: nat, rules: seq<IpRule>)
    ensures Within(IpWrites(id, rules), id, {Ip})
  {
    if rules != [] { IpWithin(id, rules[..|rules| - 1]); }
  }

  lemma {:induction false} DnsWithin(id: nat, hash: bv64, addresses: seq<bv32>)
    ensures Within(DnsWrites(id, hash, addresses), id, {Dns})
  {
    if addresses != [] { DnsWithin(id, hash, addresses[..|addresses| - 1]); }
  }

  lemma {:induction false} DomainWithin(h: Hashing, id: nat, rules: seq<DomainRule>, resolve: Resolver)
    ensures Within(DomainWrites(h, id, rules, resolve), id, {Domain, Dns})
  {
    if rules != [] {
      var r := rules[|rules| - 1];
      DomainWithin(h, id, rules[..|rules| - 1], resolve);
      DnsWithin(id, h.comp(r.domain), resolve(r.domain));
    }
  }

  lemma EncodedOwner(h: Hashing, id: nat, raw: seq<RawRule>, entries: seq<Entry>)
    requires EncodedAs(h, id, raw, entries)
    ensures forall e :: e in entries ==> e.key.role == id
  {
    hide Clash, Effectual, Expected;
    if !Clash(Effectual(raw)) {
      var slots :| IsTable(h, id, Effectual(raw), entries, slots);
    }
  }

  /** A role together with the encodings of its two rule lists. */
  datatype Prepared = Prepared(role: Role, files: seq<Entry>, execs: seq<Entry>)

  ghost predicate WellPrepared(h: Hashing, p: Prepared)
  {
    && EncodedAs(h, p.role.id, p.role.filePaths, p.files)
    && EncodedAs(h, p.role.id, ExecPaths(p.role.executionRules), p.execs)
  }

  function WritesOf(h: Hashing, p: Prepared, resolve: Resolver): seq<Write>
  {
    RoleWrites(h, p.role, resolve, p.files, p.execs)
  }

  lemma SmallSectionsWithin(role: Role)
    ensures Within(FlagWrites(role), role.id, {Flag}) && Within(ProxyWrites(role.id, role.proxy), role.id, {Prox})
  {
    hide FlagByte, Swap;
  }

  lemma SectionsWithin(h: Hashing, p: Prepared, resolve: Resolver)
    requires WellPrepared(h, p)
    ensures Within(FlagWrites(p.role), p.role.id, {Flag})
    ensures Within(RowWrites(false, p.files), p.role.id, {File}) && Within(RowWrites(true, p.execs), p.role.id, {Exec})
    ensures Within(NetWrites(p.role.id, p.role.networkRules), p.role.id, {Net})
    ensures Within(IpWrites(p.role.id, p.role.ipRules), p.role.id, {Ip})
    ensures Within(DomainWrites(h, p.role.id, p.role.domainRules, resolve), p.role.id, {Domain, Dns})
    ensures Within(ProxyWrites(p.role.id, p.role.proxy), p.role.id, {Prox})
  {
    hide EncodedAs, ExecPaths, FlagByte, RowWrites, NetWrites, IpWrites, DomainWrites, Within, FlagWrites, ProxyWrites;
    var r := p.role;
    SmallSectionsWithin(r);
    EncodedOwner(h, r.id, r.filePaths, p.files);
    EncodedOwner(h, r.id, ExecPaths(r.executionRules), p.execs);
    RowsWithin(false, p.files, r.id);
    RowsWithin(true, p.execs, r.id);
    NetWithin(r.id, r.networkRules);
    IpWithin(r.id, r.ipRules);
    DomainWithin(h, r.id, r.domainRules, resolve);
  }

  lemma RoleOwnsItsWrites(h: Hashing, p: Prepared, resolve: Resolver)
    requires WellPrepared(h, p)
    ensures Owned(WritesOf(h, p, resolve), p.role.id)
  {
    hide WellPrepared, RowWrites, NetWrites, IpWrites, DomainWrites, ProxyWrites, FlagWrites;
    SectionsWithin(h, p, resolve);
  }

  /** Isolation: applying a role, whether it gets to the end or not, leaves every key of every other id as it was. */
  lemma RoleIsolation(h: Hashing, p: Prepared, resolve: Resolver, done: seq<Write>, store: Store, k: MapKey)
    requires WellPrepared(h, p) && done <= WritesOf(h, p, resolve) && OwnerOf(k) != p.role.id
    ensures LookUp(WriteSeq(store, done), k) == LookUp(store, k)
  {
    hide WellPrepared, WritesOf;
    RoleOwnsItsWrites(h, p, resolve);
    assert forall i :: 0 <= i < |done| ==> done[i] == WritesOf(h, p, resolve)[i];
    assert Owned(done, p.role.id);
    OwnedLastWrite(done, p.role.id, k);
    LookUpWritten(store, done, k);
  }

  /** The two stores hold the same under every key of this id. */
  ghost predicate AgreeFor(a: Store, b: Store, id: nat)
  {
    forall k :: OwnerOf(k) == id ==> LookUp(a, k) == LookUp(b, k)
  }

  lemma OtherIdsKept(h: Hashing, role: Role, resolve: Resolver, log0: seq<Write>, before: Store, log: seq<Write>,
                     after: Store, complete: bool, id: nat)
    requires Wrote(h, role, resolve, log0, before, log, after, complete) && id != role.id
    ensures AgreeFor(before, after, id)
  {
    hide EncodedAs, WriteSeq, RoleWrites;
    var files, execs, done :|
      && EncodedAs(h, role.id, role.filePaths, files) && EncodedAs(h, role.id, ExecPaths(role.executionRules), execs)
      && after == WriteSeq(before, done) && done <= RoleWrites(h, role, resolve, files, execs);
    var p := Prepared(role, files, execs);
    forall k | OwnerOf(k) == id ensures LookUp(after, k) == LookUp(before, k) {
      RoleIsolation(h, p, resolve, done, before, k);
    }
  }

  function BatchOf(h: Hashing, p: Prepared, resolve: Resolver): Batch
  {
    Batch(p.role.id, WritesOf(h, p, resolve))
  }

  function BatchesOf(h: Hashing, ps: seq<Prepared>, resolve: Resolver): (bs: seq<Batch>)
    ensures |bs| == |ps| && forall i :: 0 <= i < |ps| ==> bs[i] == BatchOf(h, ps[i], resolve)
  {
    if ps == [] then [] else BatchesOf(h, ps[..|ps| - 1], resolve) + [BatchOf(h, ps[|ps| - 1], resolve)]
  }

  ghost predicate DistinctIds(ps: seq<Prepared>)
  {
    forall i, j :: 0 <= i < j < |ps| ==> ps[i].role.id != ps[j].role.id
  }

  lemma SeparateBatches(h: Hashing, ps: seq<Prepared>, resolve: Resolver)
    requires AllPrepared(h, ps) && DistinctIds(ps)
    ensures Separate(BatchesOf(h, ps, resolve))
  {
    hide WellPrepared, WritesOf;
    var bs := BatchesOf(h, ps, resolve);
    forall b | b in bs ensures Owned(b.writes, b.owner) {
      var i :| 0 <= i < |bs| && bs[i] == b;
      RoleOwnsItsWrites(h, ps[i], resolve);
    }
  }

  // ---- repetition ----

  /** Which section's last write a key ends up with. */
  lemma RoleLast(h: Hashing, p: Prepared, resolve: Resolver, k: MapKey)
    ensures LastWrite(WritesOf(h, p, resolve), k) ==
            First(LastWrite(ProxyWrites(p.role.id, p.role.proxy), k),
                  First(LastWrite(DomainWrites(h, p.role.id, p.role.domainRules, resolve), k),
                        First(LastWrite(IpWrites(p.role.id, p.role.ipRules), k),
                              LastWrite(LocalWrites(p.role, p.files, p.execs), k))))
  {
    hide LocalWrites, ProxyWrites, DomainWrites, IpWrites, LastWrite;
    var r := p.role;
    var a, b, c, d := LocalWrites(r, p.files, p.execs), IpWrites(r.id, r.ipRules),
                      DomainWrites(h, r.id, r.domainRules, resolve), ProxyWrites(r.id, r.proxy);
    LastWriteConcat(a + b + c, d, k);
    LastWriteConcat(a + b, c, k);
    LastWriteConcat(a, b, k);
  }

  lemma LocalLast(role: Role, files: seq<Entry>, execs: seq<Entry>, k: MapKey)
    ensures LastWrite(LocalWrites(role, files, execs), k) ==
            First(LastWrite(NetWrites(role.id, role.networkRules), k),
                  First(LastWrite(RowWrites(true, execs), k),
                        First(LastWrite(RowWrites(false, files), k), LastWrite(FlagWrites(role), k))))
  {
    hide RowWrites, NetWrites, FlagWrites, LastWrite;
    var a, b, c, d := FlagWrites(role), RowWrites(false, files), RowWrites(true, execs),
                      NetWrites(role.id, role.networkRules);
    LastWriteConcat(a + b + c, d, k);
    LastWriteConcat(a + b, c, k);
    LastWriteConcat(a, b, k);
  }

  function RowKey(exec: bool, k: Key): MapKey
  {
    if exec then ExecRow(k) else PathRow(k)
  }

  lemma {:induction false} RowLast(exec: bool, entries: seq<Entry>, k: Key)
    requires DistinctKeys(entries)
    ensures forall i :: 0 <= i < |entries| && entries[i].key == k ==>
              LastWrite(RowWrites(exec, entries), RowKey(exec, k)) == Some(RowValue(entries[i].value))
    ensures (forall i :: 0 <= i < |entries| ==> entries[i].key != k) ==>
              LastWrite(RowWrites(exec, entries), RowKey(exec, k)) == None
  {
    hide LastWrite;
    if entries == [] {
      NoWrites(RowKey(exec, k));
    } else {
      var init, e := entries[..|entries| - 1], entries[|entries| - 1];
      var last := Write(RowKey(exec, e.key), RowValue(e.value));
      RowLast(exec, init, k);
      OneWrite(last, RowKey(exec, k));
      LastWriteConcat(RowWrites(exec, init), [last], RowKey(exec, k));
      assert forall i :: 0 <= i < |init| ==> entries[i] == init[i];
    }
  }

  lemma NoWrites(k: MapKey)
    ensures LastWrite([], k) == None
  {
  }

  lemma OneWrite(w: Write, k: MapKey)
    ensures LastWrite([w], k) == if w.key == k then Some(w.value) else None
  {
    assert [w][..0] == [];
  }

  /** The hash premise, for a role's two rule lists. */
  ghost predicate RoleCollisionFree(h: Hashing, role: Role)
  {
    && CollisionFree(h, role.id, Effectual(role.filePaths), [])
    && CollisionFree(h, role.id, Effectual(ExecPaths(role.executionRules)), [])
  }

  lemma EncodedDistinct(h: Hashing, id: nat, raw: seq<RawRule>, entries: seq<Entry>)
    requires EncodedAs(h, id, raw, entries) && CollisionFree(h, id, Effectual(raw), [])
    ensures DistinctKeys(entries)
  {
    hide Clash, Effectual, CollisionFree, IsTable;
    if !Clash(Effectual(raw)) {
      var slots :| IsTable(h, id, Effectual(raw), entries, slots);
      NoOverwriting(h, id, Effectual(raw), entries, slots);
    }
  }

  /** Two encodings of one list have the same entries. */
  lemma EncodedTwice(h: Hashing, id: nat, raw: seq<RawRule>, a: seq<Entry>, b: seq<Entry>)
    requires EncodedAs(h, id, raw, a) && EncodedAs(h, id, raw, b)
    ensures forall e :: e in a ==> e in b
  {
    hide Clash, Effectual, Expected, EntryAt;
    if !Clash(Effectual(raw)) {
      var rs := Effectual(raw);
      var s :| IsTable(h, id, rs, a, s);
      var t :| IsTable(h, id, rs, b, t);
      forall e | e in a ensures e in b {
        var i :| 0 <= i < |a| && a[i] == e;
        assert s[i] in s && s[i] in t;
        var j :| 0 <= j < |t| && t[j] == s[i];
        assert b[j] == e;
      }
    }
  }

  lemma RowsTwice(h: Hashing, exec: bool, id: nat, raw: seq<RawRule>, a: seq<Entry>, b: seq<Entry>, k: MapKey)
    requires EncodedAs(h, id, raw, a) && EncodedAs(h, id, raw, b) && CollisionFree(h, id, Effectual(raw), [])
    ensures LastWrite(RowWrites(exec, a), k) == LastWrite(RowWrites(exec, b), k)
  {
    hide EncodedAs, CollisionFree, Effectual, RowWrites, LastWrite;
    EncodedOwner(h, id, raw, a);
    EncodedOwner(h, id, raw, b);
    RowsWithin(exec, a, id);
    RowsWithin(exec, b, id);
    if (exec && k.ExecRow?) || (!exec && k.PathRow?) {
      assert k == RowKey(exec, k.row);
      EncodedDistinct(h, id, raw, a);
      EncodedDistinct(h, id, raw, b);
      EncodedTwice(h, id, raw, a, b);
      EncodedTwice(h, id, raw, b, a);
      RowLast(exec, a, k.row);
      RowLast(exec, b, k.row);
      assert forall i :: 0 <= i < |a| ==> a[i] in b;
      assert forall j :: 0 <= j < |b| ==> b[j] in a;
    } else {
      OutsideLastWrite(RowWrites(exec, a), id, {if exec then Exec else File}, k);
      OutsideLastWrite(RowWrites(exec, b), id, {if exec then Exec else File}, k);
    }
  }

  /** Whichever way its lists were encoded, a role leaves the same value under every key. */
  lemma SameLastWrite(h: Hashing, a: Prepared, b: Prepared, resolve: Resolver, k: MapKey)
    requires WellPrepared(h, a) && WellPrepared(h, b) && a.role == b.role && RoleCollisionFree(h, a.role)
    ensures LastWrite(WritesOf(h, a, resolve), k) == LastWrite(WritesOf(h, b, resolve), k)
  {
    hide WritesOf, LastWrite, RowWrites, NetWrites, IpWrites, DomainWrites, ProxyWrites, FlagWrites, LocalWrites,
         EncodedAs, CollisionFree, ExecPaths;
    var r := a.role;
    RoleLast(h, a, resolve, k);
    RoleLast(h, b, resolve, k);
    LocalLast(r, a.files, a.execs, k);
    LocalLast(r, b.files, b.execs, k);
    RowsTwice(h, false, r.id, r.filePaths, a.files, b.files, k);
    RowsTwice(h, true, r.id, ExecPaths(r.executionRules), a.execs, b.execs, k);
  }

  /** Applying a role a second time changes nothing. */
  lemma ReapplyIsIdle(h: Hashing, first: Prepared, again: Prepared, resolve: Resolver, store: Store)
    requires WellPrepared(h, first) && WellPrepared(h, again) && first.role == again.role
    requires RoleCollisionFree(h, first.role)
    ensures WriteSeq(WriteSeq(store, WritesOf(h, first, resolve)), WritesOf(h, again, resolve))
         == WriteSeq(store, WritesOf(h, first, resolve))
  {
    hide WritesOf, LastWrite, WellPrepared, RoleCollisionFree, WriteSeq;
    forall k ensures LastWrite(WritesOf(h, again, resolve), k) == LastWrite(WritesOf(h, first, resolve), k) {
      SameLastWrite(h, first, again, resolve, k);
    }
    RewriteIsIdle(store, WritesOf(h, first, resolve), WritesOf(h, again, resolve));
  }

  // ---- a policy's roles, one after the other ----

  function RolesIn(ps: seq<Prepared>): (roles: seq<Role>)
    ensures |roles| == |ps| && forall i :: 0 <= i < |ps| ==> roles[i] == ps[i].role
  {
    if ps == [] then [] else RolesIn(ps[..|ps| - 1]) + [ps[|ps| - 1].role]
  }

  ghost predicate AllPrepared(h: Hashing, ps: seq<Prepared>)
  {
    forall i :: 0 <= i < |ps| ==> WellPrepared(h, ps[i])
  }

  /** `store` is what applying the roles in this order leaves of `before`. */
  ghost predicate Populated(h: Hashing, roles: seq<Role>, resolve: Resolver, before: Store, store: Store)
  {
    exists ps :: AllPrepared(h, ps) && RolesIn(ps) == roles && store == WriteBatches(before, BatchesOf(h, ps, resolve))
  }

  lemma PopulatedSnoc(h: Hashing, roles: seq<Role>, role: Role, resolve: Resolver, before: Store, middle: Store,
                      log0: seq<Write>, log: seq<Write>, store: Store)
    requires Populated(h, roles, resolve, before, middle)
    requires Wrote(h, role, resolve, log0, middle, log, store, true)
    ensures Populated(h, roles + [role], resolve, before, store)
  {
    hide WellPrepared, WritesOf, WriteBatches, WriteSeq, Wrote;
    var ps :| AllPrepared(h, ps) && RolesIn(ps) == roles && middle == WriteBatches(before, BatchesOf(h, ps, resolve));
    var p := WroteAsPrepared(h, role, resolve, log0, middle, log, store);
    var ps' := ps + [p];
    assert RolesIn(ps') == roles + [role];
    BatchesSnoc(h, ps, p, resolve, before);
  }

  lemma WroteAsPrepared(h: Hashing, role: Role, resolve: Resolver, log0: seq<Write>, before: Store, log: seq<Write>,
                        store: Store) returns (p: Prepared)
    requires Wrote(h, role, resolve, log0, before, log, store, true)
    ensures p.role == role && WellPrepared(h, p) && store == WriteSeq(before, WritesOf(h, p, resolve))
  {
    hide EncodedAs, RoleWrites, WriteSeq;
    var files, execs :|
      && EncodedAs(h, role.id, role.filePaths, files) && EncodedAs(h, role.id, ExecPaths(role.executionRules), execs)
      && store == WriteSeq(before, RoleWrites(h, role, resolve, files, execs));
    p := Prepared(role, files, execs);
  }

  lemma BatchesSnoc(h: Hashing, ps: seq<Prepared>, p: Prepared, resolve: Resolver, before: Store)
    ensures WriteBatches(before, BatchesOf(h, ps + [p], resolve))
         == WriteSeq(WriteBatches(before, BatchesOf(h, ps, resolve)), WritesOf(h, p, resolve))
  {
    hide WritesOf, WriteSeq;
    assert (ps + [p])[..|ps|] == ps;
    var bs := BatchesOf(h, ps + [p], resolve);
    assert bs[..|ps|] == BatchesOf(h, ps, resolve);
  }

  /** Role `n` is the first that does not parse: those before it are applied, and a prefix of its own writes is made. */
  ghost predicate StoppedAt(h: Hashing, roles: seq<Role>, resolve: Resolver, before: Store, store: Store, n: int)
  {
    && 0 <= n < |roles| && !Parses(roles[n]) && (forall j :: 0 <= j < n ==> Parses(roles[j]))
    && exists middle, log0, log ::
         && Populated(h, roles[..n], resolve, before, middle)
         && Wrote(h, roles[n], resolve, log0, middle, log, store, false)
  }

  /** The bootstrap's loop over the roles: it stops at the first role with an address that does not parse. */
  method PopulateRoles(h: Hashing, sink: PolicyMaps, roles: seq<Role>, resolve: Resolver) returns (ok: bool)
    requires sink.Valid()
    modifies sink
    ensures sink.Valid()
    ensures ok <==> forall i :: 0 <= i < |roles| ==> Parses(roles[i])
    ensures ok ==> Populated(h, roles, resolve, old(sink.store), sink.store)
    ensures !ok ==> exists n :: StoppedAt(h, roles, resolve, old(sink.store), sink.store, n)
  {
    hide Parses, Wrote, Populated, Told, WriteSeq;
    ghost var before := sink.store;
    assert Populated(h, [], resolve, before, before) by { PopulatedNothing(h, resolve, before); }
    assert roles[..0] == [];
    for i := 0 to |roles|
      invariant sink.Valid()
      invariant forall j :: 0 <= j < i ==> Parses(roles[j])
      invariant Populated(h, roles[..i], resolve, before, sink.store)
    {
      ghost var log0, middle := sink.log, sink.store;
      var applied := ApplyRole(h, sink, roles[i], resolve);
      if applied.Failed? {
        assert StoppedAt(h, roles, resolve, before, sink.store, i);
        return false;
      }
      PopulatedSnoc(h, roles[..i], roles[i], resolve, before, middle, log0, sink.log, sink.store);
      assert roles[..i + 1] == roles[..i] + [roles[i]];
    }
    assert roles[..|roles|] == roles;
    return true;
  }

  lemma PopulatedNothing(h: Hashing, resolve: Resolver, before: Store)
    ensures Populated(h, [], resolve, before, before)
  {
    assert AllPrepared(h, []) && RolesIn([]) == [];
    assert before == WriteBatches(before, BatchesOf(h, [], resolve));
  }

  predicate DistinctRoleIds(roles: seq<Role>)
  {
    forall i, j :: 0 <= i < j < |roles| ==> roles[i].id != roles[j].id
  }

  /** What a key holds after the loop: the last write of the role that owns it, else what it held before. */
  lemma PopulatedLookUp(h: Hashing, ps: seq<Prepared>, roles: seq<Role>, resolve: Resolver, before: Store, k: MapKey)
    requires AllPrepared(h, ps) && RolesIn(ps) == roles && DistinctRoleIds(roles)
    ensures var store := WriteBatches(before, BatchesOf(h, ps, resolve));
            && (forall i :: 0 <= i < |roles| && roles[i].id == OwnerOf(k) ==>
                  LookUp(store, k) == First(LastWrite(WritesOf(h, ps[i], resolve), k), LookUp(before, k)))
            && ((forall i :: 0 <= i < |roles| ==> roles[i].id != OwnerOf(k)) ==> LookUp(store, k) == LookUp(before, k))
  {
    hide WellPrepared, WritesOf, WriteBatches, Separate, LastWrite;
    assert forall i :: 0 <= i < |roles| ==> roles[i] == ps[i].role;
    SeparateBatches(h, ps, resolve);
    var bs := BatchesOf(h, ps, resolve);
    LookUpBatches(before, bs, k);
    assert forall i :: 0 <= i < |bs| ==> bs[i] in bs;
    assert forall b :: b in bs ==> exists i :: 0 <= i < |ps| && b.owner == ps[i].role.id;
  }

  /** A key holds the same after either order. */
  lemma SameUnderKey(h: Hashing, ps: seq<Prepared>, qs: seq<Prepared>, resolve: Resolver, before: Store, k: MapKey)
    requires AllPrepared(h, ps) && AllPrepared(h, qs)
    requires DistinctRoleIds(RolesIn(ps)) && DistinctRoleIds(RolesIn(qs))
    requires forall r :: r in RolesIn(ps) <==> r in RolesIn(qs)
    requires forall r :: r in RolesIn(ps) ==> RoleCollisionFree(h, r)
    ensures LookUp(WriteBatches(before, BatchesOf(h, ps, resolve)), k)
         == LookUp(WriteBatches(before, BatchesOf(h, qs, resolve)), k)
  {
    hide WellPrepared, WritesOf, WriteBatches, RoleCollisionFree, DistinctRoleIds, BatchesOf, LastWrite, LookUp;
    var a, b := RolesIn(ps), RolesIn(qs);
    PopulatedLookUp(h, ps, a, resolve, before, k);
    PopulatedLookUp(h, qs, b, resolve, before, k);
    if i :| 0 <= i < |a| && a[i].id == OwnerOf(k) {
      assert a[i] in b;
      var j :| 0 <= j < |b| && b[j] == a[i];
      SameLastWrite(h, ps[i], qs[j], resolve, k);
    } else {
      assert forall j :: 0 <= j < |b| ==> b[j] in a;
    }
  }

  /** The roles of a policy, with distinct ids, may be applied in any order: the maps come out the same. */
  lemma RolesInAnyOrder(h: Hashing, a: seq<Role>, b: seq<Role>, resolve: Resolver, before: Store, x: Store, y: Store)
    requires Populated(h, a, resolve, before, x) && Populated(h, b, resolve, before, y)
    requires forall r :: r in a <==> r in b
    requires DistinctRoleIds(a) && DistinctRoleIds(b)
    requires forall r :: r in a ==> RoleCollisionFree(h, r)
    ensures x == y
  {
    hide AllPrepared, WriteBatches, RoleCollisionFree, DistinctRoleIds, BatchesOf, LookUp, RolesIn;
    var ps :| AllPrepared(h, ps) && RolesIn(ps) == a && x == WriteBatches(before, BatchesOf(h, ps, resolve));
    var qs :| AllPrepared(h, qs) && RolesIn(qs) == b && y == WriteBatches(before, BatchesOf(h, qs, resolve));
    forall k ensures LookUp(x, k) == LookUp(y, k) {
      SameUnderKey(h, ps, qs, resolve, before, k);
    }
    SameStore(x, y);
  }

  /** What enrolling a process re-applies: flags, ports and path rows. */
  function EnrollmentWrites(role: Role, files: seq<Entry>): seq<Write>
  {
    FlagWrites(role) + NetWrites(role.id, role.networkRules) + RowWrites(false, files)
  }

  /** The enrollment route writes what application already wrote. */
  lemma EnrollmentRouteIsIdle(h: Hashing, p: Prepared, files: seq<Entry>, resolve: Resolver, store: Store)
    requires WellPrepared(h, p) && RoleCollisionFree(h, p.role)
    requires EncodedAs(h, p.role.id, p.role.filePaths, files)
    ensures WriteSeq(WriteSeq(store, WritesOf(h, p, resolve)), EnrollmentWrites(p.role, files))
         == WriteSeq(store, WritesOf(h, p, resolve))
  {
    hide WritesOf, RowWrites, NetWrites, IpWrites, DomainWrites, ProxyWrites, FlagWrites, LocalWrites, EncodedAs,
         CollisionFree, ExecPaths, LastWrite, WriteSeq;
    var route := EnrollmentWrites(p.role, files);
    forall k | LastWrite(route, k).Some?
      ensures LastWrite(route, k) == LastWrite(WritesOf(h, p, resolve), k)
    {
      EnrollmentLast(h, p, files, resolve, k);
    }
    RewriteIsIdle(store, WritesOf(h, p, resolve), route);
  }

  lemma EnrollmentLast(h: Hashing, p: Prepared, files: seq<Entry>, resolve: Resolver, k: MapKey)
    requires WellPrepared(h, p) && RoleCollisionFree(h, p.role)
    requires EncodedAs(h, p.role.id, p.role.filePaths, files)
    requires LastWrite(EnrollmentWrites(p.role, files), k).Some?
    ensures LastWrite(EnrollmentWrites(p.role, files), k) == LastWrite(WritesOf(h, p, resolve), k)
  {
    hide WritesOf, RowWrites, NetWrites, IpWrites, DomainWrites, ProxyWrites, FlagWrites, LocalWrites, EncodedAs,
         CollisionFree, ExecPaths, LastWrite, Within;
    var r := p.role;
    var a, b, c := FlagWrites(r), NetWrites(r.id, r.networkRules), RowWrites(false, files);
    LastWriteConcat(a + b, c, k);
    LastWriteConcat(a, b, k);
    SectionsWithin(h, p, resolve);
    RoleLast(h, p, resolve, k);
    LocalLast(r, p.files, p.execs, k);
    RowsTwice(h, false, r.id, r.filePaths, p.files, files, k);
    if KindOf(k) != Prox { OutsideLastWrite(ProxyWrites(r.id, r.proxy), r.id, {Prox}, k); }
    if KindOf(k) !in {Domain, Dns} {
      OutsideLastWrite(DomainWrites(h, r.id, r.domainRules, resolve), r.id, {Domain, Dns}, k);
    }
    if KindOf(k) != Ip { OutsideLastWrite(IpWrites(r.id, r.ipRules), r.id, {Ip}, k); }
    if KindOf(k) != Exec { OutsideLastWrite(RowWrites(true, p.execs), r.id, {Exec}, k); }
    if KindOf(k) != File { OutsideLastWrite(RowWrites(false, p.files), r.id, {File}, k); }
    if KindOf(k) != Net { OutsideLastWrite(b, r.id, {Net}, k); }
    if KindOf(k) != Flag { OutsideLastWrite(a, r.id, {Flag}, k); }
  }
}
