/**
 The older encoder, one pattern at a time. Written in turn, patterns that share a
 prefix overwrite each other's rows; where none is a prefix of another it agrees
 with the role encoder.
 */
module SinglePattern {
  import opened Base
  import opened Patterns
  import opened Rules
  import opened Table
  import opened Trie
  import opened RoleEncoder
  import opened Walk

  /** The entry for component `i` of a pattern. */
  function EntryOf(h: Hashing, role: nat, comps: seq<Name>, allow: bool, i: nat): Entry
    requires i < |comps|
  {
    var last := i == |comps| - 1;
    Entry(Key(role, StateAfter(h, role, comps[..i]), EdgeHash(h, comps[i])),
          Value(if last then TerminalState(allow) else StateAfter(h, role, comps[..i + 1]), last, allow,
                comps[i] == STAR))
  }

  predicate EndsWithSlash(pattern: Name)
  {
    pattern != [] && pattern[|pattern| - 1] == SLASH
  }

  /** The extra row a trailing slash adds, keyed on the sentinel the last row leads to. */
  function Beyond(role: nat, allow: bool): Entry
  {
    Entry(Key(role, TerminalState(allow), 0), Value(TerminalState(allow), true, allow, true))
  }

  /** `entries` encodes the pattern: a row per component, and perhaps the extra one. */
  ghost predicate Encodes(h: Hashing, role: nat, r: RawRule, entries: seq<Entry>)
  {
    var comps := PatternComponents(r.pattern);
    var extra := comps != [] && EndsWithSlash(r.pattern);
    && |entries| == |comps| + (if extra then 1 else 0)
    && (forall i :: 0 <= i < |comps| ==> entries[i] == EntryOf(h, role, comps, r.allow, i))
    && (extra ==> entries[|comps|] == Beyond(role, r.allow))
  }

  method PathStateEntries(h: Hashing, role: nat, r: RawRule) returns (out: seq<Entry>)
    ensures Encodes(h, role, r, out)
  {
    hide PatternComponents;
    var comps := PatternComponents(r.pattern);
    out := [];
    var state: bv64 := 0;
    for i := 0 to |comps|
      invariant |out| == i
      invariant state == if i == |comps| && i > 0 then TerminalState(r.allow) else StateAfter(h, role, comps[..i])
      invariant forall j :: 0 <= j < i ==> out[j] == EntryOf(h, role, comps, r.allow, j)
    {
      var isLast := i == |comps| - 1;
      var hash := if comps[i] == STAR then 0 else h.comp(comps[i]);
      var next := if isLast then TerminalState(r.allow) else h.state(role, comps[..i + 1]);
      out := out + [Entry(Key(role, state, hash), Value(next, isLast, r.allow, comps[i] == STAR))];
      state := next;
    }
    if EndsWithSlash(r.pattern) && out != [] {
      out := out + [Entry(Key(role, state, 0), Value(TerminalState(r.allow), true, r.allow, true))];
    }
  }

  // ---- agreement with the role encoder ----

  /** No rule's components are a prefix of another's. */
  predicate Antichain(rs: seq<PathRule>)
  {
    forall i, j :: 0 <= i < |rs| && 0 <= j < |rs| && i != j ==> !IsPrefix(rs[i].comps, rs[j].comps)
  }

  /** Equal as far as the walk looks: the decision is read only from a terminal row. */
  predicate Alike(v: Value, w: Value)
  {
    v.next == w.next && v.terminal == w.terminal && (v.terminal ==> v.decision == w.decision)
  }

  lemma AntichainNeverClashes(rs: seq<PathRule>)
    requires Antichain(rs)
    ensures !Clash(rs)
  {
    forall i, j | 0 <= i < |rs| && 0 <= j < |rs| ensures !Overlap(rs[i].comps, rs[j].comps) {
      assert i != j ==> !IsPrefix(rs[i].comps, rs[j].comps);
    }
  }

  /** In an antichain nothing is inherited: a prefix some rule runs on from has no decision above it. */
  lemma NothingInherited(rs: seq<PathRule>, p: seq<Name>)
    requires Antichain(rs) && HasLive(After(rs, p))
    ensures Deepest(rs, p).None?
  {
    DeepestSome(rs, p);
    var k :| 0 <= k < |After(rs, p)| && After(rs, p)[k].comps != [];
    AfterMember(rs, p, After(rs, p)[k]);
    var j :| 0 <= j < |rs| && After(rs, p)[k] in Tail(rs[j], p);
    assert forall i :: 0 <= i < |rs| && i != j ==> !IsPrefix(rs[i].comps, rs[j].comps);
    assert |p| < |rs[j].comps| && p == rs[j].comps[..|p|];
  }

  /** What the table wants at each step along rule `m` is what the pattern's own row holds. */
  lemma OwnRowExpected(h: Hashing, role: nat, rs: seq<PathRule>, m: nat, i: nat)
    requires Antichain(rs) && m < |rs| && i < |rs[m].comps|
    ensures var s := Slot(rs[m].comps[..i], rs[m].comps[i]);
            && Expected(rs, s).Some?
            && EntryOf(h, role, rs[m].comps, rs[m].allow, i).key == EntryAt(h, role, s, Expected(rs, s).value).key
            && Alike(EntryOf(h, role, rs[m].comps, rs[m].allow, i).value,
                     EntryAt(h, role, s, Expected(rs, s).value).value)
  {
    hide Ends;
    var comps := rs[m].comps;
    var p, c, q := comps[..i], comps[i], comps[..i + 1];
    assert q == p + [c];
    AfterStep(rs, p, c);
    AfterAlive(rs, q);
    if i == |comps| - 1 {
      assert q == comps;
      LeafOfRule(rs, m);
    } else {
      var t := PathRule(comps[|q|..], rs[m].allow);
      assert t in Tail(rs[m], q);
      AfterMember(rs, q, t);
    }
  }

  /** Where a rule of an antichain ends, it is alone. */
  lemma LeafOfRule(rs: seq<PathRule>, m: nat)
    requires Antichain(rs) && m < |rs|
    ensures !HasLive(After(rs, rs[m].comps)) && Ends(After(rs, rs[m].comps)) == Some(rs[m].allow)
  {
    var p := rs[m].comps;
    forall k | 0 <= k < |After(rs, p)| ensures After(rs, p)[k] == PathRule([], rs[m].allow) {
      AfterMember(rs, p, After(rs, p)[k]);
      var j :| 0 <= j < |rs| && After(rs, p)[k] in Tail(rs[j], p);
      assert IsPrefix(rs[m].comps, rs[j].comps);
      assert j == m;
      assert p[|p|..] == [];
    }
    AfterAlive(rs, p);
  }

  /** Every entry of every pattern's own table, and nothing else. */
  ghost predicate IsUnion(h: Hashing, role: nat, raw: seq<RawRule>, all: seq<Entry>)
  {
    && (forall e :: e in all ==> exists m :: 0 <= m < |raw| && InOwnTable(h, role, raw[m], e))
    && (forall m, e :: 0 <= m < |raw| && InOwnTable(h, role, raw[m], e) ==> e in all)
  }

  ghost predicate InOwnTable(h: Hashing, role: nat, r: RawRule, e: Entry)
  {
    var comps := PatternComponents(r.pattern);
    || (exists i :: 0 <= i < |comps| && e == EntryOf(h, role, comps, r.allow, i))
    || (comps != [] && EndsWithSlash(r.pattern) && e == Beyond(role, r.allow))
  }

  /** The patterns' tables, one after the other. */
  method EncodeOneByOne(h: Hashing, role: nat, raw: seq<RawRule>) returns (all: seq<Entry>)
    ensures IsUnion(h, role, raw, all)
  {
    hide PatternComponents, EntryOf, EndsWithSlash;
    all := [];
    for k := 0 to |raw|
      invariant IsUnion(h, role, raw[..k], all)
    {
      var own := PathStateEntries(h, role, raw[k]);
      UnionSnoc(h, role, raw, k, all, own);
      all := all + own;
    }
    assert raw[..|raw|] == raw;
  }

  lemma UnionSnoc(h: Hashing, role: nat, raw: seq<RawRule>, k: nat, all: seq<Entry>, own: seq<Entry>)
    requires k < |raw| && IsUnion(h, role, raw[..k], all) && Encodes(h, role, raw[k], own)
    ensures IsUnion(h, role, raw[..k + 1], all + own)
  {
    hide PatternComponents, EntryOf, EndsWithSlash;
    forall e ensures e in own <==> InOwnTable(h, role, raw[k], e) {
      if e in own {
        var i :| 0 <= i < |own| && own[i] == e;
      }
    }
    var before, now := raw[..k], raw[..k + 1];
    assert forall m :: 0 <= m < k ==> before[m] == now[m];
    forall e | e in all + own ensures exists m :: 0 <= m < |now| && InOwnTable(h, role, now[m], e) {
      if e in all {
        var m :| 0 <= m < k && InOwnTable(h, role, before[m], e);
        assert InOwnTable(h, role, now[m], e);
      } else {
        assert InOwnTable(h, role, now[k], e);
      }
    }
    forall m, e | 0 <= m < |now| && InOwnTable(h, role, now[m], e) ensures e in all + own {
      if m < k { assert InOwnTable(h, role, before[m], e); }
    }
  }

  /** No state is one of the two sentinels. */
  ghost predicate SentinelFree(h: Hashing, role: nat, rs: seq<PathRule>)
  {
    forall p :: Inner(rs, p) ==> StateAfter(h, role, p) != ACCEPT && StateAfter(h, role, p) != REJECT
  }

  lemma EffectualMember(raw: seq<RawRule>, r: PathRule)
    ensures r in Effectual(raw) <==> exists m :: 0 <= m < |raw| && Parse(raw[m]) == r && r.comps != []
  {
    var rules := Parsed(raw);
    if r in rules {
      var m :| 0 <= m < |rules| && rules[m] == r;
      assert Parse(raw[m]) == r;
    }
    if m :| 0 <= m < |raw| && Parse(raw[m]) == r && r.comps != [] {
      assert rules[m] == r;
    }
  }

  /** The two tables hold alike rows at every state a walk can be in. */
  lemma SameRowsAtStates(h: Hashing, role: nat, raw: seq<RawRule>, entries: seq<Entry>, slots: seq<Slot>, rows: Rows,
                         all: seq<Entry>, bare: Rows, p: seq<Name>, k: Key)
    requires var rs := Effectual(raw); Antichain(rs) && SentinelFree(h, role, rs) && Inner(rs, p)
    requires IsTable(h, role, Effectual(raw), entries, slots) && Installed(rows, role, entries)
    requires CollisionFree(h, role, Effectual(raw), [])
    requires IsUnion(h, role, raw, all) && forall x :: x in bare ==> x.role != role
    requires k.role == role && k.state == StateAfter(h, role, p)
    ensures k in rows <==> k in WriteAll(bare, all)
    ensures k in rows ==> Alike(WriteAll(bare, all)[k], rows[k])
  {
    hide PatternComponents, EntryOf, EntryAt, Expected, CollisionFree, Effectual, StateAfter;
    WrittenByOne(bare, all, k);
    if k in WriteAll(bare, all) {
      var i :| 0 <= i < |all| && all[i] == Entry(k, WriteAll(bare, all)[k]);
      var s := OwnEntryIsWanted(h, role, raw, all, all[i], p);
      var j :| 0 <= j < |slots| && slots[j] == s;
      assert entries[j].key == k;
    }
    if k in rows {
      var j :| 0 <= j < |entries| && entries[j].key == k;
      var e := WantedEntryIsOwn(h, role, raw, all, slots[j]);
      assert e.key == k;
    }
  }

  lemma OwnEntryIsWanted(h: Hashing, role: nat, raw: seq<RawRule>, all: seq<Entry>, e: Entry, p: seq<Name>)
    returns (s: Slot)
    requires var rs := Effectual(raw); Antichain(rs) && SentinelFree(h, role, rs) && Inner(rs, p)
    requires IsUnion(h, role, raw, all) && e in all && e.key.state == StateAfter(h, role, p)
    ensures Expected(Effectual(raw), s).Some?
    ensures EntryAt(h, role, s, Expected(Effectual(raw), s).value).key == e.key
    ensures Alike(e.value, EntryAt(h, role, s, Expected(Effectual(raw), s).value).value)
  {
    hide PatternComponents, EntryOf, EntryAt, Expected, Effectual, StateAfter, Antichain;
    var rs := Effectual(raw);
    var m :| 0 <= m < |raw| && InOwnTable(h, role, raw[m], e);
    var r := Parse(raw[m]);
    var i :| 0 <= i < |r.comps| && e == EntryOf(h, role, r.comps, r.allow, i);
    EffectualMember(raw, r);
    var n :| 0 <= n < |rs| && rs[n] == r;
    s := Slot(r.comps[..i], r.comps[i]);
    OwnRowExpected(h, role, rs, n, i);
  }

  lemma WantedEntryIsOwn(h: Hashing, role: nat, raw: seq<RawRule>, all: seq<Entry>, s: Slot) returns (e: Entry)
    requires Antichain(Effectual(raw)) && IsUnion(h, role, raw, all)
    requires Expected(Effectual(raw), s).Some?
    ensures e in all && e.key == EntryAt(h, role, s, Expected(Effectual(raw), s).value).key
  {
    hide PatternComponents, EntryOf, EntryAt, Effectual, StateAfter, Antichain;
    var rs := Effectual(raw);
    if HasLive(After(rs, s.prefix)) {
      NothingInherited(rs, s.prefix);
    }
    var q := s.prefix + [s.edge];
    AfterStep(rs, s.prefix, s.edge);
    AfterAlive(rs, q);
    var n :| 0 <= n < |rs| && q <= rs[n].comps;
    var r, i := rs[n], |s.prefix|;
    assert r in rs && r.comps[..i] == s.prefix && r.comps[i] == s.edge;
    EffectualMember(raw, r);
    var m :| 0 <= m < |raw| && Parse(raw[m]) == r;
    OwnRowExpected(h, role, rs, n, i);
    e := EntryOf(h, role, r.comps, r.allow, i);
    assert InOwnTable(h, role, raw[m], e);
  }

  /** A row that is not terminal leads to the state of a prefix some rule goes on from. */
  lemma RowLeadsToState(h: Hashing, role: nat, rs: seq<PathRule>, entries: seq<Entry>, slots: seq<Slot>, rows: Rows,
                        k: Key)
    returns (q: seq<Name>)
    requires IsTable(h, role, rs, entries, slots) && Installed(rows, role, entries)
    requires k in rows && k.role == role && !rows[k].terminal
    ensures Inner(rs, q) && rows[k].next == StateAfter(h, role, q)
  {
    hide StateAfter, Deepest, Ends;
    var j :| 0 <= j < |entries| && entries[j].key == k;
    var s := slots[j];
    q := s.prefix + [s.edge];
    AfterStep(rs, s.prefix, s.edge);
  }

  lemma {:induction false} SameWalk(h: Hashing, role: nat, raw: seq<RawRule>, entries: seq<Entry>, slots: seq<Slot>,
                                    rows: Rows, all: seq<Entry>, bare: Rows, p: seq<Name>, hashes: seq<bv64>)
    requires var rs := Effectual(raw); Antichain(rs) && SentinelFree(h, role, rs) && Inner(rs, p)
    requires IsTable(h, role, Effectual(raw), entries, slots) && Installed(rows, role, entries)
    requires CollisionFree(h, role, Effectual(raw), [])
    requires IsUnion(h, role, raw, all) && forall x :: x in bare ==> x.role != role
    ensures WalkFrom(WriteAll(bare, all), role, StateAfter(h, role, p), hashes)
         == WalkFrom(rows, role, StateAfter(h, role, p), hashes)
    decreases |hashes|
  {
    hide Effectual, Antichain, SentinelFree, IsTable, Installed, CollisionFree, IsUnion, Inner, StateAfter, WriteAll;
    var state := StateAfter(h, role, p);
    SameRowsAtStates(h, role, raw, entries, slots, rows, all, bare, p, Key(role, state, 0));
    if hashes != [] {
      SameRowsAtStates(h, role, raw, entries, slots, rows, all, bare, p, Key(role, state, hashes[0]));
      var k := if Key(role, state, hashes[0]) in rows then Key(role, state, hashes[0]) else Key(role, state, 0);
      if k in rows && !rows[k].terminal {
        var q := RowLeadsToState(h, role, Effectual(raw), entries, slots, rows, k);
        SameWalk(h, role, raw, entries, slots, rows, all, bare, q, hashes[1..]);
      }
    }
  }

  /** No pattern that names anything, no rows from either encoder. */
  lemma NothingToEncode(h: Hashing, role: nat, raw: seq<RawRule>, all: seq<Entry>, bare: Rows, hashes: seq<bv64>)
    requires Effectual(raw) == []
    requires IsUnion(h, role, raw, all) && forall x :: x in bare ==> x.role != role
    ensures WalkFrom(WriteAll(bare, all), role, 0, hashes) == NO_RULE
  {
    hide PatternComponents, EntryOf, Effectual;
    if all != [] {
      assert all[0] in all;
      var m :| 0 <= m < |raw| && InOwnTable(h, role, raw[m], all[0]);
      EffectualMember(raw, Parse(raw[m]));
    }
  }

  /**
   For every list in which no pattern's components are a prefix of another's, the
   role encoder accepts, and the patterns encoded one by one give every path the
   verdict its table gives.
   */
  lemma EncodersAgree(h: Hashing, role: nat, raw: seq<RawRule>, entries: seq<Entry>, slots: seq<Slot>, rows: Rows,
                      all: seq<Entry>, bare: Rows, hashes: seq<bv64>)
    requires Antichain(Effectual(raw)) && SentinelFree(h, role, Effectual(raw))
    requires IsTable(h, role, Effectual(raw), entries, slots) && Installed(rows, role, entries)
    requires CollisionFree(h, role, Effectual(raw), [])
    requires IsUnion(h, role, raw, all) && forall x :: x in bare ==> x.role != role
    ensures !Clash(Effectual(raw))
    ensures WalkFrom(WriteAll(bare, all), role, 0, hashes) == WalkFrom(rows, role, 0, hashes)
  {
    hide Effectual, Antichain, SentinelFree, IsTable, Installed, CollisionFree, IsUnion;
    AntichainNeverClashes(Effectual(raw));
    if Effectual(raw) != [] {
      AnyIsLive(Effectual(raw));
      SameWalk(h, role, raw, entries, slots, rows, all, bare, [], hashes);
    } else {
      EmptyTable(h, role, entries, slots, rows, hashes);
      NothingToEncode(h, role, raw, all, bare, hashes);
    }
  }
}
