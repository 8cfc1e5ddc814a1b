/** The kernel's walk over the transition table, and why it means what the rule list says. */
module Walk {
  import opened Base
  import opened Rules
  import opened Table
  import opened Trie
  import opened RoleEncoder

  const MAX_COMPONENTS := 16

  const ALLOW := 1
  const NO_RULE := 0
  const DENY := -13

  type Rows = map<Key, Value>

  /** The per-CPU scratch buffer: component hashes, leaf first. */
  class PathBuffer {
    var hashes: array<bv64>
    var count: nat
    var truncated: bool

    ghost predicate Valid()
      reads this
    {
      hashes.Length == MAX_COMPONENTS && count <= MAX_COMPONENTS
    }

    ghost function Contents(): seq<bv64>
      requires Valid()
      reads this, hashes
    {
      hashes[..count]
    }

    constructor ()
      ensures Valid() && Contents() == [] && !truncated && fresh(hashes)
    {
      hashes := new bv64[MAX_COMPONENTS];
      count, truncated := 0, false;
    }
  }

  function Reverse<T>(s: seq<T>): (r: seq<T>)
    ensures |r| == |s|
    ensures forall i :: 0 <= i < |s| ==> r[i] == s[|s| - 1 - i]
  {
    if s == [] then [] else Reverse(s[1..]) + [s[0]]
  }

  function Code(decision: bool): int
  {
    if decision then ALLOW else DENY
  }

  function Out(verdict: Option<bool>): int
  {
    if verdict.Some? then Code(verdict.value) else NO_RULE
  }

  /** The exact slot if it is there, else the wildcard slot. */
  function Find(rows: Rows, role: nat, state: bv64, hash: bv64): Option<Value>
  {
    if Key(role, state, hash) in rows then Some(rows[Key(role, state, hash)])
    else if Key(role, state, 0) in rows then Some(rows[Key(role, state, 0)])
    else None
  }

  /** The walk as a function: `hashes` is the path from the root down. */
  function WalkFrom(rows: Rows, role: nat, state: bv64, hashes: seq<bv64>): int
    decreases |hashes|
  {
    if hashes == [] then
      var end := Key(role, state, 0);
      if end in rows && rows[end].terminal then Code(rows[end].decision) else NO_RULE
    else
      match Find(rows, role, state, hashes[0])
      case None => NO_RULE
      case Some(v) => if v.terminal then Code(v.decision) else WalkFrom(rows, role, v.next, hashes[1..])
  }

  /** What the walk answers for a collected buffer, leaf first. */
  function WalkOf(rows: Rows, role: nat, collected: seq<bv64>, truncated: bool): int
  {
    if collected == [] || truncated then NO_RULE else WalkFrom(rows, role, 0, Reverse(collected))
  }

  method CheckPathStateMachine(rows: Rows, role: nat, buf: PathBuffer) returns (verdict: int)
    requires buf.Valid()
    ensures verdict == WalkOf(rows, role, buf.Contents(), buf.truncated)
    ensures verdict in {1, 0, -13}
  {
    if buf.count == 0 {
      return NO_RULE;
    }
    if buf.truncated {
      return NO_RULE;
    }
    ghost var path := Reverse(buf.Contents());
    var state: bv64, count := 0, buf.count;
    assert path[0..] == path;
    for i := 0 to count
      invariant WalkFrom(rows, role, 0, path) == WalkFrom(rows, role, state, path[i..])
    {
      var hash := buf.hashes[count - 1 - i];
      assert path[i..][0] == hash && path[i..][1..] == path[i + 1..];
      var key := Key(role, state, hash);
      if key !in rows {
        key := Key(role, state, 0);
      }
      if key !in rows {
        return NO_RULE;
      }
      if rows[key].terminal {
        return if rows[key].decision then ALLOW else DENY;
      }
      state := rows[key].next;
    }
    assert path[count..] == [];
    var end := Key(role, state, 0);
    if end in rows && rows[end].terminal {
      return if rows[end].decision then ALLOW else DENY;
    }
    return NO_RULE;
  }

  // ---- the table in the kernel ----

  function WriteAll(rows: Rows, entries: seq<Entry>): Rows
  {
    if entries == [] then rows
    else
      var e := entries[|entries| - 1];
      WriteAll(rows, entries[..|entries| - 1])[e.key := e.value]
  }

  lemma WriteOne(rows: Rows, e: Entry)
    ensures WriteAll(rows, [e]) == rows[e.key := e.value]
  {
    assert [e][..0] == [];
  }

  ghost predicate DistinctKeys(entries: seq<Entry>)
  {
    forall i, j :: 0 <= i < j < |entries| ==> entries[i].key != entries[j].key
  }

  /** The rows of `role` are these entries and no others. */
  ghost predicate Installed(rows: Rows, role: nat, entries: seq<Entry>)
  {
    && (forall i :: 0 <= i < |entries| ==> entries[i].key in rows && rows[entries[i].key] == entries[i].value)
    && (forall k :: k in rows && k.role == role ==> exists i :: 0 <= i < |entries| && entries[i].key == k)
  }

  lemma {:induction false} WriteAllAt(rows: Rows, entries: seq<Entry>, k: Key)
    requires DistinctKeys(entries)
    ensures forall i :: 0 <= i < |entries| && entries[i].key == k ==>
              k in WriteAll(rows, entries) && WriteAll(rows, entries)[k] == entries[i].value
    ensures (forall i :: 0 <= i < |entries| ==> entries[i].key != k) ==>
              (k in WriteAll(rows, entries) <==> k in rows)
              && (k in rows ==> WriteAll(rows, entries)[k] == rows[k])
  {
    if entries != [] {
      WriteAllAt(rows, entries[..|entries| - 1], k);
    }
  }

  /** A row after writing in turn is one of the entries for its key, if there is any. */
  lemma {:induction false} WrittenByOne(rows: Rows, all: seq<Entry>, k: Key)
    ensures k in WriteAll(rows, all) <==> k in rows || exists i :: 0 <= i < |all| && all[i].key == k
    ensures (exists i :: 0 <= i < |all| && all[i].key == k) ==>
              exists i :: 0 <= i < |all| && all[i] == Entry(k, WriteAll(rows, all)[k])
  {
    if all != [] { WrittenByOne(rows, all[..|all| - 1], k); }
  }

  /** With distinct keys the order of writing does not matter. */
  lemma AnyWriteOrder(rows: Rows, a: seq<Entry>, b: seq<Entry>)
    requires DistinctKeys(a) && DistinctKeys(b)
    requires forall e :: e in a <==> e in b
    ensures WriteAll(rows, a) == WriteAll(rows, b)
  {
    var x, y := WriteAll(rows, a), WriteAll(rows, b);
    forall k ensures (k in x <==> k in y) && (k in x ==> x[k] == y[k]) {
      WriteAllAt(rows, a, k);
      WriteAllAt(rows, b, k);
      if i :| 0 <= i < |a| && a[i].key == k {
        assert a[i] in b;
      } else if j :| 0 <= j < |b| && b[j].key == k {
        assert b[j] in a;
      }
    }
    assert x.Keys == y.Keys;
  }

  lemma WrittenIsInstalled(rows: Rows, role: nat, entries: seq<Entry>)
    requires DistinctKeys(entries)
    requires forall k :: k in rows ==> k.role != role
    ensures Installed(WriteAll(rows, entries), role, entries)
  {
    forall i | 0 <= i < |entries|
      ensures entries[i].key in WriteAll(rows, entries) && WriteAll(rows, entries)[entries[i].key] == entries[i].value
    {
      WriteAllAt(rows, entries, entries[i].key);
    }
    forall k | k in WriteAll(rows, entries) && k.role == role
      ensures exists i :: 0 <= i < |entries| && entries[i].key == k
    {
      WriteAllAt(rows, entries, k);
    }
  }

  lemma {:induction false} WriteAllOtherRole(rows: Rows, entries: seq<Entry>, role: nat, k: Key)
    requires forall e :: e in entries ==> e.key.role == role
    requires k.role != role
    ensures k in WriteAll(rows, entries) <==> k in rows
    ensures k in rows ==> WriteAll(rows, entries)[k] == rows[k]
  {
    if entries != [] {
      assert entries[|entries| - 1] in entries;
      WriteAllOtherRole(rows, entries[..|entries| - 1], role, k);
    }
  }

  /** The walk of a role reads only that role's rows. */
  lemma {:induction false} SameRowsSameWalk(rows: Rows, rows': Rows, role: nat, state: bv64, hashes: seq<bv64>)
    requires forall k: Key :: k.role == role ==> (k in rows <==> k in rows') && (k in rows ==> rows[k] == rows'[k])
    ensures WalkFrom(rows, role, state, hashes) == WalkFrom(rows', role, state, hashes)
    decreases |hashes|
  {
    if hashes != [] && Find(rows, role, state, hashes[0]).Some? {
      SameRowsSameWalk(rows, rows', role, Find(rows, role, state, hashes[0]).value.next, hashes[1..]);
    }
  }

  // ---- the hash premise ----

  ghost predicate Mentioned(rs: seq<PathRule>, path: seq<Name>, c: Name)
  {
    c in path || (c != STAR && exists i :: 0 <= i < |rs| && c in rs[i].comps)
  }

  ghost predicate NamesApart(h: Hashing, rs: seq<PathRule>, path: seq<Name>)
  {
    && (forall a :: Mentioned(rs, path, a) ==> h.comp(a) != 0)
    && (forall a, b :: Mentioned(rs, path, a) && Mentioned(rs, path, b) && h.comp(a) == h.comp(b) ==> a == b)
  }

  ghost predicate StatesApart(h: Hashing, role: nat, rs: seq<PathRule>)
  {
    forall p, q :: Inner(rs, p) && Inner(rs, q) && StateAfter(h, role, p) == StateAfter(h, role, q) ==> p == q
  }

  /** No collisions among the names in play, nor among the prefixes some rule goes on from. */
  ghost predicate CollisionFree(h: Hashing, role: nat, rs: seq<PathRule>, path: seq<Name>)
  {
    NamesApart(h, rs, path) && StatesApart(h, role, rs)
  }

  lemma SlotInPlay(rs: seq<PathRule>, path: seq<Name>, s: Slot)
    requires Expected(rs, s).Some?
    ensures Inner(rs, s.prefix)
    ensures s.edge == STAR || Mentioned(rs, path, s.edge)
  {
    DerivAlive(After(rs, s.prefix), s.edge);
    if s.edge != STAR {
      var q := s.prefix + [s.edge];
      AfterStep(rs, s.prefix, s.edge);
      AfterAlive(rs, q);
      var i :| 0 <= i < |rs| && q <= rs[i].comps;
      assert rs[i].comps[|s.prefix|] == q[|s.prefix|] == s.edge;
    }
  }

  lemma SameKeySameSlot(h: Hashing, role: nat, rs: seq<PathRule>, path: seq<Name>, s: Slot, t: Slot)
    requires CollisionFree(h, role, rs, path)
    requires Expected(rs, s).Some? && Expected(rs, t).Some?
    requires StateAfter(h, role, s.prefix) == StateAfter(h, role, t.prefix)
    requires EdgeHash(h, s.edge) == EdgeHash(h, t.edge)
    ensures s == t
  {
    SlotInPlay(rs, path, s);
    SlotInPlay(rs, path, t);
  }

  /** No entry of an accepted role overwrites another. */
  lemma NoOverwriting(h: Hashing, role: nat, rs: seq<PathRule>, entries: seq<Entry>, slots: seq<Slot>)
    requires IsTable(h, role, rs, entries, slots)
    requires CollisionFree(h, role, rs, [])
    ensures DistinctKeys(entries)
  {
    hide Expected;
    forall i, j | 0 <= i < j < |entries| ensures entries[i].key != entries[j].key {
      if entries[i].key == entries[j].key {
        SameKeySameSlot(h, role, rs, [], slots[i], slots[j]);
      }
    }
  }

  /** Looking a slot up by its digests finds exactly what the rule list wants there. */
  lemma LookupSlot(h: Hashing, role: nat, rs: seq<PathRule>, path: seq<Name>, entries: seq<Entry>,
                   slots: seq<Slot>, rows: Rows, s: Slot)
    requires IsTable(h, role, rs, entries, slots) && Installed(rows, role, entries)
    requires CollisionFree(h, role, rs, path)
    requires Inner(rs, s.prefix) && (s.edge == STAR || Mentioned(rs, path, s.edge))
    ensures var k := Key(role, StateAfter(h, role, s.prefix), EdgeHash(h, s.edge));
            && (k in rows <==> Expected(rs, s).Some?)
            && (k in rows ==> rows[k] == EntryAt(h, role, s, Expected(rs, s).value).value)
  {
    hide Expected, Inner;
    var k := Key(role, StateAfter(h, role, s.prefix), EdgeHash(h, s.edge));
    if Expected(rs, s).Some? {
      var i :| 0 <= i < |slots| && slots[i] == s;
      assert entries[i].key == k;
    }
    if k in rows {
      var i :| 0 <= i < |entries| && entries[i].key == k;
      SlotInPlay(rs, path, slots[i]);
      assert slots[i].prefix == s.prefix;
      assert slots[i].edge == s.edge;
    }
  }

  /** A file really called `*` has no exact slot: patterns keep their `*` in the wildcard slot. */
  lemma NoSlotForLiteralStar(h: Hashing, role: nat, rs: seq<PathRule>, path: seq<Name>, entries: seq<Entry>,
                             slots: seq<Slot>, rows: Rows, p: seq<Name>)
    requires IsTable(h, role, rs, entries, slots) && Installed(rows, role, entries)
    requires CollisionFree(h, role, rs, path)
    requires Inner(rs, p) && STAR in path
    ensures Key(role, StateAfter(h, role, p), h.comp(STAR)) !in rows
  {
    hide Expected, Inner;
    var k := Key(role, StateAfter(h, role, p), h.comp(STAR));
    assert Mentioned(rs, path, STAR);
    if k in rows {
      var i :| 0 <= i < |entries| && entries[i].key == k;
      SlotInPlay(rs, path, slots[i]);
      assert false;
    }
  }

  function Hashes(h: Hashing, path: seq<Name>): (hs: seq<bv64>)
    ensures |hs| == |path|
    ensures forall i :: 0 <= i < |path| ==> hs[i] == h.comp(path[i])
  {
    if path == [] then [] else [h.comp(path[0])] + Hashes(h, path[1..])
  }

  /** What was decided strictly above `p`. */
  function Above(rs: seq<PathRule>, p: seq<Name>): Option<bool>
  {
    if p == [] then None else Deepest(rs, p[..|p| - 1])
  }

  /** What the walk does with the row it found for an edge, against what the rules left after it say. */
  lemma RowMeaning(h: Hashing, role: nat, rs: seq<PathRule>, p: seq<Name>, edge: Name, rows: Rows, rest: seq<Name>)
    requires Deriv(After(rs, p), edge) != []
    requires var q := p + [edge];
             HasLive(After(rs, q)) ==>
               WalkFrom(rows, role, StateAfter(h, role, q), Hashes(h, rest))
               == Out(Meaning(After(rs, q), Above(rs, q), rest))
    ensures Expected(rs, Slot(p, edge)).Some?
    ensures var v := EntryAt(h, role, Slot(p, edge), Expected(rs, Slot(p, edge)).value).value;
            (if v.terminal then Code(v.decision) else WalkFrom(rows, role, v.next, Hashes(h, rest)))
            == Out(Meaning(Deriv(After(rs, p), edge), Deepest(rs, p), rest))
  {
    var below := Deriv(After(rs, p), edge);
    AfterStep(rs, p, edge);
    assert (p + [edge])[..|p|] == p;
    EndsSome(below);
    if !HasLive(below) {
      assert below[0].comps == [];
    }
  }

  /** The walk below a prefix means what the rules left after that prefix mean. */
  lemma {:induction false} WalkMeansRules(h: Hashing, role: nat, rs: seq<PathRule>, whole: seq<Name>,
                                          entries: seq<Entry>, slots: seq<Slot>, rows: Rows,
                                          p: seq<Name>, path: seq<Name>)
    requires IsTable(h, role, rs, entries, slots) && Installed(rows, role, entries)
    requires CollisionFree(h, role, rs, whole)
    requires forall c :: c in path ==> c in whole
    requires forall q :: !ConflictAt(rs, q)
    requires Inner(rs, p)
    ensures WalkFrom(rows, role, StateAfter(h, role, p), Hashes(h, path))
         == Out(Meaning(After(rs, p), Above(rs, p), path))
    decreases |path|
  {
    hide IsTable, Installed, CollisionFree, Deriv, Ends;
    var state, left := StateAfter(h, role, p), After(rs, p);
    assert !ConflictAt(rs, p);
    LookupSlot(h, role, rs, whole, entries, slots, rows, Slot(p, STAR));
    if path == [] {
      EndsSome(Deriv(left, STAR));
      if Deriv(left, STAR) != [] && !HasLive(Deriv(left, STAR)) {
        assert Deriv(left, STAR)[0].comps == [];
      }
    } else {
      var c, rest := path[0], path[1..];
      assert c in path;
      forall edge | Deriv(left, edge) != [] && HasLive(After(rs, p + [edge]))
        ensures WalkFrom(rows, role, StateAfter(h, role, p + [edge]), Hashes(h, rest))
             == Out(Meaning(After(rs, p + [edge]), Above(rs, p + [edge]), rest))
      {
        AfterStep(rs, p, edge);
        WalkMeansRules(h, role, rs, whole, entries, slots, rows, p + [edge], rest);
      }
      if c == STAR {
        NoSlotForLiteralStar(h, role, rs, whole, entries, slots, rows, p);
      } else {
        LookupSlot(h, role, rs, whole, entries, slots, rows, Slot(p, c));
      }
      if Deriv(left, c) != [] {
        RowMeaning(h, role, rs, p, c, rows, rest);
      } else if Deriv(left, STAR) != [] {
        RowMeaning(h, role, rs, p, STAR, rows, rest);
      }
    }
  }

  /**
   Compiler correctness: for every accepted rule list and every path, walking the
   emitted table answers what the rule list means.
   */
  lemma CompiledWalk(h: Hashing, role: nat, raw: seq<RawRule>, entries: seq<Entry>, slots: seq<Slot>, rows: Rows,
                     path: seq<Name>)
    requires IsTable(h, role, Effectual(raw), entries, slots) && !Clash(Effectual(raw))
    requires Installed(rows, role, entries)
    requires CollisionFree(h, role, Effectual(raw), path)
    requires path != []
    ensures WalkFrom(rows, role, 0, Hashes(h, path)) == Out(Verdict(Parsed(raw), path))
  {
    hide IsTable, Installed, CollisionFree, Clash, Effectual, ConflictAt;
    var rs := Effectual(raw);
    assert rs == Named(Parsed(raw)) by { EffectualIsNamed(raw); }
    ClashIffConflict(rs);
    if rs != [] {
      AnyIsLive(rs);
      WalkMeansRules(h, role, rs, path, entries, slots, rows, [], path);
    } else {
      EmptyTable(h, role, entries, slots, rows, Hashes(h, path));
    }
  }

  lemma EffectualIsNamed(raw: seq<RawRule>)
    ensures Effectual(raw) == Named(Parsed(raw))
  {
  }

  lemma AnyIsLive(rs: seq<PathRule>)
    requires rs != [] && forall r :: r in rs ==> r.comps != []
    ensures HasLive(rs)
  {
    assert rs[0] in rs;
  }

  /** No rules, no rows, no verdict. */
  lemma EmptyTable(h: Hashing, role: nat, entries: seq<Entry>, slots: seq<Slot>, rows: Rows, hashes: seq<bv64>)
    requires IsTable(h, role, [], entries, slots) && Installed(rows, role, entries)
    ensures WalkFrom(rows, role, 0, hashes) == NO_RULE
  {
    hide EntryAt;
    forall k | k in rows ensures k.role != role {
      if k.role == role {
        var i :| 0 <= i < |entries| && entries[i].key == k;
        AfterNil(slots[i].prefix);
      }
    }
  }
}
