/**
 The role encoder's second half: visit the trie from a stack, hand each child the
 decision in force above it, and emit one table entry per slot, or name the overlaps.
 */
module RoleEncoder {
  import opened Base
  import opened Patterns
  import opened Rules
  import opened Table
  import opened Trie

  /** A decision carried down the trie, with the pattern that made it. */
  datatype Source = Source(allow: bool, pattern: Name)

  datatype Pending = Pending(index: nat, inherited: Option<Source>)

  function Carried(s: Option<Source>): Option<bool>
  {
    if s.Some? then Some(s.value.allow) else None
  }

  /** `s` is the nearest decision at or above `p`, and names a listed pattern that made it. */
  ghost predicate Nearest(s: Option<Source>, rs: seq<PathRule>, raw: seq<RawRule>, p: seq<Name>)
  {
    && Carried(s) == Deepest(rs, p)
    && (s.Some? ==> Listed(raw, s.value.pattern) && PatternComponents(s.value.pattern) != []
                    && IsPrefix(PatternComponents(s.value.pattern), p))
  }

  /** Both patterns are listed, and they really do overlap. */
  ghost predicate Genuine(raw: seq<RawRule>, c: Conflict)
  {
    && Listed(raw, c.broader) && Listed(raw, c.starred)
    && Overlap(PatternComponents(c.broader), PatternComponents(c.starred))
  }

  /** The conflict is about this node: one pattern decides at or above it, the other goes on with a `*`. */
  ghost predicate About(c: Conflict, p: seq<Name>)
  {
    IsPrefix(PatternComponents(c.broader), p) && IsPrefix(Ext(p, STAR), PatternComponents(c.starred))
  }

  /** Some reported conflict is about this node. */
  ghost predicate Reports(conflicts: set<Conflict>, p: seq<Name>)
  {
    exists c :: c in conflicts && About(c, p)
  }

  // ---- one node ----

  lemma ChildIffDeriv(nodes: seq<Node>, at: map<seq<Name>, nat>, rs: seq<PathRule>, raw: seq<RawRule>, i: nat, c: Name)
    requires IsTrie(nodes, at, rs, raw) && i < |nodes|
    ensures c in nodes[i].children <==> Deriv(After(rs, nodes[i].comps), c) != []
    ensures c in nodes[i].children ==>
              nodes[i].children[c] < |nodes| && nodes[nodes[i].children[c]].comps == Ext(nodes[i].comps, c)
  {
    var p := nodes[i].comps;
    assert LinkAt(nodes[i], at, c);
    AfterStep(rs, p, c);
    assert Ext(p, c) in at <==> Alive(rs, Ext(p, c));
  }

  lemma ChildrenIffLive(nodes: seq<Node>, at: map<seq<Name>, nat>, rs: seq<PathRule>, raw: seq<RawRule>, i: nat)
    requires IsTrie(nodes, at, rs, raw) && i < |nodes|
    ensures nodes[i].children != map[] <==> HasLive(After(rs, nodes[i].comps))
  {
    LiveIffDeriv(After(rs, nodes[i].comps));
    forall c ensures c in nodes[i].children <==> Deriv(After(rs, nodes[i].comps), c) != [] {
      ChildIffDeriv(nodes, at, rs, raw, i, c);
    }
    if nodes[i].children != map[] {
      var c :| c in nodes[i].children;
      assert Deriv(After(rs, nodes[i].comps), c) != [];
    }
    if HasLive(After(rs, nodes[i].comps)) {
      var c :| Deriv(After(rs, nodes[i].comps), c) != [];
      assert c in nodes[i].children;
    }
  }

  /** A node below the root that has no child has a decision, so the encoder's fallback is never taken. */
  lemma LeafIsDecided(nodes: seq<Node>, at: map<seq<Name>, nat>, rs: seq<PathRule>, raw: seq<RawRule>, i: nat)
    requires IsTrie(nodes, at, rs, raw) && i < |nodes| && nodes[i].comps != []
    ensures nodes[i].children == map[] ==> nodes[i].decision.Some?
  {
    var left := After(rs, nodes[i].comps);
    ChildrenIffLive(nodes, at, rs, raw, i);
    EndsSome(left);
    if nodes[i].children == map[] {
      assert left[0].comps == [];
    }
  }

  /**
   Every row of a table: a terminal one leads to the accepting or the rejecting sentinel as it decides, one
   that is not decides nothing, and one of the wildcard slot is keyed on 0.
   */
  lemma RowsAreRegular(h: Hashing, role: nat, rs: seq<PathRule>, entries: seq<Entry>, slots: seq<Slot>, e: Entry)
    requires IsTable(h, role, rs, entries, slots) && e in entries
    ensures e.key.role == role
    ensures e.value.terminal ==>
              e.value.next == if e.value.decision then 0xFFFF_FFFF_FFFF_FFFE else 0xFFFF_FFFF_FFFF_FFFF
    ensures !e.value.terminal ==> !e.value.decision
    ensures e.value.wildcard ==> e.key.hash == 0
  {
    hide Expected;
    var i :| 0 <= i < |entries| && entries[i] == e;
  }

  function ChildEntry(h: Hashing, role: nat, parent: Node, edge: Name, child: Node): Entry
  {
    Entry(Key(role, StateAfter(h, role, parent.comps), EdgeHash(h, edge)),
          if child.children != map[] then
            Value(StateAfter(h, role, child.comps), false, false, edge == STAR)
          else
            var decision := child.decision == Some(true);
            Value(TerminalState(decision), true, decision, edge == STAR))
  }

  lemma ChildEntryExpected(h: Hashing, role: nat, nodes: seq<Node>, at: map<seq<Name>, nat>, rs: seq<PathRule>,
                           raw: seq<RawRule>, i: nat, c: Name)
    requires IsTrie(nodes, at, rs, raw) && i < |nodes| && c in nodes[i].children
    ensures nodes[i].children[c] < |nodes|
    ensures var s := Slot(nodes[i].comps, c);
            Expected(rs, s).Some?
            && ChildEntry(h, role, nodes[i], c, nodes[nodes[i].children[c]])
               == EntryAt(h, role, s, Expected(rs, s).value)
  {
    ChildIffDeriv(nodes, at, rs, raw, i, c);
    ChildrenIffLive(nodes, at, rs, raw, nodes[i].children[c]);
    AfterStep(rs, nodes[i].comps, c);
  }

  ghost predicate IsChild(n: Node, pending: Pending, effective: Option<Source>, waiting: set<Name>)
  {
    exists c :: c in n.children && c !in waiting && pending == Pending(n.children[c], effective)
  }

  /** What a node puts on the stack: each child once, under the decision in force here. */
  ghost predicate Pushes(n: Node, pushed: seq<Pending>, effective: Option<Source>)
  {
    && (forall k :: 0 <= k < |pushed| ==> IsChild(n, pushed[k], effective, {}))
    && (forall c :: c in n.children ==> Pending(n.children[c], effective) in pushed)
    && (forall a, b :: 0 <= a < b < |pushed| ==> pushed[a].index != pushed[b].index)
  }

  /** `slots` and `entries` are what the table holds at prefix `p` for the edges in `done`. */
  ghost predicate Emitted(h: Hashing, role: nat, rs: seq<PathRule>, p: seq<Name>, entries: seq<Entry>,
                          slots: seq<Slot>, waiting: set<Name>)
  {
    && Faithful(h, role, rs, entries, slots) && Distinct(slots)
    && (forall s: Slot :: s in slots <==> s.prefix == p && s.edge !in waiting && Expected(rs, s).Some?)
  }

  lemma EmitOne(h: Hashing, role: nat, rs: seq<PathRule>, p: seq<Name>, entries: seq<Entry>, slots: seq<Slot>,
                waiting: set<Name>, c: Name)
    requires Emitted(h, role, rs, p, entries, slots, waiting) && c in waiting
    requires Expected(rs, Slot(p, c)).Some?
    ensures Emitted(h, role, rs, p, entries + [EntryAt(h, role, Slot(p, c), Expected(rs, Slot(p, c)).value)],
                    slots + [Slot(p, c)], waiting - {c})
  {
    assert Slot(p, c) !in slots;
    forall s: Slot ensures s in slots + [Slot(p, c)] <==>
                           s.prefix == p && s.edge !in waiting - {c} && Expected(rs, s).Some?
    {
    }
  }

  /** The wildcard entry a node needs when it has children and a decision in force. */
  lemma InheritedExpected(h: Hashing, role: nat, nodes: seq<Node>, at: map<seq<Name>, nat>, rs: seq<PathRule>,
                          raw: seq<RawRule>, i: nat, effective: Option<Source>)
    requires IsTrie(nodes, at, rs, raw) && i < |nodes|
    requires Nearest(effective, rs, raw, nodes[i].comps)
    ensures var s := Slot(nodes[i].comps, STAR);
            var inherits := nodes[i].children != map[] && effective.Some? && STAR !in nodes[i].children;
            && (inherits ==> Expected(rs, s) == Some(Final(effective.value.allow)))
            && (forall c :: Expected(rs, Slot(nodes[i].comps, c)).Some? <==>
                  c in nodes[i].children || (inherits && c == STAR))
  {
    ChildrenIffLive(nodes, at, rs, raw, i);
    forall c ensures c in nodes[i].children <==> Deriv(After(rs, nodes[i].comps), c) != [] {
      ChildIffDeriv(nodes, at, rs, raw, i, c);
    }
  }

  lemma OverlapThrough(a: seq<Name>, p: seq<Name>, b: seq<Name>)
    requires a != [] && IsPrefix(a, p) && IsPrefix(Ext(p, STAR), b)
    ensures Overlap(a, b)
  {
    var q := p + [STAR];
    assert b[|p|] == q[|p|] == STAR;
    assert a == p[..|a|] == q[..|a|] == b[..|a|];
  }

  lemma ConflictIsGenuine(nodes: seq<Node>, at: map<seq<Name>, nat>, rs: seq<PathRule>, raw: seq<RawRule>, i: nat,
                          effective: Option<Source>)
    requires IsTrie(nodes, at, rs, raw) && i < |nodes|
    requires Nearest(effective, rs, raw, nodes[i].comps)
    ensures ConflictAt(rs, nodes[i].comps) <==>
            nodes[i].children != map[] && effective.Some? && STAR in nodes[i].children
    ensures effective.Some? && STAR in nodes[i].children ==>
              nodes[i].children[STAR] < |nodes|
              && Genuine(raw, Conflict(effective.value.pattern, nodes[nodes[i].children[STAR]].createdBy))
              && About(Conflict(effective.value.pattern, nodes[nodes[i].children[STAR]].createdBy), nodes[i].comps)
  {
    ChildIffDeriv(nodes, at, rs, raw, i, STAR);
    if effective.Some? && STAR in nodes[i].children {
      var star := nodes[nodes[i].children[STAR]];
      assert Credited(star, raw);
      OverlapThrough(PatternComponents(effective.value.pattern), nodes[i].comps, PatternComponents(star.createdBy));
    }
  }

  lemma ChildrenInjective(nodes: seq<Node>, at: map<seq<Name>, nat>, i: nat)
    requires Shape(nodes, at) && i < |nodes|
    ensures forall c, d ::
              c in nodes[i].children && d in nodes[i].children && nodes[i].children[c] == nodes[i].children[d] ==>
                c == d
  {
    forall c, d | c in nodes[i].children && d in nodes[i].children && nodes[i].children[c] == nodes[i].children[d]
      ensures c == d
    {
      assert LinkAt(nodes[i], at, c) && LinkAt(nodes[i], at, d);
      ExtInjective(nodes[i].comps, c, nodes[i].comps, d);
    }
  }

  /** The wildcard entry that carries a decision past the children, or the conflict it runs into. */
  method EmitInherited(h: Hashing, role: nat, nodes: seq<Node>, i: nat, effective: Option<Source>,
                       ghost at: map<seq<Name>, nat>, ghost rs: seq<PathRule>, ghost raw: seq<RawRule>)
    returns (entries: seq<Entry>, conflicts: set<Conflict>, ghost slots: seq<Slot>)
    requires IsTrie(nodes, at, rs, raw) && i < |nodes|
    requires Nearest(effective, rs, raw, nodes[i].comps)
    ensures Emitted(h, role, rs, nodes[i].comps, entries, slots, nodes[i].children.Keys)
    ensures conflicts != {} <==> ConflictAt(rs, nodes[i].comps)
    ensures conflicts != {} ==> Reports(conflicts, nodes[i].comps)
    ensures forall c :: c in conflicts ==> Genuine(raw, c)
  {
    hide IsTrie, Nearest, Genuine, ConflictAt, Expected, About;
    entries, conflicts, slots := [], {}, [];
    var node := nodes[i];
    InheritedExpected(h, role, nodes, at, rs, raw, i, effective);
    ConflictIsGenuine(nodes, at, rs, raw, i, effective);
    if node.children != map[] && effective.Some? {
      if STAR in node.children {
        conflicts := {Conflict(effective.value.pattern, nodes[node.children[STAR]].createdBy)};
      } else {
        var d := effective.value.allow;
        entries := [Entry(Key(role, StateAfter(h, role, node.comps), 0), Value(TerminalState(d), true, d, true))];
        slots := [Slot(node.comps, STAR)];
      }
    }
  }

  /** Emit a node's own entries and stack its children, in whatever order the map yields them. */
  method Expand(h: Hashing, role: nat, nodes: seq<Node>, i: nat, effective: Option<Source>,
                ghost at: map<seq<Name>, nat>, ghost rs: seq<PathRule>, ghost raw: seq<RawRule>)
    returns (entries: seq<Entry>, pushed: seq<Pending>, conflicts: set<Conflict>, ghost slots: seq<Slot>)
    requires IsTrie(nodes, at, rs, raw) && i < |nodes|
    requires Nearest(effective, rs, raw, nodes[i].comps)
    ensures Emitted(h, role, rs, nodes[i].comps, entries, slots, {})
    ensures Pushes(nodes[i], pushed, effective)
    ensures conflicts != {} <==> ConflictAt(rs, nodes[i].comps)
    ensures conflicts != {} ==> Reports(conflicts, nodes[i].comps)
    ensures forall c :: c in conflicts ==> Genuine(raw, c)
  {
    hide Shape, Alive, Credited, Nearest, Genuine, ConflictAt, Expected, Emitted, Reports;
    ChildrenInjective(nodes, at, i);
    var node := nodes[i];
    entries, conflicts, slots := EmitInherited(h, role, nodes, i, effective, at, rs, raw);
    pushed := [];
    var rest := node.children.Keys;
    while rest != {}
      invariant rest <= node.children.Keys
      invariant Emitted(h, role, rs, node.comps, entries, slots, rest)
      invariant forall k :: 0 <= k < |pushed| ==> IsChild(node, pushed[k], effective, rest)
      invariant forall c :: c in node.children && c !in rest ==> Pending(node.children[c], effective) in pushed
      invariant forall a, b :: 0 <= a < b < |pushed| ==> pushed[a].index != pushed[b].index
    {
      var c :| c in rest;
      ChildEntryExpected(h, role, nodes, at, rs, raw, i, c);
      EmitOne(h, role, rs, node.comps, entries, slots, rest, c);
      var child := node.children[c];
      entries := entries + [ChildEntry(h, role, node, c, nodes[child])];
      slots := slots + [Slot(node.comps, c)];
      pushed := pushed + [Pending(child, effective)];
      rest := rest - {c};
    }
  }

  // ---- the depth-first loop ----

  predicate InStack(stack: seq<Pending>, j: nat)
  {
    exists k :: 0 <= k < |stack| && stack[k].index == j
  }

  /** Visited nodes and stacked nodes: no node twice, no visited node with a child left behind. */
  ghost predicate Frontier(nodes: seq<Node>, at: map<seq<Name>, nat>, stack: seq<Pending>, seen: set<nat>)
  {
    && (forall a, b :: 0 <= a < b < |stack| ==> stack[a].index != stack[b].index)
    && (forall k :: 0 <= k < |stack| ==> stack[k].index < |nodes| && stack[k].index !in seen)
    && (forall i :: i in seen ==> i < |nodes|)
    && (0 in seen || InStack(stack, 0))
    && (forall i, c :: i in seen && c in nodes[i].children ==> Reached(stack, seen, nodes[i].children[c]))
    && (forall p, c :: Ext(p, c) in at && p in at && Reached(stack, seen, at[Ext(p, c)]) ==> at[p] in seen)
  }

  predicate Reached(stack: seq<Pending>, seen: set<nat>, j: nat)
  {
    j in seen || InStack(stack, j)
  }

  /** Every stacked node carries the decision in force at its parent. */
  ghost predicate Carrying(nodes: seq<Node>, rs: seq<PathRule>, raw: seq<RawRule>, stack: seq<Pending>)
  {
    forall k :: 0 <= k < |stack| ==>
      stack[k].index < |nodes| && CarriedTo(nodes[stack[k].index].comps, rs, raw, stack[k].inherited)
  }

  ghost predicate CarriedTo(p: seq<Name>, rs: seq<PathRule>, raw: seq<RawRule>, inherited: Option<Source>)
  {
    if p == [] then inherited == None else Nearest(inherited, rs, raw, p[..|p| - 1])
  }

  lemma PushedChild(n: Node, pushed: seq<Pending>, effective: Option<Source>, k: nat) returns (c: Name)
    requires Pushes(n, pushed, effective) && k < |pushed|
    ensures c in n.children && pushed[k] == Pending(n.children[c], effective)
  {
    assert IsChild(n, pushed[k], effective, {});
    c :| c in n.children && pushed[k] == Pending(n.children[c], effective);
  }

  lemma InStackConcat(a: seq<Pending>, b: seq<Pending>, j: nat)
    ensures InStack(a + b, j) <==> InStack(a, j) || InStack(b, j)
  {
    if InStack(a, j) {
      var k :| 0 <= k < |a| && a[k].index == j;
      assert (a + b)[k].index == j;
    }
    if InStack(b, j) {
      var k :| 0 <= k < |b| && b[k].index == j;
      assert (a + b)[|a| + k].index == j;
    }
  }

  lemma FrontierStep(nodes: seq<Node>, at: map<seq<Name>, nat>, below: seq<Pending>, top: Pending, seen: set<nat>,
                     pushed: seq<Pending>, effective: Option<Source>)
    requires Shape(nodes, at)
    requires Frontier(nodes, at, below + [top], seen)
    requires top.index < |nodes| && Pushes(nodes[top.index], pushed, effective)
    ensures Frontier(nodes, at, below + pushed, seen + {top.index})
  {
    var i := top.index;
    var n, stack, stack', seen' := nodes[i], below + [top], below + pushed, seen + {i};
    assert stack[|below|] == top;
    forall j ensures InStack(stack, j) <==> InStack(below, j) || j == i {
      InStackConcat(below, [top], j);
      assert [top][0].index == i;
    }
    forall j ensures InStack(stack', j) <==> InStack(below, j) || InStack(pushed, j) {
      InStackConcat(below, pushed, j);
    }
    forall j: nat | InStack(pushed, j)
      ensures j < |nodes| && !Reached(stack, seen, j)
    {
      var k :| 0 <= k < |pushed| && pushed[k].index == j;
      var c := PushedChild(n, pushed, effective, k);
      assert LinkAt(n, at, c);
      assert Ext(n.comps, c) in at && at[n.comps] == i;
    }
    assert forall k :: 0 <= k < |below| ==> stack[k] == below[k];
    forall a, b | 0 <= a < b < |stack'| ensures stack'[a].index != stack'[b].index {
      if a < |below| <= b {
        assert InStack(pushed, stack'[b].index) by { assert pushed[b - |below|] == stack'[b]; }
        assert InStack(below, stack'[a].index) by { assert below[a] == stack'[a]; }
      }
    }
    forall j, c | j in seen' && c in nodes[j].children ensures Reached(stack', seen', nodes[j].children[c]) {
      if j == i {
        var k :| 0 <= k < |pushed| && pushed[k] == Pending(n.children[c], effective);
        assert InStack(pushed, n.children[c]);
      } else {
        assert Reached(stack, seen, nodes[j].children[c]);
      }
    }
    forall p, c | Ext(p, c) in at && p in at && Reached(stack', seen', at[Ext(p, c)]) ensures at[p] in seen' {
      if !Reached(stack, seen, at[Ext(p, c)]) {
        var k :| 0 <= k < |pushed| && pushed[k].index == at[Ext(p, c)];
        var d := PushedChild(n, pushed, effective, k);
        assert LinkAt(n, at, d);
        ExtInjective(p, c, n.comps, d);
      }
    }
    forall k | 0 <= k < |stack'| ensures stack'[k].index < |nodes| && stack'[k].index !in seen' {
      if k < |below| {
        assert stack[k] == stack'[k] && stack[|below|].index == i;
      } else {
        assert InStack(pushed, stack'[k].index) by { assert pushed[k - |below|] == stack'[k]; }
      }
    }
  }

  /** What the nodes seen so far have emitted. */
  ghost predicate Collected(h: Hashing, role: nat, rs: seq<PathRule>, at: map<seq<Name>, nat>, seen: set<nat>,
                            entries: seq<Entry>, slots: seq<Slot>)
  {
    && Faithful(h, role, rs, entries, slots) && Distinct(slots)
    && (forall s: Slot :: s in slots <==> s.prefix in at && at[s.prefix] in seen && Expected(rs, s).Some?)
  }

  lemma CollectNode(h: Hashing, role: nat, rs: seq<PathRule>, at: map<seq<Name>, nat>, seen: set<nat>,
                    entries: seq<Entry>, slots: seq<Slot>, p: seq<Name>, more: seq<Entry>, moreSlots: seq<Slot>)
    requires Collected(h, role, rs, at, seen, entries, slots)
    requires p in at && at[p] !in seen
    requires forall q, q' :: q in at && q' in at && at[q] == at[q'] ==> q == q'
    requires Emitted(h, role, rs, p, more, moreSlots, {})
    ensures Collected(h, role, rs, at, seen + {at[p]}, entries + more, slots + moreSlots)
  {
    hide Expected, EntryAt;
    var all := slots + moreSlots;
    forall s: Slot ensures s in all <==> s.prefix in at && at[s.prefix] in seen + {at[p]} && Expected(rs, s).Some? {
      assert s in all <==> s in slots || s in moreSlots;
    }
    DistinctConcat(slots, moreSlots);
    FaithfulConcat(h, role, rs, entries, slots, more, moreSlots);
  }

  lemma DistinctConcat(a: seq<Slot>, b: seq<Slot>)
    requires Distinct(a) && Distinct(b)
    requires forall s :: s in a ==> s !in b
    ensures Distinct(a + b)
  {
    forall i, j | 0 <= i < j < |a + b| ensures (a + b)[i] != (a + b)[j] {
      if i < |a| <= j {
        assert (a + b)[i] in a && (a + b)[j] in b;
      }
    }
  }

  lemma FaithfulConcat(h: Hashing, role: nat, rs: seq<PathRule>, entries: seq<Entry>, slots: seq<Slot>,
                       more: seq<Entry>, moreSlots: seq<Slot>)
    requires Faithful(h, role, rs, entries, slots) && Faithful(h, role, rs, more, moreSlots)
    ensures Faithful(h, role, rs, entries + more, slots + moreSlots)
  {
    hide Expected, EntryAt;
    var all := slots + moreSlots;
    forall k | 0 <= k < |all|
      ensures Expected(rs, all[k]).Some? &&
              (entries + more)[k] == EntryAt(h, role, all[k], Expected(rs, all[k]).value)
    {
      if k >= |slots| {
        assert all[k] == moreSlots[k - |slots|];
      }
    }
  }

  /** The decision in force at a node: its own, or the one carried to it. */
  function Effective(n: Node, inherited: Option<Source>): Option<Source>
  {
    if n.decision.Some? && n.decidedBy.Some? then Some(Source(n.decision.value, n.decidedBy.value)) else inherited
  }

  lemma EffectiveIsNearest(nodes: seq<Node>, at: map<seq<Name>, nat>, rs: seq<PathRule>, raw: seq<RawRule>, i: nat,
                           inherited: Option<Source>)
    requires IsTrie(nodes, at, rs, raw) && i < |nodes|
    requires forall r :: r in rs ==> r.comps != []
    requires CarriedTo(nodes[i].comps, rs, raw, inherited)
    ensures Nearest(Effective(nodes[i], inherited), rs, raw, nodes[i].comps)
  {
    hide After, Ends, PatternComponents, Shape, Alive;
    var p := nodes[i].comps;
    assert Credited(nodes[i], raw);
    if p == [] {
      RootUndecided(rs);
    } else if inherited.Some? {
      ShorterPrefix(PatternComponents(inherited.value.pattern), p);
    }
  }

  lemma RootUndecided(rs: seq<PathRule>)
    requires forall r :: r in rs ==> r.comps != []
    ensures Ends(After(rs, [])) == None
  {
    EndsSome(rs);
  }

  lemma ShorterPrefix(a: seq<Name>, p: seq<Name>)
    requires p != [] && IsPrefix(a, p[..|p| - 1])
    ensures IsPrefix(a, p)
  {
    assert a == p[..|p| - 1][..|a|] == p[..|a|];
  }

  lemma CarryStep(nodes: seq<Node>, at: map<seq<Name>, nat>, rs: seq<PathRule>, raw: seq<RawRule>,
                  below: seq<Pending>, i: nat, pushed: seq<Pending>, effective: Option<Source>)
    requires IsTrie(nodes, at, rs, raw) && i < |nodes|
    requires Carrying(nodes, rs, raw, below)
    requires Pushes(nodes[i], pushed, effective) && Nearest(effective, rs, raw, nodes[i].comps)
    ensures Carrying(nodes, rs, raw, below + pushed)
  {
    forall k | 0 <= k < |pushed|
      ensures pushed[k].index < |nodes| && CarriedTo(nodes[pushed[k].index].comps, rs, raw, pushed[k].inherited)
    {
      var c := PushedChild(nodes[i], pushed, effective, k);
      ChildIffDeriv(nodes, at, rs, raw, i, c);
      assert Ext(nodes[i].comps, c)[..|nodes[i].comps|] == nodes[i].comps;
    }
  }

  lemma {:induction false} AllSeen(nodes: seq<Node>, at: map<seq<Name>, nat>, seen: set<nat>, p: seq<Name>)
    requires Shape(nodes, at) && Frontier(nodes, at, [], seen) && p in at
    ensures at[p] in seen
    decreases |p|
  {
    if p != [] {
      var q, c := p[..|p| - 1], p[|p| - 1];
      assert p == Ext(q, c);
      AllSeen(nodes, at, seen, q);
      assert LinkAt(nodes[at[q]], at, c);
      assert Reached([], seen, at[p]);
    }
  }

  predicate Clash(rs: seq<PathRule>)
  {
    exists i, j :: 0 <= i < |rs| && 0 <= j < |rs| && Overlap(rs[i].comps, rs[j].comps)
  }

  lemma {:induction false} DeepestSome(rs: seq<PathRule>, p: seq<Name>)
    ensures Deepest(rs, p).Some? <==> exists i :: 0 <= i < |rs| && IsPrefix(rs[i].comps, p)
    decreases |p|
  {
    hide After, Ends;
    EndsAfterSome(rs, p);
    if p != [] {
      DeepestSome(rs, p[..|p| - 1]);
      forall i | 0 <= i < |rs|
        ensures IsPrefix(rs[i].comps, p) <==> rs[i].comps == p || IsPrefix(rs[i].comps, p[..|p| - 1])
      {
        var a := rs[i].comps;
        if IsPrefix(a, p) && a != p {
          assert a == p[..|a|] == p[..|p| - 1][..|a|];
        }
      }
    }
  }

  lemma EndsAfterSome(rs: seq<PathRule>, p: seq<Name>)
    ensures Ends(After(rs, p)).Some? <==> exists i :: 0 <= i < |rs| && rs[i].comps == p
  {
    EndsSome(After(rs, p));
    if i :| 0 <= i < |rs| && rs[i].comps == p {
      var t := PathRule([], rs[i].allow);
      assert rs[i].comps[|p|..] == [];
      assert t in Tail(rs[i], p);
      AfterMember(rs, p, t);
    }
    if k :| 0 <= k < |After(rs, p)| && After(rs, p)[k].comps == [] {
      AfterMember(rs, p, After(rs, p)[k]);
      var i :| 0 <= i < |rs| && After(rs, p)[k] in Tail(rs[i], p);
      assert rs[i].comps == p;
    }
  }

  /** Some prefix wants its wildcard slot twice exactly when two rules of the list overlap. */
  lemma ClashIffConflict(rs: seq<PathRule>)
    requires forall r :: r in rs ==> r.comps != []
    ensures Clash(rs) <==> exists p :: ConflictAt(rs, p)
  {
    hide After, Deriv, Deepest;
    if i, j :| 0 <= i < |rs| && 0 <= j < |rs| && Overlap(rs[i].comps, rs[j].comps) {
      var a, b := rs[i].comps, rs[j].comps;
      var k :| |a| <= k < |b| && b[k] == STAR;
      var p := b[..k];
      assert a == b[..|a|] == p[..|a|];
      assert b[..k + 1] == p + [STAR];
      DeepestSome(rs, p);
      AfterStep(rs, p, STAR);
      AfterAlive(rs, p + [STAR]);
      assert ConflictAt(rs, p);
    }
    if p :| ConflictAt(rs, p) {
      AfterStep(rs, p, STAR);
      AfterAlive(rs, p + [STAR]);
      DeepestSome(rs, p);
      var j :| 0 <= j < |rs| && p + [STAR] <= rs[j].comps;
      var i :| 0 <= i < |rs| && IsPrefix(rs[i].comps, p);
      assert rs[i] in rs;
      OverlapThrough(rs[i].comps, p, rs[j].comps);
    }
  }

  /** The refusal condition, on the patterns as listed. */
  lemma RefusalOnPatterns(raw: seq<RawRule>)
    ensures Clash(Effectual(raw)) <==>
            exists i, j :: 0 <= i < |raw| && 0 <= j < |raw|
                           && Overlap(PatternComponents(raw[i].pattern), PatternComponents(raw[j].pattern))
  {
    hide PatternComponents, Overlap;
    var rs, rules := Effectual(raw), Parsed(raw);
    if i, j :| 0 <= i < |rs| && 0 <= j < |rs| && Overlap(rs[i].comps, rs[j].comps) {
      assert rs[i] in rules && rs[j] in rules;
      var k :| 0 <= k < |rules| && rules[k] == rs[i];
      var l :| 0 <= l < |rules| && rules[l] == rs[j];
      assert Overlap(PatternComponents(raw[k].pattern), PatternComponents(raw[l].pattern));
    }
    if k, l :| 0 <= k < |raw| && 0 <= l < |raw|
               && Overlap(PatternComponents(raw[k].pattern), PatternComponents(raw[l].pattern)) {
      OverlapIsNamed(rules[k].comps, rules[l].comps);
      assert rules[k] in rs && rules[l] in rs;
      var i :| 0 <= i < |rs| && rs[i] == rules[k];
      var j :| 0 <= j < |rs| && rs[j] == rules[l];
      assert Overlap(rs[i].comps, rs[j].comps);
    }
  }

  lemma OverlapIsNamed(a: seq<Name>, b: seq<Name>)
    requires Overlap(a, b)
    ensures a != [] && b != []
  {
  }

  /**
   All of a role's rules at once. The list is refused exactly when two of them
   overlap at a `*`, and every node where they do is reported; otherwise the
   entries are the table of the list.
   */
  method EncodeRole(h: Hashing, role: nat, raw: seq<RawRule>) returns (r: Encoded)
    ensures r.Refused? <==> Clash(Effectual(raw))
    ensures r.Refused? ==> r.conflicts != {} && forall c :: c in r.conflicts ==> Genuine(raw, c)
    ensures r.Refused? ==> forall p :: ConflictAt(Effectual(raw), p) ==> Reports(r.conflicts, p)
    ensures r.Accepted? ==> exists slots :: IsTable(h, role, Effectual(raw), r.entries, slots)
  {
    hide Progress, Clash, Effectual, IsTable, IsTrie, Genuine, CarriedTo, Nearest, Emitted, Pushes, ConflictAt, Reports;
    ghost var rs := Effectual(raw);
    var nodes, at := BuildTrie(raw);
    var entries: seq<Entry>, conflicts: set<Conflict> := [], {};
    ghost var slots: seq<Slot>, seen: set<nat> := [], {};
    var stack := [Pending(0, None)];
    Started(h, role, nodes, at, rs, raw);
    while stack != []
      invariant Progress(h, role, nodes, at, rs, raw, stack, seen, entries, slots, conflicts)
      decreases Indices(|nodes|) - seen
    {
      var top, below := stack[|stack| - 1], stack[..|stack| - 1];
      assert stack == below + [top];
      TopOfStack(h, role, nodes, at, rs, raw, below, top, seen, entries, slots, conflicts);
      var i := top.index;
      var effective := Effective(nodes[i], top.inherited);
      EffectiveIsNearest(nodes, at, rs, raw, i, top.inherited);
      var more, pushed, clashes, moreSlots := Expand(h, role, nodes, i, effective, at, rs, raw);
      Advanced(h, role, nodes, at, rs, raw, below, top, seen, entries, slots, conflicts,
               effective, more, pushed, clashes, moreSlots);
      entries, conflicts, stack := entries + more, conflicts + clashes, below + pushed;
      slots, seen := slots + moreSlots, seen + {i};
    }
    Finished(h, role, nodes, at, rs, raw, seen, entries, slots, conflicts);
    r := if conflicts == {} then Accepted(entries) else Refused(conflicts);
  }

  /** The state of the depth-first loop. */
  ghost predicate Progress(h: Hashing, role: nat, nodes: seq<Node>, at: map<seq<Name>, nat>, rs: seq<PathRule>,
                           raw: seq<RawRule>, stack: seq<Pending>, seen: set<nat>, entries: seq<Entry>,
                           slots: seq<Slot>, conflicts: set<Conflict>)
  {
    && Frontier(nodes, at, stack, seen)
    && Carrying(nodes, rs, raw, stack)
    && Collected(h, role, rs, at, seen, entries, slots)
    && Reported(nodes, rs, raw, seen, conflicts)
  }

  /** The conflicts are those of the visited nodes: none made up, none of these nodes passed over. */
  ghost predicate Reported(nodes: seq<Node>, rs: seq<PathRule>, raw: seq<RawRule>, seen: set<nat>,
                           conflicts: set<Conflict>)
  {
    && (conflicts != {} <==> exists i :: i in seen && i < |nodes| && ConflictAt(rs, nodes[i].comps))
    && (forall i :: i in seen && i < |nodes| && ConflictAt(rs, nodes[i].comps) ==> Reports(conflicts, nodes[i].comps))
    && (forall c :: c in conflicts ==> Genuine(raw, c))
  }

  lemma ReportNode(nodes: seq<Node>, rs: seq<PathRule>, raw: seq<RawRule>, seen: set<nat>, conflicts: set<Conflict>,
                   i: nat, clashes: set<Conflict>)
    requires Reported(nodes, rs, raw, seen, conflicts) && i < |nodes|
    requires clashes != {} <==> ConflictAt(rs, nodes[i].comps)
    requires clashes != {} ==> Reports(clashes, nodes[i].comps)
    requires forall c :: c in clashes ==> Genuine(raw, c)
    ensures Reported(nodes, rs, raw, seen + {i}, conflicts + clashes)
  {
    hide Genuine, ConflictAt, About;
  }

  lemma TopOfStack(h: Hashing, role: nat, nodes: seq<Node>, at: map<seq<Name>, nat>, rs: seq<PathRule>,
                   raw: seq<RawRule>, below: seq<Pending>, top: Pending, seen: set<nat>, entries: seq<Entry>,
                   slots: seq<Slot>, conflicts: set<Conflict>)
    requires Progress(h, role, nodes, at, rs, raw, below + [top], seen, entries, slots, conflicts)
    ensures top.index < |nodes| && top.index !in seen && CarriedTo(nodes[top.index].comps, rs, raw, top.inherited)
  {
    hide Collected, CarriedTo, Genuine, ConflictAt;
    assert (below + [top])[|below|] == top;
  }

  lemma Advanced(h: Hashing, role: nat, nodes: seq<Node>, at: map<seq<Name>, nat>, rs: seq<PathRule>,
                 raw: seq<RawRule>, below: seq<Pending>, top: Pending, seen: set<nat>, entries: seq<Entry>,
                 slots: seq<Slot>, conflicts: set<Conflict>, effective: Option<Source>, more: seq<Entry>,
                 pushed: seq<Pending>, clashes: set<Conflict>, moreSlots: seq<Slot>)
    requires IsTrie(nodes, at, rs, raw) && top.index < |nodes| && top.index !in seen
    requires Progress(h, role, nodes, at, rs, raw, below + [top], seen, entries, slots, conflicts)
    requires Nearest(effective, rs, raw, nodes[top.index].comps)
    requires Emitted(h, role, rs, nodes[top.index].comps, more, moreSlots, {})
    requires Pushes(nodes[top.index], pushed, effective)
    requires clashes != {} <==> ConflictAt(rs, nodes[top.index].comps)
    requires clashes != {} ==> Reports(clashes, nodes[top.index].comps)
    requires forall c :: c in clashes ==> Genuine(raw, c)
    ensures Progress(h, role, nodes, at, rs, raw, below + pushed, seen + {top.index}, entries + more,
                     slots + moreSlots, conflicts + clashes)
  {
    hide Shape, Frontier, Collected, CarriedTo, Genuine, ConflictAt, Nearest, Emitted, Pushes, Alive, Credited,
         Reported, Reports;
    ReportNode(nodes, rs, raw, seen, conflicts, top.index, clashes);
    FrontierStep(nodes, at, below, top, seen, pushed, effective);
    assert forall k :: 0 <= k < |below| ==> below[k] == (below + [top])[k];
    CarryStep(nodes, at, rs, raw, below, top.index, pushed, effective);
    NodeAt(nodes, at, top.index);
    CollectNode(h, role, rs, at, seen, entries, slots, nodes[top.index].comps, more, moreSlots);
  }

  lemma NodeAt(nodes: seq<Node>, at: map<seq<Name>, nat>, i: nat)
    requires Shape(nodes, at) && i < |nodes|
    ensures nodes[i].comps in at && at[nodes[i].comps] == i
    ensures forall p, q :: p in at && q in at && at[p] == at[q] ==> p == q
  {
  }

  ghost function Indices(n: nat): (s: set<nat>)
    ensures forall i: nat :: i in s <==> i < n
  {
    if n == 0 then {} else Indices(n - 1) + {n - 1}
  }

  lemma Started(h: Hashing, role: nat, nodes: seq<Node>, at: map<seq<Name>, nat>, rs: seq<PathRule>, raw: seq<RawRule>)
    requires IsTrie(nodes, at, rs, raw)
    ensures Progress(h, role, nodes, at, rs, raw, [Pending(0, None)], {}, [], [], {})
  {
    hide Alive, Credited, After, Ends, Linked, Expected;
    assert [Pending(0, None)][0].index == 0;
    assert forall p, c :: Ext(p, c) != [];
  }

  lemma Finished(h: Hashing, role: nat, nodes: seq<Node>, at: map<seq<Name>, nat>, rs: seq<PathRule>,
                 raw: seq<RawRule>, seen: set<nat>, entries: seq<Entry>, slots: seq<Slot>, conflicts: set<Conflict>)
    requires IsTrie(nodes, at, rs, raw)
    requires Progress(h, role, nodes, at, rs, raw, [], seen, entries, slots, conflicts)
    requires forall r :: r in rs ==> r.comps != []
    ensures IsTable(h, role, rs, entries, slots)
    ensures Clash(rs) <==> conflicts != {}
    ensures forall c :: c in conflicts ==> Genuine(raw, c)
    ensures forall p :: ConflictAt(rs, p) ==> Reports(conflicts, p)
  {
    hide Genuine, Clash, Faithful, Deepest, HasLive, Reports;
    forall p | p in at ensures at[p] in seen { AllSeen(nodes, at, seen, p); }
    forall s: Slot | Expected(rs, s).Some? ensures s.prefix in at { SlotIsAlive(rs, s); }
    ClashIffConflict(rs);
    forall p | ConflictAt(rs, p) ensures p in at && nodes[at[p]].comps == p {
      SlotIsAlive(rs, Slot(p, STAR));
    }
    if p :| ConflictAt(rs, p) {
      assert at[p] in seen;
    }
  }

  lemma SlotIsAlive(rs: seq<PathRule>, s: Slot)
    requires Expected(rs, s).Some? || Deriv(After(rs, s.prefix), s.edge) != []
    ensures Alive(rs, s.prefix)
  {
  }
}
