/** The arena trie the role encoder grows, rule by rule. */
module Trie {
  import opened Base
  import opened Patterns
  import opened Rules
  import opened Table

  datatype Node = Node(
    comps: seq<Name>,
    children: map<Name, nat>,
    decision: Option<bool>,
    decidedBy: Option<Name>,
    createdBy: Name)

  predicate Listed(raw: seq<RawRule>, pattern: Name)
  {
    exists i :: 0 <= i < |raw| && raw[i].pattern == pattern
  }

  function Ext(p: seq<Name>, c: Name): seq<Name>
  {
    p + [c]
  }

  predicate IsPrefix(p: seq<Name>, q: seq<Name>)
  {
    p <= q
  }

  /** `at` is a bijection between a prefix-closed set of prefixes and the nodes. */
  ghost predicate Indexed(nodes: seq<Node>, at: map<seq<Name>, nat>)
  {
    && [] in at && at[[]] == 0
    && (forall p :: p in at ==> at[p] < |nodes| && nodes[at[p]].comps == p)
    && (forall i :: 0 <= i < |nodes| ==> nodes[i].comps in at && at[nodes[i].comps] == i)
  }

  ghost predicate Closed(at: map<seq<Name>, nat>)
  {
    forall p, c :: Ext(p, c) in at ==> p in at
  }

  /** Child edges extend prefixes by one component. */
  ghost predicate Linked(nodes: seq<Node>, at: map<seq<Name>, nat>)
  {
    forall i, c :: 0 <= i < |nodes| ==> LinkAt(nodes[i], at, c)
  }

  ghost predicate LinkAt(n: Node, at: map<seq<Name>, nat>, c: Name)
  {
    if c in n.children then Ext(n.comps, c) in at && n.children[c] == at[Ext(n.comps, c)]
    else Ext(n.comps, c) !in at
  }

  ghost predicate Shape(nodes: seq<Node>, at: map<seq<Name>, nat>)
  {
    Indexed(nodes, at) && Closed(at) && Linked(nodes, at)
  }

  /** The arena is the trie of `rs`, and names the patterns behind each node. */
  ghost predicate IsTrie(nodes: seq<Node>, at: map<seq<Name>, nat>, rs: seq<PathRule>, raw: seq<RawRule>)
  {
    && Shape(nodes, at)
    && (forall p :: p in at <==> Alive(rs, p))
    && (forall i :: 0 <= i < |nodes| ==> nodes[i].decision == Ends(After(rs, nodes[i].comps)))
    && (forall i :: 0 <= i < |nodes| ==> Credited(nodes[i], raw))
  }

  ghost predicate Credited(n: Node, raw: seq<RawRule>)
  {
    && (n.decision.Some? <==> n.decidedBy.Some?)
    && (n.decidedBy.Some? ==> n.comps == PatternComponents(n.decidedBy.value) && Listed(raw, n.decidedBy.value))
    && (n.comps != [] ==> n.comps <= PatternComponents(n.createdBy) && Listed(raw, n.createdBy))
  }

  lemma AliveGrows(rs: seq<PathRule>, r: PathRule, p: seq<Name>)
    ensures Alive(rs + [r], p) <==> Alive(rs, p) || IsPrefix(p, r.comps)
  {
    AfterSnoc(rs, r, p);
  }

  lemma EndsGrows(rs: seq<PathRule>, r: PathRule, p: seq<Name>)
    ensures Ends(After(rs + [r], p)) == if p == r.comps then Some(r.allow) else Ends(After(rs, p))
  {
    AfterSnoc(rs, r, p);
    if p <= r.comps {
      EndsSnoc(After(rs, p), PathRule(r.comps[|p|..], r.allow));
      assert |p| == |r.comps| ==> p == r.comps;
    } else {
      assert After(rs, p) + [] == After(rs, p);
    }
  }

  lemma AfterStep(rs: seq<PathRule>, p: seq<Name>, c: Name)
    ensures After(rs, p + [c]) == Deriv(After(rs, p), c)
  {
    assert (p + [c])[..|p|] == p;
  }

  lemma ExtInjective(p: seq<Name>, c: Name, q: seq<Name>, d: Name)
    requires Ext(p, c) == Ext(q, d)
    ensures p == q && c == d
  {
    var x, y := p + [c], q + [d];
    assert p == x[..|p|] && q == y[..|q|];
    assert x[|p|] == c && y[|q|] == d;
  }

  function Hung(nodes: seq<Node>, parent: nat, c: Name, leaf: Node): seq<Node>
    requires parent < |nodes|
  {
    nodes[parent := nodes[parent].(children := nodes[parent].children[c := |nodes|])] + [leaf]
  }

  /** Hanging a new node under `parent` keeps the arena a tree of prefixes. */
  lemma HungShape(nodes: seq<Node>, at: map<seq<Name>, nat>, parent: nat, c: Name, leaf: Node)
    requires Shape(nodes, at)
    requires parent < |nodes| && c !in nodes[parent].children
    requires leaf.comps == Ext(nodes[parent].comps, c) && leaf.children == map[]
    ensures Shape(Hung(nodes, parent, c, leaf), at[leaf.comps := |nodes|])
  {
    var at' := at[leaf.comps := |nodes|];
    assert LinkAt(nodes[parent], at, c);
    forall p, d | Ext(p, d) in at' ensures p in at' {
      if Ext(p, d) !in at { ExtInjective(p, d, nodes[parent].comps, c); }
    }
    forall i, d | 0 <= i < |nodes| + 1 ensures LinkAt(Hung(nodes, parent, c, leaf)[i], at', d) {
      HungLink(nodes, at, parent, c, leaf, i, d);
    }
  }

  lemma HungLink(nodes: seq<Node>, at: map<seq<Name>, nat>, parent: nat, c: Name, leaf: Node, i: nat, d: Name)
    requires Shape(nodes, at)
    requires parent < |nodes| && c !in nodes[parent].children
    requires leaf.comps == Ext(nodes[parent].comps, c) && leaf.children == map[]
    requires i <= |nodes|
    ensures LinkAt(Hung(nodes, parent, c, leaf)[i], at[leaf.comps := |nodes|], d)
  {
    assert LinkAt(nodes[parent], at, c);
    if i == |nodes| {
      assert Ext(leaf.comps, d) !in at;
      assert |Ext(leaf.comps, d)| != |leaf.comps|;
    } else {
      assert LinkAt(nodes[i], at, d);
      if Ext(nodes[i].comps, d) == leaf.comps {
        ExtInjective(nodes[i].comps, d, nodes[parent].comps, c);
      }
    }
  }

  /** What descending for `pattern` may change: missing prefixes are added, undecided. */
  ghost predicate Grown(nodes0: seq<Node>, at0: map<seq<Name>, nat>, nodes: seq<Node>, at: map<seq<Name>, nat>,
                        comps: seq<Name>, pattern: Name)
  {
    && |nodes0| <= |nodes|
    && (forall p :: p in at <==> p in at0 || IsPrefix(p, comps))
    && (forall k :: 0 <= k < |nodes0| ==> SameRecord(nodes[k], nodes0[k]))
    && (forall k :: |nodes0| <= k < |nodes| ==>
          nodes[k].comps !in at0 && SameRecord(nodes[k], Node(nodes[k].comps, map[], None, None, pattern)))
  }

  /** Equal up to child edges. */
  predicate SameRecord(a: Node, b: Node)
  {
    a.comps == b.comps && a.decision == b.decision && a.decidedBy == b.decidedBy && a.createdBy == b.createdBy
  }

  /** The state of a descent that has consumed the first `i` components. */
  ghost predicate Descended(nodes0: seq<Node>, at0: map<seq<Name>, nat>, nodes: seq<Node>,
                            at: map<seq<Name>, nat>, comps: seq<Name>, pattern: Name, i: nat, here: nat)
    requires i <= |comps|
  {
    && here < |nodes|
    && Shape(nodes, at)
    && comps[..i] in at && here == at[comps[..i]]
    && Grown(nodes0, at0, nodes, at, comps[..i], pattern)
  }

  lemma DescendStart(nodes0: seq<Node>, at0: map<seq<Name>, nat>, comps: seq<Name>, pattern: Name)
    requires Shape(nodes0, at0)
    ensures Descended(nodes0, at0, nodes0, at0, comps, pattern, 0, 0)
  {
    assert comps[..0] == [];
    assert forall p :: IsPrefix(p, comps[..0]) <==> p == [];
  }

  lemma DescendFound(nodes0: seq<Node>, at0: map<seq<Name>, nat>, nodes: seq<Node>,
                     at: map<seq<Name>, nat>, comps: seq<Name>, pattern: Name, i: nat, here: nat)
    requires i < |comps|
    requires Descended(nodes0, at0, nodes, at, comps, pattern, i, here)
    requires comps[i] in nodes[here].children
    ensures Descended(nodes0, at0, nodes, at, comps, pattern, i + 1, nodes[here].children[comps[i]])
  {
    PrefixSnoc(comps, i);
    assert LinkAt(nodes[here], at, comps[i]);
  }

  lemma DescendHung(nodes0: seq<Node>, at0: map<seq<Name>, nat>, nodes: seq<Node>,
                    at: map<seq<Name>, nat>, comps: seq<Name>, pattern: Name, i: nat, here: nat)
    requires i < |comps|
    requires Descended(nodes0, at0, nodes, at, comps, pattern, i, here)
    requires comps[i] !in nodes[here].children
    ensures var leaf := Node(comps[..i + 1], map[], None, None, pattern);
            Descended(nodes0, at0, Hung(nodes, here, comps[i], leaf), at[leaf.comps := |nodes|],
                      comps, pattern, i + 1, |nodes|)
  {
    var leaf := Node(comps[..i + 1], map[], None, None, pattern);
    PrefixSnoc(comps, i);
    assert LinkAt(nodes[here], at, comps[i]);
    HungShape(nodes, at, here, comps[i], leaf);
    HungGrown(nodes0, at0, nodes, at, comps, pattern, i, here);
  }

  lemma HungGrown(nodes0: seq<Node>, at0: map<seq<Name>, nat>, nodes: seq<Node>,
                  at: map<seq<Name>, nat>, comps: seq<Name>, pattern: Name, i: nat, here: nat)
    requires i < |comps| && here < |nodes|
    requires Grown(nodes0, at0, nodes, at, comps[..i], pattern)
    requires comps[..i + 1] !in at
    ensures var leaf := Node(comps[..i + 1], map[], None, None, pattern);
            Grown(nodes0, at0, Hung(nodes, here, comps[i], leaf), at[leaf.comps := |nodes|], comps[..i + 1], pattern)
  {
    PrefixSnoc(comps, i);
  }

  /** Walk `comps` down from the root, adding the nodes that are missing. */
  method Descend(nodes0: seq<Node>, ghost at0: map<seq<Name>, nat>, comps: seq<Name>, pattern: Name)
    returns (nodes: seq<Node>, here: nat, ghost at: map<seq<Name>, nat>)
    requires Shape(nodes0, at0)
    ensures Descended(nodes0, at0, nodes, at, comps, pattern, |comps|, here)
  {
    hide Shape, Grown;
    nodes, here, at := nodes0, 0, at0;
    var i := 0;
    DescendStart(nodes0, at0, comps, pattern);
    while i < |comps|
      invariant 0 <= i <= |comps|
      invariant Descended(nodes0, at0, nodes, at, comps, pattern, i, here)
    {
      var c := comps[i];
      if c in nodes[here].children {
        DescendFound(nodes0, at0, nodes, at, comps, pattern, i, here);
        here := nodes[here].children[c];
      } else {
        var leaf := Node(comps[..i + 1], map[], None, None, pattern);
        DescendHung(nodes0, at0, nodes, at, comps, pattern, i, here);
        at := at[leaf.comps := |nodes|];
        nodes, here := Hung(nodes, here, c, leaf), |nodes|;
      }
      i := i + 1;
    }
  }

  lemma PrefixSnoc(comps: seq<Name>, i: nat)
    requires i < |comps|
    ensures comps[..i + 1] == Ext(comps[..i], comps[i])
    ensures forall p :: IsPrefix(p, comps[..i + 1]) <==> IsPrefix(p, comps[..i]) || p == comps[..i + 1]
  {
    forall p ensures IsPrefix(p, comps[..i + 1]) <==> IsPrefix(p, comps[..i]) || p == comps[..i + 1] {
      if IsPrefix(p, comps[..i]) {
        assert p == comps[..i][..|p|] == comps[..i + 1][..|p|];
      }
    }
  }

  function Decide(nodes: seq<Node>, here: nat, r: RawRule): seq<Node>
    requires here < |nodes|
  {
    nodes[here := nodes[here].(decision := Some(r.allow), decidedBy := Some(r.pattern))]
  }

  /** Insert every rule in turn; of two rules with the same components the later wins. */
  method BuildTrie(raw: seq<RawRule>) returns (nodes: seq<Node>, ghost at: map<seq<Name>, nat>)
    ensures IsTrie(nodes, at, Effectual(raw), raw)
  {
    hide Shape, Grown, Credited, Alive, After, Ends, Effectual, PatternComponents;
    nodes := [Node([], map[], None, None, [])];
    at := map[[] := 0];
    RootIsTrie(raw);
    var k := 0;
    assert raw[..0] == [];
    while k < |raw|
      invariant 0 <= k <= |raw|
      invariant IsTrie(nodes, at, Effectual(raw[..k]), raw)
    {
      var comps := PatternComponents(raw[k].pattern);
      EffectualSnoc(raw, k);
      if comps != [] {
        ghost var nodes0, at0 := nodes, at;
        var here;
        nodes, here, at := Descend(nodes, at, comps, raw[k].pattern);
        InsertedIsTrie(nodes0, at0, nodes, at, Effectual(raw[..k]), raw, k, here);
        nodes := Decide(nodes, here, raw[k]);
      }
      k := k + 1;
    }
    assert raw[..k] == raw;
  }

  lemma RootIsTrie(raw: seq<RawRule>)
    ensures IsTrie([Node([], map[], None, None, [])], map[[] := 0], Effectual([]), raw)
  {
    assert forall p, c :: |Ext(p, c)| > 0;
    assert Effectual([]) == [];
    forall p ensures p == [] <==> Alive([], p) { AfterNil(p); }
  }

  lemma EffectualSnoc(raw: seq<RawRule>, k: nat)
    requires k < |raw|
    ensures Effectual(raw[..k + 1]) ==
            if Parse(raw[k]).comps == [] then Effectual(raw[..k]) else Effectual(raw[..k]) + [Parse(raw[k])]
  {
    assert raw[..k + 1][..k] == raw[..k];
    assert Parsed(raw[..k + 1])[..k] == Parsed(raw[..k]);
  }

  lemma InsertedIsTrie(nodes0: seq<Node>, at0: map<seq<Name>, nat>, nodes: seq<Node>, at: map<seq<Name>, nat>,
                       rs: seq<PathRule>, raw: seq<RawRule>, k: nat, here: nat)
    requires IsTrie(nodes0, at0, rs, raw)
    requires k < |raw| && Parse(raw[k]).comps != []
    requires var r := Parse(raw[k]);
             Descended(nodes0, at0, nodes, at, r.comps, raw[k].pattern, |r.comps|, here)
    ensures IsTrie(Decide(nodes, here, raw[k]), at, rs + [Parse(raw[k])], raw)
  {
    var r := Parse(raw[k]);
    assert r.comps[..|r.comps|] == r.comps;
    forall p ensures p in at <==> Alive(rs + [r], p) { AliveGrows(rs, r, p); }
    DecideShape(nodes, at, here, raw[k]);
    forall j | 0 <= j < |nodes|
      ensures var n := Decide(nodes, here, raw[k])[j];
              n.decision == Ends(After(rs + [r], n.comps)) && Credited(n, raw)
    {
      InsertedRecord(nodes0, at0, nodes, at, rs, raw, k, here, j);
    }
  }

  lemma DecideShape(nodes: seq<Node>, at: map<seq<Name>, nat>, here: nat, r: RawRule)
    requires Shape(nodes, at) && here < |nodes|
    ensures Shape(Decide(nodes, here, r), at)
  {
    var nodes' := Decide(nodes, here, r);
    forall i, c | 0 <= i < |nodes'| ensures LinkAt(nodes'[i], at, c) {
      assert LinkAt(nodes[i], at, c);
    }
  }

  lemma InsertedRecord(nodes0: seq<Node>, at0: map<seq<Name>, nat>, nodes: seq<Node>, at: map<seq<Name>, nat>,
                       rs: seq<PathRule>, raw: seq<RawRule>, k: nat, here: nat, j: nat)
    requires IsTrie(nodes0, at0, rs, raw)
    requires k < |raw| && Parse(raw[k]).comps != []
    requires Indexed(nodes, at) && Parse(raw[k]).comps in at && here == at[Parse(raw[k]).comps]
    requires Grown(nodes0, at0, nodes, at, Parse(raw[k]).comps, raw[k].pattern)
    requires j < |nodes|
    ensures var n := Decide(nodes, here, raw[k])[j];
            n.decision == Ends(After(rs + [Parse(raw[k])], n.comps)) && Credited(n, raw)
  {
    EndsGrows(rs, Parse(raw[k]), nodes[j].comps);
    assert nodes[j].comps in at;
    if j < |nodes0| {
      assert Credited(nodes0[j], raw) && SameRecord(nodes[j], nodes0[j]);
      assert nodes0[j].comps in at0;
    } else {
      assert !Alive(rs, nodes[j].comps);
      assert IsPrefix(nodes[j].comps, Parse(raw[k]).comps);
    }
  }
}
