/** How many rows a role takes in the kernel's map. */
module TableSize {
  import opened Base
  import opened Rules
  import opened Table
  import opened Trie

  /** The non-empty prefixes of the rules: the trie's nodes below its root. */
  function Nodes(rs: seq<PathRule>): (nodes: set<seq<Name>>)
    ensures forall p :: p in nodes <==> p != [] && exists i :: 0 <= i < |rs| && IsPrefix(p, rs[i].comps)
  {
    if rs == [] then {}
    else
      var r := rs[|rs| - 1];
      var rest := Nodes(rs[..|rs| - 1]);
      var own := set k | 0 < k <= |r.comps| :: r.comps[..k];
      assert forall p :: p in own <==> p != [] && IsPrefix(p, r.comps) by {
        forall p | p != [] && IsPrefix(p, r.comps) ensures p in own {
          assert 0 < |p| <= |r.comps| && r.comps[..|p|] == p;
        }
      }
      rest + own
  }

  /** The nodes, the root among them, that have children and a decision at or above them. */
  ghost function Inheriting(rs: seq<PathRule>): set<seq<Name>>
  {
    set p | p in Nodes(rs) + {[]} && HasLive(After(rs, p)) && Deepest(rs, p).Some?
  }

  lemma {:induction false} InjectiveImage<T, U>(s: set<T>, f: T -> U, t: set<U>)
    requires forall x, y :: x in s && y in s && f(x) == f(y) ==> x == y
    requires forall x :: x in s ==> f(x) in t
    requires forall u :: u in t ==> exists x :: x in s && f(x) == u
    ensures |t| == |s|
    decreases |s|
  {
    if s == {} {
      assert t == {};
    } else {
      var x :| x in s;
      InjectiveImage(s - {x}, f, t - {f(x)});
    }
  }

  function Members(slots: seq<Slot>): (s: set<Slot>)
    ensures forall x :: x in s <==> x in slots
  {
    set x | x in slots
  }

  lemma {:induction false} DistinctMembers(slots: seq<Slot>)
    requires Distinct(slots)
    ensures |Members(slots)| == |slots|
  {
    if slots != [] {
      var init, last := slots[..|slots| - 1], slots[|slots| - 1];
      DistinctMembers(init);
      assert last !in init;
      assert Members(slots) == Members(init) + {last};
    }
  }

  function EdgeInto(q: seq<Name>): Slot
  {
    if q == [] then Slot([], []) else Slot(q[..|q| - 1], q[|q| - 1])
  }

  function WildSlot(p: seq<Name>): Slot
  {
    Slot(p, STAR)
  }

  /** The slot is an edge to a child, rather than an inherited decision. */
  predicate IsEdge(rs: seq<PathRule>, s: Slot)
  {
    Deriv(After(rs, s.prefix), s.edge) != []
  }

  lemma Split(all: set<Slot>, a: set<Slot>, b: set<Slot>)
    requires all == a + b && a !! b
    ensures |all| == |a| + |b|
  {
  }

  /** One row for every node below the root, and one for every inheriting node. */
  lemma EntryCount(h: Hashing, role: nat, rs: seq<PathRule>, entries: seq<Entry>, slots: seq<Slot>)
    requires IsTable(h, role, rs, entries, slots)
    requires forall p :: !ConflictAt(rs, p)
    ensures |entries| == |Nodes(rs)| + |Inheriting(rs)|
  {
    hide Nodes, Members, Inheriting, IsEdge, Expected, EntryAt, ConflictAt, Distinct;
    var all := Members(slots);
    var edges, wild := set s | s in all && IsEdge(rs, s), set s | s in all && !IsEdge(rs, s);
    DistinctMembers(slots);
    Split(all, edges, wild);
    EdgesAreNodes(rs, slots, edges);
    WildsInherit(rs, slots, wild);
  }

  lemma EdgesAreNodes(rs: seq<PathRule>, slots: seq<Slot>, edges: set<Slot>)
    requires forall s: Slot :: s in slots <==> Expected(rs, s).Some?
    requires forall s :: s in edges <==> s in slots && IsEdge(rs, s)
    ensures |edges| == |Nodes(rs)|
  {
    hide Nodes, Deriv, After, Deepest;
    forall q | q in Nodes(rs) ensures EdgeInto(q) in edges {
      assert q == q[..|q| - 1] + [q[|q| - 1]];
      AfterStep(rs, q[..|q| - 1], q[|q| - 1]);
      AfterAlive(rs, q);
      assert Expected(rs, EdgeInto(q)).Some?;
    }
    forall s | s in edges ensures exists q :: q in Nodes(rs) && EdgeInto(q) == s {
      var q := s.prefix + [s.edge];
      AfterStep(rs, s.prefix, s.edge);
      AfterAlive(rs, q);
      assert q in Nodes(rs) && EdgeInto(q) == s;
    }
    forall x, y | x in Nodes(rs) && y in Nodes(rs) && EdgeInto(x) == EdgeInto(y) ensures x == y {
      assert x == x[..|x| - 1] + [x[|x| - 1]] && y == y[..|y| - 1] + [y[|y| - 1]];
    }
    InjectiveImage(Nodes(rs), EdgeInto, edges);
  }

  lemma WildsInherit(rs: seq<PathRule>, slots: seq<Slot>, wild: set<Slot>)
    requires forall s: Slot :: s in slots <==> Expected(rs, s).Some?
    requires forall s :: s in wild <==> s in slots && !IsEdge(rs, s)
    requires forall p :: !ConflictAt(rs, p)
    ensures |wild| == |Inheriting(rs)|
  {
    hide Nodes, Deriv, After, Deepest;
    forall p | p in Inheriting(rs) ensures WildSlot(p) in wild {
      assert !ConflictAt(rs, p);
      assert Expected(rs, WildSlot(p)).Some?;
    }
    forall s | s in wild ensures exists p :: p in Inheriting(rs) && WildSlot(p) == s {
      assert Expected(rs, s).Some?;
      LiveIsNode(rs, s.prefix);
      assert s.prefix in Inheriting(rs) && WildSlot(s.prefix) == s;
    }
    InjectiveImage(Inheriting(rs), WildSlot, wild);
  }

  lemma LiveIsNode(rs: seq<PathRule>, p: seq<Name>)
    requires HasLive(After(rs, p))
    ensures p in Nodes(rs) + {[]}
  {
    AfterAlive(rs, p);
  }
}
