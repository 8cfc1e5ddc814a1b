/**
 What a role's rule list means, with no table and no trie: at each component
 keep the rules that start with it; if there are none, those that start with
 `*`; if there are none, answer the deepest decision seen so far.
 */
module Rules {
  import opened Base

  /** One rule after its pattern has been split into components. */
  datatype PathRule = PathRule(comps: seq<Name>, allow: bool)

  /** The rules that start with `c`, with that component taken off. */
  function Deriv(rules: seq<PathRule>, c: Name): seq<PathRule>
  {
    if rules == [] then []
    else
      var r := rules[|rules| - 1];
      Deriv(rules[..|rules| - 1], c) + Head(r, c)
  }

  function Head(r: PathRule, c: Name): seq<PathRule>
  {
    if r.comps != [] && r.comps[0] == c then [PathRule(r.comps[1..], r.allow)] else []
  }

  /** The decision of the last listed rule that ends exactly here. */
  function Ends(rules: seq<PathRule>): Option<bool>
  {
    if rules == [] then None
    else
      var r := rules[|rules| - 1];
      if r.comps == [] then Some(r.allow) else Ends(rules[..|rules| - 1])
  }

  predicate HasLive(rules: seq<PathRule>)
  {
    exists i :: 0 <= i < |rules| && rules[i].comps != []
  }

  function Or(a: Option<bool>, b: Option<bool>): Option<bool>
  {
    if a.Some? then a else b
  }

  /** The reference meaning, below a point where `inherited` was decided. */
  function Meaning(rules: seq<PathRule>, inherited: Option<bool>, path: seq<Name>): Option<bool>
    decreases path
  {
    var effective := Or(Ends(rules), inherited);
    var starred := Deriv(rules, STAR);
    if !HasLive(rules) then effective
    else if path == [] then
      // End of the path: a `*` that is a leaf also decides its own directory.
      if effective.Some? then effective
      else if starred != [] && !HasLive(starred) then Ends(starred)
      else None
    else
      var exact := Deriv(rules, path[0]);
      if exact != [] then Meaning(exact, effective, path[1..])
      else if starred != [] then Meaning(starred, effective, path[1..])
      else effective
  }

  // The rules that name at least one component; a pattern such as "/" names none.
  function Named(rules: seq<PathRule>): (named: seq<PathRule>)
    ensures forall r :: r in named <==> r in rules && r.comps != []
  {
    if rules == [] then []
    else
      var r := rules[|rules| - 1];
      var rest := Named(rules[..|rules| - 1]);
      assert forall x :: x in rules <==> x in rules[..|rules| - 1] || x == r;
      if r.comps == [] then rest else rest + [r]
  }

  /** Allow, deny or no rule for a whole path, by the rule list alone. */
  function Verdict(rules: seq<PathRule>, path: seq<Name>): Option<bool>
  {
    if path == [] then None else Meaning(Named(rules), None, path)
  }

  // ---- what is left of a rule list after a prefix ----

  function After(rules: seq<PathRule>, p: seq<Name>): seq<PathRule>
    decreases |p|
  {
    if p == [] then rules
    else Deriv(After(rules, p[..|p| - 1]), p[|p| - 1])
  }

  function Tail(r: PathRule, p: seq<Name>): seq<PathRule>
  {
    if p <= r.comps then [PathRule(r.comps[|p|..], r.allow)] else []
  }

  /** The decision of the deepest prefix of `p` at which a rule ends. */
  function Deepest(rules: seq<PathRule>, p: seq<Name>): Option<bool>
    decreases |p|
  {
    Or(Ends(After(rules, p)), if p == [] then None else Deepest(rules, p[..|p| - 1]))
  }

  lemma DerivSnoc(rules: seq<PathRule>, r: PathRule, c: Name)
    ensures Deriv(rules + [r], c) == Deriv(rules, c) + Head(r, c)
  {
    assert (rules + [r])[..|rules|] == rules;
  }

  lemma EndsSnoc(rules: seq<PathRule>, r: PathRule)
    ensures Ends(rules + [r]) == if r.comps == [] then Some(r.allow) else Ends(rules)
  {
    assert (rules + [r])[..|rules|] == rules;
  }

  lemma TailSnoc(r: PathRule, q: seq<Name>, c: Name)
    ensures Tail(r, q + [c]) ==
            if q <= r.comps then Head(PathRule(r.comps[|q|..], r.allow), c) else []
  {
    var p := q + [c];
    assert p[..|q|] == q;
    if p <= r.comps {
      assert r.comps[..|q|] == q;
      assert r.comps[|q|] == p[|q|];
      assert r.comps[|q|..][1..] == r.comps[|p|..];
    }
  }

  lemma {:induction false} AfterSnoc(rules: seq<PathRule>, r: PathRule, p: seq<Name>)
    ensures After(rules + [r], p) == After(rules, p) + Tail(r, p)
    decreases |p|
  {
    if p == [] {
      assert r.comps[0..] == r.comps;
    } else {
      var q, c := p[..|p| - 1], p[|p| - 1];
      assert p == q + [c];
      AfterSnoc(rules, r, q);
      TailSnoc(r, q, c);
      if q <= r.comps {
        DerivSnoc(After(rules, q), PathRule(r.comps[|q|..], r.allow), c);
      } else {
        assert After(rules, q) + [] == After(rules, q);
      }
    }
  }

  lemma {:induction false} AfterMember(rules: seq<PathRule>, p: seq<Name>, x: PathRule)
    ensures x in After(rules, p) <==> exists i :: 0 <= i < |rules| && x in Tail(rules[i], p)
  {
    if rules == [] {
      AfterNil(p);
    } else {
      var init, r := rules[..|rules| - 1], rules[|rules| - 1];
      assert rules == init + [r];
      AfterSnoc(init, r, p);
      AfterMember(init, p, x);
    }
  }

  lemma {:induction false} AfterNil(p: seq<Name>)
    ensures After([], p) == []
    decreases |p|
  {
    if p != [] { AfterNil(p[..|p| - 1]); }
  }

  /** A prefix is still alive exactly when some rule runs through it. */
  lemma AfterAlive(rules: seq<PathRule>, p: seq<Name>)
    ensures After(rules, p) != [] <==> exists i :: 0 <= i < |rules| && p <= rules[i].comps
  {
    if After(rules, p) != [] {
      AfterMember(rules, p, After(rules, p)[0]);
    }
    forall i | 0 <= i < |rules| && p <= rules[i].comps
      ensures After(rules, p) != []
    {
      AfterMember(rules, p, Tail(rules[i], p)[0]);
    }
  }

  lemma {:induction false} EndsSome(rules: seq<PathRule>)
    ensures Ends(rules).Some? <==> exists i :: 0 <= i < |rules| && rules[i].comps == []
  {
    if rules != [] { EndsSome(rules[..|rules| - 1]); }
  }

  lemma {:induction false} DerivAlive(rules: seq<PathRule>, c: Name)
    ensures Deriv(rules, c) != [] <==>
            exists i :: 0 <= i < |rules| && rules[i].comps != [] && rules[i].comps[0] == c
  {
    if rules != [] { DerivAlive(rules[..|rules| - 1], c); }
  }

  lemma LiveIffDeriv(rules: seq<PathRule>)
    ensures HasLive(rules) <==> exists c :: Deriv(rules, c) != []
  {
    if HasLive(rules) {
      var i :| 0 <= i < |rules| && rules[i].comps != [];
      DerivAlive(rules, rules[i].comps[0]);
    }
    forall c | Deriv(rules, c) != [] ensures HasLive(rules) {
      DerivAlive(rules, c);
    }
  }
}
