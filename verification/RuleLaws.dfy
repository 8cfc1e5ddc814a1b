/** Laws of the reference meaning that a policy author relies on. */
module RuleLaws {
  import opened Base
  import opened Rules
  import opened Table
  import opened Trie
  import opened RoleEncoder

  // ---- longest prefix ----

  predicate StarFree(rules: seq<PathRule>)
  {
    forall i :: 0 <= i < |rules| ==> STAR !in rules[i].comps
  }

  /** Rule `i` names a prefix of the path. */
  predicate Covers(rules: seq<PathRule>, path: seq<Name>, i: int)
  {
    0 <= i < |rules| && rules[i].comps != [] && IsPrefix(rules[i].comps, path)
  }

  /** Rule `i` is the deepest that covers the path, and the last listed of those that deep. */
  predicate DeepestCover(rules: seq<PathRule>, path: seq<Name>, i: int)
  {
    && Covers(rules, path, i)
    && forall j :: 0 <= j < |rules| && Covers(rules, path, j) ==>
         |rules[j].comps| < |rules[i].comps| || (|rules[j].comps| == |rules[i].comps| && j <= i)
  }

  /** The decision of the deepest prefix of the path, as the trie sees it. */
  lemma {:induction false} MeaningIsDeepest(rs: seq<PathRule>, path: seq<Name>, k: nat)
    requires StarFree(rs)
    requires k <= |path|
    requires Alive(rs, path[..k])
    ensures Meaning(After(rs, path[..k]), if k == 0 then None else Deepest(rs, path[..k - 1]), path[k..])
         == Deepest(rs, path)
    decreases |path| - k
  {
    hide Deriv, Ends, After, StarFree, HasLive;
    var p := path[..k];
    var left := After(rs, p);
    assert k > 0 ==> p[..k - 1] == path[..k - 1];
    NoStarLeft(rs, p);
    LiveIffDeriv(left);
    if !HasLive(left) || k == |path| {
      DeadBelow(rs, path, k);
    } else {
      var c := path[k];
      assert path[k..][0] == c && path[k..][1..] == path[k + 1..];
      assert path[..k + 1] == p + [c];
      AfterStep(rs, p, c);
      if Deriv(left, c) != [] {
        MeaningIsDeepest(rs, path, k + 1);
      } else {
        DeadBelow(rs, path, k);
      }
    }
  }

  lemma NoStarLeft(rs: seq<PathRule>, p: seq<Name>)
    requires StarFree(rs)
    ensures Deriv(After(rs, p), STAR) == []
  {
    AfterStep(rs, p, STAR);
    AfterAlive(rs, p + [STAR]);
    assert (p + [STAR])[|p|] == STAR;
  }

  /** Where no rule runs on along the path, nothing deeper on it decides. */
  lemma {:induction false} DeadBelow(rs: seq<PathRule>, path: seq<Name>, k: nat)
    requires k <= |path|
    requires k == |path| || Deriv(After(rs, path[..k]), path[k]) == []
    ensures Deepest(rs, path) == Deepest(rs, path[..k])
  {
    hide Deriv, After;
    if k == |path| {
      assert path[..k] == path;
    } else {
      DeadAfter(rs, path, k, |path|);
      var q := path[..|path| - 1];
      assert path[..|path|] == path;
      if k < |q| {
        assert q[..k] == path[..k];
        DeadBelow(rs, q, k);
      } else {
        assert q == path[..k];
      }
    }
  }

  lemma {:induction false} DeadAfter(rs: seq<PathRule>, path: seq<Name>, k: nat, m: nat)
    requires k < m <= |path|
    requires Deriv(After(rs, path[..k]), path[k]) == []
    ensures After(rs, path[..m]) == []
  {
    hide After;
    assert path[..m] == path[..m - 1] + [path[m - 1]];
    AfterStep(rs, path[..m - 1], path[m - 1]);
    if m > k + 1 { DeadAfter(rs, path, k, m - 1); }
  }

  lemma {:induction false} EndsIsLast(rules: seq<PathRule>, p: seq<Name>)
    ensures Ends(After(rules, p)).Some? ==>
              exists i :: 0 <= i < |rules| && rules[i].comps == p && Ends(After(rules, p)) == Some(rules[i].allow)
                          && forall j :: i < j < |rules| ==> rules[j].comps != p
    ensures Ends(After(rules, p)).None? ==> forall j :: 0 <= j < |rules| ==> rules[j].comps != p
  {
    if rules == [] {
      AfterNil(p);
    } else {
      var init, r := rules[..|rules| - 1], rules[|rules| - 1];
      assert rules == init + [r];
      EndsIsLast(init, p);
      EndsGrows(init, r, p);
      if r.comps != p && Ends(After(init, p)).Some? {
        var i :| 0 <= i < |init| && init[i].comps == p && Ends(After(init, p)) == Some(init[i].allow)
                 && forall j :: i < j < |init| ==> init[j].comps != p;
        assert rules[i] == init[i];
        assert forall j :: i < j < |rules| ==> rules[j].comps != p;
      }
    }
  }

  lemma {:induction false} NamedEnds(rules: seq<PathRule>, p: seq<Name>)
    requires p != []
    ensures Ends(After(Named(rules), p)) == Ends(After(rules, p))
  {
    if rules == [] {
      AfterNil(p);
    } else {
      var init, r := rules[..|rules| - 1], rules[|rules| - 1];
      assert rules == init + [r];
      NamedEnds(init, p);
      EndsGrows(init, r, p);
      EndsGrows(Named(init), r, p);
    }
  }

  lemma {:induction false} DeepestIsCover(rules: seq<PathRule>, path: seq<Name>)
    ensures match Deepest(Named(rules), path)
            case Some(d) => exists i :: DeepestCover(rules, path, i) && d == rules[i].allow
            case None => forall i :: !Covers(rules, path, i)
    decreases |path|
  {
    var rs := Named(rules);
    if path == [] {
      EndsSome(rs);
      assert forall i :: 0 <= i < |rs| ==> rs[i] in rs;
    } else {
      NamedEnds(rules, path);
      EndsIsLast(rules, path);
      if Ends(After(rs, path)).Some? {
        var i :| 0 <= i < |rules| && rules[i].comps == path && Ends(After(rules, path)) == Some(rules[i].allow)
                 && forall j :: i < j < |rules| ==> rules[j].comps != path;
        forall j | 0 <= j < |rules| && Covers(rules, path, j)
          ensures |rules[j].comps| < |path| || (|rules[j].comps| == |path| && j <= i)
        {
          assert |rules[j].comps| == |path| ==> rules[j].comps == path;
        }
        assert DeepestCover(rules, path, i);
      } else {
        var q := path[..|path| - 1];
        DeepestIsCover(rules, q);
        forall j ensures Covers(rules, path, j) <==> Covers(rules, q, j) {
          if 0 <= j < |rules| { PrefixOfInit(rules[j].comps, path); }
        }
        if Deepest(rs, q).Some? {
          var i :| DeepestCover(rules, q, i) && Deepest(rs, q).value == rules[i].allow;
          assert DeepestCover(rules, path, i);
        }
      }
    }
  }

  /**
   Longest prefix wins: without `*`, the verdict is that of the deepest rule that
   names a prefix of the path, the last listed among equals, and there is no rule
   exactly when none does.
   */
  lemma LongestPrefix(rules: seq<PathRule>, path: seq<Name>)
    requires StarFree(rules) && path != []
    ensures match Verdict(rules, path)
            case Some(d) => exists i :: DeepestCover(rules, path, i) && d == rules[i].allow
            case None => forall i :: !Covers(rules, path, i)
  {
    var rs := Named(rules);
    forall i | 0 <= i < |rs| ensures STAR !in rs[i].comps { assert rs[i] in rules; }
    assert path[..0] == [] && path[0..] == path;
    MeaningIsDeepest(rs, path, 0);
    DeepestIsCover(rules, path);
  }

  lemma PrefixOfInit(a: seq<Name>, path: seq<Name>)
    requires path != []
    ensures IsPrefix(a, path) <==> a == path || IsPrefix(a, path[..|path| - 1])
  {
    if IsPrefix(a, path) && a != path {
      assert a == path[..|a|] == path[..|path| - 1][..|a|];
    }
  }

  // ---- the order of the list ----

  ghost predicate SameRules(a: seq<PathRule>, b: seq<PathRule>)
  {
    forall r :: r in a <==> r in b
  }

  /** No two rules say different things about the same components. */
  ghost predicate Consistent(rules: seq<PathRule>)
  {
    forall r, s :: r in rules && s in rules && r.comps == s.comps ==> r.allow == s.allow
  }

  lemma {:induction false} DerivMember(rules: seq<PathRule>, c: Name, x: PathRule)
    ensures x in Deriv(rules, c) <==> PathRule([c] + x.comps, x.allow) in rules
  {
    if rules != [] {
      var init, r := rules[..|rules| - 1], rules[|rules| - 1];
      DerivMember(init, c, x);
      var y := PathRule([c] + x.comps, x.allow);
      assert y in rules <==> y in init || y == r;
      assert x in Head(r, c) <==> y == r by {
        if r.comps != [] && r.comps[0] == c {
          assert r.comps == [c] + r.comps[1..];
          assert y.comps[1..] == x.comps;
        }
      }
    }
  }

  lemma {:induction false} EndsByMember(rules: seq<PathRule>, d: bool)
    requires Consistent(rules)
    ensures Ends(rules) == Some(d) <==> PathRule([], d) in rules
  {
    if rules != [] {
      var init, r := rules[..|rules| - 1], rules[|rules| - 1];
      assert forall x :: x in rules <==> x in init || x == r;
      EndsByMember(init, d);
    }
  }

  lemma EndsSame(a: seq<PathRule>, b: seq<PathRule>)
    requires SameRules(a, b) && Consistent(a)
    ensures Ends(a) == Ends(b)
  {
    if Ends(a).Some? {
      EndsByMember(a, Ends(a).value);
      EndsByMember(b, Ends(a).value);
    } else if Ends(b).Some? {
      EndsByMember(a, Ends(b).value);
      EndsByMember(b, Ends(b).value);
    }
  }

  lemma DerivSame(a: seq<PathRule>, b: seq<PathRule>, c: Name)
    requires SameRules(a, b) && Consistent(a)
    ensures SameRules(Deriv(a, c), Deriv(b, c)) && Consistent(Deriv(a, c))
    ensures Deriv(a, c) == [] <==> Deriv(b, c) == []
  {
    forall x ensures x in Deriv(a, c) <==> PathRule([c] + x.comps, x.allow) in a { DerivMember(a, c, x); }
    forall x ensures x in Deriv(b, c) <==> PathRule([c] + x.comps, x.allow) in b { DerivMember(b, c, x); }
    assert Deriv(a, c) != [] ==> Deriv(a, c)[0] in Deriv(b, c);
    assert Deriv(b, c) != [] ==> Deriv(b, c)[0] in Deriv(a, c);
  }

  lemma LiveSame(a: seq<PathRule>, b: seq<PathRule>)
    requires SameRules(a, b)
    ensures HasLive(a) <==> HasLive(b)
  {
    assert forall i :: 0 <= i < |a| ==> a[i] in b;
    assert forall i :: 0 <= i < |b| ==> b[i] in a;
  }

  lemma {:induction false} MeaningSame(a: seq<PathRule>, b: seq<PathRule>, inherited: Option<bool>, path: seq<Name>)
    requires SameRules(a, b) && Consistent(a)
    ensures Meaning(a, inherited, path) == Meaning(b, inherited, path)
    decreases |path|
  {
    EndsSame(a, b);
    LiveSame(a, b);
    DerivSame(a, b, STAR);
    EndsSame(Deriv(a, STAR), Deriv(b, STAR));
    LiveSame(Deriv(a, STAR), Deriv(b, STAR));
    if path != [] {
      var effective := Or(Ends(a), inherited);
      DerivSame(a, b, path[0]);
      MeaningSame(Deriv(a, path[0]), Deriv(b, path[0]), effective, path[1..]);
      MeaningSame(Deriv(a, STAR), Deriv(b, STAR), effective, path[1..]);
    }
  }

  /** A list that does not contradict itself means the same in any order, and is refused in any order. */
  lemma OrderDoesNotMatter(a: seq<PathRule>, b: seq<PathRule>, path: seq<Name>)
    requires SameRules(a, b) && Consistent(a)
    ensures Verdict(a, path) == Verdict(b, path)
    ensures Clash(Named(a)) <==> Clash(Named(b))
  {
    var x, y := Named(a), Named(b);
    MeaningSame(x, y, None, path);
    ClashSame(x, y);
    ClashSame(y, x);
  }

  lemma ClashSame(a: seq<PathRule>, b: seq<PathRule>)
    requires SameRules(a, b)
    ensures Clash(a) ==> Clash(b)
  {
    if i, j :| 0 <= i < |a| && 0 <= j < |a| && Overlap(a[i].comps, a[j].comps) {
      assert a[i] in b && a[j] in b;
      var i' :| 0 <= i' < |b| && b[i'] == a[i];
      var j' :| 0 <= j' < |b| && b[j'] == a[j];
      assert Overlap(b[i'].comps, b[j'].comps);
    }
  }
}
