/**
 What capping the hash at 64 bytes means for the table: when prefixes can share a
 state, and what a table with shared states answers.
 */
module LongPaths {
  import opened Base
  import opened Patterns
  import opened Rules
  import opened Table
  import opened Trie
  import opened RoleEncoder
  import opened Walk
  import opened Hash
  import opened OneRule

  // ---- the text of a prefix determines it ----

  predicate SlashFree(p: seq<Name>)
  {
    forall i :: 0 <= i < |p| ==> SLASH !in p[i]
  }

  lemma LastSlash(a: Name, b: Name, c: Name, d: Name)
    requires SLASH !in b && SLASH !in d
    requires a + [SLASH] + b == c + [SLASH] + d
    ensures a == c && b == d
  {
    var s, t := a + [SLASH] + b, c + [SLASH] + d;
    assert s[|a|] == SLASH && t[|c|] == SLASH;
    assert forall i :: |a| < i < |s| ==> s[i] == b[i - |a| - 1];
    assert forall i :: |c| < i < |t| ==> t[i] == d[i - |c| - 1];
    assert |a| == |c|;
    assert a == s[..|a|] && c == t[..|c|];
    assert b == s[|a| + 1..] && d == t[|c| + 1..];
  }

  lemma {:induction false} JoinedInjective(p: seq<Name>, q: seq<Name>)
    requires p != [] && q != [] && SlashFree(p) && SlashFree(q)
    requires Joined(p) == Joined(q)
    ensures p == q
    decreases |p|
  {
    assert (|p| > 1 ==> SLASH in Joined(p)) && (|q| > 1 ==> SLASH in Joined(q));
    if |p| > 1 && |q| > 1 {
      var p', q' := p[..|p| - 1], q[..|q| - 1];
      LastSlash(Joined(p'), p[|p| - 1], Joined(q'), q[|q| - 1]);
      JoinedInjective(p', q');
      assert p == p' + [p[|p| - 1]] && q == q' + [q[|q| - 1]];
    }
  }

  /** Two prefixes of a role with the same text are the same prefix. */
  lemma StateTextInjective(role: nat, p: seq<Name>, q: seq<Name>)
    requires p != [] && q != [] && SlashFree(p) && SlashFree(q)
    requires StateText(role, p) == StateText(role, q)
    ensures p == q
  {
    hide Joined, Decimal;
    var before := Decimal(role) + [COLON];
    assert Joined(p) == StateText(role, p)[|before|..] && Joined(q) == StateText(role, q)[|before|..];
    JoinedInjective(p, q);
  }

  /** A longer prefix has a longer text, which starts with the shorter one's. */
  lemma {:induction false} TextGrows(role: nat, p: seq<Name>, i: nat)
    requires 0 < i < |p|
    ensures |StateText(role, p[..i])| < |StateText(role, p)| && StateText(role, p[..i]) <= StateText(role, p)
    decreases |p|
  {
    hide Decimal;
    var init := p[..|p| - 1];
    assert StateText(role, p) == StateText(role, init) + [SLASH] + p[|p| - 1];
    if i < |init| {
      assert init[..i] == p[..i];
      TextGrows(role, init, i);
    } else {
      assert init == p[..i];
    }
  }

  // ---- the collision premise, split into what a caller can check and what rests on the digest ----

  ghost predicate HasText(rs: seq<PathRule>, p: seq<Name>)
  {
    p != [] && Inner(rs, p)
  }

  /** What is hashed of the texts tells the prefixes apart. */
  ghost predicate TextsApart(role: nat, rs: seq<PathRule>)
  {
    forall p, q :: HasText(rs, p) && HasText(rs, q) && Hashed(StateText(role, p)) == Hashed(StateText(role, q)) ==>
      p == q
  }

  /** The digest does not collide on different inputs, nor hit the root's state. */
  ghost predicate DigestsApart(role: nat, rs: seq<PathRule>)
  {
    && (forall p :: HasText(rs, p) ==> Digest(StateText(role, p)) != 0)
    && (forall p, q :: HasText(rs, p) && HasText(rs, q) && Digest(StateText(role, p)) == Digest(StateText(role, q)) ==>
          Hashed(StateText(role, p)) == Hashed(StateText(role, q)))
  }

  /** Some rule goes on from an inner prefix. */
  lemma InnerOfRule(rs: seq<PathRule>, p: seq<Name>) returns (j: nat)
    requires Inner(rs, p)
    ensures j < |rs| && |p| < |rs[j].comps| && p == rs[j].comps[..|p|]
  {
    hide After, Deriv, HasLive;
    LiveIffDeriv(After(rs, p));
    var c :| Deriv(After(rs, p), c) != [];
    AfterStep(rs, p, c);
    AfterAlive(rs, p + [c]);
    j :| 0 <= j < |rs| && p + [c] <= rs[j].comps;
    assert p == (p + [c])[..|p|] == rs[j].comps[..|p|];
  }

  lemma RootIsInner(rs: seq<PathRule>, p: seq<Name>)
    requires Inner(rs, p)
    ensures Inner(rs, [])
  {
    var j := InnerOfRule(rs, p);
  }

  lemma SameInputSameDigest(a: Name, b: Name)
    requires Hashed(a) == Hashed(b)
    ensures Digest(a) == Digest(b)
  {
  }

  /** States are apart exactly when the hashed texts are and the digest does not collide on them. */
  lemma StatesApartIff(role: nat, rs: seq<PathRule>)
    ensures StatesApart(Fnv(), role, rs) <==> TextsApart(role, rs) && DigestsApart(role, rs)
  {
    hide Digest, Hashed, StateText, Inner;
    if StatesApart(Fnv(), role, rs) {
      forall p, q | HasText(rs, p) && HasText(rs, q) && Hashed(StateText(role, p)) == Hashed(StateText(role, q))
        ensures p == q
      {
        SameInputSameDigest(StateText(role, p), StateText(role, q));
      }
      forall p | HasText(rs, p) ensures Digest(StateText(role, p)) != 0 {
        RootIsInner(rs, p);
        assert StateAfter(Fnv(), role, p) == Digest(StateText(role, p));
      }
    }
  }

  /** What a caller can check of the list: no pattern's last directory has a text of more than 64 bytes. */
  predicate ShortDirectories(role: nat, raw: seq<RawRule>)
  {
    forall i :: 0 <= i < |raw| ==> ShortDirectory(role, PatternComponents(raw[i].pattern))
  }

  predicate ShortDirectory(role: nat, comps: seq<Name>)
  {
    |comps| >= 2 ==> |StateText(role, comps[..|comps| - 1])| <= 64
  }

  lemma InnerOfPattern(raw: seq<RawRule>, p: seq<Name>) returns (i: nat)
    requires Inner(Effectual(raw), p)
    ensures i < |raw| && |p| < |PatternComponents(raw[i].pattern)| && p == PatternComponents(raw[i].pattern)[..|p|]
  {
    hide PatternComponents, Inner, Named;
    var rs := Effectual(raw);
    var j := InnerOfRule(rs, p);
    assert rs[j] in rs && rs[j] in Parsed(raw);
    i :| 0 <= i < |raw| && Parsed(raw)[i] == rs[j];
  }

  lemma ShortText(role: nat, raw: seq<RawRule>, p: seq<Name>)
    requires ShortDirectories(role, raw) && HasText(Effectual(raw), p)
    ensures |StateText(role, p)| <= 64 && SlashFree(p)
  {
    hide PatternComponents, StateText, Effectual, Inner;
    var i := InnerOfPattern(raw, p);
    var comps := PatternComponents(raw[i].pattern);
    ComponentsAreUsable(raw[i].pattern);
    assert forall j :: 0 <= j < |p| ==> p[j] == comps[j] && comps[j] in comps;
    var directory := comps[..|comps| - 1];
    assert ShortDirectory(role, comps);
    assert p == directory[..|p|];
    if |p| < |directory| { TextGrows(role, directory, |p|); }
  }

  lemma ShortTextsApart(role: nat, raw: seq<RawRule>)
    requires ShortDirectories(role, raw)
    ensures TextsApart(role, Effectual(raw))
  {
    hide StateText, Effectual, Inner, ShortDirectories;
    var rs := Effectual(raw);
    forall p, q | HasText(rs, p) && HasText(rs, q) && Hashed(StateText(role, p)) == Hashed(StateText(role, q))
      ensures p == q
    {
      ShortText(role, raw, p);
      ShortText(role, raw, q);
      StateTextInjective(role, p, q);
    }
  }

  /**
   For a list of short directories the premise of the compiler theorem is about the
   digest alone: two prefixes share a state only if two different texts, both hashed
   in full, collide.
   */
  lemma ShortListsRestOnTheDigest(role: nat, raw: seq<RawRule>, path: seq<Name>)
    requires ShortDirectories(role, raw)
    ensures CollisionFree(Fnv(), role, Effectual(raw), path)
       <==> NamesApart(Fnv(), Effectual(raw), path) && DigestsApart(role, Effectual(raw))
    ensures forall p :: HasText(Effectual(raw), p) ==> Hashed(StateText(role, p)) == StateText(role, p)
  {
    hide Effectual, NamesApart, TextsApart, DigestsApart, StatesApart, ShortDirectories, StateText;
    ShortTextsApart(role, raw);
    StatesApartIff(role, Effectual(raw));
    forall p | HasText(Effectual(raw), p) ensures Hashed(StateText(role, p)) == StateText(role, p) {
      ShortText(role, raw, p);
    }
  }

  // ---- one rule whose prefixes share a state ----

  /** From depth `k` on the inner prefixes of the rule share one state, and no others do. */
  ghost predicate Merged(h: Hashing, role: nat, comps: seq<Name>, k: nat)
  {
    forall i, j :: 0 <= i < j < |comps| ==>
      (StateAfter(h, role, comps[..i]) == StateAfter(h, role, comps[..j]) <==> k <= i)
  }

  /** Every row of the role comes from some component, and every component's key has a row. */
  ghost predicate RowsAlong(h: Hashing, role: nat, comps: seq<Name>, allow: bool, rows: Rows)
  {
    && (forall i :: 0 <= i < |comps| ==> EntryOn(h, role, comps, allow, i).key in rows)
    && (forall k :: k in rows && k.role == role ==>
          exists i :: 0 <= i < |comps| && EntryOn(h, role, comps, allow, i) == Entry(k, rows[k]))
  }

  lemma WrittenAlong(h: Hashing, role: nat, comps: seq<Name>, allow: bool, entries: seq<Entry>, slots: seq<Slot>,
                     bare: Rows)
    requires comps != [] && IsTable(h, role, Single(comps, allow), entries, slots)
    requires forall x :: x in bare ==> x.role != role
    ensures RowsAlong(h, role, comps, allow, WriteAll(bare, entries))
  {
    hide IsTable, WriteAll;
    var rows := WriteAll(bare, entries);
    forall i | 0 <= i < |comps| ensures EntryOn(h, role, comps, allow, i).key in rows {
      SingleRows(h, role, comps, allow, entries, slots, bare, EntryOn(h, role, comps, allow, i).key);
    }
    forall k | k in rows && k.role == role
      ensures exists i :: 0 <= i < |comps| && EntryOn(h, role, comps, allow, i) == Entry(k, rows[k])
    {
      SingleRows(h, role, comps, allow, entries, slots, bare, k);
    }
  }

  /** Above the shared state each component leads on to the next prefix. */
  lemma StepDown(h: Hashing, role: nat, comps: seq<Name>, allow: bool, rows: Rows, k: nat, i: nat)
    requires RowsAlong(h, role, comps, allow, rows) && Merged(h, role, comps, k)
    requires NamesApart(h, Single(comps, allow), comps)
    requires i < k < |comps|
    ensures var found := Find(rows, role, StateAfter(h, role, comps[..i]), h.comp(comps[i]));
            found.Some? && !found.value.terminal && found.value.next == StateAfter(h, role, comps[..i + 1])
  {
    hide StateAfter, NamesApart;
    var state, hash := StateAfter(h, role, comps[..i]), h.comp(comps[i]);
    assert Mentioned(Single(comps, allow), comps, comps[i]);
    NotZero(h, Single(comps, allow), comps, comps[i]);
    assert EntryOn(h, role, comps, allow, i).key == Key(role, state, if comps[i] == STAR then 0 else hash);
    var key := if Key(role, state, hash) in rows then Key(role, state, hash) else Key(role, state, 0);
    var j :| 0 <= j < |comps| && EntryOn(h, role, comps, allow, j) == Entry(key, rows[key]);
    assert StateAfter(h, role, comps[..j]) == state;
    assert j == i;
  }

  lemma NotZero(h: Hashing, rs: seq<PathRule>, path: seq<Name>, c: Name)
    requires NamesApart(h, rs, path) && Mentioned(rs, path, c)
    ensures h.comp(c) != 0
  {
  }

  lemma {:induction false} WalkDown(h: Hashing, role: nat, comps: seq<Name>, allow: bool, rows: Rows, k: nat, i: nat,
                                    path: seq<Name>)
    requires RowsAlong(h, role, comps, allow, rows) && Merged(h, role, comps, k)
    requires NamesApart(h, Single(comps, allow), comps)
    requires i <= k < |comps| && k <= |path| && path[..k] == comps[..k]
    ensures WalkFrom(rows, role, StateAfter(h, role, comps[..i]), Hashes(h, path[i..]))
         == WalkFrom(rows, role, StateAfter(h, role, comps[..k]), Hashes(h, path[k..]))
    decreases k - i
  {
    hide StateAfter, NamesApart, RowsAlong, Merged, Find;
    if i < k {
      StepDown(h, role, comps, allow, rows, k, i);
      assert path[..k][i] == comps[i];
      assert path[i..][0] == comps[i] && path[i..][1..] == path[i + 1..];
      WalkDown(h, role, comps, allow, rows, k, i + 1, path);
    }
  }

  /** A state all of whose rows lead back to it never answers. */
  lemma {:induction false} Stuck(rows: Rows, role: nat, state: bv64, hashes: seq<bv64>)
    requires forall k :: k in rows && k.role == role && k.state == state ==> !rows[k].terminal && rows[k].next == state
    ensures WalkFrom(rows, role, state, hashes) == NO_RULE
    decreases |hashes|
  {
    if hashes != [] { Stuck(rows, role, state, hashes[1..]); }
  }

  /** The shared state's row for the last component, if it is terminal, carries the rule's decision. */
  lemma LastRow(h: Hashing, role: nat, comps: seq<Name>, allow: bool, rows: Rows, k: nat)
    requires RowsAlong(h, role, comps, allow, rows) && Merged(h, role, comps, k)
    requires k + 1 < |comps|
    ensures var state := StateAfter(h, role, comps[..k]);
            var last := Key(role, state, EdgeHash(h, comps[|comps| - 1]));
            && last in rows && (rows[last].terminal ==> rows[last].decision == allow)
            && (!rows[last].terminal ==>
                  forall x :: x in rows && x.role == role && x.state == state ==>
                    !rows[x].terminal && rows[x].next == state)
  {
    hide StateAfter, EdgeHash;
    var n, state := |comps| - 1, StateAfter(h, role, comps[..k]);
    var last := Key(role, state, EdgeHash(h, comps[n]));
    assert EntryOn(h, role, comps, allow, n).key == last;
    var m :| 0 <= m < |comps| && EntryOn(h, role, comps, allow, m) == Entry(last, rows[last]);
    forall x | x in rows && x.role == role && x.state == state && !rows[last].terminal
      ensures !rows[x].terminal && rows[x].next == state
    {
      var j :| 0 <= j < |comps| && EntryOn(h, role, comps, allow, j) == Entry(x, rows[x]);
      assert StateAfter(h, role, comps[..j]) == state;
      assert j >= k && j != n;
    }
  }

  ghost predicate Right(h: Hashing, role: nat, rules: seq<PathRule>, rows: Rows, path: seq<Name>)
  {
    WalkFrom(rows, role, 0, Hashes(h, path)) == Out(Verdict(rules, path))
  }

  /**
   A rule with two prefixes at one state is answered wrongly, whichever order its rows
   were written in: either the shared prefix followed by the rule's last component
   (or, for a final `*`, the shared prefix itself) is decided, or the rule's own path is not.
   */
  lemma MergedIsWrong(h: Hashing, role: nat, comps: seq<Name>, allow: bool, rows: Rows, k: nat)
    returns (path: seq<Name>)
    requires RowsAlong(h, role, comps, allow, rows) && Merged(h, role, comps, k)
    requires NamesApart(h, Single(comps, allow), comps)
    requires 0 < k && k + 1 < |comps|
    ensures path != [] && (forall c :: c in path ==> c in comps)
    ensures !Right(h, role, Single(comps, allow), rows, path)
  {
    hide StateAfter, NamesApart, RowsAlong, Merged, Meaning, Verdict;
    var state, y := StateAfter(h, role, comps[..k]), comps[|comps| - 1];
    var last := Key(role, state, EdgeHash(h, y));
    LastRow(h, role, comps, allow, rows, k);
    if rows[last].terminal {
      path := if y == STAR then comps[..k] else comps[..k] + [y];
      SilentAbove(comps, allow, path);
      assert path[..k] == comps[..k];
      assert path[k..] == if y == STAR then [] else [y];
    } else {
      path := comps;
      DecidesItself(comps, allow);
      Stuck(rows, role, state, Hashes(h, path[k..]));
    }
    assert path[0..] == path;
    WalkDown(h, role, comps, allow, rows, k, 0, path);
    SingleVerdict(comps, allow, path);
    assert StateAfter(h, role, comps[..0]) == 0 by { RootState(h, role, comps); }
  }

  lemma RootState(h: Hashing, role: nat, comps: seq<Name>)
    ensures StateAfter(h, role, comps[..0]) == 0
  {
  }

  lemma SingleVerdict(comps: seq<Name>, allow: bool, path: seq<Name>)
    requires comps != [] && path != []
    ensures Verdict(Single(comps, allow), path) == Meaning(Single(comps, allow), None, path)
  {
    assert Single(comps, allow)[..0] == [];
    assert Named([]) == [];
    assert Named(Single(comps, allow)) == Single(comps, allow);
  }

  // ---- exactly which single rules are answered rightly ----

  /** Two of the pattern's inner prefixes have texts of 64 bytes or more. */
  predicate TwoDeepPrefixes(role: nat, comps: seq<Name>)
  {
    |comps| >= 3 && |StateText(role, comps[..|comps| - 2])| >= 64
  }

  lemma TextsInOrder(role: nat, comps: seq<Name>, i: nat, j: nat)
    requires 0 < i < j <= |comps|
    ensures |StateText(role, comps[..i])| < |StateText(role, comps[..j])|
    ensures StateText(role, comps[..i]) <= StateText(role, comps[..j])
  {
    assert comps[..j][..i] == comps[..i];
    TextGrows(role, comps[..j], i);
  }

  /** Of two prefixes of a rule the hashed texts agree exactly when the shorter one fills the hash. */
  lemma HashedAgree(role: nat, comps: seq<Name>, i: nat, j: nat)
    requires 0 < i < j <= |comps|
    ensures Hashed(StateText(role, comps[..i])) == Hashed(StateText(role, comps[..j]))
       <==> |StateText(role, comps[..i])| >= 64
  {
    hide StateText;
    TextsInOrder(role, comps, i, j);
  }

  /** The depth at which the texts first fill the hash. */
  lemma FirstDeep(role: nat, comps: seq<Name>) returns (k: nat)
    requires TwoDeepPrefixes(role, comps)
    ensures 0 < k && k + 1 < |comps|
    ensures forall i :: 0 < i < |comps| ==> (|StateText(role, comps[..i])| >= 64 <==> k <= i)
  {
    hide StateText;
    k := |comps| - 2;
    while k > 1 && |StateText(role, comps[..k - 1])| >= 64
      invariant 0 < k < |comps| - 1 && |StateText(role, comps[..k])| >= 64
    {
      k := k - 1;
    }
    forall i | 0 < i < |comps| ensures |StateText(role, comps[..i])| >= 64 <==> k <= i {
      if k < i { TextsInOrder(role, comps, k, i); }
      if i < k - 1 { TextsInOrder(role, comps, i, k - 1); }
    }
  }

  lemma DeepIsMerged(role: nat, comps: seq<Name>, allow: bool, k: nat)
    requires 0 < k && DigestsApart(role, Single(comps, allow))
    requires forall i :: 0 < i < |comps| ==> (|StateText(role, comps[..i])| >= 64 <==> k <= i)
    ensures Merged(Fnv(), role, comps, k)
  {
    hide StateText, Digest, Inner, Hashed;
    var rs := Single(comps, allow);
    forall i, j | 0 <= i < j < |comps|
      ensures StateAfter(Fnv(), role, comps[..i]) == StateAfter(Fnv(), role, comps[..j]) <==> k <= i
    {
      InnerSingle(comps, allow, comps[..j]);
      assert HasText(rs, comps[..j]);
      if i > 0 {
        InnerSingle(comps, allow, comps[..i]);
        assert HasText(rs, comps[..i]);
        HashedAgree(role, comps, i, j);
        if k <= i { SameInputSameDigest(StateText(role, comps[..i]), StateText(role, comps[..j])); }
      }
    }
  }

  lemma ShallowTextsApart(role: nat, comps: seq<Name>, allow: bool)
    requires !TwoDeepPrefixes(role, comps)
    ensures TextsApart(role, Single(comps, allow))
  {
    hide StateText, Inner, Hashed;
    var rs := Single(comps, allow);
    forall p, q | HasText(rs, p) && HasText(rs, q) && Hashed(StateText(role, p)) == Hashed(StateText(role, q))
      ensures p == q
    {
      InnerSingle(comps, allow, p);
      InnerSingle(comps, allow, q);
      if |p| < |q| {
        ShallowPair(role, comps, |p|, |q|);
      } else if |q| < |p| {
        ShallowPair(role, comps, |q|, |p|);
      }
    }
  }

  lemma ShallowPair(role: nat, comps: seq<Name>, i: nat, j: nat)
    requires !TwoDeepPrefixes(role, comps) && 0 < i < j < |comps|
    ensures Hashed(StateText(role, comps[..i])) != Hashed(StateText(role, comps[..j]))
  {
    hide StateText, Hashed;
    HashedAgree(role, comps, i, j);
    if i < |comps| - 2 { TextsInOrder(role, comps, i, |comps| - 2); }
  }

  lemma FewerNames(h: Hashing, rs: seq<PathRule>, path: seq<Name>, less: seq<Name>)
    requires NamesApart(h, rs, path) && forall c :: c in less ==> c in path
    ensures NamesApart(h, rs, less)
  {
    assert forall c :: Mentioned(rs, less, c) ==> Mentioned(rs, path, c);
  }

  lemma ShallowIsRight(role: nat, r: RawRule, entries: seq<Entry>, slots: seq<Slot>, bare: Rows, path: seq<Name>)
    requires IsTable(Fnv(), role, Effectual([r]), entries, slots) && forall x :: x in bare ==> x.role != role
    requires DigestsApart(role, Effectual([r])) && !TwoDeepPrefixes(role, PatternComponents(r.pattern))
    requires path != [] && NamesApart(Fnv(), Effectual([r]), path)
    ensures Right(Fnv(), role, Parsed([r]), WriteAll(bare, entries), path)
  {
    hide IsTable, NamesApart, DigestsApart, TextsApart, StatesApart, Effectual, TwoDeepPrefixes, PatternComponents,
         WriteAll;
    var rs := Effectual([r]);
    EffectualOfOne(r);
    assert StatesApart(Fnv(), role, rs) && !Clash(rs) by {
      if rs != [] {
        ShallowTextsApart(role, PatternComponents(r.pattern), r.allow);
        SingleNeverClashes(PatternComponents(r.pattern), r.allow);
        StatesApartIff(role, rs);
      } else {
        NothingInner(Fnv(), role);
      }
    }
    FewerNames(Fnv(), rs, path, []);
    NoOverwriting(Fnv(), role, rs, entries, slots);
    WrittenIsInstalled(bare, role, entries);
    CompiledWalk(Fnv(), role, [r], entries, slots, WriteAll(bare, entries), path);
  }

  lemma NothingInner(h: Hashing, role: nat)
    ensures StatesApart(h, role, [])
  {
    forall p ensures !Inner([], p) { AfterNil(p); }
  }

  /**
   The compiler theorem for one pattern and the program's own digests: every path gets
   the verdict of the rule if and only if at most one of the pattern's inner prefixes
   has a text of 64 bytes or more.
   */
  lemma OneRuleIsRightIffShallow(role: nat, r: RawRule, entries: seq<Entry>, slots: seq<Slot>, bare: Rows)
    requires IsTable(Fnv(), role, Effectual([r]), entries, slots) && forall x :: x in bare ==> x.role != role
    requires NamesApart(Fnv(), Effectual([r]), PatternComponents(r.pattern)) && DigestsApart(role, Effectual([r]))
    ensures (forall path :: path != [] && NamesApart(Fnv(), Effectual([r]), path) ==>
               Right(Fnv(), role, Parsed([r]), WriteAll(bare, entries), path))
       <==> !TwoDeepPrefixes(role, PatternComponents(r.pattern))
  {
    hide IsTable, NamesApart, DigestsApart, Effectual, PatternComponents, Right, WriteAll, StateText;
    var rs, comps := Effectual([r]), PatternComponents(r.pattern);
    if TwoDeepPrefixes(role, comps) {
      EffectualOfOne(r);
      assert rs == Single(comps, r.allow) == Parsed([r]);
      var k := FirstDeep(role, comps);
      DeepIsMerged(role, comps, r.allow, k);
      WrittenAlong(Fnv(), role, comps, r.allow, entries, slots, bare);
      var path := MergedIsWrong(Fnv(), role, comps, r.allow, WriteAll(bare, entries), k);
      FewerNames(Fnv(), rs, comps, path);
    } else {
      forall path | path != [] && NamesApart(Fnv(), rs, path)
        ensures Right(Fnv(), role, Parsed([r]), WriteAll(bare, entries), path)
      {
        ShallowIsRight(role, r, entries, slots, bare, path);
      }
    }
  }
}
