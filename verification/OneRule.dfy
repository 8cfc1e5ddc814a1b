/** Lists of a single rule: their table, and what they mean. */
module OneRule {
  import opened Base
  import opened Patterns
  import opened Rules
  import opened Table
  import opened Trie
  import opened RoleEncoder
  import opened Walk

  function Single(comps: seq<Name>, allow: bool): seq<PathRule>
  {
    [PathRule(comps, allow)]
  }

  lemma AfterSingle(comps: seq<Name>, allow: bool, p: seq<Name>)
    ensures After(Single(comps, allow), p) == Tail(PathRule(comps, allow), p)
  {
    var r := PathRule(comps, allow);
    assert [] + [r] == Single(comps, allow);
    AfterSnoc([], r, p);
    AfterNil(p);
  }

  lemma InnerSingle(comps: seq<Name>, allow: bool, p: seq<Name>)
    ensures Inner(Single(comps, allow), p) <==> |p| < |comps| && p == comps[..|p|]
  {
    AfterSingle(comps, allow, p);
    var r := PathRule(comps, allow);
    if p <= comps {
      assert Tail(r, p)[0].comps == comps[|p|..];
      assert p == comps[..|p|];
    }
  }

  /** The slots of a rule are those along its components. */
  function SlotOn(comps: seq<Name>, i: nat): Slot
    requires i < |comps|
  {
    Slot(comps[..i], comps[i])
  }

  function ActionOn(comps: seq<Name>, allow: bool, i: nat): Action
    requires i < |comps|
  {
    if i == |comps| - 1 then Final(allow) else Goto(comps[..i + 1])
  }

  lemma SingleSlots(comps: seq<Name>, allow: bool, s: Slot)
    requires comps != []
    ensures Expected(Single(comps, allow), s).Some? <==> |s.prefix| < |comps| && s == SlotOn(comps, |s.prefix|)
    ensures Expected(Single(comps, allow), s).Some? ==>
              Expected(Single(comps, allow), s).value == ActionOn(comps, allow, |s.prefix|)
  {
    hide After, Deepest;
    var rs, p, q := Single(comps, allow), s.prefix, s.prefix + [s.edge];
    AfterStep(rs, p, s.edge);
    AfterSingle(comps, allow, q);
    AfterSingle(comps, allow, p);
    DeepestSome(rs, p);
    assert q <= comps <==> |p| < |comps| && s == SlotOn(comps, |p|) by {
      if q <= comps {
        assert q[..|p|] == p && q[|p|] == s.edge;
      }
      if |p| < |comps| && s == SlotOn(comps, |p|) {
        assert q == comps[..|q|];
      }
    }
  }

  /** The entry for component `i`, before anything overwrites it. */
  function EntryOn(h: Hashing, role: nat, comps: seq<Name>, allow: bool, i: nat): Entry
    requires i < |comps|
  {
    EntryAt(h, role, SlotOn(comps, i), ActionOn(comps, allow, i))
  }

  /** A row of a single rule's table, written where the role had none, is one of its entries. */
  lemma SingleRows(h: Hashing, role: nat, comps: seq<Name>, allow: bool, entries: seq<Entry>, slots: seq<Slot>,
                   bare: Rows, k: Key)
    requires comps != [] && IsTable(h, role, Single(comps, allow), entries, slots)
    requires k.role == role && forall x :: x in bare ==> x.role != role
    ensures forall i :: 0 <= i < |comps| && EntryOn(h, role, comps, allow, i).key == k ==> k in WriteAll(bare, entries)
    ensures k in WriteAll(bare, entries) ==>
              exists i :: 0 <= i < |comps| && EntryOn(h, role, comps, allow, i) == Entry(k, WriteAll(bare, entries)[k])
  {
    hide Expected, EntryAt, WriteAll;
    WrittenByOne(bare, entries, k);
    forall i | 0 <= i < |comps| && EntryOn(h, role, comps, allow, i).key == k ensures k in WriteAll(bare, entries) {
      SingleSlots(comps, allow, SlotOn(comps, i));
      var j :| 0 <= j < |slots| && slots[j] == SlotOn(comps, i);
      assert entries[j].key == k;
    }
    if k in WriteAll(bare, entries) {
      var j :| 0 <= j < |entries| && entries[j] == Entry(k, WriteAll(bare, entries)[k]);
      SingleSlots(comps, allow, slots[j]);
      assert entries[j] == EntryOn(h, role, comps, allow, |slots[j].prefix|);
    }
  }

  /** The rule's whole table, top down. */
  function TableOf(h: Hashing, role: nat, comps: seq<Name>, allow: bool): (entries: seq<Entry>)
    ensures |entries| == |comps|
    ensures forall i :: 0 <= i < |comps| ==> entries[i] == EntryOn(h, role, comps, allow, i)
  {
    seq(|comps|, i requires 0 <= i < |comps| => EntryOn(h, role, comps, allow, i))
  }

  lemma TableOfIsTable(h: Hashing, role: nat, comps: seq<Name>, allow: bool) returns (slots: seq<Slot>)
    requires comps != []
    ensures IsTable(h, role, Single(comps, allow), TableOf(h, role, comps, allow), slots)
  {
    hide Expected, EntryAt;
    slots := seq(|comps|, i requires 0 <= i < |comps| => SlotOn(comps, i));
    forall i | 0 <= i < |comps|
      ensures Expected(Single(comps, allow), SlotOn(comps, i)) == Some(ActionOn(comps, allow, i))
    {
      SingleSlots(comps, allow, SlotOn(comps, i));
    }
    forall s: Slot ensures s in slots <==> Expected(Single(comps, allow), s).Some? {
      SingleSlots(comps, allow, s);
      if |s.prefix| < |comps| && s == SlotOn(comps, |s.prefix|) { assert slots[|s.prefix|] == s; }
    }
  }

  /** What the gate and the encoder let a definition of the role write. */
  ghost predicate Definition(h: Hashing, role: nat, raw: seq<RawRule>, entries: seq<Entry>)
  {
    !Clash(Effectual(raw)) && exists slots :: IsTable(h, role, Effectual(raw), entries, slots)
  }

  /** Spelling a rule out and defining the role by it alone writes its table. */
  lemma SpelledIsDefinition(h: Hashing, role: nat, comps: seq<Name>, allow: bool)
    requires comps != [] && forall c :: c in comps ==> IsComponent(c)
    ensures Definition(h, role, Spelled(comps, allow), TableOf(h, role, comps, allow))
  {
    hide IsTable, Clash;
    SpelledIsSingle(comps, allow);
    SingleNeverClashes(comps, allow);
    var slots := TableOfIsTable(h, role, comps, allow);
  }

  /** The pattern that spells these components out, as the only rule of a list. */
  function Spelled(comps: seq<Name>, allow: bool): seq<RawRule>
  {
    [RawRule(Rooted(comps), allow)]
  }

  lemma SpelledIsSingle(comps: seq<Name>, allow: bool)
    requires comps != [] && forall c :: c in comps ==> IsComponent(c)
    ensures Effectual(Spelled(comps, allow)) == Single(comps, allow)
  {
    RootedRoundTrip(comps);
    EffectualOfOne(RawRule(Rooted(comps), allow));
  }

  lemma EffectualOfOne(r: RawRule)
    ensures Effectual([r]) == if PatternComponents(r.pattern) == [] then [] else [Parse(r)]
  {
    hide PatternComponents;
    var rules := Parsed([r]);
    assert rules == [Parse(r)] && rules[..0] == [];
    assert Named(rules[..0]) == [];
  }

  lemma SingleNeverClashes(comps: seq<Name>, allow: bool)
    ensures !Clash(Single(comps, allow))
  {
  }

  // ---- meaning ----

  lemma SingleDeriv(comps: seq<Name>, allow: bool, c: Name)
    ensures Deriv(Single(comps, allow), c) == if comps != [] && comps[0] == c then Single(comps[1..], allow) else []
  {
    assert Single(comps, allow)[..0] == [];
  }

  lemma SingleEnds(comps: seq<Name>, allow: bool)
    ensures Ends(Single(comps, allow)) == if comps == [] then Some(allow) else None
    ensures HasLive(Single(comps, allow)) <==> comps != []
  {
    assert Single(comps, allow)[..0] == [];
  }

  // ---- which paths a rule decides, stars included ----

  /** The component is `*` or the name itself. */
  predicate Fits(component: Name, name: Name)
  {
    component == [42] || component == name
  }

  /**
   The rule's components fit the beginning of the path; or all of the path, when one
   component is left over and that is a `*`.
   */
  predicate Matches(comps: seq<Name>, path: seq<Name>)
  {
    || (|comps| <= |path| && forall i :: 0 <= i < |comps| ==> Fits(comps[i], path[i]))
    || (|comps| == |path| + 1 && comps[|path|] == [42] && forall i :: 0 <= i < |path| ==> Fits(comps[i], path[i]))
  }

  lemma MatchesRest(comps: seq<Name>, path: seq<Name>)
    requires comps != [] && path != []
    ensures Matches(comps, path) <==> Fits(comps[0], path[0]) && Matches(comps[1..], path[1..])
  {
    var cs, ps := comps[1..], path[1..];
    assert forall i :: 0 <= i < |cs| ==> cs[i] == comps[i + 1];
    assert forall i :: 0 <= i < |ps| ==> ps[i] == path[i + 1];
    if Matches(comps, path) { assert Fits(comps[0], path[0]); }
    if Fits(comps[0], path[0]) && Matches(cs, ps) {
      forall i | 0 <= i < |comps| && i < |path| ensures Fits(comps[i], path[i]) {
        if i > 0 { assert Fits(cs[i - 1], ps[i - 1]); }
      }
    }
  }

  /** One step of the meaning of a single rule. */
  lemma SingleStep(comps: seq<Name>, allow: bool, path: seq<Name>)
    ensures Meaning(Single(comps, allow), None, path) ==
            if comps == [] then Some(allow)
            else if path == [] then (if comps == [[42]] then Some(allow) else None)
            else if Fits(comps[0], path[0]) then Meaning(Single(comps[1..], allow), None, path[1..])
            else None
  {
    hide Ends, Deriv, HasLive, Single;
    SingleEnds(comps, allow);
    SingleDeriv(comps, allow, STAR);
    if comps != [] {
      SingleIsSome(comps[1..], allow);
      SingleEnds(comps[1..], allow);
      if path != [] { SingleDeriv(comps, allow, path[0]); }
    }
  }

  lemma SingleIsSome(comps: seq<Name>, allow: bool)
    ensures Single(comps, allow) != []
  {
  }

  /** One rule alone decides exactly the paths it matches. */
  lemma {:induction false} OneRuleMeans(comps: seq<Name>, allow: bool, path: seq<Name>)
    ensures Meaning(Single(comps, allow), None, path) == if Matches(comps, path) then Some(allow) else None
    decreases |comps|
  {
    hide Matches, Meaning, Single, Fits;
    SingleStep(comps, allow, path);
    if comps == [] || path == [] {
      MatchesEnds(comps, path);
    } else {
      OneRuleMeans(comps[1..], allow, path[1..]);
      MatchesRest(comps, path);
    }
  }

  lemma MatchesEnds(comps: seq<Name>, path: seq<Name>)
    requires comps == [] || path == []
    ensures Matches(comps, path) <==> comps == [] || comps == [[42]]
  {
  }

  /** A rule decides the path it spells. */
  lemma DecidesItself(comps: seq<Name>, allow: bool)
    ensures Meaning(Single(comps, allow), None, comps) == Some(allow)
  {
    hide Meaning, Single;
    OneRuleMeans(comps, allow, comps);
  }

  /** It decides no path shorter than itself, except the directory of a final `*`. */
  lemma SilentAbove(comps: seq<Name>, allow: bool, path: seq<Name>)
    requires |path| < |comps|
    requires |path| + 1 < |comps| || comps[|comps| - 1] != STAR
    ensures Meaning(Single(comps, allow), None, path) == None
  {
    hide Meaning, Single;
    OneRuleMeans(comps, allow, path);
  }
}
