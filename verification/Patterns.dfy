/** Reading a pattern: cut it at slashes, and keep the segments that name something. */
module Patterns {
  import opened Base

  /** The segments of `s` between slashes, `open` being the bytes already read. */
  function Segments(s: Name, open: Name): seq<Name>
  {
    if s == [] then [open]
    else if s[0] == SLASH then [open] + Segments(s[1..], [])
    else Segments(s[1..], open + [s[0]])
  }

  predicate Kept(segment: Name)
  {
    segment != [] && segment != DOUBLE_STAR
  }

  function Keep(segments: seq<Name>): seq<Name>
  {
    if segments == [] then []
    else KeepOne(segments[0]) + Keep(segments[1..])
  }

  function KeepOne(segment: Name): seq<Name>
  {
    if Kept(segment) then [segment] else []
  }

  function PatternComponents(pattern: Name): seq<Name>
  {
    Keep(Segments(pattern, []))
  }

  /** A name that can be a component: anything without a slash but the empty name and `**`. */
  predicate IsComponent(c: Name)
  {
    c != [] && c != [42, 42] && 47 !in c
  }

  /** The plain absolute pattern with these components. */
  function Rooted(comps: seq<Name>): Name
  {
    if comps == [] then [] else [SLASH] + comps[0] + Rooted(comps[1..])
  }

  lemma {:induction false} KeepConcat(a: seq<Name>, b: seq<Name>)
    ensures Keep(a + b) == Keep(a) + Keep(b)
  {
    if a == [] {
      assert a + b == b;
    } else {
      var whole, rest := a + b, a[1..] + b;
      assert whole[1..] == rest && whole[0] == a[0];
      KeepConcat(a[1..], b);
      calc {
        Keep(whole);
        KeepOne(a[0]) + Keep(rest);
        KeepOne(a[0]) + (Keep(a[1..]) + Keep(b));
        (KeepOne(a[0]) + Keep(a[1..])) + Keep(b);
        Keep(a) + Keep(b);
      }
    }
  }

  lemma {:induction false} SegmentsConcat(a: Name, b: Name, open: Name)
    ensures Segments(a + [SLASH] + b, open) == Segments(a, open) + Segments(b, [])
    decreases |a|
  {
    var s := a + [SLASH] + b;
    if a == [] {
      assert s[0] == SLASH && s[1..] == b;
    } else {
      assert s[0] == a[0] && s[1..] == a[1..] + [SLASH] + b;
      if a[0] == SLASH {
        SegmentsConcat(a[1..], b, []);
      } else {
        SegmentsConcat(a[1..], b, open + [a[0]]);
      }
    }
  }

  lemma {:induction false} SegmentsPlain(s: Name, open: Name)
    requires SLASH !in s
    ensures Segments(s, open) == [open + s]
    decreases |s|
  {
    if s == [] {
      assert open + s == open;
    } else {
      SegmentsPlain(s[1..], open + [s[0]]);
      assert open + [s[0]] + s[1..] == open + s;
    }
  }

  lemma {:induction false} SegmentsHaveNoSlash(s: Name, open: Name)
    requires SLASH !in open
    ensures forall g :: g in Segments(s, open) ==> SLASH !in g
    decreases |s|
  {
    if s == [] {
    } else if s[0] == SLASH {
      SegmentsHaveNoSlash(s[1..], []);
    } else {
      SegmentsHaveNoSlash(s[1..], open + [s[0]]);
    }
  }

  lemma {:induction false} KeepMembers(segments: seq<Name>, g: Name)
    ensures g in Keep(segments) <==> g in segments && Kept(g)
  {
    if segments != [] { KeepMembers(segments[1..], g); }
  }

  /** Whatever the pattern, every component it yields is a usable one. */
  lemma ComponentsAreUsable(pattern: Name)
    ensures forall c :: c in PatternComponents(pattern) ==> IsComponent(c)
  {
    SegmentsHaveNoSlash(pattern, []);
    forall c | c in PatternComponents(pattern) ensures IsComponent(c) {
      KeepMembers(Segments(pattern, []), c);
    }
  }

  /** A slash separates: components of the two sides are read independently. */
  lemma ComponentsOfJoin(a: Name, b: Name)
    ensures PatternComponents(a + [SLASH] + b) == PatternComponents(a) + PatternComponents(b)
  {
    SegmentsConcat(a, b, []);
    KeepConcat(Segments(a, []), Segments(b, []));
  }

  /** `**` and empty segments are dropped wherever they stand. */
  lemma DroppedAnywhere(a: Name, dropped: Name, b: Name)
    requires dropped == [] || dropped == DOUBLE_STAR
    ensures PatternComponents(a + [SLASH] + dropped + [SLASH] + b) == PatternComponents(a + [SLASH] + b)
  {
    SegmentsPlain(dropped, []);
    assert PatternComponents(dropped) == [] by {
      assert [] + dropped == dropped;
    }
    ComponentsOfJoin(a + [SLASH] + dropped, b);
    ComponentsOfJoin(a, dropped);
    ComponentsOfJoin(a, b);
  }

  /** A plain segment reads as itself if it can be a component, and as nothing otherwise. */
  lemma PlainSegment(c: Name)
    requires 47 !in c
    ensures PatternComponents(c) == if IsComponent(c) then [c] else []
  {
    SegmentsPlain(c, []);
    assert [] + c == c;
    assert Keep([c]) == KeepOne(c) + Keep([]);
  }

  lemma PlainRooted(c: Name)
    requires IsComponent(c)
    ensures PatternComponents([SLASH] + c) == [c]
  {
    hide PatternComponents;
    PlainSegment(c);
    PlainSegment([]);
    assert [] + [SLASH] + c == [SLASH] + c;
    ComponentsOfJoin([], c);
  }

  /** Round trip: every list of usable components is the reading of its own pattern. */
  lemma {:induction false} RootedRoundTrip(comps: seq<Name>)
    requires forall c :: c in comps ==> IsComponent(c)
    ensures PatternComponents(Rooted(comps)) == comps
  {
    hide PatternComponents, IsComponent;
    if comps == [] {
      NothingToRead();
    } else {
      var c, rest := comps[0], comps[1..];
      assert c in comps;
      PlainRooted(c);
      RootedRoundTrip(rest);
      if rest == [] {
        assert Rooted(comps) == [SLASH] + c;
      } else {
        RootedTail(c, rest);
      }
    }
  }

  lemma NothingToRead()
    ensures PatternComponents([]) == []
  {
  }

  lemma RootedTail(c: Name, rest: seq<Name>)
    requires rest != []
    ensures PatternComponents(Rooted([c] + rest)) == PatternComponents([SLASH] + c) + PatternComponents(Rooted(rest))
  {
    hide PatternComponents;
    var tail := rest[0] + Rooted(rest[1..]);
    var all := [c] + rest;
    assert all[0] == c && all[1..] == rest;
    assert Rooted(rest) == [] + [SLASH] + tail;
    assert Rooted(all) == [SLASH] + c + [SLASH] + tail;
    NothingToRead();
    ComponentsOfJoin([], tail);
    ComponentsOfJoin([SLASH] + c, tail);
  }
}
