/** A call that a change falls into: it may answer what no moment of it would have answered. */
module Straddle {
  import opened Base
  import opened Patterns
  import opened Table
  import opened Walk
  import opened Collect
  import opened Reads
  import opened Cache
  import opened OneRule

  /** The tree of one file `b` in one directory `a`: the root is dentry 1, `a` is 2 and `b` is 3. */
  function TwoDeep(a: Name, b: Name): Fs
  {
    Fs(map[2 := 1, 3 := 2], map[2 := a, 3 := b], map[1 := 1, 2 := 2, 3 := 3], map[1 := 1], map[], map[])
  }

  function FileKey(role: nat): CacheKey
  {
    CacheKey(role, Place(3, 1), 3, Place(1, 1))
  }

  lemma SeenTwoDeep(a: Name, b: Name, role: nat)
    requires a != [] && b != []
    ensures Seen(TwoDeep(a, b), FileKey(role).root, FileKey(role).path) == Climbed([b, a], true)
  {
    var fs, root := TwoDeep(a, b), Place(1, 1);
    assert MoveFrom(fs, root, Place(3, 1)) == Up(Place(2, 1), b);
    assert MoveFrom(fs, root, Place(2, 1)) == Up(Place(1, 1), a);
    assert Climb(fs, root, Place(1, 1), 30, 14) == Climbed([], true);
    assert Climb(fs, root, Place(2, 1), 31, 15) == Climbed([a], true);
    assert Climb(fs, root, Place(3, 1), 32, 16) == Climbed([b, a], true);
  }

  /** The names in play differ, by name and by digest, and the prefix `*` is not at the root's state. */
  predicate Distinguished(h: Hashing, role: nat, a: Name, b: Name, c: Name)
  {
    && IsComponent(a) && IsComponent(b) && IsComponent(c) && STAR !in [a, b, c]
    && h.comp(a) != 0 && h.comp(b) != 0 && h.comp(c) != 0 && h.comp(a) != h.comp(b) && h.comp(b) != h.comp(c)
    && h.state(role, [STAR]) != 0
  }

  /** The role as first defined: allow every `c` one directory down. */
  function Before(h: Hashing, role: nat, c: Name): Rows
  {
    WriteAll(map[], TableOf(h, role, [STAR, c], true))
  }

  /** Then defined again, to allow `/a`, and again, to deny every `b` one directory down. */
  function After(h: Hashing, role: nat, a: Name, b: Name, c: Name): Rows
  {
    WriteAll(WriteAll(Before(h, role, c), TableOf(h, role, [a], true)), TableOf(h, role, [STAR, b], false))
  }

  /** Each of the three is a definition the gate and the encoder let through. */
  lemma DefinedInTurn(h: Hashing, role: nat, a: Name, b: Name, c: Name)
    requires Distinguished(h, role, a, b, c)
    ensures Definition(h, role, Spelled([STAR, c], true), TableOf(h, role, [STAR, c], true))
    ensures Definition(h, role, Spelled([a], true), TableOf(h, role, [a], true))
    ensures Definition(h, role, Spelled([STAR, b], false), TableOf(h, role, [STAR, b], false))
  {
    SpelledIsDefinition(h, role, [STAR, c], true);
    SpelledIsDefinition(h, role, [a], true);
    SpelledIsDefinition(h, role, [STAR, b], false);
  }

  lemma WriteTwo(rows: Rows, d: Entry, e: Entry)
    ensures WriteAll(rows, [d, e]) == rows[d.key := d.value][e.key := e.value]
  {
    assert [d, e][..1] == [d];
    WriteOne(rows, d);
  }

  lemma StarTable(h: Hashing, role: nat, c: Name, allow: bool)
    requires c != STAR
    ensures var s := h.state(role, [STAR]);
            TableOf(h, role, [STAR, c], allow) ==
            [Entry(Key(role, 0, 0), Value(s, false, false, true)),
             Entry(Key(role, s, h.comp(c)), Value(TerminalState(allow), true, allow, false))]
  {
    assert [STAR, c][..0] == [] && [STAR, c][..1] == [STAR];
  }

  lemma PlainTable(h: Hashing, role: nat, a: Name, allow: bool)
    requires a != STAR
    ensures TableOf(h, role, [a], allow) ==
            [Entry(Key(role, 0, h.comp(a)), Value(TerminalState(allow), true, allow, false))]
  {
    assert [a][..0] == [];
  }

  /** What the two sets of rows hold, and what walks over them answer on `/a/b`. */
  lemma RowsOfBoth(h: Hashing, role: nat, a: Name, b: Name, c: Name)
    requires Distinguished(h, role, a, b, c)
    ensures var s, path := h.state(role, [STAR]), [h.comp(a), h.comp(b)];
            var first, later := Before(h, role, c), After(h, role, a, b, c);
            && WalkFrom(first, role, 0, path) == NO_RULE && WalkFrom(later, role, 0, path) == ALLOW
            && Key(role, 0, h.comp(a)) !in first
            && Key(role, 0, 0) in first && first[Key(role, 0, 0)] == Value(s, false, false, true)
            && WalkFrom(later, role, s, [h.comp(b)]) == DENY
  {
    hide TableOf, WriteAll;
    StarTable(h, role, c, true);
    StarTable(h, role, b, false);
    PlainTable(h, role, a, true);
    var s := h.state(role, [STAR]);
    var e0, e1 := TableOf(h, role, [STAR, c], true)[0], TableOf(h, role, [STAR, c], true)[1];
    var d0, d1 := TableOf(h, role, [STAR, b], false)[0], TableOf(h, role, [STAR, b], false)[1];
    var x := TableOf(h, role, [a], true)[0];
    WriteTwo(map[], e0, e1);
    WriteOne(Before(h, role, c), x);
    WriteTwo(Before(h, role, c)[x.key := x.value], d0, d1);
    assert [h.comp(a), h.comp(b)][1..] == [h.comp(b)];
  }

  /** The verdict was right at some moment of the call. */
  ghost predicate AtSomeMoment(h: Hashing, worlds: seq<World>, c: Call)
    requires c.Done?
  {
    exists j :: c.since <= j <= c.until && j < |worlds| && JudgeIn(h, worlds[j], c.key) == c.verdict
  }

  lemma JudgeTwoDeep(h: Hashing, rows: Rows, role: nat, a: Name, b: Name)
    requires a != [] && b != []
    ensures JudgeIn(h, World(rows, TwoDeep(a, b)), FileKey(role)) == WalkFrom(rows, role, 0, [h.comp(a), h.comp(b)])
  {
    hide WalkFrom, Seen;
    SeenTwoDeep(a, b, role);
    assert Reverse(Hashes(h, [b, a])) == [h.comp(a), h.comp(b)];
  }

  lemma ClimbedTwoDeep(h: Hashing, rows: Rows, role: nat, a: Name, b: Name) returns (n: nat)
    requires a != [] && b != []
    ensures AdvanceBy(h, World(rows, TwoDeep(a, b)), FileKey(role), Fresh(FileKey(role)), n)
         == Walking([h.comp(a), h.comp(b)], 0, 0, false)
  {
    hide AdvanceBy, Seen, Outcome, WalkFrom;
    var w, k := World(rows, TwoDeep(a, b)), FileKey(role);
    SeenTwoDeep(a, b, role);
    FreshOnCourse(h, w, k);
    n := ClimbEnds(h, w, k, Fresh(k));
    assert Reverse(Hashes(h, [b, a])) == [h.comp(a), h.comp(b)];
  }

  /** Up to where the change falls: the climb is over, and the root's wildcard slot has been followed. */
  lemma HalfWay(h: Hashing, role: nat, a: Name, b: Name, c: Name) returns (n: nat)
    requires Distinguished(h, role, a, b, c)
    ensures AdvanceBy(h, World(Before(h, role, c), TwoDeep(a, b)), FileKey(role), Fresh(FileKey(role)), n)
         == Walking([h.comp(a), h.comp(b)], 1, h.state(role, [STAR]), false)
  {
    hide Before, After, ClimbRead, TwoDeep, Fresh, WalkFrom;
    var w, k := World(Before(h, role, c), TwoDeep(a, b)), FileKey(role);
    RowsOfBoth(h, role, a, b, c);
    n := ClimbedTwoDeep(h, w.rows, role, a, b);
    assert AdvanceBy(h, w, k, Fresh(k), n + 1) == Walking([h.comp(a), h.comp(b)], 0, 0, true);
    n := n + 2;
  }

  /** The rows before, the rows after `n` changes, and nothing else in between. */
  ghost predicate Turned(h: Hashing, role: nat, a: Name, b: Name, c: Name, worlds: seq<World>, n: nat)
  {
    && |worlds| == n + 1
    && forall j :: 0 <= j <= n ==>
         worlds[j] == World(if j == 0 then Before(h, role, c) else After(h, role, a, b, c), TwoDeep(a, b))
  }

  lemma NeverDenied(h: Hashing, role: nat, a: Name, b: Name, c: Name, worlds: seq<World>, n: nat)
    requires Distinguished(h, role, a, b, c) && Turned(h, role, a, b, c, worlds, n)
    ensures !AtSomeMoment(h, worlds, Done(FileKey(role), 0, n, DENY))
  {
    hide JudgeIn, Before, After, TwoDeep, WalkFrom;
    RowsOfBoth(h, role, a, b, c);
    JudgeTwoDeep(h, Before(h, role, c), role, a, b);
    JudgeTwoDeep(h, After(h, role, a, b, c), role, a, b);
  }

  /** With a change, or any number of them, half way, the call denies, and stores that under the stamp it began with. */
  lemma Overtaken(h: Hashing, s: System, role: nat, a: Name, b: Name, c: Name, n: nat) returns (events: seq<Event>)
    requires Distinguished(h, role, a, b, c)
    requires s.worlds == [World(Before(h, role, c), TwoDeep(a, b))] && s.generation == 0 && s.cache == map[]
    ensures Changes(events) == n && (n > 0 ==>
              var r, k := Run(h, s, events), FileKey(role);
              && Turned(h, role, a, b, c, r.worlds, n) && r.cache == map[k := Cached(false, 0)]
              && r.calls == s.calls[0 := Done(k, 0, n, DENY)])
  {
    hide Run, Changes, Before, After, JudgeIn, Repeated, TwoDeep, AdvanceBy, Fresh, Around, WalkFrom;
    var k, w' := FileKey(role), World(After(h, role, a, b, c), TwoDeep(a, b));
    RowsOfBoth(h, role, a, b, c);
    RunMiss(h, s, 0, k);
    var s0 := Run(h, s, [Begin(0, k), LookUp(0)]);
    var m := HalfWay(h, role, a, b, c);
    RunReads(h, s0, 0, m);
    ReadsAreNoChanges(0, m);
    var s1 := Run(h, s0, ReadsOf(0, m));
    RunRepeated(h, s1, w', n);
    var s2 := Run(h, s1, Repeated(w', n));
    var d := RunToEnd(h, s2, 0);
    RunInParts(h, s, [Begin(0, k), LookUp(0)], ReadsOf(0, m), Repeated(w', n), d);
    events := [Begin(0, k), LookUp(0)] + ReadsOf(0, m) + Repeated(w', n) + d;
    assert [h.comp(a), h.comp(b)][1..] == [h.comp(b)];
    assert s2.calls[0] == Working(k, 0, 0, Walking([h.comp(a), h.comp(b)], 1, h.state(role, [STAR]), false));
  }

  /** A call that changes fall into answers what no moment of it would have. */
  lemma StraddlingCall(h: Hashing, role: nat, a: Name, b: Name, c: Name, n: nat) returns (w: World, events: seq<Event>)
    requires Distinguished(h, role, a, b, c) && 0 < n
    ensures Changes(events) == n
    ensures var s := Run(h, Start(w), events);
            0 in s.calls && s.calls[0].Done? && s.calls[0].until == s.calls[0].since + n
            && !AtSomeMoment(h, s.worlds, s.calls[0])
  {
    hide Run, Changes, Before, After, TwoDeep, AtSomeMoment, Turned;
    w := World(Before(h, role, c), TwoDeep(a, b));
    events := Overtaken(h, Start(w), role, a, b, c, n);
    NeverDenied(h, role, a, b, c, Run(h, Start(w), events).worlds, n);
  }

  /** And so may a call served from the cache: it began with the other, and finds what the other stored. */
  lemma StraddledHit(h: Hashing, role: nat, a: Name, b: Name, c: Name, n: nat) returns (w: World, events: seq<Event>)
    requires Distinguished(h, role, a, b, c) && 0 < n
    ensures Changes(events) == n && |events| > 0
    ensures var s, s' := Run(h, Start(w), events[..|events| - 1]), Run(h, Start(w), events);
            && 1 in s.calls && s.calls[1].Begun? && Hit(s, s.calls[1].key, s.calls[1].generation)
            && 1 in s'.calls && s'.calls[1] == Done(s.calls[1].key, 0, n, DENY)
            && !AtSomeMoment(h, s'.worlds, s'.calls[1])
  {
    hide Run, Changes, Before, After, TwoDeep, AtSomeMoment;
    var k := FileKey(role);
    w := World(Before(h, role, c), TwoDeep(a, b));
    RunNothing(h, Start(w));
    RunSnoc(h, Start(w), [], Begin(1, k));
    assert [] + [Begin(1, k)] == [Begin(1, k)];
    var s0 := Run(h, Start(w), [Begin(1, k)]);
    var middle := Overtaken(h, s0, role, a, b, c, n);
    RunConcat(h, Start(w), [Begin(1, k)], middle);
    ChangesConcat([Begin(1, k)], middle);
    NoChanges([Begin(1, k)]);
    NoChanges([LookUp(1)]);
    var before := [Begin(1, k)] + middle;
    RunSnoc(h, Start(w), before, LookUp(1));
    ChangesConcat(before, [LookUp(1)]);
    events := before + [LookUp(1)];
    assert events[..|events| - 1] == before;
    NeverDenied(h, role, a, b, c, Run(h, Start(w), before).worlds, n);
  }

  /** Every finished call that `n` changes fell into answered as the walk would have at some moment of it. */
  ghost predicate Momentary(h: Hashing, n: nat)
  {
    forall w, events, t :: Changes(events) < 0x1_0000_0000 ==> MomentaryCall(h, Run(h, Start(w), events), t, n)
  }

  ghost predicate MomentaryCall(h: Hashing, s: System, t: nat, n: nat)
  {
    t in s.calls && s.calls[t].Done? && s.calls[t].until == s.calls[t].since + n ==>
      AtSomeMoment(h, s.worlds, s.calls[t])
  }

  /**
   How far transparency goes: a call is sure to answer as the uncached walk would have at some
   moment of it if and only if no change falls into it.
   */
  lemma MomentaryIffUndisturbed(h: Hashing, role: nat, a: Name, b: Name, c: Name, n: nat)
    requires Distinguished(h, role, a, b, c) && n < 0x1_0000_0000
    ensures Momentary(h, n) <==> n == 0
  {
    hide Run, Changes, JudgeIn, Distinguished, Truthful;
    if n == 0 {
      forall w, events, t | Changes(events) < 0x1_0000_0000 ensures MomentaryCall(h, Run(h, Start(w), events), t, n) {
        CacheIsTransparent(h, w, events, t);
      }
    } else {
      var w, events := StraddlingCall(h, role, a, b, c, n);
      assert !MomentaryCall(h, Run(h, Start(w), events), 0, n);
    }
  }
}
