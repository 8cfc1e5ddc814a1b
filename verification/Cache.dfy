/**
 The decision cache in front of the walk. A call of the file hook is split into the
 single reads and writes of shared state it makes, so that other calls, evictions and
 changes of paths or rows may fall between any two of them.
 */
module Cache {
  import opened Table
  import opened Walk
  import opened Collect
  import opened Reads

  const GENERATIONS := 0x1_0000_0000

  datatype Cached = Cached(allow: bool, generation: nat)

  /**
   A call in flight. `generation` is what the hook read on entry. `since` and `until`
   are history variables: how many changes there had been when it began and when it ended.
   */
  datatype Call =
    | Begun(key: CacheKey, since: nat, generation: nat)
    | Working(key: CacheKey, since: nat, generation: nat, work: Work)
    | Done(key: CacheKey, since: nat, until: nat, verdict: int)

  /** `worlds` is the history of the world, one element for each generation bump. */
  datatype System = System(
    worlds: seq<World>,
    generation: nat,
    cache: map<CacheKey, Cached>,
    calls: map<nat, Call>)

  datatype Event =
    | Begin(call: nat, key: CacheKey)
    | LookUp(call: nat)
    | ReadOn(call: nat)
    | Commit(call: nat)
    | Evict(key: CacheKey)
    | Change(world: World)

  function Start(w: World): System
  {
    System([w], 0, map[], map[])
  }

  function Bump(generation: nat): nat
  {
    (generation + 1) % GENERATIONS
  }

  function Now(s: System): World
    requires s.worlds != []
  {
    s.worlds[|s.worlds| - 1]
  }

  function Hit(s: System, key: CacheKey, generation: nat): bool
  {
    key.inode != 0 && key in s.cache && s.cache[key].generation == generation
  }

  function Store(cache: map<CacheKey, Cached>, key: CacheKey, generation: nat, verdict: int): map<CacheKey, Cached>
  {
    if verdict != NO_RULE && key.inode != 0 then cache[key := Cached(verdict == ALLOW, generation)] else cache
  }

  /** The cache after a call that nothing interrupts: a decided verdict is there, under the current stamp. */
  function Recorded(cache: map<CacheKey, Cached>, generation: nat, key: CacheKey, verdict: int): map<CacheKey, Cached>
  {
    if key in cache && cache[key].generation == generation then cache else Store(cache, key, generation, verdict)
  }

  predicate Ready(s: System, e: Event)
  {
    match e
    case LookUp(t) => t in s.calls && s.calls[t].Begun?
    case ReadOn(t) => t in s.calls && s.calls[t].Working?
    case Commit(t) => t in s.calls && s.calls[t].Working? && s.calls[t].work.Answered?
    case _ => true
  }

  /** A call's own step: look in the cache, make one more read, or store the verdict and return it. */
  function StepCall(h: Hashing, s: System, e: Event): (Call, map<CacheKey, Cached>)
    requires s.worlds != [] && (e.LookUp? || e.ReadOn? || e.Commit?) && Ready(s, e)
  {
    var c, last := s.calls[e.call], |s.worlds| - 1;
    match e
    case LookUp(_) =>
      (if Hit(s, c.key, c.generation) then Done(c.key, c.since, last, Code(s.cache[c.key].allow))
       else Working(c.key, c.since, c.generation, Fresh(c.key)), s.cache)
    case ReadOn(_) => (c.(work := Advance(h, Now(s), c.key, c.work)), s.cache)
    case Commit(_) =>
      (Done(c.key, c.since, last, c.work.verdict), Store(s.cache, c.key, c.generation, c.work.verdict))
  }

  /** One step of the system; a step that is not ready does nothing. */
  function Step(h: Hashing, s: System, e: Event): System
    requires s.worlds != []
  {
    match e
    case Begin(t, key) => s.(calls := s.calls[t := Begun(key, |s.worlds| - 1, s.generation)])
    case Evict(key) => s.(cache := s.cache - {key})
    case Change(w) => s.(worlds := s.worlds + [w], generation := Bump(s.generation))
    case _ =>
      if Ready(s, e) then
        var (c, cache) := StepCall(h, s, e);
        s.(calls := s.calls[e.call := c], cache := cache)
      else s
  }

  function Run(h: Hashing, s: System, events: seq<Event>): (r: System)
    requires s.worlds != []
    ensures r.worlds != []
    decreases |events|
  {
    if events == [] then s
    else Step(h, Run(h, s, events[..|events| - 1]), events[|events| - 1])
  }

  /** Every entry of the current generation is what the walk would answer now. */
  ghost predicate Truthful(h: Hashing, w: World, cache: map<CacheKey, Cached>, generation: nat)
  {
    forall k :: k in cache && cache[k].generation == generation ==> Code(cache[k].allow) == JudgeIn(h, w, k)
  }

  /** A call no change has overtaken is on course, and one that none overtook answered as the world was. */
  ghost predicate CallOk(h: Hashing, worlds: seq<World>, c: Call)
  {
    var last := |worlds| - 1;
    match c
    case Begun(_, since, g) => g == since <= last
    case Working(key, since, g, work) => g == since <= last && (since == last ==> OnCourse(h, worlds[last], key, work))
    case Done(key, since, until, v) =>
      since <= until <= last && (since == until ==> v == JudgeIn(h, worlds[until], key))
  }

  ghost predicate Sound(h: Hashing, s: System)
  {
    && 0 < |s.worlds| <= 0x1_0000_0000 && s.generation == |s.worlds| - 1
    && (forall k :: k in s.cache ==> s.cache[k].generation <= s.generation)
    && Truthful(h, Now(s), s.cache, s.generation)
    && (forall t :: t in s.calls ==> CallOk(h, s.worlds, s.calls[t]))
  }

  lemma JudgeRange(h: Hashing, w: World, k: CacheKey)
    ensures JudgeIn(h, w, k) in {ALLOW, NO_RULE, DENY}
  {
    var c := Seen(w.fs, k.root, k.path);
    WalkRange(w.rows, k.role, 0, Reverse(Hashes(h, c.names)));
  }

  lemma {:induction false} WalkRange(rows: Rows, role: nat, state: bv64, hashes: seq<bv64>)
    ensures WalkFrom(rows, role, state, hashes) in {ALLOW, NO_RULE, DENY}
    decreases |hashes|
  {
    if hashes != [] && Find(rows, role, state, hashes[0]).Some? {
      WalkRange(rows, role, Find(rows, role, state, hashes[0]).value.next, hashes[1..]);
    }
  }

  lemma CallOkLater(h: Hashing, worlds: seq<World>, w: World, c: Call)
    requires CallOk(h, worlds, c)
    ensures CallOk(h, worlds + [w], c)
  {
    hide OnCourse, JudgeIn;
    if c.Done? { assert (worlds + [w])[c.until] == worlds[c.until]; }
  }

  lemma StepCallOk(h: Hashing, s: System, e: Event)
    requires Sound(h, s) && (e.LookUp? || e.ReadOn? || e.Commit?) && Ready(s, e)
    ensures var (c, cache) := StepCall(h, s, e);
            && CallOk(h, s.worlds, c)
            && (forall k :: k in cache ==> cache[k].generation <= s.generation)
            && Truthful(h, Now(s), cache, s.generation)
  {
    hide JudgeIn, OnCourse, Advance, Fresh;
    var c := s.calls[e.call];
    assert CallOk(h, s.worlds, c);
    match e
    case LookUp(_) => FreshOnCourse(h, Now(s), c.key);
    case ReadOn(_) => if c.since == |s.worlds| - 1 { OnCourseAdvance(h, Now(s), c.key, c.work); }
    case Commit(_) =>
      if c.since == |s.worlds| - 1 {
        OnCourseRest(h, Now(s), c.key, c.work);
        AnsweredRest(h, Now(s), c.key, c.work);
        JudgeRange(h, Now(s), c.key);
      }
  }

  /** Every step keeps the current entries truthful and the calls no change has overtaken on course. */
  lemma StepKeepsSound(h: Hashing, s: System, e: Event)
    requires Sound(h, s)
    requires e.Change? ==> |s.worlds| < 0x1_0000_0000
    ensures Sound(h, Step(h, s, e))
  {
    hide JudgeIn, StepCall, CallOk;
    match e
    case Change(w) =>
      forall t | t in s.calls ensures CallOk(h, s.worlds + [w], s.calls[t]) {
        CallOkLater(h, s.worlds, w, s.calls[t]);
      }
    case Begin(t, key) => BegunOk(h, s.worlds, key);
    case Evict(_) =>
    case _ => if Ready(s, e) { StepCallOk(h, s, e); }
  }

  lemma BegunOk(h: Hashing, worlds: seq<World>, key: CacheKey)
    requires worlds != []
    ensures CallOk(h, worlds, Begun(key, |worlds| - 1, |worlds| - 1))
  {
  }

  function Changes(events: seq<Event>): nat
  {
    if events == [] then 0
    else Changes(events[..|events| - 1]) + (if events[|events| - 1].Change? then 1 else 0)
  }

  lemma {:induction false} RunIsSound(h: Hashing, w: World, events: seq<Event>)
    requires Changes(events) < 0x1_0000_0000
    ensures |Run(h, Start(w), events).worlds| == Changes(events) + 1
    ensures Sound(h, Run(h, Start(w), events))
    decreases |events|
  {
    if events != [] {
      RunIsSound(h, w, events[..|events| - 1]);
      StepKeepsSound(h, Run(h, Start(w), events[..|events| - 1]), events[|events| - 1]);
    }
  }

  /**
   Transparency over every interleaving of single reads: a finished call that no change
   fell into answered as the uncached walk would have, and whatever the calls that a
   change did fall into computed, no current entry is anything but what the walk would answer now.
   */
  lemma CacheIsTransparent(h: Hashing, w: World, events: seq<Event>, t: nat)
    requires Changes(events) < 0x1_0000_0000
    ensures var s := Run(h, Start(w), events);
            && Truthful(h, Now(s), s.cache, s.generation)
            && (t in s.calls && s.calls[t].Done? ==> AnsweredTruly(h, s.worlds, s.calls[t]))
  {
    hide Run, JudgeIn, Changes;
    RunIsSound(h, w, events);
    var s := Run(h, Start(w), events);
    if t in s.calls { assert CallOk(h, s.worlds, s.calls[t]); }
  }

  /** If no change came between its beginning and its end, the call answered as the walk would have. */
  ghost predicate AnsweredTruly(h: Hashing, worlds: seq<World>, c: Call)
    requires c.Done?
  {
    c.since == c.until ==> c.until < |worlds| && c.verdict == JudgeIn(h, worlds[c.until], c.key)
  }

  // ---- the generation counter is 32 bits wide ----

  function Repeated(w: World, n: nat): seq<Event>
  {
    if n == 0 then [] else Repeated(w, n - 1) + [Change(w)]
  }

  lemma {:induction false} RunConcat(h: Hashing, s: System, a: seq<Event>, b: seq<Event>)
    requires s.worlds != []
    ensures Run(h, s, a + b) == Run(h, Run(h, s, a), b)
    decreases |b|
  {
    if b == [] {
      assert a + b == a;
    } else {
      assert (a + b)[..|a + b| - 1] == a + b[..|b| - 1];
      RunConcat(h, s, a, b[..|b| - 1]);
    }
  }

  lemma RunSnoc(h: Hashing, s: System, a: seq<Event>, e: Event)
    requires s.worlds != []
    ensures Run(h, s, a + [e]) == Step(h, Run(h, s, a), e)
  {
    assert (a + [e])[..|a|] == a;
  }

  /** The counter after `n` bumps. */
  function Around(g: nat, n: nat): nat
  {
    (g + n) % 0x1_0000_0000
  }

  lemma BumpAround(g: nat, n: nat)
    ensures n > 0 ==> Bump(Around(g, n - 1)) == Around(g, n)
    ensures g < 0x1_0000_0000 ==> Around(g, 0) == g
  {
  }

  /** The counter after `n` bumps, one by one. */
  function BumpedBy(g: nat, n: nat): nat
  {
    if n == 0 then g else Bump(BumpedBy(g, n - 1))
  }

  lemma {:induction false} BumpedIsAround(g: nat, n: nat)
    requires g < 0x1_0000_0000
    ensures BumpedBy(g, n) == Around(g, n)
  {
    hide Bump, Around;
    BumpAround(g, n);
    if n > 0 { BumpedIsAround(g, n - 1); }
  }

  /** The counter is 32 bits wide: it comes back to where it was after 2^32 bumps, and not before. */
  lemma CounterPeriod(g: nat, n: nat)
    requires g < 0x1_0000_0000
    ensures 0 < n < 0x1_0000_0000 ==> BumpedBy(g, n) != g
    ensures BumpedBy(g, 0x1_0000_0000) == g
  {
    hide BumpedBy;
    BumpedIsAround(g, n);
    BumpedIsAround(g, 0x1_0000_0000);
    CounterReturns(g);
  }

  lemma {:induction false} RunRepeated(h: Hashing, s: System, w: World, n: nat)
    requires s.worlds != [] && s.generation < 0x1_0000_0000
    ensures var r := Run(h, s, Repeated(w, n));
            && |r.worlds| == |s.worlds| + n
            && (forall j :: 0 <= j < |r.worlds| ==> r.worlds[j] == if j < |s.worlds| then s.worlds[j] else w)
            && r.generation == Around(s.generation, n)
            && r.cache == s.cache && r.calls == s.calls
    ensures Changes(Repeated(w, n)) == n
  {
    hide Run, Bump, Around;
    BumpAround(s.generation, n);
    if n == 0 {
      RunNothing(h, s);
    } else {
      RunRepeated(h, s, w, n - 1);
      RunSnoc(h, s, Repeated(w, n - 1), Change(w));
      assert Repeated(w, n)[..|Repeated(w, n)| - 1] == Repeated(w, n - 1);
    }
  }

  /** `n` reads of one call, with nothing in between. */
  function ReadsOf(t: nat, n: nat): seq<Event>
  {
    if n == 0 then [] else ReadsOf(t, n - 1) + [ReadOn(t)]
  }

  lemma {:induction false} RunReads(h: Hashing, s: System, t: nat, n: nat)
    requires s.worlds != [] && t in s.calls && s.calls[t].Working?
    ensures var c := s.calls[t];
            Run(h, s, ReadsOf(t, n)) ==
            s.(calls := s.calls[t := c.(work := AdvanceBy(h, Now(s), c.key, c.work, n))])
  {
    hide Run, Advance;
    if n == 0 {
      RunNothing(h, s);
    } else {
      RunReads(h, s, t, n - 1);
      RunSnoc(h, s, ReadsOf(t, n - 1), ReadOn(t));
    }
  }

  /** A call left alone reads on to its verdict, stores it, and returns it. */
  lemma RunToEnd(h: Hashing, s: System, t: nat) returns (events: seq<Event>)
    requires s.worlds != [] && t in s.calls && s.calls[t].Working? && Sane(s.calls[t].work)
    ensures Changes(events) == 0
    ensures var c := s.calls[t];
            var v := Rest(h, Now(s), c.key, c.work);
            Run(h, s, events) == s.(cache := Store(s.cache, c.key, c.generation, v),
                                    calls := s.calls[t := Done(c.key, c.since, |s.worlds| - 1, v)])
  {
    hide Run, Rest, Advance;
    var c := s.calls[t];
    var n := Finishes(h, Now(s), c.key, c.work);
    RunReads(h, s, t, n);
    RunSnoc(h, s, ReadsOf(t, n), Commit(t));
    events := ReadsOf(t, n) + [Commit(t)];
    ReadsAreNoChanges(t, n);
    assert events[..|events| - 1] == ReadsOf(t, n);
    var v := Rest(h, Now(s), c.key, c.work);
    assert s.calls[t := c.(work := Answered(v))][t := Done(c.key, c.since, |s.worlds| - 1, v)]
        == s.calls[t := Done(c.key, c.since, |s.worlds| - 1, v)];
  }

  lemma {:induction false} ReadsAreNoChanges(t: nat, n: nat)
    ensures Changes(ReadsOf(t, n)) == 0
  {
    if n > 0 {
      ReadsAreNoChanges(t, n - 1);
      assert ReadsOf(t, n)[..|ReadsOf(t, n)| - 1] == ReadsOf(t, n - 1);
    }
  }

  /** A call that begins and finds nothing in the cache. */
  lemma RunMiss(h: Hashing, s: System, t: nat, key: CacheKey)
    requires s.worlds != [] && !Hit(s, key, s.generation)
    ensures Run(h, s, [Begin(t, key), LookUp(t)]) ==
            s.(calls := s.calls[t := Working(key, |s.worlds| - 1, s.generation, Fresh(key))])
    ensures Changes([Begin(t, key), LookUp(t)]) == 0
  {
    hide Run, Fresh;
    RunTwo(h, s, Begin(t, key), LookUp(t));
    NoChanges([Begin(t, key), LookUp(t)]);
    var c := Working(key, |s.worlds| - 1, s.generation, Fresh(key));
    assert s.calls[t := Begun(key, |s.worlds| - 1, s.generation)][t := c] == s.calls[t := c];
  }

  lemma RunTwo(h: Hashing, s: System, d: Event, e: Event)
    requires s.worlds != []
    ensures Run(h, s, [d, e]) == Step(h, Step(h, s, d), e)
  {
    RunNothing(h, s);
    RunSnoc(h, s, [], d);
    RunSnoc(h, s, [d], e);
    assert [] + [d] == [d] && [d] + [e] == [d, e];
  }

  /** A whole call on a cold cache: it walks, and leaves its verdict under the generation it read. */
  lemma FirstCall(h: Hashing, s: System, key: CacheKey) returns (events: seq<Event>)
    requires s.worlds != [] && s.cache == map[] && s.calls == map[]
    requires key.inode != 0 && JudgeIn(h, Now(s), key) != NO_RULE
    ensures Changes(events) == 0
    ensures var v := JudgeIn(h, Now(s), key);
            Run(h, s, events) ==
            s.(cache := map[key := Cached(v == ALLOW, s.generation)],
               calls := map[0 := Done(key, |s.worlds| - 1, |s.worlds| - 1, v)])
  {
    hide JudgeIn, Run, Fresh, Rest, OnCourse;
    RunMiss(h, s, 0, key);
    var s' := Run(h, s, [Begin(0, key), LookUp(0)]);
    FreshOnCourse(h, Now(s), key);
    OnCourseRest(h, Now(s), key, Fresh(key));
    OnCourseSane(h, Now(s), key, Fresh(key));
    events := RunToEnd(h, s', 0);
    RunConcat(h, s, [Begin(0, key), LookUp(0)], events);
    ChangesConcat([Begin(0, key), LookUp(0)], events);
    events := [Begin(0, key), LookUp(0)] + events;
  }

  lemma OnCourseSane(h: Hashing, w: World, k: CacheKey, work: Work)
    requires OnCourse(h, w, k, work)
    ensures Sane(work)
  {
  }

  lemma RunNothing(h: Hashing, s: System)
    requires s.worlds != []
    ensures Run(h, s, []) == s
  {
  }

  lemma {:induction false} ChangesConcat(a: seq<Event>, b: seq<Event>)
    ensures Changes(a + b) == Changes(a) + Changes(b)
    decreases |b|
  {
    if b == [] {
      assert a + b == a;
    } else {
      assert (a + b)[..|a + b| - 1] == a + b[..|b| - 1];
      ChangesConcat(a, b[..|b| - 1]);
    }
  }

  lemma {:induction false} NoChanges(events: seq<Event>)
    requires forall i :: 0 <= i < |events| ==> !events[i].Change?
    ensures Changes(events) == 0
  {
    if events != [] { NoChanges(events[..|events| - 1]); }
  }

  /** A call that finds its entry under the current stamp is served from it. */
  lemma SecondCall(h: Hashing, s: System, key: CacheKey)
    requires s.worlds != [] && Hit(s, key, s.generation)
    ensures Run(h, s, [Begin(1, key), LookUp(1)]) ==
            s.(calls := s.calls[1 := Done(key, |s.worlds| - 1, |s.worlds| - 1, Code(s.cache[key].allow))])
    ensures Changes([Begin(1, key), LookUp(1)]) == 0
  {
    hide Run;
    RunTwo(h, s, Begin(1, key), LookUp(1));
    NoChanges([Begin(1, key), LookUp(1)]);
    var c := Done(key, |s.worlds| - 1, |s.worlds| - 1, Code(s.cache[key].allow));
    assert s.calls[1 := Begun(key, |s.worlds| - 1, s.generation)][1 := c] == s.calls[1 := c];
  }

  lemma CounterReturns(g: nat)
    requires g < 0x1_0000_0000
    ensures Around(g, 0x1_0000_0000) == g
  {
  }

  lemma AroundInRange(g: nat, n: nat)
    ensures Around(g, n) < 0x1_0000_0000
  {
  }

  /**
   Any number of changes, a call, 2^32 changes that bring the counter back, and the same
   call again: the old answer is then served as current.
   */
  lemma WrapServesStaleAnswer(h: Hashing, before: World, after: World, key: CacheKey, m: nat)
    returns (events: seq<Event>)
    requires key.inode != 0 && JudgeIn(h, before, key) != NO_RULE
    ensures Changes(events) == m + 0x1_0000_0000
    ensures var s := Run(h, Start(before), events);
            && 1 in s.calls && s.calls[1] == Done(key, |s.worlds| - 1, |s.worlds| - 1, JudgeIn(h, before, key))
            && Now(s) == after
  {
    hide JudgeIn, Repeated, Run, Around, Changes;
    var a, c, d := Repeated(before, m), Repeated(after, 0x1_0000_0000), [Begin(1, key), LookUp(1)];
    RunRepeated(h, Start(before), before, m);
    var s0 := Run(h, Start(before), a);
    var b := FirstCall(h, s0, key);
    JudgeRange(h, before, key);
    var s1 := Run(h, s0, b);
    AroundInRange(0, m);
    RunRepeated(h, s1, after, 0x1_0000_0000);
    CounterReturns(s1.generation);
    SecondCall(h, Run(h, s1, c), key);
    RunInParts(h, Start(before), a, b, c, d);
    events := a + b + c + d;
  }

  lemma RunInParts(h: Hashing, s: System, a: seq<Event>, b: seq<Event>, c: seq<Event>, d: seq<Event>)
    requires s.worlds != []
    ensures Run(h, s, a + b + c + d) == Run(h, Run(h, Run(h, Run(h, s, a), b), c), d)
    ensures Changes(a + b + c + d) == Changes(a) + Changes(b) + Changes(c) + Changes(d)
  {
    hide Run, Changes;
    RunConcat(h, s, a + b + c, d);
    RunConcat(h, s, a + b, c);
    RunConcat(h, s, a, b);
    ChangesConcat(a + b + c, d);
    ChangesConcat(a + b, c);
    ChangesConcat(a, b);
  }

  /** Every finished call of every run with `n` changes, if none fell into it, answered as the walk would have. */
  ghost predicate Transparent(h: Hashing, n: nat)
  {
    forall w, events, t :: Changes(events) == n ==> TrulyAnswers(h, Run(h, Start(w), events), t)
  }

  ghost predicate TrulyAnswers(h: Hashing, s: System, t: nat)
  {
    t in s.calls && s.calls[t].Done? ==> AnsweredTruly(h, s.worlds, s.calls[t])
  }

  /** The bound is exact: if any change can matter at all, the cache is transparent for just those n below 2^32. */
  lemma TransparentIffNoWrap(h: Hashing, a: World, b: World, key: CacheKey, n: nat)
    requires key.inode != 0 && JudgeIn(h, a, key) != JudgeIn(h, b, key)
    ensures Transparent(h, n) <==> n < 0x1_0000_0000
  {
    hide JudgeIn, Run, Changes, Truthful;
    if n < 0x1_0000_0000 {
      forall w, events, t | Changes(events) == n ensures TrulyAnswers(h, Run(h, Start(w), events), t) {
        CacheIsTransparent(h, w, events, t);
      }
    } else {
      var decided := JudgeIn(h, a, key) != NO_RULE;
      var before, after := if decided then a else b, if decided then b else a;
      var events := WrapServesStaleAnswer(h, before, after, key, n - 0x1_0000_0000);
      assert !TrulyAnswers(h, Run(h, Start(before), events), 1);
    }
  }
}
