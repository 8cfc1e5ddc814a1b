/**
 Rows written while the cache is live: a role defined at run time is written with no
 bump of the generation. When that is harmless, for every continuation.
 */
module Redefine {
  import opened Base
  import opened Patterns
  import opened Table
  import opened RoleEncoder
  import opened Walk
  import opened Collect
  import opened Reads
  import opened Cache
  import opened OneRule

  ghost predicate RoleOnly(entries: seq<Entry>, role: nat)
  {
    forall e :: e in entries ==> e.key.role == role
  }

  /** Rows written into the world as it is, under the generation as it is. */
  function WriteRows(s: System, entries: seq<Entry>): System
    requires s.worlds != []
  {
    s.(worlds := s.worlds[|s.worlds| - 1 := Now(s).(rows := WriteAll(Now(s).rows, entries))])
  }

  predicate Stamped(s: System, k: CacheKey)
  {
    k in s.cache && s.cache[k].generation == s.generation
  }

  /** A call at work under the current generation, on a file whose verdict can be stored. */
  predicate InFlight(s: System, t: nat)
  {
    t in s.calls && s.calls[t].Working? && s.calls[t].generation == s.generation && s.calls[t].key.inode != 0
  }

  /** Its lookups have come to nothing, or are bound to: it will store nothing. */
  predicate Spent(h: Hashing, w: World, k: CacheKey, work: Work)
  {
    HasLooked(work) && Rest(h, w, k, work) == NO_RULE
  }

  ghost predicate WorkKept(h: Hashing, w: World, c: Call)
    requires c.Working?
  {
    OnCourse(h, w, c.key, c.work) || Spent(h, w, c.key, c.work)
  }

  /** Stamps are never ahead; what is current, or may be stored as current, is what the walk would answer now. */
  ghost predicate Kept(h: Hashing, s: System)
  {
    && 0 < |s.worlds| <= 0x1_0000_0000 && s.generation == |s.worlds| - 1
    && (forall k :: k in s.cache ==> s.cache[k].generation <= s.generation)
    && (forall t :: t in s.calls && !s.calls[t].Done? ==> s.calls[t].generation <= s.generation)
    && (forall k :: Stamped(s, k) ==> Code(s.cache[k].allow) == JudgeIn(h, Now(s), k))
    && (forall t :: InFlight(s, t) ==> WorkKept(h, Now(s), s.calls[t]))
  }

  lemma SoundIsKept(h: Hashing, s: System)
    requires Sound(h, s)
    ensures Kept(h, s)
  {
    hide JudgeIn, OnCourse;
    forall t | t in s.calls ensures CallOk(h, s.worlds, s.calls[t]) {
    }
  }

  /** Every state a run with fewer than 2^32 bumps reaches is one the theorems below start from. */
  lemma ReachableIsKept(h: Hashing, w: World, events: seq<Event>)
    requires Changes(events) < 0x1_0000_0000
    ensures Kept(h, Run(h, Start(w), events))
  {
    RunIsSound(h, w, events);
    SoundIsKept(h, Run(h, Start(w), events));
  }

  lemma WorkKeptAdvance(h: Hashing, w: World, c: Call)
    requires c.Working? && WorkKept(h, w, c)
    ensures WorkKept(h, w, c.(work := Advance(h, w, c.key, c.work)))
  {
    hide OnCourse, Rest, Advance;
    if OnCourse(h, w, c.key, c.work) {
      OnCourseAdvance(h, w, c.key, c.work);
    } else {
      LookedIsSane(c.work);
      RestAdvance(h, w, c.key, c.work);
      LooksOn(h, w, c.key, c.work);
    }
  }

  lemma LookedIsSane(work: Work)
    requires HasLooked(work)
    ensures Sane(work) && !work.Climbing?
  {
  }

  /** What a kept call stores is what the walk would answer. */
  lemma StoredIsTrue(h: Hashing, w: World, c: Call)
    requires c.Working? && WorkKept(h, w, c) && c.work.Answered? && c.work.verdict != NO_RULE
    ensures c.work.verdict == JudgeIn(h, w, c.key)
  {
    hide JudgeIn;
    AnsweredRest(h, w, c.key, c.work);
    if OnCourse(h, w, c.key, c.work) { OnCourseRest(h, w, c.key, c.work); }
  }

  lemma StepKeeps(h: Hashing, s: System, e: Event)
    requires Kept(h, s)
    requires e.Change? ==> |s.worlds| < 0x1_0000_0000
    ensures Kept(h, Step(h, s, e))
    ensures |Step(h, s, e).worlds| == |s.worlds| + if e.Change? then 1 else 0
  {
    hide JudgeIn, OnCourse, Spent, Advance, Fresh, WorkKept;
    if (e.LookUp? || e.ReadOn? || e.Commit?) && Ready(s, e) {
      var c := s.calls[e.call];
      JudgeRange(h, Now(s), c.key);
      match e
      case LookUp(t) => FreshIsKept(h, Now(s), c.key, c.since, c.generation);
      case ReadOn(t) => if InFlight(s, t) { WorkKeptAdvance(h, Now(s), c); }
      case Commit(t) => if InFlight(s, t) && c.work.verdict != NO_RULE { StoredIsTrue(h, Now(s), c); }
    }
  }

  lemma FreshIsKept(h: Hashing, w: World, k: CacheKey, since: nat, generation: nat)
    ensures WorkKept(h, w, Working(k, since, generation, Fresh(k)))
  {
    FreshOnCourse(h, w, k);
  }

  lemma {:induction false} RunKeeps(h: Hashing, s: System, events: seq<Event>)
    requires Kept(h, s) && |s.worlds| + Changes(events) <= 0x1_0000_0000
    ensures Kept(h, Run(h, s, events))
    ensures |Run(h, s, events).worlds| == |s.worlds| + Changes(events)
    decreases |events|
  {
    hide OnCourse, JudgeIn, Step;
    if events != [] {
      RunKeeps(h, s, events[..|events| - 1]);
      StepKeeps(h, Run(h, s, events[..|events| - 1]), events[|events| - 1]);
    }
  }

  /** In every continuation the counter survives, each current entry is what the walk would answer. */
  ghost predicate Safe(h: Hashing, s: System)
    requires s.worlds != []
  {
    forall events :: |s.worlds| + Changes(events) <= 0x1_0000_0000 ==> TruthfulAfter(h, s, events)
  }

  ghost predicate TruthfulAfter(h: Hashing, s: System, events: seq<Event>)
    requires s.worlds != []
  {
    var r := Run(h, s, events);
    Truthful(h, Now(r), r.cache, r.generation)
  }

  lemma KeptIsTruthful(h: Hashing, s: System)
    requires Kept(h, s)
    ensures Truthful(h, Now(s), s.cache, s.generation)
  {
    hide JudgeIn, WorkKept;
    forall k | k in s.cache && s.cache[k].generation == s.generation
      ensures Code(s.cache[k].allow) == JudgeIn(h, Now(s), k)
    {
      assert Stamped(s, k);
    }
  }

  lemma KeptIsSafe(h: Hashing, s: System)
    requires Kept(h, s)
    ensures Safe(h, s)
  {
    hide JudgeIn, Run, Changes, WorkKept, Truthful;
    forall events | |s.worlds| + Changes(events) <= 0x1_0000_0000 ensures TruthfulAfter(h, s, events) {
      RunKeeps(h, s, events);
      KeptIsTruthful(h, Run(h, s, events));
    }
  }

  // ---- a quiet role may be written ----

  /** A call of the role that has looked rows up, and may yet store what they lead to. */
  predicate Committed(s: System, t: nat, role: nat)
  {
    && InFlight(s, t) && s.calls[t].key.role == role
    && HasLooked(s.calls[t].work) && s.calls[t].work != Answered(NO_RULE)
  }

  /** No entry of the role is current, and no call of the role is past its first lookup under the current generation. */
  ghost predicate Quiet(s: System, role: nat)
  {
    && (forall k :: Stamped(s, k) ==> k.role != role)
    && (forall t :: !Committed(s, t, role))
  }

  lemma OtherRoleRows(w: World, entries: seq<Entry>, role: nat, other: nat)
    requires RoleOnly(entries, role) && other != role
    ensures forall r: Key :: r.role == other ==>
              (r in w.rows <==> r in WriteAll(w.rows, entries))
              && (r in WriteAll(w.rows, entries) ==> w.rows[r] == WriteAll(w.rows, entries)[r])
  {
    hide WriteAll;
    forall r: Key | r.role == other
      ensures r in WriteAll(w.rows, entries) <==> r in w.rows
      ensures r in w.rows ==> WriteAll(w.rows, entries)[r] == w.rows[r]
    {
      WriteAllOtherRole(w.rows, entries, role, r);
    }
  }

  lemma JudgeOfOtherRole(h: Hashing, w: World, entries: seq<Entry>, role: nat, k: CacheKey)
    requires RoleOnly(entries, role) && k.role != role
    ensures JudgeIn(h, w.(rows := WriteAll(w.rows, entries)), k) == JudgeIn(h, w, k)
  {
    hide WriteAll, Seen;
    OtherRoleRows(w, entries, role, k.role);
    var c := Seen(w.fs, k.root, k.path);
    SameRowsSameWalk(w.rows, WriteAll(w.rows, entries), k.role, 0, Reverse(Hashes(h, c.names)));
  }

  lemma WorkOfOtherRole(h: Hashing, w: World, entries: seq<Entry>, role: nat, c: Call)
    requires RoleOnly(entries, role) && c.key.role != role && c.Working? && WorkKept(h, w, c)
    ensures WorkKept(h, w.(rows := WriteAll(w.rows, entries)), c)
  {
    hide WriteAll, JudgeIn, Rest, Outcome, Seen;
    OtherRoleRows(w, entries, role, c.key.role);
    RestOfOwnRows(h, w, WriteAll(w.rows, entries), c.key, c.work);
    JudgeOfOtherRole(h, w, entries, role, c.key);
  }

  /** A call of the role that has looked nothing up yet will walk the new rows from the start. */
  lemma WorkNotYetLooked(h: Hashing, w: World, rows: Rows, c: Call)
    requires c.Working? && WorkKept(h, w, c) && (!HasLooked(c.work) || c.work == Answered(NO_RULE))
    ensures WorkKept(h, w.(rows := rows), c)
  {
    hide JudgeIn, OnCourse;
    if !HasLooked(c.work) { OnCourseAnyRows(h, w, rows, c.key, c.work); }
  }

  /** Whatever rows of a quiet role are written, all of a definition or one of it, the cache keeps its word. */
  lemma QuietWriteKeeps(h: Hashing, s: System, entries: seq<Entry>, role: nat)
    requires Kept(h, s) && RoleOnly(entries, role) && Quiet(s, role)
    ensures Kept(h, WriteRows(s, entries))
  {
    hide JudgeIn, WriteAll, WorkKept;
    var w' := Now(WriteRows(s, entries));
    forall k | Stamped(s, k) ensures JudgeIn(h, w', k) == JudgeIn(h, Now(s), k) {
      JudgeOfOtherRole(h, Now(s), entries, role, k);
    }
    forall t | InFlight(s, t) ensures WorkKept(h, w', s.calls[t]) {
      if s.calls[t].key.role == role {
        assert !Committed(s, t, role);
        WorkNotYetLooked(h, Now(s), w'.rows, s.calls[t]);
      } else {
        WorkOfOtherRole(h, Now(s), entries, role, s.calls[t]);
      }
    }
  }

  // ---- a role that is not quiet may not ----

  /** The name just below the root on the way to a place; last, as names are collected leaf first. */
  function Topmost(w: World, k: CacheKey): Name
  {
    var names := Seen(w.fs, k.root, k.path).names;
    if names == [] then [] else names[|names| - 1]
  }

  /**
   Some pattern reaches the place from the root: its topmost name is one a pattern can
   spell, or it has no exact row (a directory called `**` never gets one).
   */
  predicate Spellable(h: Hashing, w: World, k: CacheKey)
  {
    var top := Topmost(w, k);
    (IsComponent(top) && top != STAR) || Key(k.role, 0, h.comp(top)) !in w.rows
  }

  lemma OneNameTable(h: Hashing, role: nat, c: Name, allow: bool)
    requires IsComponent(c)
    ensures Definition(h, role, Spelled([c], allow), TableOf(h, role, [c], allow))
    ensures TableOf(h, role, [c], allow) ==
            [Entry(Key(role, 0, EdgeHash(h, c)), Value(TerminalState(allow), true, allow, c == STAR))]
  {
    SpelledIsDefinition(h, role, [c], allow);
    assert [c][..0] == [];
  }

  /** A terminal row found for the topmost name is the answer, if the path is answered at all. */
  lemma TopRowSettles(h: Hashing, w: World, k: CacheKey, at: Key, v: Value)
    requires v.terminal && Find(w.rows[at := v], k.role, 0, h.comp(Topmost(w, k))) == Some(v)
    ensures JudgeIn(h, w.(rows := w.rows[at := v]), k) in {NO_RULE, Code(v.decision)}
    ensures JudgeIn(h, w, k) != NO_RULE ==> JudgeIn(h, w.(rows := w.rows[at := v]), k) == Code(v.decision)
  {
    hide Seen, Find, Reverse;
    var c := Seen(w.fs, k.root, k.path);
    var path := Reverse(Hashes(h, c.names));
    if c.names != [] { assert path[0] == h.comp(Topmost(w, k)); }
  }

  lemma StarIsComponent()
    ensures IsComponent(STAR)
  {
  }

  /** A definition of one pattern, naming the topmost directory of a decided place, settles that place. */
  lemma Overruled(h: Hashing, w: World, k: CacheKey, allow: bool) returns (entries: seq<Entry>)
    requires JudgeIn(h, w, k) != NO_RULE && Spellable(h, w, k)
    ensures IsDefinition(h, k.role, entries)
    ensures JudgeIn(h, w.(rows := WriteAll(w.rows, entries)), k) == Code(allow)
  {
    hide Definition, JudgeIn, IsComponent, TableOf;
    var top := Topmost(w, k);
    StarIsComponent();
    var name := if IsComponent(top) then top else STAR;
    OneNameTable(h, k.role, name, allow);
    entries := TableOf(h, k.role, [name], allow);
    WriteOne(w.rows, entries[0]);
    TopRowSettles(h, w, k, entries[0].key, entries[0].value);
  }

  ghost predicate IsDefinition(h: Hashing, role: nat, entries: seq<Entry>)
  {
    exists raw :: Definition(h, role, raw, entries)
  }

  /** A current entry is made wrong at once. */
  lemma CurrentEntryIsSpoiled(h: Hashing, s: System, k: CacheKey) returns (entries: seq<Entry>)
    requires Kept(h, s) && Stamped(s, k) && Spellable(h, Now(s), k)
    ensures IsDefinition(h, k.role, entries) && !TruthfulAfter(h, WriteRows(s, entries), [])
  {
    hide JudgeIn, Spellable, IsDefinition, Run, WorkKept;
    entries := Overruled(h, Now(s), k, !s.cache[k].allow);
    RunNothing(h, WriteRows(s, entries));
  }

  /** No row of the role leads back to the root's state. */
  ghost predicate NoWayBack(rows: Rows, role: nat)
  {
    forall k :: k in rows && k.role == role ==> rows[k].next != 0
  }

  lemma {:induction false} WalkPastRoot(rows: Rows, role: nat, x: bv64, v: Value, state: bv64, hashes: seq<bv64>)
    requires NoWayBack(rows, role) && state != 0
    ensures WalkFrom(rows[Key(role, 0, x) := v], role, state, hashes) == WalkFrom(rows, role, state, hashes)
    decreases |hashes|
  {
    if hashes != [] && Find(rows, role, state, hashes[0]).Some? {
      WalkPastRoot(rows, role, x, v, Find(rows, role, state, hashes[0]).value.next, hashes[1..]);
    }
  }

  /** A walk past its first lookup does not see a new exact row at the root. */
  lemma RestPastRoot(h: Hashing, w: World, k: CacheKey, work: Work, x: bv64, v: Value)
    requires NoWayBack(w.rows, k.role) && x != 0 && HasLooked(work)
    requires work.Walking? ==> work.state != 0 || (work.missed && work.i < |work.path|)
    ensures Rest(h, w.(rows := w.rows[Key(k.role, 0, x) := v]), k, work) == Rest(h, w, k, work)
  {
    if work.Walking? {
      var i, path, any := work.i, work.path, Key(k.role, work.state, 0);
      if work.state != 0 { WalkPastRoot(w.rows, k.role, x, v, work.state, if i < |path| then path[i..] else []); }
      if work.missed && i < |path| && any in w.rows {
        WalkPastRoot(w.rows, k.role, x, v, w.rows[any].next, path[i + 1..]);
      }
    }
  }

  /** The call has looked rows up at the root, and what it looks up from here on is not there. */
  ghost predicate PastRoot(h: Hashing, s: System, t: nat)
    requires s.worlds != []
  {
    && t in s.calls && s.calls[t].Working?
    && var c := s.calls[t];
       var top := Topmost(Now(s), c.key);
       && IsComponent(top) && top != STAR && h.comp(top) != 0 && NoWayBack(Now(s).rows, c.key.role)
       && HasLooked(c.work) && (c.work.Walking? ==> c.work.state != 0 || (c.work.missed && c.work.i < |c.work.path|))
  }

  /**
   One definition is enough against any call past its first lookup that is going to answer:
   it answers, and stores, what the rows it began with lead to.
   */
  lemma WalkInProgressSpoils(h: Hashing, s: System, t: nat) returns (entries: seq<Entry>, events: seq<Event>)
    requires Kept(h, s) && InFlight(s, t) && PastRoot(h, s, t)
    requires Rest(h, Now(s), s.calls[t].key, s.calls[t].work) != NO_RULE
    ensures IsDefinition(h, s.calls[t].key.role, entries)
    ensures Changes(events) == 0 && !TruthfulAfter(h, WriteRows(s, entries), events)
  {
    hide JudgeIn, Definition, Run, Changes, Rest, IsComponent, NoWayBack, TableOf;
    var c, w := s.calls[t], Now(s);
    var top, v := Topmost(w, c.key), Rest(h, w, c.key, c.work);
    assert v == JudgeIn(h, w, c.key) by { KeptRest(h, w, c); }
    JudgeRange(h, w, c.key);
    OneNameTable(h, c.key.role, top, v != ALLOW);
    entries := TableOf(h, c.key.role, [top], v != ALLOW);
    WriteOne(w.rows, entries[0]);
    TopRowSettles(h, w, c.key, entries[0].key, entries[0].value);
    RestPastRoot(h, w, c.key, c.work, h.comp(top), entries[0].value);
    LookedIsSane(c.work);
    events := RunToEnd(h, WriteRows(s, entries), t);
    StoredIsStale(h, WriteRows(s, entries), t, events, v);
  }

  lemma KeptRest(h: Hashing, w: World, c: Call)
    requires c.Working? && WorkKept(h, w, c) && Rest(h, w, c.key, c.work) != NO_RULE
    ensures Rest(h, w, c.key, c.work) == JudgeIn(h, w, c.key)
  {
    OnCourseRest(h, w, c.key, c.work);
  }

  /** A run that leaves a verdict stored under the current stamp which the walk would not give. */
  lemma StoredIsStale(h: Hashing, s: System, t: nat, events: seq<Event>, v: int)
    requires s.worlds != [] && InFlight(s, t) && v in {ALLOW, DENY}
    requires JudgeIn(h, Now(s), s.calls[t].key) != v
    requires var c, r := s.calls[t], Run(h, s, events);
             r.worlds == s.worlds && r.generation == s.generation && r.cache == Store(s.cache, c.key, c.generation, v)
    ensures !TruthfulAfter(h, s, events)
  {
    hide JudgeIn, Run;
    var r, k := Run(h, s, events), s.calls[t].key;
    assert k in r.cache && r.cache[k] == Cached(v == ALLOW, s.generation);
  }

  // ---- definitions in a row ----

  /** The role defined again and again with nothing in between. */
  function Redefined(s: System, defs: seq<seq<Entry>>): (r: System)
    requires s.worlds != []
    ensures r.worlds != []
  {
    if defs == [] then s else WriteRows(Redefined(s, defs[..|defs| - 1]), defs[|defs| - 1])
  }

  ghost predicate Definitions(h: Hashing, role: nat, defs: seq<seq<Entry>>)
  {
    forall i :: 0 <= i < |defs| ==> IsDefinition(h, role, defs[i])
  }

  lemma DefinitionIsOfRole(h: Hashing, role: nat, entries: seq<Entry>)
    requires IsDefinition(h, role, entries)
    ensures RoleOnly(entries, role)
  {
    hide Clash, Effectual, Expected;
    var raw :| Definition(h, role, raw, entries);
    var slots :| IsTable(h, role, Effectual(raw), entries, slots);
  }

  lemma KeptBounds(h: Hashing, s: System)
    requires Kept(h, s)
    ensures 0 < |s.worlds| <= 0x1_0000_0000
  {
  }

  lemma StillQuiet(s: System, entries: seq<Entry>, role: nat)
    requires s.worlds != [] && Quiet(s, role)
    ensures Quiet(WriteRows(s, entries), role)
  {
    assert forall k :: Stamped(WriteRows(s, entries), k) ==> Stamped(s, k);
    assert forall t :: Committed(WriteRows(s, entries), t, role) ==> Committed(s, t, role);
  }

  lemma {:induction false} QuietRedefinedKeeps(h: Hashing, s: System, role: nat, defs: seq<seq<Entry>>)
    requires Kept(h, s) && Quiet(s, role) && Definitions(h, role, defs)
    ensures Kept(h, Redefined(s, defs)) && Quiet(Redefined(s, defs), role)
    decreases |defs|
  {
    hide Kept, WriteAll, IsDefinition, Quiet;
    KeptBounds(h, s);
    if defs != [] {
      var init, last := defs[..|defs| - 1], defs[|defs| - 1];
      QuietRedefinedKeeps(h, s, role, init);
      StillQuiet(Redefined(s, init), last, role);
      DefinitionIsOfRole(h, role, last);
      QuietWriteKeeps(h, Redefined(s, init), last, role);
    }
  }

  /** The component whose slot the walk will look up next. */
  predicate NextIs(h: Hashing, work: Work, c: Name)
    requires work.Walking?
  {
    if work.i < |work.path| && !work.missed then c != STAR && h.comp(c) == work.path[work.i] else c == STAR
  }

  /** A walk in progress stands at a prefix patterns can spell, like its next component and its topmost name. */
  ghost predicate StandsAt(h: Hashing, w: World, k: CacheKey, work: Work, p: seq<Name>, c: Name)
  {
    && work.Walking? && HasLooked(work) && |p| == work.i && work.state == StateAfter(h, k.role, p)
    && (p != [] ==> work.state != 0)
    && (forall x :: x in p + [c] ==> IsComponent(x)) && NextIs(h, work, c)
    && var top := Topmost(w, k); IsComponent(top) && top != STAR && h.comp(top) != 0
  }

  lemma LastOfTable(h: Hashing, role: nat, rows: Rows, p: seq<Name>, c: Name, allow: bool)
    ensures var k := Key(role, StateAfter(h, role, p), EdgeHash(h, c));
            var rows' := WriteAll(rows, TableOf(h, role, p + [c], allow));
            k in rows' && rows'[k].terminal && rows'[k].decision == allow
  {
    hide StateAfter, EdgeHash;
    var q := p + [c];
    var entries := TableOf(h, role, q, allow);
    assert q[..|p|] == p && q[|p|] == c;
    assert entries[|entries| - 1] == EntryOn(h, role, q, allow, |p|);
  }

  /** The next lookup finds the row, and that is the answer. */
  lemma NextLookup(h: Hashing, w: World, k: CacheKey, work: Work, p: seq<Name>, c: Name, allow: bool)
    requires StandsAt(h, w, k, work, p, c)
    requires var x := Key(k.role, work.state, EdgeHash(h, c));
             x in w.rows && w.rows[x].terminal && w.rows[x].decision == allow
    ensures Advance(h, w, k, work) == Answered(Code(allow))
  {
  }

  /**
   Two definitions in a row are enough against any walk past its first lookup, even one that
   would answer nothing: the first names the path by way of the prefix where the walk stands, the
   second the topmost directory, with the other decision.
   */
  lemma AnyWalkSpoils(h: Hashing, s: System, t: nat, p: seq<Name>, c: Name) returns (defs: seq<seq<Entry>>)
    requires Kept(h, s) && InFlight(s, t) && StandsAt(h, Now(s), s.calls[t].key, s.calls[t].work, p, c)
    ensures Definitions(h, s.calls[t].key.role, defs)
    ensures !TruthfulAfter(h, Redefined(s, defs), [ReadOn(t), Commit(t)])
  {
    hide JudgeIn, Definition, Run, IsComponent, TableOf, WriteAll, WorkKept, Advance, Kept, StateAfter, Redefined;
    KeptBounds(h, s);
    var k, work, w := s.calls[t].key, s.calls[t].work, Now(s);
    var top := Topmost(w, k);
    var first, then' := TableOf(h, k.role, p + [c], true), TableOf(h, k.role, [top], false);
    SpelledIsDefinition(h, k.role, p + [c], true);
    OneNameTable(h, k.role, top, false);
    defs := [first, then'];
    assert defs[..1] == [first] && [first][..0] == [];
    var s' := WriteRows(WriteRows(s, first), then');
    assert Redefined(s, defs) == s' by { RedefinedTwice(s, first, then'); }
    var rows := WriteAll(w.rows, first);
    LastOfTable(h, k.role, w.rows, p, c, true);
    WriteOne(rows, then'[0]);
    assert Topmost(w.(rows := rows), k) == top;
    TopRowSettles(h, w.(rows := rows), k, then'[0].key, then'[0].value);
    NextLookup(h, Now(s'), k, work, p, c, true);
    RunTwo(h, s', ReadOn(t), Commit(t));
    StoredIsStale(h, s', t, [ReadOn(t), Commit(t)], ALLOW);
  }

  lemma RedefinedTwice(s: System, a: seq<Entry>, b: seq<Entry>)
    requires s.worlds != []
    ensures Redefined(s, [a, b]) == WriteRows(WriteRows(s, a), b)
  {
    assert [a, b][..1] == [a] && [a][..0] == [];
    assert Redefined(s, [a]) == WriteRows(Redefined(s, []), a);
  }

  lemma RedefinedOnce(s: System, a: seq<Entry>)
    requires s.worlds != []
    ensures Redefined(s, [a]) == WriteRows(s, a)
  {
    assert [a][..0] == [];
  }

  /** The places and prefixes a definition could make stale are ones patterns can reach. */
  ghost predicate AllSpellable(h: Hashing, s: System, role: nat)
    requires s.worlds != []
  {
    && (forall k :: Stamped(s, k) && k.role == role ==> Spellable(h, Now(s), k))
    && (forall t :: Committed(s, t, role) ==> CallSpellable(h, Now(s), s.calls[t]))
  }

  ghost predicate CallSpellable(h: Hashing, w: World, c: Call)
    requires c.Working?
  {
    if c.work.Answered? then Spellable(h, w, c.key) else exists p, x :: StandsAt(h, w, c.key, c.work, p, x)
  }

  /** A verdict reached and not yet stored is made wrong before it is. */
  lemma AnsweredCallSpoils(h: Hashing, s: System, t: nat) returns (entries: seq<Entry>)
    requires Kept(h, s) && InFlight(s, t) && s.calls[t].work.Answered? && s.calls[t].work.verdict != NO_RULE
    requires Spellable(h, Now(s), s.calls[t].key)
    ensures IsDefinition(h, s.calls[t].key.role, entries)
    ensures !TruthfulAfter(h, WriteRows(s, entries), [Commit(t)])
  {
    hide JudgeIn, Spellable, IsDefinition, Run, OnCourse;
    var c := s.calls[t];
    StoredIsTrue(h, Now(s), c);
    JudgeRange(h, Now(s), c.key);
    entries := Overruled(h, Now(s), c.key, c.work.verdict != ALLOW);
    RunOne(h, WriteRows(s, entries), Commit(t));
    StoredIsStale(h, WriteRows(s, entries), t, [Commit(t)], c.work.verdict);
  }

  lemma RunOne(h: Hashing, s: System, e: Event)
    requires s.worlds != []
    ensures Run(h, s, [e]) == Step(h, s, e)
  {
    assert [] + [e] == [e];
    RunSnoc(h, s, [], e);
    RunNothing(h, s);
  }

  /** Some definitions in a row, and a continuation, after which a current entry is wrong. */
  lemma NotQuietSpoils(h: Hashing, s: System, role: nat) returns (defs: seq<seq<Entry>>, events: seq<Event>)
    requires Kept(h, s) && AllSpellable(h, s, role) && !Quiet(s, role)
    ensures Definitions(h, role, defs)
    ensures Changes(events) == 0 && !TruthfulAfter(h, Redefined(s, defs), events)
  {
    hide JudgeIn, Spellable, IsDefinition, Run, TruthfulAfter, Kept, WriteAll, StandsAt, Redefined, Changes;
    KeptBounds(h, s);
    if k :| Stamped(s, k) && k.role == role {
      var entries := CurrentEntryIsSpoiled(h, s, k);
      RedefinedOnce(s, entries);
      defs, events := [entries], [];
    } else {
      var t :| Committed(s, t, role);
      var c := s.calls[t];
      assert CallSpellable(h, Now(s), c);
      if c.work.Answered? {
        var entries := AnsweredCallSpoils(h, s, t);
        RedefinedOnce(s, entries);
        defs, events := [entries], [Commit(t)];
      } else {
        var p, x :| StandsAt(h, Now(s), c.key, c.work, p, x);
        defs := AnyWalkSpoils(h, s, t, p, x);
        events := [ReadOn(t), Commit(t)];
      }
    }
    NoChanges(events);
  }

  /**
   Defining a role with no bump, once or several times in a row, is safe for every accepted list
   of rules and every continuation, if and only if the role is quiet: no current cache entry is its
   own, and no call of its own is past its first lookup under the current generation.
   */
  lemma DefinitionIsSafeIffQuiet(h: Hashing, s: System, role: nat)
    requires Kept(h, s) && AllSpellable(h, s, role)
    ensures (forall defs :: Definitions(h, role, defs) ==> Safe(h, Redefined(s, defs))) <==> Quiet(s, role)
  {
    hide Kept, Run, Changes, TruthfulAfter, Definitions, AllSpellable, WriteAll, Quiet, Redefined;
    KeptBounds(h, s);
    if Quiet(s, role) {
      forall defs | Definitions(h, role, defs) ensures Safe(h, Redefined(s, defs)) {
        QuietRedefinedKeeps(h, s, role, defs);
        KeptIsSafe(h, Redefined(s, defs));
      }
    } else {
      var defs, events := NotQuietSpoils(h, s, role);
      SameHistory(s, defs);
      assert !Safe(h, Redefined(s, defs));
    }
  }

  lemma {:induction false} SameHistory(s: System, defs: seq<seq<Entry>>)
    requires s.worlds != []
    ensures |Redefined(s, defs).worlds| == |s.worlds|
    decreases |defs|
  {
    hide WriteAll;
    if defs != [] { SameHistory(s, defs[..|defs| - 1]); }
  }

  // ---- runs that also write rows ----

  /** A step of the system, or rows of one role written with no bump: one row of a definition, or several. */
  datatype Act = Does(event: Event) | Writes(role: nat, entries: seq<Entry>)

  function Perform(h: Hashing, s: System, a: Act): System
    requires s.worlds != []
  {
    match a
    case Does(e) => Step(h, s, e)
    case Writes(_, entries) => WriteRows(s, entries)
  }

  /** States joined by acts: rows of a role are written only while it is quiet, and the counter never wraps. */
  ghost predicate QuietRun(h: Hashing, trace: seq<System>, acts: seq<Act>)
  {
    && |trace| == |acts| + 1
    && forall i :: 0 <= i < |acts| ==>
         trace[i].worlds != [] && Allowed(trace[i], acts[i]) && trace[i + 1] == Perform(h, trace[i], acts[i])
  }

  ghost predicate Allowed(s: System, a: Act)
  {
    match a
    case Does(e) => e.Change? ==> |s.worlds| < 0x1_0000_0000
    case Writes(role, entries) => RoleOnly(entries, role) && Quiet(s, role)
  }

  /**
   Over every such run, with definitions interleaved row by row between the single reads of
   calls, each current entry is what the walk would answer.
   */
  lemma {:induction false} QuietRunsStayTruthful(h: Hashing, trace: seq<System>, acts: seq<Act>, n: nat)
    requires QuietRun(h, trace, acts) && n < |trace| && Kept(h, trace[0])
    ensures Kept(h, trace[n]) && Truthful(h, Now(trace[n]), trace[n].cache, trace[n].generation)
  {
    hide JudgeIn, Step, WriteAll, Quiet, WorkKept, Truthful;
    if n > 0 {
      QuietRunsStayTruthful(h, trace, acts, n - 1);
      var s, a := trace[n - 1], acts[n - 1];
      assert trace[n - 1 + 1] == Perform(h, s, a);
      match a
      case Does(e) => StepKeeps(h, s, e);
      case Writes(role, entries) => QuietWriteKeeps(h, s, entries, role);
    }
    KeptIsTruthful(h, trace[n]);
  }
}
