/**
 The uncached half of the file hook, one read of shared memory at a time: a climb
 that reads mounts, parents and names, and then a walk that looks rows up. Whatever
 else runs may fall between any two of these reads.
 */
module Reads {
  import opened Base
  import opened Table
  import opened Walk
  import opened Collect

  datatype CacheKey = CacheKey(role: nat, path: Place, inode: Ptr, root: Place)

  /** Everything an uncached decision depends on: the transition rows and the tree of paths. */
  datatype World = World(rows: Rows, fs: Fs)

  function JudgeIn(h: Hashing, w: World, k: CacheKey): int
  {
    Judge(h, w.rows, w.fs, k.role, k.root, k.path)
  }

  /** How far one pass of the climb has read. */
  datatype Round = Top | AtMountRoot | Beneath(above: Ptr) | InMount | Parented(parent: Ptr)

  /**
   What a call has in hand: a climb at a place, with the names so far, leaf first; or a
   walk at component `i` of the path, its exact slot perhaps found empty; or its answer.
   */
  datatype Work =
    | Climbing(at: Place, names: seq<Name>, steps: nat, round: Round)
    | Walking(path: seq<bv64>, i: nat, state: bv64, missed: bool)
    | Answered(verdict: int)

  /** Nothing read yet. */
  function Fresh(k: CacheKey): Work
  {
    if k.path.dentry == 0 || k.path.mnt == 0 then Answered(NO_RULE)
    else Climbing(k.path, [], MAX_PATH_WALK_STEPS, Top)
  }

  /** The climb is over: a walk follows if it saw a whole path that has a name. */
  function Conclude(h: Hashing, c: Climbed): Work
  {
    if c.names == [] || !c.whole then Answered(NO_RULE) else Walking(Reverse(Hashes(h, c.names)), 0, 0, false)
  }

  function NameAt(fs: Fs, dentry: Ptr): Name
  {
    if dentry in fs.name then fs.name[dentry] else []
  }

  function Collected(names: seq<Name>, name: Name): seq<Name>
  {
    if name == [] then names else names + [name]
  }

  function Less(steps: nat): nat
  {
    if steps == 0 then 0 else steps - 1
  }

  /** One read of the climb. */
  function ClimbRead(h: Hashing, fs: Fs, root: Place, at: Place, names: seq<Name>, steps: nat, round: Round): Work
  {
    match round
    case Top =>
      if steps == 0 then Conclude(h, Climbed(names, false))
      else if at == root then Conclude(h, Climbed(names, true))
      else Climbing(at, names, steps, if at.dentry == Read(fs.mntRoot, at.mnt) then AtMountRoot else InMount)
    case AtMountRoot =>
      var above := Read(fs.mntParent, at.mnt);
      if above == 0 || above == at.mnt then Conclude(h, Climbed(names, true))
      else Climbing(at, names, steps, Beneath(above))
    case Beneath(above) =>
      var point := Read(fs.mountpoint, at.mnt);
      if point == 0 then Conclude(h, Climbed(names, false))
      else Climbing(Place(point, above), names, Less(steps), Top)
    case InMount =>
      var parent := Read(fs.parent, at.dentry);
      if parent == 0 || parent == at.dentry || |names| >= MAX_COMPONENTS then Conclude(h, Climbed(names, false))
      else Climbing(at, names, steps, Parented(parent))
    case Parented(parent) =>
      Climbing(Place(parent, at.mnt), Collected(names, NameAt(fs, at.dentry)), Less(steps), Top)
  }

  /** What a row that was found leads to. */
  function Follow(path: seq<bv64>, i: nat, row: Value): Work
  {
    if row.terminal then Answered(Code(row.decision)) else Walking(path, i + 1, row.next, false)
  }

  /** One lookup of the walk: the exact slot, then the wildcard slot; at the end of the path the wildcard slot alone. */
  function WalkRead(rows: Rows, role: nat, path: seq<bv64>, i: nat, state: bv64, missed: bool): Work
  {
    var exact, any := i < |path| && !missed, Key(role, state, 0);
    if exact then
      if Key(role, state, path[i]) in rows then Follow(path, i, rows[Key(role, state, path[i])])
      else Walking(path, i, state, true)
    else if any !in rows then Answered(NO_RULE)
    else if i < |path| then Follow(path, i, rows[any])
    else Answered(if rows[any].terminal then Code(rows[any].decision) else NO_RULE)
  }

  function Advance(h: Hashing, w: World, k: CacheKey, work: Work): Work
  {
    match work
    case Climbing(at, names, steps, round) => ClimbRead(h, w.fs, k.root, at, names, steps, round)
    case Walking(path, i, state, missed) => WalkRead(w.rows, k.role, path, i, state, missed)
    case Answered(_) => work
  }

  // ---- what is still to come, if the world stays as it is ----

  function Room(names: seq<Name>): nat
  {
    if |names| <= MAX_COMPONENTS then MAX_COMPONENTS - |names| else 0
  }

  function Resume(fs: Fs, root: Place, at: Place, names: seq<Name>, steps: nat): Climbed
  {
    Onto(names, Climb(fs, root, at, steps, Room(names)))
  }

  function Crossed(fs: Fs, root: Place, at: Place, names: seq<Name>, steps: nat, above: Ptr): Climbed
  {
    var point := Read(fs.mountpoint, at.mnt);
    if point == 0 then Climbed(names, false) else Resume(fs, root, Place(point, above), names, Less(steps))
  }

  function Lifted(fs: Fs, root: Place, at: Place, names: seq<Name>, steps: nat, parent: Ptr): Climbed
  {
    Resume(fs, root, Place(parent, at.mnt), Collected(names, NameAt(fs, at.dentry)), Less(steps))
  }

  /** What the climb will have brought back. */
  function Outcome(fs: Fs, root: Place, at: Place, names: seq<Name>, steps: nat, round: Round): Climbed
  {
    match round
    case Top => Resume(fs, root, at, names, steps)
    case AtMountRoot =>
      var above := Read(fs.mntParent, at.mnt);
      if above == 0 || above == at.mnt then Climbed(names, true)
      else Crossed(fs, root, at, names, steps, above)
    case Beneath(above) => Crossed(fs, root, at, names, steps, above)
    case InMount =>
      var parent := Read(fs.parent, at.dentry);
      if parent == 0 || parent == at.dentry || |names| >= MAX_COMPONENTS then Climbed(names, false)
      else Lifted(fs, root, at, names, steps, parent)
    case Parented(parent) => Lifted(fs, root, at, names, steps, parent)
  }

  function WalkRest(rows: Rows, role: nat, path: seq<bv64>, i: nat, state: bv64, missed: bool): int
  {
    var any := Key(role, state, 0);
    if i >= |path| then WalkFrom(rows, role, state, [])
    else if !missed then WalkFrom(rows, role, state, path[i..])
    else if any !in rows then NO_RULE
    else if rows[any].terminal then Code(rows[any].decision)
    else WalkFrom(rows, role, rows[any].next, path[i + 1..])
  }

  /** The verdict the call will reach if the world stays as it is. */
  function Rest(h: Hashing, w: World, k: CacheKey, work: Work): int
  {
    match work
    case Climbing(at, names, steps, round) =>
      var c := Outcome(w.fs, k.root, at, names, steps, round);
      WalkOf(w.rows, k.role, Hashes(h, c.names), !c.whole)
    case Walking(path, i, state, missed) => WalkRest(w.rows, k.role, path, i, state, missed)
    case Answered(v) => v
  }

  /** The climb of this work, as it will end. */
  function Ahead(w: World, k: CacheKey, work: Work): Climbed
    requires work.Climbing?
  {
    Outcome(w.fs, k.root, work.at, work.names, work.steps, work.round)
  }

  lemma ConcludeRest(h: Hashing, w: World, k: CacheKey, c: Climbed)
    ensures Rest(h, w, k, Conclude(h, c)) == WalkOf(w.rows, k.role, Hashes(h, c.names), !c.whole)
  {
    hide WalkFrom;
    var path := Reverse(Hashes(h, c.names));
    assert path[0..] == path;
  }

  /** Reading on does not change what the climb will bring back. */
  lemma ClimbReadAhead(h: Hashing, fs: Fs, root: Place, at: Place, names: seq<Name>, steps: nat, round: Round)
    requires round == Top || steps > 0
    ensures var next := ClimbRead(h, fs, root, at, names, steps, round);
            var c := Outcome(fs, root, at, names, steps, round);
            if next.Climbing? then
              Outcome(fs, root, next.at, next.names, next.steps, next.round) == c
              && (next.round == Top || next.steps > 0)
            else next == Conclude(h, c)
  {
    hide Climb, Hashes;
    if round == Top {
      if steps == 0 {
        OutOfSteps(names, fs, root, at, Room(names));
      } else {
        ClimbOneMove(names, fs, root, at, steps, Room(names));
      }
    }
  }

  /** Looking on does not change what the walk will answer. */
  lemma WalkReadRest(rows: Rows, role: nat, path: seq<bv64>, i: nat, state: bv64, missed: bool)
    ensures var next := WalkRead(rows, role, path, i, state, missed);
            match next
            case Walking(p, j, st, m) =>
              WalkRest(rows, role, p, j, st, m) == WalkRest(rows, role, path, i, state, missed)
            case Answered(v) => v == WalkRest(rows, role, path, i, state, missed)
            case Climbing(_, _, _, _) => false
  {
    if i < |path| {
      assert path[i..][0] == path[i] && path[i..][1..] == path[i + 1..];
      assert i + 1 == |path| ==> path[i + 1..] == [];
    }
  }

  /** A climb between two of its passes, or in one it had a step left for. */
  predicate Sane(work: Work)
  {
    work.Climbing? && work.round != Top ==> work.steps > 0
  }

  /** One more read, in a world that stays as it is, changes nothing about the verdict to come. */
  lemma RestAdvance(h: Hashing, w: World, k: CacheKey, work: Work)
    requires Sane(work)
    ensures Sane(Advance(h, w, k, work))
    ensures Rest(h, w, k, Advance(h, w, k, work)) == Rest(h, w, k, work)
  {
    hide Outcome, ClimbRead, Conclude, WalkRest, WalkRead, WalkOf;
    match work
    case Climbing(at, names, steps, round) =>
      ClimbReadAhead(h, w.fs, k.root, at, names, steps, round);
      ConcludeRest(h, w, k, Ahead(w, k, work));
      ConcludeIsNoClimb(h, Ahead(w, k, work));
    case Walking(path, i, state, missed) => WalkReadRest(w.rows, k.role, path, i, state, missed);
    case Answered(_) =>
  }

  lemma ConcludeIsNoClimb(h: Hashing, c: Climbed)
    ensures !Conclude(h, c).Climbing?
  {
  }

  // ---- on course ----

  /** A row has been looked up: from here on the walk is bound to rows it has already read. */
  predicate HasLooked(work: Work)
  {
    work.Answered? || (work.Walking? && (work.i > 0 || work.missed))
  }

  /** What the call has in hand is what a call that began now would have at this point. */
  predicate OnCourse(h: Hashing, w: World, k: CacheKey, work: Work)
  {
    var seen := Seen(w.fs, k.root, k.path);
    && Sane(work)
    && if work.Climbing? then Ahead(w, k, work) == seen
       else if HasLooked(work) then Rest(h, w, k, work) == JudgeIn(h, w, k)
       else work == Conclude(h, seen)
  }

  lemma FreshOnCourse(h: Hashing, w: World, k: CacheKey)
    ensures OnCourse(h, w, k, Fresh(k))
  {
    hide Climb;
    if Fresh(k).Climbing? { NothingYet(Seen(w.fs, k.root, k.path)); }
  }

  lemma OnCourseRest(h: Hashing, w: World, k: CacheKey, work: Work)
    requires OnCourse(h, w, k, work)
    ensures Rest(h, w, k, work) == JudgeIn(h, w, k)
  {
    hide Outcome, WalkOf, WalkRest, Seen, Conclude;
    ConcludeRest(h, w, k, Seen(w.fs, k.root, k.path));
  }

  lemma LooksOn(h: Hashing, w: World, k: CacheKey, work: Work)
    requires !work.Climbing?
    ensures HasLooked(Advance(h, w, k, work))
  {
  }

  /** Reading on in a world that stays as it is keeps a call on course. */
  lemma OnCourseAdvance(h: Hashing, w: World, k: CacheKey, work: Work)
    requires OnCourse(h, w, k, work)
    ensures OnCourse(h, w, k, Advance(h, w, k, work))
  {
    hide Outcome, ClimbRead, WalkRead, WalkOf, WalkRest, Seen, JudgeIn;
    RestAdvance(h, w, k, work);
    OnCourseRest(h, w, k, work);
    if work.Climbing? {
      ClimbReadAhead(h, w.fs, k.root, work.at, work.names, work.steps, work.round);
    } else {
      LooksOn(h, w, k, work);
    }
  }

  /** Before it has looked a row up, a call is on course under any rows if it is under some. */
  lemma OnCourseAnyRows(h: Hashing, w: World, rows: Rows, k: CacheKey, work: Work)
    requires OnCourse(h, w, k, work) && !HasLooked(work)
    ensures OnCourse(h, w.(rows := rows), k, work)
  {
    hide Outcome, WalkOf, Seen;
  }

  /** Only the role's own rows are looked up. */
  lemma RestOfOwnRows(h: Hashing, w: World, rows: Rows, k: CacheKey, work: Work)
    requires forall r: Key :: r.role == k.role ==> (r in w.rows <==> r in rows) && (r in rows ==> w.rows[r] == rows[r])
    ensures Rest(h, w.(rows := rows), k, work) == Rest(h, w, k, work)
  {
    hide Outcome;
    match work
    case Climbing(at, names, steps, round) =>
      SameRowsSameWalk(w.rows, rows, k.role, 0, Reverse(Hashes(h, Ahead(w, k, work).names)));
    case Walking(path, i, state, missed) =>
      var any := Key(k.role, state, 0);
      SameRowsSameWalk(w.rows, rows, k.role, state, if i < |path| then path[i..] else []);
      if i < |path| && any in rows {
        SameRowsSameWalk(w.rows, rows, k.role, rows[any].next, path[i + 1..]);
      }
    case Answered(_) =>
  }

  // ---- reading on to the end ----

  function AdvanceBy(h: Hashing, w: World, k: CacheKey, work: Work, n: nat): Work
  {
    if n == 0 then work else Advance(h, w, k, AdvanceBy(h, w, k, work, n - 1))
  }

  function RoundRank(round: Round): nat
  {
    match round
    case Top => 2
    case AtMountRoot => 1
    case InMount => 1
    case _ => 0
  }

  /** More than the reads still to come. */
  function ReadsLeft(work: Work): nat
  {
    match work
    case Climbing(_, names, steps, round) => 10 * steps + 3 * |names| + 10 + RoundRank(round)
    case Walking(path, i, _, missed) => if i >= |path| then 1 else 2 * (|path| - i) + if missed then 0 else 1
    case Answered(_) => 0
  }

  lemma ReadsGoDown(h: Hashing, w: World, k: CacheKey, work: Work)
    requires Sane(work) && !work.Answered?
    ensures Sane(Advance(h, w, k, work)) && ReadsLeft(Advance(h, w, k, work)) < ReadsLeft(work)
  {
  }

  lemma {:induction false} AdvanceByMore(h: Hashing, w: World, k: CacheKey, work: Work, n: nat)
    ensures AdvanceBy(h, w, k, work, n + 1) == AdvanceBy(h, w, k, Advance(h, w, k, work), n)
  {
    if n > 0 { AdvanceByMore(h, w, k, work, n - 1); }
  }

  /** Left alone, every call comes to its answer. */
  lemma {:induction false} Finishes(h: Hashing, w: World, k: CacheKey, work: Work) returns (n: nat)
    requires Sane(work)
    ensures AdvanceBy(h, w, k, work, n) == Answered(Rest(h, w, k, work))
    decreases ReadsLeft(work)
  {
    hide Advance, Rest;
    if work.Answered? {
      n := 0;
      AnsweredRest(h, w, k, work);
    } else {
      ReadsGoDown(h, w, k, work);
      RestAdvance(h, w, k, work);
      n := Finishes(h, w, k, Advance(h, w, k, work));
      AdvanceByMore(h, w, k, work, n);
      n := n + 1;
    }
  }

  lemma AnsweredRest(h: Hashing, w: World, k: CacheKey, work: Work)
    requires work.Answered?
    ensures work == Answered(Rest(h, w, k, work))
  {
  }

  /** Left alone, every call that is climbing comes to the end of its climb. */
  lemma {:induction false} ClimbEnds(h: Hashing, w: World, k: CacheKey, work: Work) returns (n: nat)
    requires Sane(work) && work.Climbing?
    ensures AdvanceBy(h, w, k, work, n) == Conclude(h, Ahead(w, k, work))
    decreases ReadsLeft(work)
  {
    hide Outcome, Conclude, ReadsLeft;
    var next := Advance(h, w, k, work);
    ClimbReadAhead(h, w.fs, k.root, work.at, work.names, work.steps, work.round);
    ReadsGoDown(h, w, k, work);
    if next.Climbing? {
      n := ClimbEnds(h, w, k, next);
    } else {
      n := 0;
    }
    AdvanceByMore(h, w, k, work, n);
    n := n + 1;
  }
}
