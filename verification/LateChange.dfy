/**
 A hook that announces a rename or a mount bumps the generation before the change
 takes place. When the gap between the two is harmless, for every continuation.
 */
module LateChange {
  import opened Base
  import opened Table
  import opened Walk
  import opened Collect
  import opened Reads
  import opened Cache
  import opened Redefine

  /** The tree changes under the generation as it is, the hook that announced it having bumped before. */
  function Moved(s: System, fs: Fs): System
    requires s.worlds != []
  {
    s.(worlds := s.worlds[|s.worlds| - 1 := Now(s).(fs := fs)])
  }

  /**
   Nothing is current, and every call at work under the current generation has read
   nothing yet, or has looked rows up that lead to no verdict.
   */
  ghost predicate Idle(h: Hashing, s: System)
    requires s.worlds != []
  {
    && (forall k :: !Stamped(s, k))
    && (forall t :: InFlight(s, t) ==> Unhurt(h, Now(s), s.calls[t]))
  }

  predicate Unhurt(h: Hashing, w: World, c: Call)
    requires c.Working?
  {
    c.work == Fresh(c.key) || Spent(h, w, c.key, c.work)
  }

  lemma UnhurtIsKept(h: Hashing, w: World, fs: Fs, c: Call)
    requires c.Working? && Unhurt(h, w, c)
    ensures WorkKept(h, w.(fs := fs), c)
  {
    hide OnCourse, Fresh, WalkRest;
    if c.work == Fresh(c.key) { FreshOnCourse(h, w.(fs := fs), c.key); }
  }

  lemma IdleMoveKeeps(h: Hashing, s: System, fs: Fs)
    requires Kept(h, s) && Idle(h, s)
    ensures Kept(h, Moved(s, fs))
  {
    hide JudgeIn, WorkKept, Unhurt;
    assert forall k :: Stamped(Moved(s, fs), k) ==> Stamped(s, k);
    forall t | InFlight(Moved(s, fs), t) ensures WorkKept(h, Now(Moved(s, fs)), s.calls[t]) {
      assert InFlight(s, t);
      UnhurtIsKept(h, Now(s), fs, s.calls[t]);
    }
  }

  /** Whatever the new tree is, and whatever comes after. */
  lemma IdleChangeIsSafe(h: Hashing, s: System, fs: Fs)
    requires Kept(h, s) && Idle(h, s)
    ensures Safe(h, Moved(s, fs))
  {
    hide Kept, Idle;
    KeptBounds(h, s);
    IdleMoveKeeps(h, s, fs);
    KeptIsSafe(h, Moved(s, fs));
  }

  // ---- one rename ----

  /** Every dentry the tree speaks of. */
  function Dentries(fs: Fs): set<Ptr>
  {
    fs.parent.Keys + fs.parent.Values + fs.name.Keys + fs.inode.Keys + fs.mntRoot.Values + fs.mountpoint.Values
  }

  /** All of them are below `base`. */
  predicate Below(fs: Fs, base: Ptr)
  {
    && (forall x :: x in fs.parent ==> x < base && fs.parent[x] < base)
    && (forall x :: x in fs.name ==> x < base) && (forall x :: x in fs.inode ==> x < base)
    && (forall m :: m in fs.mntRoot ==> fs.mntRoot[m] < base)
    && (forall m :: m in fs.mountpoint ==> fs.mountpoint[m] < base)
  }

  lemma BelowAll(fs: Fs, base: Ptr)
    requires forall x :: x in Dentries(fs) ==> x < base
    ensures Below(fs, base)
  {
    assert forall x :: x in fs.parent ==> x in Dentries(fs) && fs.parent[x] in Dentries(fs);
    assert forall x :: x in fs.name || x in fs.inode ==> x in Dentries(fs);
    assert forall m :: m in fs.mntRoot ==> fs.mntRoot[m] in Dentries(fs);
    assert forall m :: m in fs.mountpoint ==> fs.mountpoint[m] in Dentries(fs);
  }

  predicate SameMounts(fs: Fs, fs': Fs)
  {
    fs'.mntRoot == fs.mntRoot && fs'.mntParent == fs.mntParent && fs'.mountpoint == fs.mountpoint
  }

  /** `d` has a new parent; directories may have been added; nothing else is different. */
  predicate Renamed(fs: Fs, fs': Fs, d: Ptr)
  {
    && SameMounts(fs, fs') && d in fs.parent
    && fs.parent.Keys <= fs'.parent.Keys && fs.name.Keys <= fs'.name.Keys && fs.inode.Keys <= fs'.inode.Keys
    && (forall x :: x in fs.parent && x != d ==> fs'.parent[x] == fs.parent[x])
    && (forall x :: x in fs.name && x != d ==> fs'.name[x] == fs.name[x])
    && (forall x :: x in fs.inode ==> fs'.inode[x] == fs.inode[x])
    && (forall x :: x in fs'.parent && x !in fs.parent ==>
          x != 0 && x !in Dentries(fs) && x in fs'.name && fs'.name[x] != [])
  }

  /** The tree after one rename, and after making directories; it has no cycle if it had none. */
  ghost predicate OneRename(fs: Fs, fs': Fs)
  {
    && (exists d :: Renamed(fs, fs', d))
    && (forall root, rank :: Forest(fs, root, rank) ==> exists rank' :: Forest(fs', root, rank'))
  }

  lemma {:induction false} Bounded(s: set<nat>) returns (n: nat)
    ensures n > 0 && forall x :: x in s ==> x < n
  {
    if s == {} {
      n := 1;
    } else {
      var x :| x in s;
      var m := Bounded(s - {x});
      n := if m <= x then x + 1 else m;
      assert forall y :: y in s ==> y == x || y in s - {x};
    }
  }

  const EXTRA := 17
  const DIRECTORY: Name := [100]

  function Chain(base: Ptr, n: nat := EXTRA): (c: set<Ptr>)
    ensures forall x :: x in c <==> base <= x < base + n
  {
    if n == 0 then {} else Chain(base, n - 1) + {base + n - 1}
  }

  /** `d` moved beneath a chain of 17 new directories, which hangs where `d` was. */
  function Deepened(fs: Fs, d: Ptr, base: Ptr): Fs
    requires d in fs.parent
  {
    fs.(parent := map x | x in fs.parent.Keys + Chain(base) ::
                    if x == d then base
                    else if x !in Chain(base) then fs.parent[x]
                    else if x + 1 in Chain(base) then x + 1
                    else fs.parent[d],
        name := map x | x in fs.name.Keys + Chain(base) :: if x in Chain(base) then DIRECTORY else fs.name[x],
        inode := map x | x in fs.inode.Keys + Chain(base) :: if x in Chain(base) then x else fs.inode[x])
  }

  /** The chain's addresses are new, and `d` really hung somewhere. */
  predicate Movable(fs: Fs, d: Ptr, base: Ptr)
  {
    && d in fs.parent && fs.parent[d] != 0 && fs.parent[d] != d
    && base > 0 && Below(fs, base)
  }

  lemma DeepenedIsRenamed(fs: Fs, d: Ptr, base: Ptr)
    requires Movable(fs, d, base)
    ensures Renamed(fs, Deepened(fs, d, base), d)
  {
    hide Dentries;
    var fs' := Deepened(fs, d, base);
    forall x | x in Dentries(fs) ensures x < base { DentryIsBelow(fs, base, x); }
    assert fs.parent.Keys <= fs'.parent.Keys;
    assert fs.name.Keys <= fs'.name.Keys;
    assert fs.inode.Keys <= fs'.inode.Keys;
  }

  lemma DentryIsBelow(fs: Fs, base: Ptr, x: Ptr)
    requires Below(fs, base) && x in Dentries(fs)
    ensures x < base
  {
  }

  /** Where the new tree leads from a place in the old one, `d` apart. */
  lemma MoveElsewhere(fs: Fs, d: Ptr, base: Ptr, root: Place, at: Place)
    requires Movable(fs, d, base) && at.dentry < base
    requires at.dentry != d || !MoveFrom(fs, root, at).Up?
    ensures MoveFrom(Deepened(fs, d, base), root, at) == MoveFrom(fs, root, at)
  {
  }

  lemma MoveOut(fs: Fs, d: Ptr, base: Ptr, root: Place, mnt: Ptr)
    requires Movable(fs, d, base) && MoveFrom(fs, root, Place(d, mnt)).Up?
    ensures var m := MoveFrom(Deepened(fs, d, base), root, Place(d, mnt));
            m.Up? && m.to == Place(base, mnt)
  {
  }

  lemma MoveUpChain(fs: Fs, d: Ptr, base: Ptr, root: Place, mnt: Ptr, i: nat)
    requires Movable(fs, d, base) && i < EXTRA
    ensures var m := MoveFrom(Deepened(fs, d, base), root, Place(base + i, mnt));
            || (m.AtRoot? && root == Place(base + i, mnt))
            || m == Up(Place(if i + 1 < EXTRA then base + i + 1 else fs.parent[d], mnt), DIRECTORY)
  {
    assert Read(fs.mntRoot, mnt) < base;
  }

  /** Ranks spread out, to make room for the chain above where it hangs. */
  function Spread(rank: Place -> nat, hung: Ptr, base: Ptr, x: Place): nat
  {
    if base <= x.dentry < base + EXTRA then 20 * rank(Place(hung, x.mnt)) + (base + EXTRA - x.dentry) else 20 * rank(x)
  }

  /** The move keeps a tree a tree. */
  lemma DeepenedIsForest(fs: Fs, d: Ptr, base: Ptr, root: Place, rank: Place -> nat) returns (rank': Place -> nat)
    requires Movable(fs, d, base) && Forest(fs, root, rank)
    ensures Forest(Deepened(fs, d, base), root, rank')
  {
    hide Deepened, MoveFrom;
    var hung := fs.parent[d];
    rank' := (x: Place) => Spread(rank, hung, base, x);
    forall at ensures match MoveFrom(Deepened(fs, d, base), root, at)
                      case Cross(to) => rank'(to) < rank'(at)
                      case Up(to, _) => rank'(to) < rank'(at)
                      case _ => true
    {
      RankAt(fs, d, base, root, rank, rank', at);
    }
  }

  lemma RankAt(fs: Fs, d: Ptr, base: Ptr, root: Place, rank: Place -> nat, rank': Place -> nat, at: Place)
    requires Movable(fs, d, base) && Forest(fs, root, rank)
    requires forall x :: rank'(x) == Spread(rank, fs.parent[d], base, x)
    ensures match MoveFrom(Deepened(fs, d, base), root, at)
            case Cross(to) => rank'(to) < rank'(at)
            case Up(to, _) => rank'(to) < rank'(at)
            case _ => true
  {
    hide Deepened;
    if base <= at.dentry < base + EXTRA {
      MoveUpChain(fs, d, base, root, at.mnt, at.dentry - base);
    } else if at.dentry == d && MoveFrom(fs, root, at).Up? {
      MoveOut(fs, d, base, root, at.mnt);
      assert MoveFrom(fs, root, at).to == Place(fs.parent[d], at.mnt);
    } else {
      MoveBeyond(fs, d, base, root, at);
    }
  }

  lemma MoveBeyond(fs: Fs, d: Ptr, base: Ptr, root: Place, at: Place)
    requires Movable(fs, d, base) && (at.dentry < base || base + EXTRA <= at.dentry)
    requires at.dentry != d || !MoveFrom(fs, root, at).Up?
    ensures MoveFrom(Deepened(fs, d, base), root, at) == MoveFrom(fs, root, at)
    ensures match MoveFrom(fs, root, at)
            case Cross(to) => to.dentry < base
            case Up(to, _) => to.dentry < base
            case _ => true
  {
  }

  // ---- what the move does to a climb ----

  /** The place the climb first goes up from, after the mounts it crosses on the way. */
  function FirstOut(fs: Fs, root: Place, at: Place, steps: nat): Option<Place>
    decreases steps
  {
    if steps == 0 then None
    else
      match MoveFrom(fs, root, at)
      case Cross(to) => FirstOut(fs, root, to, steps - 1)
      case Up(_, _) => Some(at)
      case _ => None
  }

  lemma {:induction false} ClimbChain(fs: Fs, d: Ptr, base: Ptr, root: Place, mnt: Ptr, i: nat, steps: nat, room: nat)
    requires Movable(fs, d, base) && root.dentry < base && i < EXTRA && room + i < EXTRA
    ensures !Climb(Deepened(fs, d, base), root, Place(base + i, mnt), steps, room).whole
    decreases steps
  {
    hide Deepened, MoveFrom;
    if steps > 0 {
      MoveUpChain(fs, d, base, root, mnt, i);
      if room > 0 { ClimbChain(fs, d, base, root, mnt, i + 1, steps - 1, room - 1); }
    }
  }

  /** From beneath the chain no climb sees the whole path. */
  lemma {:induction false} ClimbTooDeep(fs: Fs, d: Ptr, base: Ptr, root: Place, at: Place, steps: nat, room: nat)
    requires Movable(fs, d, base) && root.dentry < base && room < EXTRA
    requires FirstOut(fs, root, at, steps).Some? && FirstOut(fs, root, at, steps).value.dentry == d
    ensures !Climb(Deepened(fs, d, base), root, at, steps, room).whole
    decreases steps
  {
    hide Deepened, MoveFrom;
    match MoveFrom(fs, root, at)
    case Cross(to) =>
      CrossingIsBelow(fs, d, base, root, at);
      MoveElsewhere(fs, d, base, root, at);
      ClimbTooDeep(fs, d, base, root, to, steps - 1, room);
    case Up(to, name) =>
      MoveOut(fs, d, base, root, at.mnt);
      ClimbChain(fs, d, base, root, at.mnt, 0, steps - 1, room);
      if room > 0 { ClimbChain(fs, d, base, root, at.mnt, 0, steps - 1, room - 1); }
  }

  lemma CrossingIsBelow(fs: Fs, d: Ptr, base: Ptr, root: Place, at: Place)
    requires Movable(fs, d, base) && MoveFrom(fs, root, at).Cross?
    ensures at.dentry < base
  {
  }

  /** The climb, from here on, does not go up from `d`. */
  predicate Avoids(fs: Fs, root: Place, at: Place, steps: nat, d: Ptr)
    decreases steps
  {
    steps > 0 ==>
      match MoveFrom(fs, root, at)
      case Cross(to) => Avoids(fs, root, to, steps - 1, d)
      case Up(to, _) => at.dentry != d && Avoids(fs, root, to, steps - 1, d)
      case _ => true
  }

  lemma {:induction false} ClimbElsewhere(fs: Fs, d: Ptr, base: Ptr, root: Place, at: Place, steps: nat, room: nat)
    requires Movable(fs, d, base) && at.dentry < base && Avoids(fs, root, at, steps, d)
    ensures Climb(Deepened(fs, d, base), root, at, steps, room) == Climb(fs, root, at, steps, room)
    decreases steps
  {
    hide Deepened, MoveFrom;
    if steps > 0 {
      MoveBeyond(fs, d, base, root, at);
      match MoveFrom(fs, root, at)
      case Cross(to) => ClimbElsewhere(fs, d, base, root, to, steps - 1, room);
      case Up(to, _) =>
        ClimbElsewhere(fs, d, base, root, to, steps - 1, room);
        if room > 0 { ClimbElsewhere(fs, d, base, root, to, steps - 1, room - 1); }
      case _ =>
    }
  }

  /** A place with a verdict has a dentry that its climb first goes up from. */
  lemma {:induction false} NamedHasFirstOut(fs: Fs, root: Place, at: Place, steps: nat, room: nat)
    requires Climb(fs, root, at, steps, room).names != []
    ensures FirstOut(fs, root, at, steps).Some?
    decreases steps
  {
    if MoveFrom(fs, root, at).Cross? { NamedHasFirstOut(fs, root, MoveFrom(fs, root, at).to, steps - 1, room); }
  }

  lemma {:induction false} FirstOutIsMovable(fs: Fs, root: Place, at: Place, steps: nat, base: Ptr)
    requires FirstOut(fs, root, at, steps).Some? && Below(fs, base) && base > 0
    ensures Movable(fs, FirstOut(fs, root, at, steps).value.dentry, base)
    decreases steps
  {
    if MoveFrom(fs, root, at).Cross? { FirstOutIsMovable(fs, root, MoveFrom(fs, root, at).to, steps - 1, base); }
  }

  /** The dentry a rename moves away under a call. */
  function Moving(w: World, k: CacheKey): Option<Ptr>
  {
    match FirstOut(w.fs, k.root, k.path, MAX_PATH_WALK_STEPS)
    case Some(p) => Some(p.dentry)
    case None => None
  }

  lemma DecidedIsMovable(h: Hashing, w: World, k: CacheKey, base: Ptr)
    requires JudgeIn(h, w, k) != NO_RULE && Below(w.fs, base) && base > 0 && k.root.dentry < base
    ensures Moving(w, k).Some? && Movable(w.fs, Moving(w, k).value, base)
    ensures JudgeIn(h, w.(fs := Deepened(w.fs, Moving(w, k).value, base)), k) == NO_RULE
  {
    hide Deepened, WalkFrom, Movable, Climb, Hashes;
    NamedHasFirstOut(w.fs, k.root, k.path, MAX_PATH_WALK_STEPS, MAX_COMPONENTS);
    FirstOutIsMovable(w.fs, k.root, k.path, MAX_PATH_WALK_STEPS, base);
    ClimbTooDeep(w.fs, Moving(w, k).value, base, k.root, k.path, MAX_PATH_WALK_STEPS, MAX_COMPONENTS);
  }

  /** One rename after which a place that had a verdict has none, and which what `low` speaks of does not touch. */
  lemma OutOfSight(h: Hashing, w: World, k: CacheKey, low: Ptr) returns (base: Ptr)
    requires JudgeIn(h, w, k) != NO_RULE
    ensures Moving(w, k).Some? && Movable(w.fs, Moving(w, k).value, base) && low < base
    ensures OneRename(w.fs, Deepened(w.fs, Moving(w, k).value, base))
    ensures JudgeIn(h, w.(fs := Deepened(w.fs, Moving(w, k).value, base)), k) == NO_RULE
  {
    hide JudgeIn, Deepened, Below, Forest, Renamed, Moving;
    base := Bounded(Dentries(w.fs) + {k.root.dentry, low});
    BelowAll(w.fs, base);
    DecidedIsMovable(h, w, k, base);
    var d := Moving(w, k).value;
    DeepenedIsRenamed(w.fs, d, base);
    forall root, rank | Forest(w.fs, root, rank) ensures exists rank' :: Forest(Deepened(w.fs, d, base), root, rank') {
      var rank' := DeepenedIsForest(w.fs, d, base, root, rank);
    }
  }

  // ---- calls the rename overtakes ----

  /** What the call has still to climb does not go up from `d`. */
  predicate LeftBehind(fs: Fs, root: Place, work: Work, d: Ptr)
    requires work.Climbing?
  {
    var at, left := work.at, Less(work.steps);
    match work.round
    case Top => Avoids(fs, root, at, work.steps, d)
    case AtMountRoot => Avoids(fs, root, Place(Read(fs.mountpoint, at.mnt), Read(fs.mntParent, at.mnt)), left, d)
    case Beneath(above) => Avoids(fs, root, Place(Read(fs.mountpoint, at.mnt), above), left, d)
    case InMount => at.dentry != d && Avoids(fs, root, Place(Read(fs.parent, at.dentry), at.mnt), left, d)
    case Parented(parent) => Avoids(fs, root, Place(parent, at.mnt), left, d)
  }

  function Lowest(work: Work): Ptr
  {
    match work
    case Climbing(at, _, _, Parented(parent)) => at.dentry + parent
    case Climbing(at, _, _, _) => at.dentry
    case _ => 0
  }

  /** A climb that has left `d` behind brings back what it would have. */
  lemma OutcomeElsewhere(fs: Fs, d: Ptr, base: Ptr, root: Place, work: Work)
    requires work.Climbing? && Movable(fs, d, base) && Lowest(work) < base && LeftBehind(fs, root, work, d)
    ensures Outcome(Deepened(fs, d, base), root, work.at, work.names, work.steps, work.round)
         == Outcome(fs, root, work.at, work.names, work.steps, work.round)
  {
    hide Climb, Avoids;
    var at, left := work.at, Less(work.steps);
    var above, point, up := Read(fs.mntParent, at.mnt), Read(fs.mountpoint, at.mnt), Read(fs.parent, at.dentry);
    var more := Collected(work.names, NameAt(fs, at.dentry));
    match work.round
    case Top => ClimbElsewhere(fs, d, base, root, at, work.steps, Room(work.names));
    case AtMountRoot => ClimbElsewhere(fs, d, base, root, Place(point, above), left, Room(work.names));
    case Beneath(b) => ClimbElsewhere(fs, d, base, root, Place(point, b), left, Room(work.names));
    case InMount => ClimbElsewhere(fs, d, base, root, Place(up, at.mnt), left, Room(more));
    case Parented(parent) => ClimbElsewhere(fs, d, base, root, Place(parent, at.mnt), left, Room(more));
  }

  /** The call is past the dentry a rename would move away: done climbing, or further up for good. */
  predicate Beyond(w: World, k: CacheKey, work: Work)
  {
    work.Climbing? && Moving(w, k).Some? ==> LeftBehind(w.fs, k.root, work, Moving(w, k).value)
  }

  lemma RestAfterMove(h: Hashing, w: World, k: CacheKey, work: Work, base: Ptr)
    requires Moving(w, k).Some? && Movable(w.fs, Moving(w, k).value, base) && Lowest(work) < base && Beyond(w, k, work)
    ensures Rest(h, w.(fs := Deepened(w.fs, Moving(w, k).value, base)), k, work) == Rest(h, w, k, work)
  {
    hide Outcome, Deepened, LeftBehind, Moving, Movable, WalkRest, WalkOf;
    if work.Climbing? { OutcomeElsewhere(w.fs, Moving(w, k).value, base, k.root, work); }
  }

  /** A current entry for a file a rename moves away is served as it was. */
  lemma MovedEntryIsStale(h: Hashing, s: System, k: CacheKey) returns (fs: Fs)
    requires Kept(h, s) && Stamped(s, k)
    ensures OneRename(Now(s).fs, fs) && !TruthfulAfter(h, Moved(s, fs), [])
  {
    hide JudgeIn, Run, WorkKept, OneRename, Below, Moving, Deepened;
    var base := OutOfSight(h, Now(s), k, 0);
    fs := Deepened(Now(s).fs, Moving(Now(s), k).value, base);
    RunNothing(h, Moved(s, fs));
  }

  /** A call that is past the dentry and will answer stores the verdict of the path as it was. */
  lemma OvertakenCallSpoils(h: Hashing, s: System, t: nat) returns (fs: Fs, events: seq<Event>)
    requires Kept(h, s) && InFlight(s, t) && Beyond(Now(s), s.calls[t].key, s.calls[t].work)
    requires Rest(h, Now(s), s.calls[t].key, s.calls[t].work) != NO_RULE
    ensures OneRename(Now(s).fs, fs) && Changes(events) == 0 && !TruthfulAfter(h, Moved(s, fs), events)
  {
    hide JudgeIn, Run, OneRename, Below, Moving, Deepened, Rest, OnCourse, Beyond, Changes, Lowest;
    var c, w := s.calls[t], Now(s);
    var v := Rest(h, w, c.key, c.work);
    KeptRest(h, w, c);
    JudgeRange(h, w, c.key);
    KeptIsSane(h, w, c);
    var base := OutOfSight(h, w, c.key, Lowest(c.work));
    fs := Deepened(w.fs, Moving(w, c.key).value, base);
    RestAfterMove(h, w, c.key, c.work, base);
    events := RunToEnd(h, Moved(s, fs), t);
    StoredIsStale(h, Moved(s, fs), t, events, v);
  }

  lemma KeptIsSane(h: Hashing, w: World, c: Call)
    requires c.Working? && WorkKept(h, w, c)
    ensures Sane(c.work)
  {
  }

  /**
   No call is between its first read of the tree and its first lookup, except ones that will
   answer as things stand and are past the dentry a rename would move away.
   */
  ghost predicate Decided(h: Hashing, s: System)
    requires s.worlds != []
  {
    forall t :: InFlight(s, t) && s.calls[t].work != Fresh(s.calls[t].key) && !HasLooked(s.calls[t].work) ==>
      && Rest(h, Now(s), s.calls[t].key, s.calls[t].work) != NO_RULE
      && Beyond(Now(s), s.calls[t].key, s.calls[t].work)
  }

  /**
   The change may come after its bump, safely whatever is renamed and whatever comes after, if and
   only if nothing was stored under the new generation before it, and no call that has begun to read
   under it will answer.
   */
  lemma LateChangeIsSafeIffIdle(h: Hashing, s: System)
    requires Kept(h, s) && Decided(h, s)
    ensures (forall fs :: OneRename(Now(s).fs, fs) ==> Safe(h, Moved(s, fs))) <==> Idle(h, s)
  {
    hide JudgeIn, Run, Changes, OneRename, TruthfulAfter, WorkKept, Rest, Beyond, Fresh;
    if Idle(h, s) {
      forall fs | OneRename(Now(s).fs, fs) ensures Safe(h, Moved(s, fs)) {
        IdleChangeIsSafe(h, s, fs);
      }
    } else if k :| Stamped(s, k) {
      var fs := MovedEntryIsStale(h, s, k);
      NoChanges([]);
      assert !Safe(h, Moved(s, fs));
    } else {
      var t :| InFlight(s, t) && !Unhurt(h, Now(s), s.calls[t]);
      LookedIsBeyond(Now(s), s.calls[t].key, s.calls[t].work);
      var fs, events := OvertakenCallSpoils(h, s, t);
      assert !Safe(h, Moved(s, fs));
    }
  }

  lemma LookedIsBeyond(w: World, k: CacheKey, work: Work)
    ensures HasLooked(work) ==> Beyond(w, k, work)
  {
  }
}
