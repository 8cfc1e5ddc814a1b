/** Collecting the components of a path as the task sees it, across mounts, in bounded steps. */
module Collect {
  import opened Base
  import opened Rules
  import opened Table
  import opened RoleEncoder
  import opened Walk

  const MAX_PATH_WALK_STEPS := 32

  /** Kernel addresses; 0 is NULL, and reading through an unknown address yields 0. */
  type Ptr = nat

  function Read(field: map<Ptr, Ptr>, p: Ptr): Ptr
  {
    if p in field then field[p] else 0
  }

  /** The dentry and mount fields the climb reads. */
  datatype Fs = Fs(
    parent: map<Ptr, Ptr>,
    name: map<Ptr, Name>,
    inode: map<Ptr, Ptr>,
    mntRoot: map<Ptr, Ptr>,
    mntParent: map<Ptr, Ptr>,
    mountpoint: map<Ptr, Ptr>)

  /** Where a file is: a dentry, in a mount. */
  datatype Place = Place(dentry: Ptr, mnt: Ptr)

  datatype Move = AtRoot | Detached | Cross(to: Place) | Up(to: Place, name: Name)

  /** One pass of the climb, as the kernel's own prepend_path makes it. */
  function MoveFrom(fs: Fs, root: Place, at: Place): Move
  {
    if at == root then AtRoot
    else if at.dentry == Read(fs.mntRoot, at.mnt) then
      var above := Read(fs.mntParent, at.mnt);
      if above == 0 || above == at.mnt then AtRoot
      else if Read(fs.mountpoint, at.mnt) == 0 then Detached
      else Cross(Place(Read(fs.mountpoint, at.mnt), above))
    else
      var parent := Read(fs.parent, at.dentry);
      if parent == 0 || parent == at.dentry then Detached
      else Up(Place(parent, at.mnt), if at.dentry in fs.name then fs.name[at.dentry] else [])
  }

  /** What a bounded climb brings back: names leaf first, and whether it saw the whole path. */
  datatype Climbed = Climbed(names: seq<Name>, whole: bool)

  function Climb(fs: Fs, root: Place, at: Place, steps: nat, room: nat): Climbed
    decreases steps
  {
    if steps == 0 then Climbed([], false)
    else
      match MoveFrom(fs, root, at)
      case AtRoot => Climbed([], true)
      case Detached => Climbed([], false)
      case Cross(to) => Climb(fs, root, to, steps - 1, room)
      case Up(to, name) =>
        if room == 0 then Climbed([], false)
        else if name == [] then Climb(fs, root, to, steps - 1, room)
        else
          var rest := Climb(fs, root, to, steps - 1, room - 1);
          Climbed([name] + rest.names, rest.whole)
  }

  /** What the buffer holds after collecting from `at`. */
  function Seen(fs: Fs, root: Place, at: Place): Climbed
  {
    if at.dentry == 0 || at.mnt == 0 then Climbed([], true)
    else Climb(fs, root, at, MAX_PATH_WALK_STEPS, MAX_COMPONENTS)
  }

  /** A climb resumed after `names` had already been collected. */
  function Onto(names: seq<Name>, c: Climbed): Climbed
  {
    Climbed(names + c.names, c.whole)
  }

  lemma NothingYet(c: Climbed)
    ensures Onto([], c) == c
  {
    assert [] + c.names == c.names;
  }

  lemma OutOfSteps(names: seq<Name>, fs: Fs, root: Place, at: Place, room: nat)
    ensures Onto(names, Climb(fs, root, at, 0, room)) == Climbed(names, false)
  {
    assert names + [] == names;
  }

  lemma ClimbOneMove(names: seq<Name>, fs: Fs, root: Place, at: Place, steps: nat, room: nat)
    requires steps > 0
    ensures var c := Onto(names, Climb(fs, root, at, steps, room));
            match MoveFrom(fs, root, at)
            case AtRoot => c == Climbed(names, true)
            case Detached => c == Climbed(names, false)
            case Cross(to) => c == Onto(names, Climb(fs, root, to, steps - 1, room))
            case Up(to, name) =>
              if room == 0 then c == Climbed(names, false)
              else if name == [] then c == Onto(names, Climb(fs, root, to, steps - 1, room))
              else c == Onto(names + [name], Climb(fs, root, to, steps - 1, room - 1))
  {
    assert names + [] == names;
    match MoveFrom(fs, root, at)
    case Up(to, name) =>
      if room > 0 && name != [] {
        var rest := Climb(fs, root, to, steps - 1, room - 1);
        assert names + ([name] + rest.names) == names + [name] + rest.names;
      }
    case _ =>
  }

  method CollectPathComponents(h: Hashing, fs: Fs, start: Place, root: Place, buf: PathBuffer)
    requires buf.Valid()
    modifies buf, buf.hashes
    ensures buf.Valid() && buf.hashes == old(buf.hashes)
    ensures buf.Contents() == Hashes(h, Seen(fs, root, start).names)
    ensures buf.truncated == !Seen(fs, root, start).whole
  {
    hide Climb, Hashes, Onto;
    buf.count, buf.truncated := 0, false;
    if start.dentry == 0 || start.mnt == 0 {
      return;
    }
    var at, reachedRoot, i := start, false, 0;
    ghost var names: seq<Name> := [];
    ghost var target := Seen(fs, root, start);
    NothingYet(target);
    while i < MAX_PATH_WALK_STEPS
      invariant 0 <= i <= MAX_PATH_WALK_STEPS
      invariant buf.Valid() && buf.hashes == old(buf.hashes) && !buf.truncated && !reachedRoot
      invariant buf.Contents() == Hashes(h, names) && |names| == buf.count
      invariant target == Onto(names, Climb(fs, root, at, MAX_PATH_WALK_STEPS - i, MAX_COMPONENTS - buf.count))
    {
      ClimbOneMove(names, fs, root, at, MAX_PATH_WALK_STEPS - i, MAX_COMPONENTS - buf.count);
      if at == root {
        reachedRoot := true;
        break;
      }
      if at.dentry == Read(fs.mntRoot, at.mnt) {
        var above := Read(fs.mntParent, at.mnt);
        if above == 0 || above == at.mnt {
          reachedRoot := true;
          break;
        }
        at := Place(Read(fs.mountpoint, at.mnt), above);
        if at.dentry == 0 {
          break;
        }
      } else {
        var parent := Read(fs.parent, at.dentry);
        if parent == 0 || parent == at.dentry {
          break;
        }
        if buf.count >= MAX_COMPONENTS {
          break;
        }
        var name := if at.dentry in fs.name then fs.name[at.dentry] else [];
        if |name| > 0 {
          buf.hashes[buf.count] := h.comp(name);
          buf.count := buf.count + 1;
          HashesSnoc(h, names, name);
          names := names + [name];
        }
        at := Place(parent, at.mnt);
      }
      i := i + 1;
    }
    OutOfSteps(names, fs, root, at, MAX_COMPONENTS - buf.count);
    if !reachedRoot {
      buf.truncated := true;
    }
  }

  lemma HashesSnoc(h: Hashing, names: seq<Name>, name: Name)
    ensures Hashes(h, names + [name]) == Hashes(h, names) + [h.comp(name)]
  {
  }

  // ---- the whole path, with no bound ----

  /** The mount forest has no cycles: every move of the climb goes down in `rank`. */
  ghost predicate Forest(fs: Fs, root: Place, rank: Place -> nat)
  {
    forall at :: match MoveFrom(fs, root, at)
                 case Cross(to) => rank(to) < rank(at)
                 case Up(to, _) => rank(to) < rank(at)
                 case _ => true
  }

  /** Every dentry that is climbed out of has a name. */
  ghost predicate AllNamed(fs: Fs, root: Place)
  {
    forall at :: MoveFrom(fs, root, at).Up? ==> MoveFrom(fs, root, at).name != []
  }

  /** The path from `at` to where the view ends: names leaf first, mounts crossed on the way. */
  datatype Sight = Sight(names: seq<Name>, crossings: nat, rooted: bool)

  ghost function Visible(fs: Fs, root: Place, rank: Place -> nat, at: Place): Sight
    requires Forest(fs, root, rank)
    decreases rank(at)
  {
    match MoveFrom(fs, root, at)
    case AtRoot => Sight([], 0, true)
    case Detached => Sight([], 0, false)
    case Cross(to) =>
      var s := Visible(fs, root, rank, to);
      s.(crossings := s.crossings + 1)
    case Up(to, name) =>
      var s := Visible(fs, root, rank, to);
      s.(names := [name] + s.names)
  }

  lemma {:induction false} ClimbIsVisible(fs: Fs, root: Place, rank: Place -> nat, at: Place, steps: nat, room: nat)
    requires Forest(fs, root, rank) && AllNamed(fs, root)
    ensures var s, c := Visible(fs, root, rank, at), Climb(fs, root, at, steps, room);
            && (c.whole <==> s.rooted && |s.names| <= room && |s.names| + s.crossings < steps)
            && (c.whole ==> c.names == s.names)
    decreases steps
  {
    if steps > 0 {
      match MoveFrom(fs, root, at)
      case AtRoot =>
      case Detached =>
      case Cross(to) => ClimbIsVisible(fs, root, rank, to, steps - 1, room);
      case Up(to, name) =>
        if room > 0 { ClimbIsVisible(fs, root, rank, to, steps - 1, room - 1); }
    }
  }

  /**
   The bounded climb refines the visible path: it is whole exactly when the path
   reaches the task's root in at most 16 names and 31 moves, and then it is that path.
   */
  lemma CollectionRefinesVisiblePath(fs: Fs, root: Place, rank: Place -> nat, at: Place)
    requires Forest(fs, root, rank) && AllNamed(fs, root)
    requires at.dentry != 0 && at.mnt != 0
    ensures var s, c := Visible(fs, root, rank, at), Seen(fs, root, at);
            && (c.whole <==> s.rooted && |s.names| <= 16 && |s.names| + s.crossings <= 31)
            && (c.whole ==> c.names == s.names)
  {
    ClimbIsVisible(fs, root, rank, at, MAX_PATH_WALK_STEPS, MAX_COMPONENTS);
  }

  // ---- the verdict for a place ----

  /** What the file hook's uncached half computes. */
  function Judge(h: Hashing, rows: Rows, fs: Fs, role: nat, root: Place, at: Place): int
  {
    var c := Seen(fs, root, at);
    WalkOf(rows, role, Hashes(h, c.names), !c.whole)
  }

  lemma ReverseHashes(h: Hashing, names: seq<Name>)
    ensures Reverse(Hashes(h, names)) == Hashes(h, Reverse(names))
  {
    hide Reverse, Hashes;
    var a, b := Reverse(Hashes(h, names)), Hashes(h, Reverse(names));
    assert |a| == |b|;
    forall i | 0 <= i < |names| ensures a[i] == b[i] {
      assert Hashes(h, names)[|names| - 1 - i] == h.comp(names[|names| - 1 - i]);
      assert Reverse(names)[i] == names[|names| - 1 - i];
    }
  }

  /** A verdict is only ever reached on the whole path from its root, never on a suffix of it. */
  lemma NoVerdictOnSuffix(h: Hashing, rows: Rows, fs: Fs, role: nat, root: Place, rank: Place -> nat, at: Place)
    requires Forest(fs, root, rank) && AllNamed(fs, root)
    requires Judge(h, rows, fs, role, root, at) != NO_RULE
    ensures var s := Visible(fs, root, rank, at);
            && s.rooted && s.names != []
            && Judge(h, rows, fs, role, root, at) == WalkFrom(rows, role, 0, Hashes(h, Reverse(s.names)))
  {
    CollectionRefinesVisiblePath(fs, root, rank, at);
    ReverseHashes(h, Seen(fs, root, at).names);
  }

  /** What the rules say about the path a task sees, within the climb's bounds. */
  ghost function PathVerdict(raw: seq<RawRule>, s: Sight): Option<bool>
  {
    if s.rooted && |s.names| <= 16 && |s.names| + s.crossings <= 31 then Verdict(Parsed(raw), Reverse(s.names))
    else None
  }

  /** From file to rule list: the hook's verdict is the meaning of the rules on the path the task sees. */
  lemma JudgeMeansRules(h: Hashing, role: nat, raw: seq<RawRule>, entries: seq<Entry>, slots: seq<Slot>, rows: Rows,
                        fs: Fs, root: Place, rank: Place -> nat, at: Place)
    requires IsTable(h, role, Effectual(raw), entries, slots) && !Clash(Effectual(raw))
    requires Installed(rows, role, entries)
    requires Forest(fs, root, rank) && AllNamed(fs, root) && at.dentry != 0 && at.mnt != 0
    requires CollisionFree(h, role, Effectual(raw), Reverse(Visible(fs, root, rank, at).names))
    ensures Judge(h, rows, fs, role, root, at) == Out(PathVerdict(raw, Visible(fs, root, rank, at)))
  {
    var s := Visible(fs, root, rank, at);
    CollectionRefinesVisiblePath(fs, root, rank, at);
    if Seen(fs, root, at).whole && s.names != [] {
      ReverseHashes(h, s.names);
      CompiledWalk(h, role, raw, entries, slots, rows, Reverse(s.names));
    }
  }
}
