/** The LSM hooks as they run, one at a time, over the kernel-side maps. */
module Hooks {
  import opened Base
  import opened Table
  import opened Walk
  import opened Collect
  import opened Reads
  import opened Cache
  import opened Writes
  import opened EndToEnd
  import opened Policy
  import opened Apply
  import opened RoleLaws
  import N = Connections
  import E = Enrollment

  /** The binary of an exec: its inode number, if it has one, and where it is. */
  datatype Binary = Binary(inode: Option<nat>, place: Place)

  ghost predicate Stamped(cache: map<CacheKey, Cached>, generation: nat)
  {
    forall k :: k in cache ==> cache[k].generation <= generation
  }

  class Kernel {
    const h: Hashing
    const buf: PathBuffer

    // task storage and the enrollment maps
    var storage: map<nat, E.Info>
    var pending: map<nat, E.Info>
    var byInode: map<nat, E.Enrollee>
    var byCgroup: map<nat, E.Enrollee>

    // the policy maps, the tree of paths, and the decision cache
    var store: Store
    var fs: Fs
    var cache: map<CacheKey, Cached>
    var generation: nat

    ghost function Tasks(): E.Tasks
      reads this
    {
      E.Tasks(storage, pending, byInode, byCgroup)
    }

    function Now(): World
      reads this
    {
      World(RowsOf(false, store), fs)
    }

    /** Stamps are never ahead, and every entry of the current generation is what the walk would answer now. */
    ghost predicate Valid()
      reads this, buf
    {
      buf.Valid() && generation < 0x1_0000_0000 && Stamped(cache, generation) && Truthful(h, Now(), cache, generation)
    }

    constructor (h: Hashing, store: Store, fs: Fs)
      ensures Valid() && Tasks() == E.Tasks(map[], map[], map[], map[])
      ensures this.store == store && this.fs == fs && cache == map[] && generation == 0 && this.h == h
      ensures fresh(buf) && fresh(buf.hashes)
    {
      this.h, this.store, this.fs := h, store, fs;
      buf := new PathBuffer();
      storage, pending, byInode, byCgroup := map[], map[], map[], map[];
      cache, generation := map[], 0;
    }

    method CheckPendingEnrollment(task: nat, pid: nat, memory: bool)
      modifies this`storage, this`pending
      ensures Tasks() == E.Migrate(old(Tasks()), task, pid, memory)
    {
      if pid !in pending || pending[pid].pod == 0 {
        return;
      }
      if task in storage || memory {
        storage := storage[task := pending[pid]];
      }
      pending := pending - {pid};
    }

    /** The daemon stages a process, or enrolls or removes a binary or a cgroup. */
    method Enroll(e: E.Event)
      requires E.FromDaemon(e)
      modifies this`pending, this`byInode, this`byCgroup
      ensures Tasks() == E.Step(old(Tasks()), e)
    {
      match e {
        case Staged(pid, x) => pending := pending[pid := E.Info(x.pod, x.role, 0, 0)];
        case InodeEnrolled(inode, x) => byInode := byInode[inode := x];
        case InodeRemoved(inode) => byInode := byInode - {inode};
        case CgroupEnrolled(id, x) => byCgroup := byCgroup[id := x];
        case CgroupRemoved(id) => byCgroup := byCgroup - {id};
      }
    }

    method TaskAlloc(parent: nat, child: nat, memory: bool)
      modifies this`storage
      ensures Tasks() == E.Fork(old(Tasks()), parent, child, memory)
    {
      if child !in storage && !memory {
        return;
      }
      if parent in storage && storage[parent].pod != 0 {
        storage := storage[child := storage[parent]];
      } else {
        storage := storage[child := E.BLANK];
      }
    }

    /** The verdict of the transition rows for a place, by the shared buffer. */
    method WalkPath(exec: bool, role: nat, root: Place, at: Place) returns (verdict: int)
      requires buf.Valid()
      modifies buf, buf.hashes
      ensures buf.Valid() && buf.hashes == old(buf.hashes)
      ensures verdict == Judge(h, RowsOf(exec, store), fs, role, root, at)
    {
      CollectPathComponents(h, fs, at, root, buf);
      verdict := CheckPathStateMachine(RowsOf(exec, store), role, buf);
    }

    /**
     The file hook. With the cache in front or without it, an enrolled task gets
     the answer of its role's rules and flags, and a task not enrolled is let through.
     */
    method FileOpen(task: nat, pid: nat, memory: bool, root: Place, file: Place) returns (answer: int)
      requires Valid()
      modifies this`storage, this`pending, this`cache, buf, buf.hashes
      ensures Valid() && buf.hashes == old(buf.hashes)
      ensures Tasks() == E.Migrate(old(Tasks()), task, pid, memory)
      ensures answer == if E.Enrolled(Tasks(), task) then Answer(h, false, store, fs, storage[task].role, root, file)
                        else GRANTED
      ensures cache ==
              if !E.Enrolled(Tasks(), task) || FlagsIn(store, storage[task].role).None? || file.dentry == 0 then
                old(cache)
              else
                var role, inode := storage[task].role, Read(fs.inode, file.dentry);
                if inode == 0 then old(cache)
                else Recorded(old(cache), generation, CacheKey(role, file, inode, root),
                              Judge(h, RowsOf(false, store), fs, role, root, file))
    {
      hide Truthful, Judge, RowsOf;
      CheckPendingEnrollment(task, pid, memory);
      if task !in storage || storage[task].pod == 0 {
        return GRANTED;
      }
      var role := storage[task].role;
      var flags := FlagsIn(store, role);
      if flags.None? {
        return DENY;
      }
      if file.dentry != 0 {
        var inode := Read(fs.inode, file.dentry);
        var key := CacheKey(role, file, inode, root);
        if inode != 0 && key in cache && cache[key].generation == generation {
          CachedAnswer(key);
          return if cache[key].allow then GRANTED else DENY;
        }
        var result := WalkPath(false, role, root, file);
        VerdictRange(key);
        if result != NO_RULE {
          if inode != 0 {
            StoredAnswer(key, result);
            cache := cache[key := Cached(result == ALLOW, generation)];
          }
          return if result == ALLOW then GRANTED else DENY;
        }
      } else {
        NoFile(role, root, file);
      }
      return if flags.value & 0x01 == 0 then DENY else GRANTED;
    }

    lemma CachedAnswer(key: CacheKey)
      requires Valid() && key in cache && cache[key].generation == generation
      ensures Code(cache[key].allow) == Judge(h, RowsOf(false, store), fs, key.role, key.root, key.path)
    {
    }

    lemma VerdictRange(key: CacheKey)
      ensures Judge(h, RowsOf(false, store), fs, key.role, key.root, key.path) in {ALLOW, NO_RULE, DENY}
    {
      JudgeRange(h, Now(), key);
    }

    lemma StoredAnswer(key: CacheKey, result: int)
      requires Valid()
      requires result == Judge(h, RowsOf(false, store), fs, key.role, key.root, key.path) && result != NO_RULE
      ensures Truthful(h, Now(), cache[key := Cached(result == ALLOW, generation)], generation)
    {
      VerdictRange(key);
    }

    lemma NoFile(role: nat, root: Place, at: Place)
      requires at.dentry == 0
      ensures Judge(h, RowsOf(false, store), fs, role, root, at) == NO_RULE
    {
    }

    /**
     The exec hook. A task enrolled before this exec gets the answer of its role's
     execution rules and flags; an exec that enrolls, or enrolls nothing, is let through.
     */
    method BprmCheck(task: nat, pid: nat, memory: bool, binary: Option<Binary>, cgroups: seq<nat>, root: Place)
      returns (answer: int)
      requires Valid() && cgroups != []
      modifies this`storage, this`pending, buf, buf.hashes
      ensures Valid() && buf.hashes == old(buf.hashes)
      ensures Tasks() == E.Exec(old(Tasks()), task, pid, if binary.Some? then binary.value.inode else None,
                                cgroups, memory)
      ensures var before := E.Migrate(old(Tasks()), task, pid, memory);
              answer == if E.Enrolled(before, task) then
                          Answer(h, true, store, fs, before.storage[task].role, root,
                                 if binary.Some? then binary.value.place else Place(0, 0))
                        else GRANTED
    {
      hide Truthful, Answer, E.Exec, E.Migrate;
      var wasEnrolled := EnrollAtExec(task, pid, memory, if binary.Some? then binary.value.inode else None, cgroups);
      if !wasEnrolled {
        return GRANTED;
      }
      answer := ExecAnswer(storage[task].role, root, if binary.Some? then binary.value.place else Place(0, 0));
    }

    /** Migrate, then enroll a task that has no role yet by its binary or its cgroup. */
    method EnrollAtExec(task: nat, pid: nat, memory: bool, inode: Option<nat>, cgroups: seq<nat>)
      returns (wasEnrolled: bool)
      requires cgroups != []
      modifies this`storage, this`pending
      ensures Tasks() == E.Exec(old(Tasks()), task, pid, inode, cgroups, memory)
      ensures var before := E.Migrate(old(Tasks()), task, pid, memory);
              && (wasEnrolled <==> E.Enrolled(before, task))
              && (wasEnrolled ==> task in storage && storage[task] == before.storage[task])
    {
      hide E.FindCgroup, E.Migrate;
      CheckPendingEnrollment(task, pid, memory);
      if task !in storage && !memory {
        return false;
      }
      var info := if task in storage then storage[task] else E.BLANK;
      storage := storage[task := info];
      wasEnrolled := info.pod != 0;
      if !wasEnrolled {
        if inode.Some? && inode.value in byInode {
          var e := byInode[inode.value];
          storage := storage[task := E.Info(e.pod, e.role, 0, 0)];
        } else {
          var found := E.SearchCgroups(byCgroup, cgroups);
          if found.Some? {
            storage := storage[task := E.Info(found.value.pod, found.value.role, 0, 0)];
          }
        }
      }
    }

    /** The exec rules and flags of an enrolled task's role. */
    method ExecAnswer(role: nat, root: Place, place: Place) returns (answer: int)
      requires buf.Valid()
      modifies buf, buf.hashes
      ensures buf.Valid() && buf.hashes == old(buf.hashes)
      ensures answer == Answer(h, true, store, fs, role, root, place)
    {
      hide Judge, RowsOf;
      var flags := FlagsIn(store, role);
      if flags.None? {
        return DENY;
      }
      var verdict := WalkPath(true, role, root, place);
      if verdict == ALLOW {
        return GRANTED;
      }
      if verdict != NO_RULE {
        return DENY;
      }
      return if flags.value & 0x04 == 0 then DENY else GRANTED;
    }

    /** The connect and bind hooks; neither looks for a pending enrollment. */
    method SocketConnect(task: nat, protocol: Option<bv8>, peer: N.Peer) returns (answer: int)
      ensures answer == if E.Enrolled(Tasks(), task) then N.ConnectAnswer(store, storage[task].role, protocol, peer)
                        else GRANTED
    {
      if task !in storage || storage[task].pod == 0 {
        return GRANTED;
      }
      answer := N.SocketConnect(store, storage[task].role, protocol, peer);
    }

    method SocketBind(task: nat, protocol: Option<bv8>, peer: N.Peer) returns (answer: int)
      ensures answer == if E.Enrolled(Tasks(), task) then N.BindAnswer(store, storage[task].role, protocol, peer)
                        else GRANTED
    {
      if task !in storage || storage[task].pod == 0 {
        return GRANTED;
      }
      answer := N.SocketBind(store, storage[task].role, protocol, peer);
    }

    /** Advance the counter, which wraps at 2^32; short of that no entry is current any more. */
    method BumpGeneration()
      requires Valid()
      modifies this`generation
      ensures generation == (old(generation) + 1) % 0x1_0000_0000 && buf.Valid()
      ensures old(generation) + 1 < 0x1_0000_0000 ==> Valid() && NothingCurrent()
    {
      hide JudgeIn, RowsOf;
      generation := (generation + 1) % GENERATIONS;
    }

    predicate NothingCurrent()
      reads this
    {
      forall k :: k in cache ==> cache[k].generation != generation
    }

    /** A rename is about to happen: bump, unless the dentry is negative. */
    method PathRename(oldDentry: Ptr)
      requires Valid()
      modifies this`generation
      ensures buf.Valid()
      ensures Read(fs.inode, oldDentry) == 0 ==> Valid() && generation == old(generation)
      ensures Read(fs.inode, oldDentry) != 0 ==> generation == (old(generation) + 1) % 0x1_0000_0000
      ensures Read(fs.inode, oldDentry) != 0 && old(generation) + 1 < 0x1_0000_0000 ==> Valid() && NothingCurrent()
    {
      if Read(fs.inode, oldDentry) == 0 {
        return;
      }
      BumpGeneration();
    }

    /** A mount or an unmount is about to happen: both hooks only bump. */
    method MountChange()
      requires Valid()
      modifies this`generation
      ensures generation == (old(generation) + 1) % 0x1_0000_0000 && buf.Valid()
      ensures old(generation) + 1 < 0x1_0000_0000 ==> Valid() && NothingCurrent()
    {
      BumpGeneration();
    }

    /** The daemon's invalidation. */
    method InvalidateCache()
      requires Valid()
      modifies this`generation
      ensures generation == (old(generation) + 1) % 0x1_0000_0000 && buf.Valid()
      ensures old(generation) + 1 < 0x1_0000_0000 ==> Valid() && NothingCurrent()
    {
      BumpGeneration();
    }

    /** The change a hook announced takes place, some time after the hook. */
    method ChangeTree(after: Fs)
      requires Valid() && NothingCurrent()
      modifies this`fs
      ensures Valid() && fs == after
    {
      fs := after;
    }

    /**
     Applying a role to the loaded maps, with no bump. It needs that no current entry is the
     role's own; it leaves the maps with the role's writes, or a prefix of them if an address does not parse.
     */
    method DefineRole(role: Role, resolve: Resolver) returns (r: Applied)
      requires Valid()
      requires forall k :: k in cache && cache[k].generation == generation ==> k.role != role.id
      modifies this`store
      ensures Valid()
      ensures r.Applied? <==> Parses(role)
      ensures exists log :: Wrote(h, role, resolve, [], old(store), log, store, r.Applied?)
      ensures r.Applied? ==> Told(role, resolve, r.skipped)
      ensures r.Applied? && EmptyFor(old(store), role.id) ==> InForce(h, store, role, resolve)
      ensures forall id: nat :: id != role.id ==> AgreeFor(old(store), store, id)
    {
      hide Parses, Wrote, Told, Truthful, WriteSeq, InForce, EmptyFor, AgreeFor;
      var maps := new PolicyMaps(store);
      r := ApplyRole(h, maps, role, resolve);
      forall id: nat | id != role.id ensures AgreeFor(store, maps.store, id) {
        OtherIdsKept(h, role, resolve, [], store, maps.log, maps.store, r.Applied?, id);
      }
      if r.Applied? && EmptyFor(store, role.id) {
        WroteIsInForce(h, role, resolve, [], store, maps.log, maps.store);
      }
      OtherRolesKept(role, resolve, maps.log, maps.store, r.Applied?);
      store := maps.store;
    }

    lemma OtherRolesKept(role: Role, resolve: Resolver, log: seq<Write>, after: Store, complete: bool)
      requires Truthful(h, Now(), cache, generation)
      requires forall k :: k in cache && cache[k].generation == generation ==> k.role != role.id
      requires Wrote(h, role, resolve, [], store, log, after, complete)
      ensures Truthful(h, World(RowsOf(false, after), fs), cache, generation)
    {
      hide Judge, RowsOf, Wrote, AgreeFor;
      forall k | k in cache && cache[k].generation == generation
        ensures Judge(h, RowsOf(false, after), fs, k.role, k.root, k.path)
             == Judge(h, RowsOf(false, store), fs, k.role, k.root, k.path)
      {
        OtherIdsKept(h, role, resolve, [], store, log, after, complete, k.role);
        JudgeByOwnKeys(h, false, store, after, fs, k.role, k.root, k.path);
      }
    }

    /** The LRU map may drop any entry at any time. */
    method Evict(key: CacheKey)
      requires Valid()
      modifies this`cache
      ensures Valid() && cache == old(cache) - {key}
    {
      cache := cache - {key};
    }
  }
}
