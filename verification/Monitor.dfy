/**
 The whole of it as one refinement: maps, tables, walk and cache answer every hook
 call as a monitor does that knows only the policy, the tasks and the tree of paths.
 */
module Monitor {
  import opened Base
  import opened Table
  import opened Collect
  import opened Policy
  import opened Apply
  import opened RoleLaws
  import opened EndToEnd
  import opened Walk
  import opened Reads
  import opened Hooks
  import Cache
  import Writes
  import Network
  import N = Connections
  import E = Enrollment

  /** What the monitor remembers. */
  datatype State = State(tasks: E.Tasks, fs: Fs)

  datatype Request =
    | Opening(task: nat, pid: nat, memory: bool, root: Place, file: Place)
    | Execing(task: nat, pid: nat, memory: bool, binary: Option<Binary>, cgroups: seq<nat>, root: Place)
    | Connecting(task: nat, protocol: Option<bv8>, peer: N.Peer)
    | Binding(task: nat, protocol: Option<bv8>, peer: N.Peer)
    | Forking(parent: nat, child: nat, memory: bool)
    | Enrolling(event: E.Event)
    | Renaming(dentry: Ptr, after: Fs)
    | Mounting(after: Fs)
    | Invalidating
    | Evicting(key: CacheKey)

  /** A task is in some cgroup, and only the daemon writes the enrollment maps. */
  predicate Sensible(r: Request)
  {
    (r.Execing? ==> r.cgroups != []) && (r.Enrolling? ==> E.FromDaemon(r.event))
  }

  predicate Bumps(r: Request)
  {
    r.Renaming? || r.Mounting? || r.Invalidating?
  }

  function InodeOf(binary: Option<Binary>): Option<nat>
  {
    if binary.Some? then binary.value.inode else None
  }

  function PlaceOf(binary: Option<Binary>): Place
  {
    if binary.Some? then binary.value.place else Place(0, 0)
  }

  function Next(s: State, r: Request): State
    requires Sensible(r)
  {
    match r
    case Opening(task, pid, memory, _, _) => s.(tasks := E.Migrate(s.tasks, task, pid, memory))
    case Execing(task, pid, memory, binary, cgroups, _) =>
      s.(tasks := E.Exec(s.tasks, task, pid, InodeOf(binary), cgroups, memory))
    case Forking(parent, child, memory) => s.(tasks := E.Fork(s.tasks, parent, child, memory))
    case Enrolling(e) => s.(tasks := E.Step(s.tasks, e))
    case Renaming(dentry, after) => if Read(s.fs.inode, dentry) == 0 then s else s.(fs := after)
    case Mounting(after) => s.(fs := after)
    case _ => s
  }

  predicate AllSensible(rs: seq<Request>)
  {
    forall i :: 0 <= i < |rs| ==> Sensible(rs[i])
  }

  function Then(s: State, rs: seq<Request>): State
    requires AllSensible(rs)
  {
    if rs == [] then s else Next(Then(s, rs[..|rs| - 1]), rs[|rs| - 1])
  }

  /** What the policy says of a place to a task with this role: no such role is a refusal. */
  ghost predicate ByPolicy(h: Hashing, roles: seq<Role>, exec: bool, fs: Fs, id: nat, root: Place, at: Place,
                           answer: int)
  {
    && answer in {0, -13}
    && ((forall r :: r in roles ==> r.id != id) ==> answer == DENY)
    && (forall r, rank :: r in roles && r.id == id && Clear(h, r, exec, fs, root, rank, at) ==>
          (answer == GRANTED <==> Allows(r, exec, Visible(fs, root, rank, at))))
    && (forall r :: r in roles && r.id == id && (at.dentry == 0 || at.mnt == 0) ==>
          (answer == GRANTED <==> Flagged(r, exec)))
  }

  predicate Flagged(r: Role, exec: bool)
  {
    if exec then r.flags.allowExec else r.flags.allowFileAccess
  }

  /** What the policy says of a connection or a bind to a task with this role. */
  ghost predicate NetByPolicy(h: Hashing, roles: seq<Role>, resolve: Resolver, r: Request, id: nat, answer: int)
    requires r.Connecting? || r.Binding?
  {
    && answer in {0, -13}
    && ((forall x :: x in roles ==> x.id != id) ==> answer == DENY)
    && (forall x :: x in roles && x.id == id && Network.NamesDistinct(h, x.domainRules) ==>
          (answer == GRANTED <==> NetPermitted(x, resolve, r)))
  }

  ghost predicate NetPermitted(x: Role, resolve: Resolver, r: Request)
    requires r.Connecting? || r.Binding?
  {
    if r.Connecting? then N.ConnectPermitted(x, resolve, r.protocol, r.peer) else N.PortsPermit(x, r.protocol, r.peer)
  }

  /** The monitor's answer: only a task enrolled by now, or at exec enrolled before it, is judged. */
  ghost predicate Rightly(h: Hashing, roles: seq<Role>, resolve: Resolver, s: State, r: Request, answer: int)
  {
    match r
    case Opening(task, pid, memory, root, file) =>
      var t := E.Migrate(s.tasks, task, pid, memory);
      if E.Enrolled(t, task) then ByPolicy(h, roles, false, s.fs, t.storage[task].role, root, file, answer)
      else answer == GRANTED
    case Execing(task, pid, memory, binary, _, root) =>
      var t := E.Migrate(s.tasks, task, pid, memory);
      if E.Enrolled(t, task) then ByPolicy(h, roles, true, s.fs, t.storage[task].role, root, PlaceOf(binary), answer)
      else answer == GRANTED
    case Connecting(task, _, _) =>
      if E.Enrolled(s.tasks, task) then NetByPolicy(h, roles, resolve, r, s.tasks.storage[task].role, answer)
      else answer == GRANTED
    case Binding(task, _, _) =>
      if E.Enrolled(s.tasks, task) then NetByPolicy(h, roles, resolve, r, s.tasks.storage[task].role, answer)
      else answer == GRANTED
    case _ => answer == GRANTED
  }

  /** Every role of the policy is in force, and no other id is known to the maps. */
  ghost predicate PolicyInForce(h: Hashing, store: Writes.Store, roles: seq<Role>, resolve: Resolver)
  {
    && (forall r :: r in roles ==> InForce(h, store, r, resolve))
    && (forall id :: (forall r :: r in roles ==> r.id != id) ==> FlagsIn(store, id).None?)
  }

  lemma AnswerIsByPolicy(h: Hashing, store: Writes.Store, roles: seq<Role>, resolve: Resolver, exec: bool, fs: Fs,
                         id: nat, root: Place, at: Place)
    requires PolicyInForce(h, store, roles, resolve)
    ensures ByPolicy(h, roles, exec, fs, id, root, at, Answer(h, exec, store, fs, id, root, at))
  {
    hide InForce, Allows, Judge, RowsOf, Forest, AllNamed, CollisionFree, RoleCollisionFree, Enforceable, Visible;
    forall r, rank | r in roles && r.id == id && Clear(h, r, exec, fs, root, rank, at)
      ensures Answer(h, exec, store, fs, id, root, at) == GRANTED <==> Allows(r, exec, Visible(fs, root, rank, at))
    {
      InForceIsEnforced(h, store, r, resolve, exec, fs, root, rank, at);
    }
    forall r | r in roles && r.id == id && (at.dentry == 0 || at.mnt == 0)
      ensures Answer(h, exec, store, fs, id, root, at) == GRANTED <==> Flagged(r, exec)
    {
      NoPlaceByFlag(h, store, r, resolve, exec, fs, root, at);
    }
  }

  lemma NetAnswerIsByPolicy(h: Hashing, store: Writes.Store, roles: seq<Role>, resolve: Resolver, r: Request, id: nat)
    requires PolicyInForce(h, store, roles, resolve) && (r.Connecting? || r.Binding?)
    ensures NetByPolicy(h, roles, resolve, r, id,
                        if r.Connecting? then N.ConnectAnswer(store, id, r.protocol, r.peer)
                        else N.BindAnswer(store, id, r.protocol, r.peer))
  {
    hide InForce, N.ConnectPermitted, N.PortsPermit, Network.NamesDistinct, N.PortsAnswer, N.ProxyBlocks,
         Network.FirstProbe, Network.DomainVerdict, Apply.Swap;
    forall x | x in roles && x.id == id && Network.NamesDistinct(h, x.domainRules)
      ensures r.Connecting? ==>
                (N.ConnectAnswer(store, id, r.protocol, r.peer) == GRANTED <==> NetPermitted(x, resolve, r))
      ensures r.Binding? ==> (N.BindAnswer(store, id, r.protocol, r.peer) == GRANTED <==> NetPermitted(x, resolve, r))
    {
      N.NetworkIsEnforced(h, store, x, resolve, r.protocol, r.peer);
    }
  }

  /** The hooks that judge. */
  method ServeJudged(k: Kernel, ghost roles: seq<Role>, ghost resolve: Resolver, r: Request) returns (answer: int)
    requires k.Valid() && PolicyInForce(k.h, k.store, roles, resolve) && Sensible(r)
    requires r.Opening? || r.Execing? || r.Connecting? || r.Binding?
    modifies k`storage, k`pending, k`cache, k.buf, k.buf.hashes
    ensures k.Valid() && k.buf.hashes == old(k.buf.hashes)
    ensures State(k.Tasks(), k.fs) == Next(old(State(k.Tasks(), k.fs)), r)
    ensures Rightly(k.h, roles, resolve, old(State(k.Tasks(), k.fs)), r, answer)
  {
    hide PolicyInForce, ByPolicy, NetByPolicy, Answer, N.ConnectAnswer, N.BindAnswer, E.Migrate, E.Exec, Cache.Truthful;
    match r {
      case Opening(task, pid, memory, root, file) =>
        answer := k.FileOpen(task, pid, memory, root, file);
        if task in k.storage {
          AnswerIsByPolicy(k.h, k.store, roles, resolve, false, k.fs, k.storage[task].role, root, file);
        }
      case Execing(task, pid, memory, binary, cgroups, root) =>
        ghost var t := E.Migrate(k.Tasks(), task, pid, memory);
        answer := k.BprmCheck(task, pid, memory, binary, cgroups, root);
        if task in t.storage {
          AnswerIsByPolicy(k.h, k.store, roles, resolve, true, k.fs, t.storage[task].role, root, PlaceOf(binary));
        }
      case Connecting(task, protocol, peer) =>
        answer := k.SocketConnect(task, protocol, peer);
        if task in k.storage {
          NetAnswerIsByPolicy(k.h, k.store, roles, resolve, r, k.storage[task].role);
        }
      case Binding(task, protocol, peer) =>
        answer := k.SocketBind(task, protocol, peer);
        if task in k.storage {
          NetAnswerIsByPolicy(k.h, k.store, roles, resolve, r, k.storage[task].role);
        }
    }
  }

  predicate Changing(r: Request)
  {
    r.Renaming? || r.Mounting? || r.Invalidating? || r.Evicting?
  }

  lemma BumpIsNext(generation: nat)
    ensures generation + 1 < 0x1_0000_0000 ==> Cache.Bump(generation) == generation + 1
  {
  }

  /** The hook, and then the rename it announces, if there is anything to rename. */
  method ServeRename(k: Kernel, dentry: Ptr, after: Fs)
    requires k.Valid() && k.generation + 1 < 0x1_0000_0000
    modifies k`fs, k`generation
    ensures k.Valid() && old(k.generation) <= k.generation <= old(k.generation) + 1
    ensures k.fs == if Read(old(k.fs).inode, dentry) == 0 then old(k.fs) else after
  {
    hide Cache.Truthful, Stamped, Cache.Bump;
    BumpIsNext(k.generation);
    var moves := Read(k.fs.inode, dentry) != 0;
    k.PathRename(dentry);
    if moves {
      k.ChangeTree(after);
    }
  }

  /** The hooks that bump, what they announce, and the cache's own evictions. */
  method ServeChange(k: Kernel, r: Request)
    requires k.Valid() && Changing(r)
    requires Bumps(r) ==> k.generation + 1 < 0x1_0000_0000
    modifies k`cache, k`fs, k`generation
    ensures k.Valid()
    ensures State(k.Tasks(), k.fs) == Next(old(State(k.Tasks(), k.fs)), r)
    ensures k.generation <= old(k.generation) + if Bumps(r) then 1 else 0
  {
    hide E.Migrate, E.Exec, E.Fork, E.Step, Cache.Truthful, Stamped, Cache.Bump;
    BumpIsNext(k.generation);
    match r {
      case Renaming(dentry, after) => ServeRename(k, dentry, after);
      case Mounting(after) =>
        k.MountChange();
        k.ChangeTree(after);
      case Invalidating => k.InvalidateCache();
      case Evicting(key) => k.Evict(key);
    }
  }

  method ServeOne(k: Kernel, ghost roles: seq<Role>, ghost resolve: Resolver, r: Request) returns (answer: int)
    requires k.Valid() && PolicyInForce(k.h, k.store, roles, resolve) && Sensible(r)
    requires Bumps(r) ==> k.generation + 1 < 0x1_0000_0000
    modifies k`storage, k`pending, k`byInode, k`byCgroup, k`cache, k`fs, k`generation, k.buf, k.buf.hashes
    ensures k.Valid() && k.buf.hashes == old(k.buf.hashes)
    ensures State(k.Tasks(), k.fs) == Next(old(State(k.Tasks(), k.fs)), r)
    ensures k.generation <= old(k.generation) + if Bumps(r) then 1 else 0
    ensures Rightly(k.h, roles, resolve, old(State(k.Tasks(), k.fs)), r, answer)
  {
    hide PolicyInForce, ByPolicy, NetByPolicy, E.Migrate, E.Exec, E.Fork, E.Step, Cache.Truthful, Stamped, Clear;
    answer := GRANTED;
    if r.Forking? {
      k.TaskAlloc(r.parent, r.child, r.memory);
    } else if r.Enrolling? {
      k.Enroll(r.event);
    } else if Changing(r) {
      ServeChange(k, r);
    } else {
      answer := ServeJudged(k, roles, resolve, r);
    }
  }

  function BumpCount(rs: seq<Request>): nat
  {
    if rs == [] then 0 else BumpCount(rs[..|rs| - 1]) + if Bumps(rs[|rs| - 1]) then 1 else 0
  }

  lemma {:induction false} BumpsLeft(rs: seq<Request>, i: nat)
    requires i < |rs|
    ensures BumpCount(rs[..i]) + (if Bumps(rs[i]) then 1 else 0) <= BumpCount(rs)
  {
    var init := rs[..|rs| - 1];
    if i < |init| {
      assert init[..i] == rs[..i] && init[i] == rs[i];
      BumpsLeft(init, i);
    } else {
      assert init == rs[..i];
    }
  }

  lemma ThenSnoc(s: State, rs: seq<Request>, i: nat)
    requires AllSensible(rs) && i < |rs|
    ensures AllSensible(rs[..i]) && AllSensible(rs[..i + 1])
    ensures Then(s, rs[..i + 1]) == Next(Then(s, rs[..i]), rs[i])
  {
    assert rs[..i + 1][..i] == rs[..i];
  }

  /** Each answer so far is the monitor's, in the state the requests before it lead to. */
  ghost predicate AllRightly(h: Hashing, roles: seq<Role>, resolve: Resolver, start: State, rs: seq<Request>,
                             answers: seq<int>)
    requires AllSensible(rs) && |answers| <= |rs|
  {
    forall i :: 0 <= i < |answers| ==> Rightly(h, roles, resolve, Then(start, rs[..i]), rs[i], answers[i])
  }

  lemma NothingAsked(h: Hashing, roles: seq<Role>, resolve: Resolver, start: State, rs: seq<Request>)
    requires AllSensible(rs)
    ensures AllRightly(h, roles, resolve, start, rs, [])
  {
  }

  lemma RightlySnoc(h: Hashing, roles: seq<Role>, resolve: Resolver, start: State, rs: seq<Request>, answers: seq<int>,
                    answer: int)
    requires AllSensible(rs) && |answers| < |rs| && AllRightly(h, roles, resolve, start, rs, answers)
    requires Rightly(h, roles, resolve, Then(start, rs[..|answers|]), rs[|answers|], answer)
    ensures AllRightly(h, roles, resolve, start, rs, answers + [answer])
  {
    hide Rightly, Then;
  }

  /** Every answer, over every sequence of requests, is the monitor's at that moment. */
  method Serve(k: Kernel, ghost roles: seq<Role>, ghost resolve: Resolver, rs: seq<Request>) returns (answers: seq<int>)
    requires k.Valid() && PolicyInForce(k.h, k.store, roles, resolve) && AllSensible(rs)
    requires k.generation + BumpCount(rs) < 0x1_0000_0000
    modifies k`storage, k`pending, k`byInode, k`byCgroup, k`cache, k`fs, k`generation, k.buf, k.buf.hashes
    ensures k.Valid() && |answers| == |rs|
    ensures State(k.Tasks(), k.fs) == Then(old(State(k.Tasks(), k.fs)), rs)
    ensures AllRightly(k.h, roles, resolve, old(State(k.Tasks(), k.fs)), rs, answers)
  {
    hide PolicyInForce, Rightly, Next, AllRightly, Cache.Truthful;
    ghost var start := State(k.Tasks(), k.fs);
    answers := [];
    assert AllRightly(k.h, roles, resolve, start, rs, []) by { NothingAsked(k.h, roles, resolve, start, rs); }
    for i := 0 to |rs|
      invariant k.Valid() && k.buf.hashes == old(k.buf.hashes) && |answers| == i
      invariant AllSensible(rs[..i]) && State(k.Tasks(), k.fs) == Then(start, rs[..i])
      invariant k.generation <= old(k.generation) + BumpCount(rs[..i])
      invariant AllRightly(k.h, roles, resolve, start, rs, answers)
    {
      BumpsLeft(rs, i);
      ThenSnoc(start, rs, i);
      assert rs[..i + 1][..i] == rs[..i];
      var answer := ServeOne(k, roles, resolve, rs[i]);
      RightlySnoc(k.h, roles, resolve, start, rs, answers, answer);
      answers := answers + [answer];
    }
    assert rs[..|rs|] == rs;
  }

  /**
   From a policy to its enforcement. Boot with empty maps, apply the roles, and serve
   any requests with fewer than 2^32 bumps among them: booting succeeds exactly when
   every address parses, and every answer is then the monitor's.
   */
  method BootAndServe(h: Hashing, roles: seq<Role>, resolve: Resolver, fs: Fs, rs: seq<Request>)
    returns (ok: bool, answers: seq<int>)
    requires DistinctRoleIds(roles) && AllSensible(rs) && BumpCount(rs) < 0x1_0000_0000
    ensures ok <==> forall i :: 0 <= i < |roles| ==> Parses(roles[i])
    ensures ok ==> |answers| == |rs|
    ensures ok ==> AllRightly(h, roles, resolve, State(E.Tasks(map[], map[], map[], map[]), fs), rs, answers)
  {
    hide Parses, Populated, AllRightly, Then, InForce;
    var maps := new PolicyMaps(map[]);
    ok := PopulateRoles(h, maps, roles, resolve);
    answers := [];
    if ok {
      PopulatedIsInForce(h, roles, resolve, maps.store);
      var k := new Kernel(h, maps.store, fs);
      answers := Serve(k, roles, resolve, rs);
    }
  }
}
