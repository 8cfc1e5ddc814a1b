/** How tasks come to carry a role: hook steps over task storage, and what every run of them keeps. */
module Enrollment {
  import opened Base

  const MAX_CGROUP_DEPTH := 8

  /** A task's record; it is enrolled when its pod is not 0. */
  datatype Info = Info(pod: nat, role: nat, stackDepth: nat, flags: nat)

  datatype Enrollee = Enrollee(pod: nat, role: nat)

  /** The maps the enrollment code reads and writes. */
  datatype Tasks = Tasks(
    storage: map<nat, Info>,
    pending: map<nat, Info>,
    byInode: map<nat, Enrollee>,
    byCgroup: map<nat, Enrollee>)

  const BLANK := Info(0, 0, 0, 0)

  predicate Enrolled(s: Tasks, task: nat)
  {
    task in s.storage && s.storage[task].pod != 0
  }

  function RecordOf(s: Tasks, task: nat): Info
  {
    if task in s.storage then s.storage[task] else BLANK
  }

  /** Storage for a task is there already, or the kernel can allocate it. */
  predicate CanHold(s: Tasks, task: nat, memory: bool)
  {
    task in s.storage || memory
  }

  predicate HasPending(s: Tasks, pid: nat)
  {
    pid in s.pending && s.pending[pid].pod != 0
  }

  /** Move a pending enrollment of this process into the task's storage. */
  function Migrate(s: Tasks, task: nat, pid: nat, memory: bool): Tasks
  {
    if !HasPending(s, pid) then s
    else
      s.(storage := if CanHold(s, task, memory) then s.storage[task := s.pending[pid]] else s.storage,
         pending := s.pending - {pid})
  }

  /** A new task inherits its parent's record if the parent is enrolled. */
  function Fork(s: Tasks, parent: nat, child: nat, memory: bool): Tasks
  {
    if !CanHold(s, child, memory) then s
    else s.(storage := s.storage[child := if Enrolled(s, parent) then s.storage[parent] else BLANK])
  }

  function Take(e: Enrollee): Info
  {
    Info(e.pod, e.role, 0, 0)
  }

  // ---- the cgroup search ----

  /** A task's cgroups from the hierarchy's root (level 0) down to its own. */
  function AncestorAt(cgroups: seq<nat>, level: nat): nat
  {
    if level < |cgroups| then cgroups[level] else 0
  }

  /** Levels the exec hook looks at: the task's own, and 1 to 8. */
  predicate Consulted(cgroups: seq<nat>, level: nat)
  {
    level == |cgroups| - 1 || 1 <= level <= MAX_CGROUP_DEPTH
  }

  /** `level` is the deepest consulted one that is enrolled. */
  predicate NearestLevel(byCgroup: map<nat, Enrollee>, cgroups: seq<nat>, level: nat)
  {
    && level < |cgroups| && Consulted(cgroups, level) && cgroups[level] in byCgroup
    && forall deeper :: level < deeper < |cgroups| && Consulted(cgroups, deeper) ==> cgroups[deeper] !in byCgroup
  }

  function Upward(byCgroup: map<nat, Enrollee>, cgroups: seq<nat>, level: nat): Option<Enrollee>
  {
    if level == 0 then None
    else
      var id := AncestorAt(cgroups, level);
      if id != 0 && id in byCgroup then Some(byCgroup[id]) else Upward(byCgroup, cgroups, level - 1)
  }

  function FindCgroup(byCgroup: map<nat, Enrollee>, cgroups: seq<nat>): Option<Enrollee>
    requires cgroups != []
  {
    var own := cgroups[|cgroups| - 1];
    if own in byCgroup then Some(byCgroup[own]) else Upward(byCgroup, cgroups, MAX_CGROUP_DEPTH)
  }

  method SearchCgroups(byCgroup: map<nat, Enrollee>, cgroups: seq<nat>) returns (found: Option<Enrollee>)
    requires cgroups != []
    ensures found == FindCgroup(byCgroup, cgroups)
  {
    var own := cgroups[|cgroups| - 1];
    found := if own in byCgroup then Some(byCgroup[own]) else None;
    var level := MAX_CGROUP_DEPTH;
    while level > 0
      invariant 0 <= level <= MAX_CGROUP_DEPTH
      invariant FindCgroup(byCgroup, cgroups) == if found.Some? then found else Upward(byCgroup, cgroups, level)
    {
      if found.Some? {
        break;
      }
      var id := AncestorAt(cgroups, level);
      if id != 0 {
        found := if id in byCgroup then Some(byCgroup[id]) else None;
      }
      level := level - 1;
    }
  }

  lemma {:induction false} UpwardIsNearest(byCgroup: map<nat, Enrollee>, cgroups: seq<nat>, level: nat)
    requires cgroups != [] && forall i :: 0 <= i < |cgroups| ==> cgroups[i] != 0
    requires level <= MAX_CGROUP_DEPTH
    requires forall deeper :: level < deeper < |cgroups| && Consulted(cgroups, deeper) ==> cgroups[deeper] !in byCgroup
    requires cgroups[|cgroups| - 1] !in byCgroup
    ensures match Upward(byCgroup, cgroups, level)
            case Some(e) => exists l: nat :: NearestLevel(byCgroup, cgroups, l) && e == byCgroup[cgroups[l]]
            case None => forall l :: 0 <= l < |cgroups| && Consulted(cgroups, l) ==> cgroups[l] !in byCgroup
  {
    if level > 0 {
      if level < |cgroups| && cgroups[level] in byCgroup {
        assert NearestLevel(byCgroup, cgroups, level);
      } else {
        UpwardIsNearest(byCgroup, cgroups, level - 1);
      }
    }
  }

  /**
   The record taken is that of the nearest enrolled level among those consulted;
   for a task at level 1 to 9 these are its own cgroup and every ancestor below the root.
   */
  lemma CgroupSearchFindsNearest(byCgroup: map<nat, Enrollee>, cgroups: seq<nat>)
    requires cgroups != [] && forall i :: 0 <= i < |cgroups| ==> cgroups[i] != 0
    ensures match FindCgroup(byCgroup, cgroups)
            case Some(e) => exists l: nat :: NearestLevel(byCgroup, cgroups, l) && e == byCgroup[cgroups[l]]
            case None => forall l :: 0 <= l < |cgroups| && Consulted(cgroups, l) ==> cgroups[l] !in byCgroup
    ensures forall l :: Consulted(cgroups, l) <==> l == |cgroups| - 1 || 1 <= l <= 8
    ensures 2 <= |cgroups| <= 10 ==> forall l :: 1 <= l < |cgroups| ==> Consulted(cgroups, l)
  {
    if cgroups[|cgroups| - 1] in byCgroup {
      assert NearestLevel(byCgroup, cgroups, |cgroups| - 1);
    } else {
      UpwardIsNearest(byCgroup, cgroups, MAX_CGROUP_DEPTH);
    }
  }

  // ---- exec ----

  /** Enrollment at exec of a task that has a record: by the binary's inode, else by cgroup. */
  function AutoEnroll(s: Tasks, info: Info, inode: Option<nat>, cgroups: seq<nat>): Info
    requires cgroups != []
  {
    if info.pod != 0 then info
    else if inode.Some? && inode.value in s.byInode then Take(s.byInode[inode.value])
    else
      match FindCgroup(s.byCgroup, cgroups)
      case Some(e) => Take(e)
      case None => info
  }

  function Exec(s: Tasks, task: nat, pid: nat, inode: Option<nat>, cgroups: seq<nat>, memory: bool): Tasks
    requires cgroups != []
  {
    var m := Migrate(s, task, pid, memory);
    if !CanHold(m, task, memory) then m
    else m.(storage := m.storage[task := AutoEnroll(m, RecordOf(m, task), inode, cgroups)])
  }

  // ---- runs ----

  datatype Event =
    | Forked(parent: nat, child: nat, memory: bool)
    | Opened(task: nat, pid: nat, memory: bool)
    | Execed(task: nat, pid: nat, binary: Option<nat>, cgroups: seq<nat>, memory: bool)
    | Staged(pid: nat, enrollee: Enrollee)
    | InodeEnrolled(inode: nat, enrollee: Enrollee)
    | InodeRemoved(inode: nat)
    | CgroupEnrolled(id: nat, enrollee: Enrollee)
    | CgroupRemoved(id: nat)

  /** What the kernel guarantees about a step: a forked task is new, and a task is in some cgroup. */
  predicate Possible(s: Tasks, e: Event)
  {
    match e
    case Forked(parent, child, _) => child !in s.storage && child != parent
    case Execed(_, _, _, cgroups, _) => cgroups != []
    case _ => true
  }

  /** The steps the daemon takes by writing the enrollment maps. */
  predicate FromDaemon(e: Event)
  {
    e.Staged? || e.InodeEnrolled? || e.InodeRemoved? || e.CgroupEnrolled? || e.CgroupRemoved?
  }

  function Step(s: Tasks, e: Event): Tasks
    requires Possible(s, e)
  {
    match e
    case Forked(parent, child, memory) => Fork(s, parent, child, memory)
    case Opened(task, pid, memory) => Migrate(s, task, pid, memory)
    case Execed(task, pid, inode, cgroups, memory) => Exec(s, task, pid, inode, cgroups, memory)
    case Staged(pid, e) => s.(pending := s.pending[pid := Take(e)])
    case InodeEnrolled(inode, e) => s.(byInode := s.byInode[inode := e])
    case InodeRemoved(inode) => s.(byInode := s.byInode - {inode})
    case CgroupEnrolled(id, e) => s.(byCgroup := s.byCgroup[id := e])
    case CgroupRemoved(id) => s.(byCgroup := s.byCgroup - {id})
  }

  /** States `trace[0] .. trace[n]` joined by `n` possible steps. */
  ghost predicate IsRun(trace: seq<Tasks>, events: seq<Event>)
  {
    && |trace| == |events| + 1
    && forall i :: 0 <= i < |events| ==> Possible(trace[i], events[i]) && trace[i + 1] == Step(trace[i], events[i])
  }

  /** A pending enrollment of its own process is what replaces an enrolled task's record. */
  predicate Migrated(s: Tasks, e: Event, task: nat, record: Info)
  {
    && (e.Opened? || e.Execed?) && e.task == task
    && HasPending(s, e.pid) && record == s.pending[e.pid]
  }

  /** One step never un-enrolls, and changes an enrolled record only by a pending migration. */
  lemma StepKeepsEnrolled(s: Tasks, e: Event, task: nat)
    requires Possible(s, e) && Enrolled(s, task)
    ensures Enrolled(Step(s, e), task)
    ensures Step(s, e).storage[task] != s.storage[task] ==> Migrated(s, e, task, Step(s, e).storage[task])
  {
  }

  /** Once enrolled, a task is enrolled at every later state of every run. */
  lemma {:induction false} EnrolledForever(trace: seq<Tasks>, events: seq<Event>, task: nat, start: nat, now: nat)
    requires IsRun(trace, events) && start <= now < |trace|
    requires Enrolled(trace[start], task)
    ensures Enrolled(trace[now], task)
    ensures trace[now].storage[task] == trace[start].storage[task]
            || (exists i :: start <= i < now && Migrated(trace[i], events[i], task, trace[now].storage[task]))
    decreases now
  {
    hide Step, Migrated, Possible;
    if start < now {
      EnrolledForever(trace, events, task, start, now - 1);
      assert trace[now - 1 + 1] == Step(trace[now - 1], events[now - 1]);
      StepKeepsEnrolled(trace[now - 1], events[now - 1], task);
      if trace[now].storage[task] == trace[now - 1].storage[task]
         && trace[now].storage[task] != trace[start].storage[task] {
        var i :| start <= i < now - 1 && Migrated(trace[i], events[i], task, trace[now - 1].storage[task]);
        assert Migrated(trace[i], events[i], task, trace[now].storage[task]);
      } else if trace[now].storage[task] != trace[now - 1].storage[task] {
        assert Migrated(trace[now - 1], events[now - 1], task, trace[now].storage[task]);
      }
    }
  }

  /**
   In every run a task forked by an enrolled task, storage being available, is enrolled at every
   later state, with the record its parent had at the fork or one a migration of its own gave it.
   */
  lemma ForkInherits(trace: seq<Tasks>, events: seq<Event>, n: nat, parent: nat, child: nat, now: nat)
    requires IsRun(trace, events) && n < now < |trace|
    requires events[n] == Forked(parent, child, true) && Enrolled(trace[n], parent)
    ensures Enrolled(trace[now], child)
    ensures trace[now].storage[child] == trace[n].storage[parent]
            || (exists i :: n < i < now && Migrated(trace[i], events[i], child, trace[now].storage[child]))
  {
    hide Migrated;
    assert trace[n + 1] == Step(trace[n], events[n]);
    EnrolledForever(trace, events, child, n + 1, now);
  }

  /** By state `n`, `task` has come from `ancestor` by forks since `start`, storage being available at each. */
  ghost predicate Descends(events: seq<Event>, start: nat, ancestor: nat, task: nat, n: nat)
    decreases n
  {
    exists i :: start <= i < n && i < |events| && ForkOf(events[i], task)
                && (events[i].parent == ancestor || Descends(events, start, ancestor, events[i].parent, i))
  }

  predicate ForkOf(e: Event, task: nat)
  {
    e.Forked? && e.memory && e.child == task
  }

  /** No escape by forking: every descendant of an enrolled task is enrolled, at every later state of every run. */
  lemma {:induction false} DescendantsAreEnrolled(trace: seq<Tasks>, events: seq<Event>, start: nat, ancestor: nat,
                                                  task: nat, n: nat, now: nat)
    requires IsRun(trace, events) && n <= now < |trace|
    requires start < |trace| && Enrolled(trace[start], ancestor) && Descends(events, start, ancestor, task, n)
    ensures Enrolled(trace[now], task)
    decreases n
  {
    hide Step, Possible, Migrated, Enrolled;
    var i :| start <= i < n && i < |events| && ForkOf(events[i], task)
             && (events[i].parent == ancestor || Descends(events, start, ancestor, events[i].parent, i));
    var parent := events[i].parent;
    if parent == ancestor {
      EnrolledForever(trace, events, parent, start, i);
    } else {
      DescendantsAreEnrolled(trace, events, start, ancestor, parent, i, i);
    }
    ForkInherits(trace, events, i, parent, task, now);
  }

  // ---- provenance ----

  ghost predicate Happened(events: seq<Event>, n: nat, e: Event)
  {
    exists j :: 0 <= j < n && j < |events| && events[j] == e
  }

  /**
   Some step before `n` gave `task` this enrollment: it was staged for the process the task ran
   as, or named for the binary it executed, or for a cgroup it was in at that exec, or it was
   inherited from a parent that had it given to it in one of these ways.
   */
  ghost predicate Entitled(events: seq<Event>, n: nat, task: nat, e: Enrollee)
    decreases n, 1
  {
    exists i :: 0 <= i < n && i < |events| && Gives(events, i, task, e)
  }

  ghost predicate Gives(events: seq<Event>, i: nat, task: nat, e: Enrollee)
    requires i < |events|
    decreases i, 2
  {
    match events[i]
    case Opened(t, pid, _) => t == task && Happened(events, i, Staged(pid, e))
    case Execed(t, pid, binary, cgroups, _) =>
      && t == task
      && (|| Happened(events, i, Staged(pid, e))
          || (binary.Some? && Happened(events, i, InodeEnrolled(binary.value, e)))
          || (exists c :: c in cgroups && Happened(events, i, CgroupEnrolled(c, e))))
    case Forked(parent, child, _) => child == task && Entitled(events, i, parent, e)
    case _ => false
  }

  function Of(info: Info): Enrollee
  {
    Enrollee(info.pod, info.role)
  }

  ghost predicate MapsTraced(s: Tasks, events: seq<Event>, n: nat)
  {
    && (forall p :: p in s.pending ==> Happened(events, n, Staged(p, Of(s.pending[p]))))
    && (forall i :: i in s.byInode ==> Happened(events, n, InodeEnrolled(i, s.byInode[i])))
    && (forall c :: c in s.byCgroup ==> Happened(events, n, CgroupEnrolled(c, s.byCgroup[c])))
  }

  ghost predicate Traced(s: Tasks, events: seq<Event>, n: nat)
  {
    MapsTraced(s, events, n) && forall t :: Enrolled(s, t) ==> Entitled(events, n, t, Of(s.storage[t]))
  }

  lemma {:induction false} FoundIsListed(byCgroup: map<nat, Enrollee>, cgroups: seq<nat>, level: nat)
    ensures Upward(byCgroup, cgroups, level).Some? ==>
              exists c :: c in cgroups && c in byCgroup && byCgroup[c] == Upward(byCgroup, cgroups, level).value
  {
    if level > 0 {
      var id := AncestorAt(cgroups, level);
      if id != 0 && id in byCgroup {
        assert id in cgroups && byCgroup[id] == Upward(byCgroup, cgroups, level).value;
      } else {
        FoundIsListed(byCgroup, cgroups, level - 1);
      }
    }
  }

  lemma MapsStepTraced(s: Tasks, events: seq<Event>, n: nat)
    requires n < |events| && Possible(s, events[n]) && MapsTraced(s, events, n)
    ensures MapsTraced(Step(s, events[n]), events, n + 1)
  {
    hide Happened, AutoEnroll;
    HappenedLater(events, n);
    assert MapsTraced(s, events, n + 1);
    if events[n].Staged? {
      assert Of(Take(events[n].enrollee)) == events[n].enrollee;
    }
  }

  lemma HappenedLater(events: seq<Event>, n: nat)
    requires n < |events|
    ensures forall e :: Happened(events, n, e) ==> Happened(events, n + 1, e)
    ensures Happened(events, n + 1, events[n])
  {
  }

  lemma MigratedIsGiven(s: Tasks, events: seq<Event>, n: nat, task: nat)
    requires n < |events| && MapsTraced(s, events, n)
    requires (events[n].Opened? || events[n].Execed?) && events[n].task == task && HasPending(s, events[n].pid)
    ensures Gives(events, n, task, Of(s.pending[events[n].pid]))
  {
    hide Happened;
  }

  lemma EnrolledIsGiven(s: Tasks, events: seq<Event>, n: nat, m: Tasks, info: Info)
    requires n < |events| && MapsTraced(s, events, n) && events[n].Execed? && events[n].cgroups != []
    requires m.byInode == s.byInode && m.byCgroup == s.byCgroup && info.pod == 0
    ensures var taken := AutoEnroll(m, info, events[n].binary, events[n].cgroups);
            taken.pod != 0 ==> Gives(events, n, events[n].task, Of(taken))
  {
    hide Happened, Upward;
    FoundIsListed(s.byCgroup, events[n].cgroups, MAX_CGROUP_DEPTH);
    var own := events[n].cgroups[|events[n].cgroups| - 1];
    assert own in events[n].cgroups;
  }

  /** A record that a step puts in place of another, or of none, is one that step gives. */
  lemma NewRecordIsGiven(s: Tasks, events: seq<Event>, n: nat, task: nat)
    requires n < |events| && Possible(s, events[n]) && Traced(s, events, n)
    requires var s' := Step(s, events[n]); Enrolled(s', task)
    ensures var s' := Step(s, events[n]);
            (Enrolled(s, task) && s'.storage[task] == s.storage[task]) || Gives(events, n, task, Of(s'.storage[task]))
  {
    hide Happened, AutoEnroll, Entitled;
    match events[n]
    case Opened(t, pid, memory) =>
      if t == task && HasPending(s, pid) { MigratedIsGiven(s, events, n, task); }
    case Execed(t, pid, binary, cgroups, memory) =>
      if t == task && HasPending(s, pid) { MigratedIsGiven(s, events, n, task); }
      var m := Migrate(s, t, pid, memory);
      if RecordOf(m, t).pod == 0 { EnrolledIsGiven(s, events, n, m, RecordOf(m, t)); }
      KeepsEnrolledInfo(m, RecordOf(m, t), binary, cgroups);
    case _ =>
  }

  lemma KeepsEnrolledInfo(s: Tasks, info: Info, binary: Option<nat>, cgroups: seq<nat>)
    requires cgroups != []
    ensures info.pod != 0 ==> AutoEnroll(s, info, binary, cgroups) == info
  {
  }

  lemma StepTraced(s: Tasks, events: seq<Event>, n: nat)
    requires n < |events| && Possible(s, events[n]) && Traced(s, events, n)
    ensures Traced(Step(s, events[n]), events, n + 1)
  {
    hide Gives, Step;
    MapsStepTraced(s, events, n);
    var s' := Step(s, events[n]);
    forall t | Enrolled(s', t) ensures Entitled(events, n + 1, t, Of(s'.storage[t])) {
      NewRecordIsGiven(s, events, n, t);
    }
  }

  /** Every enrolled task of every run was given its own record, earlier in that run. */
  lemma {:induction false} EveryEnrollmentIsWritten(trace: seq<Tasks>, events: seq<Event>, n: nat, task: nat)
    requires IsRun(trace, events) && n < |trace|
    requires trace[0] == Tasks(map[], map[], map[], map[])
    ensures Traced(trace[n], events, n)
    ensures Enrolled(trace[n], task) ==> Entitled(events, n, task, Of(trace[n].storage[task]))
  {
    hide Step, Possible, Entitled, MapsTraced;
    if n > 0 {
      EveryEnrollmentIsWritten(trace, events, n - 1, task);
      assert trace[n - 1 + 1] == Step(trace[n - 1], events[n - 1]);
      StepTraced(trace[n - 1], events, n - 1);
    } else {
      NothingToTrace(events);
    }
  }

  lemma NothingToTrace(events: seq<Event>)
    ensures Traced(Tasks(map[], map[], map[], map[]), events, 0)
  {
  }

  // ---- what is written does enroll ----

  /** The step shows that this process runs as `pid`. */
  predicate RunsAs(e: Event, pid: nat)
  {
    (e.Opened? || e.Execed?) && e.pid == pid
  }

  /** What is staged for a process, by the steps before `n`: the last staging, until a step of that process takes it. */
  function Waiting(events: seq<Event>, n: nat, pid: nat): Option<Enrollee>
    requires n <= |events|
  {
    if n == 0 then None
    else
      var e, before := events[n - 1], Waiting(events, n - 1, pid);
      if e.Staged? && e.pid == pid then Some(e.enrollee)
      else if RunsAs(e, pid) && before.Some? && before.value.pod != 0 then None
      else before
  }

  /** What a binary is named for, by the steps before `n`: the last naming, unless it was removed since. */
  function BinaryNamed(events: seq<Event>, n: nat, inode: nat): Option<Enrollee>
    requires n <= |events|
  {
    if n == 0 then None
    else
      match events[n - 1]
      case InodeEnrolled(i, e) => if i == inode then Some(e) else BinaryNamed(events, n - 1, inode)
      case InodeRemoved(i) => if i == inode then None else BinaryNamed(events, n - 1, inode)
      case _ => BinaryNamed(events, n - 1, inode)
  }

  function CgroupNamed(events: seq<Event>, n: nat, id: nat): Option<Enrollee>
    requires n <= |events|
  {
    if n == 0 then None
    else
      match events[n - 1]
      case CgroupEnrolled(c, e) => if c == id then Some(e) else CgroupNamed(events, n - 1, id)
      case CgroupRemoved(c) => if c == id then None else CgroupNamed(events, n - 1, id)
      case _ => CgroupNamed(events, n - 1, id)
  }

  /** The map holds at `k` what the history says. */
  predicate Holds<T(==)>(m: map<nat, T>, k: nat, said: Option<T>)
  {
    (k in m <==> said.Some?) && (k in m ==> m[k] == said.value)
  }

  function InfoOf(e: Option<Enrollee>): Option<Info>
  {
    match e
    case Some(x) => Some(Info(x.pod, x.role, 0, 0))
    case None => None
  }

  /** The three enrollment maps are what the history of the run says, key by key. */
  lemma {:induction false} MapsFollowHistory(trace: seq<Tasks>, events: seq<Event>, n: nat, key: nat)
    requires IsRun(trace, events) && n < |trace|
    requires trace[0] == Tasks(map[], map[], map[], map[])
    ensures Holds(trace[n].pending, key, InfoOf(Waiting(events, n, key)))
    ensures Holds(trace[n].byInode, key, BinaryNamed(events, n, key))
    ensures Holds(trace[n].byCgroup, key, CgroupNamed(events, n, key))
  {
    hide Step, Possible;
    if n > 0 {
      MapsFollowHistory(trace, events, n - 1, key);
      assert trace[n - 1 + 1] == Step(trace[n - 1], events[n - 1]);
      PendingFollows(trace[n - 1], events, n - 1, key);
      BinariesFollow(trace[n - 1], events, n - 1, key);
      CgroupsFollow(trace[n - 1], events, n - 1, key);
    }
  }

  lemma PendingFollows(s: Tasks, events: seq<Event>, n: nat, pid: nat)
    requires n < |events| && Possible(s, events[n]) && Holds(s.pending, pid, InfoOf(Waiting(events, n, pid)))
    ensures Holds(Step(s, events[n]).pending, pid, InfoOf(Waiting(events, n + 1, pid)))
  {
    hide AutoEnroll;
  }

  lemma BinariesFollow(s: Tasks, events: seq<Event>, n: nat, inode: nat)
    requires n < |events| && Possible(s, events[n]) && Holds(s.byInode, inode, BinaryNamed(events, n, inode))
    ensures Holds(Step(s, events[n]).byInode, inode, BinaryNamed(events, n + 1, inode))
  {
    hide AutoEnroll, RecordOf;
  }

  lemma CgroupsFollow(s: Tasks, events: seq<Event>, n: nat, id: nat)
    requires n < |events| && Possible(s, events[n]) && Holds(s.byCgroup, id, CgroupNamed(events, n, id))
    ensures Holds(Step(s, events[n]).byCgroup, id, CgroupNamed(events, n + 1, id))
  {
    hide AutoEnroll, RecordOf;
  }

  /** Between its staging and the next step of the process nothing touches the record. */
  lemma {:induction false} StagedWaits(trace: seq<Tasks>, events: seq<Event>, i: nat, k: nat, pid: nat, e: Enrollee)
    requires IsRun(trace, events) && i < k < |trace| && events[i] == Staged(pid, e)
    requires forall m :: i < m < k ==> !RunsAs(events[m], pid) && !(events[m].Staged? && events[m].pid == pid)
    ensures pid in trace[k].pending && trace[k].pending[pid] == Info(e.pod, e.role, 0, 0)
    decreases k
  {
    hide AutoEnroll;
    assert trace[k - 1 + 1] == Step(trace[k - 1], events[k - 1]);
    if i < k - 1 { StagedWaits(trace, events, i, k - 1, pid, e); }
  }

  /** A step of a process for which a record waits moves it to the task, if the task can hold it, and drops it. */
  lemma StepTakesStaged(s: Tasks, e: Event, pid: nat)
    requires Possible(s, e) && RunsAs(e, pid) && pid in s.pending && s.pending[pid].pod != 0
    ensures pid !in Step(s, e).pending
    ensures e.task in s.storage || e.memory ==>
              e.task in Step(s, e).storage && Step(s, e).storage[e.task] == s.pending[pid]
  {
    hide FindCgroup;
  }

  /**
   Staging enrolls: in every run, the task that makes the next step of the staged process, storage
   being there or to be had, is enrolled ever after, with what was staged or a later migration of
   its own; and the record is taken by that step.
   */
  lemma StagedIsEnrolled(trace: seq<Tasks>, events: seq<Event>, i: nat, j: nat, now: nat, pid: nat, e: Enrollee)
    requires IsRun(trace, events) && i < j < now < |trace|
    requires events[i] == Staged(pid, e) && e.pod != 0 && RunsAs(events[j], pid)
    requires forall m :: i < m < j ==> !RunsAs(events[m], pid) && !(events[m].Staged? && events[m].pid == pid)
    ensures pid !in trace[j + 1].pending
    ensures events[j].task in trace[j].storage || events[j].memory ==>
              var task := events[j].task;
              && Enrolled(trace[now], task)
              && (trace[now].storage[task] == Info(e.pod, e.role, 0, 0)
                  || exists m :: j < m < now && Migrated(trace[m], events[m], task, trace[now].storage[task]))
  {
    hide Step, Possible, Migrated;
    StagedWaits(trace, events, i, j, pid, e);
    assert trace[j + 1] == Step(trace[j], events[j]);
    StepTakesStaged(trace[j], events[j], pid);
    if events[j].task in trace[j].storage || events[j].memory {
      EnrolledForever(trace, events, events[j].task, j + 1, now);
    }
  }

  /** The record an exec of a task with no role finds for it: its binary's, and only then its nearest cgroup's. */
  ghost predicate FoundAtExec(s: Tasks, binary: Option<nat>, cgroups: seq<nat>, e: Enrollee)
  {
    if binary.Some? && binary.value in s.byInode then e == s.byInode[binary.value]
    else exists l: nat :: NearestLevel(s.byCgroup, cgroups, l) && e == s.byCgroup[cgroups[l]]
  }

  lemma StepEnrollsAtExec(s: Tasks, e: Event)
    requires e.Execed? && Possible(s, e) && forall i :: 0 <= i < |e.cgroups| ==> e.cgroups[i] != 0
    requires !Enrolled(s, e.task) && !(e.pid in s.pending && s.pending[e.pid].pod != 0)
    requires e.task in s.storage || e.memory
    ensures e.task in Step(s, e).storage
    ensures forall x :: FoundAtExec(s, e.binary, e.cgroups, x) ==>
              Step(s, e).storage[e.task] == Info(x.pod, x.role, 0, 0)
    ensures (forall x :: !FoundAtExec(s, e.binary, e.cgroups, x)) ==> !Enrolled(Step(s, e), e.task)
  {
    hide FindCgroup, NearestLevel;
    CgroupSearchFindsNearest(s.byCgroup, e.cgroups);
    forall l: nat, m: nat | NearestLevel(s.byCgroup, e.cgroups, l) && NearestLevel(s.byCgroup, e.cgroups, m)
      ensures l == m
    {
      OneNearestLevel(s.byCgroup, e.cgroups, l, m);
    }
    var found := FindCgroup(s.byCgroup, e.cgroups);
    if e.binary.Some? && e.binary.value in s.byInode {
      assert FoundAtExec(s, e.binary, e.cgroups, s.byInode[e.binary.value]);
    } else if found.Some? {
      assert FoundAtExec(s, e.binary, e.cgroups, found.value);
    } else {
      NoNearestLevel(s.byCgroup, e.cgroups);
    }
  }

  lemma OneNearestLevel(byCgroup: map<nat, Enrollee>, cgroups: seq<nat>, l: nat, m: nat)
    requires NearestLevel(byCgroup, cgroups, l) && NearestLevel(byCgroup, cgroups, m)
    ensures l == m
  {
  }

  lemma NoNearestLevel(byCgroup: map<nat, Enrollee>, cgroups: seq<nat>)
    requires forall l :: 0 <= l < |cgroups| && Consulted(cgroups, l) ==> cgroups[l] !in byCgroup
    ensures forall l: nat :: !NearestLevel(byCgroup, cgroups, l)
  {
  }

  /**
   Naming enrolls: in every run, a task with no role that executes a binary that is named, or else in
   or below a cgroup that is, is enrolled ever after, with that record or a migration of its own.
   */
  lemma NamedIsEnrolled(trace: seq<Tasks>, events: seq<Event>, j: nat, now: nat, x: Enrollee)
    requires IsRun(trace, events) && j < now < |trace| && events[j].Execed?
    requires forall i :: 0 <= i < |events[j].cgroups| ==> events[j].cgroups[i] != 0
    requires var e, s := events[j], trace[j];
             && !Enrolled(s, e.task) && !(e.pid in s.pending && s.pending[e.pid].pod != 0)
             && (e.task in s.storage || e.memory) && FoundAtExec(s, e.binary, e.cgroups, x) && x.pod != 0
    ensures var task := events[j].task;
            && Enrolled(trace[now], task)
            && (trace[now].storage[task] == Info(x.pod, x.role, 0, 0)
                || exists m :: j < m < now && Migrated(trace[m], events[m], task, trace[now].storage[task]))
  {
    hide Step, Migrated, FoundAtExec;
    assert trace[j + 1] == Step(trace[j], events[j]);
    StepEnrollsAtExec(trace[j], events[j]);
    EnrolledForever(trace, events, events[j].task, j + 1, now);
  }
}
