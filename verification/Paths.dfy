/**
 Paths from the top: what the climb collects from below is what going down from where
 the task's view ends spells, directory by directory and mount by mount.
 */
module Paths {
  import opened Base
  import opened Walk
  import opened Collect

  /** `q` is the entry `name` of directory `p`, in the same mount. */
  predicate EntryOf(fs: Fs, p: Place, q: Place, name: Name)
  {
    && q.dentry in fs.parent && fs.parent[q.dentry] == p.dentry && p.dentry != 0 && p.dentry != q.dentry
    && p.mnt == q.mnt && !TopOfMount(fs, q)
    && name == (if q.dentry in fs.name then fs.name[q.dentry] else [])
  }

  predicate TopOfMount(fs: Fs, q: Place)
  {
    if q.mnt in fs.mntRoot then fs.mntRoot[q.mnt] == q.dentry else q.dentry == 0
  }

  /** `q` is the top of a mount that hangs at `p`. */
  predicate MountedAt(fs: Fs, p: Place, q: Place)
  {
    && TopOfMount(fs, q) && q.mnt in fs.mntParent && fs.mntParent[q.mnt] == p.mnt && p.mnt != 0 && p.mnt != q.mnt
    && q.mnt in fs.mountpoint && fs.mountpoint[q.mnt] == p.dentry && p.dentry != 0
  }

  /** Where a task's view ends: its own root, or the top of a mount that hangs nowhere. */
  predicate Summit(fs: Fs, root: Place, p: Place)
  {
    || p == root
    || (TopOfMount(fs, p) && (p.mnt !in fs.mntParent || fs.mntParent[p.mnt] == 0 || fs.mntParent[p.mnt] == p.mnt))
  }

  datatype Leg = Into(name: Name) | Onto

  predicate Steps(fs: Fs, p: Place, q: Place, leg: Leg)
  {
    match leg
    case Into(name) => EntryOf(fs, p, q, name)
    case Onto => MountedAt(fs, p, q)
  }

  /** Going down by `legs` from a summit one comes to `at`, past no other end of the view. */
  ghost predicate Descends(fs: Fs, root: Place, legs: seq<Leg>, at: Place)
    decreases |legs|
  {
    if legs == [] then Summit(fs, root, at)
    else
      var init, leg := legs[..|legs| - 1], legs[|legs| - 1];
      at != root && exists p :: Descends(fs, root, init, p) && Steps(fs, p, at, leg)
  }

  /** The path the legs spell. */
  function Spelt(legs: seq<Leg>): seq<Name>
  {
    if legs == [] then []
    else
      Spelt(legs[..|legs| - 1]) + (match legs[|legs| - 1] case Into(name) => [name] case Onto => [])
  }

  function Mounts(legs: seq<Leg>): nat
  {
    if legs == [] then 0 else Mounts(legs[..|legs| - 1]) + if legs[|legs| - 1].Onto? then 1 else 0
  }

  /** A step down is undone by the climb's move up, and by no other step. */
  lemma MoveUndoes(fs: Fs, root: Place, p: Place, q: Place, leg: Leg)
    requires q != root && Steps(fs, p, q, leg)
    ensures MoveFrom(fs, root, q) == match leg case Into(name) => Up(p, name) case Onto => Cross(p)
  {
  }

  lemma SummitIsTop(fs: Fs, root: Place, p: Place)
    ensures Summit(fs, root, p) <==> MoveFrom(fs, root, p) == AtRoot
  {
  }

  lemma ReverseSnoc(names: seq<Name>, name: Name)
    ensures Reverse([name] + names) == Reverse(names) + [name]
  {
    assert ([name] + names)[1..] == names;
  }

  /** Whatever way down leads to a place, the climb from it sees that path, to its end. */
  lemma {:induction false} DescentIsVisible(fs: Fs, root: Place, rank: Place -> nat, legs: seq<Leg>, at: Place)
    requires Forest(fs, root, rank) && Descends(fs, root, legs, at)
    ensures var s := Visible(fs, root, rank, at);
            s.rooted && Reverse(s.names) == Spelt(legs) && s.crossings == Mounts(legs)
    decreases |legs|
  {
    hide MoveFrom, Summit, Steps;
    if legs == [] {
      SummitIsTop(fs, root, at);
    } else {
      var init, leg := legs[..|legs| - 1], legs[|legs| - 1];
      var p :| Descends(fs, root, init, p) && Steps(fs, p, at, leg);
      MoveUndoes(fs, root, p, at, leg);
      DescentIsVisible(fs, root, rank, init, p);
      if leg.Into? { ReverseSnoc(Visible(fs, root, rank, p).names, leg.name); }
    }
  }

  /** And a path that is seen to its end is one that can be gone down. */
  lemma {:induction false} VisibleIsDescent(fs: Fs, root: Place, rank: Place -> nat, at: Place) returns (legs: seq<Leg>)
    requires Forest(fs, root, rank) && Visible(fs, root, rank, at).rooted
    ensures Descends(fs, root, legs, at)
    decreases rank(at)
  {
    hide MoveFrom, Summit, Steps, Descends;
    SummitIsTop(fs, root, at);
    match MoveFrom(fs, root, at)
    case AtRoot =>
      legs := [];
      DescendsNowhere(fs, root, at);
    case Cross(to) =>
      legs := VisibleIsDescent(fs, root, rank, to);
      UpFromEntry(fs, root, at);
      DescendsOn(fs, root, legs, to, Onto, at);
      legs := legs + [Onto];
    case Up(to, name) =>
      legs := VisibleIsDescent(fs, root, rank, to);
      UpFromEntry(fs, root, at);
      DescendsOn(fs, root, legs, to, Into(name), at);
      legs := legs + [Into(name)];
  }

  lemma DescendsNowhere(fs: Fs, root: Place, at: Place)
    requires Summit(fs, root, at)
    ensures Descends(fs, root, [], at)
  {
  }

  lemma DescendsOn(fs: Fs, root: Place, legs: seq<Leg>, p: Place, leg: Leg, at: Place)
    requires Descends(fs, root, legs, p) && at != root && Steps(fs, p, at, leg)
    ensures Descends(fs, root, legs + [leg], at)
  {
    assert (legs + [leg])[..|legs|] == legs;
  }

  lemma UpFromEntry(fs: Fs, root: Place, at: Place)
    ensures match MoveFrom(fs, root, at)
            case Cross(to) => at != root && Steps(fs, to, at, Onto)
            case Up(to, name) => at != root && Steps(fs, to, at, Into(name))
            case _ => true
  {
  }
}
