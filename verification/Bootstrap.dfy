/** The daemonless bootstrap: pin everything once per boot, and survive being cut off anywhere. */
module Bootstrap {
  import opened Base

  const PINNED_MAPS: seq<string> := [
    "task_storage", "role_flags", "pending_enrollments", "network_rules", "path_states", "exec_states",
    "path_decision_cache", "cache_generation", "exec_enrollment", "cgroup_enrollment", "audit_events"]

  const LSM_PROGRAMS: seq<string> := [
    "task_alloc", "file_open", "socket_bind", "socket_connect", "socket_sendmsg", "bprm_check_security",
    "path_rename", "sb_mount", "sb_umount", "ptrace_access_check", "kernel_module_request", "bpf"]

  const BUILD_ID_DIGITS := 16

  /** The sixteen hexadecimal digits that name a build's object. */
  type BuildId = s: string | |s| == 16 witness "0000000000000000"

  /** What is pinned, and the text of the build-id file. Both are cleared by a reboot. */
  datatype Pins = Pins(maps: set<string>, progs: set<string>, links: set<nat>, idFile: Option<string>)

  const EMPTY := Pins({}, {}, {}, None)

  /** The recorded id; an empty file records none. */
  function RecordedId(p: Pins): Option<string>
  {
    if p.idFile == Some("") then None else p.idFile
  }

  lemma RecordedRead(p: Pins)
    ensures RecordedId(p).None? <==> p.idFile in {None, Some("")}
    ensures RecordedId(p).Some? ==> RecordedId(p) == p.idFile
  {
  }

  function Elements(names: seq<string>): (s: set<string>)
    ensures forall n :: n in s <==> n in names
  {
    set n | n in names
  }

  // ---- the comparison ----

  datatype Difference =
    | Missing(progs: bool, names: set<string>)
    | Extra(progs: bool, names: set<string>)
    | OtherId(id: string)
    | NoId

  datatype Verdict = Absent | Current | Stale(differences: seq<Difference>)

  function Describe(progs: bool, want: set<string>, found: set<string>): seq<Difference>
  {
    (if want - found != {} then [Missing(progs, want - found)] else [])
    + (if found - want != {} then [Extra(progs, found - want)] else [])
  }

  /** Some difference names `n` as missing (or as extra) among the programs (or the maps). */
  predicate Names(differences: seq<Difference>, missing: bool, progs: bool, n: string)
  {
    exists i :: 0 <= i < |differences| && NamedIn(differences[i], missing, progs, n)
  }

  predicate NamedIn(d: Difference, missing: bool, progs: bool, n: string)
  {
    match d
    case Missing(p, names) => missing && p == progs && n in names
    case Extra(p, names) => !missing && p == progs && n in names
    case _ => false
  }

  lemma Described(differences: seq<Difference>, progs: bool, want: set<string>, found: set<string>)
    requires forall d :: d in Describe(progs, want, found) ==> d in differences
    requires forall d :: d in differences && (d.Missing? || d.Extra?) && d.progs == progs ==>
               d in Describe(progs, want, found)
    ensures forall n :: Names(differences, true, progs, n) <==> n in want - found
    ensures forall n :: Names(differences, false, progs, n) <==> n in found - want
  {
    forall n ensures Names(differences, true, progs, n) <==> n in want - found {
      if n in want - found {
        var d := Missing(progs, want - found);
        assert d in Describe(progs, want, found);
        var i :| 0 <= i < |differences| && differences[i] == d;
        assert NamedIn(differences[i], true, progs, n);
      }
      if i :| 0 <= i < |differences| && NamedIn(differences[i], true, progs, n) {
        assert differences[i] in differences;
      }
    }
    forall n ensures Names(differences, false, progs, n) <==> n in found - want {
      if n in found - want {
        var d := Extra(progs, found - want);
        assert d in Describe(progs, want, found);
        var i :| 0 <= i < |differences| && differences[i] == d;
        assert NamedIn(differences[i], false, progs, n);
      }
      if i :| 0 <= i < |differences| && NamedIn(differences[i], false, progs, n) {
        assert differences[i] in differences;
      }
    }
  }

  function IdDifference(id: Option<string>, expected: string): seq<Difference>
  {
    match id
    case Some(i) => if i != expected then [OtherId(i)] else []
    case None => [NoId]
  }

  lemma AllNamed(found: Pins, expected: string, wantProgs: set<string>, wantMaps: set<string>, ds: seq<Difference>)
    requires ds == Describe(true, wantProgs, found.progs) + Describe(false, wantMaps, found.maps)
                   + IdDifference(RecordedId(found), expected)
    ensures ds == [] <==> wantProgs == found.progs && wantMaps == found.maps && RecordedId(found) == Some(expected)
    ensures forall n :: n in wantProgs - found.progs <==> Names(ds, true, true, n)
    ensures forall n :: n in found.progs - wantProgs <==> Names(ds, false, true, n)
    ensures forall n :: n in wantMaps - found.maps <==> Names(ds, true, false, n)
    ensures forall n :: n in found.maps - wantMaps <==> Names(ds, false, false, n)
    ensures NoId in ds <==> RecordedId(found).None?
  {
    hide Names, RecordedId;
    var p, m, i := Describe(true, wantProgs, found.progs), Describe(false, wantMaps, found.maps),
                   IdDifference(RecordedId(found), expected);
    assert forall d :: d in ds <==> d in p || d in m || d in i;
    SameIffNothingToDescribe(true, wantProgs, found.progs);
    SameIffNothingToDescribe(false, wantMaps, found.maps);
    Described(ds, true, wantProgs, found.progs);
    Described(ds, false, wantMaps, found.maps);
  }

  /** Three-way: a bare system, this build's own pins, or anything in between with every difference named. */
  method Compare(found: Pins, expected: BuildId) returns (v: Verdict)
    ensures v == Absent <==> found.progs == {} && found.maps == {} && found.idFile in {None, Some("")}
    ensures v == Current <==> IsCurrent(found, expected)
    ensures v == Current ==> found.idFile == Some(expected)
    ensures v.Stale? ==> v.differences != []
    ensures v.Stale? ==> forall n :: n in Elements(LSM_PROGRAMS) - found.progs <==> Names(v.differences, true, true, n)
    ensures v.Stale? ==> forall n :: n in found.progs - Elements(LSM_PROGRAMS) <==> Names(v.differences, false, true, n)
    ensures v.Stale? ==> forall n :: n in Elements(PINNED_MAPS) - found.maps <==> Names(v.differences, true, false, n)
    ensures v.Stale? ==> forall n :: n in found.maps - Elements(PINNED_MAPS) <==> Names(v.differences, false, false, n)
    ensures v.Stale? ==> (NoId in v.differences <==> RecordedId(found).None?)
  {
    hide Describe, Names, RecordedId, Elements;
    RecordedRead(found);
    if found.progs == {} && found.maps == {} && RecordedId(found).None? {
      return Absent;
    }
    var wantProgs, wantMaps := Elements(LSM_PROGRAMS), Elements(PINNED_MAPS);
    var differences := Describe(true, wantProgs, found.progs) + Describe(false, wantMaps, found.maps);
    match RecordedId(found) {
      case Some(id) => if id != expected { differences := differences + [OtherId(id)]; }
      case None => differences := differences + [NoId];
    }
    AllNamed(found, expected, wantProgs, wantMaps, differences);
    v := if differences == [] then Current else Stale(differences);
  }

  lemma SameIffNothingToDescribe(progs: bool, want: set<string>, found: set<string>)
    ensures Describe(progs, want, found) == [] <==> want == found
  {
    if want - found == {} && found - want == {} {
      assert forall n :: n in want ==> n !in want - found ==> n in found;
      assert want == found;
    }
  }

  predicate IsAbsent(p: Pins)
  {
    p.progs == {} && p.maps == {} && RecordedId(p).None?
  }

  predicate IsCurrent(p: Pins, expected: BuildId)
  {
    p.progs == Elements(LSM_PROGRAMS) && p.maps == Elements(PINNED_MAPS) && RecordedId(p) == Some(expected)
  }

  // ---- what a run does to the file system, in order ----

  datatype Effect = PinMap(name: string) | PinProgram(name: string) | PinLink(index: nat) | WriteId(text: string)

  function Apply(p: Pins, e: Effect): Pins
  {
    match e
    case PinMap(name) => p.(maps := p.maps + {name})
    case PinProgram(name) => p.(progs := p.progs + {name})
    case PinLink(index) => p.(links := p.links + {index})
    case WriteId(text) => p.(idFile := Some(text))
  }

  function ApplyAll(p: Pins, effects: seq<Effect>): Pins
  {
    if effects == [] then p else Apply(ApplyAll(p, effects[..|effects| - 1]), effects[|effects| - 1])
  }

  function MapPins(names: seq<string>): (es: seq<Effect>)
    ensures |es| == |names| && forall i :: 0 <= i < |names| ==> es[i] == PinMap(names[i])
  {
    if names == [] then [] else MapPins(names[..|names| - 1]) + [PinMap(names[|names| - 1])]
  }

  function ProgramPins(names: seq<string>): (es: seq<Effect>)
    ensures |es| == |names| && forall i :: 0 <= i < |names| ==> es[i] == PinProgram(names[i])
  {
    if names == [] then [] else ProgramPins(names[..|names| - 1]) + [PinProgram(names[|names| - 1])]
  }

  function LinkPins(n: nat): (es: seq<Effect>)
    ensures |es| == n && forall i :: 0 <= i < n ==> es[i] == PinLink(i)
  {
    if n == 0 then [] else LinkPins(n - 1) + [PinLink(n - 1)]
  }

  /** Writing the id creates an empty file and then fills it, byte by byte as far as a crash can see. */
  function IdWrites(id: string, n: nat): (es: seq<Effect>)
    requires n <= |id|
    ensures |es| == n + 1 && forall i :: 0 <= i <= n ==> es[i] == WriteId(id[..i])
  {
    if n == 0 then [WriteId(id[..0])] else IdWrites(id, n - 1) + [WriteId(id[..n])]
  }

  /** The names a pinning loop gets through before the first the object does not have. */
  function Reachable(names: seq<string>, present: set<string>): (r: seq<string>)
    ensures r <= names && forall n :: n in r ==> n in present
    ensures (forall n :: n in names ==> n in present) <==> r == names
  {
    if names == [] || names[0] !in present then []
    else [names[0]] + Reachable(names[1..], present)
  }

  /** The compiled object: which programs and maps it holds. */
  datatype Object = Object(progs: set<string>, maps: set<string>)

  predicate HasAll(o: Object)
  {
    (forall n :: n in PINNED_MAPS ==> n in o.maps) && (forall n :: n in LSM_PROGRAMS ==> n in o.progs)
  }

  /** A link for each listed program the object has: the attach loop, which runs before any pinning. */
  function Links(o: Object): nat
  {
    Count(LSM_PROGRAMS, o.progs)
  }

  function Count(names: seq<string>, present: set<string>): nat
  {
    if names == [] then 0 else (if names[0] in present then 1 else 0) + Count(names[1..], present)
  }

  /** Everything an uninterrupted run on a bare system does: it stops where a loop meets a missing name. */
  function Effects(o: Object, id: BuildId): seq<Effect>
  {
    InOrder(PINNED_MAPS, LSM_PROGRAMS, o, LinkPins(Links(o)) + IdWrites(id, BUILD_ID_DIGITS))
  }

  function InOrder(mapNames: seq<string>, progNames: seq<string>, o: Object, rest: seq<Effect>): seq<Effect>
  {
    var maps, progs := Reachable(mapNames, o.maps), Reachable(progNames, o.progs);
    if maps != mapNames then MapPins(maps)
    else if progs != progNames then MapPins(maps) + ProgramPins(progs)
    else MapPins(maps) + ProgramPins(progs) + rest
  }

  // ---- histories ----

  /** `cut` is how many of its effects a run lives to make. */
  datatype Event = Reboot | Started(build: Object, id: BuildId, cut: nat)

  function Min(a: nat, b: nat): nat { if a < b then a else b }

  function RunOnce(p: Pins, e: Event): Pins
    requires e.Started?
  {
    if IsAbsent(p) then
      var effects := Effects(e.build, e.id);
      ApplyAll(p, effects[..Min(e.cut, |effects|)])
    else p
  }

  function History(events: seq<Event>): Pins
  {
    if events == [] then EMPTY
    else
      var e := events[|events| - 1];
      if e.Reboot? then EMPTY else RunOnce(History(events[..|events| - 1]), e)
  }

  /** Event `i` is a run since the last reboot. */
  ghost predicate RunSinceBoot(events: seq<Event>, i: int)
  {
    && 0 <= i < |events| && events[i].Started?
    && forall j :: i < j < |events| ==> !events[j].Reboot?
  }

  /** What is pinned is nothing, or the first so many effects of one run since the last reboot. */
  ghost predicate OneAuthor(p: Pins, events: seq<Event>, i: int, k: nat)
  {
    && RunSinceBoot(events, i)
    && k <= |Effects(events[i].build, events[i].id)| && k <= events[i].cut
    && p == ApplyAll(EMPTY, Effects(events[i].build, events[i].id)[..k])
  }

  lemma {:induction false} AlwaysOneAuthor(events: seq<Event>)
    ensures History(events) == EMPTY || exists i, k :: OneAuthor(History(events), events, i, k)
  {
    hide Effects, ApplyAll;
    if events != [] {
      var init, e := events[..|events| - 1], events[|events| - 1];
      AlwaysOneAuthor(init);
      var p := History(init);
      if e.Started? {
        if p == EMPTY {
          var effects := Effects(e.build, e.id);
          var k := Min(e.cut, |effects|);
          assert OneAuthor(History(events), events, |events| - 1, k);
        } else {
          var i, k :| OneAuthor(p, init, i, k);
          AuthoredIsNotAbsent(init, i, k);
          assert OneAuthor(History(events), events, i, k);
        }
      }
    }
  }

  lemma {:induction false} FirstPinStays(effects: seq<Effect>, k: nat)
    requires 0 < k <= |effects| && effects[0].PinMap?
    ensures effects[0].name in ApplyAll(EMPTY, effects[..k]).maps
  {
    var es := effects[..k];
    if k == 1 {
      assert es[..0] == [];
    } else {
      assert es[..k - 1] == effects[..k - 1];
      FirstPinStays(effects, k - 1);
    }
  }

  /** The first thing a run does is pin a map, so a run that did anything is not taken for none. */
  lemma AuthoredIsNotAbsent(events: seq<Event>, i: int, k: nat)
    requires History(events) != EMPTY && OneAuthor(History(events), events, i, k)
    ensures !IsAbsent(History(events))
  {
    var e := events[i];
    var effects := Effects(e.build, e.id);
    if k > 0 {
      var maps := Reachable(PINNED_MAPS, e.build.maps);
      assert effects[0] == MapPins(maps)[0];
      FirstPinStays(effects, k);
    }
  }

  // ---- what a complete run leaves ----

  lemma ApplyNext(p: Pins, effects: seq<Effect>, n: nat)
    requires n < |effects|
    ensures ApplyAll(p, effects[..n + 1]) == Apply(ApplyAll(p, effects[..n]), effects[n])
  {
    assert effects[..n + 1][..n] == effects[..n];
  }

  /** How many effects come before the id file is touched. */
  function Prelude(o: Object): nat
  {
    |PINNED_MAPS| + |LSM_PROGRAMS| + Links(o)
  }

  lemma EffectAt(o: Object, id: BuildId, n: nat)
    requires n < |Effects(o, id)|
    ensures n >= Prelude(o) ==> HasAll(o) && n - Prelude(o) <= 16 && Effects(o, id)[n] == WriteId(id[..n - Prelude(o)])
    ensures n < Prelude(o) ==> !Effects(o, id)[n].WriteId?
  {
    hide Links, IdWrites, InOrder;
    var rest := LinkPins(Links(o)) + IdWrites(id, BUILD_ID_DIGITS);
    AllOrPart(PINNED_MAPS, LSM_PROGRAMS, o, rest);
  }

  /** With every name present the rest follows the pins; otherwise the run ends among the pins. */
  lemma AllOrPart(mapNames: seq<string>, progNames: seq<string>, o: Object, rest: seq<Effect>)
    ensures var all := (forall n :: n in mapNames ==> n in o.maps) && (forall n :: n in progNames ==> n in o.progs);
            var effects, pins := InOrder(mapNames, progNames, o, rest), |mapNames| + |progNames|;
            && (if all then |effects| == pins + |rest| && effects[pins..] == rest else |effects| <= pins)
            && forall i :: 0 <= i < |effects| && i < pins ==> effects[i].PinMap? || effects[i].PinProgram?
  {
    var maps, progs := Reachable(mapNames, o.maps), Reachable(progNames, o.progs);
    assert |maps| <= |mapNames| && |progs| <= |progNames|;
  }

  lemma {:induction false} IdFileAfter(o: Object, id: BuildId, k: nat)
    requires k <= |Effects(o, id)|
    ensures var f := ApplyAll(EMPTY, Effects(o, id)[..k]).idFile;
            if k <= Prelude(o) then f == None
            else HasAll(o) && k - Prelude(o) - 1 <= 16 && f == Some(id[..k - Prelude(o) - 1])
  {
    hide Effects;
    if k == 0 {
      assert Effects(o, id)[..0] == [];
    } else {
      IdFileAfter(o, id, k - 1);
      EffectAt(o, id, k - 1);
      ApplyNext(EMPTY, Effects(o, id), k - 1);
    }
  }

  lemma {:induction false} CountAll(names: seq<string>, present: set<string>)
    requires forall n :: n in names ==> n in present
    ensures Count(names, present) == |names|
  {
    if names != [] { CountAll(names[1..], present); }
  }

  lemma {:induction false} LinksAfter(p: Pins, n: nat)
    ensures forall i :: i in ApplyAll(p, LinkPins(n)).links <==> i in p.links || 0 <= i < n
  {
    if n > 0 {
      LinksAfter(p, n - 1);
      assert LinkPins(n)[..n - 1] == LinkPins(n - 1);
    }
  }

  lemma {:induction false} LinksUntouched(p: Pins, effects: seq<Effect>)
    requires forall e :: e in effects ==> !e.PinLink?
    ensures ApplyAll(p, effects).links == p.links
  {
    if effects != [] {
      assert effects[|effects| - 1] in effects;
      LinksUntouched(p, effects[..|effects| - 1]);
    }
  }

  lemma {:induction false} ApplyConcat(p: Pins, a: seq<Effect>, b: seq<Effect>)
    ensures ApplyAll(p, a + b) == ApplyAll(ApplyAll(p, a), b)
  {
    if b == [] {
      assert a + b == a;
    } else {
      assert (a + b)[..|a + b| - 1] == a + b[..|b| - 1];
      ApplyConcat(p, a, b[..|b| - 1]);
    }
  }

  lemma CompleteRunLinks(o: Object, id: BuildId)
    requires HasAll(o)
    ensures forall i :: i in ApplyAll(EMPTY, Effects(o, id)).links <==> 0 <= i < |LSM_PROGRAMS|
  {
    hide ApplyAll, InOrder, MapPins, ProgramPins, Count, IdWrites;
    CountAll(LSM_PROGRAMS, o.progs);
    var effects, links, after := Effects(o, id), LinkPins(Links(o)), IdWrites(id, BUILD_ID_DIGITS);
    AllOrPart(PINNED_MAPS, LSM_PROGRAMS, o, links + after);
    var pins := |PINNED_MAPS| + |LSM_PROGRAMS|;
    LinksInOrder(effects[..pins], links, after, Links(o));
    assert effects == effects[..pins] + (links + after);
  }

  lemma LinksInOrder(before: seq<Effect>, links: seq<Effect>, after: seq<Effect>, n: nat)
    requires links == LinkPins(n)
    requires forall i :: 0 <= i < |before| ==> !before[i].PinLink?
    requires forall i :: 0 <= i < |after| ==> !after[i].PinLink?
    ensures forall i :: i in ApplyAll(EMPTY, before + (links + after)).links <==> 0 <= i < n
  {
    hide ApplyAll;
    ApplyConcat(EMPTY, before, links + after);
    var p := ApplyAll(EMPTY, before);
    ApplyConcat(p, links, after);
    LinksUntouched(EMPTY, before);
    LinksAfter(p, n);
    LinksUntouched(ApplyAll(p, links), after);
  }

  /**
   Crash safety: over every history of runs cut off anywhere and reboots, "already
   current" is reported only if one run since the last reboot lived to make every
   one of its effects: all maps, all programs, a link for each program, and this id.
   */
  lemma CurrentMeansOneCompleteRun(events: seq<Event>, expected: BuildId)
    requires IsCurrent(History(events), expected)
    ensures exists i :: RunSinceBoot(events, i) && events[i].id == expected && HasAll(events[i].build)
                        && events[i].cut >= |Effects(events[i].build, events[i].id)|
    ensures forall l :: l in History(events).links <==> 0 <= l < |LSM_PROGRAMS|
  {
    hide Effects, ApplyAll;
    AlwaysOneAuthor(events);
    assert PINNED_MAPS[0] in Elements(PINNED_MAPS);
    var i: int, k: nat :| OneAuthor(History(events), events, i, k);
    var o, id := events[i].build, events[i].id;
    IdFileAfter(o, id, k);
    assert |id[..k - Prelude(o) - 1]| == 16;
    EffectsLength(o, id);
    assert Effects(o, id)[..k] == Effects(o, id);
    CompleteRunLinks(o, id);
  }

  lemma {:induction false} PinnedBy(p: Pins, effects: seq<Effect>, n: string)
    ensures n in ApplyAll(p, effects).maps <==> n in p.maps || PinMap(n) in effects
    ensures n in ApplyAll(p, effects).progs <==> n in p.progs || PinProgram(n) in effects
  {
    if effects != [] {
      var init, last := effects[..|effects| - 1], effects[|effects| - 1];
      PinnedBy(p, init, n);
      assert forall e :: e in effects <==> e in init || e == last;
    }
  }

  lemma PinsInOrder(mapNames: seq<string>, progNames: seq<string>, o: Object, rest: seq<Effect>, n: string)
    requires (forall x :: x in mapNames ==> x in o.maps) && (forall x :: x in progNames ==> x in o.progs)
    requires forall e :: e in rest ==> !e.PinMap? && !e.PinProgram?
    ensures PinMap(n) in InOrder(mapNames, progNames, o, rest) <==> n in mapNames
    ensures PinProgram(n) in InOrder(mapNames, progNames, o, rest) <==> n in progNames
  {
    var a, b := MapPins(mapNames), ProgramPins(progNames);
    assert forall i :: 0 <= i < |mapNames| ==> a[i] in a;
    assert forall i :: 0 <= i < |progNames| ==> b[i] in b;
    assert forall e :: e in a + b + rest <==> e in a || e in b || e in rest;
  }

  /**
   The converse: a run on a bare system, of an object that has every name, that lives to make all its
   effects, is reported current by the next, for this id: twelve programs and eleven maps.
   */
  lemma CompleteRunIsCurrent(events: seq<Event>, o: Object, id: BuildId, cut: nat)
    requires IsAbsent(History(events)) && HasAll(o) && cut >= |Effects(o, id)|
    ensures IsCurrent(History(events + [Started(o, id, cut)]), id)
    ensures |LSM_PROGRAMS| == 12 && |PINNED_MAPS| == 11
  {
    hide Effects, ApplyAll, OneAuthor;
    AlwaysOneAuthor(events);
    if History(events) != EMPTY {
      var i, k :| OneAuthor(History(events), events, i, k);
      AuthoredIsNotAbsent(events, i, k);
    }
    var effects, all := Effects(o, id), events + [Started(o, id, cut)];
    assert all[..|all| - 1] == events;
    assert effects[..|effects|] == effects;
    assert History(all) == ApplyAll(EMPTY, effects);
    IdFileAfter(o, id, |effects|);
    EffectsLength(o, id);
    assert id[..16] == id;
    forall n
      ensures n in ApplyAll(EMPTY, effects).maps <==> n in PINNED_MAPS
      ensures n in ApplyAll(EMPTY, effects).progs <==> n in LSM_PROGRAMS
    {
      PinnedBy(EMPTY, effects, n);
      NamesPinned(o, id, n);
    }
  }

  lemma NamesPinned(o: Object, id: BuildId, n: string)
    requires HasAll(o)
    ensures PinMap(n) in Effects(o, id) <==> n in PINNED_MAPS
    ensures PinProgram(n) in Effects(o, id) <==> n in LSM_PROGRAMS
  {
    hide InOrder, Links;
    PinsInOrder(PINNED_MAPS, LSM_PROGRAMS, o, LinkPins(Links(o)) + IdWrites(id, BUILD_ID_DIGITS), n);
  }

  /** What comes before what: no program before every map, no link before every program, no id before every link. */
  ghost predicate InSequence(p: Pins)
  {
    && (p.progs != {} ==> forall n :: n in PINNED_MAPS ==> n in p.maps)
    && (p.links != {} ==> forall n :: n in LSM_PROGRAMS ==> n in p.progs)
    && (p.idFile.Some? ==> forall l :: 0 <= l < |LSM_PROGRAMS| ==> l in p.links)
  }

  lemma {:induction false} LinkedBy(p: Pins, effects: seq<Effect>, l: nat)
    ensures l in ApplyAll(p, effects).links <==> l in p.links || PinLink(l) in effects
  {
    if effects != [] {
      var init, last := effects[..|effects| - 1], effects[|effects| - 1];
      LinkedBy(p, init, l);
      assert forall e :: e in effects <==> e in init || e == last;
    }
  }

  lemma KindInOrder(mapNames: seq<string>, progNames: seq<string>, o: Object, rest: seq<Effect>, j: nat)
    requires j < |InOrder(mapNames, progNames, o, rest)|
    ensures var e, m, n := InOrder(mapNames, progNames, o, rest)[j], |mapNames|, |mapNames| + |progNames|;
            && (j < m ==> e == PinMap(mapNames[j])) && (m <= j < n ==> e == PinProgram(progNames[j - m]))
            && (n <= j ==> j - n < |rest| && e == rest[j - n])
  {
    var maps, progs := Reachable(mapNames, o.maps), Reachable(progNames, o.progs);
    assert forall i :: 0 <= i < |maps| ==> maps[i] == mapNames[i];
    assert forall i :: 0 <= i < |progs| ==> progs[i] == progNames[i];
  }

  /** Which effect is the one at `j`. */
  lemma KindAt(o: Object, id: BuildId, j: nat)
    requires j < |Effects(o, id)|
    ensures var e, m, n := Effects(o, id)[j], |PINNED_MAPS|, |PINNED_MAPS| + |LSM_PROGRAMS|;
            && (j < m ==> e == PinMap(PINNED_MAPS[j])) && (m <= j < n ==> e == PinProgram(LSM_PROGRAMS[j - m]))
            && (n <= j < Prelude(o) ==> e == PinLink(j - n)) && (Prelude(o) <= j ==> e.WriteId?)
  {
    hide InOrder, Links;
    KindInOrder(PINNED_MAPS, LSM_PROGRAMS, o, LinkPins(Links(o)) + IdWrites(id, BUILD_ID_DIGITS), j);
  }

  /** A run cut off anywhere leaves the pins in sequence. */
  lemma PrefixInSequence(o: Object, id: BuildId, k: nat)
    requires k <= |Effects(o, id)|
    ensures InSequence(ApplyAll(EMPTY, Effects(o, id)[..k]))
  {
    hide Effects, ApplyAll, Count;
    var prefix, p := Effects(o, id)[..k], ApplyAll(EMPTY, Effects(o, id)[..k]);
    forall j | 0 <= j < k
      ensures var e, m, n := prefix[j], |PINNED_MAPS|, |PINNED_MAPS| + |LSM_PROGRAMS|;
              && (j < m ==> e == PinMap(PINNED_MAPS[j])) && (m <= j < n ==> e == PinProgram(LSM_PROGRAMS[j - m]))
              && (n <= j < Prelude(o) ==> e == PinLink(j - n)) && (Prelude(o) <= j ==> e.WriteId?)
    {
      KindAt(o, id, j);
    }
    if n :| n in p.progs {
      PinnedBy(EMPTY, prefix, n);
      MapsInPrefix(prefix, p);
    }
    if l :| l in p.links {
      LinkedBy(EMPTY, prefix, l);
      ProgramsInPrefix(prefix, p);
    }
    IdFileAfter(o, id, k);
    if p.idFile.Some? {
      CountAll(LSM_PROGRAMS, o.progs);
      LinksInPrefix(prefix, p);
    }
  }

  lemma MapsInPrefix(prefix: seq<Effect>, p: Pins)
    requires p == ApplyAll(EMPTY, prefix) && |prefix| >= |PINNED_MAPS|
    requires forall j :: 0 <= j < |PINNED_MAPS| ==> prefix[j] == PinMap(PINNED_MAPS[j])
    ensures forall n :: n in PINNED_MAPS ==> n in p.maps
  {
    hide ApplyAll;
    forall n | n in PINNED_MAPS ensures n in p.maps {
      var j :| 0 <= j < |PINNED_MAPS| && PINNED_MAPS[j] == n;
      assert prefix[j] in prefix;
      PinnedBy(EMPTY, prefix, n);
    }
  }

  lemma ProgramsInPrefix(prefix: seq<Effect>, p: Pins)
    requires p == ApplyAll(EMPTY, prefix) && |prefix| >= |PINNED_MAPS| + |LSM_PROGRAMS|
    requires forall j :: 0 <= j < |LSM_PROGRAMS| ==> prefix[|PINNED_MAPS| + j] == PinProgram(LSM_PROGRAMS[j])
    ensures forall n :: n in LSM_PROGRAMS ==> n in p.progs
  {
    hide ApplyAll;
    forall n | n in LSM_PROGRAMS ensures n in p.progs {
      var j :| 0 <= j < |LSM_PROGRAMS| && LSM_PROGRAMS[j] == n;
      assert prefix[|PINNED_MAPS| + j] in prefix;
      PinnedBy(EMPTY, prefix, n);
    }
  }

  lemma LinksInPrefix(prefix: seq<Effect>, p: Pins)
    requires var n := |PINNED_MAPS| + |LSM_PROGRAMS|;
             && p == ApplyAll(EMPTY, prefix) && |prefix| >= n + |LSM_PROGRAMS|
             && forall j :: 0 <= j < |LSM_PROGRAMS| ==> prefix[n + j] == PinLink(j)
    ensures forall l :: 0 <= l < |LSM_PROGRAMS| ==> l in p.links
  {
    hide ApplyAll;
    forall l | 0 <= l < |LSM_PROGRAMS| ensures l in p.links {
      assert prefix[|PINNED_MAPS| + |LSM_PROGRAMS| + l] in prefix;
      LinkedBy(EMPTY, prefix, l);
    }
  }

  /** Over every history of runs cut off anywhere: maps before programs, programs before links, links before the id. */
  lemma AlwaysInSequence(events: seq<Event>)
    ensures InSequence(History(events))
  {
    hide Effects, ApplyAll, InSequence;
    AlwaysOneAuthor(events);
    if History(events) == EMPTY {
      NothingInSequence();
    } else {
      var i, k :| OneAuthor(History(events), events, i, k);
      PrefixInSequence(events[i].build, events[i].id, k);
    }
  }

  lemma NothingInSequence()
    ensures InSequence(EMPTY)
  {
  }

  lemma EffectsLength(o: Object, id: BuildId)
    requires HasAll(o)
    ensures |Effects(o, id)| == Prelude(o) + 17
  {
    hide InOrder;
    AllOrPart(PINNED_MAPS, LSM_PROGRAMS, o, LinkPins(Links(o)) + IdWrites(id, BUILD_ID_DIGITS));
  }

  // ---- the pinning code ----

  /** Pin in order, until the object lacks a name or the run is cut off. */
  method PinAll(start: Pins, o: Object, id: BuildId, cut: nat) returns (pins: Pins, ok: bool)
    ensures pins == ApplyAll(start, Effects(o, id)[..Min(cut, |Effects(o, id)|)])
    ensures ok <==> HasAll(o) && cut >= |Effects(o, id)|
  {
    hide Effects, ApplyAll, Apply;
    ghost var effects := Effects(o, id);
    pins, ok := start, false;
    var done := 0;
    StartOf(start, effects);
    for i := 0 to |PINNED_MAPS|
      invariant done == i && done <= cut && done <= |effects| && pins == ApplyAll(start, effects[..done])
      invariant forall j :: 0 <= j < i ==> PINNED_MAPS[j] in o.maps
    {
      MapEffect(o, id, i);
      if PINNED_MAPS[i] !in o.maps { return; }
      if done == cut { return; }
      ApplyNext(start, effects, done);
      pins, done := Apply(pins, PinMap(PINNED_MAPS[i])), done + 1;
    }
    for i := 0 to |LSM_PROGRAMS|
      invariant done == |PINNED_MAPS| + i && done <= cut && done <= |effects|
      invariant pins == ApplyAll(start, effects[..done])
      invariant forall j :: 0 <= j < i ==> LSM_PROGRAMS[j] in o.progs
    {
      ProgramEffect(o, id, i);
      if LSM_PROGRAMS[i] !in o.progs { return; }
      if done == cut { return; }
      ApplyNext(start, effects, done);
      pins, done := Apply(pins, PinProgram(LSM_PROGRAMS[i])), done + 1;
    }
    assert HasAll(o);
    EffectsLength(o, id);
    for i := 0 to Links(o)
      invariant done == |PINNED_MAPS| + |LSM_PROGRAMS| + i && done <= cut && done <= |effects|
      invariant pins == ApplyAll(start, effects[..done])
    {
      LinkEffect(o, id, i);
      if done == cut { return; }
      ApplyNext(start, effects, done);
      pins, done := Apply(pins, PinLink(i)), done + 1;
    }
    for i := 0 to BUILD_ID_DIGITS + 1
      invariant done == Prelude(o) + i && done <= cut && done <= |effects| && pins == ApplyAll(start, effects[..done])
    {
      EffectAt(o, id, done);
      if done == cut { return; }
      ApplyNext(start, effects, done);
      pins, done := Apply(pins, WriteId(id[..i])), done + 1;
    }
    ok := true;
  }

  /** A whole run: compare, and pin only on a bare system. Nothing is changed otherwise. */
  method RunBootstrap(pins0: Pins, o: Object, id: BuildId, cut: nat) returns (pins: Pins, found: Verdict, ok: bool)
    ensures pins == RunOnce(pins0, Started(o, id, cut))
    ensures found.Current? <==> IsCurrent(pins0, id)
    ensures found.Absent? <==> IsAbsent(pins0)
    ensures ok <==> found.Current? || (found.Absent? && HasAll(o) && cut >= |Effects(o, id)|)
  {
    hide Effects, ApplyAll, HasAll;
    found := Compare(pins0, id);
    match found {
      case Absent => pins, ok := PinAll(pins0, o, id, cut);
      case Current => pins, ok := pins0, true;
      case Stale(_) => pins, ok := pins0, false;
    }
  }

  lemma StartOf(p: Pins, effects: seq<Effect>)
    ensures ApplyAll(p, effects[..0]) == p
  {
    assert effects[..0] == [];
  }

  lemma {:induction false} ReachableStops(names: seq<string>, present: set<string>, i: nat)
    requires i < |names| && names[i] !in present && forall j :: 0 <= j < i ==> names[j] in present
    ensures Reachable(names, present) == names[..i]
  {
    if i > 0 { ReachableStops(names[1..], present, i - 1); }
  }

  lemma {:induction false} ReachableReaches(names: seq<string>, present: set<string>, i: nat)
    requires i < |names| && forall j :: 0 <= j <= i ==> names[j] in present
    ensures |Reachable(names, present)| > i
  {
    if i > 0 { ReachableReaches(names[1..], present, i - 1); }
  }

  lemma MapEffect(o: Object, id: BuildId, i: nat)
    requires i < |PINNED_MAPS| && forall j :: 0 <= j < i ==> PINNED_MAPS[j] in o.maps
    ensures PINNED_MAPS[i] !in o.maps ==> !HasAll(o) && |Effects(o, id)| == i
    ensures PINNED_MAPS[i] in o.maps ==> |Effects(o, id)| > i && Effects(o, id)[i] == PinMap(PINNED_MAPS[i])
  {
    hide InOrder;
    MapInOrder(PINNED_MAPS, LSM_PROGRAMS, o, LinkPins(Links(o)) + IdWrites(id, BUILD_ID_DIGITS), i);
  }

  lemma MapInOrder(mapNames: seq<string>, progNames: seq<string>, o: Object, rest: seq<Effect>, i: nat)
    requires i < |mapNames| && forall j :: 0 <= j < i ==> mapNames[j] in o.maps
    ensures var effects := InOrder(mapNames, progNames, o, rest);
            && (mapNames[i] !in o.maps ==> |effects| == i)
            && (mapNames[i] in o.maps ==> |effects| > i && effects[i] == PinMap(mapNames[i]))
  {
    if mapNames[i] in o.maps {
      ReachableReaches(mapNames, o.maps, i);
    } else {
      ReachableStops(mapNames, o.maps, i);
    }
  }

  lemma ProgramEffect(o: Object, id: BuildId, i: nat)
    requires forall j :: 0 <= j < |PINNED_MAPS| ==> PINNED_MAPS[j] in o.maps
    requires i < |LSM_PROGRAMS| && forall j :: 0 <= j < i ==> LSM_PROGRAMS[j] in o.progs
    ensures var n := |PINNED_MAPS| + i;
            && (LSM_PROGRAMS[i] !in o.progs ==> !HasAll(o) && |Effects(o, id)| == n)
            && (LSM_PROGRAMS[i] in o.progs ==>
                  |Effects(o, id)| > n && Effects(o, id)[n] == PinProgram(LSM_PROGRAMS[i]))
  {
    hide InOrder;
    ProgramInOrder(PINNED_MAPS, LSM_PROGRAMS, o, LinkPins(Links(o)) + IdWrites(id, BUILD_ID_DIGITS), i);
  }

  lemma ProgramInOrder(mapNames: seq<string>, progNames: seq<string>, o: Object, rest: seq<Effect>, i: nat)
    requires forall j :: 0 <= j < |mapNames| ==> mapNames[j] in o.maps
    requires i < |progNames| && forall j :: 0 <= j < i ==> progNames[j] in o.progs
    ensures var n, effects := |mapNames| + i, InOrder(mapNames, progNames, o, rest);
            && (progNames[i] !in o.progs ==> |effects| == n)
            && (progNames[i] in o.progs ==> |effects| > n && effects[n] == PinProgram(progNames[i]))
  {
    var maps, progs := Reachable(mapNames, o.maps), Reachable(progNames, o.progs);
    assert maps == mapNames;
    if progNames[i] in o.progs {
      ReachableReaches(progNames, o.progs, i);
      AtOffset(MapPins(maps), ProgramPins(progs), rest, i);
    } else {
      ReachableStops(progNames, o.progs, i);
    }
  }

  lemma AtOffset(a: seq<Effect>, b: seq<Effect>, c: seq<Effect>, i: nat)
    requires i < |b|
    ensures (a + b)[|a| + i] == b[i] && (a + b + c)[|a| + i] == b[i]
  {
  }

  lemma LinkEffect(o: Object, id: BuildId, i: nat)
    requires HasAll(o) && i < Links(o)
    ensures var n := |PINNED_MAPS| + |LSM_PROGRAMS| + i;
            |Effects(o, id)| > n && Effects(o, id)[n] == PinLink(i)
  {
    hide InOrder;
    var rest := LinkPins(Links(o)) + IdWrites(id, BUILD_ID_DIGITS);
    AllOrPart(PINNED_MAPS, LSM_PROGRAMS, o, rest);
    assert Effects(o, id)[|PINNED_MAPS| + |LSM_PROGRAMS|..][i] == rest[i];
  }
}
