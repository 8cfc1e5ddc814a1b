/** The transition table: its rows, and what a rule list wants in each of them. */
module Table {
  import opened Base
  import opened Patterns
  import opened Rules

  /** One rule as the policy lists it. */
  datatype RawRule = RawRule(pattern: Name, allow: bool)

  datatype Key = Key(role: nat, state: bv64, hash: bv64)
  datatype Value = Value(next: bv64, terminal: bool, decision: bool, wildcard: bool)
  datatype Entry = Entry(key: Key, value: Value)

  const ACCEPT: bv64 := 0xFFFF_FFFF_FFFF_FFFE
  const REJECT: bv64 := 0xFFFF_FFFF_FFFF_FFFF

  /** The two digests the table is keyed by: of a component, and of a prefix. */
  datatype Hashing = Hashing(comp: Name -> bv64, state: (nat, seq<Name>) -> bv64)

  /** Both sides of an overlap the table cannot hold. */
  datatype Conflict = Conflict(broader: Name, starred: Name)

  datatype Encoded = Accepted(entries: seq<Entry>) | Refused(conflicts: set<Conflict>)

  function Parse(r: RawRule): PathRule
  {
    PathRule(PatternComponents(r.pattern), r.allow)
  }

  function Parsed(raw: seq<RawRule>): (rules: seq<PathRule>)
    ensures |rules| == |raw|
    ensures forall i :: 0 <= i < |raw| ==> rules[i] == Parse(raw[i])
  {
    if raw == [] then [] else Parsed(raw[..|raw| - 1]) + [Parse(raw[|raw| - 1])]
  }

  /** The rules that reach the trie. */
  function Effectual(raw: seq<RawRule>): (rs: seq<PathRule>)
    ensures forall r :: r in rs ==> r.comps != []
  {
    Named(Parsed(raw))
  }

  function StateAfter(h: Hashing, role: nat, p: seq<Name>): bv64
  {
    if p == [] then 0 else h.state(role, p)
  }

  function EdgeHash(h: Hashing, edge: Name): bv64
  {
    if edge == STAR then 0 else h.comp(edge)
  }

  function TerminalState(allow: bool): bv64
  {
    if allow then ACCEPT else REJECT
  }

  // ---- what the table should hold, read off the rule list ----

  /** A place in the table: the wildcard slot is the one whose edge is `*`. */
  datatype Slot = Slot(prefix: seq<Name>, edge: Name)

  datatype Action = Goto(to: seq<Name>) | Final(allow: bool)

  function Expected(rs: seq<PathRule>, s: Slot): Option<Action>
  {
    var below := Deriv(After(rs, s.prefix), s.edge);
    if below != [] then
      Some(if HasLive(below) then Goto(s.prefix + [s.edge]) else Final(Ends(below) == Some(true)))
    else if s.edge == STAR && HasLive(After(rs, s.prefix)) && Deepest(rs, s.prefix).Some? then
      Some(Final(Deepest(rs, s.prefix).value))
    else
      None
  }

  function EntryAt(h: Hashing, role: nat, s: Slot, a: Action): Entry
  {
    Entry(Key(role, StateAfter(h, role, s.prefix), EdgeHash(h, s.edge)),
          match a
          case Goto(to) => Value(StateAfter(h, role, to), false, false, s.edge == STAR)
          case Final(allow) => Value(TerminalState(allow), true, allow, s.edge == STAR))
  }

  /** `entries` is the table of `rs`: one entry for every slot that needs one, and no other. */
  ghost predicate IsTable(h: Hashing, role: nat, rs: seq<PathRule>, entries: seq<Entry>, slots: seq<Slot>)
  {
    && Faithful(h, role, rs, entries, slots)
    && Distinct(slots)
    && forall s: Slot :: s in slots <==> Expected(rs, s).Some?
  }

  ghost predicate Faithful(h: Hashing, role: nat, rs: seq<PathRule>, entries: seq<Entry>, slots: seq<Slot>)
  {
    && |entries| == |slots|
    && forall k :: 0 <= k < |slots| ==>
         Expected(rs, slots[k]).Some? && entries[k] == EntryAt(h, role, slots[k], Expected(rs, slots[k]).value)
  }

  ghost predicate Distinct<T(!new)>(s: seq<T>)
  {
    forall a, b :: 0 <= a < b < |s| ==> s[a] != s[b]
  }

  /** A prefix whose wildcard slot is wanted twice. */
  predicate ConflictAt(rs: seq<PathRule>, p: seq<Name>)
  {
    Deriv(After(rs, p), STAR) != [] && Deepest(rs, p).Some?
  }

  /** The prefixes with a node in the trie: the root and whatever some rule runs through. */
  predicate Alive(rs: seq<PathRule>, p: seq<Name>)
  {
    p == [] || After(rs, p) != []
  }

  /** The prefixes with a state in the table: those some rule goes on from. */
  predicate Inner(rs: seq<PathRule>, p: seq<Name>)
  {
    HasLive(After(rs, p))
  }

  /** The list cannot be encoded when rule `a` decides a prefix of `b` that has a `*` still to come. */
  predicate Overlap(a: seq<Name>, b: seq<Name>)
  {
    a != [] && a < b && exists k :: |a| <= k < |b| && b[k] == STAR
  }
}
