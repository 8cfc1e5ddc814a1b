# BpfJailer: a verified model of its policy compiler, kernel walk and caches

BpfJailer turns a role's rules into rows of kernel maps and decides file opens,
execs and connections from those rows inside LSM hooks. This project models that
chain and proves what it is for: what the hooks answer is what the role says.

| file | what it holds |
|---|---|
| `Patterns.dfy`, `Rules.dfy`, `RuleLaws.dfy` | splitting a pattern into components; the meaning of a rule list as derivatives over the list itself; longest prefix, and independence of order |
| `Table.dfy`, `Trie.dfy`, `RoleEncoder.dfy`, `TableSize.dfy` | the transition rows, the arena trie, the role encoder and its refusals, and how many rows it emits |
| `SinglePattern.dfy`, `OneRule.dfy` | the older one-pattern encoder, and where it agrees with the role encoder; lists of a single rule |
| `Walk.dfy`, `Collect.dfy`, `Paths.dfy` | the kernel's walk over the rows, the bounded climb over dentries and mounts that feeds it, and the same paths from the top |
| `Reads.dfy`, `Cache.dfy` | the climb and the walk one read of shared memory at a time; the decision cache and its 32-bit generation counter, every step of a hook call interleaving with everything else |
| `Straddle.dfy`, `Redefine.dfy`, `LateChange.dfy` | calls that a change falls into; rows written with no bump while the cache is live; path changes that come after their bump |
| `Policy.dfy`, `Writes.dfy`, `Apply.dfy`, `RoleLaws.dfy`, `EndToEnd.dfy` | roles, ordered writes to keyed maps, role application, isolation/order/repetition of roles, and the policy-to-answer theorem |
| `Bits.dfy`, `Network.dfy`, `Connections.dfy` | CIDR, port and domain lookups; the connect and bind hooks whole |
| `Enrollment.dfy`, `Hooks.dfy` | how tasks get a role, over whole runs; the hooks as methods of one kernel object |
| `Monitor.dfy` | the capstone: boot from a policy, serve any sequence of hook calls, and answer each as the policy says |
| `Bootstrap.dfy` | pinning with crashes, and what "already current" means |
| `Hash.dfy`, `LongPaths.dfy` | the FNV-1a digest on both sides; what its 64-byte cap does to the table |

`dafny verify dfyconfig.toml` checks everything.

## Premises

- Hashes. The table theorems hold for any pair of digests, one of components and
  one of prefixes, that do not collide on the names in play nor on the prefixes some
  rule goes on from, with no component at 0 and only the root's state at 0
  (`Walk.CollisionFree`). For the program's own digests `LongPaths.StatesApartIff`
  splits the part about prefixes into a check on the patterns' texts and an accident of
  the digest; `LongPaths.ShortListsRestOnTheDigest` leaves only the accident when no
  pattern's last directory has a text over 64 bytes. For one pattern
  `LongPaths.OneRuleIsRightIffShallow` says exactly when the table goes wrong: when
  the texts of two of its directories reach 64 bytes.
- Paths. Parent and mount links have no cycle (`Collect.Forest`) and every dentry
  climbed out of has a name (`Collect.AllNamed`). Addresses are numbers, 0 is NULL,
  and a read through an unknown address yields 0.
- Cache. One read is one step: a field of a dentry or mount (a name counting as one
  field), a table row, a cache entry, the counter. Steps of different calls, evictions,
  changes and rows written with no bump fall between them in any way. In `Cache` a
  change of the world comes with its bump; `Redefine` adds rows written without one and
  `LateChange` a tree that changes after its bump. The daemon's read-then-write of the
  counter is one step, and between two bumps a (dentry, mount, inode) triple names one
  file.
- Policy. The roles of a policy have distinct ids.
- Tasks. A forked task is new, and every task is in some cgroup.
- Bootstrap. Runs do not overlap, nobody else edits the pins, and a reboot clears
  pins and build id together.

## Where the code and its comments differ

The model follows the code.

- `bpfjailer-common/src/hash.rs:38-39` says two names sharing a 64-byte prefix
  collide when they are of equal length. The byte count that is folded in is capped
  too, so their lengths do not matter (`Hash.LongNamesCollide`).
- `bpfjailer-daemon/src/process_tracker.rs:147-148` reads `/tmp/*` as one component
  under `/tmp`. A `*` leaf covers everything beneath, and the end-of-path lookup
  reads the same slot, so it also decides `/tmp` itself (`Rules.Meaning`).
- `bpfjailer-bpf/src/main.bpf.c:1196-1198` says the cgroup root is not consulted. It
  is when it is the task's own cgroup, which is looked up first; the loader's
  refusal to enroll it is what keeps that harmless (`Enrollment.Consulted`).
- `bpfjailer-common/src/codec.rs:945-996`, the test mirror of the walk, lacks the
  guard for an empty path that the kernel code has.
- `bpfjailer-daemon/src/enrollment.rs:200-223` writes a role's rows without bumping the
  generation. `Redefine.DefinitionIsSafeIffQuiet` gives the exact condition under which
  defining a role, once or several times in a row, is harmless for every accepted list
  and every continuation: no current entry is the role's, and no call of the role is
  past its first lookup under the current generation, unless it is done and silent.
  Against a walk that would answer one definition is enough; against one that would
  not it takes two. The rows may be written one by one, between the reads of other
  calls, if the condition holds at each (`Redefine.QuietRunsStayTruthful`).
- `bpfjailer-bpf/src/main.bpf.c:1284-1333` invalidates on a rename or a mount from the
  hook, which runs before the change itself. `LateChange.IdleChangeIsSafe` and
  `LateChange.LateChangeIsSafeIffIdle` say when the gap is harmless.
- `bpfjailer-bpf/src/main.bpf.c:684-784` does not say what a call answers when rules or
  paths change under it. It may answer what neither the old nor the new rules would
  (`Straddle.MomentaryIffUndisturbed`); such an answer is never served to a later call
  as current (`Cache.CacheIsTransparent`).
- `bpfjailer-daemon/src/main.rs:86-98` says it invalidates since rules may have changed,
  but it bumps first and writes the roles afterwards, and nothing bumps after a write.
  The two steps are kept apart here (`Hooks.Kernel.InvalidateCache`,
  `Hooks.Kernel.DefineRole`): the second needs that no entry of the role became current
  in between.

## Model

| member | source | states |
|---|---|---|
| `Patterns.ComponentsAreUsable` | bpfjailer-common/src/codec.rs:55-60 | every component of any pattern is non-empty, has no slash and is not `**` |
| `Patterns.ComponentsOfJoin` | bpfjailer-common/src/codec.rs:55-60 | a slash separates: the two sides are read independently |
| `Patterns.DroppedAnywhere` | bpfjailer-common/src/codec.rs:51-60 | `**` and empty segments vanish wherever they stand |
| `Patterns.RootedRoundTrip` | bpfjailer-common/src/codec.rs:55-60 | every list of names without a slash, none of them empty or `**`, is the reading of its own pattern |
| `Patterns.PlainSegment` | bpfjailer-common/src/codec.rs:55-60 | a segment is read as itself unless it is empty or `**`, and then as nothing |
| `RuleLaws.LongestPrefix` | bpfjailer-common/src/codec.rs:139-161 | without `*`, the verdict is that of the deepest rule naming a prefix of the path, last listed among equals; no rule exactly when none does |
| `RuleLaws.OrderDoesNotMatter` | bpfjailer-common/src/codec.rs:139-161 | a list that does not contradict itself means the same, and is refused or not, in any order |
| `OneRule.OneRuleMeans` | bpfjailer-common/src/codec.rs:139-161 | one rule alone, stars included, decides exactly the paths whose beginning its components fit, and the directory of a final `*` |
| `Trie.Descend` | bpfjailer-common/src/codec.rs:186-203 | descending for a pattern adds exactly its missing prefixes, undecided, keeps the arena a tree of prefixes, and ends at the pattern's own node |
| `Trie.BuildTrie` | bpfjailer-common/src/codec.rs:171-208 | the arena is the trie of the list: a node per live prefix, child edges exact, each decision that of the last rule ending there, each node credited to listed patterns |
| `RoleEncoder.Expand` | bpfjailer-common/src/codec.rs:221-264 | a node emits one entry for each slot the rule list wants at its prefix, stacks each child once under the decision in force, and reports a conflict exactly when its wildcard slot is wanted twice |
| `RoleEncoder.EmitInherited` | bpfjailer-common/src/codec.rs:224-243 | the inherited decision is emitted exactly when the slot is free, else a genuine conflict is named |
| `RoleEncoder.FrontierStep` | bpfjailer-common/src/codec.rs:213-265 | the depth-first loop never stacks a node twice and never leaves a child of a visited node behind |
| `RoleEncoder.EncodeRole` | bpfjailer-common/src/codec.rs:167-274 | refused exactly when two rules overlap at a `*`; every conflict named is genuine and every conflicting node is reported; otherwise the entries are the table of the list, one per wanted slot; the loop ends |
| `RoleEncoder.RefusalOnPatterns` | bpfjailer-common/src/codec.rs:162-166 | the refusal condition read off the patterns as listed, those without components never taking part |
| `RoleEncoder.ClashIffConflict` | bpfjailer-common/src/codec.rs:162-166 | exact refusal: some node wants its wildcard slot twice if and only if some rule is a proper prefix of another that has a `*` still to come |
| `RoleEncoder.ConflictIsGenuine` | bpfjailer-common/src/codec.rs:229-235 | both patterns a refusal names are listed and really overlap |
| `RoleEncoder.LeafIsDecided` | bpfjailer-common/src/codec.rs:254-261 | a node below the root without children has a decision, so the fallback for a missing one is never taken |
| `RoleEncoder.RowsAreRegular` | bpfjailer-common/src/codec.rs:276-283 | terminal rows lead to the accepting or rejecting sentinel as they decide, others decide nothing, and wildcard rows are keyed on 0 |
| `TableSize.EntryCount` | bpfjailer-common/src/codec.rs:210-265 | an accepted list takes one row per node below the root plus one per node with children and a decision at or above it |
| `SinglePattern.PathStateEntries` | bpfjailer-common/src/codec.rs:66-113 | a row per component chained by state, and the extra row of a trailing slash keyed on the sentinel |
| `SinglePattern.EncodeOneByOne` | bpfjailer-common/src/codec.rs:141-147 | encoding in turn yields exactly the patterns' own rows |
| `SinglePattern.EncodersAgree` | bpfjailer-common/src/codec.rs:66-113 | where no pattern is a prefix of another the role encoder accepts and both tables give every path the same verdict; the extra rows are unreachable |
| `Walk.CheckPathStateMachine` | bpfjailer-bpf/src/main.bpf.c:532-633 | the loop computes the walk: exact slot, then wildcard, terminal wins, end-of-path slot; nothing for an empty or truncated buffer |
| `Walk.NoOverwriting` | bpfjailer-common/src/codec.rs:139-161 | the keys of an accepted role are pairwise distinct |
| `Walk.AnyWriteOrder` | bpfjailer-daemon/src/bpf_loader.rs:373-387 | with distinct keys every order of writing builds the same map |
| `Walk.WrittenIsInstalled` | bpfjailer-daemon/src/bpf_loader.rs:373-387 | writing the entries where the role had none leaves exactly them |
| `Walk.LookupSlot` | bpfjailer-bpf/src/main.bpf.c:601-610 | looking a slot up by its digests finds exactly what the rule list wants there |
| `Walk.WalkMeansRules` | bpfjailer-bpf/src/main.bpf.c:567-632 | below any live prefix the walk answers what the rules left after that prefix mean |
| `Walk.CompiledWalk` | bpfjailer-common/src/codec.rs:167-274 | compiler correctness: for every accepted list and every path, walking the emitted table gives the derivative meaning of the list |
| `Collect.CollectPathComponents` | bpfjailer-bpf/src/main.bpf.c:449-526 | the loop fills the buffer with the bounded climb's component hashes, leaf first, and sets truncated exactly when the climb was not whole |
| `Collect.CollectionRefinesVisiblePath` | bpfjailer-bpf/src/main.bpf.c:426-526 | the climb is whole exactly when the unbounded visible path reaches the task's root within 16 names and 31 moves, and is then that path |
| `Collect.NoVerdictOnSuffix` | bpfjailer-bpf/src/main.bpf.c:535-543 | a verdict is only ever reached on the whole path from its root |
| `Paths.DescentIsVisible` | bpfjailer-bpf/src/main.bpf.c:426-526 | whatever way down, entry by entry and mount by mount, leads from the end of the task's view to a place, the climb from it spells that path |
| `Paths.VisibleIsDescent` | bpfjailer-bpf/src/main.bpf.c:426-526 | and a path seen to its end is one that can be gone down |
| `Collect.JudgeMeansRules` | bpfjailer-bpf/src/main.bpf.c:748-753 | the uncached verdict for a place is the meaning of the rules on the path the task sees there |
| `Reads.RestAdvance` | bpfjailer-bpf/src/main.bpf.c:476-633 | one more read, in a world that stays as it is, changes nothing about the verdict a call is heading for |
| `Reads.OnCourseAdvance` | bpfjailer-bpf/src/main.bpf.c:476-633 | a call whose reads so far are those of the world as it is stays so with each further read, through every phase of climb and walk |
| `Reads.Finishes` | bpfjailer-bpf/src/main.bpf.c:476-633 | left alone, a call in any phase comes to the verdict it was heading for |
| `Cache.StepKeepsSound` | bpfjailer-bpf/src/main.bpf.c:711-774 | every single read or write of every call, eviction or change keeps current entries truthful and calls that no change has overtaken on course |
| `Cache.CacheIsTransparent` | bpfjailer-bpf/src/main.bpf.c:684-784 | over every interleaving of single reads with fewer than 2^32 bumps, a finished call that no change fell into answered as the uncached walk would have, and every current entry is what the walk would answer now |
| `Cache.WrapServesStaleAnswer` | bpfjailer-daemon/src/bpf_loader.rs:400-409 | after any number of bumps, a call and then exactly 2^32 more bumps, the old answer is served as current |
| `Cache.CounterPeriod` | bpfjailer-bpf/src/main.bpf.c:1299-1302 | from any value the counter is back after 2^32 bumps and not before |
| `Cache.TransparentIffNoWrap` | bpfjailer-daemon/src/bpf_loader.rs:400-409 | the bound is exact: given two worlds that disagree on some key, all runs with n bumps are transparent if and only if n is below 2^32 |
| `Straddle.StraddlingCall` | bpfjailer-bpf/src/main.bpf.c:601-626 | with one change or more between two lookups, a call answers what the walk would have answered at no moment of the call |
| `Straddle.StraddledHit` | bpfjailer-bpf/src/main.bpf.c:732-744 | so may a call served from the cache that began before the change: a hit, too, is sure to be right only if no change fell into the call |
| `Straddle.DefinedInTurn` | bpfjailer-daemon/src/enrollment.rs:200-223 | the rows before and after that change are what three accepted definitions write |
| `Straddle.MomentaryIffUndisturbed` | bpfjailer-bpf/src/main.bpf.c:684-784 | a call is sure to answer as the uncached walk would have at some moment of it if and only if no change falls into it |
| `Redefine.ReachableIsKept` | bpfjailer-bpf/src/main.bpf.c:684-784 | every state a run with fewer than 2^32 bumps reaches meets the hypothesis of the results below |
| `Redefine.QuietWriteKeeps` | bpfjailer-daemon/src/bpf_loader.rs:373-387 | any rows of a quiet role, one or many, may be written with no bump: current entries stay truthful and calls in flight on course |
| `Redefine.DefinitionIsSafeIffQuiet` | bpfjailer-daemon/src/enrollment.rs:200-223 | defining a role with no bump, once or several times in a row, leaves every current entry right for all accepted lists and in every continuation if and only if no current entry is of that role and no call of that role is past its first lookup with a verdict still possible |
| `Redefine.CurrentEntryIsSpoiled` | bpfjailer-daemon/src/enrollment.rs:200-223 | for any current entry, the one-pattern definition naming the topmost directory with the other decision makes it wrong at once |
| `Redefine.AnsweredCallSpoils` | bpfjailer-bpf/src/main.bpf.c:754-768 | for any call that has its verdict and has yet to store it, such a definition makes the entry it stores wrong |
| `Redefine.WalkInProgressSpoils` | bpfjailer-bpf/src/main.bpf.c:601-626 | for any walk past its first lookup that is going to answer, one definition makes what it stores wrong |
| `Redefine.AnyWalkSpoils` | bpfjailer-bpf/src/main.bpf.c:601-626 | for any walk past its first lookup, even one that would answer nothing, two definitions in a row do |
| `LateChange.IdleChangeIsSafe` | bpfjailer-bpf/src/main.bpf.c:1284-1333 | a change that takes place after its bump is safe, whatever the new tree and the continuation, if nothing is current and every call at work under the new generation has read nothing yet or is bound to no verdict |
| `LateChange.OvertakenCallSpoils` | bpfjailer-bpf/src/main.bpf.c:476-517 | a call that is past the dentry a rename moves, mid-climb or later, and will answer, stores the verdict of the path as it was |
| `LateChange.LateChangeIsSafeIffIdle` | bpfjailer-bpf/src/main.bpf.c:1284-1333 | over all single renames, new directories included, that condition is exact, provided no call is between its first read of the tree and its first lookup except ones that will answer and are past the renamed dentry |
| `LateChange.DeepenedIsForest` | bpfjailer-bpf/src/main.bpf.c:426-526 | the rename the failing cases use, beneath a chain of new directories too deep for the climb, leaves a tree without cycles |
| `Redefine.QuietRunsStayTruthful` | bpfjailer-daemon/src/enrollment.rs:200-223 | over every run in which rows of a role, one or many, are written only while it is quiet, every current entry is what the walk would answer |
| `Policy.PolicyFlagsToU8` | bpfjailer-common/src/flags.rs:24-51 | each flag lands on its own bit and on no other |
| `Policy.ExpandNetworkRule` | bpfjailer-common/src/codec.rs:702-722 | a rule is usable if its protocol is known and its range not upside down, and stands for the range if both ends are given, else for its port, else for 0 |
| `Policy.ProtocolRead` | bpfjailer-common/src/codec.rs:686-692 | `tcp` is 6 and `udp` 17, in capitals or not, and nothing else is a protocol |
| `Policy.ExecPaths` | bpfjailer-common/src/apply.rs:142-146 | execution rules become path rules one for one, each with its own decision |
| `Policy.PortRange` | bpfjailer-common/src/codec.rs:709-715 | the expansion is exactly the inclusive range |
| `Policy.UnenforcedSettings` | bpfjailer-common/src/policy.rs:387-428 | nothing is reported exactly when every setting is enforced and neither rule list overlaps; each setting is reported exactly when it is asked for, overlaps with genuine conflicts |
| `Apply.PolicyMaps.WriteStates` | bpfjailer-daemon/src/bpf_loader.rs:373-387 | the rows are written in order and nothing else is |
| `Apply.PolicyMaps.AddNetworkRules` | bpfjailer-common/src/apply.rs:157-167 | each port of each usable rule is written for both directions; exactly the unusable rules are skipped |
| `Apply.PolicyMaps.AddIpRules` | bpfjailer-common/src/apply.rs:169-179 | masked networks are written in order, stopping exactly at one that does not parse |
| `Apply.PolicyMaps.AddDomainRules` | bpfjailer-common/src/apply.rs:181-198 | each rule's decision, then its name's hash for every address it resolves to |
| `Apply.EncodeList` | bpfjailer-common/src/apply.rs:132-136 | a refused list writes no rows and its conflicts are reported |
| `Apply.ApplyRole` | bpfjailer-common/src/apply.rs:113-205 | makes exactly the role's writes, in order, and tells exactly what it passed over; fails exactly when an address does not parse, having made a prefix of the writes |
| `Apply.NetSkipsRead` | bpfjailer-common/src/apply.rs:157-167 | every unusable network rule is told of, in order, and no other |
| `Apply.IpSkipsRead` | bpfjailer-common/src/apply.rs:169-179 | likewise every address rule of an unknown direction |
| `Apply.DomainSkipsRead` | bpfjailer-common/src/apply.rs:181-198 | and every domain that resolves to nothing |
| `RoleLaws.RoleIsolation` | bpfjailer-common/src/apply.rs:113-205 | applying a role, to the end or only in part, leaves every key of every other id as it was |
| `RoleLaws.PopulateRoles` | bpfjailer-bootstrap/src/main.rs:443-457 | the loop succeeds exactly when every role parses and has then applied them all in order; else it stopped at the first that does not, with a prefix of its writes made |
| `RoleLaws.RolesInAnyOrder` | bpfjailer-bootstrap/src/main.rs:450-457 | whatever order the map of roles yields them in, and however their lists were encoded, a loop that succeeds leaves the same maps |
| `RoleLaws.ReapplyIsIdle` | bpfjailer-common/src/apply.rs:113-205 | applying a role again changes nothing |
| `RoleLaws.EnrollmentRouteIsIdle` | bpfjailer-daemon/src/process_tracker.rs:76-176 | re-applying flags, ports and path rows at enrollment changes nothing |
| `EndToEnd.AppliedRowsInstalled` | bpfjailer-common/src/apply.rs:123-155 | after application each of the two transition maps holds exactly its own list's table for the id |
| `EndToEnd.PolicyIsEnforced` | bpfjailer-common/src/apply.rs:113-155 | an open is granted exactly when `file_paths` allows the visible path or is silent and the flag is set; likewise an enrolled task's exec by `execution_rules`, neither list touching the other |
| `EndToEnd.InForceIsEnforced` | bpfjailer-common/src/apply.rs:113-155 | the same wherever the keys of the id hold what application left, whatever else the maps hold |
| `EndToEnd.FilesByDeepestRule` | bpfjailer-common/src/apply.rs:123-136 | for lists without `*`, read as listed: a file is permitted as the deepest rule that begins its visible path says, last listed among equals, and by the flag if there is none |
| `EndToEnd.ExecsByDeepestRule` | bpfjailer-common/src/apply.rs:138-155 | the same for execs, over `execution_rules` as the role lists them |
| `EndToEnd.PopulatedIsInForce` | bpfjailer-bootstrap/src/main.rs:443-457 | after the loop over the roles each of them is in force and no other id has flags |
| `EndToEnd.NoPlaceByFlag` | bpfjailer-bpf/src/main.bpf.c:711-783 | where there is no dentry or no mount to judge, the flag alone answers |
| `Network.NetworkMask` | bpfjailer-bpf/src/main.bpf.c:842-852 | the bit loop and byte swap give the network-order mask of the length |
| `Network.MaskedAddress` | bpfjailer-common/src/codec.rs:344-365 | masking as the kernel holds an address selects the octets the encoder stores |
| `Network.SwapReverses` | bpfjailer-common/src/codec.rs:344-365 | the kernel's view of an address has the four octets in the other order |
| `Network.MaskMeans` | bpfjailer-common/src/codec.rs:344-365 | two addresses have the same masked form exactly when they begin with the same bits, as many as the length says |
| `Network.Probe` | bpfjailer-bpf/src/main.bpf.c:842-860 | one probe looks up the masked network of the address at that length |
| `Network.CheckIpAccess` | bpfjailer-bpf/src/main.bpf.c:820-864 | the probes run longest first and the first hit decides |
| `Network.CidrLongestMatch` | bpfjailer-bpf/src/main.bpf.c:818-864 | the verdict is that of the last listed rule containing the address at the longest of 32, 24, 16, 12, 8, 0 at which any does; other lengths are never consulted |
| `Network.CidrIsLongestIffProbed` | bpfjailer-bpf/src/main.bpf.c:818-864 | the rule with the longest network of any length that contains the address is the one that decides if and only if its length is among those probed |
| `Network.CheckPortRules` | bpfjailer-bpf/src/main.bpf.c:982-1004 | the port's own slot, else the slot for every port, else nothing |
| `Network.PortRulesMean` | bpfjailer-common/src/apply.rs:157-167 | the verdict is that of the last usable rule, as its own fields read, of the protocol and port, else of the last naming port 0, alike for bind and connect |
| `Network.CheckDomainAccess` | bpfjailer-bpf/src/main.bpf.c:895-918 | an address is resolved to a name's hash and that to a decision |
| `Network.DomainRulesMean` | bpfjailer-common/src/apply.rs:181-198 | through two maps that later rules overwrite, the verdict is that of the last rule whose name resolves to the address |
| `Connections.CheckProxyRequirement` | bpfjailer-bpf/src/main.bpf.c:920-940 | where the proxy is required only it and this host's own addresses pass |
| `Connections.SocketConnect` | bpfjailer-bpf/src/main.bpf.c:1047-1142 | the hook asks the proxy, names, addresses and ports in that order and falls back on the flag |
| `Connections.SocketBind` | bpfjailer-bpf/src/main.bpf.c:1007-1045 | bind asks the ports and then the flag |
| `Connections.NetworkIsEnforced` | bpfjailer-bpf/src/main.bpf.c:1007-1142 | end to end: a connection is granted exactly when the role permits it by proxy, then name, then address, then port, then flag, and a bind exactly when its port rules or else its flag do |
| `Enrollment.SearchCgroups` | bpfjailer-bpf/src/main.bpf.c:1199-1210 | the loop finds the task's own cgroup, else the deepest of levels 8 to 1 |
| `Enrollment.CgroupSearchFindsNearest` | bpfjailer-bpf/src/main.bpf.c:1184-1221 | the record taken is that of the nearest enrolled level consulted; at levels 1 to 9 every level below the root is consulted |
| `Enrollment.StepKeepsEnrolled` | bpfjailer-bpf/src/main.bpf.c:636-682 | no step un-enrolls, and only a pending migration of its process changes an enrolled record |
| `Enrollment.EnrolledForever` | bpfjailer-bpf/src/main.bpf.c:636-682 | over every run an enrolled task stays enrolled, with its record or one a migration gave it |
| `Enrollment.ForkInherits` | bpfjailer-bpf/src/main.bpf.c:655-682 | in every run a task forked by an enrolled task, storage being available, is enrolled ever after, with the record its parent had at the fork or one a migration of its own gave it |
| `Enrollment.DescendantsAreEnrolled` | bpfjailer-bpf/src/main.bpf.c:655-682 | no escape by forking: every descendant of an enrolled task, through any number of forks, is enrolled at every later state |
| `Enrollment.EveryEnrollmentIsWritten` | bpfjailer-bpf/src/main.bpf.c:1151-1226 | every enrolled task of every run was itself given its record: staged for the process it ran as, named for the binary it executed or for a cgroup it was in at that exec, or inherited from a parent so entitled |
| `Enrollment.MapsFollowHistory` | bpfjailer-daemon/src/bpf_loader.rs:278-491 | what waits for a process, and what a binary or a cgroup is named for, is what the steps so far say: the last word, until taken or removed |
| `Enrollment.StagedIsEnrolled` | bpfjailer-bpf/src/main.bpf.c:636-653 | staging enrolls: the task that makes the next step of a staged process, with storage there or to be had, is enrolled ever after with what was staged or a later migration of its own; the record is taken |
| `Enrollment.NamedIsEnrolled` | bpfjailer-bpf/src/main.bpf.c:1151-1221 | naming enrolls: a task with no role that executes a named binary, or else is in or below a named cgroup, is enrolled ever after with that record or a migration of its own |
| `Hooks.Kernel.CheckPendingEnrollment` | bpfjailer-bpf/src/main.bpf.c:636-653 | migrates and deletes the pending record, and leaves everything else |
| `Hooks.Kernel.Enroll` | bpfjailer-daemon/src/bpf_loader.rs:418-491 | the daemon stages a process, or adds or removes a binary or a cgroup, and changes nothing else |
| `Hooks.Kernel.TaskAlloc` | bpfjailer-bpf/src/main.bpf.c:655-682 | the new task gets the enrolled parent's record, else a blank one |
| `Hooks.Kernel.FileOpen` | bpfjailer-bpf/src/main.bpf.c:684-784 | with the cache in front, an enrolled task gets the uncached answer, others are let through; a verdict reached is recorded under the current stamp and nothing else changes; the cache stays truthful |
| `Hooks.Kernel.EnrollAtExec` | bpfjailer-bpf/src/main.bpf.c:1151-1221 | migration, then enrollment by binary, then by cgroup, of a task with no role |
| `Hooks.Kernel.BprmCheck` | bpfjailer-bpf/src/main.bpf.c:1144-1282 | only a task enrolled before the exec is judged by its role's execution rules; an exec that enrolls passes |
| `Hooks.Kernel.SocketConnect` | bpfjailer-bpf/src/main.bpf.c:1047-1142 | an enrolled task gets its role's answer, others are let through, and no pending enrollment is looked for |
| `Hooks.Kernel.SocketBind` | bpfjailer-bpf/src/main.bpf.c:1007-1045 | likewise for bind |
| `Hooks.Kernel.PathRename` | bpfjailer-bpf/src/main.bpf.c:1286-1305 | bumps, wrapping at 2^32, unless the dentry is negative; short of the wrap nothing is current any more and the cache stays truthful |
| `Hooks.Kernel.MountChange` | bpfjailer-bpf/src/main.bpf.c:1308-1333 | mount and umount bump likewise |
| `Hooks.Kernel.InvalidateCache` | bpfjailer-daemon/src/bpf_loader.rs:389-416 | the counter advances, wrapping at 2^32; short of the wrap nothing is current any more and the cache stays truthful |
| `Hooks.Kernel.ChangeTree` | bpfjailer-bpf/src/main.bpf.c:1284-1333 | the announced change, coming after the hook, keeps the cache truthful where nothing is current |
| `Hooks.Kernel.DefineRole` | bpfjailer-daemon/src/enrollment.rs:200-223 | where no current entry is the role's, applying it with no bump keeps the cache truthful, leaves the maps with its writes or a prefix of them, puts it in force on an empty id and leaves every other id alone |
| `Monitor.ServeOne` | bpfjailer-bpf/src/main.bpf.c:684-784 | each hook, over maps, table and cache, moves the state as a monitor knowing only policy, tasks and paths would, and answers as it would |
| `Monitor.Serve` | bpfjailer-bpf/src/main.bpf.c:684-784 | over every sequence of opens, execs, connects, binds, forks, enrollments, renames, mounts, invalidations and evictions every answer is the monitor's at that moment |
| `Monitor.BootAndServe` | bpfjailer-bootstrap/src/main.rs:443-457 | end to end: from empty maps the roles load exactly when all parse, and every later open, exec, connection or bind by an enrolled task is granted exactly when its role's rules and flags permit it; an unknown role is refused, a task not enrolled let through |
| `Bootstrap.Compare` | bpfjailer-bootstrap/src/main.rs:177-233 | absent exactly when nothing is pinned or recorded, current exactly when the pins and the id are this build's, stale otherwise, with every missing and every extra name listed |
| `Bootstrap.PinAll` | bpfjailer-bootstrap/src/main.rs:532-603 | makes the pins in order, maps, programs, links, id last, up to where it is cut off or the object lacks a name; succeeds exactly when it made them all |
| `Bootstrap.RunBootstrap` | bpfjailer-bootstrap/src/main.rs:62-116 | pins only on a bare system and otherwise changes nothing |
| `Bootstrap.AlwaysOneAuthor` | bpfjailer-bootstrap/src/main.rs:62-116 | over every history what is pinned is nothing or the beginning of one run since the last reboot |
| `Bootstrap.CurrentMeansOneCompleteRun` | bpfjailer-bootstrap/src/main.rs:65-116 | "already current" is reported only if one run since the last reboot pinned every map, every program and a link for each, and recorded this id in full |
| `Bootstrap.CompleteRunIsCurrent` | bpfjailer-bootstrap/src/main.rs:62-116 | conversely a run on a bare system that lives to its end, of an object with all twelve programs and eleven maps, is reported current |
| `Bootstrap.AlwaysInSequence` | bpfjailer-bootstrap/src/main.rs:532-603 | over every history no program is pinned before every map, no link before every program, no id before every link |
| `Hash.Fnv1aHashU64` | bpfjailer-common/src/hash.rs:40-50 | computes the digest of the first 64 bytes with their count folded in |
| `Hash.HashComponent` | bpfjailer-bpf/src/main.bpf.c:370-393 | the kernel's hash is the userspace digest of the bytes before the first NUL, so the two agree on every name without one |
| `Hash.DigestOfNothing` | bpfjailer-common/src/hash.rs:121-124 | the digest of the empty name is the value the program's tests expect |
| `Hash.DigestOfEtc` | bpfjailer-common/src/hash.rs:121-124 | likewise of `etc` |
| `Hash.DigestOfSsh` | bpfjailer-common/src/hash.rs:121-124 | likewise of `.ssh` |
| `Hash.KnownStateText` | bpfjailer-common/src/codec.rs:115-125 | the state of `/etc/ssh` in role 12 is the digest of `12:etc/ssh` |
| `Hash.Fnv1aDigest` | bpfjailer-common/src/hash.rs:65-72 | computes the uncapped fold over the whole object |
| `Hash.OneByteNeverCollides` | bpfjailer-common/src/hash.rs:15-50 | names of equal length differing in one byte among the first 64 never collide |
| `Hash.BuildIdSeesEveryByte` | bpfjailer-common/src/hash.rs:52-72 | objects of equal length differing in one byte have different build ids |
| `Hash.LongNamesCollide` | bpfjailer-common/src/hash.rs:38-50 | names of at least 64 bytes sharing the first 64 collide whatever their lengths |
| `Hash.DeepPrefixesShareAState` | bpfjailer-common/src/codec.rs:115-125 | once a prefix's state text fills 64 bytes it shares its state with every prefix below it that a rule goes on from |
| `LongPaths.StateTextInjective` | bpfjailer-common/src/codec.rs:115-125 | two prefixes of a role with the same text are the same prefix |
| `LongPaths.StatesApartIff` | bpfjailer-common/src/codec.rs:115-125 | the table's states are distinct if and only if what is hashed of the texts is, and the digest neither collides on it nor hits 0 |
| `LongPaths.ShortListsRestOnTheDigest` | bpfjailer-common/src/hash.rs:38-50 | when no pattern's last directory has a text over 64 bytes, every text is hashed in full and only a digest collision can fail the premise |
| `LongPaths.MergedIsWrong` | bpfjailer-common/src/codec.rs:210-265 | a rule with two prefixes at one state gets some path wrong, whatever order its rows were written in: an unrelated shorter path is decided, or its own is not |
| `LongPaths.OneRuleIsRightIffShallow` | bpfjailer-common/src/codec.rs:115-125 | for one pattern and the program's own digests, every path gets the rule's verdict if and only if at most one of its inner prefixes has a text of 64 bytes or more |

## Left out

- The ptrace, module-load and BPF-load hooks, `socket_sendmsg` and signed binaries: one flag test each, or stubs.
- Role names, rule addresses in port rules and the `require_proxy` policy flag (the proxy section has its own), which reach no map this project reads.
- Byte layouts of map keys and values: keys are datatypes, so two keys are equal exactly when their fields are. Map capacity is not modelled: writes always fit.
- Parsing of addresses and prefix lengths from text: rules start from parsed values, with a missing value where parsing fails.
- Text of log, skip and refusal messages: a refusal carries the two patterns it names, a skip list its reasons, and refusals are a set where the code sorts and removes repeats.
- Order of a node's children: the code walks them in name order, the model in any order, so the order of emitted entries is not fixed.
- Audit events, timestamps, the enrollment socket, JSON, xattr calls and libbpf loading and attaching: input and output around the decisions.
- Clearing a role's old rows when it is redefined, and address rules for bind: the code does neither.
- Walk.CompiledWalk: rests on the collision premise above; what a table with shared states answers is settled for one pattern (`LongPaths.OneRuleIsRightIffShallow`), while in a list of several one rule can hide what another's shared state gets wrong, so no such equivalence is stated there.
- Redefine.DefinitionIsSafeIffQuiet: its witnesses need names and prefixes patterns can spell: a topmost directory not called `*` or `**` (or, for entries and verdicts reached, without an exact row), and a walk that stands at the state of such a prefix.
- LateChange.LateChangeIsSafeIffIdle: leaves open whether a call between its first read of the tree and its first lookup that is heading for no verdict can be harmed by one rename; sufficiency (`LateChange.IdleChangeIsSafe`) covers every change, mounts included.
- Straddle.MomentaryIffUndisturbed: what a call that a change falls into answers is bounded by nothing stronger than the values a walk can give.
- EndToEnd.PolicyIsEnforced: is for an id the maps hold nothing for, since rows of an earlier definition are never removed.
