# A verified model of Open vSwitch's classifier, concurrent maps, connection tracker and protocol machines

The project models, in Dafny, five components of the switch's library and proves what they are for.

**Flow classifier** (`lib/classifier.c`, tuple-space search).  A flow is a sequence of bits, a rule a flow, a mask
and a priority, visible in an interval of versions.  The path-compressed prefix trie is modelled twice: as a value
(`Tries.dfy`, `TrieLookup.dfy`) and as nodes on the heap, changed in place while walking (`TrieNodes.dfy`).  On it
rest the staged lookup in one subtable with its trie skips and narrowed ports mask (`ClassifierLookup.dfy`), the
conjunctive matches (`Conjunctions.dfy`, `SoftMatches.dfy`), what a lookup means in terms of the rules
(`LookupMeaning.dfy`), when it finds every satisfied conjunction (`LookupCompleteness.dfy`,
`MissedConjunctions.dfy`), and the write side: lists of equal rules, stage indices, tries, subtable priorities and
their order (`Subtables.dfy`, `SubtableChanges.dfy`, `SubtableVector.dfy`, `ClassifierState.dfy`, `Classifier.dfy`).
Hash functions, the prerequisites of fields and the layout of the ports field are parameters of the configuration.

**Concurrent cuckoo hash maps** (`lib/cmap.c`, `lib/ccmap.c`).  `Cuckoo.dfy` says what a table of buckets stands
for, including the hashes that unused slots keep, and what each change of a slot does to that.  `CuckooSearch.dfy`
is the breadth-first search, `CuckooTable.dfy` the table in memory, `LoadFactor.dfy` the limits in 32- and 64-bit
arithmetic, `ResizableTable.dfy` rehashing, `ConcurrentMaps.dfy` the two maps.  `Seqlock.dfy` is a small-step system
of one writer and the lock-free reader of the node map, which checks counters.  `CountReader.dfy` and
`MissedReads.dfy` are one of a writer and the reader of the counting map, which has none.  Random numbers for
rehashing are supplied from outside; an operation that uses them up says so, where the source would go on trying.

**Connection tracker** (`lib/conntrack.c`).  `ConnKeys.dfy`: keys, the symmetric hash, translation of packets and
the choice of an address.  `NatPorts.dfy`: the order in which ports are tried, in 16-bit arithmetic.
`ConnTracker.dfy`: the table, its index, creation with NAT and clean-up.  `ZoneLimits.dfy`: the counters, as steps
of concurrent threads.

**Protocol machines** (`lib/bfd.c`, `lib/conntrack-tcp.c`).  `Bfd.dfy`: a session of Bidirectional Forwarding
Detection, and two sessions over a network that may lose, repeat, delay and reorder packets.  `TcpTracker.dfy`: the
states, windows and sequence numbers of a tracked connection; `TcpWindows.dfy`: its windows over whole runs.

**Internet checksum** (`lib/csum.c`).  `Checksum.dfy`.

## What turned out not to hold

Each of these is kept in the model as the code has it; the members named give the input and the condition, which is
exact unless it says otherwise.

- A conjunction of 64 clauses, which the action parser admits (`lib/ofp-actions.c:5679-5680`), is taken for satisfied
  after one clause: `Conjunctions.SixtyFourClauses`.  It is the only admitted number of clauses for which that
  happens: `Conjunctions.ReliableBelowSixtyFour`.  Conjunctions of more clauses than there are soft matches of the
  priority are passed over, so a lookup gets there only with at least 64 of those.
- A conjunction all of whose clauses are covered by matching rules of one priority, and that has a rule, need not be
  found.  It is passed over if it has more clauses than there are such rules, as when a rule is in two of its clauses:
  `MissedConjunctions.SkippedTwice` gives a classifier, and `LookupCompleteness.RoundExact` the condition: with clause
  counts that agree and are below 64, and a rule for every covered conjunction, a round finds nothing if and only if
  every covered conjunction has more clauses than there are soft matches of the priority.  For the whole lookup that is
  `LookupCompleteness.LookupComplete`.  And it may be missed if another one that is covered has no rule: the search in a
  rule's memberships stops at the first conjunction that is full, and the memberships after it are never recorded.
  `MissedConjunctions.StoppedShort` gives a classifier for that; that every such conjunction has a rule is sufficient for
  `LookupComplete`, not necessary, because whether one without a rule is in the way depends on the order of memberships.
- A rule of the lowest possible priority is never found: `LookupMeaning.LookupIsLinearSearch`.  The comment at
  `lib/classifier.c:192` tells clients not to use that priority.
- The assertion in rehashing fails when a map of 2^29 buckets is to grow, where the 64-bit product overflows, and only
  there: `LoadFactor.GrowthExact`, `ResizableTables.ResizableTable.Put`.
- The comment in `lib/ccmap.c:424-426` that every node is always visible to a concurrent search holds of each moment,
  but not of the reader, which loads one slot at a time and has no counters.  In every run, a lookup misses an entry
  that is there all the time only if a relocation meanwhile copies it from its second bucket to its first:
  `CountReader.MissMeansMovedBack`.  Around every such copy there is a lookup that misses it, so that one can miss if
  and only if the other can happen: `MissedReads.MissesIffMovedBack`.  From the empty table there is a run, within
  the limits on the number of entries, in which it does: `MissedReads.MissHappens`.
- A connection created with a NAT request that translates nothing (`lib/dpif-netdev.c:9384-9388` makes one) leaves a
  node behind in the index when it is cleaned up: `ConnTracking.ConnTracker.Clean`, `ConnTracking.LeaveNodeBehind`.
  Forward and reply translation are inverse to each other exactly when an address is translated: `ConnKeys.NatInverse`.
- A key need not belong to one unexpired connection only.  A connection that is created without NAT keeps that so if
  and only if its reverse key is free, which is not checked; one with NAT always does: `ConnTracking.StaysUnique`,
  `ConnTracking.ConnTracker.Create`.  After a source-translated connection, one from the translated address shares its
  reply key: `ConnTracking.SharedReplyKey`.
- The port search tries no port at all for the range 0 to 65535, whose size is zero in 16 bits, and its first round is
  empty for 65535 ports and a start at the one outside: `NatPorts.TriesFirst`.
  So a request for a source port out of all 65536 is refused, also while there is no connection:
  `ConnTracking.WholeRangeRefused`; no other is while the tuple that the search starts with is free:
  `ConnTracking.ConnTracker.Create`.
  From outside a range of at most 128 ports it would miss the last: `NatPorts.TriesAll`; the ranges that are chosen
  never lead there: `ConnTracking.SourcePorts`.
- With a window scale of 14, which is also what is assumed if the handshake was not seen, the end of a window offered
  late and that of the one in force can be more than 2^31 apart.  Then what a peer may send comes to end before what
  it has sent, if and only if they are: `TcpWindows.ReachAhead`.  `TcpWindows.WindowLost` gives a run in which the next
  byte in order, within a window offered before, is judged invalid.  With a scale of at most 13 it never is:
  `TcpWindows.OfferedIsAccepted`.
- The number of leading bits that a trie lookup reports is the least that decides which stored prefixes the value has:
  `TrieLookup.LookupMinimal`.  Their lengths alone may be decided by fewer: `TrieLookup.LengthsNeedLess`.
- A session that is not up is to ask for at most one packet a second (section 6.8.3 of RFC 5880, which
  `lib/bfd.c:982-987` quotes).  It asks for more if and only if it is polling with an interval below a second:
  `Bfd.Session.Send`.  Polls start in Init too (`lib/bfd.c:968`), also on a changed configuration
  (`lib/bfd.c:481-483`): `Bfd.PollBeforeUp`.
- An incremental checksum update gives 0 instead of 0xffff when the new bytes are all zero, and only then:
  `Checksum.UpdatedExact`.

## Model

| member | source | states |
|---|---|---|
| Tries.InsertCount | lib/classifier.c:2292-2336 | insertion adds one occurrence of its prefix and changes no other count, through node splits and chunking |
| Tries.RemoveCount | lib/classifier.c:2349-2418 | removal takes one occurrence of a present prefix away and nothing else, through pruning and merging |
| Tries.InsertWf | lib/classifier.c:2292-2336 | insertion keeps the shape: chunks of at most 32 bits, children that start with their edge's bit, a rule in every leaf |
| Tries.RemoveWf | lib/classifier.c:2349-2418 | removal keeps the shape, so no leaf stays without a rule |
| Tries.EmptyIsNull | lib/classifier.c:1663-1676 | a well-formed trie that stores nothing is the null root |
| Tries.RunIsMultiset | lib/classifier.c:2292-2418 | after any run of insertions and removals the trie stores exactly the multiset of prefixes, and it is null if and only if that is empty |
| TrieLookup.LookupExact | lib/classifier.c:2185-2216 | the lengths reported are exactly those of the stored prefixes of the value |
| TrieLookup.LookupDetermined | lib/classifier.c:2185-2216 | every value that agrees on the reported number of leading bits gets the same lengths and the same number |
| TrieLookup.LookupMinimal | lib/classifier.c:2185-2216 | no smaller number of leading bits decides which stored prefixes match: for each there is a value that agrees on so many and differs in whether one does |
| TrieLookup.LengthsNeedLess | lib/classifier.c:2185-2216 | a trie and a value for which a smaller number of bits does decide the lengths |
| TrieNodes.BranchCreate | lib/classifier.c:2044-2070 | the fresh chain of nodes for a prefix of any length is the branch of the model |
| TrieNodes.InsertPrefix | lib/classifier.c:2292-2336 | the nodes on the heap, changed in place, become what insertion on values gives; other memory is untouched |
| TrieNodes.RemovePrefix | lib/classifier.c:2349-2418 | the same for removal with pruning back up the path |
| TrieNodes.LookupValue | lib/classifier.c:2185-2216 | the loop over heap nodes computes the lookup on values |
| TrieNodes.PrefixTrie.Insert | lib/classifier.c:2284-2290 | the trie object holds the multiset of prefixes with the new one added |
| TrieNodes.PrefixTrie.Remove | lib/classifier.c:2338-2346 | the multiset loses the prefix; the root is null if and only if nothing is left |
| TrieNodes.PrefixTrie.Lookup | lib/classifier.c:2185-2216 | the reported lengths are those of the members of the multiset that are prefixes of the value; the reported number of leading bits decides them, and no smaller one decides which members match |
| ClassifierLookup.TrieSkipSound | lib/classifier.c:1781-1805 | a subtable skipped on a trie's answer holds no rule for any flow that agrees on the bits put in the mask |
| ClassifierLookup.CheckTries | lib/classifier.c:1758-1809 | the loop over the tries skips if and only if one of them says to, and soundly; it then adds the leading bits of the first such trie's field that its lookup reported, and else nothing |
| ClassifierLookup.StageMissSound | lib/classifier.c:1892-1901 | a hash missing from a stage index rules the subtable out for all flows that agree on the stages seen |
| ClassifierLookup.PortsMissSound | lib/classifier.c:1915-1950 | the ports mask narrowed by the ports trie still decides the miss |
| ClassifierLookup.FindMatch | lib/classifier.c:1842-1862 | finds the visible rules of the list for the flow's key, best first |
| ClassifierLookup.FindMatchWc | lib/classifier.c:1864-1951 | the staged lookup finds what a plain search of the subtable finds, and so does every flow that agrees on the resulting mask; the mask gains exactly the bits examined: on a trie skip the leading bits of that field, on a stage miss the stages seen, on a miss in the end all but the ports that were not needed |
| ClassifierLookup.ExaminedWithin | lib/classifier.c:1864-1951 | a subtable adds no bit to the mask that is not in its own |
| ClassifierLookup.MainLoop | lib/classifier.c:1140-1192 | the loop with its priority cut-off collects the hard and soft matches of a plain scan; the mask is sound for them and is exactly what the subtables visited examine |
| ClassifierLookup.ScanMaskWithin | lib/classifier.c:1140-1192 | every bit that the loop adds to the mask is in the mask of a subtable visited before the cut-off, and none is lost |
| Conjunctions.FindConjunctiveMatch | lib/classifier.c:1039-1076 | the loop over a rule's memberships with its shortcut computes the specified search |
| Conjunctions.FullIsCovered | lib/classifier.c:1051-1076 | a conjunction is reported only if all clauses, counted modulo 64, are covered by recorded members |
| Conjunctions.NoneFullNoneCovered | lib/classifier.c:1051-1076 | if the recorded members leave none full then no conjunction with consistent clause counts that fits is covered |
| Conjunctions.SixtyFourClauses | lib/classifier.c:1067-1073 | with 64 clauses a single member is reported as a full conjunction |
| Conjunctions.ReliableBelowSixtyFour | lib/classifier.c:1067-1073 | reports can be relied on if and only if the number of clauses is below 64 |
| SoftMatches.BitsTell | lib/classifier.c:1271-1274 | different conjunction ids that fit the field are different values of it |
| SoftMatches.PurgeLoop | lib/classifier.c:1224-1230 | drops soft matches not above the hard match, in place, as specified |
| SoftMatches.HighestPriority | lib/classifier.c:1239-1248 | the highest priority among the soft matches and how many have it |
| SoftMatches.RoundLoop | lib/classifier.c:1257-1290 | the round over the soft matches of one priority, whose mask is sound for the lookups by conjunction id too, and has no bits but theirs |
| SoftMatches.DropLoop | lib/classifier.c:1299-1321 | drops the used matches, which shortens the lists, and finds the best that is left outside conjunctions |
| SoftMatches.Lookup | lib/classifier.c:1104-1328 | the whole lookup terminates, and every flow that agrees with the packet on the returned mask gets the same rule or the same miss, with conjunctive rules as well; the mask is exactly what was examined on the way |
| SoftMatches.LookupMaskWithin | lib/classifier.c:1104-1328 | every bit that a lookup adds to the mask is in the mask of a subtable that it visits, in the main loop or in a lookup by conjunction id |
| SoftMatches.LookupMaskInMasks | lib/classifier.c:1104-1328 | so it is in the mask of a subtable |
| LookupMeaning.LookupIsLinearSearch | lib/classifier.c:1140-1192 | without conjunctive rules the result is a visible matching rule of maximal priority, and a miss if and only if no visible rule above the lowest priority matches |
| LookupMeaning.LookupExplained | lib/classifier.c:1194-1328 | every result is the best match outside conjunctions or the rule, as ByIdMeaning describes it, of a conjunction all of whose clauses are covered by visible rules of one priority that is no lower |
| LookupMeaning.ByIdMeaning | lib/classifier.c:1271-1274 | the rule a conjunction stands for is outside conjunctions, matches with the conjunction's id, and is the best that does, save rules behind one in a conjunction with the same mask |
| LookupMeaning.LookupWithoutConjunction | lib/classifier.c:1194-1328 | if no conjunction is satisfied, the result is the best visible match outside conjunctions |
| LookupCompleteness.RoundExact | lib/classifier.c:1257-1290 | a round over the soft matches of one priority comes to nothing if and only if every covered conjunction among them has more clauses than there are soft matches, given consistent clause counts below 64 and a rule for every covered conjunction that has no more |
| LookupCompleteness.CoveredIsNotSkipped | lib/classifier.c:1055-1057 | if no rule is in two clauses of one conjunction, a covered conjunction has no more clauses than there are soft matches of the priority |
| LookupCompleteness.RoundOneClause | lib/classifier.c:1257-1290 | then a round comes to nothing if and only if no conjunction is covered |
| LookupCompleteness.SatisfiedIsEligible | lib/classifier.c:1055-1057 | the same on the rules: a satisfied conjunction has no more clauses than there are matching rules of the priority |
| LookupCompleteness.ResolveComplete | lib/classifier.c:1222-1322 | no eligible conjunction, satisfied and not too large, is missed from one priority to the next lower |
| LookupCompleteness.LookupComplete | lib/classifier.c:1104-1328 | if clause counts agree and are below 64, no two matching rules have one mask and priority, and every eligible conjunction has a rule, the lookup returns the rule of one that is eligible at the highest priority, if and only if that is above every match outside conjunctions, and the best of those otherwise |
| MissedConjunctions.StoppedShort | lib/classifier.c:1051-1076 | a classifier of three rules in which an eligible conjunction that has a rule is not found, because another is covered and has none |
| MissedConjunctions.SkippedTwice | lib/classifier.c:1055-1057 | a classifier of two rules in which a satisfied conjunction that has a rule is not found, because one rule is in both its clauses |
| Subtables.InvisibleSometime | lib/classifier.c:301-325 | a rule counts as on its way out if and only if there is a version after its addition in which it cannot be seen |
| Subtables.PutInserts | lib/classifier-private.h:138-147 | a list of equal rules stays sorted by priority and gains the rule |
| Subtables.PutReplaces | lib/classifier-private.h:156-161 | a list stays sorted, and the rule replaced is the one of equal priority |
| Subtables.CutRemoves | lib/classifier-private.h:173-179 | a list stays sorted and loses just the rule |
| Subtables.IncIndices | lib/classifier.c:692-695 | after a new key, each stage index has each hash as often as there are keys with it |
| Subtables.DecIndices | lib/classifier.c:921-924 | the same after a key is taken out |
| Subtables.IncPorts | lib/classifier.c:680-690 | after a new key, the ports trie has each prefix as often as there are keys with it |
| Subtables.DecPorts | lib/classifier.c:908-913 | the same after a key is taken out |
| SubtableChanges.AddKey | lib/classifier.c:668-696 | a subtable with a new key keeps its invariant and has exactly one rule more; the maximum priority and its count stay right |
| SubtableChanges.AddToList | lib/classifier.c:697-762 | the same for a rule that joins a list |
| SubtableChanges.ReplaceInList | lib/classifier.c:714-756 | the same for a rule that displaces an equal one, which is returned |
| SubtableChanges.Recount | lib/classifier.c:933-943 | the recomputed maximum bounds all priorities and its count is that of the lists headed by it, positive and at most the number of rules that have it |
| SubtableChanges.TakeOut | lib/classifier.c:878-926 | a subtable keeps its invariant and loses exactly the rule |
| SubtableChanges.Lowered | lib/classifier.c:930-946 | after a removal the maximum priority and its count are right again, recomputed only when the count falls to zero |
| SubtableChanges.Retouch | lib/classifier-private.h:99-104 | a changed removal version replaces one rule by itself with that version and keeps the invariant |
| SubtableVectors.OrderChange | lib/classifier.c:776-786 | the priority vector stays sorted and lists every subtable with its maximum priority when that changes |
| ClassifierState.MakeStages | lib/classifier.c:1696-1722 | the stages of a new subtable are not empty, but for the last, and together cover its mask |
| ClassifierState.ReadersFine | lib/classifier.c:1104-1192 | the write-side invariant of a subtable gives readers all they rely on |
| Classifiers.IncTries | lib/classifier.c:669-678 | the prefix tries then hold exactly one occurrence for every list of equal rules with that prefix |
| Classifiers.DecTries | lib/classifier.c:914-919 | the same when a list goes |
| Classifiers.Classifier.constructor | lib/classifier.c:335-356 | an empty classifier is valid |
| Classifiers.Classifier.FindOrMake | lib/classifier.c:1681-1742 | finds the subtable for a mask or makes an empty one that satisfies the invariant |
| Classifiers.Classifier.Replace | lib/classifier.c:631-796 | the set of rules gains the rule, loses the one displaced, which is equal and not on its way out, and all invariants hold: sorted lists, exact indices and tries, true maximum priorities, rule count |
| Classifiers.Classifier.Remove | lib/classifier.c:832-962 | the set of rules loses the rule if it is there, and all invariants hold, also when the subtable goes |
| Classifiers.Classifier.SetRemoveVersion | lib/classifier.c:301-325 | only the rule's visibility changes |
| Classifiers.Classifier.Lookup | lib/classifier.c:1104-1192 | on the current set of rules: without conjunctions a maximal visible match or a miss; with them the result is explained as LookupExplained says and, among orderly rules, chosen as LookupComplete says; the mask is sound and has no bit that is not in the mask of a rule |
| Classifiers.SnapshotFaithful | lib/classifier.c:1104-1192 | between updates the state that readers see is well-formed and holds exactly the rules of the classifier |
| Classifiers.BestOfContent | lib/classifier.c:1140-1192 | without conjunctive rules a lookup finds the best visible match among the rules of the classifier |
| Cuckoo.OtherHashSymmetric | lib/cmap.c:186-193 | the other hash of the other hash is the hash |
| Cuckoo.MoveOne | lib/cmap.c:800-807 | copying an entry into the free slot of its other bucket makes its old slot the free one and loses nothing |
| Cuckoo.FillNew | lib/cmap.c:809-811 | the freed slot takes the new entry and the table stands for exactly one entry more |
| Cuckoo.ChangeValue | lib/cmap.c:612-661 | a change of a slot's chain changes that entry alone |
| Cuckoo.TakeOut | lib/cmap.c:872-901 | emptying a slot, whose hash stays behind, removes that entry alone |
| Cuckoo.StandsAnswers | lib/cmap.c:549-579 | a table, also one with an entry in two places, answers every lookup as the map it stands for |
| Cuckoo.StandsCoherent | lib/cmap.c:793-807 | entries in two places agree and a leftover hash hides no entry, which is what a concurrent reader needs |
| CuckooSearch.AddPath | lib/cmap.c:816-822 | extending a path keeps what the search rests on: order by length, and extension in order |
| CuckooSearch.TrailDistinct | lib/cmap.c:692-707 | the path that is first at its end visits no bucket twice |
| CuckooSearch.ExploredFull | lib/cmap.c:755-823 | when all shorter paths have been explored, every walk of that length from the two buckets ends at a full one |
| CuckooSearch.NumberBound | lib/cmap.c:816-822 | how many paths of at most so many hops the queue can hold, by the slots of a bucket |
| CuckooTables.NothingFound | lib/cmap.c:755-826 | a search that fails has seen every bucket within four, three or two hops by the slots of a bucket, and within five if the queue did not fill up |
| CuckooTables.FoundShortest | lib/cmap.c:692-707 | the path found is a shortest one |
| CuckooTables.CuckooTable.constructor | lib/cmap.c:222-239 | a zeroed table stands for the empty map |
| CuckooTables.CuckooTable.Lookup | lib/cmap.c:566-579 | gives the entry for the hash, or nothing if there is none |
| CuckooTables.CuckooTable.Search | lib/cmap.c:733-826 | the search terminates within its limits; a path it finds runs through distinct full buckets to the first empty slot of the last and is a shortest; otherwise every bucket within four hops is full with up to 5 slots a bucket, within three with up to 15 |
| CuckooTables.CuckooTable.MoveBack | lib/cmap.c:787-807 | the backward moves lose nothing, and every table in between, one slot apart from the next, is coherent for all entries |
| CuckooTables.CuckooTable.AddNew | lib/cmap.c:664-827 | afterwards the table holds exactly the old entries and the new one, each in one of its two buckets, or on failure is unchanged, with every bucket full as far as the search is sure to reach |
| CuckooTables.CuckooTable.TryPut | lib/cmap.c:829-846 | the value joins the entry for the hash, by a change of its slot's value alone, or becomes a new one, and no other entry changes, in a run of coherent tables |
| CuckooTables.CuckooTable.Change | lib/cmap.c:872-901 | one entry changes or goes, in one step |
| LoadFactor.GrowMakesRoom | lib/cmap.c:210-220 | below 2^29 buckets doubling raises the limit above the number of entries |
| LoadFactor.ShrinkLeavesRoom | lib/cmap.c:210-220 | halving a table below its minimum leaves the entries under the new limit |
| LoadFactor.GrowOverflows | lib/cmap.c:210-220 | at 2^29 buckets the limit after doubling is no higher |
| LoadFactor.GrowthExact | lib/ccmap.c:143-153 | the assertion in rehashing holds on growth if and only if there are fewer than 2^29 buckets, for all three bucket sizes |
| ResizableTables.CopyAll | lib/cmap.c:936-955 | a rehash that succeeds has copied exactly the entries of the old table; one that fails has met an entry whose buckets are full as far as the search is sure to reach |
| ResizableTables.ResizableTable.Rehash | lib/cmap.c:957-978 | the new table stands for the same map; the assertion fails if and only if the entries reach the new limit; under every basis given up, and under all if none is left, a table of some of the entries had no room for another; with no more entries than a bucket has slots the first basis succeeds |
| ResizableTables.FewFit | lib/cmap.c:936-955 | no room for another entry, as far as the search is sure to reach, means more entries than a bucket has slots |
| ResizableTables.ResizableTable.Retry | lib/cmap.c:866-868 | the table is rehashed if and only if there is no room, as often as there is none |
| ResizableTables.ResizableTable.Grow | lib/cmap.c:861-868 | a table at its limit has twice the buckets before the value joins |
| ResizableTables.ResizableTable.Put | lib/cmap.c:854-870 | through growth, at the limit, and repeated rehashing the map gains just the value; the assertion fails exactly at the limit of 2^29 buckets; without growth it is rehashed only if there was no room, and every basis given up left none; with no more entries than a bucket has slots it succeeds |
| ResizableTables.ResizableTable.Change | lib/cmap.c:915-934 | the map changes at the hash alone, and the assertion never fails; the table is halved if and only if it has become too empty, and every basis given up had no room |
| ConcurrentMaps.NodeMap.Insert | lib/cmap.c:854-870 | the node joins the front of its hash's chain; the number of nodes is the size of the multiset of all; it fails only at the limit or if under every basis there was no room |
| ConcurrentMaps.NodeMap.Replace | lib/cmap.c:872-934 | the node is replaced in its place or removed; other chains stay; the number of nodes is right, and the table shrinks if and only if it is too empty |
| ConcurrentMaps.NodeMap.Find | lib/cmap.c:566-579 | the chain for the hash holds exactly the nodes inserted under it and not removed |
| ConcurrentMaps.CountMap.Inc | lib/ccmap.c:474-494 | the multiset of hashes gains the hash and the count returned is its multiplicity, through relocation and growth; it fails only at the limit or if under every basis there was no room |
| ConcurrentMaps.CountMap.Dec | lib/ccmap.c:517-541 | the multiset loses the hash and the count returned is its multiplicity; the table shrinks if and only if it is too empty |
| ConcurrentMaps.CountMap.Find | lib/ccmap.c:224-237 | the count is increments minus decrements of the hash |
| Seqlock.WriterStep | lib/cmap.c:594-607 | each step of a slot's change keeps the state consistent, and where a counter stays even and the same, so do the hashes |
| Seqlock.Linearizable | lib/cmap.c:288-353 | in every interleaving, also across a rehash that replaces the table, a lookup that finishes gives an answer, a value or a miss, that was right at some moment since it started; so what is there all the time is found |
| Seqlock.Undisturbed | lib/cmap.c:288-353 | from any state in which the writer is between changes, a lookup that it leaves alone finishes within as many reads as are left, again for each counter that has moved |
| Seqlock.UndisturbedIsRight | lib/cmap.c:288-353 | if it also starts then, it takes at most twice the slots of a bucket and nine reads, and gives what the map has |
| Seqlock.ChangesEnabled | lib/cmap.c:787-811 | every change of a slot that an insertion goes through is one the writer of the small-step system may make |
| Seqlock.ValueChangesEnabled | lib/cmap.c:649-656 | the changes of a chain alone are ones it may make in a single write, without the counter |
| CountReader.ChangeOk | lib/ccmap.c:276-301 | every store of the writer, also in the middle of a relocation, keeps the table standing for its entries, and a table that a rehash replaces stays as it is |
| CountReader.ChangeMoves | lib/ccmap.c:427-435 | no store but a copy back to the first bucket moves an entry to it |
| CountReader.MissMeansMovedBack | lib/ccmap.c:206-237 | in every run of a writer and a reader that loads one slot at a time, a lookup misses a hash that has an entry throughout only if a relocation copies it from its second bucket to its first in the run |
| CountReader.FoundIsRight | lib/ccmap.c:206-237 | a count that a lookup returns was that of the hash at a moment of the lookup |
| MissedReads.MovedBackIsMissed | lib/ccmap.c:206-237 | around every such copy there is a lookup that misses the entry, which is there at every moment |
| MissedReads.MissesIffMovedBack | lib/ccmap.c:424-435 | from any state, a lookup can miss an entry that is there all the time if and only if it can be copied back |
| MissedReads.MissHappens | lib/ccmap.c:424-438 | a run from the empty table, through additions, removals and a relocation within the load limits, in which a lookup misses |
| ConnKeys.HashSymmetric | lib/conntrack.c:2315-2339 | a key and its reverse have the same hash |
| ConnKeys.NatInverse | lib/conntrack.c:972-1002 | a forward packet becomes the reverse of the reply key and a reply the reverse of the forward key, if and only if an address is translated or there is nothing to translate |
| ConnKeys.NatRoundTrip | lib/conntrack.c:972-1002 | the reply to a translated packet is translated back to a reply to the original |
| ConnKeys.Packet.Nat | lib/conntrack.c:858-910 | the packet is rewritten in place as specified and marked by how it was translated |
| ConnKeys.Delta | lib/conntrack.c:2341-2380 | in 64-bit halves: the distance of the ends of a range, limited to 32 bits |
| ConnKeys.Increment | lib/conntrack.c:2382-2406 | 128-bit addition by halves; the branch that cannot carry is reached exactly on overflow of 128 bits |
| ConnKeys.Ipv4Selected | lib/conntrack.c:2476-2488 | the modulus is zero only for the range of all addresses; the address selected is in the range, and every one can be |
| ConnKeys.Ipv6Selected | lib/conntrack.c:2476-2498 | the modulus is never zero, the carry branch never taken, the address in the range; up to 2^32 - 1 addresses every one can be selected |
| ConnKeys.SelectAddress | lib/conntrack.c:2500-2520 | a range that does not start at zero gives an address within it |
| NatPorts.TriesAll | lib/conntrack-private.h:176-199 | with at most 128 ports all are tried if and only if the search starts at one of them |
| NatPorts.TriesFirst | lib/conntrack.c:2533-2571 | with more, from any start, the first 128 are tried, but 64 after a random restart for 65535 ports and a start outside, and none if and only if the range is that of all ports |
| NatPorts.RoundsWithin | lib/conntrack-private.h:176-199 | every port tried is the first or in the range, through all random restarts |
| ConnTracking.SourcePorts | lib/conntrack.c:2435-2459 | the search for a source port starts outside its range only where that has more than 128 and fewer than 65535 ports |
| ConnTracking.DestinationPorts | lib/conntrack.c:2460-2474 | the search for a destination port starts inside its range |
| ConnTracking.InChain | lib/conntrack.c:670-709 | a connection with a key, indexed once or twice, is in the chain for that key |
| ConnTracking.LeaveNodes | lib/conntrack.c:557-579 | cleaning up leaves no node behind if and only if a reply node, where there is one, is taken out |
| ConnTracking.ConnTracker.Lookup | lib/conntrack.c:670-717 | succeeds if and only if an unexpired connection has the key as its forward or reply key, and says which |
| ConnTracking.ConnTracker.SearchRound | lib/conntrack.c:2550-2561 | tries ports in order as far as the attempts reach, and finds the first of them that is free |
| ConnTracking.ConnTracker.SearchPort | lib/conntrack.c:2533-2571 | terminates; the port found is the first free one of those tried, and a failure means that every one is taken |
| ConnTracking.ConnTracker.SelectTuple | lib/conntrack.c:2594-2661 | the tuple accepted belongs to no unexpired connection and differs from the reverse key only where it may: it has the first free destination port tried, if one was asked for, or else the first free source port; there is none if and only if all that are tried are taken, for ranges of any size |
| ConnTracking.StartTried | lib/conntrack.c:2533-2571 | the port that the search starts with is tried, unless the range is that of all ports, with which none is |
| ConnTracking.NoneFreeMeans | lib/conntrack.c:2594-2661 | if there is none, the tuple that the search starts with is taken, unless any source port of all would do, and every port of a range of at most 128 is |
| ConnTracking.WholeRangeRefused | lib/conntrack.c:2533-2571 | with all source ports allowed a request is refused, also while there is no connection |
| ConnTracking.ConnTracker.Create | lib/conntrack.c:1058-1142 | the index stays exact; creation fails if and only if there is NAT and no tuple is free, so not while the one that the search starts with is; a NATed connection has the tuple chosen, which collided with none; if every key belonged to one unexpired connection only and the forward key to none, that stays so if and only if there is NAT or the reverse key belonged to none |
| ConnTracking.StaysUnique | lib/conntrack.c:1455-1460 | a new connection whose forward key was free leaves every key with one unexpired connection if and only if its reply key was free |
| ConnTracking.SharedReplyKey | lib/conntrack.c:1455-1460 | a source-translated connection and one from the translated address, both unexpired, with one reply key |
| ConnTracking.ConnTracker.Clean | lib/conntrack.c:557-579 | the connection goes, and the index stays exact if and only if the connection translates or has no reply node |
| ConnTracking.LeaveNodeBehind | lib/conntrack.c:557-579 | a request that translates nothing, for any key without ports, followed by clean-up: the table is empty and its index is not exact |
| ConnTracking.ConnTracker.Touch | lib/conntrack-tp.c:240-260 | a changed expiration leaves the index exact |
| ZoneLimits.CountsConserved | lib/conntrack.c:583-602 | in every reachable state each zone entry's count is the number of connections admitted under it and not yet taken off, and the total that of all connections, under deletion and re-creation of limits |
| ZoneLimits.LimitsRespected | lib/conntrack.c:1058-1142 | counting an admitted connection takes neither its zone past the limit read at its admission nor the total past its limit |
| ZoneLimits.ConfiguredAfterAll | lib/conntrack.c:356-457 | after every run the limits are what the changes of limits alone make of them; entries that admissions add for the default change nothing |
| ZoneLimits.NeededAfterAll | lib/conntrack.c:356-457 | after every run a zone has an entry only if it has a limit of its own or there is a default |
| ZoneLimits.BeginReads | lib/conntrack.c:1058-1142 | an admission reads the limit in force for the zone: its own, or the default |
| ZoneLimits.AdmitsExactly | lib/conntrack.c:1058-1142 | the connection is there afterwards if and only if its zone has fewer than the limit read, if there is one, and there are fewer in all than the limit for all |
| ZoneLimits.AdmissionRule | lib/conntrack.c:356-457 | both together, after every run |
| ZoneLimits.Keep | lib/conntrack.c:356-457 | each step of creation, clean-up and limit changes keeps the counters right |
| Bfd.StepsAreSafe | lib/bfd.c:543-660 | no operation sets both Poll and Final, brings the session administratively down or leaves decay on while it is not up |
| Bfd.Session.Receive | lib/bfd.c:702-892 | a message is ignored or changes the session as section 6.8.6 of RFC 5880 says; the detection time follows the intervals agreed |
| Bfd.Session.Process | lib/bfd.c:748-881 | the state machine, discriminators, poll and final bits, intervals, diagnostic and detection time after a message of full length and right TTL |
| Bfd.Session.Learn | lib/bfd.c:809-828 | a final bit ends a poll and puts its intervals in force; a poll bit makes the next packet final |
| Bfd.Session.LearnTimers | lib/bfd.c:830-847 | the peer's intervals and multiplier, and the detection time they give |
| Bfd.Session.Advance | lib/bfd.c:849-881 | the transitions of the state machine, with the diagnostic |
| Bfd.Session.Send | lib/bfd.c:583-660 | the message carries the session's state, diagnostic and intervals, never both Poll and Final; below Up it asks for at most one packet a second if and only if it is not polling with a shorter interval; the next one is due within three quarters to the whole of the interval |
| Bfd.Session.Run | lib/bfd.c:543-571 | the session goes down exactly if the detection time has passed, with the diagnostic that says so unless the path is down; decay only while up; a poll starts with the configured intervals, and is under way where they differ from those in force |
| Bfd.Session.SetIntervals | lib/bfd.c:410-445 | while up, an interval that would slow sending or speed up receiving waits for a poll; decay is bounded by the configured interval |
| Bfd.Session.Configure | lib/bfd.c:353-483 | configuration stays in its bounds and changes the protocol state only in the ways allowed; above Down, a changed interval, decay or path state has a poll under way unless a final packet is due, and none of them changed leaves the protocol state alone |
| Bfd.PollBeforeUp | lib/bfd.c:966-977 | a session in Init whose interval is configured anew sends a packet that asks for five packets a second |
| Bfd.Session.SetState | lib/bfd.c:1121-1168 | at or below Down everything learned from the peer is forgotten and decay ends |
| Bfd.Session.SetNextTx | lib/bfd.c:1004-1014 | the next transmission is due after the interval less a random part: up to a quarter, and at least a tenth with a multiplier of one |
| Bfd.Session.Poll | lib/bfd.c:966-977 | a poll starts only above Down and with neither bit set, with the configured intervals |
| Bfd.EnterUp | lib/bfd.c:789-881 | a session comes up only on a packet that names its discriminator, from a peer above Down |
| Bfd.UpIsHeard | lib/bfd.c:702-892 | in every run of two sessions, with loss, repetition, reordering and restarts under any discriminator, a session that is up has, under its discriminator, sent a packet that its peer has processed |
| TcpTracker.MovesKeep | lib/conntrack-tcp.c:163-416 | a packet, valid or not, takes no peer back except in the joint reset, stays among six states, and Established or FinWait2 at one peer means at least SynSent at the other |
| TcpTracker.NeverBack | lib/conntrack-tcp.c:163-416 | over any stretch of a run without the joint reset neither state decreases |
| TcpTracker.RunReachable | lib/conntrack-tcp.c:163-480 | every state of every run is reachable in that sense |
| TcpTracker.SixOccur | lib/conntrack-tcp.c:163-480 | each of the six states does occur |
| TcpTracker.GetScale | lib/conntrack-tcp.c:120-151 | the options are parsed without reading past them; the last window scale option counts, limited to 14 |
| TcpTracker.Connection.constructor | lib/conntrack-tcp.c:438-480 | a new connection has its sender in SynSent and the other peer Closed, with the window and the scale of the packet |
| TcpTracker.Connection.Update | lib/conntrack-tcp.c:162-416 | with all window checks, states and windows of both peers become what is stated of a packet, in either direction |
| TcpTracker.UpdatePeers | lib/conntrack-tcp.c:162-416 | the verdict on a packet, in the window, nearby or outside, decides result, states and windows exactly, also for the first packet of a peer; the sender's sequence number never moves back |
| TcpTracker.UpdatedMoves | lib/conntrack-tcp.c:162-416 | of the states that is one of the moves; the sender's sequence number never moves back, and an invalid packet that is not a peer's first changes nothing |
| TcpTracker.IntroducedVerdict | lib/conntrack-tcp.c:218-307 | the first packet of a peer, checked against the window it has set up, fares as a check from its own sequence number says |
| TcpTracker.FirstPacket | lib/conntrack-tcp.c:218-265 | the first packet of a peer sets its window and settles scaling on the answer to the handshake |
| TcpTracker.Conclude | lib/conntrack-tcp.c:295-416 | a packet in the window or near it moves its sender's sequence number to its end and the receiver's limit to the end of the window it offers, each only forward, keeps the largest window, and changes the states; one outside changes nothing |
| TcpTracker.Slide | lib/conntrack-tcp.c:310-321 | window, sequence number and the other end's limit advance, and nothing else changes |
| TcpWindows.ReachAhead | lib/conntrack-tcp.c:318-321 | a peer's limit becomes the further of the one it has and the end of the window offered, if and only if these are at most 2^31 apart; else it comes to lie before what the peer has sent |
| TcpWindows.StepSound | lib/conntrack-tcp.c:295-321 | with scales of at most 13, a packet keeps the limit of each peer at or ahead of what it has sent, by at most a window and a bit |
| TcpWindows.StaysSound | lib/conntrack-tcp.c:162-416 | so it stays in every run, while the connection is open |
| TcpWindows.HandshakeSound | lib/conntrack-tcp.c:212-480 | and so it is after a handshake whose answer acknowledges about what was sent |
| TcpWindows.OfferedIsAccepted | lib/conntrack-tcp.c:290-321 | in every run, while the connection is open and its windows are sound, data in order that ends within a window the other side has offered is judged valid, unless 2^30 bytes have been sent since |
| TcpWindows.LastOfferIsAccepted | lib/conntrack-tcp.c:290-321 | in particular within the window offered last |
| TcpWindows.ResetExact | lib/conntrack-tcp.c:278-307 | on an open connection with sound windows a reset without data is valid if and only if it is within one of where its sender has sent up to and acknowledges nothing, zero or something close enough; both peers are then in TimeWait |
| TcpWindows.NearbyValid | lib/conntrack-tcp.c:356-362 | around the start and the end of a connection, a packet up to about a window off its sender's own is valid |
| TcpWindows.WindowLost | lib/conntrack-tcp.c:290-321 | a run from a connection whose handshake was not seen, in which such data is judged invalid |
| Checksum.Finish | lib/csum.c:65-72 | folding terminates and gives the complement of the sum in ones-complement arithmetic |
| Checksum.FoldCongruent | lib/csum.c:65-72 | the result depends only on the sum modulo 65535 and whether it is zero, and tells both |
| Checksum.Continue | lib/csum.c:40-56 | the loop adds the words of the data, and an odd byte, in 32-bit arithmetic |
| Checksum.Csum | lib/csum.c:30-34 | for data whose sum fits 32 bits, the checksum is the complement of the folded sum |
| Checksum.ByteOrder | lib/csum.c:40-56 | the checksum in memory does not depend on the host's byte order |
| Checksum.Recalc16 | lib/csum.c:77-89 | computes the update of RFC 1624 for one word |
| Checksum.WordsPatched | lib/csum.c:40-56 | what overwriting whole words of the data does to their sum |
| Checksum.RecalcAt | lib/csum.c:77-89 | from a right checksum of the bytes, the update for two of them gives the updated checksum of the new bytes |
| Checksum.Recalc32 | lib/csum.c:94-99 | the same for four bytes in either byte order of the host, which is what Csum gives for the new bytes if and only if they are not all zero |
| Checksum.Recalc48 | lib/csum.c:104-115 | the same for six bytes |
| Checksum.Recalc128 | lib/csum.c:120-138 | the same for sixteen bytes |
| Checksum.UpdatedExact | lib/csum.c:77-138 | an updated checksum is what Csum gives for the bytes if and only if they are not all zero; else it is 0 instead of 0xffff |

## Left out

- The decision-tree backend of the classifier and its lazy building.
- Deferred publication, partial publication during an update and reconfiguration of prefix fields; readers see the state between updates.
- The layout of miniflows and the word-level bit helpers: flows and prefixes are bit sequences, chunked at 32 bits in the trie.
- The order among subtables of equal priority, which the priority vector leaves open; lookups are proved for every order.
- LookupCompleteness.LookupComplete: where an eligible conjunction has no rule, or clause counts clash, which conjunction is found is left to LookupExplained.
- LookupMeaning.LookupIsLinearSearch: a miss says nothing about rules of the lowest priority, because the code never finds them.
- The nodes of a chain in the node map are a sequence; their next pointers and the memory of nodes are not modelled.
- 32-bit wrap-around of counts in the counting map, of bucket counters during a lookup and of zone sequence numbers.
- Seqlock.Linearizable: steps are sequentially consistent; weaker memory orders are not modelled.
- CountReader.MissMeansMovedBack: loads and stores of a slot are sequentially consistent; an insertion may pick any of the shortest paths.
- ResizableTables.ResizableTable.Rehash: when under all random bases supplied some entry has found no room the table is unchanged, where the source goes on.
- ResizableTables.ResizableTable.Put: the same.
- ConcurrentMaps.CountMap.Inc: the same.
- ConcurrentMaps.NodeMap.Insert: the same.
- Cursors, batched lookup and lookup by index in the node map.
- Application gateways, fragments, inner ICMP packets, marks, labels and timeout policies of the connection tracker.
- ConnTracking.ConnTracker.Create: expected connections of application gateways are not created, and zone limits are modelled apart, in ZoneLimits.
- ZoneLimits.LimitsRespected: the limit is the one read at admission; one lowered meanwhile applies to the next.
- Bfd.UpIsHeard: a discriminator may be used again after a restart, and then the packet may be one of an earlier session.
- Bfd.Session.Send: intervals on the wire are not cut to 32 bits.
- Forwarding flags, flap counts, addresses and tunnel checks of a BFD session.
- The timeouts chosen after each TCP packet.
- Logging, statistics, memory reclamation and all parsing of packets.
