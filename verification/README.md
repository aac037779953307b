# Verification of the dr-strange cores

A Dafny model of seven algorithms of dr-strange, with proofs of what their comments, tests and callers
rely on. `dafny verify dfyconfig.toml` checks the whole project.

- **The bounded walk and its verbs** (`Planes`, `Walks`, `Nearest`, `Distances`, `CallsPath`, `Impact`, `Sums`,
  `Tallies`, `TallyWays`, `Fathom`, `Overrun`). A plane is a finite directed multigraph with typed edges and, per node and direction, an
  adjacency list. `Walks.Walk` is the breadth-first walk with its depth, budget, visitor and early stop, proved equal
  to a fold; `Nearest` proves of that fold what "the nearest part of a larger one" means, in terms of
  distance balls defined without the walk. Shortest call paths, the blast radius and the makeup of a region
  are methods over the walk, proved against paths, distance classes and induced edge sets.
- **The keyword index** (`KeywordIndex`, `KeywordSearch`, `Relevance`, `KeywordEntry`, `KeywordRegistry`).
  `Entry` changes postings, documents and total length in place; `Represents` says which texts the three describe together.
  Every write keeps it, and a search is proved to be the top k of scores defined on the texts alone, so a live
  index and one rebuilt from a snapshot answer alike.
- **The mount table** (`Mounts`, `MountNames`, `MountRecord`, `MountRuns`, `Instances`). `Instance` mounts, unmounts
  and replays, each method refining a step on values; its table's invariant, its name resolution and its written record
  are proved over whole runs and restarts.
- **WebSocket framing** (`Frames`, `Framing`, `Connection`). The writer and the de-fragmenting reader of the Go
  client, at byte level (RFC 6455), over every frame, every mask and every interleaving of control frames.
- **The JSON dialect** (`PropJson`, `JsonRoundTrip`, `NodeJson`). Encoder and decoder of property values with their
  escape objects; what reads back, and exactly when.
- **Revisions** (`Decimals`, `Revisions`, `History`). The parser against a grammar, in both directions, and the evaluator
  over an arbitrary parent relation, cycles included.
- **Versions and shell quoting** (`Versions`, `ShellQuote`). The version order as a total preorder, and single-quoting
  undone by the shell's word splitting.

`Collections` holds what they share. Where the source computes with loops over mutable state, the model has a
method with that loop, proved equal to a function; the theorems are about the function.

## What the proofs found

- `fathom` with its budget spent says its counts are "exact over what was walked" (`compact.rs:1863-1866`), and `Tally` says
  a node's degree is the edges it holds inside the region (`compact.rs:1894-1895`). A hop to a node the budget refuses is
  tallied before the refusal, so the counts then include edges that leave the region. `Fathom.RegionMakeup` proves what is
  counted, the edges inside and those at a node walked from, and that this is the edges inside alone if and only if at most
  5,000 nodes lie within the depth; `Overrun.CrowdOverCounts` is every node joined to as many others, where it is not.
- A prefixed mount answers for `name/startup` although the startup plane is skipped and never listed; without a
  prefix it does not (`instance.rs:66-74`). `MountNames.StartupAnswersUnlisted` is any such mount, and
  `ResolvesWhatIsListed` gives this as the only difference between what resolves and what is listed by a name.
- A plane whose name is empty is listed by a prefixed mount as `name/` but never resolves, so a second mount may list the same
  name. `MountNames.EmptyPlaneNameListedTwice` is two accepted mounts that do. `ListedNamesDistinct` proves that listed
  names are distinct if and only if no mount lists such a name again, and `ListedResolves` that a listed plane resolves to its
  lister if and only if it is not such a one.
- The comment on `add_doc` reads "Index (or re-index)" (`keyword.rs:91-92`), but adding an indexed document again leaves its old
  postings in place and counts its length twice; `KeywordIndex.AddedIsIndexIff`: the result is an index of some texts if and
  only if the document was not indexed. The callers modelled here remove the document first, or build from nothing.
- A ping of more than 125 bytes, which section 5.5 of RFC 6455 forbids, is read and answered with a pong as long
  (`sdk/go/watch.go:348-354`): `Connection.PingEchoed`, and `PongLegalIff`, by which the pong is allowed if and only if the
  ping has at most 125 bytes.
- A connection cut inside a frame, where one of its fields would begin, ends like a clean close: `io.ReadFull` of nothing is
  `io.EOF` (`sdk/go/watch.go:303-342`). `Framing.CutFrame` gives the error of every cut.
- A float that is not finite is written as null and lost (`JsonRoundTrip.NonFiniteIsLost`); all other values read back.
- A date on a dated revision is the earlier of the two dates except at the walk's cap of 100,000 commits:
  `History.DatesMayDiffer` is a line of 150,000 where two dates find a commit and the earlier alone gives up, and
  `History.History.DatesCompose` proves the two agree if and only if the two walks are not each under the cap with as
  many visits together as the cap or more.
- A node whose top-level text looks like a vector marker loses that property in either JSON form (`NodeJson.NodeReadsBack`).

## Main results

- The walk: `Nearest.RegionIsNearest` and `Nearest.HeldBeforeLeftOut`, with `Walks.Walk` refining the fold they are about.
- Its verbs: `CallsPath.ShortestCalls`, `Impact.BlastRadius`, `Fathom.RegionMakeup` and `Overrun.CrowdOverCounts`.
- The index: `KeywordEntry.Entry.Search`, `KeywordRegistry.Registry.RunThenSearchBoth` and `RunThenRebuild`,
  `KeywordIndex.AddedIsIndexIff`, `KeywordSearch.ScoresPositive` and `SameTermsSameHits`,
  `Relevance.BetterScoresHigher` and `RarerScoresHigher`.
- Mounts: `Mounts.DecideIff`, `MountNames.ListedNamesDistinct`, `ListedResolves` and `ResolvesWhatIsListed`,
  `MountRuns.RestartsBringBack`, with `Instances.Instance.MountDatabase`, `Unmount` and `Replay` refining the
  steps it is about.
- Frames: `Framing.ReadsToFirstStop` and `MessagesReadBack`, with `Connection.WsConn.ReadText` refining the reader they are about.
- JSON: `JsonRoundTrip.ValueReadsBack` and `DescReadsBack`, `NodeJson.NodeReadsBack` and `LeanNodeReadsBack`.
- Revisions: `Revisions.ParsesIff` and `BaseMeans`, `History.History.BackAdds`, `BackToFirst` and `DatesCompose`.
- Versions and quoting: `Versions.CmpIsBelow` and `CmpTransitive`, `ShellQuote.InstallerTailSplits`.

## Model

| member | source | states |
|---|---|---|
| `Walks.Walk` | crates/dr-strange-core/src/compact.rs:648-702 | The three nested loops with `continue` and the break out of all of them, for any visitor with state, any bounds and any finite multigraph, come to the fold `WalkSpec` every theorem below is about; the walk ends even at depth `usize::MAX` |
| `Walks.SweepFrontier` | crates/dr-strange-core/src/compact.rs:671-695 | One level is the visitor offered every hop of the frontier in order, and nothing after a stop |
| `Walks.VisitHop` | crates/dr-strange-core/src/compact.rs:674-692 | One hop: offered with its freshness, then skipped, taken, refused by the budget, or the end of the walk |
| `Walks.OfferAllStopped` | crates/dr-strange-core/src/compact.rs:640-647 | After a stop no further hop changes anything the walk holds |
| `Walks.LeadsIff` | crates/dr-strange-core/src/compact.rs:671-674 | The hops of a level are exactly the edges touching a frontier node in a swept direction with the wanted type, self-loops and parallel edges included |
| `Nearest.RegionIsNearest` | crates/dr-strange-core/src/compact.rs:624-647 | For every visitor that takes or skips by edge alone: level i is the held part of the distance class i+1, each node once, whole classes before any farther one; at most max(1, budget) nodes are held; the budget refuses a node exactly when more than that lie within the depth, and otherwise the region is the whole ball |
| `Nearest.HeldBeforeLeftOut` | crates/dr-strange-core/src/compact.rs:629-632 | The region is the nearest part of a larger one: no held node is farther from the seed than a node left out |
| `Nearest.BallsGrowAndSettle` | crates/dr-strange-core/src/compact.rs:648-702 | Distance classes grow with depth, and once one is empty nothing lies beyond it, which is why a level without new nodes may end the walk |
| `Nearest.Net.BallHasPath` | crates/dr-strange-core/src/compact.rs:624-632 | A node within k hops is the end of a recorded path of at most k hops from the seed |
| `Nearest.Net.PathStaysInBall` | crates/dr-strange-core/src/compact.rs:624-632 | The end of any recorded path of k hops from the seed is within k hops |
| `Distances.RoutesMeasure` | crates/dr-strange-core/src/compact.rs:624-647 | Membership in a ball is a route of at most so many hops, in both directions |
| `CallsPath.ShortestCalls` | crates/dr-strange-core/src/compact.rs:1036-1081 | A returned path starts at `from`, ends at `to`, follows recorded CALLS edges and no call path has fewer hops, also when the target was met after the 20,000-node budget began refusing; none is returned only if every path there is has more than 20,000 nodes within reach one hop before its end, so a target with at most that many nodes nearer is always found |
| `CallsPath.SearchEnds` | crates/dr-strange-core/src/compact.rs:1047-1069 | Whatever the budget refused, `prev` gives every held node but the seed a held caller one distance class nearer, and a target found a held caller too |
| `CallsPath.WalkBack` | crates/dr-strange-core/src/compact.rs:1073-1080 | Reading `prev` back from the target ends, at `from`, after exactly as many hops as the target is away |
| `CallsPath.ChainDescends` | crates/dr-strange-core/src/compact.rs:1055-1064 | From a found target, `prev` leads through held nodes, one class nearer each time, and leaves the map only at the seed |
| `CallsPath.NotFound` | crates/dr-strange-core/src/compact.rs:1070-1072 | A search that ended without the target has, for every path to it, more than 20,000 nodes within reach one hop before its end |
| `CallsPath.WalkUnlinked` | crates/dr-strange-core/src/compact.rs:1047-1069 | A search that ran out of nodes to walk from holds none that calls the target, also when the budget refused nodes on the way |
| `Impact.BlastRadius` | crates/dr-strange-core/src/compact.rs:1178-1233 | Asked for 1 to 6 hops, 0 as 1 and more as 6: each group is exactly the nodes whose shortest chain of dependents has that many steps, none within the depth missing; the total is their number; exactly they are listed, each under an edge joining it to the group before; the keys offered are those of the nearest nodes that have one, in order, the first 500 of all there are |
| `Impact.AffectsIsLinked` | crates/dr-strange-core/src/compact.rs:1105-1116 | What the walk follows is exactly: some edge of a structural type points from the dependent at the node changed |
| `Impact.RadiusWalk` | crates/dr-strange-core/src/compact.rs:1192-1217 | A node first met along an excluded edge is still held at its structural distance: the groups stay exact |
| `Impact.RadiusNotes` | crates/dr-strange-core/src/compact.rs:1204-1217 | What is listed is exactly the nodes taken, each under an edge that joins it to the group before, and the keys offered are theirs in breadth-first order |
| `Impact.OfferedNearest` | crates/dr-strange-core/src/compact.rs:1354-1358 | Cutting the offered keys to any length keeps a prefix in distance order: no key kept belongs to a node farther than one cut |
| `Impact.CountGroups` | crates/dr-strange-core/src/compact.rs:1219-1222 | The running total over the groups is the number of nodes within the depth other than the seed |
| `Fathom.RegionMakeup` | crates/dr-strange-core/src/compact.rs:1689-1714 | Asked for 1 to 6 hops, 0 as 1 and more as 6: the region is the nearest nodes by routes either way, all of them exactly when at most 5,000; counted, once each, are exactly the edges inside and those at a node walked from, the edges inside alone exactly when all fit; per type, out are those whose source stands no later than their target in the order walked and in the rest; degrees sum to twice the edges; short of the depth, no edge leaves |
| `Overrun.CrowdOverCounts` | crates/dr-strange-core/src/compact.rs:1689-1712 | Of any node joined to 5,000 others or more, in any plane and at any depth, `fathom` counts an edge with an end outside the region it reports |
| `Overrun.CountHub` | crates/dr-strange-core/src/compact.rs:1689-1714 | Run on one caller of 5,000 or more, it counts such an edge |
| `Tallies.AddKeepsExact` | crates/dr-strange-core/src/compact.rs:1900-1914 | Counting a hop keeps every tally exact, per type and per node, whichever end it came from and however often: a self-loop adds two to its node, a repeated edge nothing |
| `TallyWays.AddDirected` | crates/dr-strange-core/src/compact.rs:1900-1914 | A hop counted the way its edge stands keeps out and in, of each type, the exact numbers of edges that stand each way |
| `TallyWays.StretchDirected` | crates/dr-strange-core/src/compact.rs:671-695 | A stretch of nodes walked in order counts every edge from the end that stands earlier, a self-loop as out |
| `Fathom.ClosesDirected` | crates/dr-strange-core/src/compact.rs:1724-1754 | The closing pass counts on in the same order, or finds nothing left to count |
| `Fathom.WalkCounts` | crates/dr-strange-core/src/compact.rs:1689-1712 | When the walk ends, counted is exactly every edge at a node it walked from: all it holds, but for the last level when it ended at its depth |
| `Fathom.CloseRegion` | crates/dr-strange-core/src/compact.rs:1724-1754 | The closing pass is the fold over the last level that adds exactly the edges staying inside the region |
| `Fathom.Closes` | crates/dr-strange-core/src/compact.rs:1716-1754 | The closing pass leaves counted exactly the edges inside the region and those at a node walked from |
| `Fathom.EndsTogether` | crates/dr-strange-core/src/compact.rs:1861-1875 | The footer that nothing further connects is right: short of the depth and within budget, every edge that touches the region stays in it |
| `KeywordEntry.Entry.AddDoc` | crates/dr-strange-core/src/keyword.rs:93-112 | An unindexed document joins postings, entries and length in step; a text that analyses to nothing changes nothing |
| `KeywordEntry.Entry.RemoveDoc` | crates/dr-strange-core/src/keyword.rs:115-127 | A document leaves all three structures, emptied posting lists are dropped, and an unknown one changes nothing |
| `KeywordEntry.Entry.Search` | crates/dr-strange-core/src/keyword.rs:130-167 | Returns exactly the best min(k, matches) of the documents containing a query term, by score descending then id ascending, for any gain and any addition, associative or not |
| `KeywordEntry.Entry.RemoveFrom` | crates/dr-strange-core/src/keyword.rs:115-127 | The body of a removal, term list by term list, is exactly the index without the document |
| `KeywordEntry.CountTerms` | crates/dr-strange-core/src/keyword.rs:98-102 | The term-count loop counts each token, in 32 bits |
| `KeywordEntry.PushPostings` | crates/dr-strange-core/src/keyword.rs:103-109 | The posting loop gives each distinct term one new posting at its end, and touches no other list |
| `KeywordEntry.DropPostings` | crates/dr-strange-core/src/keyword.rs:118-125 | The removal loop leaves every list of the document's terms without it, and no list empty |
| `KeywordEntry.AccumulateOnce` | crates/dr-strange-core/src/keyword.rs:150-155 | Over one posting list each document is given its gain once, so the order of the list does not matter |
| `KeywordEntry.TermScores` | crates/dr-strange-core/src/keyword.rs:141-156 | One more query term on the index scores as it would on the texts themselves |
| `KeywordEntry.CutIsTop` | crates/dr-strange-core/src/keyword.rs:158-166 | Sorting and truncating leaves exactly the top k |
| `KeywordIndex.AddKeepsStep` | crates/dr-strange-core/src/keyword.rs:93-112 | Adding a document not yet indexed takes an index of some texts to an index of those texts and one more |
| `KeywordIndex.CountIsMultiplicity` | crates/dr-strange-core/src/keyword.rs:99-102 | A term's frequency is how often it stands among the tokens |
| `KeywordIndex.AddTwiceBreaksStep` | crates/dr-strange-core/src/keyword.rs:91-112 | Adding a document already indexed leaves an index of no texts at all: an old term has two postings for it, or one it no longer should |
| `KeywordIndex.AddedIsIndexIff` | crates/dr-strange-core/src/keyword.rs:91-112 | Adding a document with tokens leaves an index of some texts if and only if it was not indexed before |
| `KeywordIndex.RemoveKeepsStep` | crates/dr-strange-core/src/keyword.rs:115-127 | Removing takes an index of some texts to an index of the texts without that one |
| `KeywordIndex.LengthWithin` | crates/dr-strange-core/src/keyword.rs:117-118 | The length subtracted on removal never exceeds the total |
| `KeywordIndex.SameTextsSameIndex` | crates/dr-strange-core/src/keyword.rs:51-89 | Two indexes of the same texts have the same entries, the same length and, up to order, the same posting lists |
| `KeywordSearch.ScoredDocuments` | crates/dr-strange-core/src/keyword.rs:136-157 | A document is scored exactly when it contains a query term |
| `KeywordSearch.SortDedupAscends` | crates/dr-strange-core/src/keyword.rs:136-138 | Query terms are scored in strictly ascending order, so each once |
| `KeywordSearch.SameTermsSameHits` | crates/dr-strange-core/src/keyword.rs:136-166 | Queries with the same terms, in any order and however often, get the identical ranked list |
| `KeywordSearch.TopIsUnique` | crates/dr-strange-core/src/keyword.rs:158-167 | Score descending then id ascending leaves one possible ranked list of each length |
| `KeywordSearch.Bm25Positive` | crates/dr-strange-core/src/keyword.rs:140-154 | Neither division is by zero and each term's gain is strictly positive, for any logarithm positive above one |
| `KeywordSearch.ScoresPositive` | crates/dr-strange-core/src/keyword.rs:130-157 | Every document containing a query term scores strictly above zero |
| `Relevance.RarerGainsMore` | crates/dr-strange-core/src/keyword.rs:146-154 | All else equal, the rarer term gains strictly more, for any increasing logarithm |
| `Relevance.MoreGainsMore` | crates/dr-strange-core/src/keyword.rs:150-154 | The more often a document has the term and the shorter it is, the more it gains, strictly when either is strict |
| `Relevance.Bm25InFigures` | crates/dr-strange-core/src/keyword.rs:29-32 | The two constants of the formula, in two gains worked out |
| `Relevance.ScoreIsSum` | crates/dr-strange-core/src/keyword.rs:141-156 | A document's score is the sum of its gains over the query terms it has |
| `Relevance.BetterScoresHigher` | crates/dr-strange-core/src/keyword.rs:130-167 | A document with every query term at least as often, no longer, and better at one, scores strictly higher |
| `Relevance.RarerScoresHigher` | crates/dr-strange-core/src/keyword.rs:130-167 | Of two documents with one query term each, as often and no longer, the one with the rarer term scores strictly higher |
| `Relevance.HigherStandsFirst` | crates/dr-strange-core/src/keyword.rs:158-166 | When a document makes the cut, one with a higher score does too, and stands above it |
| `KeywordRegistry.FromSnapshot` | crates/dr-strange-core/src/keyword.rs:74-89 | Building over a snapshot indexes exactly its rows that analyse to something |
| `KeywordRegistry.SearchSnapshot` | crates/dr-strange-core/src/keyword.rs:216-232 | A throwaway index of the snapshot answers the top k over the rows' own texts |
| `KeywordRegistry.Registry.BuildEntry` | crates/dr-strange-core/src/keyword.rs:194-207 | Declaring an index puts one of exactly the snapshot's rows under its key, and changes no other |
| `KeywordRegistry.Registry.Upsert` | crates/dr-strange-core/src/keyword.rs:260-277 | The entry under the key holds the document's new text in place of any old one, and no other entry is touched |
| `KeywordRegistry.Registry.RemoveOne` | crates/dr-strange-core/src/keyword.rs:280-288 | The document leaves the entry under the key, and no other entry is touched |
| `KeywordRegistry.Registry.RemoveNode` | crates/dr-strange-core/src/keyword.rs:291-297 | The document leaves every entry |
| `KeywordRegistry.Registry.Run` | crates/dr-strange-core/src/keyword.rs:260-297 | After any run of writes every live index is an index of exactly the texts now stored |
| `KeywordRegistry.Registry.RunThenSearchBoth` | crates/dr-strange-core/src/keyword.rs:213-232 | After any run of writes every live index mirrors what is stored, and a search of the live index and of one built from the rows now stored give the identical list, the top k over those rows |
| `KeywordRegistry.Registry.RunThenRebuild` | crates/dr-strange-core/src/keyword.rs:71-89 | After any run of writes every live index mirrors what is stored, and is, up to order, the index newly built from the rows now stored |
| `KeywordRegistry.OpFollows` | crates/dr-strange-core/src/keyword.rs:260-297 | Updating an index by a write is indexing the store after that write |
| `KeywordRegistry.LiveAgreesWithSnapshot` | crates/dr-strange-core/src/keyword.rs:213-232 | A live and a rebuilt index of the same texts are the same up to posting order and rank identically |
| `Mounts.DecideIff` | crates/dr-strange-core/src/instance.rs:288-367 | A mount is accepted exactly when the name is its own, its directory free, the grant admits it and no plane it brings is already answered for |
| `Mounts.MountNameIff` | crates/dr-strange-core/src/instance.rs:586-612 | A path's own name is its last part without `.drsg`, or for `graph.drsg` the part before it |
| `Mounts.AskedRightly` | crates/dr-strange-core/src/instance.rs:288-320 | No database, no grant and no name are each refused for exactly that, a name being non-empty and without a separator; what is accepted is called what was asked for |
| `Mounts.RefusedRightly` | crates/dr-strange-core/src/instance.rs:321-356 | A name taken, a lock held and a plane already served are each refused for that, in this order |
| `Mounts.ResolvesIff` | crates/dr-strange-core/src/instance.rs:233-253 | A name resolves exactly when the host or some mount answers for it |
| `Mounts.FirstAnswerIs` | crates/dr-strange-core/src/instance.rs:240-251 | The first mount that answers is the one resolved to |
| `Mounts.ServedNamesDistinct` | crates/dr-strange-core/src/instance.rs:330-341 | The names one mount brings are pairwise distinct |
| `Mounts.FitsAmongFewer` | crates/dr-strange-core/src/instance.rs:342-359 | A mount accepted beside some others is accepted beside fewer: unmounting leaves unresolved names unresolved |
| `Mounts.KeptTable` | crates/dr-strange-core/src/instance.rs:434-452 | The remembered mounts of a table form a table on their own, whatever was not remembered between them |
| `MountNames.ListedResolves` | crates/dr-strange-core/src/instance.rs:66-74 | A mounted plane resolves to exactly the database and mount that lists it, if and only if it is not a plane without a name under a prefix |
| `MountNames.NamesApart` | crates/dr-strange-core/src/instance.rs:321-325 | Mount names are pairwise distinct |
| `MountNames.ListedNamesDistinct` | crates/dr-strange-core/src/instance.rs:255-272 | All names listed, the host's and every mount's, are pairwise distinct if and only if no mount lists again what one before it lists for a plane without a name |
| `MountNames.ResolvesWhatIsListed` | crates/dr-strange-core/src/instance.rs:66-74 | What resolves is what is listed, planes without a name under a prefix aside, and besides it only `name/startup` for each prefixed mount |
| `MountNames.StartupAnswersUnlisted` | crates/dr-strange-core/src/instance.rs:66-74 | A prefixed mount beside a host without that name answers for `name/startup`, and does not list it |
| `MountNames.EmptyPlaneNameListedTwice` | crates/dr-strange-core/src/instance.rs:66-74 | Two accepted mounts that list the same name, when one has a plane without a name under a prefix |
| `MountRecord.RecordReadsBack` | crates/dr-strange-core/src/instance.rs:505-558 | Mounts written to the startup plane read back in order, and no other property changes |
| `MountRecord.RememberNew` | crates/dr-strange-core/src/instance.rs:567-579 | Remembering an unrecorded name adds it last |
| `MountRecord.Forgotten` | crates/dr-strange-core/src/instance.rs:581-583 | Whatever was recorded, forgetting a name leaves every other record, in order, nothing of that name, and no other property changed |
| `MountRecord.Written` | crates/dr-strange-core/src/instance.rs:567-579 | Whatever was recorded, remembering puts the record in place of the first of its name, or last when there is none, and changes nothing else |
| `MountRecord.ForgetAbsent` | crates/dr-strange-core/src/instance.rs:581-583 | Forgetting a name not recorded changes nothing |
| `Instances.Instance.ServingPlane` | crates/dr-strange-core/src/instance.rs:233-253 | The loop over the table resolves as `Resolve`; a plane of the host is never shadowed |
| `Instances.Instance.Planes` | crates/dr-strange-core/src/instance.rs:256-272 | The loop over the table lists the host's planes and then each mount's |
| `Instances.Instance.Judge` | crates/dr-strange-core/src/instance.rs:288-367 | The checks of a mount, in order, with the loops over planes and clashes, decide as `Decide` |
| `Instances.Instance.MountDatabase` | crates/dr-strange-core/src/instance.rs:288-387 | A refused mount changes nothing; an accepted one is added last, and when it is to be remembered is recorded in place of the first record of its name or last, nothing else changing; the table's invariant and the record in step are kept |
| `Instances.Instance.Unmount` | crates/dr-strange-core/src/instance.rs:397-425 | Removes exactly the mount of that name, or none; in either case, whatever the record, no record of that name is left, every other stays in order and no other property changes; the invariant and the record in step are kept |
| `Instances.Instance.Replay` | crates/dr-strange-core/src/instance.rs:434-452 | Whatever the record, comes to `ReplayAll`: each record in order is asked for like any mount, the accepted ones make the table and the refused ones are reported with their errors; the record is not touched |
| `MountRuns.RemovedTable` | crates/dr-strange-core/src/instance.rs:397-405 | A table without one of its mounts still satisfies its invariant |
| `MountRuns.ForgetUnmounted` | crates/dr-strange-core/src/instance.rs:397-406 | Forgetting an unmounted name leaves the record of exactly the mounts still remembered |
| `MountRuns.ReplayAccepts` | crates/dr-strange-core/src/instance.rs:434-450 | Each recorded mount, asked for again after those before it, is accepted as it was |
| `MountRuns.RestartsBringBack` | crates/dr-strange-core/src/instance.rs:288-452 | From an empty record, over any sequence of processes, each replaying what the one before left and then mounting and unmounting anything, refused requests among them: while no lock or grant stands in the way of the restarts, each process starts with exactly the mounts the one before was to remember, nothing failing, and ends with the record in step with its table |
| `MountRuns.BootBringsBack` | crates/dr-strange-core/src/instance.rs:434-452 | One restart over a record in step, with nothing in its way, brings back the mounts to remember, in order, reports nothing and is in step |
| `MountRuns.ReplayIsTable` | crates/dr-strange-core/src/instance.rs:434-452 | Whatever the record and whatever is refused, replaying leaves a table, and every record is mounted or reported |
| `MountRuns.RunKeeps` | crates/dr-strange-core/src/instance.rs:288-425 | Any run of mounts and unmounts keeps the invariant and the record in step |
| `Instances.RunSessions` | crates/dr-strange-core/src/instance.rs:288-452 | Processes run one after another end where `EndOf`, the fold of their steps, says |
| `Frames.ClientFrameIsMinimal` | sdk/go/watch.go:278-289 | The length form written is the smallest that holds the payload (section 5.2 of RFC 6455) |
| `Frames.XoredTwice` | sdk/go/watch.go:290-347 | Masking twice with the same key gives the payload back (section 5.3 of RFC 6455) |
| `Frames.BigEndianReadsBack` | sdk/go/watch.go:283-326 | A length written most significant byte first reads back |
| `Frames.TwoBytes` | sdk/go/watch.go:283-285 | Of the two bytes of a length the first weighs 256 |
| `Frames.EightBytes` | sdk/go/watch.go:286-289 | Of the eight bytes of a length each weighs 256 times the next |
| `Frames.ClientFrameBytes` | sdk/go/watch.go:277-297 | What the client writes is final and masked, the key before the payload, each byte of it under the key (section 5.3 of RFC 6455) |
| `Frames.TooBigIsExact` | sdk/go/watch.go:328-332 | The two-part size test, one part of it in 64-bit arithmetic that may wrap, passes exactly when the message stays within the bound |
| `Frames.ReadFrame` | sdk/go/watch.go:306-347 | A frame that is read consumes at least two bytes and never takes the message past the bound |
| `Framing.FrameReadsBack` | sdk/go/watch.go:277-347 | Any frame, whatever its length form and mask, reads back as itself and stops at its end; one too big is refused with its body unread |
| `Framing.CutFrame` | sdk/go/watch.go:306-342 | Any frame cut short is an error: the end of the stream when cut where a field would begin, a broken read anywhere else |
| `Framing.ReadsPast` | sdk/go/watch.go:303-363 | Fragments, pings and pongs are passed over in any mixture, adding exactly the non-control payloads and one pong per ping |
| `Framing.ReadsToFirstStop` | sdk/go/watch.go:303-363 | One read of any stream of frames: the payloads through the first final fragment, the end of stream at a close, or the size error, whichever comes first, with every ping before it answered in order |
| `Framing.MessageWithin` | sdk/go/watch.go:303-363 | On any bytes at all, well formed or not, a message returned is within `MaxFrameBytes` |
| `Framing.MessagesReadBack` | sdk/go/watch.go:277-363 | Any list of payloads up to the bound, written as text frames with any masks, reads back as that list and stops exactly at its end |
| `Connection.Unmask` | sdk/go/watch.go:343-347 | The in-place loop over the buffer is the mask applied to its old contents |
| `Connection.Header` | sdk/go/watch.go:278-289 | The header built is the one whose length form `FormFor` chooses |
| `Connection.WsConn.WriteFrame` | sdk/go/watch.go:277-299 | What is written is one client frame with that opcode and payload and some mask, after everything written before |
| `Connection.WsConn.ReadText` | sdk/go/watch.go:303-363 | The loop returns what `ReadFrom` makes of the bytes, leaves what it leaves, and has sent exactly its pongs |
| `Connection.PongLegalIff` | sdk/go/watch.go:351-354 | A pong sent is a control frame section 5.5 of RFC 6455 allows if and only if the ping it answers has at most 125 bytes |
| `Connection.PingEchoed` | sdk/go/watch.go:348-354 | Any ping within the message bound, however long, is answered with its own payload |
| `JsonRoundTrip.ValueReadsBack` | crates/dr-strange-core/src/json.rs:27-79 | Any value, nested to any depth and with any keys, the markers `$value`, `$desc`, `$vector`, `$bytes` and `$map` among them, reads back as itself if and only if every float in it is finite |
| `JsonRoundTrip.DescReadsBack` | crates/dr-strange-core/src/json.rs:70-81 | The same for described properties |
| `JsonRoundTrip.EncodingIsInjective` | crates/dr-strange-core/src/json.rs:168-194 | Different finite values have different JSON |
| `JsonRoundTrip.DescEncodingIsInjective` | crates/dr-strange-core/src/json.rs:222-227 | Different finite properties have different JSON |
| `JsonRoundTrip.EscapedMap` | crates/dr-strange-core/src/json.rs:178-192 | A map whose keys would read as markers is escaped, and reads back as the map all the same |
| `JsonRoundTrip.NeverDescribed` | crates/dr-strange-core/src/json.rs:168-194 | No value encodes as an object with a `$value` key, so a bare value is never taken for a described one |
| `JsonRoundTrip.NonFiniteIsLost` | crates/dr-strange-core/src/json.rs:168-173 | A float that is not finite reads back as null |
| `JsonRoundTrip.IntegersDecode` | crates/dr-strange-core/src/json.rs:31-38 | A whole number that fits 64 signed bits is read as it is; above that it is refused, not wrapped |
| `JsonRoundTrip.VectorOfIntegers` | crates/dr-strange-core/src/json.rs:139-150 | Whole numbers in a vector are read as the floats they are |
| `JsonRoundTrip.BytesDecode` | crates/dr-strange-core/src/json.rs:152-164 | Bytes are exactly whole numbers of 0 to 255, and read as them |
| `NodeJson.MarkersAreMarkers` | crates/dr-strange-core/src/json.rs:273-285 | Every marker written for a dimension is recognised as one |
| `NodeJson.MarkerIff` | crates/dr-strange-core/src/json.rs:273-285 | Nothing is a marker but the head, a number that fits, and the tail |
| `NodeJson.NodeNeedsOnlyId` | crates/dr-strange-core/src/json.rs:102-137 | A node needs an id and nothing else |
| `NodeJson.NodeReadsBack` | crates/dr-strange-core/src/json.rs:102-137 | The full form reads back as the same node if and only if no top-level text is itself a vector marker; otherwise as the node less exactly those |
| `NodeJson.LeanNodeReadsBack` | crates/dr-strange-core/src/json.rs:239-309 | The lean form reads back as the node less exactly its top-level vectors under the same condition |
| `Revisions.ParseRev` | crates/dr-strange-core/src/rev.rs:68-94 | The loop over steps parses a trimmed text to exactly what the grammar of bases and steps reads in it |
| `Revisions.BaseMeans` | crates/dr-strange-core/src/rev.rs:97-118 | A base parses to exactly what it means: what stands before the first `@{`, or HEAD, at the date there; `HEAD` and `@` as HEAD; a bare date as HEAD at it; anything else as a name |
| `Revisions.BaseRefused` | crates/dr-strange-core/src/rev.rs:97-105 | A base is refused as empty exactly when it is, and for its date exactly when it means nothing |
| `Revisions.ParsesIff` | crates/dr-strange-core/src/rev.rs:68-118 | A text parses to an expression exactly when it is a base and steps that mean it |
| `Decimals.TrimIs` | crates/dr-strange-core/src/rev.rs:69-69 | Trimming takes white space off both ends and nothing else |
| `Revisions.WrittenParses` | crates/dr-strange-core/src/rev.rs:68-118 | A base that parses, followed by steps each an operator and at most a 32-bit number, parses to the steps nested from the left; no number means one |
| `Revisions.ParsedIsWritten` | crates/dr-strange-core/src/rev.rs:68-118 | Nothing else parses: whatever does is such a base and such steps, and means those |
| `Revisions.PrintedParses` | crates/dr-strange-core/src/rev.rs:68-118 | A trimmed base without `~` or `^` followed by printed steps parses back to them |
| `History.History.FindParent` | crates/dr-strange-core/src/rev.rs:385-393 | The loop over PARENT edges returns the first whose order matches |
| `History.History.ParentIsFirst` | crates/dr-strange-core/src/rev.rs:385-393 | A commit's parent of an order is the first recorded with that order, and none when none is |
| `History.History.TakeStep` | crates/dr-strange-core/src/rev.rs:363-383 | The loop takes the steps of `StepFrom`, and says how far it got |
| `History.History.WalkBefore` | crates/dr-strange-core/src/rev.rs:340-361 | The capped loop answers as `BeforeInstant` |
| `History.History.BackAdds` | crates/dr-strange-core/src/rev.rs:363-383 | `~m` then `~n` is `~(m+n)`: the same commit or both fail, over any parent relation |
| `History.History.StepIdentities` | crates/dr-strange-core/src/rev.rs:363-383 | `^1` is `~1`; `^0` and `~0` change nothing |
| `History.History.StepsResolve` | crates/dr-strange-core/src/rev.rs:363-383 | From the commit a base resolves to, `~k` is k first parents back and `^n` its parent of order n |
| `History.History.NamedSteps` | crates/dr-strange-core/src/rev.rs:238-252 | A named revision and its steps start from what the name resolves to, and HEAD's from HEAD |
| `History.History.BackToFirst` | crates/dr-strange-core/src/rev.rs:340-361 | The commit found is the first on the first-parent line at or before the instant, and one is found exactly when the line has one within the cap |
| `History.History.DatedResolves` | crates/dr-strange-core/src/rev.rs:238-252 | A dated revision is the first commit at or before the date, of the first 100,000 on the line |
| `History.History.FoundIsNewest` | crates/dr-strange-core/src/rev.rs:339-361 | When times never increase along the line, it is the newest such commit |
| `History.History.DatesCompose` | crates/dr-strange-core/src/rev.rs:238-252 | Dating at a and then at b is dating at the earlier, if and only if the two walks are not each under the cap of 100,000 visits and together at it or past it |
| `History.History.DatesDiffer` | crates/dr-strange-core/src/rev.rs:340-361 | Where they differ, the two walks find a commit and the one gives up |
| `History.DatesMayDiffer` | crates/dr-strange-core/src/rev.rs:340-361 | A line of 150,000 commits, one a second: dated at second 60,000 and then 10,000 it is a commit, dated at 10,000 alone nothing |
| `Versions.Compare` | crates/dr-strange-cli/src/update.rs:210-232 | The loop with its early return compares as `Cmp` |
| `Versions.CmpIsBelow` | crates/dr-strange-cli/src/update.rs:210-232 | Less exactly when the first differing component is smaller, missing ones being zero, or none differs and only the left is a pre-release; greater exactly the reverse |
| `Versions.CmpReverses` | crates/dr-strange-cli/src/update.rs:210-232 | Swapping the arguments reverses the answer, and a version equals itself |
| `Versions.CmpTransitive` | crates/dr-strange-cli/src/update.rs:210-232 | Transitive across padding and the pre-release tiebreak, so a total preorder |
| `Versions.NeitherBelow` | crates/dr-strange-cli/src/update.rs:210-232 | Equal exactly when all components agree after padding and both or neither carry a tag |
| `Versions.StandingMirrors` | crates/dr-strange-cli/src/update.rs:197-208 | One is behind the other exactly when the other is ahead of it; a version is current with itself |
| `Versions.StandingIsBelow` | crates/dr-strange-cli/src/update.rs:197-208 | Behind is exactly being below, ahead exactly being above |
| `Versions.KeyOfWritten` | crates/dr-strange-cli/src/update.rs:211-221 | Dotted numbers are read as they are, and with a `-` or `+` after them as a pre-release of them |
| `Versions.NotANumberIsZero` | crates/dr-strange-cli/src/update.rs:216-219 | A component that is not a number counts as zero |
| `ShellQuote.QuotedIsOneWord` | crates/dr-strange-cli/src/update.rs:294-298 | Whatever a value contains, the shell reads its quoted form as that one word (sections 2.2.1 and 2.2.2 of the POSIX.1-2017 Shell Command Language) |
| `ShellQuote.QuoteReadsBack` | crates/dr-strange-cli/src/update.rs:296-298 | In any context a quoted value adds exactly itself to the word it stands in |
| `ShellQuote.InstallerTailSplits` | crates/dr-strange-cli/src/update.rs:259-292 | The `sh` line splits into the shell and exactly the intended arguments, whatever name, tag and directory contain |

## Left out

- CallsPath.ShortestCalls: past 20,000 nodes nearer than the target it may or may not be found; which is not stated.
- KeywordSearch.ScoresPositive: scores are real numbers and texts shorter than 2^32 tokens; rounding of 32-bit floats is not modelled, though `Search` holds for any addition and any gain.
- Instances.Instance.Replay: paths are strings and "the store is free" is a set of locked directories; canonicalisation and the grant's directory test are parameters.
- Visitors are functions on an explicit state, where the source's closures capture variables; the state types (`Search`, `Notes`, `Tally`) are values.
- Nodes are numbers below `usize::MAX` in count; `usize` is 64 bits.
- Errors of the store in the middle of a walk, a search or a revision, and all text rendering: notes, candidate listings, headings, hub and label tables.
- `trace`, `context` and the verbs across graphs: the walk theorems hold for their bounds, their own bookkeeping is formatting.
- The text analyser, the logarithm and the date parser are parameters: any function from text to terms, any function positive above one, any partial function from text to an instant.
- Library sorts are modelled by insertion into an ordered list, and map iteration order as any order.
- Index declarations by label and property, `drop_plane`, sidecar files and their encoding.
- Opening, locking and releasing stores, the wait for a lock to come free, the hook called on a mount, and concurrent calls: mount and unmount are atomic steps over fixed plane sets.
- The WebSocket handshake, deadlines, write errors and the source of masks: a mask is any four bytes, and writing does not fail.
- JSON text syntax: values are the tree a JSON library yields, numbers tagged as it tags them; widening and narrowing of floats are parameters that lose nothing on finite values.
- Which of several errors is reported first by the JSON decoder; malformed input is one refusal.
- `json_to_properties` and `properties_to_json` fill maps in a loop in the source and are map comprehensions here.
- How a name, a sha prefix and HEAD are looked up in the plane: parameters of `History`.
- The downloader half of the installer's line, `choose_bin`, `tag_version` and the PowerShell installer.
- The shell's reading of unquoted text is modelled for plain words, blanks, backslashes and single quotes; other special characters make the text unreadable to the model, and none is written unquoted.
- The vector index registry, attachments, remote access, the command line and the generated clients: thin layers over parts not shown or the same shapes again.
