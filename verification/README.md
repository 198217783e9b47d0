# Consensus core of zfx-subzero, modelled in Dafny

zfx-subzero runs an avalanche-style consensus over a DAG of transactions (`sleet`), over blocks
(`hail`), and over the liveness of peers (`ice`); its state machine for cells is `alpha`. This project
models the data structures and handlers behind those decisions and states what every operation keeps,
what whole runs guarantee, and, where a promise of the source does not always hold, exactly when it does.

`dafny verify dfyconfig.toml` checks all of it.

## Layout

| file | contents |
|---|---|
| `Basics.dfy`, `Graphs.dfy` | sequences and sums; reachability, inverses, acyclicity and restriction of finite graphs |
| `Dags.dfy` | the DAG: insertion, removal, conviction, traversals, Kahn's sort, shipping an ancestry |
| `Cells.dfy`, `ConflictGraphs.dfy` | cells, and the conflict graph as an index of a reference definition of conflicts |
| `Frontiers.dfy` | finality, the accepted frontier, pruning |
| `Sleets.dfy`, `SleetNode.dfy`, `SleetRuns.dfy` | the `sleet` state as a value, its handlers as a class, its runs |
| `Preferences.dfy`, `Rejections.dfy` | over runs: what a conflict set prefers and whose votes it takes over; what becomes of the rejected |
| `Supports.dfy`, `Scenes.dfy` | building runs: transactions arrive, gather children and votes, and become final |
| `Reissues.dfy`, `HaltRuns.dfy` | runs in which a removed or rejected transaction is issued again, or a rejection halts |
| `Sweeps.dfy`, `SweepLevels.dfy` | the sweep of `remove_conflicts`, over every iteration order |
| `DependencyGraphs.dfy`, `AlphaState.dfy` | ordering the cells of a block, and applying it |
| `BlockOrders.dfy` | when a block applies, and when that depends on the order of its cells |
| `CellOperations.dfy`, `Ledgers.dfy` | the operations that build cells; totals and validators, read off the outputs |
| `Ice.dfy`, `Liveness.dfy` | quorums and the reservoir of peers; what is held about a peer, read off its history |
| `Hail.dfy` | conflicting blocks by height |

## How the source is represented

- Hashes and output ids are collision-free names. A hash is ordered as a big-endian number where the
  order matters (`hail`). An output index is a byte and wraps where the source casts it.
- Code that updates fields in place is a class whose methods are specified by functions on values;
  theorems about runs are stated on those values.
- `HashMap` and `HashSet` iteration is an arbitrary choice, so contracts hold for every order. For
  `remove_conflicts`, where the order shows, the choices are a datatype of histories.
- Each actor handler is one atomic step. The outcome of a query, the committee, and clocks are
  parameters or events. The transaction store is a map from hash to transaction and status.
- `u8` counters are bytes with the source's bounds. Capacities are 64-bit; sums of them are unbounded
  in `AlphaState`, and 64-bit in `CellOperations`, where a precondition says that they do not overflow.
- A precondition of a method is where the source would panic (a missing vertex, a counter that
  overflows) or a representation invariant. Errors the source returns are results.

## Where the source does not do what it suggests

- `remove_conflicts` says that duplicates among the children are ignored (src/sleet/sleet.rs:342), but
  `remove_cell` fails on them first and ends the sweep (`Sweeps.LeftBehind`). `SweepLevels.SweepExact`
  says for which DAGs this cannot happen in any order.
- `insert_cell` overwrites the vertices of the outputs it produces; on an unknown input it stops half-way,
  with the cell recorded but no conflict set for it (`ConflictGraphs.ConflictGraph.InsertCell`). The
  index is then no longer exact: it misses spenders, or knows a cell without a conflict set.
  `SleetRuns.NextKeepsExact` has the exact condition, and `Reissues.ReissueOverwrites` is a run from an empty
  node, in which every announcement reports what queries made final, that ends in such a receipt. The
  index never records a false spender or conflict, and every theorem about runs but its exactness
  holds after such receipts too.
- A rejected transaction is meant to stay out, and does (`Rejections.RejectedForGood`), unless it is a child of
  another one rejected with it: then it can be met again in the queue and marked removed
  (`SweepLevels.RejectedStays` says exactly when), and is admitted when issued again, next to the accepted
  transaction that spends the same output (`Reissues.RejectedReturns`).
- A transaction that was removed and is issued again after its chit was set fails in the DAG after it has
  entered both structures, and the store still says removed (`SleetNode.Sleet.OnReceiveTx`,
  `Sleets.HalfReceiveKeepsOk`; a run that does this is `Reissues.ReissueFails`). Runs go on from there.
- A transaction may list a parent twice. `topological_sort` can then list a vertex more than once
  (`Dags.Dag.TopologicalSort`, which says when); `SleetRuns.NextKeepsNoRepeats` says which receipts do this.
- The pseudocode in src/sleet/README.md:36-37 sets the counter to one when `last` changes; the code
  leaves it alone, and the model follows the code.
- A rejected cell that is not in the DAG ends the rejection at once. The node stays consistent whatever
  the order if and only if the rejected cells are all in the DAG or all outside (`Sleets.HaltExact`);
  otherwise a DAG vertex can be left without a conflict set. The search for the frontier looks at it
  (`Sleets.LeftIsMet`) and panics if its status is pending or queried; any other status decides by itself.
  A run from an empty node after which this can happen is `HaltRuns.MixedHalt`.
- `State::apply` drops the map that `remove_intersection` builds, so cells stay live for good
  (`AlphaState.ApplyResolves`) and an output can be spent twice (`BlockOrders.SpentTwice`). Its error
  remains, so a cell that consumes two live cells completely is refused (`AlphaState.CollapsesWhen`). A
  cell without outputs stands under the empty key, which counts as consumed by every cell, so that the
  order in which a block lists its cells can decide whether it applies: `BlockOrders.OrderDecides` is such
  a block, `BlockOrders.EmptyCellExact` says exactly when this happens.
- `UnspendableCell` is never returned, and the fee is paid in full only if the residue covers it
  (`CellOperations.ConsumeFromCell`, `CellOperations.Conserves`): if and only if no first outputs of the
  owner hold the amount but not the fee (`CellOperations.FeeExact`; `CellOperations.FeeUnpaid` pays none).
- `process_outcome` is documented to say that the status of a peer has changed (src/ice/reservoir.rs:252); it says
  so only when the quorum confirms the choice held before (`Liveness.FlipsExact`).
- The bootstrap counter of `ice` is not the number of peers confirmed live: `Ice.CounterFollows` says by how
  much each event moves it away, `Ice.CounterRunsAway` is a run in which it is off without bound.

## Model

| member | source | states |
|---|---|---|
| Graphs.LeafAbove | src/sleet/sleet.rs:361-371 | in a finite acyclic graph every vertex is reachable from a leaf, so a search from all leaves meets everything |
| Graphs.AcyclicIsNoCycle | src/graph/dag.rs:41-67 | acyclic in the sense of ranks is the same as having no closed walk |
| Graphs.ReachInverse | src/graph/dag.rs:235-243 | reachability in the inverse graph is reachability read backwards |
| Dags.InsertKeepsDag | src/graph/dag.rs:41-67 | insertion, with every error path, leaves `g` and `inv` exact inverses, closed and acyclic if and only if the vertex is new and its parents are present, or it is not new and no inverse edge was pushed |
| Dags.InsertSucceeds | src/graph/dag.rs:41-67 | a new vertex with present parents is inserted, with chit 0, unless its old chit is 1 |
| Dags.RemoveKeepsDag | src/graph/dag.rs:86-117 | removing a vertex keeps the DAG well formed |
| Dags.RestrictKeepsDag | src/sleet/sleet.rs:382-387 | so does removing any set of vertices |
| Dags.Dag.constructor | src/graph/dag.rs:34-36 | starts empty |
| Dags.Dag.InsertVx | src/graph/dag.rs:41-67 | the whole new state and the result, including the states that errors leave behind |
| Dags.Dag.HasVertices | src/graph/dag.rs:70-82 | succeeds if and only if all are present; otherwise lists exactly the missing ones, in order |
| Dags.Dag.RemoveVx | src/graph/dag.rs:86-117 | removes the vertex and its edges from both maps, returns exactly its children, keeps the chits |
| Dags.Dag.GetChit | src/graph/dag.rs:120-125 | the chit, or `UndefinedChit` |
| Dags.Dag.SetChit | src/graph/dag.rs:128-144 | a chit of 1 is never replaced |
| Dags.Dag.Conviction | src/graph/dag.rs:148-182 | the sum of the chits of the progeny, each counted once however many paths lead to it; `UndefinedChit` only if a chit is missing; with no chit missing, `ChitOverflow` if and only if that sum exceeds a byte |
| Dags.Dag.Bfs | src/graph/dag.rs:185-215 | each ancestor-or-self exactly once |
| Dags.DepthFirst.constructor | src/graph/dag.rs:298-308 | starts with the root on the stack and nothing yielded |
| Dags.DepthFirst.Next | src/graph/dag.rs:317-345 | yields a new ancestor each time, the root first, and stops only when all have been yielded |
| Dags.Dag.Dfs | src/graph/dag.rs:218-220 | the iterator yields exactly the ancestors-or-self, each once; nothing for an absent vertex |
| Dags.Dag.Leaves | src/graph/dag.rs:224-232 | exactly the vertices without children |
| Dags.Dag.Roots | src/graph/dag.rs:241-259 | the leaves of the inverted DAG are exactly the vertices without parents |
| Dags.Dag.TopologicalSort | src/graph/dag.rs:257-279 | on every DAG Kahn's algorithm terminates with exactly the vertices, by growing height, every parent before each place of its children; each vertex once if every parent listed twice is below another parent of that vertex; a vertex that lists twice the parent above all its others comes more than once (with several highest parents the order of the roots decides) |
| Dags.Dag.GetAncestors | src/graph/dag.rs:246-252 | exactly the strict ancestors, parents before children; once each if no parent is listed twice |
| Dags.Dag.ShipAncestry | src/sleet/sleet.rs:1080-1143 | inserting the shipped ancestors in the order sent, known ones skipped, then the vertex, into an empty DAG never meets a missing parent and rebuilds exactly the sub-DAG of its ancestry |
| Dags.ShippingOrder | src/graph/dag.rs:246-279 | the ancestors in the order of `get_ancestors`, then the vertex, list its whole ancestry with every parent before its children |
| Dags.ShippedIsRestriction | src/graph/dag.rs:246-279 | the DAG rebuilt from that list is the original restricted to the ancestry |
| ConflictGraphs.InsertKeepsExact | src/graph/conflict_graph.rs:78-127 | a successful insertion keeps the index exact if and only if no present cell, nor the new one, consumes an output the new one produces |
| ConflictGraphs.HalfInsertKeepsSound | src/graph/conflict_graph.rs:78-96 | an insertion that stops at an unknown input, whichever inputs it had recorded by then, leaves a sound index that is not exact |
| ConflictGraphs.RemoveKeepsExact | src/graph/conflict_graph.rs:165-215 | removing any set of cells keeps the index exact |
| ConflictGraphs.RemoveMore | src/graph/conflict_graph.rs:165-215 | removals compose, so their order does not show |
| ConflictGraphs.AcceptIsolates | src/graph/conflict_graph.rs:133-162 | after acceptance the index is exact, the cell is alone in its conflict set with its confidence kept, exactly the cells sharing an input with it are gone, and every other set lost only those |
| ConflictGraphs.AcceptSpender | src/graph/conflict_graph.rs:133-162 | the accepted cell is the only spender of each of its inputs |
| ConflictGraphs.AcceptOutput | src/graph/conflict_graph.rs:133-140 | each output of the accepted cell has status accepted |
| ConflictGraphs.OutputFate | src/graph/conflict_graph.rs:68-215 | the status of every output after every call: announced ones are accepted, those of a cell that enters pending, those of an accepted cell accepted, those of its conflicts and of removed cells rejected, and no other changes |
| ConflictGraphs.StepKeepsSound | src/graph/conflict_graph.rs:68-296 | every call that returns, also an insertion that fails half-way, keeps the index sound: `cs` and the insertion order name the same cells without repeats, recorded spenders do consume the output, conflict sets hold their owner and only cells sharing an input with it, mutually; it keeps an exact index exact if and only if it is no insertion that fails or overwrites outputs being spent |
| ConflictGraphs.RunKeepsExact | src/graph/conflict_graph.rs:68-296 | so through every sequence of calls that return the index is sound, and as long as no insertion fails half-way or overwrites each conflict set is exactly the present cells sharing an input with its owner plus the owner, and spenders are exactly the present consumers |
| ConflictGraphs.ConflictGraph.constructor | src/graph/conflict_graph.rs:52-63 | starts with the genesis outputs, unspent and accepted |
| ConflictGraphs.ConflictGraph.Append | src/graph/conflict_graph.rs:68-75 | adds unspent outputs and overwrites none |
| ConflictGraphs.ConflictGraph.InsertCell | src/graph/conflict_graph.rs:78-127 | the new state and each error; the index stays sound in every case; success keeps it exact if and only if nothing present spends the outputs; the new conflict set holds every recorded spender of the inputs and takes preference, last vote and counter from the first of them in the order of insertion; an unknown input leaves the cell recorded as spender of some of its inputs and without a conflict set |
| ConflictGraphs.ConflictGraph.RemoveCell | src/graph/conflict_graph.rs:165-195 | removes exactly the cell, or fails without a change |
| ConflictGraphs.ConflictGraph.RemoveFromVertices | src/graph/conflict_graph.rs:198-215 | withdraws the spender and marks the outputs rejected |
| ConflictGraphs.ConflictGraph.AcceptCell | src/graph/conflict_graph.rs:133-162 | returns exactly the former conflicts, each once, and the state with all of them removed |
| ConflictGraphs.ConflictGraph.UpdateConflictSet | src/graph/conflict_graph.rs:258-279 | the preference moves to the cell if and only if it has more conviction than the preferred one; last vote and counter after a vote; the counter stops at BETA2 |
| ConflictGraphs.ConflictGraph.ResetCount | src/graph/conflict_graph.rs:284-296 | the counter is zero and nothing else changed |
| Frontiers.PruneKeepsFinality | src/sleet/sleet.rs:376-388 | the survivors are exactly the vertices not yet final and the frontier, and finality of every survivor is what it was |
| Frontiers.PruneKeepsConviction | src/sleet/sleet.rs:376-388 | progeny and conviction of every vertex not yet final are what they were |
| Frontiers.CoveringIsFrontier | src/sleet/sleet.rs:356-373 | final vertices that cover every final vertex met from the leaves cover all final vertices |
| Frontiers.FinalClosed | src/sleet/sleet.rs:303-310 | every ancestor of a final vertex is final |
| Sleets.ParentsPresent | src/sleet/sleet.rs:137-192 | for a new transaction that passes the parent check, every parent kept is in the DAG, and none is the transaction itself, even if it names its own hash, unless its cell is in the conflict graph already |
| Sleets.ReceiptAnswers | src/sleet/sleet.rs:137-164 | when a receipt is answered that it is known, that ancestry is missing, that it is inserted, or that an old chit refuses it, by stored status, parents, inputs and chit |
| Sleets.ReceiveKeepsOk | src/sleet/sleet.rs:137-174 | every receipt that succeeds keeps DAG, conflict graph and store well formed and coupled |
| Sleets.HalfReceiveKeepsOk | src/sleet/sleet.rs:167-174 | so does one that fails in the DAG on an old chit; the vertex is then in the DAG and has a conflict set while the store says removed |
| Sleets.FailedInsertKeepsOk | src/sleet/sleet.rs:167-174 | and so does one that fails in the conflict graph on an unknown input |
| Sleets.ReceiveKeepsExact | src/sleet/sleet.rs:137-174 | a receipt that gets as far as the DAG keeps an exact conflict graph exact if and only if the outputs produced are unspent |
| Sleets.MarkingKeepsAcc | src/sleet/sleet.rs:395-408 | marking final transactions accepted never changes which transactions are accepted |
| Sleets.AncestorsMarked | src/sleet/sleet.rs:395-408 | right after the check every ancestor of a newly accepted transaction is marked accepted |
| Sleets.QuerySuccessKeepsOk | src/sleet/sleet.rs:716-747 | a successful query keeps the invariant |
| Sleets.QueryFailureKeepsOk | src/sleet/sleet.rs:691-695 | so does a failed one |
| Sleets.ShrinkKeepsOk | src/sleet/sleet.rs:327-350 | accepting a cell and taking its conflicts and any of their progeny out of both structures, the former marked rejected and the latter removed, keeps the invariant: every remaining DAG vertex still has a conflict set |
| Sleets.HaltKeepsOk | src/sleet/sleet.rs:327-336 | a rejection that stops at a cell outside the DAG keeps the invariant if and only if it leaves no rejected cell in the DAG |
| Sleets.HaltExact | src/sleet/sleet.rs:327-336 | it keeps the invariant for every order of the rejected cells if and only if they are all in the DAG or all outside |
| Sleets.BadHalt | src/sleet/sleet.rs:327-336 | if one rejected cell is outside the DAG and another inside, some order leaves the latter there without a conflict set, its stored status unchanged |
| Sleets.LeftIsMet | src/sleet/sleet.rs:356-373 | such a vertex, if pending or queried, is reachable from a leaf and above nothing final, so every search for the frontier looks at it |
| Sleets.AcceptStepKeepsOk | src/sleet/sleet.rs:327-350 | accepting a cell keeps the invariant, whether its conflicts are swept out, the sweep stops early, or the rejection stops with no rejected cell left in the DAG |
| Sleets.PruneInvisible | src/sleet/sleet.rs:376-388 | pruning is invisible to consensus: the survivors are the transactions not yet accepted plus the frontier, `is_accepted` is unchanged for each of them, conviction for each not yet accepted |
| Sweeps.SweepInside | src/sleet/sleet.rs:327-350 | only rejected vertices and their progeny are removed or queued, and no child of a removed vertex is forgotten |
| Sweeps.RejectedQueued | src/sleet/sleet.rs:327-350 | a rejected vertex comes into the queue only as a child of a rejected one |
| Sweeps.SweepComplete | src/sleet/sleet.rs:327-350 | a sweep that runs to its end removes exactly the rejected vertices and all their progeny |
| Sweeps.SweepOutcome | src/sleet/sleet.rs:338-347 | a sweep runs to its end if and only if nothing is queued twice or after being rejected |
| Sweeps.SweepAlwaysStops | src/sleet/sleet.rs:338-347 | with two rejected parents of one vertex no order lets the sweep run to its end |
| Sweeps.LeftBehind | src/sleet/sleet.rs:338-347 | a DAG and an order for which progeny of a rejected vertex stays |
| SweepLevels.Levels | src/sleet/sleet.rs:327-350 | the distance from the rejected vertices is defined for every DAG |
| SweepLevels.SweepExact | src/sleet/sleet.rs:327-350 | whatever the iteration order, the sweep runs to its end with exactly the rejected vertices and their progeny removed, if and only if no rejected vertex is a parent of another and every other vertex to remove has a single parent no farther from the rejected ones than itself |
| SweepLevels.RejectedStays | src/sleet/sleet.rs:327-350 | whatever the iteration order, a rejected vertex is not met again, and so stays marked rejected, if and only if it is no child of a rejected one |
| SleetNode.Sleet.IsAcceptedTx | src/sleet/sleet.rs:281-300 | the status decides if it is accepted, rejected or removed; otherwise BETA2 votes, or BETA1 without a conflict |
| SleetNode.Sleet.IsAccepted | src/sleet/sleet.rs:303-310 | true if and only if every ancestor-or-self is accepted |
| SleetNode.Sleet.IsAcceptedMemo | src/sleet/sleet.rs:315-323 | equals a fresh `is_accepted`, and keeps the memo so |
| SleetNode.Sleet.ComputeAcceptedFrontier | src/sleet/sleet.rs:356-373 | for any leaf and search order, the ancestors-or-self of the frontier are exactly the accepted transactions of the DAG |
| SleetNode.Sleet.PruneAtAcceptedFrontier | src/sleet/sleet.rs:376-388 | removes exactly the strict ancestors of the frontier that are not on it |
| SleetNode.Sleet.ComputeAcceptedTxs | src/sleet/sleet.rs:395-408 | returns and marks exactly the ancestors-or-self whose whole ancestry is accepted and that are not marked yet, each once |
| SleetNode.Sleet.UpdateAncestralPreference | src/sleet/sleet.rs:257-267 | exactly the conflict sets of the ancestors-or-self are updated, each once, with the convictions of the moment |
| SleetNode.Sleet.ResetAncestorConfidence | src/sleet/sleet.rs:271-276 | exactly the counters of the ancestors-or-self are reset |
| SleetNode.Sleet.QueryComplete | src/sleet/sleet.rs:716-747 | the step a query makes, with the newly accepted transactions; the invariant is kept |
| SleetNode.Sleet.QueryIncomplete | src/sleet/sleet.rs:691-695 | the step a failed query makes; the invariant is kept |
| SleetNode.Sleet.HasAllParents | src/sleet/sleet.rs:178-185 | every parent is in the DAG or accepted |
| SleetNode.Sleet.OnReceiveTx | src/sleet/sleet.rs:137-164 | the result and the whole new state for every transaction: unchanged, received, entered in both structures but refused by the DAG for its old chit, or recorded with an unknown input; the invariant is kept in every case |
| SleetNode.Sleet.Insert | src/sleet/sleet.rs:167-174 | both structures and the answer in each case: a duplicate changes nothing, an unknown input leaves the DAG alone and the cell half recorded, any error of the DAG leaves the cell in the conflict graph |
| SleetNode.Sleet.RemoveConflicts | src/sleet/sleet.rs:327-350 | terminates; with all rejected cells in the DAG, what is gone is a sweep's, the rejected cells are marked rejected but for the one, if any, at which the sweep stopped, everything else that is gone is marked removed, the result says whether the sweep ran to its end, which it does if the DAG is orderly, and the invariant is kept; otherwise the state in which it stopped, for some order of the rejected cells; the invariant is kept whenever every DAG vertex still has a conflict set, as it has if the rejected cells are all outside |
| SleetNode.Sleet.NewAccepted | src/sleet/sleet.rs:763-784 | for any announced transactions that are stored, their conflicts are removed in turn and then the DAG is pruned at a frontier, with the invariant kept; or a rejection halts with a DAG vertex left without a conflict set, which cannot happen if the cells each one rejects are all in the DAG or all outside |
| SleetNode.Sleet.constructor | src/sleet/sleet.rs:103-127 | starts empty, which is the state runs start from |
| SleetRuns.NextKeepsOk | src/sleet/sleet.rs:137-192 | every step keeps the invariant, receipts that fail half-way included |
| SleetRuns.FirstTransaction | src/sleet/sleet.rs:642-672 | a run exists in which an announced output is spent by a first transaction |
| SleetRuns.RunKeepsOk | src/sleet/sleet.rs:137-192 | in every run of the handlers, through receipts that fail half-way, `g` and `inv` are exact inverses, closed and acyclic, the conflict graph records no false spender or conflict, and every DAG vertex has a conflict set and a stored transaction |
| SleetRuns.NextKeepsExact | src/sleet/sleet.rs:137-174 | a step keeps an exact conflict graph exact if and only if it is no receipt that enters a transaction whose outputs are being spent or meets an unknown input |
| SleetRuns.RunKeepsExact | src/sleet/sleet.rs:137-174 | without such a receipt the conflict graph is exact throughout |
| SleetRuns.NextKeepsNoRepeats | src/sleet/sleet.rs:137-192 | a step keeps every parent of the DAG listed once if and only if it is no receipt of a transaction that lists a parent, not accepted yet, twice |
| SleetRuns.RunKeepsNoRepeats | src/sleet/sleet.rs:137-192 | without such a receipt no parent is ever listed twice |
| SleetRuns.ConfidenceIsStreak | src/sleet/sleet.rs:257-276 | in every run the counter of a transaction is exactly, capped at BETA2, the number of counting successes since the last failure, plus the counter it took over on entry if there was none: queries count that are on it or a descendant it had at the time, except the first success while the last vote in its conflict set is for another transaction; one that entered without a conflict takes over nothing and every success counts |
| SleetRuns.StreakIsSuffix | src/sleet/sleet.rs:257-276 | the streak is the largest number of most recent queries that all succeeded |
| SleetRuns.AcceptedAfterStreak | src/sleet/sleet.rs:281-300 | in every run a transaction that entered without a conflict is newly accepted only after BETA1 such successes in a row, BETA2 if it has a conflict by then |
| Preferences.QueryPrefers | src/sleet/sleet.rs:257-267 | after a successful query every ancestor-or-self prefers whichever has more conviction, itself or what it preferred, the latter if equal; no other preference moves |
| Preferences.VoteRaises | src/graph/dag.rs:148-182 | a successful query raises the conviction of exactly its ancestors-or-self, by one |
| Preferences.PrefersLeader | src/graph/conflict_graph.rs:258-279 | in every run a transaction prefers itself if and only if it did on entry, has been announced since, or has outweighed what it preferred on entry when a query on it or a descendant succeeded; otherwise it prefers what it did on entry |
| Preferences.OrderIsAge | src/graph/conflict_graph.rs:105 | in every run the order of insertion lists exactly the cells with a conflict set, the one that has been there longest first |
| Preferences.EntryFromOldest | src/graph/conflict_graph.rs:107-124 | in every run a transaction that enters with conflicts takes preference, last vote and counter from the one of them that has been there longest; one without starts with its own preference and no votes |
| Rejections.RejectedStatus | src/sleet/sleet.rs:327-350 | after a sweep each rejected cell is marked rejected and can never come back, unless it is a child of another rejected one and was met again: then it is marked removed |
| Rejections.HaltBars | src/sleet/sleet.rs:327-336 | a rejection that halts has marked the cells up to the one outside the DAG, and none of them can come back; the rest keep their status |
| Rejections.StatusStep | src/sleet/sleet.rs:137-408 | every step, seen from the status of one transaction: which event writes what, and that nothing else does |
| Rejections.BarredForGood | src/sleet/sleet.rs:137-164 | in every run a known transaction that is not marked removed and is in neither structure stays so |
| Rejections.RejectedForGood | src/sleet/sleet.rs:137-164 | in every run what an announced transaction rejects, all of it being in the DAG, is never admitted again, unless it was a child of another rejected one |
| Reissues.ReissueOverwrites | src/graph/conflict_graph.rs:78-127 | a run from an empty node, every announcement of which reports transactions that queries made final, after which a removed transaction is received again and the record that another one spends its output is lost |
| Reissues.ReissueFails | src/graph/dag.rs:128-144 | such a run after which a removed transaction is refused, its chit having outlived the removal; it is then in the DAG and the conflict graph, the invariant holds and the store says removed |
| Reissues.RejectedReturns | src/sleet/sleet.rs:338-341 | such a run after which a rejected transaction, a child of another one, is received again while the accepted transaction spending the same output is present |
| HaltRuns.MixedHalt | src/sleet/sleet.rs:327-336 | such a run after which the transaction to announce next rejects one cell in the DAG and one outside, and an order in which the former is left without a conflict set and with an open status |
| DependencyGraphs.HasInboundEdges | src/graph/dependency_graph.rs:17-24 | whether some cell consumes from the given outputs |
| DependencyGraphs.InsertKeepsRoots | src/graph/dependency_graph.rs:41-62 | after any insertion `roots` is again exactly the cells nothing consumes from, each once |
| DependencyGraphs.CompleteIffAcyclic | src/graph/dependency_graph.rs:66-99 | the sorted list holds every cell if and only if there is no cycle, and leaves out exactly the largest set that feeds on itself |
| DependencyGraphs.RankedIsAcyclic | src/graph/dependency_graph.rs:66-99 | any rank that grows along consumption rules cycles out |
| DependencyGraphs.DependencyGraph.constructor | src/graph/dependency_graph.rs:27-29 | starts empty |
| DependencyGraphs.DependencyGraph.Insert | src/graph/dependency_graph.rs:31-64 | adds the cell and keeps `roots` exact and in order of insertion, or reports a duplicate without a change |
| DependencyGraphs.DependencyGraph.Topological | src/graph/dependency_graph.rs:66-99 | terminates, never with `UndefinedCell`; no repeats, every producer before all its consumers; complete if and only if acyclic; the list is one that the stack of roots allows |
| DependencyGraphs.BottomIsLast | src/graph/dependency_graph.rs:66-99 | whatever order freed vertices are pushed in, a vertex at the bottom of the stack is listed before everything it does not depend on |
| DependencyGraphs.DependencyGraph.TopologicalCells | src/graph/dependency_graph.rs:101-113 | the given cells in that order; a rearrangement in which nothing is consumed before it is produced, if they are the cells inserted and acyclic |
| DependencyGraphs.FlattenedOrders | src/graph/dependency_graph.rs:101-113 | for an acyclic set of cells listed in any order, the result is a rearrangement of them in which nothing is consumed before it is produced |
| DependencyGraphs.BuiltPermutes | src/graph/dependency_graph.rs:31-64 | the graph does not depend on the order of insertion |
| AlphaState.Resolve | src/alpha/state.rs:63-91 | finds exactly the inputs that are live, the outputs they name, and as capacity the sum of those outputs, each counted once |
| AlphaState.RejectionFirst | src/cell/output.rs:79-106 | the error is that of the first output that consumes its own type, and there is none if and only if no coinbase or stake output does |
| AlphaState.VerifyOutputs | src/alpha/state.rs:98-110 | the loop over outputs and consumed outputs finds that error |
| AlphaState.RemoveIntersection | src/alpha/state.rs:179-195 | fails if and only if two live cells would be left with the same ids |
| AlphaState.CollapsesWhen | src/alpha/state.rs:179-195 | which is the case if and only if two live cells are consumed completely |
| AlphaState.CollapsesOne | src/alpha/state.rs:179-195 | a cell that consumes from one live cell is refused for it if and only if it consumes it completely while a cell without outputs is live |
| AlphaState.TallyIsCapacity | src/alpha/state.rs:115-140 | coinbase, staked and produced capacity add up to the capacity of all outputs, and there is coinbase only at height 0 |
| AlphaState.TallyOutputs | src/alpha/state.rs:115-140 | the loop computes that tally or the first error; what it holds is in `Ledgers.TalliedIs` and `Ledgers.TallyRefuses` |
| AlphaState.ApplyCell | src/alpha/state.rs:62-171 | one round of the loop, with every error in the order in which it is raised |
| AlphaState.AppliedBalances | src/alpha/state.rs:149-170 | a cell that is applied has capacity enough for its outputs; the totals grow by coinbase capacity or shrink by what is left over |
| AlphaState.NeverUndefined | src/alpha/state.rs:51-96 | in dependency order no input that is live or produced in the block is ever reported undefined |
| AlphaState.ApplyResolves | src/alpha/state.rs:62-147 | a block that applies had all its inputs; afterwards exactly its cells are live in addition |
| AlphaState.EqualStates | src/alpha/state.rs:142-170 | two orders that both apply leave the same live cells and totals and the same validators, up to order, whether or not cells have outputs |
| AlphaState.NoInflation | src/alpha/state.rs:149-170 | over a whole block capacity comes from coinbase outputs only, and from none unless the height is 0 |
| AlphaState.Apply | src/alpha/state.rs:51-173 | the block is applied in dependency order, in a listing that the stack of roots allows, whatever order it lists its cells in; duplicates are refused; no resolvable input is reported undefined |
| Ledgers.TalliedIs | src/alpha/state.rs:115-140 | a tally holds the sums of the outputs by type, and the node and capacity of every stake in the order of the outputs |
| Ledgers.TallyRefuses | src/alpha/state.rs:115-140 | it is refused if and only if there is a coinbase output above height 0 or a stake that does not decode, with the error of the first such output |
| Ledgers.AppliedExact | src/alpha/state.rs:62-171 | exactly when a cell is applied, by its inputs and the sums of its outputs; the error otherwise, the first reason first; the new total of spending capacity |
| Ledgers.ApplyRegisters | src/alpha/state.rs:129-135 | a block that applies appends the stakes of its cells, in the order of their application and outputs, to the validators, and adds their capacity to the staked total |
| Ledgers.ValidatorsAre | src/alpha/state.rs:129-135 | in whatever order the cells of the block come, each pair of node and capacity is registered once more for each output that stakes it |
| BlockOrders.AppliesIffAllPass | src/alpha/state.rs:62-171 | in dependency order a block applies if and only if each of its cells passes on its own against the final set of live cells, the cell without outputs counting from its place on |
| BlockOrders.OrderIrrelevant | src/alpha/state.rs:51-173 | two dependency orders of the same cells both apply or both fail, and leave the same state but for the order of the validators, if a cell without outputs is live already or the block has none |
| BlockOrders.OrderVerdict | src/alpha/state.rs:51-173 | of a block that applies in one order and brings a cell without outputs, another dependency order applies if and only if no cell behind that one consumes some cell completely |
| BlockOrders.EmptyCellExact | src/alpha/state.rs:51-173 | every listing that `apply` can come upon for such a block, in whatever order it lists its cells, applies if and only if the cell without outputs depends, directly or through others, on each other cell that consumes some cell completely |
| BlockOrders.OrderDecides | src/alpha/state.rs:51-173 | a block of which one dependency order applies and the other is refused, and for which `apply` can come upon a refused one |
| BlockOrders.SpentTwice | src/alpha/state.rs:62-171 | a block that applies still applies with one more cell that spends the inputs of one of its own |
| CellOperations.ConsumeFromCell | src/cell/cell_operation.rs:42-124 | refuses exactly what is documented, and otherwise consumes exactly the amount from the shortest run of the owner's outputs that covers it, distinct and in order, with the rest as residue |
| CellOperations.OwnedByExact | src/cell/cell_operation.rs:50-64 | the outputs considered are exactly the owner's, each once |
| CellOperations.NewOutputsSorts | src/cell/outputs.rs:65-69 | the outputs are sorted and a rearrangement of those given |
| CellOperations.CapacityPermutes | src/cell/outputs.rs:72-78 | the sum does not depend on the order |
| CellOperations.TransferFrom | src/alpha/transfer.rs:78-90 | the cell built: the inputs consumed, the amount for the recipient, the change beyond the fee |
| CellOperations.StakeFrom | src/alpha/stake.rs:74-87 | likewise with a stake output |
| CellOperations.Conserves | src/alpha/transfer.rs:78-90 | the capacity of the distinct outputs consumed equals that of the outputs produced plus the smaller of residue and fee |
| CellOperations.FeeExact | src/alpha/transfer.rs:78-90 | the fee is paid in full if and only if no first outputs of the owner, taken in order, hold the amount but not amount and fee |
| CellOperations.FeeUnpaid | src/alpha/transfer.rs:78-90 | two outputs of ten and an amount of ten: the operation is accepted and pays no fee |
| CellOperations.OperationApplies | src/alpha/state.rs:62-171 | a transfer built from a live cell is applied, and so is a stake unless it spends a stake, if and only if it was not applied before and does not consume the cell completely while a cell without outputs is live; the error otherwise; the totals drop by exactly the fee paid |
| Ledgers.OperationRegisters | src/alpha/stake.rs:74-87 | a stake that is applied registers its node with the amount and adds it to the staked total; a transfer does neither |
| Ledgers.BuiltOwners | src/alpha/transfer.rs:78-90 | who holds the cell built: the recipient or staking address the amount, the change address what is left beyond the fee, nobody else anything |
| Ice.Decide | src/ice/quorum.rs:41-61 | counts each responder once against the threshold, in whatever order |
| Ice.VerdictIsUnanimous | src/ice/quorum.rs:41-61 | a full quorum decides for a choice if and only if all its responders reported it |
| Ice.RunKeepsOk | src/ice/reservoir.rs:168-286 | in every run each open quorum holds exactly the first votes since the last one closed, fewer than K, and every conviction is backed by the history of its peer |
| Ice.ReportedIsAgreed | src/ice/reservoir.rs:58-111 | in every run a peer reported live had its last BETA1 quorums agree on `Live`, each by K distinct responders, with no failed ping or reset in between; a known peer is reported live once one more than that have agreed |
| Liveness.HeldIs | src/ice/reservoir.rs:76-286 | in every run the reservoir holds about each peer exactly what the events concerning it say: whether it is known, its address, the choice last spoken for (live on entry or on an answer while faulty, faulty after a failed ping, and what all responders of a closed quorum reported), the quorums that have agreed since, and the votes of the open quorum |
| Liveness.AgreeingCounts | src/ice/reservoir.rs:212-242 | conviction, for either choice, is the number of quorums since the last entry, answer, split quorum or change of choice, and all of them were unanimous for the choice held |
| Liveness.FlipsExact | src/ice/reservoir.rs:254-267 | an outcome is answered with a changed status if and only if it closes a quorum unanimous for its choice, the peer was held at that choice already, conviction is then at least BETA1 and at least K peers are counted as confirmed; so the choice held never changes then |
| Ice.CounterFollows | src/ice/reservoir.rs:212-242 | every event (bootstrap entry, sample, answered or failed ping) moves the difference between the bootstrap counter and the number of peers confirmed live by an amount read off the state before it; so an equal counter stays equal if and only if that amount is zero |
| Ice.QuorumDrifts | src/ice/reservoir.rs:212-242 | for a closing quorum it is one up if the peer is confirmed live already, one down if it becomes confirmed faulty and the counter is not zero, and nothing otherwise |
| Ice.CounterIs | src/ice/reservoir.rs:212-242 | in every run the counter is the number of peers confirmed live plus the sum of these amounts |
| Ice.CounterRunsAway | src/ice/reservoir.rs:212-242 | a run in which a single peer drives the counter past every bound |
| Ice.Reservoir.constructor | src/ice/reservoir.rs:27-34 | starts empty |
| Ice.Reservoir.Insert | src/ice/ice.rs:153-159 | enters a peer as live with no conviction, over any earlier entry |
| Ice.Reservoir.InsertNew | src/ice/reservoir.rs:83-88 | the same, unless there is an entry |
| Ice.Reservoir.UpdateToFaulty | src/ice/reservoir.rs:101-111 | a failed ping turns a live entry faulty, with no conviction (`Liveness.HeldIs`), and leaves a faulty one as it is |
| Ice.Reservoir.SetChoice | src/ice/reservoir.rs:91-97 | sets the choice of an entry that exists |
| Ice.Reservoir.ProcessQuery | src/ice/ice.rs:91-120 | the outcome reported; the reservoir never changes |
| Ice.Reservoir.ResetFaultyDecision | src/ice/reservoir.rs:168-176 | an answer turns a faulty entry live, with no conviction |
| Ice.Reservoir.ProcessQuorum | src/ice/reservoir.rs:188-208 | a responder's first vote counts, later ones do not |
| Ice.Reservoir.ProcessDecision | src/ice/reservoir.rs:212-242 | the entry, the counter and the quorums after a quorum closes |
| Ice.Reservoir.ProcessOutcome | src/ice/reservoir.rs:254-267 | one vote, the decision if it fills the quorum, and whether a status changed |
| Ice.Reservoir.Fill | src/ice/reservoir.rs:274-286 | the answers to a ping, one after the other |
| Ice.Reservoir.StrongEndpoint | src/ice/reservoir.rs:289-300 | an endpoint if and only if the choice is held with conviction BETA1 |
| Ice.Reservoir.GetLivePeers | src/ice/reservoir.rs:65-74 | exactly the peers held live with conviction BETA1 |
| Hail.LowestHash | src/hail/conflict_set.rs:59-73 | the lowest hash, whatever order the set is listed in |
| Hail.IsLowestHash | src/hail/conflict_set.rs:52-57 | whether it is the given one |
| Hail.MembersOnly | src/hail/conflict_map.rs:61-112 | in every run the conflict set of a height holds exactly the blocks inserted there, and `pref` and `last` are among them |
| Hail.HeightIs | src/hail/conflict_map.rs:61-112 | in every run the conflict set of a height is given by the blocks and votes there: the blocks inserted; as preference the block that last had the lowest hash with fewer than BETA1 repeated votes, or was voted for with more conviction since; the block voted for last; and the repeated votes since the preference last went to a lowest hash |
| Hail.RepeatsCount | src/hail/conflict_map.rs:90-112 | the counter is the number of votes, since that block, that repeat the vote before them |
| Hail.PrefersLowest | src/hail/conflict_map.rs:61-88 | with fewer than BETA1 votes at a height and none that moves the preference, the preferred block is the lowest hash, in whatever order the blocks come |
| Hail.SameBlocksSamePreference | src/hail/conflict_map.rs:61-88 | two nodes that saw the same blocks of a height, in any order, and no votes there, agree on everything but `last` |
| Hail.PreferenceLocked | src/hail/conflict_map.rs:61-112 | short of a vote with more conviction, the preference of a height outlasts every continuation of a run if and only if its confidence has reached BETA1 or no hash is lower |
| Hail.ConflictMap.constructor | src/hail/conflict_map.rs:20-22 | starts empty |
| Hail.ConflictMap.InsertBlock | src/hail/conflict_map.rs:61-88 | the new conflict set of the height |
| Hail.ConflictMap.UpdateConflictSet | src/hail/conflict_map.rs:90-112 | the conflict set after a vote, or an error for an unknown height |

## Left out

- Bootstrap and `FetchWithAncestry` of `sleet` (src/sleet/sleet.rs:443-549): they insert frontier vertices without parents and without conflict sets.
- `select_parents` and `is_strongly_preferred` of `sleet`, and the DAG, parent selection and acceptance of `hail`: they read the state and change none of what is modelled.
- Committees, weights, sampling and VRF sortition; the outcome of a query is a boolean.
- Networking, storage engines, serialization, signatures and unlock scripts; data that does not decode is a flag of an output.
- A claim that two conflicting transactions are never both accepted: it depends on the votes of the committee, and each cell counts on its own.
- That `Accepted` stays the status of a transaction: a later query writes `Queried` over it.
- SleetNode.Sleet.NewAccepted: stops where a rejection leaves a DAG vertex without a conflict set. If that vertex is pending or queried the search for the frontier panics; if its stored status is another one the source goes on, which is not modelled.
- Runs end where a call panics: at such a vertex, or at a receipt that would join the conflict set of a cell recorded without one.
- Output indices past 255 in a block: cells with more than 256 outputs share ids from the 257th on, and are outside `AlphaState`.
- Overflow of the 64-bit sums in `State::apply`: totals are unbounded integers, and may go below zero where the source would wrap or panic.
- The random queue and `sample` of the reservoir: they choose whom to ask and do not touch decisions or quorums.
- Coinbase operations, initial stakers and genesis construction: plain record building.
