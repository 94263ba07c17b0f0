# Verification of the credit kernel and its neighbours

The repository keeps a mutual-credit ledger. What an account may owe is a
maximum flow from underwriters' declared supply, along stake edges, into the
account; outstanding credit reserves exact arcs of that flow. This project
models that kernel — the network, the search, the reservation book and the
splitting of holds into routes — and proves what the economic claims rest on.
Six smaller self-contained pieces are modelled beside it.

- `arithmetic.dfy`, `sums.dfy`, `ordered.dfy`, `wrappers.dfy`: shared arithmetic,
  sums over sets and ranges, sorting, ordered maps and the merge cursor, options
  and results.
- `cuts.dfy`: the ledger graph as arcs, its cuts, minimum cuts, conserved flows.
  Capacity is defined here, without a network.
- `residual.dfy`: paired residual arcs, level graphs, blocking, and the
  current-arc walk. `augmenting.dfy` is what the search amounts to: the shortest
  route with room, of those the first laid, again and again. `network.dfy` is the
  class that builds and searches.
  `layout.dfy`, `csr.dfy` and `maxflow.dfy` connect the compacted network to the
  ledger graph.
- `drawn.dfy`, `priority.dfy`, `legs.dfy`: which arcs a search draws, on the
  network and on the ledger. `draws.dfy`, `nearest.dfy` and `detour.dfy` say what
  that makes of a reservation.
- `book.dfy`: edges, reservations, commitments and supply as one class; every
  query and update. `runs.dfy` is the state machine over its steps, `bounds.dfy`
  what any set of debtors can hold, `security.dfy` the coalition and separator
  statements. `routes.dfy` is splitting and rebuilding holds, `numbering.dfy`
  what splitting accepts however accounts are numbered, `splitting.dfy` cutting
  a hold along its routes, `rerouting.dfy` a reservation that costs more than it
  takes, `fading.dfy` repeated decay.
- `cascade.dfy`, `workers.dfy`, `schedule.dfy`, `proposer.dfy`, `tape.dfy`,
  `mempool.dfy`, `regossip.dfy`: the waterfilling allocators, the parallel day runner as
  interleaved steps, the day scheduler, validator sets and proposer selection,
  the crash-tolerant log, and the deduplicating mempool.

Capacity is measured on what is free (weight less reservation, supply less
commitment). The search is proved by cuts: each push takes the same amount from
every source/sink cut of the residual, so when an empty cut remains the amount
pushed is the minimum cut. Each phase is proved to end in a blocked level
graph, which is what makes the sink recede and bounds the phases.

Which hold a reservation takes is pinned down too. Breadth-first levels, blocking
phases and current arcs are a fast form of a search with neither: `Flow` ends
where repeated augmentation along the shortest route, and of those the one laid
first, ends. That end is unique, so equal state gives equal holds.

Where the code and its documentation disagree, the model follows the code:

- `decompose` documents that a conserved flow always decomposes. A conserved
  hold can contain a cycle, since edges (a, b) and (b, a) are separate arcs, and
  the walk may run into it and refuse. `Routes.ConservedButRefused` gives such a
  hold, and `Numbering.AcceptedHoweverNumberedExactly` says which holds are
  accepted whatever numbers their accounts have: the conserved ones without
  cycles, and no others.

Five laws whose short form is not the whole of them:

- A reservation lowers capacity by at least its amount, since an earlier hold is
  never rerouted for a later query. `Runs.CapacityFallsExactly` says when the
  fall is the amount, `Rerouting.FallsByMore` is a unit that costs two.
- What a set draws from underwriters outside it is within the cut that leaves
  its own underwriters out, for every set. Its whole debt is within that cut
  only where `Bounds.ExcludedBoundExactly` says, and always within the cut that
  counts them.
- Equal turns survive the wrap of the 64-bit sum exactly where
  `Proposers.FairWhereShifted` and `Proposers.FairExactly` say.
- An amount that fits on the shortest free routes is drawn over those alone where
  they have at most one stake edge (`Nearest.ShortestAlone`), and any amount the
  first of them carries is drawn over that one (`Drawing.NearestRouteDrawn`). For
  every greater number of edges there is a graph where it is not:
  `Detour.GoesRound`. With unit edges (0,2), (0,3), (1,2), (1,4), (2,5), (3,5),
  (4,3) and a unit from each of 0 and 1, two units for 5 fit on 0-3-5 and 1-2-5,
  and are drawn over 0-2-5 and 1-4-3-5.
- A committed transaction is refused again exactly as long as the memory lasts,
  and committing it a second time takes it no new place:
  `Regossip.FirstCommitExactly` and `Regossip.RecommitExactly`.

Assumptions of the source made explicit: an underwriter is listed once, and
declared supply sums to less than the stand-in for an unbounded arc
(crates/kernel/src/flow.rs:228-231). Both are the `Lendable` predicate the
queries of the book require. Calls outside the modelled code are parameters: the
hash of a log record or transaction, the parsing of a key, the day a model
lives, the scheduler's draws.

## Model

| member | source | states |
|---|---|---|
| Networks.Network.Flow | crates/kernel/src/flow.rs:503-565 | The whole search: returns at most `limit`; every source/sink cut of the residual has lost exactly the returned amount; every forward/reverse pair still sums to what it summed to; when it stops short, some source/sink cut of the final residual is empty; at most one phase a node, and at most one a unit, since every phase augments; and room and remainder are where the search that only ever takes the shortest route, first laid, ends. |
| MaxFlow.DinicIsMinCut | crates/kernel/src/flow.rs:509-565 | What `flow(limit)` returns on a built network is exactly min(limit, minimum cut of the free ledger graph into the measured set), the cut being defined over account sets with no network in sight. |
| Networks.Network.Phase | crates/kernel/src/flow.rs:513-562 | One phase: it adds something to the total, what it adds is what every cut lost, pairs are kept, and unless the limit was hit the level graph is blocked — no arc with room leads one level up from a live node. |
| Residual.PhaseBlocked | crates/kernel/src/flow.rs:538-561 | The current-arc rule is sound: when the walk runs dry at the source with every skipped arc saturated, off level or leading to an exhausted node, the whole level graph is blocked. |
| Residual.SinkRecedes | crates/kernel/src/flow.rs:509-512 | After a blocked phase, the next breadth-first search finds the sink strictly farther away. |
| Residual.LevelsBelowNodes | crates/kernel/src/flow.rs:486-501 | A breadth-first level is below the number of nodes, so the sink can recede at most that often. |
| Networks.Network.LevelGraph | crates/kernel/src/flow.rs:486-501 | Either exact breadth-first levels that reach the sink, or a set holding the source and not the sink that no arc with room leaves. |
| Networks.Network.Visit | crates/kernel/src/flow.rs:491-499 | Dequeuing one node keeps the search invariant: queue levels differ by at most one, every reached node has an arc with room from one level below. |
| Networks.Network.Augment | crates/kernel/src/flow.rs:524-532 | Pushing along a climbing path keeps pairs and charges every arc on it; the retreat point is the first arc this saturated, and none before it is. |
| Networks.Network.Saturate | crates/kernel/src/flow.rs:520-536 | Augment and truncate: something is pushed, every cut loses exactly that, the level graph gains no arc, and unless the limit was met an arc of it is used up; it is one step along the shortest route, first laid. |
| Networks.Network.Advance | crates/kernel/src/flow.rs:538-550 | Arcs are skipped only when they can never help again in this level graph, and the path grows by one or the node's list is spent. |
| Networks.Network.Retreat | crates/kernel/src/flow.rs:554-558 | Popping the arc that led to an exhausted node keeps the current-arc invariant, and one arc fewer is untried. |
| Augmenting.WalkIsFirst | crates/kernel/src/flow.rs:513-550 | Why: a current-arc walk that reaches the sink is, of all routes with room, levels or no levels, the shortest and of those the one whose arcs were laid first. |
| Augmenting.OneEnd | crates/kernel/src/flow.rs:455-460 | However many steps it takes, such a search from one network ends in one way. |
| Residual.PushCut | crates/kernel/src/flow.rs:527-528 | Moving p over one arc and p back on its mate changes the residual value of a cut by exactly what crossed its boundary. |
| MaxFlow.PushedIsFlow | crates/kernel/src/flow.rs:526-531 | For one debtor, the final residual encodes a conserved flow of exactly the amount, whatever else the plan holds. |
| MaxFlow.PushedIsFlowInto | crates/kernel/src/flow.rs:526-531 | The final residual of any set query encodes a flow: what each reverse arc gained, read by ledger key, is conserved at every account outside the set, is not negative at any inside, and there sums to exactly the amount. |
| MaxFlow.FreshCut | crates/kernel/src/flow.rs:399-439 | A cut of the freshly built network is the ledger cut of the accounts on its far side, plus the sink room it severs. |
| Cuts.FlowBelowCut | crates/kernel/src/flow.rs:570-577 | Weak duality on the ledger: a conserved flow within the free arcs is at most every cut around its debtor. |
| Cuts.AmountIsSupply | crates/kernel/src/flow.rs:127-132 | Every unit crosses exactly one supply arc: a conserved hold's amount is its supply total. |
| Cuts.Submodular | crates/kernel/src/flow.rs:570-577 | Two cuts cost at least their union and their intersection. |
| Cuts.MinCutMonotone | crates/kernel/src/flow.rs:570-577 | Widening any free arc never lowers the minimum cut. |
| Networks.Network.Build | crates/kernel/src/flow.rs:333-442 | The fast builder refines the naive graph: slots are the ascending participants and nobody else, every free edge, supply and sink arc is laid once in ledger order, and each node's list is its arcs in creation order. |
| Networks.Network.Index | crates/kernel/src/flow.rs:461-477 | The compressed adjacency lists, for every node, exactly its arcs in creation order. |
| Networks.Network.Out | crates/kernel/src/flow.rs:480-483 | The slice between two heads is the node's own arc list. |
| Networks.Network.Arc | crates/kernel/src/flow.rs:444-453 | One arc is one forward/reverse pair, the reverse empty; its id is twice its position. |
| Networks.Network.AddEdges | crates/kernel/src/flow.rs:400-413 | Every in-range ledger edge is laid once, in key order, at weight less reservation, read through the merge cursor. |
| Networks.Network.AddSupply | crates/kernel/src/flow.rs:414-434 | Every lender in range is laid at supply less commitment, in list order, insiders left out unless own supply counts. |
| Networks.Network.AddTargets | crates/kernel/src/flow.rs:435-439 | Every in-range target gets one unbounded arc into the sink, in order. |
| Adjacency.CountingSort | crates/kernel/src/flow.rs:461-477 | The stable counting sort: between consecutive heads stand exactly one tail's arcs, in creation order. |
| Adjacency.Starts | crates/kernel/src/flow.rs:462-468 | Prefix sums of tail counts are each tail's offset. |
| Adjacency.ByTailSpec | crates/kernel/src/flow.rs:288-293 | The reference list a counting sort is held to: all of a tail's arcs, none of another's, ascending by creation. |
| Adjacency.Rank | crates/kernel/src/flow.rs:377-385 | Mark-and-rank is an order-preserving bijection of the marked ids onto the slots. |
| Adjacency.Participants | crates/kernel/src/flow.rs:360-376 | Marked are exactly the accounts some arc-laying loop will name. |
| Ordered.ReservedCursor.At | crates/kernel/src/flow.rs:72-103 | Asked in ascending key order, the one-pass cursor returns what a map lookup returns. |
| Books.Book.CapacityInner | crates/kernel/src/flow.rs:611-625 | Capacity of a set under either reading is min(limit, minimum cut of what is free), the empty set and the empty id space included. |
| Books.Book.Capacity | crates/kernel/src/flow.rs:580-590 | The credit reading: supply of the measured set's own members takes no part. |
| Books.Book.CapacityWithOwnSupply | crates/kernel/src/flow.rs:598-608 | The write-layer reading: it does. |
| Books.Book.Conferrable | crates/kernel/src/flow.rs:637-649 | An underwriter confers the declared supply, netted against nothing; anybody else confers their capacity. |
| Books.Book.Reserve | crates/kernel/src/flow.rs:705-740 | None exactly when the amount exceeds the capacity, and then nothing changed; otherwise the hold is key-sorted and positive, a conserved flow of exactly the amount within the free arcs, and the book grew by exactly it. Which hold: what the search draws (`Draws`); where own supply counts, of the debtor's own exactly the smaller of the amount and what is uncommitted; and what fits on own supply and the edges of direct backers touches no other edge. |
| Priority.OwnDrawn | crates/state/tests/seats.rs:258-279 | On the network: of the debtor's own supply arc exactly the smaller of amount and room is used, whatever else is drawn. |
| Drawing.OwnAlone | crates/state/src/state.rs:886-899 | An underwriter seats from its own supply: where that covers the amount, the hold is the one supply entry, no stake edge and nobody else's supply. |
| Drawing.SameDraw | crates/kernel/src/flow.rs:455-460 | Two reservations of one amount from equal state are the same hold, entry for entry, so replicas agree. |
| Drawing.NearestRouteDrawn | crates/kernel/src/flow.rs:509-550 | The free route drawn first: none is shorter, and with underwriters ascending none as short goes by lower ids; an amount that fits on it is drawn over exactly it. |
| Nearest.ShortestAlone | crates/kernel/src/flow.rs:509-512 | Where the shortest free routes have at most one stake edge, an amount that fits on them is drawn over them alone. |
| Detour.GoesRound | crates/kernel/src/flow.rs:513-550 | Where they have two or more it may not be: for every length from two edges on, a graph with two units that fit on the shortest routes, one of which is drawn over an edge on none of them. |
| Detour.Reserved | crates/kernel/src/flow.rs:704-740 | That hold, staked and reserved call by call. |
| Books.HeldIsPushed | crates/kernel/src/flow.rs:724-738 | What the lists read back from the residual is that flow: within the free arcs, conserved, of the returned amount, in key order. |
| Books.ReadBack | crates/kernel/src/flow.rs:725-738 | Reading arcs back lists exactly those that lost room, and charges the book exactly that. |
| Books.Book.Release | crates/kernel/src/flow.rs:748-761 | Each held arc is refunded, floored at zero, and emptied entries go. |
| Books.Book.Stake | crates/kernel/src/flow.rs:792-802 | An edge becomes the larger of itself and min(amount, conferrable); self-stake and nothing staked change nothing; nothing else moves. |
| Books.Book.Decay | crates/kernel/src/flow.rs:814-826 | Each edge becomes the larger of its faded weight and its live reservation, read by cursor; emptied edges go; a ratio of one or more changes nothing. |
| Runs.ReleaseUndoesReserve | crates/kernel/src/flow.rs:742-761 | Releasing what was just reserved restores the book to the entry. |
| Runs.HeldAmount | crates/kernel/src/flow.rs:113-132 | A reserved hold's own amount is the amount asked for. |
| Runs.ReleasedBook | crates/kernel/src/flow.rs:748-761 | Released, every entry of either book is less by what the hold has of it, zero where the hold has more, and gone where nothing is left. |
| Runs.ReserveLowersCapacity | crates/kernel/src/flow.rs:663-740 | A reservation lowers the capacity of its debtor, and of every set holding the debtor whose query sees the arcs that were drawn, by at least the amount. |
| Runs.CapacityFallsExactly | crates/kernel/src/flow.rs:663-740 | The fall is exactly the amount if and only if every cut around the set exceeds the least by at least what the hold carries back out of it. |
| Rerouting.FallsByMore | crates/state/src/state.rs:836-846 | A strict case: seven unit edges on which two units fit; the unit hold that takes the arc between the two routes is a reservation, and after it nothing fits. |
| Rerouting.AcrossIsDrawn | crates/state/src/state.rs:836-843 | And that unit is the one a reservation there takes, under either reading. |
| Runs.StepKeepsSound | crates/kernel/src/flow.rs:704-826 | Every stake, reservation, release of a live hold or of a part of one cut into two flows, decay and supply change down to its floor keeps: book equal to the sum of live holds, no edge or supply below it, every hold a flow of its own amount. |
| Runs.RunIsSound | crates/state/src/invariants.rs:404-433 | So in every run reserved and committed are exactly what the live holds sum to. |
| Runs.DrainedToNothing | crates/state/src/invariants.rs:404-433 | With no hold live the book is empty, not merely zero. |
| Runs.CommittedIsOwed | crates/kernel/src/flow.rs:833-838 | The committed total is the community's outstanding insured credit. |
| Runs.DeclareExactly | crates/kernel/src/flow.rs:764-772 | An underwriter may declare down to exactly what is committed, which keeps the ledger sound, and no lower. |
| Runs.StakesPeak | crates/kernel/src/flow.rs:774-802 | However often it is staked an edge stands at its peak: at what it was or at the min(amount, conferrable) of some stake on it, and below none of them. |
| Bounds.SetBound | crates/state/src/invariants.rs:604-620 | At every point of every run and for every account set, its underwriters or not: what its debtors draw from underwriters outside it is at most its gross cut with insiders excluded; what they owe altogether is at most its gross cut with own supply counted, and at most the other too when nobody in it declares supply. |
| Bounds.DrawnBound | sim/suites/security.py:376-444 | The first of these at one state, from the invariant alone. |
| Bounds.OwedBound | crates/kernel/src/flow.rs:592-608 | The second at one state: the whole debt against the cut that counts the set's own supply. |
| Bounds.OwnDraw | crates/kernel/src/flow.rs:692-702 | A run of one own-supply draw: what its member owes is their whole declaration. |
| Bounds.ExcludedBoundExactly | crates/state/src/state.rs:1006-1022 | Over all runs of credit alone ending in a given supply, the insiders-excluded cut bounds a set's whole debt if and only if nobody in the set declares any or the set is a single account. |
| Bounds.InsideCredit | crates/kernel/src/flow.rs:675-685 | The run that breaks it: one of the set declares and backs another, who borrows on credit. |
| Bounds.MixedBoundExactly | crates/kernel/src/flow.rs:687-702 | In a book that also takes own-supply draws, if and only if nobody in the set declares any. |
| Security.CapacityMonotone | crates/kernel/src/flow.rs:399-439 | Capacity grows with every edge, every supply and the id space, and falls with every reservation and commitment. |
| Security.CutStaysLowerBound | README.md:119-123 | A gross cut measured once stays a lower bound through any steps that lower no edge, no supply and no id bound. |
| Security.InsideChangesNothing | crates/kernel/src/flow.rs:572-577 | Two states that differ only inside a set give it one capacity. |
| Security.CoalitionGainsNothing | sim/suites/security.py:84-102 | No sequence of stakes with the creditor inside the set, of any amounts, nor of members declaring themselves underwriters under the credit reading, changes the set's capacity. |
| Security.VertexSeparator | sim/suites/security.py:234-265 | A ring every outside edge into which starts at one account has, together with that account, the account's own capacity, whatever it holds inside. |
| Security.TogetherNoMoreThanApart | crates/kernel/src/flow.rs:572-577 | Two sets together have at most the sum of their capacities. |
| Security.ConferringMoreChangesNothing | crates/kernel/src/flow.rs:919-938 | For an account that declares nothing and an edge free for its whole capacity, a stake granted any more than that changes the capacity of no set without the account. |
| Security.ZeroIsAbsorbing | sim/suites/security.py:153-159 | With nobody declaring supply and every stake capped at what its creditor may confer, no run ever makes an edge and every capacity stays zero. |
| Security.NoSupplyNoCapacity | crates/kernel/src/flow.rs:774-785 | With nobody declaring supply every capacity is zero, whatever the edges. |
| Cuts.WideEnough | crates/kernel/src/flow.rs:919-938 | The cut form: once an edge carries the minimum cut around its tail, widening it changes no minimum cut of a set without the tail. |
| Security.IdSpaceChangesNothing | crates/kernel/src/flow.rs:1365-1384 | Past every id in use, the id bound changes no capacity. |
| Security.IdSpaceChangesNoArc | crates/kernel/src/flow.rs:238-256 | Nor does it change the network that is built: slots, arcs, rooms, creation order and every node's list are the same. |
| Routes.Decompose | crates/kernel/src/flow.rs:165-206 | The nested loops compute the specification walk, every error included. |
| Routes.DecomposeSound | crates/kernel/src/flow.rs:152-164 | Whatever is accepted comes back as simple source-to-debtor routes that sum to the hold arc for arc. |
| Routes.NotConservedRefused | crates/kernel/src/flow.rs:152-158 | A hold that is not conserved is always refused. |
| Routes.AcyclicAcceptedExactly | crates/kernel/src/flow.rs:155-173 | On acyclic holds acceptance is conservation, in both directions, within the edges + supply + 1 budget. |
| Routes.ConservedButRefused | crates/kernel/src/flow.rs:188-190 | A key-sorted conserved hold, the sum of two routes that rebuild it, that the walk refuses as a cycle. |
| Routes.RefusedIsReserved | crates/kernel/src/flow.rs:704-740 | That hold is admissible: on the graph of its own arcs it is a reservation of its two units. |
| Numbering.AcceptedHoweverNumberedExactly | crates/kernel/src/flow.rs:152-164 | The completeness of the decomposition without its numbering: a hold is accepted under every renumbering of its accounts if and only if it is conserved and has no cycle. |
| Numbering.LassoRefused | crates/kernel/src/flow.rs:174-191 | A cycle some source reaches short of the debtor is refused under some renumbering: number the way there and round it lowest. |
| Numbering.DebtorSendsNothing | crates/kernel/src/flow.rs:180-204 | A hold that sends anything on from its debtor is always refused. |
| Numbering.UnreachedRefused | crates/kernel/src/flow.rs:180-204 | A hold with flow in a set of accounts no source lies in and nothing but the debtor sends into is always refused. |
| Numbering.RenamedFlow | crates/kernel/src/flow.rs:160-164 | Renumbering accounts keeps conservation and the amount. |
| Routes.CyclicYetAccepted | crates/kernel/src/flow.rs:174-197 | Acyclicity is not necessary: a cyclic hold the walk accepts. |
| Routes.FromPaths | crates/kernel/src/flow.rs:213-226 | Routes are rebuilt into key-ordered totals, worthless routes skipped. |
| Routes.RoundTrip | crates/kernel/src/flow.rs:208-226 | Rebuilding an accepted decomposition of a key-sorted positive hold gives the same hold, list for list. |
| Routes.RebuiltIsFlow | crates/kernel/src/flow.rs:208-212 | Any routes into a debtor rebuild into a conserved hold of what they carry. |
| Splitting.CutAlongRoutes | crates/kernel/src/flow.rs:134-140 | Cut every route of an accepted hold in two at any value, and the two holds rebuilt are flows of what they carry into the same debtor that sum to the hold arc for arc. |
| Splitting.PartialRelease | crates/state/src/loss.rs:333-361 | So a part of any live hold that decomposes can be given back: a step that leaves the ledger sound, the rest live and the debt lower by exactly that part. |
| Fading.FadesBy | crates/kernel/src/flow.rs:819-824 | After k decays an edge is at its floor or has lost at least k units. |
| Fading.DecayReachesReservation | crates/kernel/src/flow.rs:804-826 | Decay repeated often enough leaves every edge exactly its reservation, and unreserved edges vanish. |
| Fading.ThirtyEpochsHalve | crates/kernel/src/constants.rs:49-57 | Thirty decays at 977/1000 at least halve an unreserved edge, flooring included. |
| Fading.FadesNoFaster | crates/kernel/src/flow.rs:819-824 | And fades no faster: k decays leave at least (num/den)^k of an edge, but for less than a unit each. |
| Fading.TwentyNineDoNot | crates/kernel/src/constants.rs:49-57 | So twenty-nine do not halve one, the units their floors take put back. |
| Cascade.Waterfill | crates/kernel/src/cascade.rs:7-46 | For any slack in the test for a met need: every allocation is min(need, level times weight) for one common level but for the slack, zero for the ineligible, within the pot, and either the pot is spent or every eligible need is met but for the slack. Without slack the level is exact and the sum is min(total, all eligible needs). |
| Cascade.LevelDetermines | crates/kernel/src/cascade.rs:3-6 | The common level and the amount handed out determine the allocation, so the rounds can only find one answer. |
| Cascade.Round | crates/kernel/src/cascade.rs:19-43 | One round raises the common level; it spends at most what remains, and all of it when nobody was satisfied, whatever the slack. |
| Cascade.WaterfillMinor | crates/kernel/src/cascade.rs:48-99 | However the shares come out rounded, no allocation passes its need, none goes to the ineligible and the sum stays within the pot; where they come out as the exact ones floored, what is left over is less than the number of eligible targets left short, or nobody is; there is one level L with every allocation at most L times its weight and above min(need, L times weight) less a unit a target; and of two left short the heavier has no less, the equally heavy the same. |
| Cascade.RoundMinor | crates/kernel/src/cascade.rs:79-96 | One round, its shares rounded in any way: clamped at needs and pot. With floored shares every open target is raised by exactly floor(remaining times weight over the open weights' sum) or to its need, nobody else moves, and when nobody is satisfied fewer units are left than targets open. |
| Cascade.PotNeverBinds | crates/kernel/src/cascade.rs:85-87 | With exact shares floored, the clamp by what remains of the pot is never the smallest: floors sum to at most the pot. |
| Workers.StepKeeps | crates/civitas/src/run.rs:120-139 | Every step of every worker keeps each index undrawn, in exactly one worker's hands, or stored with its own day's outcome. |
| Workers.NeverLivedTwice | crates/civitas/src/run.rs:130-136 | At no moment of any interleaving has an index been lived twice. |
| Workers.EndedRun | crates/civitas/src/run.rs:140-151 | Once all workers end: if any built a model, each index was lived once and the result is the sequential map in `living` order; otherwise nothing was lived and the result is the last model error. |
| Workers.LastErrorKept | crates/civitas/src/run.rs:124-129 | Of several workers without a model, the error kept is that of the last. |
| Workers.WidthIs | crates/civitas/src/run.rs:114 | As many workers as configured, at least one and at most one a day. |
| Workers.AnyWidthSameRun | crates/civitas/src/run.rs:85-96 | Two runs over the same days, at any widths and interleavings, agree wherever both come out with a result. |
| Workers.AlwaysEnds | crates/civitas/src/run.rs:120-139 | Some step is possible until every worker has ended, and each leaves less to do: no deadlock, no endless run. |
| Workers.RunsAreShort | crates/civitas/src/run.rs:120-139 | No run is longer than three steps a day and two a worker. |
| Schedule.TodayPicks | crates/civitas/src/schedule.rs:29-59 | Today's list: as many as the even share of the remaining budget and the eligible allow, each once, and nobody left out has waited longer than somebody in, whatever the draws. |
| Schedule.TodaySpends | crates/civitas/src/schedule.rs:47-48 | With budget left and somebody eligible the list is not empty; where anybody is left out, its size is the least that spends what is left in max(target - tick, 0) + 1 days. |
| Schedule.TodayInOrder | crates/civitas/src/schedule.rs:50-58 | Whoever waited longer, or as long with the lower draw, or both the same with the lower number, is picked where the other is, and stands before them. |
| Schedule.StepWithinBudget | crates/civitas/src/world.rs:375-377 | Opening, living, notifying, resuming and closing keep days used plus days still owed to today's list within the budget. |
| Schedule.NeverOverBudget | crates/civitas/src/run.rs:654-657 | Over any run, with notification rounds, rounds cut off part way and resumes, the days used never pass the budget. |
| Schedule.DaysCounted | crates/civitas/src/world.rs:375-377 | Over any run the days used are the days lived: each is charged once, and nothing else is. |
| Schedule.LastDayDated | crates/civitas/src/world.rs:375-378 | A step dates the last day of exactly those who live in it. |
| Schedule.RoundReaches | crates/civitas/src/run.rs:654-663 | A notification round reaches only those asked and not reached today, never more than the budget has days left, and leaves one out only where it spends them all. |
| Schedule.PassedOver | crates/civitas/src/schedule.rs:50-58 | A day that passes somebody over takes everybody it picked out from ahead of them, and puts nobody there. |
| Schedule.NobodyWaits | crates/civitas/src/schedule.rs:1-8 | With a fixed eligible list of N and at least k picked a day, nobody waits ceil(N/k) days, whatever the tie-breaks and notifications. |
| Schedule.PaceHolds | crates/civitas/src/schedule.rs:47-48 | A budget that affords k days a tick to the target keeps affording them, each tick spending its share. |
| Proposers.Build | crates/node/src/engine_context.rs:394-443 | All or nothing: a set comes out exactly when every entry passes, it is the governed power map joined with each key, the recorded one before the member's current one, no power above the ceiling, greatest power first and lowest address first among equals, its total within 64 bits; otherwise the error is the first refused entry's. |
| Proposers.BuildsExactly | crates/node/src/engine_context.rs:399-438 | Which power maps build: not empty, no power above the ceiling, a parsing key for each, the sum within 64 bits. |
| Proposers.NewSetSorts | crates/node/src/engine_context.rs:337-351 | A new set is a reordering of what it was given, of the same total: of any two the first has more power, or the same and the lower address. |
| Proposers.SelectProposer | crates/node/src/engine_context.rs:795-830 | Selects the one validator whose slot holds the turn modulo the total; the fallback after the loop is unreachable even on a saturated total; a powerless set gives its first. |
| Proposers.OneProposer | crates/node/src/engine_context.rs:769-773 | At most one validator's slot holds a turn, so everybody with the set agrees. |
| Proposers.GreatestProposes | crates/node/src/engine_context.rs:349 | A turn below the greatest power goes to the lowest address that has it. |
| Proposers.FairProposers | crates/node/src/engine_context.rs:769-792 | Over any `total` consecutive heights of one round whose turns do not wrap, or with a total that divides the 64-bit range, each validator proposes exactly `power` times. |
| Proposers.FairWhereShifted | crates/node/src/engine_context.rs:769-822 | Every window of `total` consecutive 64-bit heights at every 32-bit round gives each validator exactly `power` turns if and only if, as far as rounds reach past the wrap, the slots look the same shifted by 2^64 mod total; for any powers. |
| Proposers.FairExactly | crates/node/src/engine_context.rs:769-822 | For powers a 32-bit round reaches past, as every built set has: if and only if the total divides 2^64 or one validator holds all the power. |
| Proposers.WrapIsUnfair | crates/node/src/engine_context.rs:815 | A window on the failing side of that: of three equal validators one proposes twice in three heights. |
| Proposers.UnitPowersIndex | crates/node/src/engine_context.rs:791-795 | With unit powers selection is (height + round) mod n over ascending addresses. |
| Tape.ReadFrames | crates/civitas/src/tape.rs:57-91 | The loop computes the specification scan, a missing file being empty. |
| Tape.TornTailDropped | crates/civitas/src/tape.rs:57-91 | Appended frames followed by any strict prefix of one more read back as exactly the appended payloads and the torn tail's offset. |
| Tape.ReadIsLogged | crates/civitas/src/tape.rs:57-91 | Whatever bytes a file holds, what is read from them re-encodes to the prefix the returned offset ends. |
| Tape.RecoverThenAppend | crates/civitas/src/tape.rs:60-114 | From any bytes that open: truncate at the offset, append, and the old payloads read back with the new. |
| Tape.MismatchRefused | crates/civitas/src/tape.rs:81-86 | A whole record with a wrong hash is dropped where it is last and refused by its offset anywhere before. |
| Tape.RoundTripExactly | crates/civitas/src/tape.rs:106-114 | An appended payload reads back if and only if its length fits the 32-bit header. |
| Tape.FrameBytes | crates/civitas/src/tape.rs:106-114 | The record on disk: four bytes of length, little end first, thirty-two of hash, the payload. |
| Tape.Tape.Open | crates/civitas/src/tape.rs:133-142 | Both logs are read before either is touched: one refusal leaves both as they were, events' first; otherwise both are left with exactly their whole records. |
| Tape.LogFile.OpenAppend | crates/civitas/src/tape.rs:93-104 | The file is created where missing and set to the given length, cut or grown with zeros. |
| Tape.LogFile.Append | crates/civitas/src/tape.rs:106-114 | Appending writes one frame behind what was there. |
| Mempools.Mempool.Push | crates/node/src/mempool.rs:30-47 | Accepts exactly a hashable transaction neither queued nor remembered while the queue has room, appends it, and keeps both sets equal to the orders they index. |
| Mempools.Mempool.RemoveCommitted | crates/node/src/mempool.rs:61-82 | Whatever order the hash set is walked in: the queue keeps exactly the uncommitted, the memory takes the committed in at the cost of its oldest, and the invariant holds. |
| Mempools.Mempool.Batch | crates/node/src/mempool.rs:56-59 | A batch is the oldest transactions, in order, nothing removed. |
| Mempools.Mempool.Contains | crates/node/src/mempool.rs:49-54 | Exactly whether some queued transaction carries the hash. |
| Mempools.RunKeepsSound | crates/node/src/mempool.rs:11-82 | Over every run: own hashes, no duplicates, queue and memory disjoint, both bounds. |
| Mempools.KeepsOrder | crates/node/src/mempool.rs:70 | What stays, stays in the order it stood, nothing uncommitted skipped. |
| Mempools.FirstAcceptedFirst | crates/node/src/mempool.rs:1-44 | First in, first out over runs: of two still queued since they were accepted, the one accepted first stands first, whatever was pushed and committed between. |
| Mempools.BatchIsEarliest | crates/node/src/mempool.rs:56-59 | So a batch holds nobody without those waiting that were accepted before. |
| Mempools.PushesOnlyAppend | crates/node/src/mempool.rs:30-47 | With no commit, what was queued is a prefix of what is queued. |
| Mempools.BatchLeaves | crates/node/src/mempool.rs:56-70 | Committing a block built from a batch takes exactly that batch off the front. |
| Mempools.RefusesRegossip | crates/node/src/mempool.rs:61-82 | A transaction a block commits for the first time in memory is refused through any later run, until as many hashes as the memory holds have been committed. |
| Mempools.RememberedIsRefused | crates/node/src/mempool.rs:29-47 | A remembered transaction is refused through any run until the hashes committed since fill the memory from where it stands. |
| Mempools.RecommittedForgotten | crates/node/src/mempool.rs:71-81 | A hash committed a second time keeps its old place: the oldest of a full memory can be forgotten by the block that commits it again, and is then accepted where the queue has room. |
| Regossip.FirstCommitExactly | crates/node/src/mempool.rs:61-82 | A transaction the memory does not hold is refused from the block that commits it on, through any run, for n committed hashes, its own included, if and only if n fit the memory. |
| Regossip.RecommitExactly | crates/node/src/mempool.rs:61-82 | One the memory holds at i is refused, its second commit included, if and only if the others of the n fit behind it. |
| Regossip.RememberedExactly | crates/node/src/mempool.rs:71-81 | A remembered hash outlives every run of n committed hashes if and only if n still fit behind it. |

## Left out

- Integer widths in the flow kernel: amounts are unbounded naturals. The sums stay below the unbounded stand-in by the supply assumption, and `decay` widens to 128 bits in the source. The 64-bit limit passed as "no limit" is kept in `Conferrable`.
- The `u32::MAX` markers for an unranked id and an unreached level are -1; the `u32` casts of slots and arc ids are not modelled.
- Growable vectors are sequence-valued fields and locals that the methods reassign. Arrays are used for the fixed-size buffers of the builder (marks, slots, heads, arc lists), so update in place is modelled there and not in `cap`, `next_arc` or `level`.
- The body of `flow` and of `levels` is split into the named steps Visit, Augment, Advance, Saturate, Retreat and Phase; the loops and branches are the source's.
- Ordered maps are finite maps walked in ascending key order; their tree structure is not modelled.
- Routes.AcyclicAcceptedExactly: for one fixed numbering acyclicity is sufficient and not necessary, as `CyclicYetAccepted` shows; which cyclic holds the walk accepts then depends on the numbers along it. `Numbering.AcceptedHoweverNumberedExactly` is the statement that does not.
- Routes.ConservedButRefused: the hold is one `reserve` may return (`RefusedIsReserved`); that the search draws it on that graph is not proved.
- Nearest.ShortestAlone: for routes of two stake edges and more the statement is false (`Detour.GoesRound`); which amounts are drawn over shortest routes alone there depends on which edges those share, and `Draws` is the statement that covers them.
- Runs.CapacityFallsExactly: for a debtor inside the id space, as every member is.
- Security.CutStaysLowerBound: about the gross cut, as the audit measures it; the memo that stores cuts is not part of this model.
- Cascade.Waterfill: exact reals, the slack being any number, 1e-12 in the source. Not-a-number and infinite inputs, rounding, and the guard for a non-positive weight sum (unreachable over positive reals) are not modelled.
- Cascade.WaterfillMinor: the weight sum is exact, and its guard for a non-finite or non-positive sum is not modelled; a share is any number, so its own guards and rounding are covered.
- Workers.EndedRun: a day's outcome is a function of the person, the opening world being read-only; a worker that panics, and a poisoned lock, are not modelled. Logging is left out.
- Schedule.NeverOverBudget: who is eligible and whom a request reached are arbitrary; the pool, the doors into a wallet and retirement that decide them are not modelled.
- Schedule.PaceHolds: for ticks up to the target that no notification adds days to.
- Proposers.FairExactly: for powers below 2^32; `FairWhereShifted` has no such bound.
- Proposers.Build: a public key is told apart by the bytes it was parsed from.
- Proposers.SelectProposer: heights, rounds and powers are naturals, the wrapping sum and the saturating total written out; the assertions that a set is not empty and a round is defined are preconditions or types.
- Splitting.PartialRelease: any cut of the routes; how the ledger apportions a partial repayment over them, and its fallback for a hold that does not decompose, are not part of this model.
- Tape.ReadFrames: input and output errors, durability and seeking are not modelled; a file is its bytes. Serialisation of a payload is left out.
- Mempools.RefusesRegossip: for a hash not already remembered when its block commits; `Regossip` has both cases, exactly.
- Regossip.FirstCommitExactly: where the queue has room; the failing runs need as many transactions with new hashes as they commit, which the lemma takes.
- Mempools.Mempool.Batch: transactions are values; cloning is not modelled.
- The ledger's transitions, its audit, state root and pending pool; the flow state machine stands in for the reservation half.
- `pow2_bucket` and the advisory risk formulas, which are floating point.
- Consensus messages and their codec, signatures, hashing, networking, and the rest of the simulated community (prompts, tools, model clients, reports).
