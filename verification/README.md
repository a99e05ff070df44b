# A verified model of the node's commitment tree, committees and bookkeeping

The node keeps a tree of slot commitments, groups them into chains and decides
which chain is its main chain. Around that core it verifies the weight other
chains claim, warp syncs their blocks, seats committees, records what happened
to transactions, streams slots to clients and prunes old epochs. This project
models that logic in Dafny and proves what holds over every input, every
reachable state and every run. `dafny verify dfyconfig.toml` checks all of it.

## The main results

- **The tree is partitioned into chains.** Commitments are published, linked to
  their parents in any order, forced onto chains by engines and evicted from
  below. Over every such run, and whichever child reacts first when another one
  is promoted, a main child is on the chain of its parent, any other child starts
  a chain of its own, and no chain holds two commitments of one slot
  (`ReactionOrder.RunKeepsPartition`). The imperative form, a class that updates
  the fields in place and walks paths in a loop, refines the same steps
  (`Commitments.Commitments.*`). What each operation does to every commitment is
  also stated in closed form (`TreeEffects`).
- **Slot lookup is ancestry.** Over every run, walking chain by chain finds the
  ancestor that the parent links lead to, or nothing; and it finds it if no older
  child was ever forced back over a younger one (`ReactionOrder.RunLookup`).
- **`Less` is a fork choice.** The two-cursor loop ends with an order in closed
  form, on every tree that a run leads to (`ForkChoice.Less`). It is decided at
  the first slot where the two chains differ (`ForkOrder.FirstDifferenceDecides`),
  and on one slot it is strict, total and transitive. Unless an older child was
  forced back over a younger one, it is the order of the IDs there, which depends
  on parent links alone, so that any two such nodes pick the same heaviest
  commitment (`ForkRuns.RunLess`, `ForkRuns.RunHeaviestAgrees`). Otherwise the
  exact condition is whether what is missing from a slot index there has the
  smaller ID (`ForkOrder.AgreesIff`, `ForkOrder.HeaviestAgrees`). A commitment
  that still waits for an ancestor is less than every one that does not.
- **Weights and flags.** Over every run of tree steps, engine commits, verified
  attestations and warp syncs, whichever child reacts first: flags are closed
  under parents and never lowered, attested weight never falls and stays within
  the claim, and each chain has at most one commitment asking for attestations
  (`WeightClaims.RunOneRequest`). What each event does to every commitment is
  stated as well (`StatusEffects`).
- **Chain switching.** The first evaluation of a measurement selects a chain
  exactly when it leads for the whole threshold and the main chain is not heavier
  (`ChainSwitching.MeasureAt`). Over every run the candidate is determined by what
  was last seen of the earlier slots (`Measurement.MeasurementDecides`), and on
  verified weights it is the main chain (`Measurement.CandidateIsMain`).
- **Warp sync.** A slot is only forced to commit when its parent is verified, all
  its blocks are notarized, and it is empty or the commitment that makes it
  committable is synced (`WarpSync.ForcedOnlyWhenReady`); then all its ancestors
  are verified (`WarpSync.ForcedAboveVerified`).
- **Committees.** Seat assignment satisfies a specification that determines it
  completely, seats are kept for as long as a member is re-elected, and the byte
  format round-trips whatever the order of the maps.
- **The transaction retainer.** Cache and slot index agree over every run, a
  commit loses and invents nothing, a cached entry has a closed form in the
  updates that produced it, and accepted transactions stay accepted until they
  are rolled back or pruned.
- **Promises, publication, streams, pruning.** Each callback runs exactly once or
  never; concurrent callers get one commitment instance per ID, and one of them
  is told that it published it; clients see every slot once and in order; pruning
  deletes every epoch once and in order.

## Where the code does not meet a promise

Each line names an input on which the promise fails, and the lemma that says for
all inputs when it holds.

| what | fails on | holds exactly when |
|---|---|---|
| the cumulative attested weight of an attested commitment is the sum of what was attested and stays within the claim | `Counterexamples.ClaimExceeded`, a run | claims fell by no more than what is missing on the way from the root (`WeightClaims.WithinClaim`) |
| a slot lookup ends | `Counterexamples.LookupNeverEnds` and `LookupNeverEndsOffMain`, while the root has moved and eviction has not caught up | the forking point of the main chain did not change or has no parent, or the lookup does not come past the main chain, or the slot is not below the point where the branch of the new root leaves it (`MovedRoot.LookupEndsIff`); always once evicted (`ChainLookup.Commitment`) |
| comparing two chains ends | `Counterexamples.LessNeverEnds`, in the same situation | the forking point of the main chain did not change or has no parent, or the cursors meet before one of them comes to the circle of chains along the branch of the new root, or both come to it, or the other one comes to nil from above the lowest forking point of the circle, with the two cases level with it (`MovedLess.LessEndsIff`, `MovedLess.Settles`); always once evicted (`ForkChoice.Less`) |
| what an engine commits ends up on its chain | `Counterexamples.EngineLeavesChain` | it starts on the chain, or with a commitment that is on the chain already (`EngineCommitments.PublishEngineCommitments`) |
| a root that is known already leaves the tree partitioned | `Counterexamples.RootWaits` | it is on a chain, which does not start at its slot elsewhere (`RootSteps.AdvanceIff`); always if it is connected to the former root (`RootSteps.SolidBased`) |
| a root that is published for the first time leaves the tree partitioned | `Counterexamples.RootBeside` | the main chain has nothing at or above its slot but what continues it (`FreshRoot.PublishRootIff`) |
| the slot index of a chain has every commitment of the chain | `Counterexamples.IndexLost`, a run | no child is forced onto the chain of its parent that was linked before the child it displaces (`ReactionOrder.RunInvIff`; for one step `ReactionOrder.RunForceIff`) |
| `Less` gives the same order on every node, whatever arrived first | `Counterexamples.ArrivalMatters`, two runs that pick different commitments of equal weight | no commitment that is missing from its slot index at the first difference has the larger ID (`ForkOrder.AgreesIff`); always if nothing harmful was done before (`ForkRuns.RunLess`) |
| the candidate for a switch is withdrawn when another chain leads | `StaleCandidates.CandidateStays`, with a threshold of 2 and of 1 | the other chain is not the main chain, the main chain is not heavier, and it led at some but not at all of the earlier slots (`ChainSwitching.MeasureAt`) |
| the candidate for a switch is not the main chain | `StaleCandidates.SetToMain`, a run; on verified weights after every switch (`Measurement.CandidateIsMain`) | on verified weights the measurement has not set the candidate yet (`Measurement.OnlyAgain`); otherwise, once the measured chain was seen leading at an earlier slot, it was last seen not leading at one of them or the main chain has not last moved to it (`Measurement.IsMainIff`) |
| the candidate for a switch is not outweighed by the main chain when it is set | `StaleCandidates.SetToLighter`, a run | it is set when the measurement starts, or the main chain was not reported to weigh more since then (`Measurement.OutweighedIff`) |
| slots are forced in order | `WarpSync.ForcedLate`, a run | the slot is not committed otherwise before (`WarpSync.ForcedInSlotOrder`) |
| seating a committee ends | `CommitteeEpochs.NoSeatFree` | not all 256 seats are kept (`CommitteeSeats.AssignSeats`, `CommitteeEpochs.FullCommittee`) |
| no slot is sent to a client twice | `RangeStream.SentAgain` | the event is above what was last sent (`RangeStream.HandleRepeats`) |
| publishing returns a commitment or an error | `Publication.NothingPublished`, a run | the slot is not evicted between the two halves of the call before anyone has published (`Publication.ConcludeWithoutCommitment`) |
| a whole epoch below the finalized one is kept | `Pruning.PruneAtGenesis` | nothing is pruned yet, or two epochs are finalized (`Pruning.HistoryKept`) |

## How the model relates to the code

- Reactive variables settle before the next event: linking a commitment, forcing
  it or evicting a slot is one step together with the updates it triggers.
  Children react in the order in which they subscribed, that is, were linked. So
  when a child is promoted, a displaced older sibling leaves the chain before the
  promoted one enters, and a displaced younger one after that. `ReactionOrder` and
  the class `Commitments`, the engine loop and the weights record that order;
  `TreeRuns` has the steps in the first order, and `IndexFree` shows that both
  agree on everything but the slot indexes. A tree is called consistent if it
  satisfies all invariants up to missing entries of slot indexes; every run leads
  to consistent trees only (`ReactionOrder.RunConsistent`). An update callback is not called for an initial zero value.
- IDs are natural numbers in the order of their bytes. One ID has one content,
  because it is a hash of it. The slot is part of the ID.
- A commitment is one slot above its parent.
- Moving the root and evicting below it are two operations, modelled one by one
  and as the step in which eviction has caught up.
- An engine commits slot by slot, on top of a commitment it published before. It
  refuses to commit any slot but the next one
  (pkg/protocol/engine/notarization/slotnotarization/manager.go:218-221), so a
  slot that is forced late is not committed twice; the warp sync model records
  the call, not the commit.
- Signatures, Merkle proofs, block IDs, storage sizes, what is already cached and
  what arrives from the network are parameters.
- Overflow is explicit: pool sums, cumulative attested weight (64 bit), slots and
  epochs (32 bit) and the seat index (8 bit).
- Concurrency is a state machine where the code takes a lock twice (publication)
  or reacts to events of several components (warp sync, weights).
- The warp sync model drops two guards that only postpone work (the mode of the
  chain, and that the parent is synced), so it has more runs than the code.
- A running measurement is told what the main chain weighs at the measured slot
  whenever that changes (`MainWeighs`); the code does not look at it again.
- The comment on chain switching asks for the same heaviest chain over the last
  slots of the threshold. With a threshold below 2 the code counts no slots and
  never notifies anybody. The model follows the code.

## Model

| member | source | states |
|---|---|---|
| CommitmentTree.OnePerSlot | pkg/testsuite/chains.go:117-158 | two commitments of one chain and slot are the same commitment |
| CommitmentTree.ParentChainLower | pkg/protocol/chain.go:312-328 | the parent chain forks at a lower slot, so walks over chains end |
| CommitmentTree.SolidOnChain | pkg/protocol/commitment.go:300-320 | every commitment connected to the root is on a chain |
| CommitmentTree.SameChainAncestor | pkg/protocol/commitment.go:300-320 | of two commitments on one chain the lower is the ancestor of the higher |
| CommitmentTree.TipIsHighest | pkg/protocol/chain.go:343-357 | the commitment of a chain without main child is the highest of the chain |
| CommitmentTree.MainPathChain | pkg/protocol/commitment.go:300-320 | everything reached by main children is on the chain it started from |
| ChainLookup.Commitment | pkg/protocol/chain.go:153-166 | the loop over parent chains computes the lookup, and ends |
| ChainLookup.LookupFinds | pkg/protocol/chain.go:153-166 | between the root and a commitment, the lookup on its chain is its ancestor at that slot if a slot index has it or it starts a chain, and nothing otherwise |
| ChainLookup.LookupIsAncestor | pkg/protocol/chain.go:153-166 | the same with complete slot indexes: always the ancestor |
| ChainLookup.LookupAboveTip | pkg/protocol/chain.go:153-166 | above the tip of a chain the lookup finds nothing |
| ChainLookup.LookupBelowRoot | pkg/protocol/chain.go:153-166 | below the root the lookup finds nothing that is still alive |
| ChainSteps.SetChainIndexed | pkg/protocol/chain.go:343-357 | the slot index stays exact if the slot of the new chain was free |
| ChainSteps.MovePathChains | pkg/protocol/commitment.go:300-320 | exactly the main path moves to the new chain, everything else stays |
| ChainSteps.MovePathIndexed | pkg/protocol/commitment.go:300-320 | moving a main path keeps the slot index exact |
| ChainSteps.MovePathPartition | pkg/protocol/commitment.go:300-320 | moving a main path keeps the partition at every other child |
| ForceChain.PromoteInv | pkg/protocol/commitment.go:288-296 | making a child the main child keeps every invariant, displaced subtree included |
| ForceChain.DisplaceChains | pkg/protocol/commitment.go:288-296 | exactly the displaced main path leaves for a new chain |
| TreeSteps.PublishInv | pkg/protocol/commitments.go:214-234 | publishing a commitment keeps every invariant |
| TreeSteps.SpawnChains | pkg/protocol/commitment.go:300-320 | a spawned chain takes exactly the main path of its forking point |
| LinkSteps.LinkInv | pkg/protocol/commitments.go:282-301 | linking to a late parent keeps every invariant, whatever had been built on top |
| LinkSteps.LinkForcedInv | pkg/protocol/commitments.go:167-209 | so does linking and forcing onto the chain of an engine |
| LinkSteps.ForceInv | pkg/protocol/commitment.go:376-382 | so does forcing a commitment onto a chain, if a displaced child reacts first; `ReactionOrder.ForceIff` has both orders |
| RootSteps.AdvanceInv | pkg/protocol/commitments.go:142-164 | advancing the root to a commitment on a chain and evicting below it keeps every invariant |
| RootSteps.AdvanceIff | pkg/protocol/commitments.go:142-164 | for every known commitment: they hold if and only if it is on a chain that does not start at its slot elsewhere |
| RootSteps.SolidBased | pkg/protocol/commitments.go:142-164 | a commitment that is connected to the former root is |
| Counterexamples.RootWaits | pkg/protocol/commitments.go:142-164 | a commitment that waits for its parent becomes the root, and the invariants are lost |
| RootSteps.EvictIndexed | pkg/protocol/protocol.go:166-177 | eviction keeps the slot index exact |
| RootSteps.MoveRootPartition | pkg/protocol/commitments.go:142-164 | moving the forking point of the main chain keeps the partition above the root |
| FreshRoot.PublishRootInv | pkg/protocol/commitments.go:142-164 | a root that is published for the first time is put onto the main chain with its main path, and every invariant holds after eviction |
| FreshRoot.PublishRootIff | pkg/protocol/commitments.go:142-164 | they hold if and only if the main chain has nothing at or above its slot but what continues it |
| Counterexamples.RootBeside | pkg/protocol/commitments.go:142-164 | a tree of three commitments on which they do not |
| MovedRoot.LookupEndsIff | pkg/protocol/chain.go:153-166 | before eviction, for every chain and slot, exactly when a lookup ends |
| MovedRoot.Diverges | pkg/protocol/chain.go:153-166 | otherwise the cursor is never nil, after any number of turns |
| MovedRoot.VisitsBranch | pkg/protocol/chain.go:153-166 | from a commitment off the main chain a lookup comes past the main chain exactly below the branch of the commitment |
| MovedRoot.MovedRootWalkable | pkg/protocol/commitments.go:142-164 | after the root has moved every chain still has a known forking point |
| Counterexamples.LookupNeverEnds | pkg/protocol/chain.go:153-166 | a tree of two commitments on which the lookup of slot 5 does not end and that of slot 6 does |
| Counterexamples.LookupNeverEndsOffMain | pkg/protocol/commitments.go:156-160 | the same when the new root is not on the main chain |
| MovedLess.LessEndsIff | pkg/protocol/commitment.go:151-195 | before eviction, for every two chains of a tree without double slots, exactly when their comparison ends |
| MovedLess.CircleEndsIff | pkg/protocol/commitment.go:151-195 | with any circle of parent chains, comparing two chains ends if and only if it settles |
| MovedLess.MovedCircle | pkg/protocol/commitments.go:142-164 | moving the root leaves the chains along its branch as such a circle, down to where the branch leaves the main chain |
| MovedLess.StuckForever | pkg/protocol/commitment.go:173-193 | a cursor that does not clear the circle is never met, after any number of turns |
| Counterexamples.LessNeverEnds | pkg/protocol/commitment.go:151-195 | a tree of four commitments on which comparing chains 1 and 0 does not end |
| TreeRuns.StepInv | pkg/protocol/commitments.go:214-301 | each of the six kinds of steps keeps the invariant, if a displaced child reacts first |
| TreeRuns.RunInv | pkg/protocol/commitments.go:142-301 | so every tree of every run of such steps satisfies it |
| TreeRuns.RunKeepsPartition | pkg/testsuite/chains.go:117-158 | over every run of such steps: main child and parent share a chain, other children start theirs, no slot occurs twice on a chain |
| TreeRuns.RunLookup | pkg/protocol/chain.go:153-166 | over every run of such steps a lookup is the ancestor given by the parent links |
| TreeRuns.ForceReaches | pkg/protocol/commitment.go:376-382 | forcing puts a child and its whole main path onto the chain of its parent |
| TreeRuns.PromotePath | pkg/protocol/commitment.go:288-296 | a promoted child takes its main path onto the chain of its parent |
| TreeEffects.PromoteEffect | pkg/protocol/commitment.go:288-320 | what promoting a child does to every commitment: its main path goes to the chain of the parent, the displaced one to a new chain, everybody else stays |
| TreeEffects.ForceEffect | pkg/protocol/commitment.go:376-382 | what forcing does to every commitment, in whatever order children react; nothing at all if there is no parent, or it is not on the target, or the commitment is there already |
| TreeEffects.LinkEffect | pkg/protocol/commitments.go:282-301 | what linking does to every commitment: the first child continues the chain of its parent, any other one starts a chain |
| TreeEffects.LinkForcedEffect | pkg/protocol/commitments.go:167-209 | what linking for an engine does to every commitment, with and without the parent on its chain |
| TreeEffects.AdvanceEffect | pkg/protocol/commitments.go:142-164 | what a known root does to every commitment, link and chain: who is evicted, and when the main chain starts at it |
| TreeEffects.PublishRootEffect | pkg/protocol/commitments.go:142-164 | the same for a first-time root, which takes its main path onto the main chain |
| TreeRuns.PromotedFirstLosesIndex | pkg/protocol/chain.go:343-357 | in the other order of reactions the chain loses the promoted child from its index |
| IndexFree.OrdersAlike | pkg/protocol/commitment.go:288-320 | both orders of reactions end in trees that differ in the slot indexes only |
| IndexFree.StepAlike | pkg/protocol/commitments.go:142-301 | every step takes trees that differ in the slot indexes only to such trees |
| IndexFree.CompletedInv | pkg/protocol/chain.go:343-357 | a consistent tree with the missing entries of its slot indexes filled in satisfies every invariant |
| IndexFree.PromotedFirstRight | pkg/protocol/chain.go:343-357 | in the other order, too, what is left in an index is on the chain, alive and of that slot |
| ReactionOrder.ForceIff | pkg/protocol/commitment.go:376-382 | forcing keeps every invariant if and only if it changes nothing or the promoted child was not linked before the displaced one |
| ReactionOrder.RunForceIff | pkg/protocol/commitment.go:376-382 | over every run: forcing a child displaces another one, both have been linked, and the invariants are kept if and only if the displaced one was linked first |
| ReactionOrder.RunConsistent | pkg/protocol/commitments.go:142-301 | over every run, whatever the order of reactions, the tree is consistent |
| ReactionOrder.AdvanceConsistentIff | pkg/protocol/commitments.go:142-164 | a known root leaves a consistent tree consistent under exactly the condition of `AdvanceIff` |
| ReactionOrder.PublishRootConsistentIff | pkg/protocol/commitments.go:142-164 | a first-time root under exactly the condition of `PublishRootIff` |
| ReactionOrder.RunKeepsPartition | pkg/testsuite/chains.go:117-158 | over every run, whatever the order of reactions: main child and parent share a chain, other children start theirs, no slot occurs twice on a chain |
| ReactionOrder.RunInvIff | pkg/protocol/commitments.go:142-301 | every tree of a run satisfies all invariants if and only if no step forces a child over a younger one |
| ReactionOrder.RunLookup | pkg/protocol/chain.go:153-166 | over every run a lookup finds the ancestor given by the parent links exactly if it is a forking point or its slot index has it, else nothing; always the ancestor if there was no such step before |
| ReactionOrder.RunTimed | pkg/protocol/commitment.go:288-320 | over every run every linked commitment has been recorded with a time of its own |
| Counterexamples.IndexLost | pkg/protocol/chain.go:343-357 | a run of five steps after which commitment 2 is on chain 0 and chain 0 does not find it |
| Commitments.Commitments.constructor | pkg/protocol/commitments.go:142-164 | the first root commitment starts the main chain |
| Commitments.Commitments.PublishCommitment | pkg/protocol/commitments.go:214-234 | refines the publish step and keeps the chains in order |
| Commitments.Commitments.NewChain | pkg/protocol/chains.go:182-189 | refines the creation of a chain at a forking point |
| Commitments.Commitments.SetChain | pkg/protocol/chain.go:343-357 | refines the chain step: deletes the old slot entry, then writes the new one |
| Commitments.Commitments.MovePath | pkg/protocol/commitment.go:300-320 | the loop along main children refines the recursive move |
| Commitments.Commitments.Spawn | pkg/protocol/commitment.go:300-320 | refines the spawn of a chain |
| Commitments.Commitments.PromoteChild | pkg/protocol/commitment.go:288-320 | refines promotion, the displaced child first |
| Commitments.Commitments.PromoteChildFirst | pkg/protocol/commitment.go:288-320 | refines promotion, the promoted child first |
| Commitments.Commitments.RegisterChild | pkg/protocol/commitment.go:288-320 | refines linking of a child to its parent |
| Commitments.Commitments.LinkParent | pkg/protocol/commitments.go:282-301 | refines linking, records its order and keeps the chains in order |
| Commitments.Commitments.LinkFromEngine | pkg/protocol/commitments.go:167-209 | refines forcing followed by linking, records its order and keeps the chains in order |
| Commitments.Commitments.ForceChain | pkg/protocol/commitment.go:376-382 | refines forcing in the recorded order of reactions and keeps the chains in order; becomes the main child and is on the target if its parent is there and it is not, and changes nothing otherwise; the slot indexes stay complete if and only if the child is not forced over a younger one |
| Commitments.Commitments.MoveRoot | pkg/protocol/commitments.go:142-164 | refines moving the root and its forking point |
| Commitments.Commitments.EvictSlot | pkg/protocol/protocol.go:166-177 | refines the eviction of one slot |
| Commitments.Commitments.Evict | pkg/protocol/protocol.go:166-177 | the loop over slots refines the eviction of all slots below one |
| RootSteps.EvictNext | pkg/protocol/protocol.go:166-177 | evicting one slot more is evicting everything below the next |
| Commitments.Commitments.MoveRootAndEvict | pkg/protocol/commitments.go:142-164 | refines both together |
| Commitments.Commitments.AdvanceRoot | pkg/protocol/commitments.go:142-164 | for every known commitment: refines both together; the tree stays consistent if and only if the new root is based, and then it is a step of a run |
| Commitments.Commitments.EnterRoot | pkg/protocol/commitments.go:142-164 | refines putting a first-time root onto the main chain |
| Commitments.Commitments.EnterRootAndEvict | pkg/protocol/commitments.go:142-164 | the same with the eviction |
| Commitments.Commitments.PublishRoot | pkg/protocol/commitments.go:142-164 | the tree stays consistent if and only if the main chain has nothing at or above the slot but what continues the new root, and then it is a step of a run |
| EngineCommitments.EnginePromotes | pkg/protocol/commitment.go:376-382 | what an engine commits on top of its chain is on its chain afterwards |
| EngineCommitments.EngineReaches | pkg/protocol/commitments.go:167-209 | a commitment of an engine is on its chain if and only if it was, or its parent is |
| EngineCommitments.EngineKeepsLower | pkg/protocol/commitments.go:167-209 | nothing below the committed slot changes its chain |
| EngineCommitments.PublishEngineCommitments | pkg/protocol/commitments.go:167-209 | after the loop every commitment the engine made is on its chain if and only if it made none, or started on the chain, or the first was on the chain; nothing at or below its start has moved |
| Counterexamples.EngineLeavesChain | pkg/protocol/commitments.go:167-209 | an engine whose first commitment is not the forking point of its chain ends up on a new chain |
| ForkChoice.Less | pkg/protocol/commitment.go:134-196 | on every consistent tree, for two solid commitments the loop ends with the order of the tips of their chains: by ID at their first difference, unless one of the two continues the common chain and its slot index lacks it, which makes it the smaller one; a commitment that waits for its ancestors is less than every solid one; nil, equal and same-chain cases |
| ForkChoice.Truncate | pkg/protocol/commitment.go:134-196 | the order of two commitments is that of any pair of ancestors that still differ |
| ForkChoice.SiblingForks | pkg/protocol/commitment.go:168-171 | forking points with one parent are the divergence points |
| ForkChoice.ForkFromChain | pkg/protocol/commitment.go:173-193 | once the cursors meet, the lookup at the fork finds the other divergence point, or nothing if it is missing, which decides the order |
| ForkChoice.ForkFromElsewhere | pkg/protocol/commitment.go:174-186 | otherwise the parent of the forking point can stand in without changing the order |
| ForkChoice.WaitingApart | pkg/protocol/commitment.go:153-158 | a commitment that waits for its ancestors is never on the chain of one that does not |
| ForkChoice.TipsApart | pkg/protocol/commitment.go:134-196 | the tips of different chains are not ancestors of each other |
| ForkOrder.FirstDifferenceExists | pkg/protocol/commitment.go:132-133 | commitments that are not on one path differ at a first slot |
| ForkOrder.FirstDifferenceDecides | pkg/protocol/commitment.go:132-133 | `Less` is decided at the first slot where the chains differ |
| ForkOrder.AgreesIff | pkg/protocol/commitment.go:132-196 | for two commitments of one slot, the answer is the order of the IDs at their first difference if and only if none that is missing there has the larger ID |
| ForkOrder.LookupFromTip | pkg/protocol/chain.go:153-166 | a lookup on a chain is the ancestor of its tip, with or without missing entries |
| ForkOrder.LessAtSlot | pkg/protocol/commitment.go:134-196 | on one slot `Less` is the order in closed form; with complete indexes it is the one of parent links and IDs |
| ForkOrder.NothingMissing | pkg/protocol/commitment.go:134-196 | with complete indexes the two orders are the same |
| ForkOrder.NodeLessTotal | pkg/protocol/commitment.go:134-196 | of two different commitments of a slot exactly one is less, whatever is missing |
| ForkOrder.NodeLessTransitive | pkg/protocol/commitment.go:134-196 | `Less` on one slot is transitive, whatever is missing |
| ForkOrder.TreeLessTotal | pkg/protocol/commitment.go:132-133 | the same for the order of parent links and IDs |
| ForkOrder.TreeLessIrreflexive | pkg/protocol/commitment.go:134-138 | no commitment is less than itself |
| ForkOrder.TreeLessTransitive | pkg/protocol/commitment.go:132-133 | the order of parent links and IDs is transitive |
| ForkOrder.TreeLessAgrees | pkg/protocol/commitment.go:132-133 | nodes that relate both commitments to their roots have the same order of parent links and IDs |
| ForkOrder.Heaviest | pkg/protocol/chains.go:282-298 | the heaviest element has the highest weight, ties broken by `Less` |
| ForkOrder.TreeHeaviestAgrees | pkg/protocol/chains.go:282-298 | with ties broken by parent links and IDs, nodes with the same commitments and weights have the same heaviest one |
| ForkOrder.HeaviestIff | pkg/protocol/chains.go:282-298 | a node picks that one if and only if it is not missing where it parts from another one of the same weight |
| ForkOrder.HeaviestAgrees | pkg/protocol/chains.go:282-298 | so if it is visible to one of two nodes, they pick the same if and only if it is visible to both |
| ForkRuns.RunLess | pkg/protocol/commitment.go:134-196 | over every run: `Less` on one slot is the order of parent links and IDs if no older child was forced back, and otherwise under exactly the condition of `AgreesIff` |
| ForkRuns.RunHeaviestAgrees | pkg/protocol/chains.go:282-298 | any two runs without such a step pick the same heaviest commitment |
| Counterexamples.ArrivalMatters | pkg/protocol/commitment.go:173-193 | two runs with the same two commitments of equal weight that pick different ones |
| ChainSwitching.HeaviestAt | pkg/protocol/chains.go:288-298 | the heaviest commitment of a slot, or none if nothing leads there |
| ChainSwitching.MeasureAt | pkg/protocol/chains.go:230-278 | on the first evaluation: exactly when a candidate is set to a chain, exactly when it is withdrawn, and which slots stay monitored |
| ChainSwitching.CountEarlier | pkg/protocol/chains.go:253-263 | the loop counts the earlier slots at which the chain leads; all of them if and only if it leads for the threshold |
| ChainSwitching.VerifiedWeightIs | pkg/protocol/chain.go:168-180 | the weight of a chain at a slot in terms of parent links, for every slot from the root up; an ancestor that the slot indexes lack counts as not verified |
| StaleCandidates.CandidateStays | pkg/protocol/chains.go:265-272 | the candidate is neither set nor withdrawn although another chain leads, with a threshold of 2 and of 1 |
| Measurement.Chains.MeasureFor | pkg/protocol/chains.go:230-278 | refines the start of a measurement; the main chain moves only to, and on a new candidate always to, a chain that leads for the threshold and is not outweighed |
| Measurement.Chains.MeasureVerified | pkg/protocol/chains.go:99-125 | the same, compared with what the main chain has verified at the slot: the weight of the ancestor of its tip there if that is verified, else of what it produced last, else 0 |
| Measurement.Chains.HeaviestChanged | pkg/protocol/chains.go:253-272 | refines a change at a monitored slot: the counter moves by one and the candidate is set or withdrawn |
| Measurement.Chains.StopMeasuring | pkg/protocol/chains.go:147-155 | refines the end of a measurement: candidate and main chain stay |
| Measurement.VerdictIff | pkg/protocol/chains.go:265-272 | the counter reaches the threshold if and only if every earlier slot is monitored and flagged |
| Measurement.RunTracked | pkg/protocol/chains.go:253-272 | over every run the flags are what was last seen of each slot, and the candidate was notified if and only if anything was seen |
| Measurement.MeasurementDecides | pkg/protocol/chains.go:230-278 | over every run: the guards at the start, and the candidate at any time as a function of what was last seen at the earlier slots |
| Measurement.CandidateIsMain | pkg/protocol/chains.go:99-125 | over every run without a candidate at the start, the candidate on verified weights is the main chain |
| Measurement.OnlyAgain | pkg/protocol/chains.go:243-250 | on verified weights, during a measurement, the measured chain is the main chain if and only if the candidate was set to it since the measurement started |
| Measurement.IsMainIff | pkg/protocol/chains.go:243-272 | over every run, exactly when any other candidate is the main chain, in terms of what was last seen and where the main chain last moved |
| Measurement.OutweighedIff | pkg/protocol/chains.go:248-272 | over every run, exactly when the candidate is set to a chain that the main chain outweighs by then |
| StaleCandidates.SetToMain | pkg/protocol/chains.go:265-272 | a run in which the counter falls back to zero and the candidate is withdrawn, and is then set to the chain that is the main chain by now; all weights within the claims |
| StaleCandidates.SetToLighter | pkg/protocol/chains.go:248-272 | a run in which the main chain verifies a heavier commitment at the measured slot and the candidate is set nevertheless |
| AttestedWeights.NextInv | pkg/protocol/commitment.go:234-283 | every event, whichever child reacts first, keeps flags closed under parents, late commitments untouched and attested weight within the claim |
| AttestedWeights.NodeRunInv | pkg/protocol/commitment.go:234-364 | so every node of every run satisfies it |
| AttestedWeights.NextMonotone | pkg/protocol/commitment.go:104-108 | no event lowers a flag or an attested weight |
| AttestedWeights.NodeRunMonotone | pkg/protocol/attestations.go:159-211 | over every run attested weight and flags only rise |
| StatusEffects.AttestationsEffect | pkg/protocol/attestations.go:159-211 | verified attestations: nothing if the commitment did not ask; otherwise its weight is the larger of both, and it is attested and asks no more if and only if no less was verified than before; nobody else is touched |
| StatusEffects.EngineEffect | pkg/protocol/commitments.go:203-206 | an engine's commit: all its weight is attested, it is verified and asks for nothing; nobody else is touched |
| StatusEffects.MarkEffect | pkg/protocol/attestations.go:80-88 | a queued commitment without weight is marked attested and asks no more |
| StatusEffects.SyncEffect | pkg/protocol/warp_sync.go:259-290 | a finished warp sync marks the commitment synced, and it asks for blocks no more |
| StatusEffects.QueueEffect | pkg/protocol/attestations.go:80-88 | queueing work changes the queue only |
| StatusEffects.TreeEventEffect | pkg/protocol/commitments.go:142-164 | tree steps raise the flags of a new root and no others |
| StatusEffects.ModesEffect | pkg/protocol/chains.go:99-125 | chain flags are set as given, and touch no commitment |
| StatusEffects.AsksIff | pkg/protocol/commitment.go:352-364 | exactly when a commitment asks for attestations, and for blocks |
| StatusEffects.NoRequestsWithEngine | pkg/protocol/commitment.go:352-356 | over every run, once the engine of a chain is started no commitment on it asks for attestations |
| WeightClaims.AncestorsFlagged | pkg/protocol/commitment.go:234-283 | ancestors of attested, synced or verified commitments are so too |
| WeightClaims.OneRequesterPerChain | pkg/protocol/commitment.go:352-356 | at most one commitment of a chain requests attestations |
| WeightClaims.OneWarpSyncPerChain | pkg/protocol/commitment.go:360-364 | at most one commitment of a chain requests its blocks |
| WeightClaims.RunOneRequest | pkg/protocol/commitment.go:352-364 | both, over every run |
| WeightClaims.AboveMeansUnverified | pkg/protocol/commitment.go:344-348 | a solid commitment is above the latest verified one if and only if it is not verified |
| WeightClaims.AttestedBelowClaim | pkg/protocol/commitment.go:324-332 | while claims do not fall, cumulative attested weight stays within the claim and its addition never wraps |
| WeightClaims.SettledIsSum | pkg/protocol/commitment.go:324-332 | for an attested commitment the derived variable is the sum of attested weights in 64 bits |
| WeightClaims.SumBalance | pkg/protocol/commitment.go:324-332 | the sum plus what is missing is the claim plus what claims fell, for every solid commitment |
| WeightClaims.WithinClaim | pkg/protocol/commitment.go:324-332 | the variable is the sum and within the claim if and only if claims fell by no more than what is missing; its exact value in general |
| WeightClaims.FullyAttestedWithinClaim | pkg/protocol/commitment.go:324-332 | with everything attested that is so if and only if no claim on the path fell |
| Counterexamples.ClaimExceeded | pkg/protocol/attestations.go:80-88 | a run after which the variable of an attested commitment, on a chain that requests attestations and has no engine, can only be 10, and its claim is 4 |
| CommitmentVerifier.VerifyAttestations | pkg/protocol/commitment_verifier.go:137-215 | accepts if and only if all attestations by known issuers with known keys are sound and from distinct issuers; counts the seated issuers; otherwise stops at the first offending one with the error of the first test that fails |
| CommitmentVerifier.AcceptableMeans | pkg/protocol/commitment_verifier.go:137-215 | the attestations that count, and the issuers among them with a seat, position by position |
| CommitmentVerifier.SeatsBelowKnown | pkg/protocol/commitment_verifier.go:137-215 | no more seats are counted than there are known issuers |
| CommitmentVerifier.RejectedPrefix | pkg/protocol/commitment_verifier.go:137-215 | acceptability is lost for good at the first offending attestation |
| CommitmentVerifier.Verifier.VerifyCommitment | pkg/protocol/commitment_verifier.go:58-135 | accepts if and only if the proof, the attestations and the weight are in order, with the right error for proof and weight; epoch and accounts move on only with a valid proof |
| Publication.RunInv | pkg/protocol/commitments.go:214-279 | over every interleaving of callers and eviction, promises, instances and results agree |
| Publication.OneInstance | pkg/protocol/commitments.go:214-234 | callers get one instance per ID, and at most one of them published it |
| Publication.OnePublisher | pkg/protocol/commitments.go:214-234 | over every run a commitment is published if and only if some caller was told so and got its instance, and that is one caller |
| Publication.BeginFails | pkg/protocol/commitments.go:214-220 | a call fails at once if and only if the slot is evicted |
| Publication.PublishedIff | pkg/protocol/commitments.go:222-231 | a call is told that it published if and only if nobody was before, and the slot was not evicted between its halves before anyone published |
| Publication.HeldPromise | pkg/protocol/commitments.go:214-234 | while a caller is between the halves of its call, the promise is rejected if and only if the slot was evicted since, before anyone published |
| Publication.ConcludeWithoutCommitment | pkg/protocol/commitments.go:214-234 | over every run a call returns neither a commitment nor an error if and only if that happened |
| Publication.NothingPublished | pkg/protocol/commitments.go:214-234 | a run in which a caller gets neither a commitment nor an error |
| WarpSync.Subscribe | pkg/protocol/warp_sync.go:259-290 | the loop watches the available blocks, counts the booked ones, and is full if and only if all blocks are there and booked |
| WarpSync.CountFull | pkg/protocol/warp_sync.go:267-290 | the counter reaches the number of blocks if and only if every block is counted |
| WarpSync.StepInv | pkg/protocol/warp_sync.go:97-297 | every event keeps counters, flags and forced commits consistent |
| WarpSync.RunInv | pkg/protocol/warp_sync.go:97-297 | so every state of every run is consistent |
| WarpSync.ForcedOnlyWhenReady | pkg/protocol/warp_sync.go:178-257 | a forced slot has a verified parent and all its blocks notarized, and it is empty or the commitment MinCommittableAge - 1 slots above it is synced |
| WarpSync.SyncedWhenPropagated | pkg/protocol/warp_sync.go:259-290 | a commitment with a response is synced if and only if it is verified, or all its blocks were available and had their weight propagated |
| WarpSyncLog.RunLogged | pkg/protocol/warp_sync.go:97-297 | over every run the state in terms of the events: jobs, flags, started commits and the forced commits in order |
| WarpSyncLog.SyncedIff | pkg/protocol/warp_sync.go:259-290 | a commitment is synced if and only if it was verified, or all blocks of its response could be requested and have propagated their weight |
| WarpSyncLog.ReadyIff | pkg/protocol/warp_sync.go:178-221 | a started slot can be forced if and only if all its blocks were cached and are notarized |
| WarpSyncLog.CommittableIff | pkg/protocol/warp_sync.go:236-250 | a slot is committable if and only if it is empty or the commitment MinCommittableAge - 1 slots above was found synced |
| WarpSync.ForcedAboveVerified | pkg/protocol/warp_sync.go:251-257 | all ancestors of a forced slot are verified |
| WarpSync.ForcedInSlotOrder | pkg/protocol/warp_sync.go:216-221 | a slot that is not committed yet is forced before all of its descendants |
| WarpSync.ForcedLate | pkg/protocol/warp_sync.go:216-221 | a run in which a slot with a block, which the engine has committed, is forced after its empty child |
| Accounts.Accounts.Set | pkg/core/account/accounts.go:62-92 | totals equal the sums over the pools unless a sum overflows, which is reported exactly then, with the totals it leaves behind; the subtraction never underflows |
| Accounts.SumsOfPart | pkg/core/account/seated_accounts.go:99-115 | the sums of some of the pools are at most the sums of all |
| CommitteeSeats.Sort | pkg/core/account/accounts.go:148-151 | the IDs of the members, each once, ascending |
| CommitteeSeats.SeatedAccounts.Set | pkg/core/account/seated_accounts.go:63-77 | unknown accounts and second seats are refused, everything else is kept; reports whether a seat was added |
| CommitteeSeats.SeatReelected | pkg/core/account/accounts.go:138-145 | exactly the re-elected members are seated, on their former seats |
| CommitteeSeats.AssignSeats | pkg/core/account/accounts.go:123-169 | ends if some seat is not kept; everybody has a seat, re-elected members stay, fresh ones are on seats nobody keeps; nobody shares and fresh ones take the smallest free seats in ID order if and only if there are at most 256 members and no two keep the same seat; index wrap-around included |
| CommitteeSeats.CursorWithin | pkg/core/account/accounts.go:153-166 | the seat index never passes the number of members |
| CommitteeSeats.FullTurn | pkg/core/account/accounts.go:153-166 | when the index has been through all seats, everybody is seated |
| CommitteeEpochs.ProperSeatsUnique | pkg/core/account/accounts.go:121-122 | what is promised of an assignment determines every seat |
| CommitteeEpochs.NeverShared | pkg/core/account/accounts.go:121-169 | over all epochs that elect up to 256 members by `AssignSeats` or reuse a committee, every election is proper and no two members share a seat |
| CommitteeEpochs.SeatKept | pkg/core/account/accounts.go:121-122 | whoever is a member from one epoch to another has the same seat in both |
| CommitteeEpochs.RebuildAccounts | pkg/core/account/seated_accounts.go:99-115 | never fails, and holds exactly the pools of the seated members |
| CommitteeEpochs.Reuse | pkg/core/account/seated_accounts.go:117-133 | the same seats, marked as reused |
| CommitteeSeats.SeatsSuffice | pkg/core/account/seated_accounts.go:16-18 | a proper assignment needs at most 256 members, and re-elected ones with seats of their own |
| CommitteeEpochs.FullCommittee | pkg/core/account/accounts.go:153-158 | some seat is free if and only if fewer than 256 are kept |
| CommitteeEpochs.NoSeatFree | pkg/core/account/accounts.go:153-158 | 256 accounts that keep the seats 0 to 255, all re-elected, leave no seat at which the search could end |
| ByteCodec.LittleEndianRoundTrip | pkg/core/account/pool.go:21-54 | numbers survive their little-endian bytes |
| ByteCodec.BigEndianRoundTrip | pkg/core/account/accounts.go:208-237 | IDs survive their bytes |
| ByteCodec.LittleEndianAt | pkg/core/account/pool.go:21-54 | each byte is a digit in base 256, lowest first |
| ByteCodec.BigEndianAt | pkg/core/account/accounts.go:208-237 | each byte of an ID is a digit in base 256, highest first |
| CommitteeCodec.PoolRoundTrip | pkg/core/account/pool.go:21-54 | a pool survives its bytes, whatever follows |
| CommitteeCodec.PoolsRoundTrip | pkg/core/account/accounts.go:182-237 | so does a list of pools in any order |
| CommitteeCodec.SeatsRoundTrip | pkg/core/account/seated_accounts.go:156-233 | so does a list of seats in any order |
| CommitteeCodec.PoolLayout | pkg/core/account/pool.go:21-54 | pool stake, validator stake and fixed cost, 8 bytes each |
| CommitteeCodec.PoolsLayout | pkg/core/account/accounts.go:208-237 | 32 bytes of the ID and 24 of the pool, entry by entry |
| CommitteeCodec.SeatsLayout | pkg/core/account/seated_accounts.go:194-233 | 32 bytes of the ID and one of the seat, entry by entry |
| CommitteeCodec.CommitteeLayout | pkg/core/account/seated_accounts.go:194-233 | where counts, pools, seats and the flag are |
| CommitteeCodec.PoolsParse | pkg/core/account/accounts.go:182-206 | pools parse if and only if there are enough bytes, and exactly what follows is left |
| CommitteeCodec.SeatsParse | pkg/core/account/seated_accounts.go:170-186 | so do seats |
| CommitteeStream.ReadAccounts | pkg/core/account/accounts.go:182-206 | succeeds if and only if the bytes parse and no sum overflows on the way; then it holds what they list |
| CommitteeStream.ReadSeats | pkg/core/account/seated_accounts.go:170-186 | succeeds if and only if the bytes parse; later entries win |
| CommitteeStream.ReadCommittee | pkg/core/account/seated_accounts.go:156-192 | succeeds if and only if both parts do; accounts, seats and the reuse flag |
| CommitteeStream.WriteAccounts | pkg/core/account/accounts.go:208-237 | the encoding of all pools, each once, in some order |
| CommitteeStream.WriteCommittee | pkg/core/account/seated_accounts.go:194-233 | the encoding of accounts, seats and flag in some order |
| CommitteeStream.CommitteeRoundTrip | pkg/core/account/seated_accounts.go:156-233 | reading what was written, in whatever order, gives back the committee and the rest of the bytes |
| CommitteeStream.CopyCommittee | pkg/core/account/seated_accounts.go:145-233 | writing a committee and reading the bytes always succeeds and gives the same pools, seats and flag |
| TxMetadata.MergeAllClosedForm | pkg/retainer/txretainer/tx_retainer_cache.go:26-55 | after any updates the entry is the last relevant one with the earliest attachment slot among the relevant ones |
| TxMetadata.EarliestSlotIsLeast | pkg/retainer/txretainer/tx_retainer_cache.go:26-55 | that slot is the least non-zero one, or 0 if there is none |
| TxMetadata.RelevantMeans | pkg/retainer/txretainer/tx_retainer_cache.go:26-55 | the relevant updates are those with a valid signature if there are any, else all, and the last one is the last of these |
| TxCache.UpdateAgrees | pkg/retainer/txretainer/tx_retainer_cache.go:88-125 | an update keeps entries and slot index in agreement |
| TxCache.SetSlotAgrees | pkg/retainer/txretainer/tx_retainer_cache.go:147-162 | so does moving an attachment slot |
| TxCache.AfterAgrees | pkg/retainer/txretainer/tx_retainer_cache.go:173-217 | so does deleting up to a slot |
| TxCache.TransactionRetainerCache.Reset | pkg/retainer/txretainer/tx_retainer_cache.go:79-85 | empties both maps |
| TxCache.TransactionRetainerCache.UpdateTxMetadata | pkg/retainer/txretainer/tx_retainer_cache.go:88-125 | refines the update |
| TxCache.TransactionRetainerCache.AddEarliestAttachmentSlot | pkg/retainer/txretainer/tx_retainer_cache.go:127-134 | adds one transaction to one slot |
| TxCache.TransactionRetainerCache.MoveEarliestAttachmentSlot | pkg/retainer/txretainer/tx_retainer_cache.go:138-144 | moves one transaction between slots |
| TxCache.TransactionRetainerCache.UpdateEarliestAttachmentSlot | pkg/retainer/txretainer/tx_retainer_cache.go:147-162 | sets the slot of a known transaction and nothing else |
| TxCache.TransactionRetainerCache.DeleteAndReturn | pkg/retainer/txretainer/tx_retainer_cache.go:173-217 | returns exactly the entries up to the slot and keeps exactly the others |
| TxRetainer.Query | pkg/retainer/txretainer/tx_retainer_database.go:113-131 | finds a row that is accepted if any is, valid if any of those is, and of the latest slot among those; none if there is none |
| TxRetainer.TransactionRetainer.UpdateTransactionMetadata | pkg/retainer/txretainer/tx_retainer.go:308-332 | refines the update and keeps the retainer valid |
| TxRetainer.TransactionRetainer.Insert | pkg/retainer/txretainer/tx_retainer_database.go:62-78 | inserts every change once |
| TxRetainer.TransactionRetainer.CommitSlot | pkg/retainer/txretainer/tx_retainer.go:293-304 | moves exactly the entries up to the slot from the cache to the rows |
| TxRetainer.TransactionRetainer.Reset | pkg/retainer/txretainer/tx_retainer.go:263-278 | empties the cache and keeps exactly the rows up to the slot, with their multiplicity |
| TxRetainer.TransactionRetainer.Prune | pkg/retainer/txretainer/tx_retainer.go:281-290 | keeps exactly the rows above the slot, with their multiplicity |
| TxRetainer.TransactionRetainer.ReadMetadata | pkg/retainer/txretainer/tx_retainer.go:335-386 | answers if and only if there is an entry, from the cached one if it is accepted, or no row is and it is valid or no row is, else from the first row; finalized, committed or accepted exactly by the slot of an accepted entry, any other state as stored |
| TxRetainer.RespondReports | pkg/retainer/txretainer/tx_retainer.go:365-386 | which state, slot, failure and message are reported of an entry |
| TxRuns.RunConsistent | pkg/retainer/txretainer/tx_retainer.go:263-332 | over every run cache, rows and last committed slot are consistent |
| TxRuns.CommitConserves | pkg/retainer/txretainer/tx_retainer.go:293-304 | a commit neither loses nor adds an entry |
| TxRuns.RowStays | pkg/retainer/txretainer/tx_retainer_database.go:62-103 | a row stays until its slot is rolled back or pruned |
| TxRuns.AcceptedStays | pkg/retainer/txretainer/tx_retainer.go:335-386 | a transaction with an accepted row is reported accepted until then |
| TxRuns.CachedEntryClosedForm | pkg/retainer/txretainer/tx_retainer_cache.go:26-125 | over every run a cached entry is the closed form of the updates since it was created |
| Promise.FirstCompletionDecides | pkg/core/promise/promise.go:53-118 | the first resolve or reject decides the outcome, later ones change nothing |
| Promise.RunTracks | pkg/core/promise/promise.go:53-202 | where each callback waits and how often it ran is determined by the history of operations |
| Promise.LiveCallbackRunsOnce | pkg/core/promise/promise.go:122-202 | a callback that is not cancelled runs once if the outcome is of its kind, else never |
| Promise.CancelledCallbackNeverRuns | pkg/core/promise/promise.go:122-202 | a callback cancelled before completion never runs |
| Promise.LateCallback | pkg/core/promise/promise.go:122-202 | a callback registered after completion runs at once, if it is of the right kind |
| Promise.CompletionOrder | pkg/core/promise/promise.go:53-118 | the first completion runs the live callbacks of its outcome in order of registration, then those for either outcome |
| Promise.CallbackOrder | pkg/core/promise/promise.go:53-202 | of two live callbacks the one registered before runs before if both are of one kind, and one for the outcome before one for either |
| Promise.Promise.ResolveWith | pkg/core/promise/promise.go:53-90 | refines resolving: callbacks of success, then of completion |
| Promise.Promise.RejectWith | pkg/core/promise/promise.go:92-118 | refines rejecting |
| Promise.Promise.On | pkg/core/promise/promise.go:122-202 | refines registering |
| Promise.Promise.CancelCallback | pkg/core/promise/promise.go:122-202 | refines cancelling; says exactly when the code deletes from a map that is nil |
| RangeStream.HandleGapless | components/inx/rangesend.go:29-75 | an event above the last sent slot keeps the stream gapless and sends up to the event or the end; finished exactly at the end |
| RangeStream.HandleRepeats | components/inx/rangesend.go:29-75 | no slot is sent twice if and only if the event is above what was last sent |
| RangeStream.HandleGoesBack | components/inx/rangesend.go:29-75 | an event at or below what was last sent is sent again, and the stream goes on from there |
| RangeStream.SentAgain | components/inx/rangesend.go:29-75 | after slots 1 to 3, an event for slot 2 sends slot 2 again |
| RangeStream.StreamSends | components/inx/rangesend.go:29-75 | over any increasing events the client gets each slot from the start to the newest or the end, once and in order |
| RangeStream.FinishedStaysSilent | components/inx/rangesend.go:29-75 | after the end nothing more is sent |
| RangeStream.UnrangedSends | components/inx/rangesend.go:29-75 | without a requested start the client gets the events themselves, up to the end if there is one, and is finished exactly there |
| RangeStream.Server.SendSlots | components/inx/server_commitments.go:48-56 | sends each slot of a range once and in order |
| RangeStream.Server.Open | components/inx/server_commitments.go:49-106 | refused exactly when the start is pruned; otherwise catches up gaplessly to the latest slot or the end |
| RangeStream.Server.HandleRangedSend | components/inx/rangesend.go:29-75 | refines the handling of one event |
| Pruning.Storage.GetPruningStart | pkg/storage/storage_pruning.go:190-197 | pruning starts behind the last pruned epoch, if the target is not below that |
| Pruning.Storage.Finalize | pkg/storage/storage_pruning.go:199-209 | finality moving on keeps what was deleted within the prunable epochs |
| Pruning.Storage.PruneUntil | pkg/storage/storage_pruning.go:213-229 | continues the epochs deleted so far up to the target, each once and in order |
| Pruning.Storage.PruneByEpochIndex | pkg/storage/storage_pruning.go:57-81 | too new, too old or done, exactly; done prunes up to the epoch |
| Pruning.Storage.PruneByDepth | pkg/storage/storage_pruning.go:83-114 | keeps the given number of epochs below the finalized one, at least one |
| Pruning.Storage.PruneBySize | pkg/storage/storage_pruning.go:116-188 | prunes the fewest epochs estimated to free enough, never beyond the prunable ones; reports a full database if and only if all of them were not enough and it is still too big |
| Pruning.EvictionIndex.MarkEvicted | pkg/model/eviction_index.go:23-38 | returns what was marked before |
| Pruning.EvictionIndex.IsEvicted | pkg/model/eviction_index.go:56-62 | an epoch is evicted if and only if it is below the next one to evict |
| Pruning.EvictionIndex.ShouldEvict | pkg/model/eviction_index.go:15-21 | an epoch should be evicted if and only if it is at or above the next one |
| Pruning.HistoryKept | pkg/storage/storage_pruning.go:199-209 | a whole epoch below the finalized one is kept if and only if nothing is pruned or two epochs are finalized |
| Pruning.PruneAtGenesis | pkg/storage/storage_pruning.go:57-81 | epoch 0 is deleted although no epoch is finalized |

## Left out

- ForkChoice.Less: when both commitments wait for ancestors, or one is on a branch whose start was evicted beside the root, only termination and the nil, equal and same-chain cases are stated, because such chains end at arbitrary slots; a chain without forking point does not occur, since chains are created together with theirs.
- Commitments.Commitments.AdvanceRoot: slot lookups and comparisons of other threads between moving the root and evicting are in `MovedRoot` and `MovedLess`, for a root that is connected to the former one.
- EngineCommitments.PublishEngineCommitments: the commitments an engine stored are given as a sequence on top of a commitment that is not evicted; reading them from storage, and errors in between, are not modelled.
- MovedLess.LessEndsIff: the turns of the loop are a function here, since a method that does not end on the moved tree can not be written; the lookup after two cursors have met is at or above the forking point of the common chain and answers at once.
- Measurement.Chains.MeasureVerified: one measurement at a time; starting engines for attested candidates and requesting attestations for claimed ones are toggles without further logic.
- Promise.Promise.CancelCallback: what deleting from a nil map does is up to the map; the model reports that it happens, for `OnComplete` after completion only.
- CommitteeSeats.AssignSeats: 256 kept seats are excluded, because the search for a seat does not end then (`FullCommittee`); with more than 256 members, which fresh member gets which seat is not stated.
- RangeStream.Server.Open: the last slot number, 2^32 - 1, is excluded, because the loop over slots does not end there.
- Pruning.Storage.PruneUntil: deleting never fails; what an error in the middle leaves behind is not modelled.
- TxRetainer.TransactionRetainer.CommitSlot: the database transaction never fails.
- `TryPrune` and the locks around pruning: sequencing only.
- `handleRangedSend2`: the same code with one more argument.
- `NewSeatedAccounts` with a list of members: seats in the order of their sorted IDs, nothing more.
- `LatestEngine`, `LastCommonSlot`, `DispatchBlock`, the derived warp sync mode and the eviction of whole chains: each reads one or two variables of the chains modelled here.
- Engines, ledger, mempool, block DAG, congestion control, notarization and the storage drivers: other components with their own logic.
- Signatures, Merkle trees, hashing and serialization of blocks: cryptography and formats defined elsewhere.
- The block retainer, REST and INX servers other than the slot stream, peer-to-peer networking, tickers, logging, metrics and worker pools.
