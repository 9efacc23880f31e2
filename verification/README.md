# Verified models of the example simulations

This Dafny project models the stateful algorithms of the example simulations and proves what
they are for. Random draws are arbitrary (an oracle, or a choice the proof knows nothing
about), the language-model provider is an oracle that may fail, and every run-level statement
is about all runs.

- `Routes`, `Evacuation`, `EvacuationSetup`, `EvacuationLaws`: the fire evacuation episode.
  Breadth-first route maps are exact, the route cache always answers for the current fire, and
  whole episodes are safe and accounted for; whom the guide redirects, how the fire front
  advances and what a step reports, in coordinates and sizes of sets.
- `ContactGraphs`, `ContactNetworks`: regular rings, communities, barbells and the randomised
  double-edge swap with undo. Every constructed network is simple, connected and has its
  promised degrees and bridges.
- `Landscape`, `Regrowth`, `Signals`, `Commons`, `CommonsLaws`, `CommonsPolicies`, `CommonsStock`,
  `CommonsMemory`, `CommonsSignals`: the spatial commons. Flood fill, synchronous regrowth,
  permanent extinction and its converse, the coupling of drought and normal runs, the ledger of
  units, the scripted rules, bounded memories tied to the log of activations, and the warnings
  of the signalling rule.
- `SceneRecords`, `CommonsRestore`, `Naming`, `NamingLaws`, `NamingRestore`: the naming game, every
  field of which is what its log says, and the two scene restorations as inverses of the
  published projection.
- `Tapes`, `TapeCosts`, `NamingStep`, `CommonsStep`, `StepLaws`, `Checkpoint`, `CheckpointModels`: the
  decision tape and what its requests cost, the transactional steps of both games, recordings
  that replay, and checkpoints that continue.
- `Schelling`, `SchellingLaws`: the derived-count cache, batch relocation and early stopping.
- `PredatorPrey`, `PredatorPreyLaws`: pursuit on a torus, the per-cell prey index, identities,
  energy, births, and grass that grows back on time.
- `RandomWalk`, `RandomWalkLaws`: a delta trace that refines the direct simulation, over mutable
  agents, and a run as one sequence of walks.
- `Sirs`, `SirsLaws`: sampling without replacement, the synchronous epidemic by its draws, and
  rebuilding the people.

Classes carry the fields that the code updates in place; their methods are proved against
functions or relations over values (`View()`, `State()`), and the lemmas are about those. The laws
are stated in terms that do not mention how these functions and relations are put together.
`dafny verify dfyconfig.toml` checks everything.

## Findings

- A commons scene restores exactly when the configured memory is at least two or no waiting
  message is older than one round (`CommonsRestore.RestorationIsExactIff`). With a memory of one
  a waiting message can be lost (`CommonsRestore.MemoryOfOneLosesAMessage`), although messages
  live for two rounds (examples/python_llm/mini_commons_harvest/restore.py:65-75,
  examples/python_llm/mini_commons_harvest/model.py:361-367).
- A recorded answer is cached before it is validated (examples/python_llm/common/llm.py:304-317,
  examples/python_llm/naming_game/model.py:245-246,
  examples/python_llm/mini_commons_harvest/model.py:312-313). If it is malformed, or illegal at
  that moment, every retry at that place fails and none is charged; `Tapes.CompletableIff` gives
  the exact condition under which a step can complete.
- A captured checkpoint is accepted exactly while the clock and the decision cursor are at most
  10**9 (examples/python_llm/common/model.py:53-54). The naming game uses up to two cursor
  positions a tick, so the cursor may leave the range first.
- A recording is written with raw text (examples/python_llm/common/llm.py:315) and read line by
  line with `splitlines` (examples/python_llm/common/llm.py:163), which also splits at U+0085,
  U+2028 and U+2029. An answer with one of them completes its step, and the recording can no
  longer be opened (`CommonsStep.SpokenSeparatorBreaksRecording`).
- An answer is cached before its line is written (examples/python_llm/common/llm.py:312-316). One
  with a lone surrogate has no UTF-8 encoding: the write fails, the retry completes from the
  cache, and the recording lacks the answer and does not replay
  (`CommonsStep.SpokenSurrogateIsLost`). A prompt that quotes such text has no fingerprint
  (examples/python_llm/common/llm.py:209) and its step cannot complete (`Tapes.CompletableIff`).
- The loader limits the index of a line (examples/python_llm/common/llm.py:166-170), but the
  recorder does not (examples/python_llm/common/llm.py:304-316): from a checkpoint restored at
  cursor 10**9 a step of two prompts completes and leaves a recording that cannot be opened
  (`Checkpoint.RestoredStepOutrunsRecording`).
- Apart from these three cases recordings are sound. A live run's recording loads exactly when
  every line is in range and free of the separators, and then it replays exactly when every
  answer used could be written (`Tapes.RecordedRunReplays`). A guard that can be checked at each
  step keeps both (`Tapes.StepStaysFaithful`, `Tapes.GuardedRunReplays`), and it is exact
  (`Tapes.GuardIsExact`).
- An older naming scene without edge dates is restored exactly when a memory of each edge's
  meeting survives; an edge is never dated wrongly (`NamingRestore.EdgeComesBackIff`;
  examples/python_llm/naming_game/restore.py:49-64). Long notes come back shortened to 160
  characters (examples/python_llm/common/llm.py:335-337), an empty last decision comes back as an
  empty note (examples/python_llm/naming_game/model.py:83-95), and the last interaction comes back
  up to the order of its two players (examples/python_llm/naming_game/restore.py:21-28).
- The SIRS restore compares the number of people with a machine product
  (examples/go/sirs/model.go:140-141), so a grid of 2**32 rows and columns is accepted without
  people (`Sirs.EmptyHugeGridIsAccepted`); below 2**63 cells the check is exact
  (`Sirs.AcceptedFitsIff`), and the declared ranges stay far below.
- In `EvacueeAgent.step` the two branches that find an evacuee on fire, the empty candidate list
  and the clamp of the progress have no effect in any reachable state
  (examples/python_dqn/model.py:80-82, 86-87, 95-96 and 101).
- In the commons the fallback of `_move_toward_food` to waiting is unreachable
  (examples/python_llm/mini_commons_harvest/model.py:272).

## Model

| member | source | states |
|---|---|---|
| `Routes.NeighborsOf` | examples/python_dqn/model.py:566-573 | the neighbours of a cell are exactly the valid cells one step away |
| `Routes.BuildRouteDistanceMap` | examples/python_dqn/model.py:542-552 | the queue loop ends with the exact map: a cell is a key exactly when some walk of open cells leads to it from the target, and its value is the length of the shortest such walk |
| `Routes.RouteMapUnique` | examples/python_dqn/model.py:377-382 | two exact maps for the same fire and target are equal, so a cached map and a fresh search cannot differ |
| `Routes.LookupIsDistance` | examples/python_dqn/model.py:377-382 | looking a cell up gives the shortest walk length defined without any search, and `None` exactly when no walk exists |
| `Routes.NeighborDistances` | examples/python_dqn/model.py:98-101 | adjacent open cells differ by at most one in distance and share reachability |
| `Routes.AdvanceIsBounded` | examples/python_dqn/model.py:98-101 | a move to the same or an adjacent open cell changes the distance by at most one, so the clamp never changes the value |
| `Routes.GrowingFireLengthensRoutes` | examples/python_dqn/model.py:244-252 | a map computed before a fire spread only underestimates distances, and never loses a cell |
| `Routes.CloserNeighbor` | examples/python_dqn/model.py:542-552 | from every reachable cell other than the target some neighbour is exactly one closer |
| `Evacuation.EvacueeAgent.Step` | examples/python_dqn/model.py:76-101 | an active evacuee moves to a candidate cell and leaves on an exit; the returned progress is the unclamped change of exact distance; the two branches that would find it on fire are dead code under the invariant |
| `Evacuation.EvacuationModel.RouteDistance` | examples/python_dqn/model.py:377-382 | every read through the cache equals the exact distance for the current fire, and keeps the cache exact |
| `Evacuation.EvacuationModel.MovementCandidates` | examples/python_dqn/model.py:359-365 | the candidates are exactly the open cells at most one step away |
| `Evacuation.EvacuationModel.MoveGuide` | examples/python_dqn/model.py:426-441 | which exit is preferred, where the guide stands and whether the action counts as valid, for every action number |
| `Evacuation.EvacuationModel.ApplyGuideSignal` | examples/python_dqn/model.py:443-461 | exactly the active evacuees in range that follow take the preferred exit; the result is the number whose target changed |
| `Evacuation.EvacuationModel.SpreadFire` | examples/python_dqn/model.py:463-472 | the new fire is the old one plus exactly the burnable cells that some burning neighbour ignites; the cells ignited in this round do not spread in it |
| `Evacuation.EvacuationModel.ResolveFireExposure` | examples/python_dqn/model.py:474-481 | exactly the active evacuees on burning cells die |
| `Evacuation.EvacuationModel.CollectStepStats` | examples/python_dqn/model.py:483-519 | the deltas count those evacuated or dead and not yet counted, the flags are set for all of them, and the congestion is counted |
| `Evacuation.EvacuationModel.CountCongestion` | examples/python_dqn/model.py:506-511 | the counter and its surplus give the number of active evacuees minus the number of cells they occupy |
| `Evacuation.EvacuationModel.IsDone` | examples/python_dqn/model.py:274-275 | done exactly when everybody is resolved or the step budget is used |
| `Evacuation.EvacuationModel.constructor` | examples/python_dqn/model.py:146-180 | a fresh model on sampled cells is a valid initial state with everybody where the sampling put them |
| `EvacuationSetup.CreateEpisode` | examples/python_dqn/model.py:155-180 | the fire starts at one drawn source or at all of them; the guide and the evacuees get pairwise different free cells and nearest exits; creation fails exactly when the free cells do not suffice for all of them |
| `EvacuationSetup.GuideSpawn` | examples/python_dqn/model.py:575-581 | the guide starts in the centre when it is free, otherwise on some free cell, and fails exactly when there is none |
| `EvacuationSetup.SampleEvacueeSpawn` | examples/python_dqn/model.py:583-613 | a cell of the central area, between the outermost wall columns or in the middle third, while one is left, then any cell of the grid, and nothing exactly when all are taken |
| `EvacuationSetup.CentralIff` | examples/python_dqn/model.py:583-591 | the centre is what lies strictly between the outermost wall columns, and without two of them the middle third |
| `Evacuation.EvacuationModel.EnvStep` | examples/python_dqn/model.py:237-270 | one step is a step of the relation `Step` for the given action and draws, with its statistics, and the invariant and the cache exactness hold again |
| `Evacuation.HalvesMakeStep` | examples/python_dqn/model.py:244-259 | the phases in the order of the code compose to one step: guide, signal, moves, fire, exposure, counting |
| `Evacuation.StepKeepsInvariant` | examples/python_dqn/model.py:237-272 | every step keeps active evacuees off fire, walls and exits, and the accounting flags in agreement with the outcomes |
| `Evacuation.EpisodeSafety` | examples/python_dqn/model.py:237-275 | over any actions and draws the population is partitioned into active, evacuated and dead, the last two absorbing; the fire only grows and takes burnable cells only |
| `Evacuation.EpisodeAccounting` | examples/python_dqn/model.py:254-275 | the reported deltas add up to the final counts at every time, and the episode is over after at most `max_steps` steps |
| `Evacuation.DeltasAreDifferences` | examples/python_dqn/model.py:489-504 | the counts of not yet counted outcomes are the differences of the totals before and after the step |
| `EvacuationLaws.GuideAfterStep` | examples/python_dqn/model.py:426-441 | one step moves the guide up, down, left or right exactly when no wall and no fire is there, sideways actions prefer an outermost exit of that side and the others keep the preference; the action is valid exactly when it is known and does not run into an obstacle |
| `EvacuationLaws.TargetAfterStep` | examples/python_dqn/model.py:443-461 | in a step an evacuee takes the preferred exit exactly when there is one, it is active, at most the radius away from the guide in coordinates and draws to follow; otherwise it keeps its target |
| `EvacuationLaws.OutOfRangeKeepsTarget` | examples/python_dqn/model.py:443-461 | over every run an evacuee that is further than the radius from the guide in every step keeps its first target |
| `EvacuationLaws.FaresInStep` | examples/python_dqn/model.py:76-102 | an active evacuee goes at most one cell, onto no wall and no fire; it has left exactly on an exit and died exactly where the fire of this step burns; everybody else stays as it is |
| `EvacuationLaws.FireAfterStep` | examples/python_dqn/model.py:463-472 | a cell burns after a step exactly if it did before, or the interval is due and a burning cell beside it sets it alight |
| `EvacuationLaws.FireFront` | examples/python_dqn/model.py:244-252 | where nothing resists, after k steps exactly the cells burn that the first fire reaches cell by cell in the rounds so far |
| `EvacuationLaws.RoundsAreQuotient` | examples/python_dqn/model.py:250-252 | of the first k steps, k divided by the interval are rounds of the fire |
| `EvacuationLaws.DoneIff` | examples/python_dqn/model.py:274-276 | the episode is over exactly when the steps are used up or everybody has left or died |
| `EvacuationLaws.StepReports` | examples/python_dqn/model.py:483-519 | the reported redirects are the evacuees with another target, and the congestion is the number of active evacuees beyond the first of each cell, both as sizes of sets |
| `EvacuationLaws.DeltasAreNew` | examples/python_dqn/model.py:483-519 | the reported deltas are exactly the evacuees that left and that died in this step, as sizes of sets |
| `EvacuationLaws.ProgressIsGain` | examples/python_dqn/model.py:246-248 | the reported progress is the sum over all evacuees of how much closer to the new target they came |
| `EvacuationLaws.SomeMoveGains` | examples/python_dqn/model.py:384-407 | from every cell with a route some move gains exactly one |
| `ContactGraphs.IsConnected` | examples/python_llm/naming_game/network.py:67-67 | the search from one node answers true exactly when every two nodes are joined by a walk |
| `ContactGraphs.SwapKeepsDegrees` | examples/python_llm/naming_game/network.py:63-66 | a double-edge swap keeps the graph simple, the edge count and the degree of every node |
| `ContactGraphs.SwapBack` | examples/python_llm/naming_game/network.py:67-69 | the undo of a swap restores exactly the previous edge set |
| `ContactGraphs.ContactGraph.Propose` | examples/python_llm/naming_game/network.py:59-69 | a proposal is accepted exactly when its four ends differ, both new edges are absent and the swapped graph is connected; otherwise the edge set is exactly the old one |
| `ContactGraphs.ContactGraph.MixEdges` | examples/python_llm/naming_game/network.py:52-69 | the loop is a chain of such proposals of the given length, and its result is simple and connected with the same edge count and degrees |
| `ContactGraphs.MixingKeepsNetwork` | examples/python_llm/naming_game/network.py:52-69 | for any number of proposals and any samples every graph along the way is simple and connected, with the degrees of the first |
| `ContactNetworks.AddRegularRing` | examples/python_llm/naming_game/network.py:43-49 | the loop adds exactly the ring edges of the group |
| `ContactNetworks.RingDegree` | examples/python_llm/naming_game/network.py:43-49 | every node of a ring over distinct nodes has degree 2 * reach |
| `ContactNetworks.RingIsConnected` | examples/python_llm/naming_game/network.py:43-49 | a ring through all nodes is simple and connected |
| `ContactNetworks.CommunityIsRegular` | examples/python_llm/naming_game/scenarios.py:51-56 | the two rings with one edge of each replaced by two bridges are simple and degree-regular |
| `ContactNetworks.CommunityIsConnected` | examples/python_llm/naming_game/scenarios.py:51-56 | and connected, although each ring lost an edge |
| `ContactNetworks.CommunityBridges` | examples/python_llm/naming_game/scenarios.py:55-56 | exactly the two bridges join the communities |
| `ContactNetworks.BarbellIsConnected` | examples/python_llm/naming_game/scenarios.py:57-58 | the barbell over a shuffled order is connected |
| `ContactNetworks.BuildMixed` | examples/python_llm/naming_game/scenarios.py:59-61 | the ring and its mixing give a simple connected graph in which every degree is the configured one |
| `ContactNetworks.BuildCommunity` | examples/python_llm/naming_game/scenarios.py:51-56 | the community graph is simple, connected, regular and has two cross edges |
| `ContactNetworks.CreateContactNetwork` | examples/python_llm/naming_game/scenarios.py:23-68 | a configuration is accepted exactly when `validate_topology` passes with at least two agents, and then the network has the properties of its topology: complete graph, plain cycle, regular and connected, two cross edges, two cliques and one bridge |
| `ContactNetworks.ConnectedHasNeighbor` | examples/python_llm/naming_game/model.py:224-225 | in a connected network every node has a contact to choose |
| `ContactNetworks.BesideIsNext` | examples/python_llm/naming_game/model.py:222-223 | the modular step to either side of the cycle is an edge of the cycle, also across the ends of the list |
| `ContactNetworks.PickIsContact` | examples/python_llm/naming_game/model.py:219-228 | whatever pair the sampling can yield in a constructed network, it is the two distinct ends of an edge |
| `ContactNetworks.ChoosePair` | examples/python_llm/naming_game/model.py:219-228 | the chosen pair is always the two distinct ends of an edge |
| `Landscape.FindComponents` | examples/python_llm/mini_commons_harvest/scenarios.py:41-55 | the work-stack loop partitions the fertile cells into components that are connected and closed under cardinal adjacency |
| `Landscape.FillComponent` | examples/python_llm/mini_commons_harvest/scenarios.py:44-54 | one pass of the stack takes out exactly one closed connected component and leaves a closed rest |
| `Landscape.ComponentsAreReachability` | examples/python_llm/mini_commons_harvest/scenarios.py:41-55 | two fertile cells lie in one component exactly when a fertile path joins them |
| `Landscape.Regrow` | examples/python_llm/mini_commons_harvest/model.py:274-294 | the loop computes the synchronous regrowth of the previous grid, one draw for every cell in row order |
| `Landscape.RegrowthIsMonotone` | examples/python_llm/mini_commons_harvest/model.py:274-294 | with the same landscape and draws, a pointwise smaller grid and a rate that is not larger give a pointwise smaller grid |
| `Regrowth.GrowsExactly` | examples/python_llm/mini_commons_harvest/model.py:274-294 | a cell gains one unit exactly when it is fertile and not full, and five times its draw is less than the rate times the size of the set of live cells among it and those beside it; otherwise it is unchanged |
| `Regrowth.RecoveryGoesOn` | examples/python_llm/mini_commons_harvest/model.py:274-294 | each round with draws below a fifth of the rate makes one more cell of a component live until all are, and then adds a unit to each until they are full |
| `Commons.MiniCommons.constructor` | examples/python_llm/mini_commons_harvest/model.py:106-126 | a fresh model has full fertile cells and each agent on its fertile start cell with an empty memory |
| `Commons.MiniCommons.LegalActions` | examples/python_llm/mini_commons_harvest/model.py:128-139 | the listed actions are exactly the legal ones |
| `Commons.MiniCommons.MoveTowardFood` | examples/python_llm/mini_commons_harvest/model.py:254-272 | the chosen move is legal and strictly approaches a nearest food cell; the fallback to waiting is unreachable |
| `Commons.MiniCommons.AudibleMessages` | examples/python_llm/mini_commons_harvest/model.py:168-179 | what an agent hears: the last six unexpired messages of others sent within three steps, when messages are delivered |
| `Commons.MiniCommons.SignalDecision` | examples/python_llm/mini_commons_harvest/model.py:215-245 | the signalling rule: a harvest exactly above the reserve of one unit on warned cells, a warning exactly on a fertile cell of at most two units, otherwise a move towards a nearest unreserved food cell |
| `Commons.MiniCommons.RuleDecision` | examples/python_llm/mini_commons_harvest/model.py:194-252 | for all three rules the decision is one of the relation `Scripted`: acceptable, with the message of the rule, a harvest exactly above the reserve, otherwise a move towards a nearest visible food cell when there is one |
| `Commons.MiniCommons.ApplyAction` | examples/python_llm/mini_commons_harvest/model.py:336-346 | the new grid, the new position, the harvest credit and the gain, and that nothing else changes |
| `Commons.MiniCommons.PublishMessage` | examples/python_llm/mini_commons_harvest/model.py:363-377 | the filter keeps exactly the messages less than two rounds old; a non-empty one is appended |
| `Commons.MiniCommons.Accepts` | examples/python_llm/mini_commons_harvest/model.py:312-314 | an answer is accepted exactly when its action is legal and its message short enough |
| `CommonsPolicies.AcceptableIff` | examples/python_llm/mini_commons_harvest/model.py:128-139 | accepted exactly: waiting, harvesting at least one unit, and a move that stays between the edges, each with at most 160 letters |
| `Commons.MiniCommons.Step` | examples/python_llm/mini_commons_harvest/model.py:322-334 | the outcome of a decision: a missing or invalid one changes nothing, an accepted one makes the step `Next`, with regrowth at the end of a round |
| `Commons.RunIsSound` | examples/python_llm/mini_commons_harvest/model.py:316-346 | in every run every cell stays between zero and its capacity, barren cells stay empty and agents stay inside |
| `Commons.StockZeroIsExtinct` | examples/python_llm/mini_commons_harvest/model.py:396-399 | the stock metric of a component is zero exactly when all its cells are empty |
| `Commons.ExtinctionIsPermanent` | examples/python_llm/mini_commons_harvest/model.py:274-294 | once the stock of a component found by the flood fill is zero it is zero in every later state, whatever is decided and drawn |
| `CommonsLaws.RecoveryIsComplete` | examples/python_llm/mini_commons_harvest/model.py:274-334 | the converse of extinction over every run: while nothing is harvested and draws stay below a fifth of the rate, a component with one unit left is full after as many rounds as it has cells and a cell holds units, less two |
| `CommonsLaws.RoundsAreQuotient` | examples/python_llm/mini_commons_harvest/model.py:333-334 | after so many activations, their number divided by the number of agents are complete rounds |
| `CommonsLaws.StepActivates` | examples/python_llm/mini_commons_harvest/model.py:336-346 | a step moves the agent in turn one cell in the direction of its action, credits a harvest to it and changes nobody else |
| `CommonsLaws.CellAfterStep` | examples/python_llm/mini_commons_harvest/model.py:316-346 | after a step a cell has lost the unit harvested from it, and gained one exactly when the round ended and the growth condition held under the rate that the schedule of the drought leaves |
| `CommonsLaws.HarvestsAreCredited` | examples/python_llm/mini_commons_harvest/model.py:336-341 | over every run an agent is credited with exactly the harvests it made |
| `Commons.ConservingRespectsReserve` | examples/python_llm/mini_commons_harvest/model.py:198-203 | what the conserving rule decides never harvests the last unit of a cell |
| `Commons.ConserveNeverEmpties` | examples/python_llm/mini_commons_harvest/model.py:198-213 | in every run of the scripted policy under the conserving rule no fertile cell of any state is empty |
| `Commons.HeardWarningIsHeeded` | examples/python_llm/mini_commons_harvest/model.py:221-234 | under the signalling rule an agent that hears a warning of its own cell leaves its last unit |
| `CommonsPolicies.HeardWhenRecent` | examples/python_llm/mini_commons_harvest/model.py:168-178 | a message sent by another agent at most three cells away and less than two rounds ago is heard when delivery is on and fewer than six later ones are in earshot |
| `CommonsPolicies.OnlyEarshotIsHeard` | examples/python_llm/mini_commons_harvest/model.py:168-178 | nothing else is heard: exactly the smaller of six and the number of messages in earshot, and none without delivery |
| `CommonsPolicies.KeptIff` | examples/python_llm/mini_commons_harvest/model.py:194-198 | the greedy rule leaves nothing, the conserving one a unit, and the signalling one a unit exactly of the cells that a heard message warns of |
| `CommonsPolicies.HarvestsIff` | examples/python_llm/mini_commons_harvest/model.py:194-240 | a scripted agent harvests exactly when its own cell holds more than its rule keeps |
| `CommonsPolicies.ForagesTowards` | examples/python_llm/mini_commons_harvest/model.py:254-272 | a scripted agent that does not harvest but sees such a cell within two steps comes exactly one step closer to one that is nearest |
| `CommonsPolicies.SpeaksIff` | examples/python_llm/mini_commons_harvest/model.py:215-245 | the signalling rule warns of its own cell exactly when that is fertile with at most two units, and the other rules are silent |
| `Signals.HeardIff` | examples/python_llm/mini_commons_harvest/model.py:223-225 | a message is read as a warning of a cell exactly when all of it is the word and two numbers in digits for the cell |
| `Signals.WarningIsHeard` | examples/python_llm/mini_commons_harvest/model.py:223-231 | the warning of a cell is read back as a warning of that cell |
| `CommonsSignals.RecentIsAudible` | examples/python_llm/mini_commons_harvest/model.py:168-179 | one of the last six messages is heard by every agent that it reaches |
| `CommonsSignals.WarningStays` | examples/python_llm/mini_commons_harvest/model.py:363-377 | a warning is among the k latest messages k steps later, within two rounds, whatever is decided |
| `CommonsSignals.SignalKeepsLastUnit` | examples/python_llm/mini_commons_harvest/model.py:215-245 | in every run, after a signalling agent acted on a fertile cell of at most two units, nobody else of the rule who acts on that cell within six activations and two rounds takes its last unit |
| `Commons.DroughtNeverHelps` | examples/python_llm/mini_commons_harvest/model.py:274-302 | with the same draws the grid under a drought never exceeds the grid without it, in any cell after any number of rounds |
| `Commons.DroughtLowersTheRate` | examples/python_llm/mini_commons_harvest/scenarios.py:63-69 | the effective rate under a drought configuration is never above the normal one, in any round |
| `CommonsStock.ActivationConservesUnits` | examples/python_llm/mini_commons_harvest/model.py:336-346 | an activation leaves stock plus harvested units unchanged |
| `CommonsStock.UnitsNeverVanish` | examples/python_llm/mini_commons_harvest/model.py:316-346 | over every run stock plus harvested units never decreases, and is constant between two round ends |
| `CommonsMemory.ActedIsConsistent` | examples/python_llm/mini_commons_harvest/model.py:316-377 | one activation extends the log by its event, and every history, the queue and the last event still agree with the log |
| `CommonsMemory.RunIsConsistent` | examples/python_llm/mini_commons_harvest/model.py:316-377 | in every reachable state each bounded history holds the last activations of its agent without gaps, and the queue is exactly the messages of the last two rounds |
| `CommonsMemory.ActorRemembers` | examples/python_llm/mini_commons_harvest/model.py:348-361 | the history of the acting agent, cut to its size, holds its last activations without gaps |
| `CommonsMemory.QueueAdvances` | examples/python_llm/mini_commons_harvest/model.py:363-377 | expiring and appending moves the message window by exactly one activation |
| `CommonsStep.Step` | examples/python_llm/mini_commons_harvest/model.py:304-334 | the step is the transactional step of the tape with one prompt; a failure or an answer that is not legal at that moment changes no field, random state or cursor |
| `CommonsStep.ValidIsAcceptable` | examples/python_llm/mini_commons_harvest/model.py:312-314 | an answer passes the check exactly when its action is known and legal for the agent whose turn it is and its message is short |
| `CommonsStep.RunIsReachable` | examples/python_llm/mini_commons_harvest/model.py:316-377 | every experiment on a tape, with failures, retries and rewinds, stays among the states that agree with a log of activations |
| `CommonsStep.ExtinctionSurvivesStep` | examples/python_llm/mini_commons_harvest/model.py:274-294 | on the tape too, what is extinct stays extinct, whatever the provider answers |
| `CommonsStep.RetryPaysOnce` | examples/python_llm/mini_commons_harvest/model.py:323-328 | a failed step leaves everything in place, and its retry sends at most one request, none when the failed answer was recorded |
| `CommonsStep.IllegalAnswerIsFinal` | examples/python_llm/mini_commons_harvest/model.py:312-313 | a recorded answer that is illegal at that moment fails every retry of the step |
| `StepLaws.ActionsAreAnswered` | examples/python_llm/mini_commons_harvest/model.py:304-334 | a completed step does the action whose word the answer gives and says what it notes |
| `CommonsStep.SpokenSeparatorBreaksRecording` | examples/python_llm/common/llm.py:163-166 | concretely, from every commons state: an agent that waits and says two letters with U+2028 between them completes the step, and the recording cannot be opened |
| `CommonsStep.SpokenSurrogateIsLost` | examples/python_llm/common/llm.py:312-316 | concretely, one that says a lone surrogate completes on the retry, and the recording does not replay |
| `CommonsStep.CommonsRunReplays` | examples/python_llm/mini_commons_harvest/model.py:316-334 | every live run of the commons leaves a recording that loads exactly when its lines are legible, and then replays offline to the same grid, agents, messages and random states exactly when the answers used could be written |
| `SceneRecords.Records` | examples/python_llm/common/restore.py:10-19 | the layer is accepted exactly when no identity repeats, and the dictionary lists exactly its items |
| `SceneRecords.ListsIsUnique` | examples/python_llm/common/restore.py:10-19 | the dictionary does not depend on the order of the items |
| `SceneRecords.ValidateHistory` | examples/python_llm/common/restore.py:39-46 | accepted exactly when there are at most `memory` entries with strictly increasing ticks between 1 and the current tick |
| `CommonsRestore.CollectEvents` | examples/python_llm/mini_commons_harvest/restore.py:49-64 | the dictionary holds exactly the remembered activations; valid histories without a repeated tick are never rejected |
| `CommonsRestore.GatherMessages` | examples/python_llm/mini_commons_harvest/restore.py:65-75 | the queue rebuilt in order of the ticks, limited to two rounds |
| `CommonsRestore.RebuildGrid` | examples/python_llm/mini_commons_harvest/restore.py:26-47 | the grid is accepted exactly when every cell carries its own coordinates, its own fertility and a value within capacity, and then holds the published values |
| `CommonsRestore.RebuildAgents` | examples/python_llm/common/restore.py:22-36 | the agents are read in order of identity with the row turned back, or rejected exactly when a record is out of range |
| `CommonsRestore.DecodeLayers` | examples/python_llm/mini_commons_harvest/restore.py:22-49 | the layers of a reachable state, in any order of their records, decode to its grid and agents |
| `CommonsRestore.RestoreLayers` | examples/python_llm/mini_commons_harvest/restore.py:9-83 | a rejected scene changes nothing; the scene of a reachable state, in any order, is accepted and brings back grid, agents, last event and the recoverable queue |
| `CommonsRestore.QueueComesBackIff` | examples/python_llm/mini_commons_harvest/restore.py:65-75 | the rebuilt queue is the whole queue exactly when the memory is at least two or no waiting message is older than one round |
| `CommonsRestore.RestorationIsExactIff` | examples/python_llm/mini_commons_harvest/restore.py:9-83 | restoration is the exact inverse of the projection under exactly that condition |
| `CommonsRestore.MemoryOfOneLosesAMessage` | examples/python_llm/mini_commons_harvest/restore.py:65-75 | with a memory of one and two agents a message still waiting after three turns is lost |
| `CommonsRestore.ReachableIsLoadable` | examples/python_llm/mini_commons_harvest/model.py:418-452 | `load_state` accepts every reachable state up to the clock limit |
| `Tapes.DecisionTape.Live` | examples/python_llm/common/llm.py:143-158 | a live tape starts with an empty cache, cursor zero, its call budget and, with a record path, no lines |
| `Tapes.DecisionTape.Open` | examples/python_llm/common/llm.py:160-175 | a recording loads exactly when every index is at most 10**9, no line holds a raw line separator, and no key is bound to two different lines; the cache is then its lines by key |
| `Tapes.DecisionTape.Decide` | examples/python_llm/common/llm.py:204-317 | one decision, in every branch: prompt too long or without an encoding, recorded, missing while replaying, budget exhausted, failed, completed, and completed but cached only, when the line of the recording cannot be encoded |
| `Tapes.DecideFollows` | examples/python_llm/common/llm.py:204-317 | on any tape no key is ever rebound and no call given back; on a live one calls never exceed the budget and the recording lists exactly those cached answers whose lines can be encoded |
| `TapeCosts.DecideIsBilled` | examples/python_llm/common/llm.py:204-317 | a request that is sent costs one call and its tokens whatever comes back; a failure records nothing and answers nothing |
| `TapeCosts.RunIsBilled` | examples/python_llm/common/llm.py:204-317 | over any run, with failures, rewinds and rejected answers, the calls are exactly the requests sent and the tokens the sum of what they were charged |
| `TapeCosts.SentBudgetIsFinal` | examples/python_llm/common/llm.py:220-232 | a live tape never sends more requests than its budget, failed ones included, and once it has sent as many every continuation completes by recorded answers alone |
| `TapeCosts.FailuresExhaustBudget` | examples/python_llm/common/llm.py:220-232 | as many failing tries as the budget are the end: no later try completes, whatever the provider would answer |
| `TapeCosts.LastCallCompletes` | examples/python_llm/common/llm.py:220-232 | with one failure fewer the next good answer completes the step |
| `TapeCosts.UnaskableNeverCompletes` | examples/python_llm/common/llm.py:204-209 | a step whose first prompt is too long or holds a lone surrogate is never completed and costs nothing |
| `TapeCosts.LoadIff` | examples/python_llm/common/llm.py:160-175 | a recording loads exactly when every line is in range and free of the separators and no two lines give one place different answers; then the cache is exactly its lines |
| `Tapes.DecisionTape.AskAll` | examples/python_llm/naming_game/model.py:255-261 | the answers of one step in order, with the cursor rolled back on a failure |
| `Tapes.AttemptReplays` | examples/python_llm/common/llm.py:210-214 | an attempt that completed on any tape completes identically, without a live call, from any agreeing tape that holds an answer at each of its places |
| `Tapes.AttemptMisses` | examples/python_llm/common/llm.py:215-218 | a replaying tape without an answer at one of the places of an attempt does not complete it |
| `Tapes.RunReplays` | examples/python_llm/common/llm.py:210-218 | a whole run from any tape, live or replaying, repeats by its completed steps, rewinds and outside changes from any agreeing tape that holds the answers used; a replaying tape that lacks one of them does not complete the replay |
| `Tapes.RecordedRunReplays` | examples/python_llm/common/llm.py:135-175 | a live run with any failures, retries, rewinds and outside changes leaves a recording that loads exactly when every line is in range and free of the raw separators, and then the replay completes exactly when every answer used has a line that can be encoded, in the same state and at the same cursor with no live call |
| `Tapes.StepStaysInRange` | examples/python_llm/common/llm.py:166-169 | a step whose last request is at or before the limit keeps every recorded index in range, whatever it records |
| `Tapes.StepStaysFaithful` | examples/python_llm/common/llm.py:304-316 | under its guard (last request at or before the limit, prompts and received answers without lone surrogates and raw separators) a step that completes or fails keeps the recording loadable and complete |
| `Tapes.GuardIsExact` | examples/python_llm/common/llm.py:304-316 | when all answers of a completed attempt are new, its recording stays loadable and complete exactly under that guard |
| `Tapes.GuardedRunReplays` | examples/python_llm/common/llm.py:135-175 | a live run whose steps meet their guards leaves a recording that loads and replays |
| `Tapes.SeparatorBreaksRecording` | examples/python_llm/common/llm.py:163-166 | a valid answer with a raw line separator completes its step at index zero, and its recording cannot be opened |
| `Tapes.UnwritableAnswerIsLost` | examples/python_llm/common/llm.py:312-316 | a valid answer with a lone surrogate fails its step, the retry completes from the cache without a further call, and the recording lacks the answer, so the replay fails |
| `Tapes.RecordingOutrunsTheLimit` | examples/python_llm/common/llm.py:304-317 | concretely, two answers from cursor 10**9 on make a recording that cannot be opened |
| `Tapes.AttemptPaysForMissing` | examples/python_llm/common/llm.py:210-232 | an attempt pays at most for the answers that are not recorded |
| `Tapes.RetryPaysForTheRest` | examples/python_llm/common/model.py:80-93 | for any client and any tape a failed step changes neither state nor cursor, and its retry pays only for the answers still missing |
| `Tapes.CompletableIff` | examples/python_llm/common/llm.py:204-317 | on any tape, an attempt can complete under some behaviour of the provider exactly when all prompts fit and have an encoding, no recorded answer at its places is invalid, the remaining budget covers the missing ones, and some valid answer can be stored for them |
| `Tapes.RecordedNonsenseIsFinal` | examples/python_llm/common/llm.py:304-317 | concretely, a malformed second answer that was recorded fails every retry |
| `Naming.NamingGame.constructor` | examples/python_llm/naming_game/model.py:125-147 | a fresh game with its network and initial names: nobody has scored, nothing is remembered |
| `Naming.NamingGame.RememberInteraction` | examples/python_llm/naming_game/model.py:282-297 | one player adopts its answer, is paid and keeps its configured number of memories |
| `Naming.NamingGame.RecordEdge` | examples/python_llm/naming_game/model.py:299-308 | edges of age twelve and the edge of the same pair go; the new one is appended with its ends in order |
| `Naming.NamingGame.ApplyInteraction` | examples/python_llm/naming_game/model.py:264-280 | the whole new state of an interaction; the random states stay |
| `Naming.NamingGame.ApplyTreatment` | examples/python_llm/naming_game/model.py:164-173 | an invalid treatment changes nothing; an accepted one sets topology, minority and fixed name, installs a network of that topology and restarts the measurement window, and nothing else |
| `Naming.NamingGame.LoadState` | examples/python_llm/naming_game/model.py:379-436 | a candidate is installed exactly when it passes every check, with edge ages recomputed; a rejected one changes nothing |
| `Naming.InteractionIsConsistent` | examples/python_llm/naming_game/model.py:264-308 | an interaction extends the log, and every memory, edge, window and the ledger still agree with it |
| `Naming.RunIsConsistent` | examples/python_llm/naming_game/model.py:164-308 | the same for every reachable state, across treatments |
| `Naming.ScoresMove` | examples/python_llm/naming_game/model.py:286-287 | the total score moves by two up on success and two down otherwise |
| `Naming.NamingLedger` | examples/python_llm/naming_game/model.py:264-308 | in every run the scores sum to 4 * successes - 2 * tick, and the recent edges are at most twelve distinct ordered pairs less than twelve ticks old |
| `NamingLaws.RecentEdgesAreLatest` | examples/python_llm/naming_game/model.py:299-308 | in every run the recent edges are dated by exactly those of the last twelve meetings whose pair has not met again since |
| `NamingLaws.WindowIsExact` | examples/python_llm/naming_game/model.py:164-173 | in every run the window is the meetings since the last treatment, up to the last four for each player |
| `NamingLaws.TreatmentIsDated` | examples/python_llm/naming_game/model.py:164-173 | the stored tick is that of the last treatment of the run |
| `NamingLaws.MemoriesAreExact` | examples/python_llm/naming_game/model.py:264-297 | in every run a memory is the latest meetings of its player without a gap, full or complete; the score is one up for each success and one down for each failure, and the name is the last one used |
| `Naming.ReachableIsLoadable` | examples/python_llm/naming_game/model.py:379-436 | `load_state` accepts every reachable state up to the clock limit |
| `NamingRestore.CollectMeetings` | examples/python_llm/naming_game/restore.py:9-31 | the meetings are exactly those remembered, both sides reconciled; memories of a reachable state never conflict |
| `NamingRestore.EdgeComesBackIff` | examples/python_llm/naming_game/restore.py:49-74 | an edge comes back exactly, or is rejected precisely when it carries no date and no memory of its meeting is left; it is never dated wrongly |
| `NamingRestore.EarlierMeansCollected` | examples/python_llm/naming_game/restore.py:52-61 | a remembered earlier meeting of a pair implies that its latest meeting is remembered too |
| `NamingRestore.RestoreEdges` | examples/python_llm/naming_game/restore.py:48-74 | the edge list is accepted exactly when each edge is, in order |
| `NamingRestore.ContactsMatch` | examples/python_llm/naming_game/restore.py:39-47 | the contacts are accepted exactly when they list every edge of the active network once, either end first |
| `NamingRestore.RebuiltFitsWindow` | examples/python_llm/naming_game/restore.py:86-90 | the rebuilt window is within four rounds, increasing, made of real meetings, and passes the load checks |
| `NamingRestore.RebuiltIsRemembered` | examples/python_llm/naming_game/restore.py:86-90 | the rebuilt window is, in order, exactly the meetings of the last four rounds that some player still remembers |
| `NamingRestore.CandidateIsRecovered` | examples/python_llm/naming_game/restore.py:75-92 | the assembled candidate has the successes, scores, histories and edges of the state and passes every load check |
| `NamingRestore.RestoreLayers` | examples/python_llm/naming_game/restore.py:8-92 | a rejected scene changes nothing; the scene of a reachable state is accepted exactly when each recent edge is dated or remembered, and then successes, scores, histories and recent edges come back exactly, and last decisions as published: an empty record as an empty note; the window holds exactly the remembered meetings of the last four rounds |
| `NamingRestore.PublishesAgain` | examples/python_llm/naming_game/model.py:83-95 | a restored game publishes the same players as the scene it was restored from |
| `NamingStep.Step` | examples/python_llm/naming_game/model.py:249-262 | the step is the transactional step of the tape: a failure changes no field, random state or cursor; a completed one advances the clock by one, between two neighbours of the network |
| `NamingStep.PickedMeet` | examples/python_llm/naming_game/model.py:219-228 | in the network of the moment, also after a treatment, the two players of a step are distinct neighbours |
| `StepLaws.NamesAreAnswered` | examples/python_llm/naming_game/model.py:230-262 | a completed step lets the two drawn players meet in that order, each with the fixed name if it belongs to the minority and otherwise with the name its own answer writes |
| `StepLaws.MinorityIsExact` | examples/python_llm/naming_game/model.py:150-152 | a shuffle of all players fixes exactly as many as the configuration commits |
| `NamingStep.StepIsConsistent` | examples/python_llm/naming_game/model.py:249-308 | a step of a reachable game extends its log by one meeting along an edge, or changes nothing |
| `NamingStep.RunIsReachable` | examples/python_llm/naming_game/model.py:164-280 | every experiment on a tape, with failures, retries, treatments and rewinds, stays among the reachable games |
| `NamingStep.RetryPaysForTheSecondAnswer` | examples/python_llm/naming_game/model.py:255-261 | a step that fails on its second answer leaves everything in place, and its retry sends at most one request |
| `NamingStep.MalformedSecondAnswerIsFinal` | examples/python_llm/naming_game/model.py:245-261 | if that second answer was recorded and malformed, every retry fails |
| `NamingStep.NamingRunReplays` | examples/python_llm/naming_game/model.py:249-280 | every live run of the game, across treatments, leaves a recording that loads exactly when its lines are legible, and then replays offline to the same players, ledger, edges and random states exactly when the answers used could be written |
| `Checkpoint.CheckpointModel.Restore` | examples/python_llm/common/model.py:42-65 | accepted exactly when every check passes; a rejected payload changes neither model nor provider; an accepted one moves the cursor and no counter |
| `Checkpoint.CheckpointModel.Reset` | examples/python_llm/common/model.py:67-73 | a fresh state with the same answer cache and counters, cursor zero |
| `Checkpoint.CheckpointModel.Install` | examples/python_llm/common/model.py:75-78 | the model takes over every declared field of the candidate |
| `Checkpoint.CheckpointModel.TransactionRollback` | examples/python_llm/common/model.py:88-93 | random states and cursor go back; counters and cache stay |
| `Checkpoint.CaptureRestoresIff` | examples/python_llm/common/model.py:26-65 | capture followed by restore is the identity exactly when the load check accepts the state unchanged and clock and cursor are at most 10**9 |
| `Checkpoint.RestoredFutureRepeats` | examples/python_llm/experiments.py:54-61 | capture, run on, restore, repeat: for every client, on a live tape and on a replaying one, the checkpoint is accepted and the repetition ends in the same capture without a live call, exactly when the load check returns the captured state and clock and cursor are in range |
| `Checkpoint.RestoredStepOutrunsRecording` | examples/python_llm/common/model.py:54-65 | from a checkpoint restored at the last accepted cursor a step of two prompts completes, and its recording cannot be opened |
| `CheckpointModels.NamingCheckpointIff` | examples/python_llm/common/model.py:53-58 | a reachable naming state survives capture and restore exactly when clock and cursor are at most 10**9 |
| `CheckpointModels.CommonsCheckpointIff` | examples/python_llm/common/model.py:53-58 | the same for the commons |
| `CheckpointModels.NamingContinuationRepeats` | examples/python_llm/experiments.py:54-61 | from a reachable naming game every continuation, across failures, retries, treatments and rewinds, repeats from its checkpoint exactly when clock and cursor are in range |
| `CheckpointModels.CommonsContinuationRepeats` | examples/python_llm/experiments.py:54-61 | the same for a reachable commons |
| `CheckpointModels.NamingRecordingCanOutrun` | examples/python_llm/common/model.py:54-65 | a reachable game restored at cursor 10**9 completes a step whose recording no longer opens |
| `Schelling.SchellingModel.ScanNeighbors` | examples/python_mesa/schelling.py:52-60 | the scan counts the occupied and the same-group cells among the eight neighbours |
| `Schelling.SchellingModel.NeighborCounts` | examples/python_mesa/schelling.py:165-180 | every read, cached or not, equals a fresh scan |
| `Schelling.SchellingModel.IsSatisfied` | examples/python_mesa/schelling.py:44-60 | satisfaction is judged on the fresh counts in both modes |
| `Schelling.SchellingModel.SegregationIndex` | examples/python_mesa/schelling.py:182-190 | the index read through the cache is that of the current world |
| `SchellingLaws.CountsAreSizes` | examples/python_mesa/schelling.py:165-180 | the two counts are the sizes of the sets of alike and of occupied cells among the eight around the agent |
| `SchellingLaws.SatisfiedIff` | examples/python_mesa/schelling.py:44-60 | satisfied exactly when the alike neighbours are at least the threshold times all neighbours, hence always without neighbours |
| `SchellingLaws.SegregationIsMean` | examples/python_mesa/schelling.py:182-190 | the index is the mean share over exactly the agents that have neighbours, and zero without any |
| `Schelling.SchellingModel.SetCell` | examples/python_mesa/schelling.py:23-28 | a move to an empty cell changes that one position and leaves no stale count |
| `Schelling.SchellingModel.SetGroup` | examples/python_mesa/schelling.py:34-37 | regrouping changes one group and leaves no stale count |
| `Schelling.SchellingModel.Add` | examples/python_mesa/schelling.py:39-42 | a new agent is appended on its cell and leaves no stale count |
| `Schelling.SchellingModel.Remove` | examples/python_mesa/schelling.py:23-28 | a removed agent frees its cell, the others keep theirs, and no stale count is left |
| `Schelling.SchellingModel.SetThreshold` | examples/python_mesa/schelling.py:126-128 | the threshold is clamped and needs no invalidation |
| `Schelling.SchellingModel.Advance` | examples/python_mesa/schelling.py:139-153 | one call is a tick that reports min(unsatisfied, empty) moves, one agent stands on a cell, and the cache stays exact |
| `Schelling.TickMovesExactly` | examples/python_mesa/schelling.py:140-153 | the number of agents that stand elsewhere afterwards is the number reported, and is the minimum of the unsatisfied agents and the empty cells |
| `Schelling.TickKeepsOnePerCell` | examples/python_mesa/schelling.py:139-153 | a tick keeps one agent per cell and every group, and moves only unsatisfied agents, each to a cell that was empty |
| `Schelling.StandstillIff` | examples/python_mesa/schelling.py:145-153 | a tick moves nobody exactly when everybody is satisfied or no cell is empty |
| `Schelling.StandstillIsFinal` | examples/python_mesa/schelling_study.py:87-94 | once a tick moves nobody no later tick does, under any shuffles |
| `Schelling.AdvanceTrial` | examples/python_mesa/schelling_study.py:87-94 | the trial is a run of ticks that uses the whole budget or stops after its first tick without movement |
| `Schelling.Summarize` | examples/python_mesa/schelling_study.py:97-108 | the outcome of a trial: limit, satisfied or jammed |
| `Schelling.EarlyStopIsSound` | examples/python_mesa/schelling_study.py:87-108 | stopping early ends in the world of every longer run, and jammed implies that no cell is empty |
| `PredatorPrey.AxisStepApproaches` | examples/python/predator_prey.py:162-167 | one step along an axis is exactly one closer around the ring, unless already there |
| `PredatorPrey.DistanceSqIsProduct` | examples/python/predator_prey.py:178-181 | the distance used is the sum of the squared toroidal differences along the two axes |
| `PredatorPrey.PursuitApproaches` | examples/python/predator_prey.py:169-181 | a chase strictly lowers the squared toroidal distance, and stands still exactly on the target |
| `PredatorPrey.HuntingApproaches` | examples/python/predator_prey.py:228-241 | a wolf that sees prey comes strictly closer to the first of the closest, or stands on it and eats |
| `PredatorPrey.EatingKeepsIndex` | examples/python/predator_prey.py:245-249 | popping the last sheep of a cell and filtering the herd by identity leave the index exact, in order |
| `PredatorPrey.PredatorPreySimulation.BuildIndex` | examples/python/predator_prey.py:218-220 | the index lists at each cell exactly the sheep standing there, in herd order |
| `PredatorPrey.PredatorPreySimulation.FindPrey` | examples/python/predator_prey.py:228-240 | the target is the first of the closest visible sheep, and missing exactly when none is visible |
| `PredatorPrey.PredatorPreySimulation.Graze` | examples/python/predator_prey.py:194-202 | age, energy, place and pasture after the turn of one sheep |
| `PredatorPrey.PredatorPreySimulation.Feed` | examples/python/predator_prey.py:224-249 | one wolf: where it goes, what it eats, its energy; herd and index agree again |
| `PredatorPrey.PredatorPreySimulation.SheepPhase` | examples/python/predator_prey.py:192-216 | the sheep loop: survivors in order and newborn at the end, for the recorded turns |
| `PredatorPrey.PredatorPreySimulation.WolfPhase` | examples/python/predator_prey.py:222-263 | the wolf loop, with the index equal to the herd before every turn |
| `PredatorPrey.PredatorPreySimulation.Step` | examples/python/predator_prey.py:189-267 | one step is a step of the relation `Stepped`, and the world is sound again |
| `PredatorPrey.StepKeepsSound` | examples/python/predator_prey.py:189-267 | identities stay unique, everybody stays on the torus, and every animal afterwards is an old one or has a new identity |
| `PredatorPrey.StepAccounting` | examples/python/predator_prey.py:194-267 | the final sheep count is survivors plus births minus wolves that ate |
| `PredatorPrey.IdentitiesNeverReturn` | examples/python/predator_prey.py:118-136 | over a whole run an identity that died out never returns |
| `PredatorPrey.BirthsConserveEnergy` | examples/python/predator_prey.py:209-214 | births share energy and never create it |
| `PredatorPrey.GrazingLedger` | examples/python/predator_prey.py:195-202 | after grazing the total energy is the old one minus a loss for each sheep plus a gain for each meal |
| `PredatorPrey.HuntingLedger` | examples/python/predator_prey.py:225-249 | after the hunt the total energy is the old one minus a loss for each wolf plus a gain for each kill |
| `PredatorPrey.StepLedger` | examples/python/predator_prey.py:189-267 | the energy ledger of a whole step: sheep change by losses, meals, written-off debts of the starved and the energy of the sheep eaten; wolves by losses, kills and debts; births change nothing |
| `PredatorPrey.CellFeedsOnce` | examples/python/predator_prey.py:199-202 | with a positive regrowth time no cell feeds two sheep in one step |
| `PredatorPreyLaws.GrassGrowsBack` | examples/python/predator_prey.py:183-205 | over every run the timer of a cell that was eaten and then left alone is the regrowth time less the steps since the meal, and never below zero |
| `PredatorPreyLaws.FeedsAgainIff` | examples/python/predator_prey.py:183-205 | the next sheep to reach the cell in a later step eats exactly when the regrowth time has passed |
| `PredatorPreyLaws.VisibleIff` | examples/python/predator_prey.py:178-222 | a wolf sees exactly the sheep within its radius, by the shorter ways round the torus |
| `PredatorPreyLaws.WandersIff` | examples/python/predator_prey.py:158-160 | a random move leads to exactly the cells at most one step away round the torus |
| `PredatorPreyLaws.WolvesHunt` | examples/python/predator_prey.py:224-250 | each wolf in turn takes one step, the shorter way round and along the axis of the larger difference, towards the first of the closest sheep left by the wolves before it, or at most one step when none is within its radius, and the last sheep on the cell it reaches is eaten |
| `PredatorPreyLaws.BirthsOfStep` | examples/python/predator_prey.py:189-267 | the next numbers and herd sizes by the sizes of sets: who has energy left stays, and sheep with six and wolves with fourteen units bear when they draw to |
| `PredatorPreyLaws.WolfInStep` | examples/python/predator_prey.py:215-263 | a wolf ages by one, pays its loss and gains by a meal exactly when a sheep stands on its cell; with energy left it is in the next pack, with half of it and a young one beside it if it bears |
| `PredatorPreyLaws.SheepInStep` | examples/python/predator_prey.py:194-211 | the same for a sheep and the herd that the wolves find |
| `RandomWalk.StepRandomWalk` | benchmarks/shared/random-walk.ts:40-56 | in-place walking of the agents computes the walk function and consumes two draws for each walk |
| `RandomWalk.CreateTrace` | benchmarks/shared/random-walk.ts:62-77 | every recorded frame holds its own delta to the end, although the agents are mutated in place, and the initial agents are regenerated |
| `RandomWalk.ApplyDelta` | benchmarks/shared/random-walk.ts:79-90 | fails exactly when an update names an unknown agent, after applying the updates before it |
| `RandomWalk.TraceExpected` | benchmarks/shared/random-walk.ts:92-101 | fails exactly when more steps than frames are asked for; otherwise equals the direct simulation |
| `RandomWalk.Expected` | benchmarks/shared/random-walk.ts:113-121 | the mutable simulation computes the walk function over the given ticks |
| `RandomWalk.AppliedAt` | benchmarks/shared/random-walk.ts:83-89 | an agent absent from a delta is unchanged, one that is present gets its value |
| `RandomWalk.UntouchedStays` | benchmarks/shared/random-walk.ts:47-53 | an agent that is no walker of a tick does not move |
| `RandomWalkLaws.RunIsOneSequence` | benchmarks/shared/random-walk.ts:40-56 | a run is one sequence of walks across its ticks: walk n moves agent n modulo their number, and each tick goes on where the last one stopped |
| `RandomWalkLaws.SplitDoesNotMatter` | benchmarks/shared/random-walk.ts:40-56 | the same number of walks gives the same positions however it is split into ticks |
| `RandomWalkLaws.EverybodyOnce` | benchmarks/shared/random-walk.ts:46-48 | any agentCount consecutive walks move every agent exactly once |
| `RandomWalk.DeltaAdvances` | benchmarks/shared/random-walk.ts:62-77 | a delta turns the positions before its tick into those after it, also when an agent walks several times in the tick |
| `RandomWalk.TraceRefinesSimulation` | benchmarks/shared/random-walk.ts:92-121 | replaying any prefix of the deltas from the regenerated start gives the directly simulated positions |
| `Sirs.Model.Reset` | examples/go/sirs/model.go:57-75 | the loop computes the reset state: everybody susceptible except the sample |
| `Sirs.ShuffleKeepsPermutation` | examples/go/sirs/model.go:65-73 | the index list stays a permutation in every round |
| `Sirs.PickedGrows` | examples/go/sirs/model.go:69-73 | a later round leaves the indices already picked alone |
| `Sirs.ResetInfects` | examples/go/sirs/model.go:57-75 | exactly min(InitialInfected, n) distinct people are infected and all others susceptible |
| `Sirs.NeighborsShareASide` | examples/go/sirs/model.go:77-93 | the neighbours are exactly the cells of the grid that share a side |
| `Sirs.Model.Step` | examples/go/sirs/model.go:95-118 | the tick reads the old states only and consumes draws in the order of the code; it leads from restorable states to restorable ones |
| `Sirs.StepIsSynchronous` | examples/go/sirs/model.go:95-118 | everybody keeps the identity, moves along the cycle, and catches the disease only from a neighbour infected before the tick |
| `SirsLaws.DrawsDecide` | examples/go/sirs/model.go:95-118 | a susceptible person is infected exactly when one of as many draws as it has infected neighbours is below beta, an infected one recovers exactly when its draw is below gamma, and a recovered one is susceptible again exactly when its draw is below xi |
| `SirsLaws.ExtremeRates` | examples/go/sirs/model.go:95-118 | with gamma zero nobody recovers and with gamma one everybody infected does; with beta zero nothing passes on and with beta one every contact infects; with xi zero immunity stays and with xi one it lasts one tick |
| `SirsLaws.RecoveryIsFinal` | examples/go/sirs/model.go:110-113 | with xi zero whoever has recovered stays recovered over every run |
| `Sirs.InfectionTravels` | examples/go/sirs/model.go:95-118 | over every run the disease travels at most one cell a tick |
| `Sirs.ExtinctionIsFinal` | examples/go/sirs/model.go:95-118 | an epidemic that has died out stays out, whatever the rates become |
| `Sirs.Model.Counts` | examples/go/sirs/model.go:120-133 | the three counts, which add up to the population when every state is known |
| `SirsLaws.CountIsSize` | examples/go/sirs/model.go:120-133 | a count is the number of people in that state |
| `Sirs.Model.Restore` | examples/go/sirs/model.go:139-153 | accepted exactly when the parameters are in range, the number of people is the 64-bit product of the dimensions and they are in order; then the whole state is the checkpoint, and a rejected one changes nothing |
| `Sirs.AcceptedFitsIff` | examples/go/sirs/model.go:140-141 | an accepted checkpoint has one person for each cell exactly when the number of cells is a machine integer |
| `Sirs.EmptyHugeGridIsAccepted` | examples/go/sirs/model.go:140-141 | concretely, 2**32 rows and columns without a single person are accepted |
| `Sirs.StepIsRestorable` | examples/go/sirs/model.go:95-153 | a tick from an accepted state with one person for each cell gives another one |
| `Sirs.ResetIsRestorable` | examples/go/sirs/model.go:57-75 | a reset gives a state that Restore accepts, with one person for each cell exactly when the number of cells is a machine integer |
| `Sirs.Model.RestorePeople` | examples/go/sirs/state_restore.go:27-56 | accepted exactly when there is one readable item for each person, without repetition; a rejected list leaves the people alone |
| `Sirs.EverySlotIsFilled` | examples/go/sirs/state_restore.go:31-53 | as many distinct places as there are slots leave no slot empty |
| `Sirs.FilledIsUnique` | examples/go/sirs/state_restore.go:31-53 | the accepted items determine the people |
| `Sirs.SceneRestoresPeople` | examples/go/sirs/state_restore.go:27-56 | the published people, in any order, are accepted and only they fit the items |

## Left out

- Evacuation.EvacueeAgent.Step: does not model the scores of the moves, which are floating point; any candidate cell may be chosen.
- Evacuation.EvacuationModel.MoveGuide: among exits with the same column any may be preferred, because the code iterates over a set.
- Evacuation.EvacuationModel.EnvStep: does not model the reward, the state tensor and the info dictionary, nor training; the running flag is the negation of the returned `done`.
- Evacuation.EvacuationModel.constructor: takes the drawn fire and sampled cells; drawing and sampling them is `EvacuationSetup.CreateEpisode`.
- EvacuationSetup.SampleEvacueeSpawn: walls are taken to stand on the grid; between walls outside of it the code could choose a cell outside.
- ContactGraphs.IsConnected: models the library's test by a search; the library itself is not part of this model.
- ContactNetworks.BuildCommunity: adds edges to a set; the insertion order of the graph library is not modelled.
- Landscape.FindComponents: any remaining cell may start a component and components are not sorted; the code starts from the least one and sorts.
- Commons.MiniCommons.RuleDecision: does not model how exploration picks among the non-harvesting actions; the rule of a model does not change during a run.
- Signals.HeardIff: digits are the ASCII ones; the code also reads other decimal digits of Unicode, which its own warnings never use.
- Commons.MiniCommons.MoveTowardFood: any nearest target and any improving move may be chosen; the code draws them.
- CommonsRestore.RestoreLayers: the metadata of the layers and the type checks of a dynamic language are not modelled; identities are numbers instead of strings.
- NamingRestore.RestoreLayers: the restored measurement window is made of remembered meetings only and the treatment tick restarts at zero, as in the code.
- Naming.NamingGame.RecordEdge: players are numbered, so the ends of an edge are ordered by number; the code orders the identity strings.
- Naming.NamingGame.ApplyTreatment: takes the seeded shuffle of the players as a parameter.
- NamingStep.Step: models the provider's policy; the scripted rules and the text of the prompts are left out. Shuffles, minority and network are functions of the configuration that yield what the generator guarantees.
- CommonsStep.Step: models the provider's policy; the scripted policy is `Commons.MiniCommons.RuleDecision`, and the text of the prompts is left out.
- Tapes.DecisionTape.Decide: the HTTP client, its error texts and the hash of the request are replaced by an oracle and an abstract fingerprint. The model name on a line is taken to be plain text; answers nested beyond the interpreter's recursion limit and failures of the disk are left out.
- Tapes.DecisionTape.Open: takes the lines as the recorder writes them; JSON syntax, other damage to the file and a reader's default encoding other than UTF-8 are left out.
- Checkpoint.CheckpointModel.Restore: the JSON encoding of the random states is not modelled; a configuration check and a load check are parameters.
- Schelling.SchellingModel.SetCell: requires the target to be empty; what the grid library does with a move onto a full cell is not modelled.
- Schelling.SchellingModel.ChooseMoves: the shuffles are arbitrary; data collection and the initial population draw are left out.
- PredatorPrey.PredatorPreySimulation.SheepPhase: animals are values in sequences that the methods reassign, so aliasing between the old list and the new one is not captured; energies are reals.
- PredatorPrey.PredatorPreySimulation.constructor: starts without animals; the initial placement is left out.
- RandomWalk.TraceExpected: positions are compared in order of identity; the sort of the canonical state and the parsing of identities are left out, and coordinates are reals under an arbitrary coordinate arithmetic.
- Sirs.Model.RestorePeople: a field of the wrong type is a missing one; the layer's clock and grid checks are left out.
- Sirs.Model.Step: requires one person for each cell, which an accepted checkpoint has below 2**63 cells; the clock does not wrap.
- Random generators: their internals are left out except the linear congruential one of the SIRS model; elsewhere a draw is any value.
- Players and harvesters are values in reassigned sequences, so sharing of a record between the list and another holder is not captured.
- Node layout, presentation layers, charts, controls and the viewing of scenes: nothing is decided there.
- The smaller examples (forest fire, mushroom, Sugarscape, Game of Life, the Python SIRS) would add easier invariants of the same kinds.
- Runtime, protocol, network and benchmark orchestration: sockets, processes and schemas.
