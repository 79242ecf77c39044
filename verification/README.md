# Land coalition simulation: a Dafny model

This project models the deterministic core of trustCoalitionHPC. That program is a distributed agent-based simulation. Agents sit on a two-dimensional grid and play an iterated prisoner's dilemma against the agents on neighbouring cells. Some agents lead coalitions. A leader pools its members' payoffs, keeps a share set by a tax, and its members take what remains.

The model covers these parts of the program:

- **`Codes`** (`codes.dfy`):
  - the action, strategy, shape and agent-type codes;
  - the `AgentId` triple (index, owning process, type);
  - the C++ division, remainder and conversion operations the code relies on, written out with their C++ rounding: truncating `%` and `/`, the `(int)` cast of a floating value, and `ceil`. Integers are unbounded; 32-bit overflow is not modelled (see Left out).
- **`Space`** (`space.dfy`): the neighbourhood of a cell.
  - Bounded grid: edge tests, Moore diagonals only between present arms.
  - Torus: modular wrap-around.
  - The model includes a reference adjacency relation and a proof that the neighbour relation is symmetric.
- **`Agents`** (`agent.dfy`): one agent's state and the operations it runs in a round.
  - the fresh state and `beginCycle`;
  - action choice for the pTFT, TFT and Random strategies;
  - the payoff computation, checked against a per-neighbour reference gain;
  - adding a member's payoff to a leader's pool;
  - the leader's tax split.
- **`Directory`** (`directory.dfy`): all agents, in iteration order, with lookup by id.
- **`Wire`** (`wire.dfy`): the flat record that carries an agent between processes.
  - its field-by-field serialisation and the edge record built from two such records;
  - building a replica from a record, packaging an agent, answering a request, and refreshing a replica.
- **`Rounds`** (`rounds.dfy`): the phases of one simulation step as whole-population transformations.
  - action choice, payoffs, leader pooling, leader split, members reading their leader's pool;
  - the member list of every agent;
  - the composed `Round`.
- **`Setup`** (`setup.dfy`): the constructor's arithmetic.
  - grid and block sizes;
  - where each local agent is placed;
  - creation of the local agents and wiring of their neighbours;
  - the census request for every other process's agents.
- **`Output`** (`output.dfy`): the per-round statistics over the local agents.

In the source, each step phase runs over the agents of one process. A buffer synchronisation follows action choice (src/landModel.cpp:320). A replica synchronisation follows the payoffs (line 329), the pooling and split together (line 356), the member read (line 369) and the coalition decision (line 381). The status update (lines 384-399) has none after it. Here each phase runs over one directory that holds every agent once. Each phase reads the state the previous phase left. Payoffs, the pool and the tax are `real`. Random draws are parameters.

## Model

| member | source | states |
|---|---|---|
| Codes.CodesDistinct | src/landAgent.h:9-16 | the action codes are distinct and the strategy codes are pairwise distinct |
| Codes.ShapeCodesDistinct | src/landModel.h:69-70 | the von Neumann and Moore shape codes are distinct |
| Codes.CRem | src/landModel.cpp:232 | C++ `%` with a positive divisor: the result lies strictly between -b and b, agrees with the mathematical remainder for a non-negative dividend, and is never positive for a non-positive one; with the truncating quotient, a = CQuot(a,b)*b + r |
| Codes.CQuot | src/landModel.cpp:62-63 | C++ `/` with a positive divisor rounds toward zero: q*b <= a < q*b+b for a >= 0, and the mirrored bound for a <= 0 |
| Codes.TruncToInt | src/landAgent.cpp:213 | the `(int)` cast truncates toward zero: for r >= 0, 0 <= n <= r < n+1, and the mirror image for r <= 0 |
| Codes.Ceil | src/landAgent.cpp:281 | `ceil(r)` is the least integer not below r; it is 1 on (0,1] and 0 on (-1,0] |
| Space.Offsets | src/landModel.cpp:226-303 | the neighbour offsets in listing order: 4 for von Neumann, 8 for Moore; each is a non-zero unit step |
| Space.OffsetsSymmetric | src/landModel.cpp:226-303 | every offset's opposite is also an offset, so each neighbourhood direction has a way back |
| Space.ArmListMembers | src/landModel.cpp:226-273 | the bounded-grid list holds each cardinal exactly when its edge flag is set, each diagonal exactly when Moore and both arm flags are set, and at most 4 (von Neumann) or 8 (Moore) cells |
| Space.GridNeighborhood | src/landModel.cpp:226-273 | the bounded-grid list has at most 4 (von Neumann) or 8 (Moore) entries, each a cell other than the centre at most one step away on each axis |
| Space.GridNeighborhoodIsInGridShifts | src/landModel.cpp:226-273 | for a cell on the grid, the bounded-grid neighbourhood equals the reference list: the offsets in order E, W, S, N, SE, SW, NE, NW, filtered to those that land on the grid |
| Space.GridNeighborhoodInRange | src/landModel.cpp:226-254 | every bounded-grid neighbour of a cell on the grid is on the grid |
| Space.GridArms | src/landModel.cpp:226-273 | for every cell: E appears iff (x+1)%sizeX != 0, W iff x != 0, S iff (y+1)%sizeY != 0, N iff y != 0, and each Moore diagonal iff both of its arms appear |
| Space.GridCounts | src/landModel.cpp:226-273 | on a grid of at least 2x2, a corner has 2 (von Neumann) or 3 (Moore) neighbours and an interior cell has 4 or 8 |
| Space.TorusNeighborhood | src/landModel.cpp:274-303 | the torus list always has 4 or 8 entries, and for a cell on the grid every entry is on the grid |
| Space.TorusNeighborhoodIsWrap | src/landModel.cpp:274-303 | the torus list is exactly the offsets in order, each target reduced modulo the grid sizes |
| Space.WrapBack | src/landModel.cpp:274-303 | on the torus, stepping by an offset and then by its opposite returns to the start cell |
| Space.Neighborhood | src/landModel.cpp:220-306 | the torus yields 4 or 8 neighbours, and an unrecognised topology yields none |
| Space.NeighborhoodInRange | src/landModel.cpp:220-306 | under both topologies, every neighbour of a cell on the grid is on the grid |
| Space.NeighborhoodIsAdjacent | src/landModel.cpp:220-306 | b is in the neighbourhood of a iff b is adjacent to a under the reference relation, both directions |
| Space.AdjacentSymmetric | src/landModel.cpp:220-306 | reference adjacency between cells on the grid is symmetric |
| Space.NeighborhoodSymmetric | src/landModel.cpp:220-306 | b is a neighbour of a iff a is a neighbour of b, for both topologies and both shapes |
| Agents.NewAgent | src/landAgent.cpp:3-35 | a new agent is Independent only, with the given strategy and trust settings, action DEFECT, payoff 0, pool 0, trust in a leader 0, no defectors seen and no neighbours |
| Agents.BeginCycle | src/landAgent.cpp:189-194 | action, payoff and pool are reset to 0; no other field changes |
| Agents.BeginCycleFixesFresh | src/landAgent.cpp:189-194 | a fresh agent is already at a cycle start, and starting a cycle twice equals starting it once |
| Agents.DecideAction | src/landAgent.cpp:196-215 | only the action changes. TFT defects iff 2*numDefectors > numNeighbors. pTFT with a draw in [0,1) defects iff numDefectors >= numNeighbors. Random with a draw in [0,2) defects iff the draw is below 1. An unknown strategy leaves the agent unchanged |
| Agents.TftTieCooperates | src/landAgent.cpp:205-210 | TFT with 2 defectors out of 4 neighbours cooperates |
| Agents.CountsDisjoint | src/landAgent.cpp:229-266 | fellow members, outside cooperators and outside defectors together number at most the neighbours, and so do an independent's cooperators and defectors |
| Agents.CalculatePayoff | src/landAgent.cpp:217-273 | a leader is untouched. Otherwise only payoff and numDefectors change, and numDefectors counts the defecting neighbours outside the agent's coalition, between 0 and the neighbour count |
| Agents.TotalGainMember | src/landAgent.cpp:228-242 | a member's summed per-neighbour gain is R*fellows + T*outside cooperators + P*outside defectors |
| Agents.TotalGainIndependent | src/landAgent.cpp:243-267 | an independent's summed gain is R*coop + S*def if it cooperated, and T*coop + P*def otherwise |
| Agents.PayoffIsAverageGain | src/landAgent.cpp:225-271 | the payoff of a member, or of an independent with a valid action, is its reference gain summed over its neighbours and divided by the neighbour count |
| Agents.AllCooperatePayoff | src/landAgent.cpp:243-271 | an independent cooperator whose neighbours all cooperated earns exactly R and records no defectors |
| Agents.AddCoalitionPayoff | src/landAgent.cpp:275-278 | the pool grows by exactly the amount; exactly one id is appended to the member record; nothing else changes |
| Agents.CalculateCoalitionPayoff | src/landAgent.cpp:280-283 | conservation: new payoff + new pool = old pool. For 0 < tax <= 1 the leader takes the whole pool; for -1 < tax <= 0 it takes nothing; nothing else changes |
| Directory.Lookup | src/landModel.cpp:363 | lookup fails exactly when no agent has the id; a found agent is in the directory and has that id |
| Directory.LookupAt | src/landModel.cpp:363 | with unique ids, looking up an agent's id finds that agent |
| Wire.GetIdInjective | src/landAgent.h:200-202 | two records give the same id triple iff their id, proc and type fields all agree |
| Wire.GetLeaderIdInjective | src/landAgent.h:204-206 | two records give the same leader triple iff their three leader fields all agree |
| Wire.Serialize | src/landAgent.h:167-183 | a record is written as exactly fourteen fields |
| Wire.Deserialize | src/landAgent.h:167-183 | reading succeeds exactly when the next fourteen fields have the record's kinds in order, and it consumes exactly those fourteen |
| Wire.SerializeRoundTrip | src/landAgent.h:167-198 | reading back a written record gives the same record and leaves the rest of the stream unread |
| Wire.DeserializeIsInverse | src/landAgent.h:167-198 | whatever a successful read consumed is the serialisation of the record it returned |
| Wire.SerializeEdge | src/landAgent.h:213-217 | an edge is written as 28 fields: two well-shaped records back to back |
| Wire.DeserializeEdge | src/landAgent.h:213-217 | reading an edge succeeds iff two well-shaped records follow each other, and it consumes exactly their 28 fields |
| Wire.EdgeRoundTrip | src/landAgent.h:209-221 | an edge record (source, then target) round-trips through serialisation |
| Wire.ProvideContent | src/landModel.cpp:526-537 | the packaged record carries the agent's id and leader id |
| Wire.CreateAgent | src/landModel.cpp:499-511 | a replica takes the record's id and leader id and starts with no neighbours and no member record |
| Wire.ReplicaRoundTrip | src/landModel.cpp:499-537 | a replica built from an agent's record agrees with the agent on id, position, the three status flags, leader, action, payoff and pool |
| Wire.PackageRoundTrip | src/landModel.cpp:499-537 | packaging a replica gives back the record it was built from |
| Wire.CreateAgents | src/landModel.cpp:513-524 | one replica per record, in order, each packaging back to its record |
| Wire.ProvideContentFor | src/landModel.cpp:539-558 | every answered record is the package of a held agent with a requested id; every requested id that is held is answered; ids not held produce nothing |
| Wire.UpdateAgent | src/landModel.cpp:560-574 | the agent with the record's id takes the record's position, flags, leader, action and payoffs, and keeps strategy, trust, neighbours and member record; other agents are untouched; an absent id changes nothing |
| Wire.SyncRefreshesReplica | src/landModel.cpp:526-574 | refreshing a replica from its owner's record makes it agree with the owner on every field the record carries |
| Rounds.MemberList | src/landModel.cpp:388-396 | the list holds exactly the agents r with r.id != leader, r.leaderId == leader and r.isMember, each as many times as the directory holds it |
| Rounds.MemberListAppend | src/landModel.cpp:388-396 | the list of a directory split in two is the list of the first part followed by the list of the second, so claimants appear in directory order |
| Rounds.MemberLists | src/landModel.cpp:384-398 | one list per agent; each agent's list holds exactly the directory agents that claim it, each as many times as the directory holds it |
| Rounds.MemberListsInOrder | src/landModel.cpp:384-398 | cutting the directory at any point, each agent's list is its claimants before the cut followed by those after it, so every list keeps directory order |
| Rounds.PoolLeader | src/landModel.cpp:335-346 | the pool grows by exactly the summed payoffs of the listed agents that still name this leader and are members; their ids are appended, in list order, to the recorded ids; nothing else changes |
| Rounds.BackersOfMemberList | src/landModel.cpp:335-346 | the leader's recheck keeps every agent of a member list |
| Rounds.PoolPhase | src/landModel.cpp:332-346 | every leader's pool grows by exactly the summed payoffs of the agents that claim it, and their ids are appended in directory order; non-leaders are unchanged |
| Rounds.SplitPhase | src/landModel.cpp:347-353 | every leader becomes its own tax split, so its new payoff plus new pool equals its old pool; non-leaders are unchanged |
| Rounds.ReadLeaderPool | src/landModel.cpp:362-364 | a member's payoff becomes the pool of a directory agent with its leader id, and nothing else changes; a non-member is unchanged |
| Rounds.ReadAll | src/landModel.cpp:359-366 | the phase succeeds iff every member's leader is present. Then each member's payoff is its leader's pool and every other agent is unchanged. On failure the reported id is some member's missing leader |
| Rounds.MemberReadPhase | src/landModel.cpp:359-366 | over the whole directory: it fails exactly when a member's leader is missing; otherwise only members' payoffs change |
| Rounds.MemberPaidByLeader | src/landModel.cpp:359-366 | with unique ids, after the phase every member's payoff equals its leader's pool as the leader now stands |
| Rounds.MembersPaidEqually | src/landModel.cpp:359-366 | all members of one leader receive the same payoff |
| Rounds.DecideActionPhase | src/landModel.cpp:314-317 | every agent takes the action its own choice rule gives for its draw, and keeps its id and every other field |
| Rounds.Resolve | src/landAgent.cpp:229-265 | resolving neighbour ids succeeds iff every id is held, giving the held agents in order; otherwise it names a requested id that is not held |
| Rounds.AgentPayoff | src/landModel.cpp:323-326 | a leader is left alone. Any other agent fails exactly when a neighbour id is not held, naming that id; otherwise it computes its payoff against its neighbours as the directory holds them, changing only payoff and defector count |
| Rounds.PayoffPhase | src/landModel.cpp:323-326 | fails exactly when some non-leader has a neighbour that is not held. On success leaders are unchanged, every other agent's payoff is computed against its held neighbours, and only payoff and defector count change |
| Rounds.ChooseAndPay | src/landModel.cpp:314-326 | action choice then payoffs: succeeds iff every non-leader's neighbours are all held. On success every agent keeps its id, cell, neighbours, strategy, status flags and leader, and has the action its choice rule gives for its draw. A leader ends exactly as its choice left it. Every other agent's neighbours resolve, after the choice, to as many agents as it has neighbour ids, and the agent ends with the payoff and defector count computed from its chosen action against them |
| Rounds.Settle | src/landModel.cpp:332-366 | pooling, split and member read: succeeds iff every member's leader is held. On success links and actions are kept and, with unique ids, every member's payoff is the remaining pool of the agent carrying its leader id. A non-leader changes at most its payoff, and one that is not a member does not change. Each leader's remaining pool is what the tax split leaves of its pool grown by the payoffs of its member list. A leader that is not also a member ends as that split, so its payoff plus remaining pool is its old pool plus those payoffs |
| Rounds.SettleRound | src/landModel.cpp:332-399 | the round after the payoff step: succeeds iff every member's leader is held. On success links and actions are kept, members are paid as in `Settle`, every agent ends as `Settle` leaves it, and the member lists are those of the final state |
| Rounds.SameLinksConditions | src/landModel.cpp:308-400 | directories with the same ids, neighbours, flags and leaders agree on whether the payoff phase and the member read can succeed, so no phase of a round changes either condition |
| Rounds.Round | src/landModel.cpp:308-400 | the round succeeds iff every non-leader's neighbours and every member's leader are held. On success every agent keeps its id, cell, neighbours, strategy, status flags and leader, ends with the action its choice rule gives for its draw, every member (ids unique) is paid its leader's remaining pool, and the member lists are those of the final state. Every non-leader ends with the payoff computed from its chosen action against its neighbours' chosen actions; a member then has only its payoff replaced, and a non-member keeps exactly that result. Each leader's remaining pool is the tax split of its pool grown by the payoffs its claimants earned this round; a leader that is not a member ends as that split, its payoff plus remaining pool being its old pool plus those payoffs |
| Setup.MakeLayout | src/landModel.cpp:36-63 | size = max - min + 1 per axis. The block is size / proc rounded toward zero, so for a non-negative size, dim*proc <= size < dim*proc + proc, and dim >= 1 when size >= proc |
| Setup.PlacementAsWritten | src/landModel.cpp:90-93 | as written, agent i's column offset is i / dimX and its row offset i % dimY; on a square block the indices below dimX*dimY stay inside the block |
| Setup.PlacementAsWrittenOffBlock | src/landModel.cpp:90-93 | for a 2x3 block, agent 4 lands outside the block; for a 3x2 block, agents 0 and 2 land on the same cell |
| Setup.PlacementAsWrittenSquareBijective | src/landModel.cpp:72-94 | with dimX = dimY = d, the as-written placement maps indices 0..d*d-1 into the block, injectively and onto every block cell |
| Setup.Placement | src/landModel.cpp:90-93 | corrected placement: column offset i / dimY, row offset i % dimY, and for every block shape the indices below dimX*dimY stay inside the block |
| Setup.PlacementSquare | src/landModel.cpp:90-93 | on a square block the corrected and as-written placements agree |
| Setup.PlacementInjective | src/landModel.cpp:72-94 | distinct indices go to distinct cells under the corrected placement |
| Setup.PlacementOnto | src/landModel.cpp:72-94 | every block cell is the corrected placement of an index below dimX*dimY |
| Setup.StrategyOf | src/landModel.cpp:75-78 | an agent takes the configured strategy unless the selector is 3; then it takes its own draw truncated toward zero (the greatest integer not above a non-negative draw, the least not below a non-positive one), which is a valid strategy for draws in [0,3) |
| Setup.CreateLocalAgents | src/landModel.cpp:72-94 | dimX*dimY fresh Independents. Agent i has id (i, rank, 0), the strategy rule's value, trust consideration iff its draw <= considerTrust, and its placement cell |
| Setup.LocalAgentsFillBlock | src/landModel.cpp:72-94 | the local agents have distinct ids and distinct cells, all in the block, and every block cell holds one |
| Setup.AgentAt | src/landModel.cpp:103-104 | the agent found stands on the cell; none is found only when no agent stands there |
| Setup.AgentsOn | src/landModel.cpp:101-106 | succeeds iff every cell holds an agent, giving those agents' ids in cell order |
| Setup.NeighborsFrom | src/landModel.cpp:101-106 | given a cell list per agent, succeeds iff every listed cell holds an agent; then only the neighbour lists change, each as long as its cell list, and the k-th id is that of the agent found on the k-th cell |
| Setup.SetNeighbors | src/landModel.cpp:101-106 | succeeds iff every neighbouring cell of every agent holds an agent. Then only the neighbour lists change, each as long as the agent's neighbourhood, and the k-th neighbour id is the id of the agent found on the k-th cell of the neighbourhood |
| Setup.SetNeighborsOnCells | src/landModel.cpp:101-106 | after wiring, the k-th neighbour id of an agent belongs to a directory agent standing on the k-th cell of its neighbourhood |
| Setup.TorusNeighborsNonEmpty | src/landModel.cpp:101-106 | on the torus every agent gets 4 or 8 neighbours, never 0 |
| Setup.CensusRequest | src/landModel.cpp:108-118 | the request holds exactly the ids (i, p, 0) with p != rank, 0 <= p < numProcesses and 0 <= i < count, in process-then-index order, with no repeats |
| Output.BucketOf | src/landModel.cpp:420-440 | leader takes precedence over member, and member over independent |
| Output.BucketsPartition | src/landModel.cpp:420-440 | the bucket counts add up to the number of agents |
| Output.StrategyCountsBounded | src/landModel.cpp:429-438 | the per-strategy independent counts sum to at most the independents |
| Output.UpdateOutput | src/landModel.cpp:402-443 | numCoalitions counts leaders; numAgentsCoalitions counts leaders plus members; numAgentsIndependent counts the remaining independents, split by strategy with the three counts summing to at most it. Payoff sums are per bucket. The created, destroyed, in-change and out-change counts are 0 |

## Left out

- Distribution and synchronisation. The shared grid, buffer synchronisation, replica synchronisation, agent requests and barriers belong to the Repast HPC / MPI library. The model runs each phase over one directory that holds every agent once. It does not separate local agents from replicas.
- Configuration parsing is left out. Payoff constants, tax, trust settings, sizes, process counts and the strategy selector are parameters.
- Random generators are left out. Every draw is a parameter, and no claim depends on its distribution beyond the stated ranges.
- Scheduling, data collection and the statistics forwarders are left out. `trustCoalitionHPC.cpp` is not part of this model. Neither is the older `model.cpp`/`model.h` pair.
- `decideCoalition` is left out because its whole body is commented out, so `Round` does nothing for it.
- `updateCoalitionStatus` and `getCoalitionMembers` are called (src/landModel.cpp:398 and 338), but neither declared nor defined, in the agent code. `MemberLists` computes every agent's list from the state the member read leaves. The status-update loop (src/landModel.cpp:384-399) builds each list only after the earlier agents' status updates, so the lists agree with it only if those updates change no agent's id, leader id or member flag; the model does not know what they change. `PoolPhase` gives each leader the list of agents that claim it, in place of the second.
- Rounds.MemberLists: the lists are those of the state the member read leaves. They are not promised to be the lists the status-update loop hands to `updateCoalitionStatus`, because that loop builds later lists after earlier status updates whose effect is not defined anywhere.
- `beginCycle` is never called by the step, so `Round` does not call it either.
- Three calls do not match their declarations:
  - the step calls `calculatePayoff` with the four payoff constants, which the agent method does not take; the model takes them as parameters;
  - the step calls `addCoalitionPayoff` with only the payoff, while the declaration also takes an id to record; the model records the member's id;
  - LandModel's constructor (src/landModel.cpp:87) creates agents with five arguments, while the agent constructor also takes the four payoff constants; `NewAgent` omits them.
- Agents.NewAgent: the leader id of a fresh agent is default-constructed in the source. Its value is not visible, so it is the parameter `unsetLeader`.
- Wire.CreateAgent: the replica constructor leaves strategy, trust settings, trust in a leader and the defector count uninitialised. The model fills them with fixed placeholders and states nothing about them.
- Agents.CalculatePayoff: a non-leader with no neighbours divides by zero in the source. The model requires at least one neighbour for non-leaders. `Rounds.Round` therefore requires every agent to have one.
- Agents.DecideAction: pTFT divides an integer by the neighbour count, which is undefined for zero neighbours. The model requires a neighbour for pTFT agents.
- C++ `int` overflow is not modelled: `int` is unbounded here. It matters for the grid sizes `max - min + 1` (src/landModel.cpp:35-38), the agent count `dimX * dimY` (src/landModel.cpp:72) and the member gain `numMember * payoffR + ...` (src/landAgent.cpp:241-242). The results about Setup.MakeLayout, Setup.CreateLocalAgents and Agents.CalculatePayoff hold while these values stay within the 32-bit range.
- Floating point is not modelled. Payoffs and pools are `real`, the `float` casts and rounding are ignored, and no claim depends on them.
- Setup.SetNeighbors: the source stores references to the agents on the neighbouring cells. An empty cell gives a null reference that later crashes the payoff computation. The model stores ids and reports failure when a neighbouring cell is empty.
- Setup.CreateLocalAgents: the block origin comes from the shared grid and is a parameter. The agents are placed with the corrected placement (see Findings).
- Rounds.Round: a missing neighbour or leader makes the source follow an invalid reference. The model returns `NotFound` instead.
- The leader split follows the live code, which takes `pool * ceil(tax)` (src/landAgent.cpp:280-283), so for a tax in (0,1] the leader takes everything. The commented-out `applyTax` of the older `model.cpp` (src/model.cpp:251-274) gave the leader `total * (tax/100)` instead; it is not modelled.

## Findings

| source | as written | input that shows it | evidently intended | confidence | as-written member | corrected member |
|---|---|---|---|---|---|---|
| src/landModel.cpp:90-93 | agent i is placed at column offset `i / dimX` and row offset `i % dimY` | dimX=2, dimY=3: agent 4 goes to column offset 2, outside the block. dimX=3, dimY=2: agents 0 and 2 share cell (0,0) | row-major placement with column offset `i / dimY`, a bijection between indices and block cells for every block shape | not executed; the two placements agree on square blocks | Setup.PlacementAsWrittenOffBlock | Setup.LocalAgentsFillBlock |
