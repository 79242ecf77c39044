/** Setup arithmetic of the model: the grid and block sizes, where each
    locally created agent is placed, the creation of the local agents, the
    wiring of neighbours, and the census request for every other
    process's agents. */
module Setup {
  import opened Codes
  import opened Space
  import opened Agents
  import opened Directory

  /** Grid size and the block of cells one process manages. */
  datatype Layout = Layout(sizeX: int, sizeY: int, dimX: int, dimY: int)

  /** The grid spans min..max inclusive on each axis; each of the
      procX x procY processes manages a block of size / proc cells per
      axis, rounded toward zero. */
  function MakeLayout(minX: int, maxX: int, minY: int, maxY: int, procX: int, procY: int): (l: Layout)
    requires procX > 0 && procY > 0
    ensures l.sizeX == maxX - minX + 1 && l.sizeY == maxY - minY + 1
    ensures minX <= maxX + 1 ==> 0 <= l.dimX * procX <= l.sizeX < l.dimX * procX + procX
    ensures minY <= maxY + 1 ==> 0 <= l.dimY * procY <= l.sizeY < l.dimY * procY + procY
    ensures l.sizeX >= procX ==> l.dimX >= 1
    ensures l.sizeY >= procY ==> l.dimY >= 1
  {
    var sizeX := maxX - minX + 1;
    var sizeY := maxY - minY + 1;
    Layout(sizeX, sizeY, CQuot(sizeX, procX), CQuot(sizeY, procY))
  }

  // ---------------------------------------------------------------------
  // Placement of the local agents

  /** Whether a cell lies in the block with the given origin and size. */
  predicate InBlock(c: Cell, originX: int, originY: int, dimX: int, dimY: int)
  {
    originX <= c.x < originX + dimX && originY <= c.y < originY + dimY
  }

  /** The cell agent i is moved to, as the constructor computes it: the
      column offset divides by dimX while the row offset reduces modulo
      dimY. */
  function PlacementAsWritten(i: nat, dimX: int, dimY: int, originX: int, originY: int): (c: Cell)
    requires dimX > 0 && dimY > 0
    ensures c.x - originX == i / dimX && c.y - originY == i % dimY
    ensures dimX == dimY && i < dimX * dimY ==> InBlock(c, originX, originY, dimX, dimY)
  {
    assert dimX == dimY && i < dimX * dimY ==> i / dimX < dimX by {
      if dimX == dimY && i < dimX * dimY && i / dimX >= dimX {
        MulLeft(dimX, i / dimX, dimX);
      }
    }
    Cell(originX + i / dimX, originY + i % dimY)
  }

  /** A non-square block: the as-written placement puts agent 4 of a 2 x 3
      block in column 2, outside the block, and for a 3 x 2 block puts
      agents 0 and 2 on the same cell. */
  lemma PlacementAsWrittenOffBlock()
    ensures !InBlock(PlacementAsWritten(4, 2, 3, 0, 0), 0, 0, 2, 3)
    ensures PlacementAsWritten(0, 3, 2, 0, 0) == PlacementAsWritten(2, 3, 2, 0, 0)
  {
    assert PlacementAsWritten(4, 2, 3, 0, 0) == Cell(2, 1);
    assert PlacementAsWritten(2, 3, 2, 0, 0) == Cell(0, 0);
  }

  /** Row-major placement: the column offset divides by the row length
      dimY. */
  function Placement(i: nat, dimX: int, dimY: int, originX: int, originY: int): (c: Cell)
    requires dimX > 0 && dimY > 0
    ensures c.x - originX == i / dimY && c.y - originY == i % dimY
    ensures i < dimX * dimY ==> InBlock(c, originX, originY, dimX, dimY)
  {
    assert i < dimX * dimY ==> i / dimY < dimX by {
      if i < dimX * dimY && i / dimY >= dimX {
        MulLeft(dimX, i / dimY, dimY);
      }
    }
    Cell(originX + i / dimY, originY + i % dimY)
  }

  /** On a square block the two placements agree. */
  lemma PlacementSquare(i: nat, d: int, originX: int, originY: int)
    requires d > 0
    ensures PlacementAsWritten(i, d, d, originX, originY) == Placement(i, d, d, originX, originY)
  {
  }

  lemma MulLeft(p: int, q: int, b: int)
    requires p <= q && b >= 0
    ensures p * b <= q * b
  {
    assert (q - p) * b >= 0;
  }

  /** Quotient and remainder are determined by the defining equation. */
  lemma DivModUnique(n: int, d: int, q: int, r: int)
    requires d > 0 && 0 <= r < d && n == q * d + r
    ensures n / d == q && n % d == r
  {
    var q0, r0 := n / d, n % d;
    assert n == q0 * d + r0;
    if q0 < q {
      MulLeft(q0 + 1, q, d);
      assert false;
    } else if q < q0 {
      MulLeft(q + 1, q0, d);
      assert false;
    }
  }

  /** Distinct indices go to distinct cells. */
  lemma PlacementInjective(i: nat, j: nat, dimX: int, dimY: int, originX: int, originY: int)
    requires dimX > 0 && dimY > 0
    requires Placement(i, dimX, dimY, originX, originY) == Placement(j, dimX, dimY, originX, originY)
    ensures i == j
  {
    assert i == (i / dimY) * dimY + i % dimY;
    assert j == (j / dimY) * dimY + j % dimY;
  }

  /** The index whose placement is cell c. */
  function BlockIndex(c: Cell, dimY: int, originX: int, originY: int): int
  {
    (c.x - originX) * dimY + (c.y - originY)
  }

  /** Every cell of the block is the placement of exactly the index
      `BlockIndex`, which is among the first dimX * dimY. */
  lemma PlacementOnto(c: Cell, dimX: int, dimY: int, originX: int, originY: int)
    requires dimX > 0 && dimY > 0
    requires InBlock(c, originX, originY, dimX, dimY)
    ensures 0 <= BlockIndex(c, dimY, originX, originY) < dimX * dimY
    ensures Placement(BlockIndex(c, dimY, originX, originY), dimX, dimY, originX, originY) == c
  {
    var k := BlockIndex(c, dimY, originX, originY);
    MulLeft(0, c.x - originX, dimY);
    MulLeft(c.x - originX, dimX - 1, dimY);
    assert (dimX - 1) * dimY + dimY == dimX * dimY;
    DivModUnique(k, dimY, c.x - originX, c.y - originY);
  }

  /** Under the square-block condition the as-written placement is a
      bijection between the indices 0 .. d*d-1 and the block's cells. */
  lemma PlacementAsWrittenSquareBijective(i: nat, j: nat, c: Cell, d: int, originX: int, originY: int)
    requires d > 0
    ensures i < d * d ==> InBlock(PlacementAsWritten(i, d, d, originX, originY), originX, originY, d, d)
    ensures PlacementAsWritten(i, d, d, originX, originY) == PlacementAsWritten(j, d, d, originX, originY) ==> i == j
    ensures InBlock(c, originX, originY, d, d) ==>
              0 <= BlockIndex(c, d, originX, originY) < d * d &&
              PlacementAsWritten(BlockIndex(c, d, originX, originY), d, d, originX, originY) == c
  {
    PlacementSquare(i, d, originX, originY);
    PlacementSquare(j, d, originX, originY);
    if PlacementAsWritten(i, d, d, originX, originY) == PlacementAsWritten(j, d, d, originX, originY) {
      PlacementInjective(i, j, d, d, originX, originY);
    }
    if InBlock(c, originX, originY, d, d) {
      PlacementOnto(c, d, d, originX, originY);
      PlacementSquare(BlockIndex(c, d, originX, originY), d, originX, originY);
    }
  }

  // ---------------------------------------------------------------------
  // Creating the local agents

  /** The strategy agent i receives: its own draw, truncated, when the
      configured strategy type is the "draw" selector, the configured type
      otherwise. */
  function StrategyOf(strategyType: int, draw: real): (s: int)
    ensures strategyType != DRAWN_STRATEGY ==> s == strategyType
    ensures strategyType == DRAWN_STRATEGY && 0.0 <= draw ==> 0 <= s && s as real <= draw < s as real + 1.0
    ensures strategyType == DRAWN_STRATEGY && draw <= 0.0 ==> s <= 0 && s as real - 1.0 < draw <= s as real
    ensures strategyType == DRAWN_STRATEGY && 0.0 <= draw < 3.0 ==> s == PTFT || s == TFT || s == RANDOM
  {
    if strategyType == DRAWN_STRATEGY then TruncToInt(draw) else strategyType
  }

  /** The cell an agent stands on. */
  function CellOf(a: Agent): Cell
  {
    Cell(a.x, a.y)
  }

  /** Create the dimX * dimY agents of process `rank`: agent i has local
      index i, is fresh, sits at its placement in the block, takes its
      strategy from `strategyDraws[i]` as `StrategyOf` says and considers
      trust exactly when `trustDraws[i]` does not exceed `considerTrust`. */
  function CreateLocalAgents(rank: int, dimX: nat, dimY: nat, originX: int, originY: int,
                             strategyType: int, strategyDraws: seq<real>, trustDraws: seq<real>,
                             considerTrust: real, deltaTrust: real, trustThreshold: real,
                             unsetLeader: AgentId): (r: seq<Agent>)
    requires |strategyDraws| == dimX * dimY && |trustDraws| == dimX * dimY
    ensures |r| == dimX * dimY
    ensures forall i :: 0 <= i < |r| ==> r[i].id == AgentId(i, rank, AGENT_TYPE)
    ensures forall i :: 0 <= i < |r| ==>
              && r[i].strategy == StrategyOf(strategyType, strategyDraws[i])
              && (r[i].considerTrust <==> trustDraws[i] <= considerTrust)
              && r[i].deltaTrust == deltaTrust && r[i].trustThreshold == trustThreshold
              && StatusExclusive(r[i]) && r[i].isIndependent && AtCycleStart(r[i])
              && r[i].numDefectors == 0 && r[i].trustLeader == 0.0
    ensures forall i :: 0 <= i < |r| ==>
              (dimX > 0 && dimY > 0 && CellOf(r[i]) == Placement(i, dimX, dimY, originX, originY))
  {
    seq(dimX * dimY, i requires 0 <= i < dimX * dimY =>
          assert dimX > 0 && dimY > 0;
          var c := Placement(i, dimX, dimY, originX, originY);
          NewAgent(AgentId(i, rank, AGENT_TYPE), StrategyOf(strategyType, strategyDraws[i]),
                   trustDraws[i] <= considerTrust, deltaTrust, trustThreshold, unsetLeader)
            .(x := c.x, y := c.y))
  }

  /** The created agents have distinct ids and occupy distinct cells, all
      inside the block, and every cell of the block holds one of them. */
  lemma LocalAgentsFillBlock(rank: int, dimX: nat, dimY: nat, originX: int, originY: int,
                             strategyType: int, strategyDraws: seq<real>, trustDraws: seq<real>,
                             considerTrust: real, deltaTrust: real, trustThreshold: real,
                             unsetLeader: AgentId, c: Cell)
    requires |strategyDraws| == dimX * dimY && |trustDraws| == dimX * dimY
    ensures var r := CreateLocalAgents(rank, dimX, dimY, originX, originY, strategyType, strategyDraws,
                                       trustDraws, considerTrust, deltaTrust, trustThreshold, unsetLeader);
            && UniqueIds(r)
            && (forall i, j :: 0 <= i < j < |r| ==> CellOf(r[i]) != CellOf(r[j]))
            && (forall i :: 0 <= i < |r| ==> InBlock(CellOf(r[i]), originX, originY, dimX, dimY))
            && (InBlock(c, originX, originY, dimX, dimY) ==> exists i :: 0 <= i < |r| && CellOf(r[i]) == c)
  {
    var r := CreateLocalAgents(rank, dimX, dimY, originX, originY, strategyType, strategyDraws,
                               trustDraws, considerTrust, deltaTrust, trustThreshold, unsetLeader);
    forall i, j | 0 <= i < j < |r| ensures CellOf(r[i]) != CellOf(r[j]) {
      if CellOf(r[i]) == CellOf(r[j]) {
        PlacementInjective(i, j, dimX, dimY, originX, originY);
      }
    }
    forall i | 0 <= i < |r| ensures InBlock(CellOf(r[i]), originX, originY, dimX, dimY) {
      assert CellOf(r[i]) == Placement(i, dimX, dimY, originX, originY);
    }
    if InBlock(c, originX, originY, dimX, dimY) {
      PlacementOnto(c, dimX, dimY, originX, originY);
      var k := BlockIndex(c, dimY, originX, originY);
      assert CellOf(r[k]) == c;
    }
  }

  // ---------------------------------------------------------------------
  // Neighbours

  /** The first agent of the directory standing on cell c. */
  function AgentAt(dir: seq<Agent>, c: Cell): (r: Option<Agent>)
    ensures r.None? <==> forall i :: 0 <= i < |dir| ==> CellOf(dir[i]) != c
    ensures r.Some? ==> r.value in dir && CellOf(r.value) == c
  {
    if dir == [] then None
    else if CellOf(dir[0]) == c then Some(dir[0])
    else
      var rest := AgentAt(dir[1..], c);
      assert forall i :: 1 <= i < |dir| ==> dir[i] == dir[1..][i - 1];
      rest
  }

  /** The ids of the agents on the given cells, in order; None when some
      cell holds no agent. */
  function AgentsOn(dir: seq<Agent>, cells: seq<Cell>): (r: Option<seq<AgentId>>)
    ensures r.Some? <==> forall k :: 0 <= k < |cells| ==> AgentAt(dir, cells[k]).Some?
    ensures r.Some? ==> |r.value| == |cells|
    ensures r.Some? ==> forall k :: 0 <= k < |cells| ==> r.value[k] == AgentAt(dir, cells[k]).value.id
  {
    if cells == [] then Some([])
    else
      match AgentAt(dir, cells[0])
      case None => None
      case Some(a) =>
        match AgentsOn(dir, cells[1..])
        case None =>
          assert forall k :: 0 <= k < |cells[1..]| ==> cells[1..][k] == cells[k + 1];
          None
        case Some(rest) =>
          assert forall k :: 1 <= k < |cells| ==> cells[k] == cells[1..][k - 1];
          Some([a.id] + rest)
  }

  /** Give agent i the ids of the agents on the cells `cellsOf[i]`, in
      order; None when one of those cells is empty. */
  function NeighborsFrom(dir: seq<Agent>, cellsOf: seq<seq<Cell>>): (r: Option<seq<Agent>>)
    requires |cellsOf| == |dir|
    ensures r.Some? <==> forall i, k :: 0 <= i < |dir| && 0 <= k < |cellsOf[i]| ==> AgentAt(dir, cellsOf[i][k]).Some?
    ensures r.Some? ==> |r.value| == |dir|
    ensures r.Some? ==> forall i :: 0 <= i < |dir| ==>
              r.value[i] == dir[i].(neighbors := r.value[i].neighbors) && |r.value[i].neighbors| == |cellsOf[i]|
    ensures r.Some? ==> forall i, k :: 0 <= i < |dir| && 0 <= k < |cellsOf[i]| ==>
              AgentAt(dir, cellsOf[i][k]).Some? && r.value[i].neighbors[k] == AgentAt(dir, cellsOf[i][k]).value.id
  {
    AllOccupied(dir, cellsOf);
    if forall i :: 0 <= i < |dir| ==> AgentsOn(dir, cellsOf[i]).Some? then
      Some(seq(|dir|, i requires 0 <= i < |dir| => dir[i].(neighbors := AgentsOn(dir, cellsOf[i]).value)))
    else
      None
  }

  /** Every cell list is fully occupied exactly when every cell of every
      list holds an agent. */
  lemma AllOccupied(dir: seq<Agent>, cellsOf: seq<seq<Cell>>)
    requires |cellsOf| == |dir|
    ensures (forall i :: 0 <= i < |dir| ==> AgentsOn(dir, cellsOf[i]).Some?) <==>
            (forall i, k :: 0 <= i < |dir| && 0 <= k < |cellsOf[i]| ==> AgentAt(dir, cellsOf[i][k]).Some?)
  {
    if !forall i :: 0 <= i < |dir| ==> AgentsOn(dir, cellsOf[i]).Some? {
      var i :| 0 <= i < |dir| && AgentsOn(dir, cellsOf[i]).None?;
    }
  }

  /** Give every agent the ids of the agents on its neighbouring cells, in
      the order of its neighbourhood; None when some neighbouring cell is
      empty. */
  function SetNeighbors(dir: seq<Agent>, sizeX: int, sizeY: int, topology: Topology, shape: int)
    : (r: Option<seq<Agent>>)
    requires sizeX > 0 && sizeY > 0
    ensures r.Some? <==> forall i, k :: 0 <= i < |dir| && 0 <= k < |Neighborhood(CellOf(dir[i]), sizeX, sizeY, topology, shape)| ==>
              AgentAt(dir, Neighborhood(CellOf(dir[i]), sizeX, sizeY, topology, shape)[k]).Some?
    ensures r.Some? ==> |r.value| == |dir|
    ensures r.Some? ==> forall i :: 0 <= i < |dir| ==>
              && r.value[i] == dir[i].(neighbors := r.value[i].neighbors)
              && |r.value[i].neighbors| == |Neighborhood(CellOf(dir[i]), sizeX, sizeY, topology, shape)|
    ensures r.Some? ==> forall i, k :: 0 <= i < |dir| && 0 <= k < |r.value[i].neighbors| ==>
              AgentAt(dir, Neighborhood(CellOf(dir[i]), sizeX, sizeY, topology, shape)[k]).Some? &&
              r.value[i].neighbors[k] == AgentAt(dir, Neighborhood(CellOf(dir[i]), sizeX, sizeY, topology, shape)[k]).value.id
  {
    var cellsOf := NeighborhoodsOf(dir, sizeX, sizeY, topology, shape);
    NeighborhoodsOccupied(dir, sizeX, sizeY, topology, shape);
    NeighborhoodIds(dir, sizeX, sizeY, topology, shape);
    NeighborsFrom(dir, cellsOf)
  }

  /** The neighbourhood of every agent's cell, in directory order. */
  function NeighborhoodsOf(dir: seq<Agent>, sizeX: int, sizeY: int, topology: Topology, shape: int): (cellsOf: seq<seq<Cell>>)
    requires sizeX > 0 && sizeY > 0
    ensures |cellsOf| == |dir|
  {
    seq(|dir|, i requires 0 <= i < |dir| => Neighborhood(CellOf(dir[i]), sizeX, sizeY, topology, shape))
  }

  /** Wiring from the agents' neighbourhoods succeeds exactly when every
      neighbouring cell of every agent holds an agent. */
  lemma NeighborhoodsOccupied(dir: seq<Agent>, sizeX: int, sizeY: int, topology: Topology, shape: int)
    requires sizeX > 0 && sizeY > 0
    ensures NeighborsFrom(dir, NeighborhoodsOf(dir, sizeX, sizeY, topology, shape)).Some? <==>
              forall i, k :: 0 <= i < |dir| && 0 <= k < |Neighborhood(CellOf(dir[i]), sizeX, sizeY, topology, shape)| ==>
                AgentAt(dir, Neighborhood(CellOf(dir[i]), sizeX, sizeY, topology, shape)[k]).Some?
  {
    var cellsOf := NeighborhoodsOf(dir, sizeX, sizeY, topology, shape);
    assert forall i :: 0 <= i < |dir| ==> cellsOf[i] == Neighborhood(CellOf(dir[i]), sizeX, sizeY, topology, shape);
  }

  /** After wiring from the agents' neighbourhoods, the k-th neighbour id
      of an agent is the id of the agent on the k-th neighbouring cell. */
  lemma NeighborhoodIds(dir: seq<Agent>, sizeX: int, sizeY: int, topology: Topology, shape: int)
    requires sizeX > 0 && sizeY > 0
    ensures var r := NeighborsFrom(dir, NeighborhoodsOf(dir, sizeX, sizeY, topology, shape));
      r.Some? ==> forall i, k :: 0 <= i < |dir| && 0 <= k < |r.value[i].neighbors| ==>
        AgentAt(dir, Neighborhood(CellOf(dir[i]), sizeX, sizeY, topology, shape)[k]).Some? &&
        r.value[i].neighbors[k] == AgentAt(dir, Neighborhood(CellOf(dir[i]), sizeX, sizeY, topology, shape)[k]).value.id
  {
    var cellsOf := NeighborhoodsOf(dir, sizeX, sizeY, topology, shape);
    assert forall i :: 0 <= i < |dir| ==> cellsOf[i] == Neighborhood(CellOf(dir[i]), sizeX, sizeY, topology, shape);
  }

  /** After wiring, the k-th neighbour id of an agent belongs to an agent
      of the directory standing on the k-th cell of its neighbourhood. */
  lemma SetNeighborsOnCells(dir: seq<Agent>, sizeX: int, sizeY: int, topology: Topology, shape: int, i: int, k: int)
    requires sizeX > 0 && sizeY > 0
    requires 0 <= i < |dir|
    ensures var r := SetNeighbors(dir, sizeX, sizeY, topology, shape);
      r.Some? && 0 <= k < |r.value[i].neighbors| ==>
        exists b :: b in dir && b.id == r.value[i].neighbors[k] &&
          CellOf(b) == Neighborhood(CellOf(dir[i]), sizeX, sizeY, topology, shape)[k]
  {
    var r := SetNeighbors(dir, sizeX, sizeY, topology, shape);
    if r.Some? && 0 <= k < |r.value[i].neighbors| {
      var b := AgentAt(dir, Neighborhood(CellOf(dir[i]), sizeX, sizeY, topology, shape)[k]).value;
      assert b in dir;
    }
  }

  /** On a torus every agent sees four or eight neighbours, so the
      neighbour counts the payoff computation divides by are never zero. */
  lemma TorusNeighborsNonEmpty(dir: seq<Agent>, sizeX: int, sizeY: int, shape: int)
    requires sizeX > 0 && sizeY > 0
    requires SetNeighbors(dir, sizeX, sizeY, Torus, shape).Some?
    ensures forall i :: 0 <= i < |dir| ==>
              NumNeighbors(SetNeighbors(dir, sizeX, sizeY, Torus, shape).value[i]) == if shape == MOORE then 8 else 4
  {
  }

  // ---------------------------------------------------------------------
  // Census request

  /** `a` precedes `b` in request order: by process, then by index. */
  predicate Precedes(a: AgentId, b: AgentId)
  {
    a.proc < b.proc || (a.proc == b.proc && a.id < b.id)
  }

  /** The agent ids process `rank` requests from the others: every index
      below `count` on every other process, in process-then-index order,
      each exactly once. */
  method CensusRequest(rank: int, numProcesses: int, count: int) returns (req: seq<AgentId>)
    ensures forall a :: a in req <==>
              a.proc != rank && 0 <= a.proc < numProcesses && 0 <= a.id < count && a.agentType == AGENT_TYPE
    ensures forall i, j :: 0 <= i < j < |req| ==> Precedes(req[i], req[j])
  {
    req := [];
    var p := 0;
    while p < numProcesses
      invariant 0 <= p && (p <= numProcesses || p == 0)
      invariant forall a :: a in req <==>
                  a.proc != rank && 0 <= a.proc < p && 0 <= a.id < count && a.agentType == AGENT_TYPE
      invariant forall i, j :: 0 <= i < j < |req| ==> Precedes(req[i], req[j])
      invariant forall i :: 0 <= i < |req| ==> req[i].proc < p
    {
      if p != rank {
        var i := 0;
        while i < count
          invariant 0 <= i && (i <= count || i == 0)
          invariant forall a :: a in req <==>
                      a.agentType == AGENT_TYPE && 0 <= a.id < count && a.proc != rank &&
                      (0 <= a.proc < p || (a.proc == p && a.id < i))
          invariant forall i', j :: 0 <= i' < j < |req| ==> Precedes(req[i'], req[j])
          invariant forall k :: 0 <= k < |req| ==> req[k].proc < p || (req[k].proc == p && req[k].id < i)
        {
          req := req + [AgentId(i, p, AGENT_TYPE)];
          i := i + 1;
        }
      }
      p := p + 1;
    }
  }
}
