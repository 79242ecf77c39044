/** One land agent and the operations it performs in a round: choosing an
    action, computing its payoff from its neighbours' actions, and, as a
    coalition leader, pooling and splitting its members' payoffs. */
module Agents {
  import opened Codes

  /** The state of one agent.  `neighbors` are the ids of the agents on the
      neighbouring cells, fixed at setup; `payoff` and `coalitionPayoff`
      are the C++ `double` fields, taken as reals. */
  datatype Agent = Agent(
    id: AgentId,
    x: int,
    y: int,
    neighbors: seq<AgentId>,
    strategy: int,
    considerTrust: bool,
    deltaTrust: real,
    trustThreshold: real,
    isIndependent: bool,
    isMember: bool,
    isLeader: bool,
    leaderId: AgentId,
    trustLeader: real,
    coalitionMembers: seq<AgentId>,
    coalitionPayoff: real,
    action: int,
    payoff: real,
    numDefectors: int)

  function NumNeighbors(a: Agent): nat
  {
    |a.neighbors|
  }

  /** Exactly one of the three status flags is set. */
  predicate StatusExclusive(a: Agent)
  {
    || (a.isIndependent && !a.isMember && !a.isLeader)
    || (!a.isIndependent && a.isMember && !a.isLeader)
    || (!a.isIndependent && !a.isMember && a.isLeader)
  }

  /** Everything that `BeginCycle` resets holds its start-of-round value. */
  predicate AtCycleStart(a: Agent)
  {
    a.action == DEFECT && a.payoff == 0.0 && a.coalitionPayoff == 0.0
  }

  /** A newly created agent: an Independent at (0, 0) with no neighbours yet,
      no trust in a leader, no pooled payoff, having defected with payoff 0
      and seen no defectors.  The leader id is left default-constructed;
      `unsetLeader` is whatever value that default gives. */
  function NewAgent(id: AgentId, strategy: int, considerTrust: bool, deltaTrust: real,
                    trustThreshold: real, unsetLeader: AgentId): (r: Agent)
    ensures r.id == id && r.strategy == strategy && r.considerTrust == considerTrust
    ensures r.deltaTrust == deltaTrust && r.trustThreshold == trustThreshold
    ensures StatusExclusive(r) && r.isIndependent
    ensures AtCycleStart(r)
    ensures r.trustLeader == 0.0 && r.numDefectors == 0 && NumNeighbors(r) == 0
    ensures r.coalitionMembers == []
  {
    Agent(id, 0, 0, [], strategy, considerTrust, deltaTrust, trustThreshold,
          true, false, false, unsetLeader, 0.0, [], 0.0, 0, 0.0, 0)
  }

  /** Start of a cycle: action, payoff and pooled payoff go back to zero;
      nothing else changes. */
  function BeginCycle(a: Agent): (r: Agent)
    ensures AtCycleStart(r)
    ensures r == a.(action := r.action, payoff := r.payoff, coalitionPayoff := r.coalitionPayoff)
  {
    a.(action := DEFECT, payoff := 0.0, coalitionPayoff := 0.0)
  }

  /** A fresh agent is already at a cycle start, and starting a cycle twice
      is starting it once. */
  lemma BeginCycleFixesFresh(a: Agent)
    ensures AtCycleStart(a) ==> BeginCycle(a) == a
    ensures BeginCycle(BeginCycle(a)) == BeginCycle(a)
  {
  }

  // ---------------------------------------------------------------------
  // Action choice

  /** Choose this round's action.  `draw` is the next value of the
      agent's "decisionAction" generator, used by the pTFT and Random
      strategies.  pTFT compares the integer quotient
      numDefectors / numNeighbors with the draw; TFT defects when
      numDefectors exceeds numNeighbors / 2; Random truncates the draw; any
      other strategy code leaves the action as it was. */
  function DecideAction(a: Agent, draw: real): (r: Agent)
    requires a.strategy == PTFT ==> NumNeighbors(a) > 0
    ensures r == a.(action := r.action)
    ensures a.strategy == TFT ==>
              (r.action == DEFECT <==> 2 * a.numDefectors > NumNeighbors(a)) &&
              (r.action == DEFECT || r.action == COOPERATE)
    ensures a.strategy == PTFT && a.numDefectors >= 0 && 0.0 <= draw < 1.0 ==>
              (r.action == DEFECT <==> a.numDefectors >= NumNeighbors(a)) &&
              (r.action == DEFECT || r.action == COOPERATE)
    ensures a.strategy == RANDOM && 0.0 <= draw < 2.0 ==>
              (r.action == DEFECT <==> draw < 1.0) &&
              (r.action == DEFECT || r.action == COOPERATE)
    ensures a.strategy != PTFT && a.strategy != TFT && a.strategy != RANDOM ==> r == a
  {
    if a.strategy == PTFT then
      if CQuot(a.numDefectors, NumNeighbors(a)) as real > draw then a.(action := DEFECT)
      else a.(action := COOPERATE)
    else if a.strategy == TFT then
      if a.numDefectors > NumNeighbors(a) / 2 then a.(action := DEFECT)
      else a.(action := COOPERATE)
    else if a.strategy == RANDOM then
      a.(action := TruncToInt(draw))
    else
      a
  }

  /** Tit-for-tat breaks ties toward cooperation: two defectors out of four
      neighbours is not a majority. */
  lemma TftTieCooperates(a: Agent)
    requires a.strategy == TFT && NumNeighbors(a) == 4 && a.numDefectors == 2
    ensures DecideAction(a, 0.0).action == COOPERATE
  {
  }

  // ---------------------------------------------------------------------
  // Payoff

  /** Number of neighbours whose leader id is `leader`. */
  function CountFellows(nbrs: seq<Agent>, leader: AgentId): (n: nat)
    ensures n <= |nbrs|
  {
    if nbrs == [] then 0
    else CountFellows(nbrs[..|nbrs| - 1], leader) + (if nbrs[|nbrs| - 1].leaderId == leader then 1 else 0)
  }

  /** Number of neighbours that played `act` and, when `exclude` is a
      leader id, do not belong to that leader's coalition. */
  function CountActing(nbrs: seq<Agent>, exclude: Option<AgentId>, act: int): (n: nat)
    ensures n <= |nbrs|
  {
    if nbrs == [] then 0
    else
      var last := nbrs[|nbrs| - 1];
      var counted := last.action == act && (exclude.None? || last.leaderId != exclude.value);
      CountActing(nbrs[..|nbrs| - 1], exclude, act) + (if counted then 1 else 0)
  }

  /** A member's neighbours fall into at most one of: fellow coalition
      member, outside cooperator, outside defector. */
  lemma {:induction false} CountsDisjoint(nbrs: seq<Agent>, leader: AgentId)
    ensures CountFellows(nbrs, leader) + CountActing(nbrs, Some(leader), COOPERATE)
            + CountActing(nbrs, Some(leader), DEFECT) <= |nbrs|
    ensures CountActing(nbrs, None, COOPERATE) + CountActing(nbrs, None, DEFECT) <= |nbrs|
  {
    if nbrs != [] {
      CountsDisjoint(nbrs[..|nbrs| - 1], leader);
    }
  }

  /** The exclusion that the payoff rule applies: a member ignores the
      actions of its own coalition, an independent ignores nobody. */
  function Outsiders(a: Agent): Option<AgentId>
  {
    if a.isMember then Some(a.leaderId) else None
  }

  /** Compute this round's payoff from the neighbours' states (`nbrs`
      holds the agents `a.neighbors` names, in order) and the payoff matrix
      T (temptation), R (reward), P (punishment), S (sucker).  A leader is
      left untouched.  The payoff is a per-neighbour average, and
      numDefectors records the neighbours outside the agent's coalition
      that defected. */
  function CalculatePayoff(a: Agent, nbrs: seq<Agent>, T: int, R: int, P: int, S: int): (r: Agent)
    requires |nbrs| == NumNeighbors(a)
    requires !a.isLeader ==> |nbrs| > 0
    ensures a.isLeader ==> r == a
    ensures r == a.(payoff := r.payoff, numDefectors := r.numDefectors)
    ensures !a.isLeader && (a.isMember || (a.isIndependent && (a.action == COOPERATE || a.action == DEFECT))) ==>
              r.numDefectors == CountActing(nbrs, Outsiders(a), DEFECT)
    ensures 0 <= r.numDefectors <= |nbrs| || a.isLeader
  {
    if a.isLeader then a
    else
      var n := |nbrs| as real;
      if a.isMember then
        var same := CountFellows(nbrs, a.leaderId);
        var coop := CountActing(nbrs, Some(a.leaderId), COOPERATE);
        var def := CountActing(nbrs, Some(a.leaderId), DEFECT);
        a.(payoff := (same * R + coop * T + def * P) as real / n, numDefectors := def)
      else if a.isIndependent && a.action == COOPERATE then
        var coop := CountActing(nbrs, None, COOPERATE);
        var def := CountActing(nbrs, None, DEFECT);
        a.(payoff := (coop * R + def * S) as real / n, numDefectors := def)
      else if a.isIndependent && a.action == DEFECT then
        var coop := CountActing(nbrs, None, COOPERATE);
        var def := CountActing(nbrs, None, DEFECT);
        a.(payoff := (coop * T + def * P) as real / n, numDefectors := def)
      else
        a.(payoff := a.payoff / n, numDefectors := 0)
  }

  /** Reference definition: what one encounter with neighbour `nb` is worth
      to `a` under the payoff matrix.  A member earns R from a fellow
      member, T from an outside cooperator and P from an outside defector;
      an independent that cooperated earns R or S, one that defected T or
      P, against a cooperator or a defector. */
  function Gain(a: Agent, nb: Agent, T: int, R: int, P: int, S: int): int
  {
    if a.isMember then
      if nb.leaderId == a.leaderId then R
      else if nb.action == COOPERATE then T
      else if nb.action == DEFECT then P
      else 0
    else if a.action == COOPERATE then
      if nb.action == COOPERATE then R else if nb.action == DEFECT then S else 0
    else
      if nb.action == COOPERATE then T else if nb.action == DEFECT then P else 0
  }

  function TotalGain(a: Agent, nbrs: seq<Agent>, T: int, R: int, P: int, S: int): int
  {
    if nbrs == [] then 0
    else TotalGain(a, nbrs[..|nbrs| - 1], T, R, P, S) + Gain(a, nbrs[|nbrs| - 1], T, R, P, S)
  }

  lemma MulSucc(k: int, v: int)
    ensures (k + 1) * v == k * v + v
  {
  }

  lemma {:induction false} TotalGainMember(a: Agent, nbrs: seq<Agent>, T: int, R: int, P: int, S: int)
    requires a.isMember
    ensures TotalGain(a, nbrs, T, R, P, S) ==
            CountFellows(nbrs, a.leaderId) * R + CountActing(nbrs, Some(a.leaderId), COOPERATE) * T
            + CountActing(nbrs, Some(a.leaderId), DEFECT) * P
  {
    if nbrs != [] {
      var init := nbrs[..|nbrs| - 1];
      var last := nbrs[|nbrs| - 1];
      TotalGainMember(a, init, T, R, P, S);
      var f := CountFellows(init, a.leaderId);
      var c := CountActing(init, Some(a.leaderId), COOPERATE);
      var d := CountActing(init, Some(a.leaderId), DEFECT);
      assert TotalGain(a, nbrs, T, R, P, S) == f * R + c * T + d * P + Gain(a, last, T, R, P, S);
      if last.leaderId == a.leaderId {
        assert CountFellows(nbrs, a.leaderId) == f + 1;
        MulSucc(f, R);
      } else if last.action == COOPERATE {
        assert CountActing(nbrs, Some(a.leaderId), COOPERATE) == c + 1;
        MulSucc(c, T);
      } else if last.action == DEFECT {
        assert CountActing(nbrs, Some(a.leaderId), DEFECT) == d + 1;
        MulSucc(d, P);
      }
    }
  }

  lemma {:induction false} TotalGainIndependent(a: Agent, nbrs: seq<Agent>, T: int, R: int, P: int, S: int)
    requires !a.isMember
    ensures a.action == COOPERATE ==>
      TotalGain(a, nbrs, T, R, P, S) ==
      CountActing(nbrs, None, COOPERATE) * R + CountActing(nbrs, None, DEFECT) * S
    ensures a.action != COOPERATE ==>
      TotalGain(a, nbrs, T, R, P, S) ==
      CountActing(nbrs, None, COOPERATE) * T + CountActing(nbrs, None, DEFECT) * P
  {
    if nbrs != [] {
      var init := nbrs[..|nbrs| - 1];
      var last := nbrs[|nbrs| - 1];
      TotalGainIndependent(a, init, T, R, P, S);
      var c := CountActing(init, None, COOPERATE);
      var d := CountActing(init, None, DEFECT);
      assert TotalGain(a, nbrs, T, R, P, S) == TotalGain(a, init, T, R, P, S) + Gain(a, last, T, R, P, S);
      if last.action == COOPERATE {
        assert CountActing(nbrs, None, COOPERATE) == c + 1;
        assert CountActing(nbrs, None, DEFECT) == d;
        MulSucc(c, R);
        MulSucc(c, T);
      } else if last.action == DEFECT {
        assert CountActing(nbrs, None, COOPERATE) == c;
        assert CountActing(nbrs, None, DEFECT) == d + 1;
        MulSucc(d, S);
        MulSucc(d, P);
      } else {
        assert CountActing(nbrs, None, COOPERATE) == c;
        assert CountActing(nbrs, None, DEFECT) == d;
      }
    }
  }

  /** The payoff a member, or an independent that played a valid action,
      receives is its average gain per neighbour. */
  lemma PayoffIsAverageGain(a: Agent, nbrs: seq<Agent>, T: int, R: int, P: int, S: int)
    requires |nbrs| == NumNeighbors(a) && |nbrs| > 0
    requires !a.isLeader
    requires a.isMember || (a.isIndependent && (a.action == COOPERATE || a.action == DEFECT))
    ensures CalculatePayoff(a, nbrs, T, R, P, S).payoff == TotalGain(a, nbrs, T, R, P, S) as real / |nbrs| as real
  {
    if a.isMember {
      TotalGainMember(a, nbrs, T, R, P, S);
    } else {
      TotalGainIndependent(a, nbrs, T, R, P, S);
    }
  }

  lemma {:induction false} AllCooperateCounts(nbrs: seq<Agent>)
    requires forall i :: 0 <= i < |nbrs| ==> nbrs[i].action == COOPERATE
    ensures CountActing(nbrs, None, COOPERATE) == |nbrs|
    ensures CountActing(nbrs, None, DEFECT) == 0
  {
    if nbrs != [] {
      AllCooperateCounts(nbrs[..|nbrs| - 1]);
    }
  }

  /** An independent that cooperated among neighbours who all cooperated
      earns exactly the reward, whatever the number of neighbours, and
      records no defectors. */
  lemma AllCooperatePayoff(a: Agent, nbrs: seq<Agent>, T: int, R: int, P: int, S: int)
    requires |nbrs| == NumNeighbors(a) && |nbrs| > 0
    requires a.isIndependent && !a.isMember && !a.isLeader && a.action == COOPERATE
    requires forall i :: 0 <= i < |nbrs| ==> nbrs[i].action == COOPERATE
    ensures CalculatePayoff(a, nbrs, T, R, P, S).payoff == R as real
    ensures CalculatePayoff(a, nbrs, T, R, P, S).numDefectors == 0
  {
    AllCooperateCounts(nbrs);
    var n := |nbrs|;
    assert (n * R + 0 * S) as real == (n as real) * (R as real);
  }

  // ---------------------------------------------------------------------
  // Coalition payoff

  /** A leader receives one member's payoff: the pool grows by exactly
      `amount` and exactly one id is appended to the member record. */
  function AddCoalitionPayoff(a: Agent, memberId: AgentId, amount: real): (r: Agent)
    ensures r.coalitionPayoff - a.coalitionPayoff == amount
    ensures |r.coalitionMembers| == |a.coalitionMembers| + 1
    ensures r.coalitionMembers[..|a.coalitionMembers|] == a.coalitionMembers
    ensures r.coalitionMembers[|a.coalitionMembers|] == memberId
    ensures r == a.(coalitionPayoff := r.coalitionPayoff, coalitionMembers := r.coalitionMembers)
  {
    a.(coalitionPayoff := a.coalitionPayoff + amount,
       coalitionMembers := a.coalitionMembers + [memberId])
  }

  /** The leader's split: it takes `coalitionPayoff * ceil(tax)` as its
      payoff and leaves the rest in the pool.  Nothing is created or lost:
      the two parts add up to the old pool. */
  function CalculateCoalitionPayoff(a: Agent, tax: real): (r: Agent)
    ensures r.payoff + r.coalitionPayoff == a.coalitionPayoff
    ensures 0.0 < tax <= 1.0 ==> r.payoff == a.coalitionPayoff && r.coalitionPayoff == 0.0
    ensures -1.0 < tax <= 0.0 ==> r.payoff == 0.0 && r.coalitionPayoff == a.coalitionPayoff
    ensures r == a.(payoff := r.payoff, coalitionPayoff := r.coalitionPayoff)
  {
    var share := a.coalitionPayoff * Ceil(tax) as real;
    a.(payoff := share, coalitionPayoff := a.coalitionPayoff - share)
  }
}
