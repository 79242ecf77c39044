/** One simulation round as a sequence of whole-population phases.  The
    directory holds every agent once; each phase reads the state the
    previous phase left (the effect of the synchronisation between phases)
    and rewrites every agent it applies to. */
module Rounds {
  import opened Codes
  import opened Agents
  import opened Directory

  /** A phase that needs an agent the directory does not hold fails, naming
      the missing id. */
  datatype Result<T> = Ok(value: T) | NotFound(missing: AgentId)

  /** Two directories list the same agents (by id) in the same order. */
  predicate SameIds(a: seq<Agent>, b: seq<Agent>)
  {
    |a| == |b| && forall i :: 0 <= i < |a| ==> a[i].id == b[i].id
  }

  lemma SameIdsKeepUnique(a: seq<Agent>, b: seq<Agent>)
    requires SameIds(a, b) && UniqueIds(a)
    ensures UniqueIds(b)
  {
  }

  // ---------------------------------------------------------------------
  // Who claims whom as leader

  /** `m` counts as a member of the coalition led by `leader`. */
  predicate Claims(m: Agent, leader: AgentId)
  {
    m.id != leader && m.leaderId == leader && m.isMember
  }

  /** The agents, in directory order, that claim `leader` as their leader:
      every agent other than the leader itself whose leader id is `leader`
      and whose member flag is set.  Each claimant appears as often as it
      does in the directory, and nothing else appears. */
  function MemberList(dir: seq<Agent>, leader: AgentId): (ms: seq<Agent>)
    ensures |ms| <= |dir|
    ensures forall m :: m in ms <==> m in dir && Claims(m, leader)
    ensures forall m :: multiset(ms)[m] == if Claims(m, leader) then multiset(dir)[m] else 0
  {
    if dir == [] then []
    else
      var rest := MemberList(dir[..|dir| - 1], leader);
      var last := dir[|dir| - 1];
      assert dir == dir[..|dir| - 1] + [last];
      assert multiset(dir) == multiset(dir[..|dir| - 1]) + multiset{last};
      assert forall m :: m in dir <==> m in dir[..|dir| - 1] || m == last;
      if Claims(last, leader) then
        assert multiset(rest + [last]) == multiset(rest) + multiset{last};
        rest + [last]
      else rest
  }

  /** Order: the claimants found in a prefix of the directory come first,
      in the prefix's order, followed by those of the rest. */
  lemma {:induction false} MemberListAppend(a: seq<Agent>, b: seq<Agent>, leader: AgentId)
    ensures MemberList(a + b, leader) == MemberList(a, leader) + MemberList(b, leader)
  {
    if b == [] {
      assert a + b == a;
    } else {
      var init := b[..|b| - 1];
      var last := b[|b| - 1];
      assert (a + b)[..|a + b| - 1] == a + init;
      assert (a + b)[|a + b| - 1] == last;
      MemberListAppend(a, init, leader);
    }
  }

  /** A one-agent directory lists that agent exactly when it claims the
      leader; with `MemberListAppend`, the member list is the directory
      filtered by `Claims`, in order. */
  lemma MemberListSingle(a: Agent, leader: AgentId)
    ensures MemberList([a], leader) == if Claims(a, leader) then [a] else []
  {
    assert [a][..0] == [];
  }

  /** The member list of every agent of the directory, in directory
      order. */
  function MemberLists(dir: seq<Agent>): (lists: seq<seq<Agent>>)
    ensures |lists| == |dir|
    ensures forall i, m :: 0 <= i < |dir| && m in lists[i] ==> m in dir && Claims(m, dir[i].id)
    ensures forall i, j :: 0 <= i < |dir| && 0 <= j < |dir| && Claims(dir[j], dir[i].id) ==> dir[j] in lists[i]
    ensures forall i, m :: 0 <= i < |dir| ==>
              multiset(lists[i])[m] == if Claims(m, dir[i].id) then multiset(dir)[m] else 0
  {
    seq(|dir|, i requires 0 <= i < |dir| => MemberList(dir, dir[i].id))
  }

  /** Each member list keeps directory order: cutting the directory at
      any point, the claimants before the cut come first. */
  lemma MemberListsInOrder(dir: seq<Agent>, i: int, k: int)
    requires 0 <= i < |dir| && 0 <= k <= |dir|
    ensures MemberLists(dir)[i] == MemberList(dir[..k], dir[i].id) + MemberList(dir[k..], dir[i].id)
  {
    assert dir == dir[..k] + dir[k..];
    MemberListAppend(dir[..k], dir[k..], dir[i].id);
  }

  // ---------------------------------------------------------------------
  // Leaders pool their members' payoffs

  /** The agents of `ms` whose leader id is `leader` and whose member flag
      is set: the test the leader applies before taking a payoff. */
  function Backers(ms: seq<Agent>, leader: AgentId): seq<Agent>
  {
    if ms == [] then []
    else
      var rest := Backers(ms[..|ms| - 1], leader);
      var last := ms[|ms| - 1];
      if last.leaderId == leader && last.isMember then rest + [last] else rest
  }

  function SumPayoffs(ms: seq<Agent>): real
  {
    if ms == [] then 0.0 else SumPayoffs(ms[..|ms| - 1]) + ms[|ms| - 1].payoff
  }

  /** The ids of a sequence of agents, in order. */
  function IdsOf(ms: seq<Agent>): seq<AgentId>
  {
    seq(|ms|, i requires 0 <= i < |ms| => ms[i].id)
  }

  /** A leader walks its member list in order and, for each agent that
      still names it as leader and is a member, adds that agent's payoff to
      its pool and records the agent's id.  The pool grows by exactly the
      backers' payoffs, and the backers' ids are appended, in order, to the
      ids already recorded. */
  function PoolLeader(leader: Agent, members: seq<Agent>): (r: Agent)
    ensures r.coalitionPayoff == leader.coalitionPayoff + SumPayoffs(Backers(members, leader.id))
    ensures r.coalitionMembers == leader.coalitionMembers + IdsOf(Backers(members, leader.id))
    ensures r == leader.(coalitionPayoff := r.coalitionPayoff, coalitionMembers := r.coalitionMembers)
  {
    if members == [] then leader
    else
      var before := PoolLeader(leader, members[..|members| - 1]);
      var m := members[|members| - 1];
      if leader.id == m.leaderId && m.isMember then
        var r := AddCoalitionPayoff(before, m.id, m.payoff);
        var init := Backers(members[..|members| - 1], leader.id);
        assert IdsOf(init + [m]) == IdsOf(init) + [m.id];
        assert r.coalitionMembers == before.coalitionMembers + [m.id];
        r
      else before
  }

  /** Every agent of a member list passes the leader's own test again. */
  lemma {:induction false} BackersOfMemberList(dir: seq<Agent>, leader: AgentId)
    ensures Backers(MemberList(dir, leader), leader) == MemberList(dir, leader)
  {
    if dir != [] {
      var init := dir[..|dir| - 1];
      var last := dir[|dir| - 1];
      BackersOfMemberList(init, leader);
      var ms := MemberList(init, leader);
      if Claims(last, leader) {
        assert (ms + [last])[..|ms + [last]| - 1] == ms;
      }
    }
  }

  /** Phase: every leader adds the payoffs of the agents that claim it to
      its pool; every other agent is unchanged. */
  function PoolPhase(dir: seq<Agent>): (r: seq<Agent>)
    ensures SameIds(dir, r)
    ensures forall i :: 0 <= i < |dir| && !dir[i].isLeader ==> r[i] == dir[i]
    ensures forall i :: 0 <= i < |dir| && dir[i].isLeader ==>
              r[i].coalitionPayoff == dir[i].coalitionPayoff + SumPayoffs(MemberList(dir, dir[i].id)) &&
              r[i] == dir[i].(coalitionPayoff := r[i].coalitionPayoff, coalitionMembers := r[i].coalitionMembers)
    ensures forall i :: 0 <= i < |dir| && dir[i].isLeader ==>
              r[i].coalitionMembers == dir[i].coalitionMembers + IdsOf(MemberList(dir, dir[i].id))
  {
    var r := seq(|dir|, i requires 0 <= i < |dir| =>
                   if dir[i].isLeader then PoolLeader(dir[i], MemberList(dir, dir[i].id)) else dir[i]);
    assert forall i :: 0 <= i < |dir| && dir[i].isLeader ==>
             && r[i].coalitionPayoff == dir[i].coalitionPayoff + SumPayoffs(MemberList(dir, dir[i].id))
             && r[i].coalitionMembers == dir[i].coalitionMembers + IdsOf(MemberList(dir, dir[i].id)) by {
      forall i | 0 <= i < |dir| && dir[i].isLeader {
        BackersOfMemberList(dir, dir[i].id);
      }
    }
    r
  }

  // ---------------------------------------------------------------------
  // Leaders split the pool

  /** Phase: every leader splits its pool between its own payoff and what
      remains for the members; the split neither creates nor loses payoff,
      and non-leaders are unchanged. */
  function SplitPhase(dir: seq<Agent>, tax: real): (r: seq<Agent>)
    ensures SameIds(dir, r)
    ensures forall i :: 0 <= i < |dir| && !dir[i].isLeader ==> r[i] == dir[i]
    ensures forall i :: 0 <= i < |dir| && dir[i].isLeader ==>
              r[i].payoff + r[i].coalitionPayoff == dir[i].coalitionPayoff &&
              r[i] == dir[i].(payoff := r[i].payoff, coalitionPayoff := r[i].coalitionPayoff)
    ensures forall i :: 0 <= i < |dir| && dir[i].isLeader ==> r[i] == CalculateCoalitionPayoff(dir[i], tax)
  {
    seq(|dir|, i requires 0 <= i < |dir| =>
          if dir[i].isLeader then CalculateCoalitionPayoff(dir[i], tax) else dir[i])
  }

  // ---------------------------------------------------------------------
  // Members read their payoff from their leader

  /** Every member's leader is in the directory. */
  predicate LeadersPresent(dir: seq<Agent>, todo: seq<Agent>)
  {
    forall i :: 0 <= i < |todo| && todo[i].isMember ==> Contains(dir, todo[i].leaderId)
  }

  /** A member's payoff becomes the remaining pool of an agent of the
      directory carrying its leader id; any other agent is unchanged. */
  function ReadLeaderPool(dir: seq<Agent>, a: Agent): (r: Agent)
    requires a.isMember ==> Contains(dir, a.leaderId)
    ensures r == a.(payoff := r.payoff)
    ensures !a.isMember ==> r == a
    ensures a.isMember ==> exists j :: 0 <= j < |dir| && dir[j].id == a.leaderId && r.payoff == dir[j].coalitionPayoff
  {
    if a.isMember then a.(payoff := Lookup(dir, a.leaderId).value.coalitionPayoff) else a
  }

  /** Apply `ReadLeaderPool` to each agent of `todo`, in order, looking
      leaders up in `dir`; the first member whose leader is missing stops
      the phase. */
  function ReadAll(dir: seq<Agent>, todo: seq<Agent>): (r: Result<seq<Agent>>)
    ensures r.Ok? <==> LeadersPresent(dir, todo)
    ensures r.Ok? ==> |r.value| == |todo|
    ensures r.Ok? ==> forall i :: 0 <= i < |todo| ==> r.value[i] == ReadLeaderPool(dir, todo[i])
    ensures r.NotFound? ==> !Contains(dir, r.missing)
    ensures r.NotFound? ==> exists i :: 0 <= i < |todo| && todo[i].isMember && todo[i].leaderId == r.missing
  {
    if todo == [] then Ok([])
    else if todo[0].isMember && !Contains(dir, todo[0].leaderId) then NotFound(todo[0].leaderId)
    else
      match ReadAll(dir, todo[1..])
      case NotFound(id) =>
        assert forall i :: 0 <= i < |todo[1..]| ==> todo[1..][i] == todo[i + 1];
        NotFound(id)
      case Ok(rest) =>
        assert forall i :: 1 <= i < |todo| ==> todo[i] == todo[1..][i - 1];
        Ok([ReadLeaderPool(dir, todo[0])] + rest)
  }

  /** Phase: every member sets its payoff to its leader's remaining pool;
      it fails exactly when some member's leader is not in the directory. */
  function MemberReadPhase(dir: seq<Agent>): (r: Result<seq<Agent>>)
    ensures r.Ok? <==> LeadersPresent(dir, dir)
    ensures r.Ok? ==> SameIds(dir, r.value)
    ensures r.Ok? ==> forall i :: 0 <= i < |dir| ==> r.value[i] == dir[i].(payoff := r.value[i].payoff)
    ensures r.Ok? ==> forall i :: 0 <= i < |dir| && !dir[i].isMember ==> r.value[i] == dir[i]
  {
    ReadAll(dir, dir)
  }

  /** After the member-read phase, in a directory with unique ids, every
      member's payoff equals the remaining pool of its leader, as that
      leader now stands. */
  lemma MemberPaidByLeader(dir: seq<Agent>, i: int)
    requires UniqueIds(dir)
    requires MemberReadPhase(dir).Ok?
    requires 0 <= i < |dir| && dir[i].isMember
    ensures exists j :: 0 <= j < |dir| && dir[j].id == dir[i].leaderId &&
              MemberReadPhase(dir).value[i].payoff == MemberReadPhase(dir).value[j].coalitionPayoff
  {
    var r := MemberReadPhase(dir).value;
    var leader := Lookup(dir, dir[i].leaderId).value;
    var j :| 0 <= j < |dir| && dir[j] == leader;
    LookupAt(dir, j);
    assert r[i].payoff == leader.coalitionPayoff;
    assert r[j].coalitionPayoff == dir[j].coalitionPayoff;
  }

  /** All members of one leader receive the same payoff. */
  lemma MembersPaidEqually(dir: seq<Agent>, i: int, k: int)
    requires 0 <= i < |dir| && 0 <= k < |dir|
    requires dir[i].isMember && dir[k].isMember && dir[i].leaderId == dir[k].leaderId
    ensures MemberReadPhase(dir).Ok? ==>
              MemberReadPhase(dir).value[i].payoff == MemberReadPhase(dir).value[k].payoff
  {
  }

  // ---------------------------------------------------------------------
  // Action and payoff phases, and the whole round

  /** Phase: every agent chooses its action; `draws[i]` is the generator
      value agent i uses. */
  function DecideActionPhase(dir: seq<Agent>, draws: seq<real>): (r: seq<Agent>)
    requires |draws| == |dir|
    requires forall i :: 0 <= i < |dir| && dir[i].strategy == PTFT ==> NumNeighbors(dir[i]) > 0
    ensures SameIds(dir, r)
    ensures forall i :: 0 <= i < |dir| ==> r[i] == dir[i].(action := r[i].action)
    ensures forall i :: 0 <= i < |dir| ==> r[i] == DecideAction(dir[i], draws[i])
  {
    seq(|dir|, i requires 0 <= i < |dir| => DecideAction(dir[i], draws[i]))
  }

  /** The directory entries for a list of ids, in order, or the first id
      it does not hold. */
  function Resolve(dir: seq<Agent>, ids: seq<AgentId>): (r: Result<seq<Agent>>)
    ensures r.Ok? <==> forall i :: 0 <= i < |ids| ==> Contains(dir, ids[i])
    ensures r.Ok? ==> |r.value| == |ids|
    ensures r.Ok? ==> forall i :: 0 <= i < |ids| ==> Lookup(dir, ids[i]) == Some(r.value[i])
    ensures r.NotFound? ==> r.missing in ids && !Contains(dir, r.missing)
  {
    if ids == [] then Ok([])
    else
      match Lookup(dir, ids[0])
      case None => NotFound(ids[0])
      case Some(a) =>
        match Resolve(dir, ids[1..])
        case NotFound(id) =>
          assert forall i :: 0 <= i < |ids[1..]| ==> ids[1..][i] == ids[i + 1];
          NotFound(id)
        case Ok(rest) =>
          ResolveCons(dir, ids, a, rest);
          Ok([a] + rest)
  }

  /** Resolution of `ids[1..]` and of its head extends to `ids`. */
  lemma ResolveCons(dir: seq<Agent>, ids: seq<AgentId>, a: Agent, rest: seq<Agent>)
    requires ids != [] && |rest| == |ids| - 1
    requires Lookup(dir, ids[0]) == Some(a)
    requires forall i :: 0 <= i < |ids[1..]| ==> Contains(dir, ids[1..][i])
    requires forall i :: 0 <= i < |ids[1..]| ==> Lookup(dir, ids[1..][i]) == Some(rest[i])
    ensures forall i :: 0 <= i < |ids| ==> Contains(dir, ids[i])
    ensures forall i :: 0 <= i < |ids| ==> Lookup(dir, ids[i]) == Some(([a] + rest)[i])
  {
    forall i | 0 <= i < |ids|
      ensures Contains(dir, ids[i]) && Lookup(dir, ids[i]) == Some(([a] + rest)[i])
    {
      if i > 0 {
        assert ids[i] == ids[1..][i - 1] && ([a] + rest)[i] == rest[i - 1];
      }
    }
  }

  /** Every neighbour id of `a` names an agent of the directory. */
  predicate NeighborsHeld(dir: seq<Agent>, a: Agent)
  {
    forall k :: 0 <= k < |a.neighbors| ==> Contains(dir, a.neighbors[k])
  }

  /** One agent's payoff step: a leader is left alone; any other agent
      reads its neighbours' current states and computes its payoff, and
      fails exactly when one of its neighbours is not in the directory. */
  function AgentPayoff(dir: seq<Agent>, a: Agent, T: int, R: int, P: int, S: int): (r: Result<Agent>)
    requires !a.isLeader ==> NumNeighbors(a) > 0
    ensures a.isLeader ==> r == Ok(a)
    ensures r.Ok? <==> a.isLeader || NeighborsHeld(dir, a)
    ensures r.Ok? ==> r.value == a.(payoff := r.value.payoff, numDefectors := r.value.numDefectors)
    ensures !a.isLeader && r.Ok? ==> r.value == CalculatePayoff(a, Resolve(dir, a.neighbors).value, T, R, P, S)
    ensures r.NotFound? ==> r.missing in a.neighbors && !Contains(dir, r.missing)
  {
    if a.isLeader then Ok(a)
    else
      match Resolve(dir, a.neighbors)
      case NotFound(id) => NotFound(id)
      case Ok(nbrs) => Ok(CalculatePayoff(a, nbrs, T, R, P, S))
  }

  /** Phase: every agent computes its payoff from the actions chosen in
      this round.  It fails exactly when some non-leader has a neighbour
      the directory does not hold; otherwise leaders are unchanged and
      every other agent's payoff is computed against its neighbours as the
      directory holds them. */
  function PayoffPhase(dir: seq<Agent>, T: int, R: int, P: int, S: int): (r: Result<seq<Agent>>)
    requires forall i :: 0 <= i < |dir| && !dir[i].isLeader ==> NumNeighbors(dir[i]) > 0
    ensures r.Ok? <==> forall i :: 0 <= i < |dir| && !dir[i].isLeader ==> NeighborsHeld(dir, dir[i])
    ensures r.Ok? ==> SameIds(dir, r.value)
    ensures r.Ok? ==> forall i :: 0 <= i < |dir| ==>
              r.value[i] == dir[i].(payoff := r.value[i].payoff, numDefectors := r.value[i].numDefectors)
    ensures r.Ok? ==> forall i :: 0 <= i < |dir| && dir[i].isLeader ==> r.value[i] == dir[i]
    ensures r.Ok? ==> forall i :: 0 <= i < |dir| && !dir[i].isLeader ==>
              r.value[i] == CalculatePayoff(dir[i], Resolve(dir, dir[i].neighbors).value, T, R, P, S)
    ensures r.NotFound? ==> !Contains(dir, r.missing)
  {
    PayoffFrom(dir, dir, T, R, P, S)
  }

  /** `AgentPayoff` applied to each agent of `todo` in order, against the
      fixed directory `dir`; the first failure stops the walk. */
  function PayoffFrom(dir: seq<Agent>, todo: seq<Agent>, T: int, R: int, P: int, S: int): (r: Result<seq<Agent>>)
    requires forall i :: 0 <= i < |todo| && !todo[i].isLeader ==> NumNeighbors(todo[i]) > 0
    ensures r.Ok? <==> forall i :: 0 <= i < |todo| && !todo[i].isLeader ==> NeighborsHeld(dir, todo[i])
    ensures r.Ok? ==> |r.value| == |todo|
    ensures r.Ok? ==> forall i :: 0 <= i < |todo| ==> AgentPayoff(dir, todo[i], T, R, P, S) == Ok(r.value[i])
    ensures r.NotFound? ==> !Contains(dir, r.missing)
  {
    if todo == [] then Ok([])
    else
      match AgentPayoff(dir, todo[0], T, R, P, S)
      case NotFound(id) => NotFound(id)
      case Ok(a) =>
        match PayoffFrom(dir, todo[1..], T, R, P, S)
        case NotFound(id) =>
          assert forall i :: 0 <= i < |todo[1..]| ==> todo[1..][i] == todo[i + 1];
          NotFound(id)
        case Ok(rest) =>
          PayoffCons(dir, todo, a, rest, T, R, P, S);
          Ok([a] + rest)
  }

  /** The payoff walk's facts about `todo[1..]` and its head extend to `todo`. */
  lemma PayoffCons(dir: seq<Agent>, todo: seq<Agent>, a: Agent, rest: seq<Agent>, T: int, R: int, P: int, S: int)
    requires todo != [] && |rest| == |todo| - 1
    requires forall i :: 0 <= i < |todo| && !todo[i].isLeader ==> NumNeighbors(todo[i]) > 0
    requires AgentPayoff(dir, todo[0], T, R, P, S) == Ok(a)
    requires forall i :: 0 <= i < |todo[1..]| && !todo[1..][i].isLeader ==> NeighborsHeld(dir, todo[1..][i])
    requires forall i :: 0 <= i < |todo[1..]| ==> AgentPayoff(dir, todo[1..][i], T, R, P, S) == Ok(rest[i])
    ensures forall i :: 0 <= i < |todo| && !todo[i].isLeader ==> NeighborsHeld(dir, todo[i])
    ensures forall i :: 0 <= i < |todo| ==> AgentPayoff(dir, todo[i], T, R, P, S) == Ok(([a] + rest)[i])
  {
    forall i | 1 <= i < |todo|
      ensures todo[i] == todo[1..][i - 1] && ([a] + rest)[i] == rest[i - 1]
    {
    }
  }

  /** Two directories hold the same agents in the same order, on the same
      cells, with the same neighbours, strategies, status flags and
      leaders: what every phase of a round keeps. */
  predicate SameLinks(a: seq<Agent>, b: seq<Agent>)
  {
    && SameIds(a, b)
    && forall i :: 0 <= i < |a| ==>
         && b[i].x == a[i].x && b[i].y == a[i].y
         && b[i].neighbors == a[i].neighbors && b[i].strategy == a[i].strategy
         && b[i].isIndependent == a[i].isIndependent && b[i].isMember == a[i].isMember
         && b[i].isLeader == a[i].isLeader && b[i].leaderId == a[i].leaderId
  }

  /** Every non-leader's neighbours are in the directory: the condition
      under which the payoff phase succeeds. */
  predicate PayoffReady(dir: seq<Agent>)
  {
    forall i :: 0 <= i < |dir| && !dir[i].isLeader ==> NeighborsHeld(dir, dir[i])
  }

  /** Directories listing the same ids hold the same ids. */
  lemma SameIdsContains(a: seq<Agent>, b: seq<Agent>, id: AgentId)
    requires SameIds(a, b)
    ensures Contains(a, id) <==> Contains(b, id)
  {
    if Contains(a, id) {
      var i :| 0 <= i < |a| && a[i].id == id;
      assert b[i].id == id;
    }
    if Contains(b, id) {
      var i :| 0 <= i < |b| && b[i].id == id;
      assert a[i].id == id;
    }
  }

  /** The success conditions of the payoff and member-read phases depend
      only on what `SameLinks` keeps. */
  lemma {:induction false} SameLinksConditions(a: seq<Agent>, b: seq<Agent>)
    requires SameLinks(a, b)
    ensures PayoffReady(a) <==> PayoffReady(b)
    ensures LeadersPresent(a, a) <==> LeadersPresent(b, b)
  {
    forall id | true ensures Contains(a, id) <==> Contains(b, id) {
      SameIdsContains(a, b, id);
    }
  }

  /** What a phase keeps is kept by two phases in a row. */
  lemma SameLinksTrans(a: seq<Agent>, b: seq<Agent>, c: seq<Agent>)
    requires SameLinks(a, b) && SameLinks(b, c)
    ensures SameLinks(a, c)
  {
  }

  /** The second half of a round (src/landModel.cpp:332-366): leaders pool
      and split, then members read their leader's pool.  It fails exactly
      when some member's leader is missing.  On success every agent keeps
      its links and its action; a leader has pooled its claimants' payoffs
      and split the pool, so its payoff plus its remaining pool is its old
      pool plus those payoffs; every member is paid its leader's remaining
      pool; a non-member non-leader is untouched. */
  function Settle(paid: seq<Agent>, tax: real): (r: Result<seq<Agent>>)
    ensures r.Ok? <==> LeadersPresent(paid, paid)
    ensures r.Ok? ==> SameLinks(paid, r.value)
    ensures r.Ok? ==> forall i :: 0 <= i < |paid| ==> r.value[i].action == paid[i].action
    ensures r.Ok? && UniqueIds(paid) ==> forall i {:trigger paid[i].isMember} :: 0 <= i < |paid| && paid[i].isMember ==>
              exists j :: 0 <= j < |paid| && paid[j].id == paid[i].leaderId && r.value[i].payoff == r.value[j].coalitionPayoff
    ensures r.Ok? ==> SettledFrom(paid, r.value, tax)
  {
    var split := SplitPhase(PoolPhase(paid), tax);
    PoolSplitKeepsLinks(paid, tax);
    SameLinksConditions(paid, split);
    SettledAgents(paid, tax);
    var r := MemberReadPhase(split);
    if r.Ok? then
      MemberReadKeepsLinks(split);
      SameLinksTrans(paid, split, r.value);
      if UniqueIds(paid) then
        SettledMembersPaid(paid, split);
        r
      else r
    else r
  }

  /** What pooling, splitting and the member read do to each agent. */
  lemma SettledAgents(paid: seq<Agent>, tax: real)
    ensures var r := MemberReadPhase(SplitPhase(PoolPhase(paid), tax));
      r.Ok? ==>
        && |r.value| == |paid|
        && (forall i :: 0 <= i < |paid| && !paid[i].isLeader ==> r.value[i] == paid[i].(payoff := r.value[i].payoff))
        && (forall i :: 0 <= i < |paid| && !paid[i].isLeader && !paid[i].isMember ==> r.value[i] == paid[i])
    ensures var r := MemberReadPhase(SplitPhase(PoolPhase(paid), tax));
      r.Ok? ==>
        && |r.value| == |paid|
        && (forall i :: 0 <= i < |paid| && paid[i].isLeader ==>
              r.value[i].coalitionPayoff == CalculateCoalitionPayoff(PoolLeader(paid[i], MemberList(paid, paid[i].id)), tax).coalitionPayoff)
        && (forall i :: 0 <= i < |paid| && paid[i].isLeader && !paid[i].isMember ==>
              && r.value[i] == CalculateCoalitionPayoff(PoolLeader(paid[i], MemberList(paid, paid[i].id)), tax)
              && r.value[i].payoff + r.value[i].coalitionPayoff == paid[i].coalitionPayoff + SumPayoffs(MemberList(paid, paid[i].id)))
  {
    var pooled := PoolPhase(paid);
    var split := SplitPhase(pooled, tax);
    var r := MemberReadPhase(split);
    if r.Ok? {
      forall i | 0 <= i < |paid| && paid[i].isLeader
        ensures split[i] == CalculateCoalitionPayoff(PoolLeader(paid[i], MemberList(paid, paid[i].id)), tax)
        ensures pooled[i].coalitionPayoff == paid[i].coalitionPayoff + SumPayoffs(MemberList(paid, paid[i].id))
      {
        BackersOfMemberList(paid, paid[i].id);
        assert pooled[i] == PoolLeader(paid[i], MemberList(paid, paid[i].id));
      }
    }
  }

  /** Pooling and splitting keep every agent's links and action. */
  lemma PoolSplitKeepsLinks(paid: seq<Agent>, tax: real)
    ensures SameLinks(paid, SplitPhase(PoolPhase(paid), tax))
    ensures forall i :: 0 <= i < |paid| ==> SplitPhase(PoolPhase(paid), tax)[i].action == paid[i].action
  {
    var pooled := PoolPhase(paid);
    assert SameLinks(paid, pooled);
    var split := SplitPhase(pooled, tax);
    assert SameLinks(pooled, split);
  }

  /** Reading the leaders' pools keeps every agent's links and action. */
  lemma MemberReadKeepsLinks(dir: seq<Agent>)
    requires MemberReadPhase(dir).Ok?
    ensures SameLinks(dir, MemberReadPhase(dir).value)
    ensures forall i :: 0 <= i < |dir| ==> MemberReadPhase(dir).value[i].action == dir[i].action
  {
  }

  /** Members of `split` are paid their leader's pool, stated over the
      positions and leader ids of `paid`. */
  lemma SettledMembersPaid(paid: seq<Agent>, split: seq<Agent>)
    requires SameLinks(paid, split) && UniqueIds(paid)
    requires MemberReadPhase(split).Ok?
    ensures forall i {:trigger paid[i].isMember} :: 0 <= i < |paid| && paid[i].isMember ==>
              exists j :: 0 <= j < |paid| && paid[j].id == paid[i].leaderId &&
                MemberReadPhase(split).value[i].payoff == MemberReadPhase(split).value[j].coalitionPayoff
  {
    SameIdsKeepUnique(paid, split);
    forall i | 0 <= i < |paid| && paid[i].isMember
      ensures exists j :: 0 <= j < |paid| && paid[j].id == paid[i].leaderId &&
                MemberReadPhase(split).value[i].payoff == MemberReadPhase(split).value[j].coalitionPayoff
    {
      MemberPaidByLeader(split, i);
    }
  }

  /** One round: choose actions, compute payoffs, pool and split at the
      leaders, pay the members, and compute every agent's member list.
      Deciding about coalitions is a no-op in this version of the program,
      and the status update that consumes the member lists is not part of
      this model.  The round fails exactly when some non-leader's
      neighbour or some member's leader is not in the directory.  On
      success every agent keeps its id, cell, neighbours, strategy, status
      and leader, ends with the action its choice rule gives for its draw,
      every member (ids being unique) is paid its leader's remaining pool,
      and the member lists are those of the final state.  Agent by agent,
      the outcome is the one `RoundOutcome` describes from the payoff
      step's result. */
  function Round(dir: seq<Agent>, draws: seq<real>, T: int, R: int, P: int, S: int, tax: real)
    : (r: Result<(seq<Agent>, seq<seq<Agent>>)>)
    requires |draws| == |dir|
    requires forall i :: 0 <= i < |dir| ==> NumNeighbors(dir[i]) > 0
    ensures r.Ok? <==> PayoffReady(dir) && LeadersPresent(dir, dir)
    ensures r.Ok? ==> SameIds(dir, r.value.0) && r.value.1 == MemberLists(r.value.0)
    ensures r.Ok? ==> SameLinks(dir, r.value.0)
    ensures r.Ok? ==> forall i :: 0 <= i < |dir| ==> r.value.0[i].action == DecideAction(dir[i], draws[i]).action
    ensures r.Ok? && UniqueIds(dir) ==> forall i {:trigger dir[i].isMember} :: 0 <= i < |dir| && dir[i].isMember ==>
              exists j :: 0 <= j < |dir| && dir[j].id == dir[i].leaderId && r.value.0[i].payoff == r.value.0[j].coalitionPayoff
    ensures r.Ok? ==>
              && ChooseAndPay(dir, draws, T, R, P, S).Ok?
              && RoundOutcome(dir, draws, ChooseAndPay(dir, draws, T, R, P, S).value, r.value.0, T, R, P, S, tax)
  {
    match ChooseAndPay(dir, draws, T, R, P, S)
    case NotFound(id) => NotFound(id)
    case Ok(paid) =>
      SameLinksConditions(dir, paid);
      var r := SettleRound(dir, draws, paid, tax);
      if r.Ok? then
        RoundAgents(dir, draws, paid, r.value.0, T, R, P, S, tax);
        r
      else r
  }

  /** The second half of a round, from the directory `paid` that the
      payoff step left: pool, split, pay the members and compute the
      member lists.  It fails exactly when some member's leader is not in
      the directory; on success it keeps what the first half promised and
      settles `paid` as the member read does. */
  function SettleRound(dir: seq<Agent>, draws: seq<real>, paid: seq<Agent>, tax: real)
    : (r: Result<(seq<Agent>, seq<seq<Agent>>)>)
    requires |draws| == |dir|
    requires forall i :: 0 <= i < |dir| ==> NumNeighbors(dir[i]) > 0
    requires SameLinks(dir, paid)
    requires forall i :: 0 <= i < |dir| ==> paid[i].action == DecideAction(dir[i], draws[i]).action
    ensures r.Ok? <==> LeadersPresent(dir, dir)
    ensures r.Ok? ==> SameIds(dir, r.value.0) && r.value.1 == MemberLists(r.value.0)
    ensures r.Ok? ==> SameLinks(dir, r.value.0)
    ensures r.Ok? ==> forall i :: 0 <= i < |dir| ==> r.value.0[i].action == DecideAction(dir[i], draws[i]).action
    ensures r.Ok? && UniqueIds(dir) ==> forall i {:trigger dir[i].isMember} :: 0 <= i < |dir| && dir[i].isMember ==>
              exists j :: 0 <= j < |dir| && dir[j].id == dir[i].leaderId && r.value.0[i].payoff == r.value.0[j].coalitionPayoff
    ensures r.Ok? ==> SettledFrom(paid, r.value.0, tax)
  {
    SameLinksConditions(dir, paid);
    match Settle(paid, tax)
    case NotFound(id) => NotFound(id)
    case Ok(read) =>
      RoundCarry(dir, draws, paid, read);
      Ok((read, MemberLists(read)))
  }

  /** How the payoff step leaves each agent once everybody has chosen an
      action: a leader exactly as its choice left it, any other agent with
      the payoff and defector count computed against its neighbours as they
      then stand. */
  predicate PaidAsChosen(dir: seq<Agent>, draws: seq<real>, paid: seq<Agent>, T: int, R: int, P: int, S: int)
    requires |draws| == |dir| && |paid| == |dir|
    requires forall i :: 0 <= i < |dir| ==> NumNeighbors(dir[i]) > 0
  {
    && (forall i :: 0 <= i < |dir| && dir[i].isLeader ==> paid[i] == DecideAction(dir[i], draws[i]))
    && (forall i :: 0 <= i < |dir| && !dir[i].isLeader ==>
          && Resolve(DecideActionPhase(dir, draws), dir[i].neighbors).Ok?
          && |Resolve(DecideActionPhase(dir, draws), dir[i].neighbors).value| == NumNeighbors(dir[i])
          && paid[i] == CalculatePayoff(DecideAction(dir[i], draws[i]),
                                        Resolve(DecideActionPhase(dir, draws), dir[i].neighbors).value, T, R, P, S))
  }

  /** How pooling, splitting and the member read leave each agent: a
      non-leader changes at most its payoff, and a non-member non-leader
      not at all; a leader's remaining pool is what splitting its pool,
      grown by its claimants' payoffs, leaves; a leader that is not also a
      member ends as that split, so its payoff plus remaining pool is its
      old pool plus its claimants' payoffs. */
  predicate SettledFrom(paid: seq<Agent>, read: seq<Agent>, tax: real)
  {
    && |read| == |paid|
    && (forall i :: 0 <= i < |paid| && !paid[i].isLeader ==> read[i] == paid[i].(payoff := read[i].payoff))
    && (forall i :: 0 <= i < |paid| && !paid[i].isLeader && !paid[i].isMember ==> read[i] == paid[i])
    && (forall i :: 0 <= i < |paid| && paid[i].isLeader ==>
          read[i].coalitionPayoff == CalculateCoalitionPayoff(PoolLeader(paid[i], MemberList(paid, paid[i].id)), tax).coalitionPayoff)
    && (forall i :: 0 <= i < |paid| && paid[i].isLeader && !paid[i].isMember ==>
          && read[i] == CalculateCoalitionPayoff(PoolLeader(paid[i], MemberList(paid, paid[i].id)), tax)
          && read[i].payoff + read[i].coalitionPayoff == paid[i].coalitionPayoff + SumPayoffs(MemberList(paid, paid[i].id)))
  }

  /** How a round leaves each agent, given the directory `paid` after the
      payoff step.  A non-leader carries the result of its payoff step,
      computed against its neighbours as they stand after everybody has
      chosen an action; a member then takes its leader's pool as payoff, so
      only a non-member keeps the computed payoff.  A leader's remaining
      pool is what splitting its pool, grown by its claimants' payoffs,
      leaves; a leader that is not also a member ends as that split, and
      its payoff plus remaining pool is its old pool plus those payoffs. */
  predicate RoundOutcome(dir: seq<Agent>, draws: seq<real>, paid: seq<Agent>, read: seq<Agent>,
                         T: int, R: int, P: int, S: int, tax: real)
    requires |draws| == |dir| && |paid| == |dir| && |read| == |dir|
    requires forall i :: 0 <= i < |dir| ==> NumNeighbors(dir[i]) > 0
  {
    && (forall i :: 0 <= i < |dir| && !dir[i].isLeader ==>
          && Resolve(DecideActionPhase(dir, draws), dir[i].neighbors).Ok?
          && |Resolve(DecideActionPhase(dir, draws), dir[i].neighbors).value| == NumNeighbors(dir[i])
          && read[i] == CalculatePayoff(DecideAction(dir[i], draws[i]),
                                        Resolve(DecideActionPhase(dir, draws), dir[i].neighbors).value, T, R, P, S)
                          .(payoff := read[i].payoff)
          && (!dir[i].isMember ==>
                read[i] == CalculatePayoff(DecideAction(dir[i], draws[i]),
                                           Resolve(DecideActionPhase(dir, draws), dir[i].neighbors).value, T, R, P, S)))
    && (forall i :: 0 <= i < |dir| && dir[i].isLeader ==>
          read[i].coalitionPayoff ==
            CalculateCoalitionPayoff(PoolLeader(DecideAction(dir[i], draws[i]), MemberList(paid, dir[i].id)), tax).coalitionPayoff)
    && (forall i :: 0 <= i < |dir| && dir[i].isLeader && !dir[i].isMember ==>
          && read[i] == CalculateCoalitionPayoff(PoolLeader(DecideAction(dir[i], draws[i]), MemberList(paid, dir[i].id)), tax)
          && read[i].payoff + read[i].coalitionPayoff == dir[i].coalitionPayoff + SumPayoffs(MemberList(paid, dir[i].id)))
  }

  /** Each agent's state after a round, from what the two halves promise:
      a non-leader carries the payoff step's result (a member then takes
      its leader's pool as payoff), and a leader has pooled its claimants'
      payoffs and split the pool. */
  lemma RoundAgents(dir: seq<Agent>, draws: seq<real>, paid: seq<Agent>, read: seq<Agent>,
                    T: int, R: int, P: int, S: int, tax: real)
    requires |draws| == |dir|
    requires forall i :: 0 <= i < |dir| ==> NumNeighbors(dir[i]) > 0
    requires SameLinks(dir, paid) && |read| == |paid|
    requires PaidAsChosen(dir, draws, paid, T, R, P, S)
    requires SettledFrom(paid, read, tax)
    ensures RoundOutcome(dir, draws, paid, read, T, R, P, S, tax)
  {
    forall i | 0 <= i < |dir| && dir[i].isLeader
      ensures paid[i].isLeader && paid[i].id == dir[i].id && paid[i].coalitionPayoff == dir[i].coalitionPayoff
    {
    }
    forall i | 0 <= i < |dir| && !dir[i].isLeader
      ensures !paid[i].isLeader && paid[i].isMember == dir[i].isMember
    {
    }
  }

  /** What the two halves of a round promise about their own inputs holds
      of the round's input. */
  lemma RoundCarry(dir: seq<Agent>, draws: seq<real>, paid: seq<Agent>, read: seq<Agent>)
    requires |draws| == |dir|
    requires forall i :: 0 <= i < |dir| ==> NumNeighbors(dir[i]) > 0
    requires SameLinks(dir, paid) && SameLinks(paid, read)
    requires forall i :: 0 <= i < |dir| ==> paid[i].action == DecideAction(dir[i], draws[i]).action
    requires forall i :: 0 <= i < |paid| ==> read[i].action == paid[i].action
    requires UniqueIds(paid) ==> forall i {:trigger paid[i].isMember} :: 0 <= i < |paid| && paid[i].isMember ==>
               exists j :: 0 <= j < |paid| && paid[j].id == paid[i].leaderId && read[i].payoff == read[j].coalitionPayoff
    ensures SameLinks(dir, read) && SameIds(dir, read)
    ensures forall i :: 0 <= i < |dir| ==> read[i].action == DecideAction(dir[i], draws[i]).action
    ensures UniqueIds(dir) ==> forall i {:trigger dir[i].isMember} :: 0 <= i < |dir| && dir[i].isMember ==>
              exists j :: 0 <= j < |dir| && dir[j].id == dir[i].leaderId && read[i].payoff == read[j].coalitionPayoff
  {
    SameLinksTrans(dir, paid, read);
    if UniqueIds(dir) {
      SameIdsKeepUnique(dir, paid);
      MembersPaidCarry(dir, paid, read);
    }
  }

  /** The first half of a round (src/landModel.cpp:314-326): every agent
      chooses its action, then every agent computes its payoff.  It fails
      exactly when some non-leader's neighbour is missing.  On success every
      agent keeps its links and has the action its choice rule gives for its
      draw; a leader is otherwise untouched, and every other agent's payoff
      and defector count are computed against its neighbours as they stand
      after everybody has chosen. */
  function ChooseAndPay(dir: seq<Agent>, draws: seq<real>, T: int, R: int, P: int, S: int): (r: Result<seq<Agent>>)
    requires |draws| == |dir|
    requires forall i :: 0 <= i < |dir| ==> NumNeighbors(dir[i]) > 0
    ensures r.Ok? <==> PayoffReady(dir)
    ensures r.Ok? ==> SameLinks(dir, r.value)
    ensures r.Ok? ==> forall i :: 0 <= i < |dir| ==> r.value[i].action == DecideAction(dir[i], draws[i]).action
    ensures r.Ok? ==> PaidAsChosen(dir, draws, r.value, T, R, P, S)
  {
    var acted := DecideActionPhase(dir, draws);
    ActionPhaseKeepsLinks(dir, draws);
    SameLinksConditions(dir, acted);
    ChosenPayoffs(dir, draws, T, R, P, S);
    var r := PayoffPhase(acted, T, R, P, S);
    if r.Ok? then
      PayoffPhaseKeepsLinks(acted, T, R, P, S);
      SameLinksTrans(dir, acted, r.value);
      r
    else r
  }

  /** Choosing actions keeps every agent's links. */
  lemma ActionPhaseKeepsLinks(dir: seq<Agent>, draws: seq<real>)
    requires |draws| == |dir|
    requires forall i :: 0 <= i < |dir| ==> NumNeighbors(dir[i]) > 0
    ensures SameLinks(dir, DecideActionPhase(dir, draws))
    ensures forall i :: 0 <= i < |dir| ==> NumNeighbors(DecideActionPhase(dir, draws)[i]) > 0
  {
    var acted := DecideActionPhase(dir, draws);
    forall i | 0 <= i < |dir| ensures NumNeighbors(acted[i]) > 0 {
      assert acted[i].neighbors == dir[i].neighbors;
    }
  }

  /** After everybody has chosen, a leader's payoff step leaves it as its
      choice left it, and any other agent's payoff is computed against its
      neighbours as they then stand. */
  lemma ChosenPayoffs(dir: seq<Agent>, draws: seq<real>, T: int, R: int, P: int, S: int)
    requires |draws| == |dir|
    requires forall i :: 0 <= i < |dir| ==> NumNeighbors(dir[i]) > 0
    ensures forall i :: 0 <= i < |dir| ==> NumNeighbors(DecideActionPhase(dir, draws)[i]) > 0
    ensures var r := PayoffPhase(DecideActionPhase(dir, draws), T, R, P, S);
      r.Ok? ==>
        && |r.value| == |dir|
        && (forall i :: 0 <= i < |dir| && dir[i].isLeader ==> r.value[i] == DecideAction(dir[i], draws[i]))
        && (forall i :: 0 <= i < |dir| && !dir[i].isLeader ==>
              && Resolve(DecideActionPhase(dir, draws), dir[i].neighbors).Ok?
              && r.value[i] == CalculatePayoff(DecideAction(dir[i], draws[i]),
                                               Resolve(DecideActionPhase(dir, draws), dir[i].neighbors).value, T, R, P, S))
  {
    ActionPhaseKeepsLinks(dir, draws);
    var acted := DecideActionPhase(dir, draws);
    var r := PayoffPhase(acted, T, R, P, S);
    if r.Ok? {
      forall i | 0 <= i < |dir| && !dir[i].isLeader
        ensures Resolve(acted, dir[i].neighbors).Ok?
      {
        assert acted[i].neighbors == dir[i].neighbors && !acted[i].isLeader;
        assert NeighborsHeld(acted, acted[i]);
      }
    }
  }

  /** Computing payoffs keeps every agent's links and action. */
  lemma PayoffPhaseKeepsLinks(dir: seq<Agent>, T: int, R: int, P: int, S: int)
    requires forall i :: 0 <= i < |dir| && !dir[i].isLeader ==> NumNeighbors(dir[i]) > 0
    requires PayoffPhase(dir, T, R, P, S).Ok?
    ensures SameLinks(dir, PayoffPhase(dir, T, R, P, S).value)
    ensures forall i :: 0 <= i < |dir| ==> PayoffPhase(dir, T, R, P, S).value[i].action == dir[i].action
  {
  }

  /** The member-payment statement carries over between directories with
      the same links. */
  lemma MembersPaidCarry(dir: seq<Agent>, paid: seq<Agent>, out: seq<Agent>)
    requires SameLinks(dir, paid) && |out| == |dir|
    requires forall i {:trigger paid[i].isMember} :: 0 <= i < |paid| && paid[i].isMember ==>
               exists j :: 0 <= j < |paid| && paid[j].id == paid[i].leaderId && out[i].payoff == out[j].coalitionPayoff
    ensures forall i {:trigger dir[i].isMember} :: 0 <= i < |dir| && dir[i].isMember ==>
              exists j :: 0 <= j < |dir| && dir[j].id == dir[i].leaderId && out[i].payoff == out[j].coalitionPayoff
  {
    forall i | 0 <= i < |dir| && dir[i].isMember
      ensures exists j :: 0 <= j < |dir| && dir[j].id == dir[i].leaderId && out[i].payoff == out[j].coalitionPayoff
    {
      assert paid[i].isMember;
      var j :| 0 <= j < |paid| && paid[j].id == paid[i].leaderId && out[i].payoff == out[j].coalitionPayoff;
      assert dir[j].id == dir[i].leaderId;
    }
  }
}
