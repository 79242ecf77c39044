/** The wire record that carries an agent's state between processes, its
    field-by-field serialisation, and the three operations that use it:
    packaging a local agent, building a replica from a record, and
    refreshing an existing replica from a record. */
module Wire {
  import opened Codes
  import opened Agents
  import opened Directory

  /** The flat record for one agent: its id triple, position, status
      flags, its leader's id triple, action and the two payoffs. */
  datatype Package = Package(
    id: int,
    proc: int,
    agentType: int,
    x: int,
    y: int,
    isIndependent: bool,
    isMember: bool,
    isLeader: bool,
    leaderId: int,
    leaderProc: int,
    leaderType: int,
    action: int,
    payoff: real,
    coalitionPayoff: real)

  /** The id triple rebuilt from the record's flat fields. */
  function GetId(p: Package): (r: AgentId)
    ensures r.id == p.id && r.proc == p.proc && r.agentType == p.agentType
  {
    AgentId(p.id, p.proc, p.agentType)
  }

  /** The leader's id triple rebuilt from the record's flat fields. */
  function GetLeaderId(p: Package): (r: AgentId)
    ensures r.id == p.leaderId && r.proc == p.leaderProc && r.agentType == p.leaderType
  {
    AgentId(p.leaderId, p.leaderProc, p.leaderType)
  }

  /** Two records carry the same id exactly when their three id fields
      agree, so the id triple is all the record needs to name its agent. */
  lemma GetIdInjective(p: Package, q: Package)
    ensures GetId(p) == GetId(q) <==> p.id == q.id && p.proc == q.proc && p.agentType == q.agentType
  {
  }

  /** Likewise for the leader's id triple. */
  lemma GetLeaderIdInjective(p: Package, q: Package)
    ensures GetLeaderId(p) == GetLeaderId(q) <==>
              p.leaderId == q.leaderId && p.leaderProc == q.leaderProc && p.leaderType == q.leaderType
  {
  }

  // ---------------------------------------------------------------------
  // Serialisation

  /** One primitive value written to an archive. */
  datatype Field = IntField(i: int) | BoolField(b: bool) | RealField(r: real)

  /** The archive contents of a record: each of its fourteen fields once, in
      declaration order. */
  function Serialize(p: Package): (s: seq<Field>)
    ensures |s| == 14
  {
    [IntField(p.id), IntField(p.proc), IntField(p.agentType), IntField(p.x), IntField(p.y),
     BoolField(p.isIndependent), BoolField(p.isMember), BoolField(p.isLeader),
     IntField(p.leaderId), IntField(p.leaderProc), IntField(p.leaderType),
     IntField(p.action), RealField(p.payoff), RealField(p.coalitionPayoff)]
  }

  /** Whether the first fourteen fields of `s` have the kinds a record's
      fields have, in order. */
  predicate PackageShape(s: seq<Field>)
  {
    && |s| >= 14
    && s[0].IntField? && s[1].IntField? && s[2].IntField? && s[3].IntField? && s[4].IntField?
    && s[5].BoolField? && s[6].BoolField? && s[7].BoolField?
    && s[8].IntField? && s[9].IntField? && s[10].IntField? && s[11].IntField?
    && s[12].RealField? && s[13].RealField?
  }

  /** Read one record from the front of an archive, returning it and the
      unread remainder; fails on a short archive or a field of the wrong
      kind. */
  function Deserialize(s: seq<Field>): (r: Option<(Package, seq<Field>)>)
    ensures r.Some? <==> PackageShape(s)
    ensures r.Some? ==> r.value.1 == s[14..]
  {
    if !PackageShape(s) then None
    else
      Some((Package(s[0].i, s[1].i, s[2].i, s[3].i, s[4].i,
                    s[5].b, s[6].b, s[7].b,
                    s[8].i, s[9].i, s[10].i, s[11].i,
                    s[12].r, s[13].r), s[14..]))
  }

  /** Reading back what was written yields the same record and leaves the
      rest of the archive unread. */
  lemma SerializeRoundTrip(p: Package, rest: seq<Field>)
    ensures Deserialize(Serialize(p) + rest) == Some((p, rest))
  {
    var s := Serialize(p) + rest;
    assert s[14..] == rest;
  }

  /** Conversely, whatever a successful read consumed is exactly the
      serialisation of the record it returned. */
  lemma DeserializeIsInverse(s: seq<Field>)
    requires Deserialize(s).Some?
    ensures s == Serialize(Deserialize(s).value.0) + Deserialize(s).value.1
  {
    var p := Deserialize(s).value.0;
    assert s[..14] == Serialize(p);
    assert s == s[..14] + s[14..];
  }

  /** An edge record: the record of the edge's source agent, then the target's. */
  datatype Edge = Edge(source: Package, target: Package)

  /** The source agent's fields, then the target's: two well-shaped records
      back to back. */
  function SerializeEdge(e: Edge): (s: seq<Field>)
    ensures |s| == 28
    ensures PackageShape(s) && PackageShape(s[14..])
  {
    var s := Serialize(e.source) + Serialize(e.target);
    assert s[14..] == Serialize(e.target);
    s
  }

  /** Read a source record, then a target record; fails exactly when
      either of the two is short or has a field of the wrong kind. */
  function DeserializeEdge(s: seq<Field>): (r: Option<(Edge, seq<Field>)>)
    ensures r.Some? <==> PackageShape(s) && PackageShape(s[14..])
    ensures r.Some? ==> r.value.1 == s[28..]
  {
    match Deserialize(s)
    case None => None
    case Some((src, rest)) =>
      match Deserialize(rest)
      case None => None
      case Some((tgt, rest')) => Some((Edge(src, tgt), rest'))
  }

  /** An edge round-trips as its two records do. */
  lemma EdgeRoundTrip(e: Edge, rest: seq<Field>)
    ensures DeserializeEdge(SerializeEdge(e) + rest) == Some((e, rest))
  {
    assert SerializeEdge(e) + rest == Serialize(e.source) + (Serialize(e.target) + rest);
    SerializeRoundTrip(e.source, Serialize(e.target) + rest);
    SerializeRoundTrip(e.target, rest);
  }

  // ---------------------------------------------------------------------
  // Agents and records

  /** The agent state a record carries matches between two agents. */
  predicate SameWireState(a: Agent, b: Agent)
  {
    && a.id == b.id && a.x == b.x && a.y == b.y
    && a.isIndependent == b.isIndependent && a.isMember == b.isMember && a.isLeader == b.isLeader
    && a.leaderId == b.leaderId && a.action == b.action
    && a.payoff == b.payoff && a.coalitionPayoff == b.coalitionPayoff
  }

  /** Package a local agent for sending. */
  function ProvideContent(a: Agent): (p: Package)
    ensures GetId(p) == a.id && GetLeaderId(p) == a.leaderId
  {
    Package(a.id.id, a.id.proc, a.id.agentType, a.x, a.y,
            a.isIndependent, a.isMember, a.isLeader,
            a.leaderId.id, a.leaderId.proc, a.leaderId.agentType,
            a.action, a.payoff, a.coalitionPayoff)
  }

  /** Build a replica from a record, as `LandModel::createAgent` does.
      The ten-argument `LandAgent` constructor it calls sets only the
      fields the record carries; strategy, trust settings, trust in the
      leader and the defector count are left unset there and get fixed
      placeholders here, and the neighbour and member lists start empty. */
  function CreateAgent(p: Package): (a: Agent)
    ensures a.id == GetId(p) && a.leaderId == GetLeaderId(p)
    ensures a.neighbors == [] && a.coalitionMembers == []
  {
    Agent(GetId(p), p.x, p.y, [], PTFT, false, 0.0, 0.0,
          p.isIndependent, p.isMember, p.isLeader, GetLeaderId(p), 0.0, [],
          p.coalitionPayoff, p.action, p.payoff, 0)
  }

  /** A replica built from an agent's record agrees with the agent on
      every field the record carries. */
  lemma ReplicaRoundTrip(a: Agent)
    ensures SameWireState(CreateAgent(ProvideContent(a)), a)
  {
  }

  /** Packaging a replica gives back the record it was built from. */
  lemma PackageRoundTrip(p: Package)
    ensures ProvideContent(CreateAgent(p)) == p
  {
  }

  /** Build one replica per received record, in order. */
  function CreateAgents(contents: seq<Package>): (out: seq<Agent>)
    ensures |out| == |contents|
    ensures forall i :: 0 <= i < |out| ==> ProvideContent(out[i]) == contents[i]
  {
    seq(|contents|, i requires 0 <= i < |contents| => CreateAgent(contents[i]))
  }

  /** Answer a request: one record for each requested id that the
      directory holds, in request order; ids it does not hold are skipped. */
  function ProvideContentFor(dir: seq<Agent>, ids: seq<AgentId>): (out: seq<Package>)
    ensures |out| <= |ids|
    ensures forall p :: p in out ==>
              GetId(p) in ids && Lookup(dir, GetId(p)).Some? && p == ProvideContent(Lookup(dir, GetId(p)).value)
    ensures forall i :: 0 <= i < |ids| && Contains(dir, ids[i]) ==> ProvideContent(Lookup(dir, ids[i]).value) in out
    ensures forall i :: 0 <= i < |ids| ==> Contains(dir, ids[i]) || forall p :: p in out ==> GetId(p) != ids[i]
  {
    if ids == [] then []
    else
      var rest := ProvideContentFor(dir, ids[1..]);
      match Lookup(dir, ids[0])
      case None => rest
      case Some(a) => [ProvideContent(a)] + rest
  }

  /** Overwrite the record-carried fields of one agent. */
  function ApplyPackage(a: Agent, p: Package): Agent
  {
    a.(x := p.x, y := p.y,
       isIndependent := p.isIndependent, isMember := p.isMember, isLeader := p.isLeader,
       leaderId := GetLeaderId(p), action := p.action,
       payoff := p.payoff, coalitionPayoff := p.coalitionPayoff)
  }

  /** Refresh a replica from a record: the agent with the record's id takes
      the record's position, status, leader, action and payoffs; its
      strategy, trust, neighbours and member list stay as they were; every
      other agent is untouched, and a record for an id the directory does
      not hold changes nothing. */
  function UpdateAgent(dir: seq<Agent>, p: Package): (r: seq<Agent>)
    ensures |r| == |dir|
    ensures forall i :: 0 <= i < |dir| && dir[i].id != GetId(p) ==> r[i] == dir[i]
    ensures forall i :: 0 <= i < |dir| && dir[i].id == GetId(p) ==>
              SameWireState(r[i], CreateAgent(p)) &&
              r[i] == dir[i].(x := r[i].x, y := r[i].y, isIndependent := r[i].isIndependent,
                              isMember := r[i].isMember, isLeader := r[i].isLeader,
                              leaderId := r[i].leaderId, action := r[i].action,
                              payoff := r[i].payoff, coalitionPayoff := r[i].coalitionPayoff)
    ensures !Contains(dir, GetId(p)) ==> r == dir
  {
    seq(|dir|, i requires 0 <= i < |dir| => if dir[i].id == GetId(p) then ApplyPackage(dir[i], p) else dir[i])
  }

  /** A sync step: refreshing a replica from its owner's record makes the
      replica agree with the owner on everything the record carries, and
      keeps the replica's id. */
  lemma SyncRefreshesReplica(dir: seq<Agent>, owner: Agent, i: int)
    requires 0 <= i < |dir| && dir[i].id == owner.id
    ensures SameWireState(UpdateAgent(dir, ProvideContent(owner))[i], owner)
  {
  }
}
