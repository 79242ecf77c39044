/** The agent directory: every agent the simulation holds, in iteration
    order, looked up by id. */
module Directory {
  import opened Codes
  import opened Agents

  /** No two agents of the directory share an id. */
  predicate UniqueIds(dir: seq<Agent>)
  {
    forall i, j :: 0 <= i < j < |dir| ==> dir[i].id != dir[j].id
  }

  predicate Contains(dir: seq<Agent>, id: AgentId)
  {
    exists i :: 0 <= i < |dir| && dir[i].id == id
  }

  /** The agent with the given id, if the directory holds one. */
  function Lookup(dir: seq<Agent>, id: AgentId): (r: Option<Agent>)
    ensures r.None? <==> !Contains(dir, id)
    ensures r.Some? ==> r.value in dir && r.value.id == id
  {
    if dir == [] then None
    else if dir[0].id == id then Some(dir[0])
    else
      var rest := Lookup(dir[1..], id);
      assert Contains(dir[1..], id) ==> Contains(dir, id) by {
        if Contains(dir[1..], id) {
          var i :| 0 <= i < |dir[1..]| && dir[1..][i].id == id;
          assert dir[i + 1].id == id;
        }
      }
      assert Contains(dir, id) ==> Contains(dir[1..], id) by {
        if Contains(dir, id) {
          var i :| 0 <= i < |dir| && dir[i].id == id;
          assert i != 0;
          assert dir[1..][i - 1].id == id;
        }
      }
      rest
  }

  /** With unique ids, the agent found is the one at the position holding
      that id. */
  lemma LookupAt(dir: seq<Agent>, i: int)
    requires UniqueIds(dir)
    requires 0 <= i < |dir|
    ensures Lookup(dir, dir[i].id) == Some(dir[i])
  {
    if i > 0 && dir[0].id != dir[i].id {
      assert dir[1..][i - 1] == dir[i];
      LookupAt(dir[1..], i - 1);
    }
  }
}
