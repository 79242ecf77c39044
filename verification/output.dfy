/** The per-round statistics one process reports about its local agents. */
module Output {
  import opened Codes
  import opened Agents

  datatype Output = Output(
    numCoalitions: int,
    createdCoalitions: int,
    destroyedCoalitions: int,
    numInChanges: int,
    numOutChanges: int,
    numAgentsCoalitions: int,
    numAgentsIndependent: int,
    numIndependentPTFT: int,
    numIndependentTFT: int,
    numIndependentRandom: int,
    coalitionPayoff: real,
    independentPayoff: real)

  /** The bucket an agent is counted in: a set leader flag wins over a set
      member flag, which wins over a set independent flag; an agent with no
      flag set is counted nowhere. */
  datatype Bucket = LeaderBucket | MemberBucket | IndependentBucket | NoBucket

  function BucketOf(a: Agent): (b: Bucket)
    ensures b == LeaderBucket <==> a.isLeader
    ensures b == MemberBucket <==> !a.isLeader && a.isMember
    ensures b == IndependentBucket <==> !a.isLeader && !a.isMember && a.isIndependent
  {
    if a.isLeader then LeaderBucket
    else if a.isMember then MemberBucket
    else if a.isIndependent then IndependentBucket
    else NoBucket
  }

  /** With exactly one status flag set, an agent's bucket is its status. */
  lemma BucketOfExclusive(a: Agent)
    requires StatusExclusive(a)
    ensures BucketOf(a) != NoBucket
    ensures a.isMember ==> BucketOf(a) == MemberBucket
    ensures a.isIndependent ==> BucketOf(a) == IndependentBucket
  {
  }

  /** Reference counts over a sequence of agents. */
  function CountBucket(s: seq<Agent>, b: Bucket): nat
  {
    if s == [] then 0
    else CountBucket(s[..|s| - 1], b) + (if BucketOf(s[|s| - 1]) == b then 1 else 0)
  }

  function CountIndependentWith(s: seq<Agent>, strategy: int): nat
  {
    if s == [] then 0
    else
      var a := s[|s| - 1];
      CountIndependentWith(s[..|s| - 1], strategy)
        + (if BucketOf(a) == IndependentBucket && a.strategy == strategy then 1 else 0)
  }

  /** Sum of the payoffs of the agents in the given buckets. */
  function PayoffIn(s: seq<Agent>, bs: set<Bucket>): real
  {
    if s == [] then 0.0
    else PayoffIn(s[..|s| - 1], bs) + (if BucketOf(s[|s| - 1]) in bs then s[|s| - 1].payoff else 0.0)
  }

  /** Every agent falls in exactly one bucket, so the bucket counts add up
      to the number of agents. */
  lemma {:induction false} BucketsPartition(s: seq<Agent>)
    ensures CountBucket(s, LeaderBucket) + CountBucket(s, MemberBucket)
              + CountBucket(s, IndependentBucket) + CountBucket(s, NoBucket) == |s|
  {
    if s != [] {
      BucketsPartition(s[..|s| - 1]);
    }
  }

  /** The independents of each strategy are among the independents, and no
      independent is counted under two strategies. */
  lemma {:induction false} StrategyCountsBounded(s: seq<Agent>)
    ensures CountIndependentWith(s, PTFT) + CountIndependentWith(s, TFT) + CountIndependentWith(s, RANDOM)
              <= CountBucket(s, IndependentBucket)
  {
    if s != [] {
      StrategyCountsBounded(s[..|s| - 1]);
    }
  }

  /** Walk the local agents once and count them by status and, for
      independents, by strategy; sum the payoffs of coalition agents
      (leaders and members) and of independents.  Creation, destruction and
      membership changes are never counted and stay 0. */
  method UpdateOutput(local: seq<Agent>) returns (o: Output)
    ensures o.numCoalitions == CountBucket(local, LeaderBucket)
    ensures o.numAgentsCoalitions == CountBucket(local, LeaderBucket) + CountBucket(local, MemberBucket)
    ensures o.numAgentsIndependent == CountBucket(local, IndependentBucket)
    ensures o.numIndependentPTFT == CountIndependentWith(local, PTFT)
    ensures o.numIndependentTFT == CountIndependentWith(local, TFT)
    ensures o.numIndependentRandom == CountIndependentWith(local, RANDOM)
    ensures o.coalitionPayoff == PayoffIn(local, {LeaderBucket, MemberBucket})
    ensures o.independentPayoff == PayoffIn(local, {IndependentBucket})
    ensures o.createdCoalitions == 0 && o.destroyedCoalitions == 0
    ensures o.numInChanges == 0 && o.numOutChanges == 0
    ensures o.numCoalitions <= o.numAgentsCoalitions
    ensures o.numAgentsCoalitions + o.numAgentsIndependent <= |local|
    ensures o.numIndependentPTFT + o.numIndependentTFT + o.numIndependentRandom <= o.numAgentsIndependent
  {
    var numCoalitions, numAgentsCoalitions, numAgentsIndependent := 0, 0, 0;
    var numPTFT, numTFT, numRandom := 0, 0, 0;
    var coalitionPayoff, independentPayoff := 0.0, 0.0;
    var i := 0;
    while i < |local|
      invariant 0 <= i <= |local|
      invariant numCoalitions == CountBucket(local[..i], LeaderBucket)
      invariant numAgentsCoalitions == CountBucket(local[..i], LeaderBucket) + CountBucket(local[..i], MemberBucket)
      invariant numAgentsIndependent == CountBucket(local[..i], IndependentBucket)
      invariant numPTFT == CountIndependentWith(local[..i], PTFT)
      invariant numTFT == CountIndependentWith(local[..i], TFT)
      invariant numRandom == CountIndependentWith(local[..i], RANDOM)
      invariant coalitionPayoff == PayoffIn(local[..i], {LeaderBucket, MemberBucket})
      invariant independentPayoff == PayoffIn(local[..i], {IndependentBucket})
    {
      var a := local[i];
      assert local[..i + 1][..i] == local[..i];
      if a.isLeader {
        numCoalitions := numCoalitions + 1;
        numAgentsCoalitions := numAgentsCoalitions + 1;
        coalitionPayoff := coalitionPayoff + a.payoff;
      } else if a.isMember {
        numAgentsCoalitions := numAgentsCoalitions + 1;
        coalitionPayoff := coalitionPayoff + a.payoff;
      } else if a.isIndependent {
        numAgentsIndependent := numAgentsIndependent + 1;
        if a.strategy == PTFT {
          numPTFT := numPTFT + 1;
        } else if a.strategy == TFT {
          numTFT := numTFT + 1;
        } else if a.strategy == RANDOM {
          numRandom := numRandom + 1;
        }
        independentPayoff := independentPayoff + a.payoff;
      }
      i := i + 1;
    }
    assert local[..i] == local;
    BucketsPartition(local);
    StrategyCountsBounded(local);
    o := Output(numCoalitions, 0, 0, 0, 0, numAgentsCoalitions, numAgentsIndependent,
                numPTFT, numTFT, numRandom, coalitionPayoff, independentPayoff);
  }
}
