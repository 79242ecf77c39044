/** Integer codes, agent identifiers and the C++ integer operations the
    simulation relies on. */
module Codes {

  // Actions an agent plays in a round.
  const DEFECT: int := 0
  const COOPERATE: int := 1

  // Action-choice strategies.
  const PTFT: int := 0
  const TFT: int := 1
  const RANDOM: int := 2

  // Strategy selector that makes every agent draw its own strategy.
  const DRAWN_STRATEGY: int := 3

  // Neighbourhood shapes.
  const VON_NEUMANN: int := 0
  const MOORE: int := 1

  // The only agent type the model creates.
  const AGENT_TYPE: int := 0

  /** An agent identifier: local index, starting rank (owner process) and type. */
  datatype AgentId = AgentId(id: int, proc: int, agentType: int)

  datatype Option<T> = None | Some(value: T)

  /** The action and strategy codes are pairwise distinct, so every branch
      on them is reachable by exactly one code. */
  lemma CodesDistinct()
    ensures DEFECT != COOPERATE
    ensures PTFT != TFT && TFT != RANDOM && PTFT != RANDOM
  {
  }

  /** The two neighbourhood shapes have distinct codes. */
  lemma ShapeCodesDistinct()
    ensures VON_NEUMANN != MOORE
  {
  }

  /** C++ `a % b` for a positive divisor: the remainder takes the sign of
      the dividend (truncating division), unlike Dafny's Euclidean `%`. */
  function CRem(a: int, b: int): (r: int)
    requires b > 0
    ensures -b < r < b
    ensures a >= 0 ==> r == a % b
    ensures a <= 0 ==> r <= 0
    ensures a == CQuot(a, b) * b + r
  {
    if a >= 0 then a % b else -((-a) % b)
  }

  /** C++ `a / b` for a positive divisor: rounds toward zero. */
  function CQuot(a: int, b: int): (q: int)
    requires b > 0
    ensures a >= 0 ==> q * b <= a < q * b + b
    ensures a <= 0 ==> q * b - b < a <= q * b
  {
    if a >= 0 then a / b else -((-a) / b)
  }

  /** The C++ cast `(int) r` of a floating value: truncation toward zero. */
  function TruncToInt(r: real): (n: int)
    ensures 0.0 <= r ==> 0 <= n && n as real <= r < n as real + 1.0
    ensures r <= 0.0 ==> n <= 0 && n as real - 1.0 < r <= n as real
  {
    if r >= 0.0 then r.Floor else -((-r).Floor)
  }

  /** C `ceil`: the least integer not below r. */
  function Ceil(r: real): (n: int)
    ensures r <= n as real < r + 1.0
    ensures 0.0 < r <= 1.0 ==> n == 1
    ensures -1.0 < r <= 0.0 ==> n == 0
  {
    -((-r).Floor)
  }
}
