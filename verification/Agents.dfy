/** The four agents, in the order of their array index. */
module Agents {

  datatype AgentId = Codex | ZCode | Hermes | Claude

  const AGENT_COUNT: nat := 4

  function Index(agent: AgentId): (i: nat)
    ensures i < AGENT_COUNT
  {
    match agent
    case Codex => 0
    case ZCode => 1
    case Hermes => 2
    case Claude => 3
  }

  lemma IndexInjective(a: AgentId, b: AgentId)
    requires Index(a) == Index(b)
    ensures a == b
  {}

  /** The agents in priority order. */
  const PRIORITY: seq<AgentId> := [Codex, Claude, ZCode, Hermes]
}
