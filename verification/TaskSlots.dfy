/** Which agent owns which task-card slot. */
module TaskSlots {
  import opened Bytes
  import opened Agents

  type Owners = seq<Option<AgentId>>

  datatype Override = Override(slot: nat, agent: AgentId)

  /** The fixed layout of the Codex, ZCode and Hermes combination. */
  predicate FixedLayout(active: set<AgentId>) {
    Codex in active && ZCode in active && Hermes in active && Claude !in active
  }

  function ActiveAmong(active: set<AgentId>, agents: seq<AgentId>): (found: seq<AgentId>)
    ensures forall a :: a in found <==> a in agents && a in active
    decreases |agents|
  {
    if agents == [] then []
    else (if agents[0] in active then [agents[0]] else []) + ActiveAmong(active, agents[1..])
  }

  /** Active agents in priority order. */
  function ActiveAgents(active: set<AgentId>): seq<AgentId> {
    ActiveAmong(active, PRIORITY)
  }

  ghost predicate AllDifferent(agents: seq<AgentId>) {
    forall i, j | 0 <= i < j < |agents| :: agents[i] != agents[j]
  }

  lemma {:induction false} ActiveAmongDifferent(active: set<AgentId>, agents: seq<AgentId>)
    requires AllDifferent(agents)
    ensures AllDifferent(ActiveAmong(active, agents))
    decreases |agents|
  {
    if agents == [] {
    } else {
      ActiveAmongDifferent(active, agents[1..]);
      var found := ActiveAmong(active, agents[1..]);
      forall i | 0 <= i < |found| ensures found[i] != agents[0] {
        assert found[i] in found;
      }
    }
  }

  /** The list holds exactly the active agents, each once. */
  lemma ActiveAgentsExact(active: set<AgentId>)
    ensures forall a :: a in ActiveAgents(active) <==> a in active
    ensures AllDifferent(ActiveAgents(active))
    ensures ActiveAgents(active) == [] <==> active == {}
  {
    forall a: AgentId ensures a in PRIORITY {
      match a
      case Codex => assert PRIORITY[0] == a;
      case Claude => assert PRIORITY[1] == a;
      case ZCode => assert PRIORITY[2] == a;
      case Hermes => assert PRIORITY[3] == a;
    }
    ActiveAmongDifferent(active, PRIORITY);
    if ActiveAgents(active) != [] { assert ActiveAgents(active)[0] in active; }
  }

  function FixedOwner(slot: nat): Option<AgentId> {
    if slot == 0 || slot == 1 then Some(Codex)
    else if slot == 2 || slot == 5 then Some(Hermes)
    else if slot == 3 || slot == 4 then Some(ZCode)
    else None
  }

  /** Block number `index` of `blocks` equal ones; the last takes the rest. */
  function BlockStart(slots: nat, blocks: nat, index: nat): nat
    requires blocks > 0
  {
    index * (slots / blocks)
  }

  function BlockEnd(slots: nat, blocks: nat, index: nat): nat
    requires blocks > 0
  {
    if index + 1 == blocks then slots else (index + 1) * (slots / blocks)
  }

  lemma BlockBounds(slots: nat, blocks: nat, index: nat)
    requires index < blocks
    ensures BlockStart(slots, blocks, index) <= BlockEnd(slots, blocks, index) <= slots
    ensures index + 1 < blocks ==> BlockEnd(slots, blocks, index) == BlockStart(slots, blocks, index + 1)
    ensures BlockEnd(slots, blocks, index) - BlockStart(slots, blocks, index)
      == if index + 1 == blocks then slots - (blocks - 1) * (slots / blocks) else slots / blocks
  {
    var split := slots / blocks;
    assert (index + 1) * split == index * split + split;
    MulLess(index + 1, blocks, split);
    assert blocks * split <= slots;
  }

  lemma MulLess(a: nat, b: nat, c: nat)
    requires a <= b
    ensures a * c <= b * c
  {
    assert b * c == a * c + (b - a) * c;
  }

  ghost predicate InBlock(owners: Owners, agents: seq<AgentId>, slot: nat, index: nat)
    requires slot < |owners| && index < |agents|
  {
    && BlockStart(|owners|, |agents|, index) <= slot < BlockEnd(|owners|, |agents|, index)
    && owners[slot] == Some(agents[index])
  }

  /** The slot lies in one of the first `blocks` blocks and is owned accordingly. */
  ghost predicate Placed(owners: Owners, agents: seq<AgentId>, slot: nat, blocks: nat)
    requires slot < |owners| && blocks <= |agents|
  {
    exists i: nat | i < blocks :: InBlock(owners, agents, slot, i)
  }

  /** Contiguous blocks in priority order cover the slots. */
  ghost predicate InBlocks(owners: Owners, agents: seq<AgentId>) {
    agents != [] && forall slot: nat | slot < |owners| :: Placed(owners, agents, slot, |agents|)
  }

  /** The owner before overrides. */
  ghost predicate Automatic(owners: Owners, active: set<AgentId>) {
    if FixedLayout(active) then forall slot: nat | slot < |owners| :: owners[slot] == FixedOwner(slot)
    else if active == {} then forall slot: nat | slot < |owners| :: owners[slot] == None
    else InBlocks(owners, ActiveAgents(active))
  }

  /** The last override of a slot, if any. */
  function LastOverride(overrides: seq<Override>, slot: nat): Option<AgentId>
    decreases |overrides|
  {
    if overrides == [] then None
    else if overrides[|overrides| - 1].slot == slot then Some(overrides[|overrides| - 1].agent)
    else LastOverride(overrides[..|overrides| - 1], slot)
  }

  method FillRange(owners: array<Option<AgentId>>, start: nat, end: nat, agent: AgentId)
    requires start <= end <= owners.Length
    modifies owners
    ensures forall i | 0 <= i < owners.Length ::
      owners[i] == if start <= i < end then Some(agent) else old(owners[i])
  {
    var i := start;
    while i < end
      invariant start <= i <= end
      invariant forall j | 0 <= j < owners.Length ::
        owners[j] == if start <= j < i then Some(agent) else old(owners[j])
    {
      owners[i] := Some(agent);
      i := i + 1;
    }
  }

  method SetIfInRange(owners: array<Option<AgentId>>, slot: nat, agent: AgentId)
    modifies owners
    ensures forall i | 0 <= i < owners.Length :: owners[i] == if i == slot then Some(agent) else old(owners[i])
  {
    if slot < owners.Length {
      owners[slot] := Some(agent);
    }
  }

  method FillFixed(owners: array<Option<AgentId>>)
    requires forall i | 0 <= i < owners.Length :: owners[i] == None
    modifies owners
    ensures forall i: nat | i < owners.Length :: owners[i] == FixedOwner(i)
  {
    SetIfInRange(owners, 0, Codex);
    SetIfInRange(owners, 1, Codex);
    SetIfInRange(owners, 2, Hermes);
    SetIfInRange(owners, 5, Hermes);
    SetIfInRange(owners, 3, ZCode);
    SetIfInRange(owners, 4, ZCode);
  }

  /** How far the first `index` blocks reach. */
  ghost function Reach(slots: nat, blocks: nat, index: nat): nat
    requires index <= blocks && blocks > 0
  {
    if index == blocks then slots else BlockStart(slots, blocks, index)
  }

  lemma PlacedStays(before: Owners, after: Owners, agents: seq<AgentId>, slot: nat, blocks: nat)
    requires |before| == |after| && slot < |before| && before[slot] == after[slot]
    requires blocks < |agents| && Placed(before, agents, slot, blocks)
    ensures Placed(after, agents, slot, blocks + 1)
  {
    hide BlockStart, BlockEnd;
    var i: nat :| i < blocks && InBlock(before, agents, slot, i);
    assert InBlock(after, agents, slot, i);
  }

  method FillBlocks(owners: array<Option<AgentId>>, agents: seq<AgentId>)
    requires agents != []
    modifies owners
    ensures InBlocks(owners[..], agents)
  {
    var n := owners.Length;
    var split := n / |agents|;
    var index := 0;
    while index < |agents|
      invariant index <= |agents|
      invariant forall slot: nat | slot < n && slot < Reach(n, |agents|, index) :: Placed(owners[..], agents, slot, index)
    {
      var start := index * split;
      var end := if index + 1 == |agents| then n else (index + 1) * split;
      BlockBounds(n, |agents|, index);
      assert start == BlockStart(n, |agents|, index) && end == BlockEnd(n, |agents|, index);
      assert start == Reach(n, |agents|, index) && end == Reach(n, |agents|, index + 1);
      ghost var before := owners[..];
      FillRange(owners, start, end, agents[index]);
      ghost var after, next := owners[..], index + 1;
      forall slot: nat | slot < n && slot < Reach(n, |agents|, next)
        ensures Placed(after, agents, slot, next)
      {
        hide BlockStart, BlockEnd;
        if slot < start {
          assert Placed(before, agents, slot, index);
          PlacedStays(before, after, agents, slot, index);
        } else {
          assert InBlock(after, agents, slot, index);
        }
      }
      index := index + 1;
    }
  }

  method ApplyOverrides(owners: array<Option<AgentId>>, overrides: seq<Override>)
    modifies owners
    ensures forall slot: nat | slot < owners.Length ::
      owners[slot] == if LastOverride(overrides, slot).Some? then LastOverride(overrides, slot) else old(owners[slot])
  {
    var i := 0;
    while i < |overrides|
      invariant i <= |overrides|
      invariant forall slot: nat | slot < owners.Length ::
        owners[slot] == if LastOverride(overrides[..i], slot).Some? then LastOverride(overrides[..i], slot) else old(owners[slot])
    {
      assert overrides[..i + 1][..i] == overrides[..i];
      SetIfInRange(owners, overrides[i].slot, overrides[i].agent);
      i := i + 1;
    }
    assert overrides[..|overrides|] == overrides;
  }

  lemma OneBlock(owners: Owners, agents: seq<AgentId>)
    requires |agents| == 1 && forall slot: nat | slot < |owners| :: owners[slot] == Some(agents[0])
    ensures InBlocks(owners, agents)
  {
    forall slot: nat | slot < |owners| ensures Placed(owners, agents, slot, 1) {
      assert InBlock(owners, agents, slot, 0);
    }
  }

  /** Fills the owners of `slotCount` slots: the automatic layout, then the
      overrides. Each slot ends with its last override, and the slots without
      one are those of the automatic layout. */
  method TaskSlotOwners(slotCount: nat, active: set<AgentId>, overrides: seq<Override>)
    returns (owners: array<Option<AgentId>>, ghost automatic: Owners)
    ensures fresh(owners) && owners.Length == |automatic| == slotCount
    ensures Automatic(automatic, active)
    ensures forall slot: nat | slot < slotCount ::
      owners[slot] == if LastOverride(overrides, slot).Some? then LastOverride(overrides, slot) else automatic[slot]
  {
    owners := new Option<AgentId>[slotCount](_ => None);
    if FixedLayout(active) {
      FillFixed(owners);
      automatic := owners[..];
    } else {
      var agents := ActiveAgents(active);
      ActiveAgentsExact(active);
      if |agents| == 1 {
        FillRange(owners, 0, slotCount, agents[0]);
        automatic := owners[..];
        OneBlock(automatic, agents);
      } else if |agents| >= 2 {
        FillBlocks(owners, agents);
        automatic := owners[..];
      } else {
        automatic := owners[..];
      }
    }
    ApplyOverrides(owners, overrides);
  }

  // ---- How many slots each agent gets ----

  function Count(owners: Owners, agent: AgentId): nat
    decreases |owners|
  {
    if owners == [] then 0
    else Count(owners[..|owners| - 1], agent) + if owners[|owners| - 1] == Some(agent) then 1 else 0
  }

  method TaskSlotsForAgent(owners: array<Option<AgentId>>, agent: AgentId) returns (count: nat)
    ensures count == Count(owners[..], agent)
  {
    count := 0;
    for i := 0 to owners.Length
      invariant count == Count(owners[..i], agent)
    {
      assert owners[..i + 1][..i] == owners[..i];
      if owners[i] == Some(agent) {
        count := count + 1;
      }
    }
    assert owners[..owners.Length] == owners[..];
  }

  lemma {:induction false} CountRange(owners: Owners, agent: AgentId, start: nat, end: nat)
    requires start <= end
    requires forall i: nat | i < |owners| :: owners[i] == Some(agent) <==> start <= i < end
    ensures Count(owners, agent) ==
      if |owners| <= start then 0 else if |owners| <= end then |owners| - start else end - start
    decreases |owners|
  {
    if owners == [] {
    } else {
      CountRange(owners[..|owners| - 1], agent, start, end);
    }
  }

  lemma {:induction false} BlocksApart(slots: nat, blocks: nat, i: nat, j: nat)
    requires i < j < blocks
    ensures BlockEnd(slots, blocks, i) <= BlockStart(slots, blocks, j)
    decreases j
  {
    BlockBounds(slots, blocks, i);
    if i + 1 < j {
      BlocksApart(slots, blocks, i, j - 1);
      BlockBounds(slots, blocks, j - 1);
    }
  }

  /** Outside the fixed layout, with some agent active and no override, the
      agent of priority i owns exactly the slots of block i: floor(n/k) of them,
      the last agent everything that is left. */
  lemma BlockOwnership(owners: Owners, active: set<AgentId>, i: nat)
    requires Automatic(owners, active) && !FixedLayout(active) && active != {}
    requires i < |ActiveAgents(active)|
    ensures var agents := ActiveAgents(active);
      var n, k := |owners|, |agents|;
      && (forall slot: nat | slot < n ::
            owners[slot] == Some(agents[i]) <==> BlockStart(n, k, i) <= slot < BlockEnd(n, k, i))
      && Count(owners, agents[i]) == if i + 1 == k then n - (k - 1) * (n / k) else n / k
  {
    hide BlockStart, BlockEnd, ActiveAgents;
    ActiveAgentsExact(active);
    var agents := ActiveAgents(active);
    var n, k := |owners|, |agents|;
    forall slot: nat | slot < n
      ensures owners[slot] == Some(agents[i]) <==> BlockStart(n, k, i) <= slot < BlockEnd(n, k, i)
    {
      assert Placed(owners, agents, slot, k);
      var j: nat :| j < k && InBlock(owners, agents, slot, j);
      if i < j { BlocksApart(n, k, i, j); }
      if j < i { BlocksApart(n, k, j, i); }
    }
    BlockBounds(n, k, i);
    CountRange(owners, agents[i], BlockStart(n, k, i), BlockEnd(n, k, i));
  }

  /** Every slot then has an active owner. */
  lemma EverySlotOwned(owners: Owners, active: set<AgentId>, slot: nat)
    requires Automatic(owners, active) && !FixedLayout(active) && active != {} && slot < |owners|
    ensures owners[slot].Some? && owners[slot].value in active
  {
    hide BlockStart, BlockEnd, ActiveAgents;
    ActiveAgentsExact(active);
    var agents := ActiveAgents(active);
    assert Placed(owners, agents, slot, |agents|);
    var j: nat :| j < |agents| && InBlock(owners, agents, slot, j);
    assert agents[j] in agents;
  }

  function Owned(owners: Owners): nat
    decreases |owners|
  {
    if owners == [] then 0
    else Owned(owners[..|owners| - 1]) + if owners[|owners| - 1].Some? then 1 else 0
  }

  /** The per-agent counts add up to the owned slots, for any owners at all. */
  lemma {:induction false} CountsAddUp(owners: Owners)
    ensures Count(owners, Codex) + Count(owners, ZCode) + Count(owners, Hermes) + Count(owners, Claude) == Owned(owners)
    decreases |owners|
  {
    if owners == [] {
    } else {
      CountsAddUp(owners[..|owners| - 1]);
      match owners[|owners| - 1]
      case None =>
      case Some(Codex) =>
      case Some(ZCode) =>
      case Some(Hermes) =>
      case Some(Claude) =>
    }
  }

  /** How many slots of a range are named by an override. */
  function Named(overrides: seq<Override>, from: nat, to: nat): nat
    decreases to
  {
    if to <= from then 0
    else Named(overrides, from, to - 1) + if LastOverride(overrides, to - 1).Some? then 1 else 0
  }

  /** When the first m slots are owned anyway and the others only by override. */
  lemma {:induction false} OwnedBelow(owners: Owners, overrides: seq<Override>, m: nat)
    requires forall slot: nat | slot < |owners| ::
      owners[slot].Some? <==> slot < m || LastOverride(overrides, slot).Some?
    ensures Owned(owners) == if |owners| <= m then |owners| else m + Named(overrides, m, |owners|)
    decreases |owners|
  {
    hide LastOverride;
    if owners == [] {
    } else {
      OwnedBelow(owners[..|owners| - 1], overrides, m);
    }
  }

  /** So after any overrides, in range or not, the counts of all agents sum to
      the number of slots outside the fixed layout. In the fixed layout the slots
      from the seventh on, and with no agent active all slots, are owned only
      where an override names them. */
  lemma CountsSumToSlots(owners: Owners, automatic: Owners, active: set<AgentId>, overrides: seq<Override>)
    requires Automatic(automatic, active) && |owners| == |automatic|
    requires forall slot: nat | slot < |owners| ::
      owners[slot] == if LastOverride(overrides, slot).Some? then LastOverride(overrides, slot) else automatic[slot]
    ensures Count(owners, Codex) + Count(owners, ZCode) + Count(owners, Hermes) + Count(owners, Claude)
      == if active == {} then Named(overrides, 0, |owners|)
         else if FixedLayout(active) && |owners| > 6 then 6 + Named(overrides, 6, |owners|)
         else |owners|
  {
    hide LastOverride, Count, Owned, InBlocks;
    CountsAddUp(owners);
    if active == {} {
      OwnedBelow(owners, overrides, 0);
    } else if FixedLayout(active) {
      OwnedBelow(owners, overrides, 6);
    } else {
      forall slot: nat | slot < |owners| ensures owners[slot].Some? {
        EverySlotOwned(automatic, active, slot);
      }
      OwnedBelow(owners, overrides, |owners|);
    }
  }
}
