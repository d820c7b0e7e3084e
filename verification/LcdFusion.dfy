/** Fusing the status entries of several agents onto six LCD slots through a
    changing partition. */
module LcdFusion {
  import opened Bytes
  import opened Agents

  const LCD_SLOTS: nat := 6

  /** One owner, or none, per slot. */
  type Partition = p: seq<Option<AgentId>> | |p| == LCD_SLOTS witness seq(6, _ => None)

  /** The slots of an agent among the first n, in order. */
  function SlotsUpTo(p: Partition, agent: AgentId, n: nat): (slots: seq<nat>)
    requires n <= LCD_SLOTS
    ensures forall i | 0 <= i < |slots| :: slots[i] < n && p[slots[i]] == Some(agent)
    ensures forall s: nat | s < n && p[s] == Some(agent) :: s in slots
    ensures forall i, j | 0 <= i < j < |slots| :: slots[i] < slots[j]
    ensures |slots| <= n
    decreases n
  {
    if n == 0 then []
    else SlotsUpTo(p, agent, n - 1) + if p[n - 1] == Some(agent) then [n - 1] else []
  }

  function SlotsFor(p: Partition, agent: AgentId): (slots: seq<nat>)
    ensures |slots| <= LCD_SLOTS
  {
    SlotsUpTo(p, agent, LCD_SLOTS)
  }

  /** The position of a value in a sequence that contains it. */
  function Position(slots: seq<nat>, s: nat): (i: nat)
    requires s in slots
    ensures i < |slots| && slots[i] == s
    decreases |slots|
  {
    if slots[0] == s then 0 else 1 + Position(slots[1..], s)
  }

  /** The index a slot's owner uses for it. */
  function LocalIndex(p: Partition, s: nat): (i: nat)
    requires s < LCD_SLOTS && p[s].Some?
    ensures i < |SlotsFor(p, p[s].value)| && SlotsFor(p, p[s].value)[i] == s
  {
    Position(SlotsFor(p, p[s].value), s)
  }

  /** For every partition, an agent's local indices and its slots correspond one
      to one. */
  lemma LocalIndexBijective(p: Partition, agent: AgentId)
    ensures forall s: nat | s < LCD_SLOTS && p[s] == Some(agent) ::
      LocalIndex(p, s) < |SlotsFor(p, agent)| && SlotsFor(p, agent)[LocalIndex(p, s)] == s
    ensures forall i: nat | i < |SlotsFor(p, agent)| ::
      var s := SlotsFor(p, agent)[i];
      s < LCD_SLOTS && p[s] == Some(agent) && LocalIndex(p, s) == i
    ensures |SlotsFor(p, agent)| <= LCD_SLOTS
  {
    var slots := SlotsFor(p, agent);
    forall i: nat | i < |slots|
      ensures slots[i] < LCD_SLOTS && p[slots[i]] == Some(agent) && LocalIndex(p, slots[i]) == i
    {
      var s := slots[i];
      assert s in slots;
      var k := LocalIndex(p, s);
      assert slots[k] == slots[i];
    }
  }

  // ---- Entries ----

  /** A status entry: an object, of which four fields matter here, or any other
      JSON value. */
  datatype Entry =
    | Card(id: Option<nat>, index: Option<nat>, agent: Option<AgentId>, brightness: Option<real>, other: string)
    | NotObject(text: string)

  const OFF: Entry := Card(None, None, None, None, "{\"e\":0}")

  function Clamp(x: real): real {
    if x < 0.0 then 0.0 else if x > 1.0 then 1.0 else x
  }

  /** What a card shows in a given slot. */
  function Normalize(e: Entry, slot: nat, agent: AgentId): Entry {
    match e
    case NotObject(_) => e
    case Card(_, _, _, b, other) =>
      Card(Some(slot), Some(slot), Some(agent),
           if b.Some? && b.value > 1.0 then Some(Clamp(b.value / 100.0)) else b, other)
  }

  /** A card already prepared for a slot is not changed by preparing it again,
      and prepared brightness is at most 1. */
  lemma NormalizeTwice(e: Entry, slot: nat, agent: AgentId)
    ensures Normalize(Normalize(e, slot, agent), slot, agent) == Normalize(e, slot, agent)
    ensures e.Card? && e.brightness.Some? ==> Normalize(e, slot, agent).brightness.value <= 1.0
  {}

  // ---- Fusion ----

  /** One local buffer of six entries per agent. */
  type Entries = e: seq<seq<Option<Entry>>> | |e| == AGENT_COUNT && forall i | 0 <= i < |e| :: |e[i]| == LCD_SLOTS
    witness seq(4, _ => seq(6, _ => None))

  const BLANK: Entries := seq(AGENT_COUNT, _ => seq(LCD_SLOTS, _ => None))

  function Shown(entries: Entries, p: Partition, s: nat): Entry
    requires s < LCD_SLOTS
  {
    if p[s].None? then OFF
    else
      var agent := p[s].value;
      var e := entries[Index(agent)][LocalIndex(p, s)];
      if e.None? then OFF else Normalize(e.value, s, agent)
  }

  function Fused(entries: Entries, p: Partition): seq<Entry> {
    seq(LCD_SLOTS, s requires 0 <= s < LCD_SLOTS => Shown(entries, p, s))
  }

  function Overwrite(row: seq<Option<Entry>>, sent: seq<Entry>): (r: seq<Option<Entry>>)
    ensures |r| == |row|
    ensures forall i | 0 <= i < |row| :: r[i] == if i < |sent| then Some(sent[i]) else row[i]
  {
    seq(|row|, i requires 0 <= i < |row| => if i < |sent| then Some(sent[i]) else row[i])
  }

  function Merged(entries: Entries, agent: AgentId, sent: seq<Entry>): Entries {
    entries[Index(agent) := Overwrite(entries[Index(agent)], sent)]
  }

  class FusedLcdState {
    var entries: Entries

    constructor ()
      ensures entries == BLANK
    {
      entries := BLANK;
    }

    /** Stores at most six of the entries sent, and renders. */
    method MergeFromAgent(agent: AgentId, sent: seq<Entry>, p: Partition) returns (fused: seq<Entry>)
      modifies this
      ensures entries == Merged(old(entries), agent, sent)
      ensures fused == Fused(entries, p)
    {
      var row := entries[Index(agent)];
      ghost var before := row;
      var i := 0;
      while i < |sent| && i < LCD_SLOTS
        invariant i <= |sent| && i <= LCD_SLOTS && |row| == LCD_SLOTS
        invariant forall j | 0 <= j < LCD_SLOTS :: row[j] == if j < i then Some(sent[j]) else before[j]
      {
        row := row[i := Some(sent[i])];
        i := i + 1;
      }
      assert row == Overwrite(before, sent);
      entries := entries[Index(agent) := row];
      fused := FusedArray(p);
    }

    method FusedArray(p: Partition) returns (fused: seq<Entry>)
      ensures fused == Fused(entries, p)
    {
      hide Shown;
      fused := [];
      for s := 0 to LCD_SLOTS
        invariant |fused| == s && forall t | 0 <= t < s :: fused[t] == Shown(entries, p, t)
      {
        fused := fused + [Shown(entries, p, s)];
      }
    }
  }

  // ---- Histories ----

  datatype Act = Merge(agent: AgentId, sent: seq<Entry>) | Repartition(partition: Partition)

  datatype Board = Board(entries: Entries, partition: Partition)

  const IDLE: Board := Board(BLANK, seq(LCD_SLOTS, _ => None))

  function Do(b: Board, act: Act): Board {
    match act
    case Merge(agent, sent) => b.(entries := Merged(b.entries, agent, sent))
    case Repartition(partition) => b.(partition := partition)
  }

  function DoAll(b: Board, acts: seq<Act>): Board
    decreases |acts|
  {
    if acts == [] then b else Do(DoAll(b, acts[..|acts| - 1]), acts[|acts| - 1])
  }

  /** The last entry an agent ever sent at one of its local indices. */
  function LastSent(acts: seq<Act>, agent: AgentId, i: nat): Option<Entry>
    decreases |acts|
  {
    if acts == [] then None
    else
      var last := acts[|acts| - 1];
      if last.Merge? && last.agent == agent && i < |last.sent| then Some(last.sent[i])
      else LastSent(acts[..|acts| - 1], agent, i)
  }

  lemma {:induction false} BuffersHoldLastSent(acts: seq<Act>, agent: AgentId, i: nat)
    requires i < LCD_SLOTS
    ensures DoAll(IDLE, acts).entries[Index(agent)][i] == LastSent(acts, agent, i)
    decreases |acts|
  {
    if acts == [] {
    } else {
      BuffersHoldLastSent(acts[..|acts| - 1], agent, i);
      var last := acts[|acts| - 1];
      if last.Merge? && Index(last.agent) == Index(agent) {
        IndexInjective(last.agent, agent);
      }
    }
  }

  /** After any interleaving of merges and repartitions, a slot shows the last
      entry its present owner ever sent at its index for that slot, prepared
      for the slot, or off. Only the final partition matters. */
  lemma SlotShowsLastSent(acts: seq<Act>, s: nat)
    requires s < LCD_SLOTS
    ensures var b := DoAll(IDLE, acts);
      Fused(b.entries, b.partition)[s] ==
        if b.partition[s].None? then OFF
        else
          var owner := b.partition[s].value;
          var sent := LastSent(acts, owner, LocalIndex(b.partition, s));
          if sent.None? then OFF else Normalize(sent.value, s, owner)
  {
    hide LastSent, DoAll, LocalIndex, SlotsFor, Normalize;
    var b := DoAll(IDLE, acts);
    if b.partition[s].Some? {
      BuffersHoldLastSent(acts, b.partition[s].value, LocalIndex(b.partition, s));
    }
  }
}
